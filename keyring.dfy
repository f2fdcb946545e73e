/** The keyring container of the OpenPGP layer: a buffer of records, each
    one type octet (0 = keyring file name, 1 = keyring data in memory), a
    4-octet big-endian size and `size` octets of payload. Only the record at
    a given offset is ever read back; lookups read the one at offset 0. */
module Keyring {
  import opened Common

  const KIND_FILE: byte := 0
  const KIND_DATA: byte := 1

  // ---------------------------------------------------------------------
  // 32-bit big-endian integers

  /** The four big-endian octets of the low 32 bits of `n`, as the shifts
      `(size >> 24) & 0xff` ... `size & 0xff` produce them. */
  function U32ToBytes(n: nat): (b: seq<byte>)
    ensures |b| == 4
  {
    [(n / 0x100_0000) % 0x100, (n / 0x1_0000) % 0x100, (n / 0x100) % 0x100, n % 0x100]
  }

  /** buffer_to_u32: the big-endian value of the first four octets, or 0 for
      a NULL buffer. */
  function BufferToU32(buffer: Option<seq<byte>>): (u: nat)
    requires buffer.Some? ==> |buffer.value| >= 4
    ensures u < U32_LIMIT
    ensures buffer.None? ==> u == 0
  {
    if buffer.None? then 0
    else
      var b := buffer.value;
      b[0] as int * 0x100_0000 + b[1] as int * 0x1_0000 + b[2] as int * 0x100 + b[3] as int
  }

  /** A product with a factor of at least one is at least the other factor. */
  lemma MulAtLeast(a: nat, d: nat)
    requires 1 <= a
    ensures a * d >= d
  {
    assert a * d == (a - 1) * d + d;
  }

  /** Division by a positive number is determined by quotient and remainder. */
  lemma DivModUnique(n: nat, d: nat, q: nat, r: nat)
    requires 0 < d && n == q * d + r && r < d
    ensures n / d == q && n % d == r
  {
    var q', r' := n / d, n % d;
    assert n == q' * d + r';
    if q' < q {
      assert q * d == (q - q') * d + q' * d;
      MulAtLeast(q - q', d);
    } else if q' > q {
      assert q' * d == (q' - q) * d + q * d;
      MulAtLeast(q' - q, d);
    }
  }

  /** Decoding the encoding of a 32-bit value gives the value back. */
  lemma U32RoundTrip(n: nat)
    requires n < U32_LIMIT
    ensures BufferToU32(Some(U32ToBytes(n))) == n
  {
    var b := U32ToBytes(n);
    assert n == (n / 0x100_0000) * 0x100_0000 + (n % 0x100_0000);
    assert n % 0x100_0000 == ((n / 0x1_0000) % 0x100) * 0x1_0000 + n % 0x1_0000;
    assert n % 0x1_0000 == ((n / 0x100) % 0x100) * 0x100 + n % 0x100;
  }

  /** Encoding the decoded value of four octets gives the octets back; with
      U32RoundTrip the two directions make the decoder a bijection. */
  lemma BytesRoundTrip(b: seq<byte>)
    requires |b| >= 4
    ensures U32ToBytes(BufferToU32(Some(b))) == b[..4]
  {
    var n := BufferToU32(Some(b));
    var b0, b1, b2, b3 := b[0] as nat, b[1] as nat, b[2] as nat, b[3] as nat;
    DivModUnique(n, 0x100_0000, b0, b1 * 0x1_0000 + b2 * 0x100 + b3);
    DivModUnique(n, 0x1_0000, b0 * 0x100 + b1, b2 * 0x100 + b3);
    DivModUnique(b0 * 0x100 + b1, 0x100, b0, b1);
    DivModUnique(n, 0x100, b0 * 0x1_0000 + b1 * 0x100 + b2, b3);
    DivModUnique(b0 * 0x1_0000 + b1 * 0x100 + b2, 0x100, b0 * 0x100 + b1, b2);
  }

  // ---------------------------------------------------------------------
  // Writing a record

  /** The octets of the record conv_data_to_keyring builds: the kind
      truncated to an octet, the payload length truncated to 32 bits in
      big-endian order, then the payload. */
  function KeyringRecord(kind: int, payload: seq<byte>): seq<byte>
  {
    [kind % 0x100] + U32ToBytes(|payload|) + payload
  }

  /** conv_data_to_keyring: a NULL payload gives NULL; otherwise a fresh
      buffer of 1 + 4 + size octets filled with the record. */
  method ConvDataToKeyring(kind: int, data: Option<seq<byte>>) returns (r: Option<seq<byte>>)
    ensures data.None? <==> r.None?
    ensures data.Some? ==> r == Some(KeyringRecord(kind, data.value))
  {
    if data.None? {
      return None;
    }
    var d := data.value;
    var size := |d|;
    var p := new byte[1 + 4 + size];
    p[0] := kind % 0x100;
    p[1] := (size / 0x100_0000) % 0x100;
    p[2] := (size / 0x1_0000) % 0x100;
    p[3] := (size / 0x100) % 0x100;
    p[4] := size % 0x100;
    var i := 0;
    while i < size
      invariant 0 <= i <= size
      invariant p[..5] == [kind % 0x100] + U32ToBytes(size)
      invariant p[5..5 + i] == d[..i]
    {
      p[5 + i] := d[i];
      i := i + 1;
    }
    assert p[..] == p[..5] + p[5..5 + size];
    assert d[..size] == d;
    return Some(p[..]);
  }

  /** The record starts with the kind octet and the big-endian size, and
      carries the payload unchanged after them. */
  lemma KeyringRecordLayout(kind: int, payload: seq<byte>)
    requires |payload| < U32_LIMIT
    ensures |KeyringRecord(kind, payload)| == 1 + 4 + |payload|
    ensures KeyringRecord(kind, payload)[0] == kind % 0x100
    ensures BufferToU32(Some(KeyringRecord(kind, payload)[1..5])) == |payload|
    ensures KeyringRecord(kind, payload)[5..] == payload
  {
    var r := KeyringRecord(kind, payload);
    assert r[1..5] == U32ToBytes(|payload|);
    U32RoundTrip(|payload|);
  }

  // ---------------------------------------------------------------------
  // Reading a record back

  /** A record as read_keyring_blob returns it: its kind, its size, and a
      copy of the payload followed by a NUL octet. */
  datatype KeyringBlob = KeyringBlob(kind: byte, size: nat, data: seq<byte>)

  /** The invariant of every blob read_keyring_blob returns. */
  predicate ValidBlob(blob: KeyringBlob)
  {
    && (blob.kind == KIND_FILE || blob.kind == KIND_DATA)
    && 0 < blob.size < U32_LIMIT
    && |blob.data| == blob.size + 1
    && blob.data[blob.size] == 0
  }

  /** The record at offset `pos` of a keyring, with the bounds checks the
      C function lacks: a record whose header or payload runs past the end
      of the buffer is rejected like a malformed one (see Findings). */
  function KeyringBlobAt(keyring: Option<seq<byte>>, pos: nat): Option<KeyringBlob>
  {
    if keyring.None? || pos > |keyring.value| then None
    else
      var k := keyring.value;
      if pos + 5 > |k| then None
      else if k[pos] != KIND_FILE && k[pos] != KIND_DATA then None
      else
        var size := BufferToU32(Some(k[pos + 1..pos + 5]));
        if size == 0 then None
        else if pos + 5 + size > |k| then None
        else Some(KeyringBlob(k[pos], size, k[pos + 5..pos + 5 + size] + [0]))
  }

  /** read_keyring_blob: checks the position, the kind octet and the size,
      then copies the payload into a fresh, NUL-terminated buffer. */
  method ReadKeyringBlob(keyring: Option<seq<byte>>, pos: nat) returns (blob: Option<KeyringBlob>)
    ensures blob == KeyringBlobAt(keyring, pos)
  {
    if keyring.None? || pos > |keyring.value| {
      return None;
    }
    var k := keyring.value;
    if pos + 5 > |k| {
      return None;
    }
    var kind := k[pos];
    if kind != KIND_FILE && kind != KIND_DATA {
      return None;
    }
    var size := BufferToU32(Some(k[pos + 1..pos + 5]));
    if size == 0 || pos + 5 + size > |k| {
      return None;
    }
    var data := new byte[size + 1];
    var i := 0;
    while i < size
      invariant 0 <= i <= size
      invariant data[..i] == k[pos + 5..pos + 5 + i]
    {
      data[i] := k[pos + 5 + i];
      i := i + 1;
    }
    data[size] := 0;
    assert data[..] == data[..size] + [0];
    return Some(KeyringBlob(kind, size, data[..]));
  }

  /** Every blob read is well formed: kind 0 or 1, a non-zero size, the
      payload copied from just after the header and a NUL after it. */
  lemma ReadBlobIsValid(keyring: Option<seq<byte>>, pos: nat)
    requires KeyringBlobAt(keyring, pos).Some?
    ensures ValidBlob(KeyringBlobAt(keyring, pos).value)
    ensures var b := KeyringBlobAt(keyring, pos).value;
            pos + 5 + b.size <= |keyring.value| &&
            b.data[..b.size] == keyring.value[pos + 5..pos + 5 + b.size]
  {
    var k := keyring.value;
    var b := KeyringBlobAt(keyring, pos).value;
    assert b.data == k[pos + 5..pos + 5 + b.size] + [0];
  }

  /** A record is rejected exactly when the position is past the end, the
      header does not fit, the kind is neither 0 nor 1, the size is zero or
      the payload does not fit; nothing partial is ever returned. */
  lemma ReadBlobRejects(k: seq<byte>, pos: nat)
    ensures KeyringBlobAt(Some(k), pos).None? <==>
      (pos + 5 > |k|
       || (k[pos] != KIND_FILE && k[pos] != KIND_DATA)
       || BufferToU32(Some(k[pos + 1..pos + 5])) == 0
       || pos + 5 + BufferToU32(Some(k[pos + 1..pos + 5])) > |k|)
  {
  }

  /** Round trip: a record written for kind 0 or 1 and a non-empty payload
      reads back, at the offset where it was appended and whatever follows
      it, as the same kind, size and payload followed by a NUL. */
  lemma {:induction false} RecordRoundTrip(before: seq<byte>, kind: byte, payload: seq<byte>, after: seq<byte>)
    requires kind == KIND_FILE || kind == KIND_DATA
    requires 0 < |payload| < U32_LIMIT
    ensures KeyringBlobAt(Some(before + KeyringRecord(kind, payload) + after), |before|)
         == Some(KeyringBlob(kind, |payload|, payload + [0]))
  {
    var rec := KeyringRecord(kind, payload);
    var k := before + rec + after;
    var pos := |before|;
    KeyringRecordLayout(kind, payload);
    assert k[pos..pos + |rec|] == rec;
    assert k[pos] == rec[0];
    assert k[pos + 1..pos + 5] == rec[1..5];
    assert k[pos + 5..pos + 5 + |payload|] == rec[5..];
  }

  /** A record with an empty payload (what adding the empty file name
      writes) can never be read back. */
  lemma EmptyRecordRejected(before: seq<byte>, kind: int, after: seq<byte>)
    ensures KeyringBlobAt(Some(before + KeyringRecord(kind, []) + after), |before|).None?
  {
    var k := before + KeyringRecord(kind, []) + after;
    var pos := |before|;
    assert k[pos + 1..pos + 5] == U32ToBytes(0);
    U32RoundTrip(0);
  }

  /** A record whose kind octet is neither 0 nor 1 can never be read back. */
  lemma BadKindRejected(before: seq<byte>, kind: int, payload: seq<byte>, after: seq<byte>)
    requires kind % 0x100 != KIND_FILE as int && kind % 0x100 != KIND_DATA as int
    ensures KeyringBlobAt(Some(before + KeyringRecord(kind, payload) + after), |before|).None?
  {
    var k := before + KeyringRecord(kind, payload) + after;
    assert |k| >= |before| + 5 ==> k[|before|] == kind % 0x100;
  }

  // ---------------------------------------------------------------------
  // The read as written, without the bounds checks

  /** What the C read_keyring_blob does: it stops at a rejection, at the
      first octet it reads past the end of the buffer, or with a blob. */
  datatype BlobReadAsWritten = Rejected | ReadsPastEnd(index: nat) | Read(blob: KeyringBlob)

  /** read_keyring_blob as written: `pos == size` passes the guard, and the
      header and `size` octets of payload are read without comparing them
      with the length of the buffer. */
  function ReadKeyringBlobAsWritten(keyring: Option<seq<byte>>, pos: nat): BlobReadAsWritten
  {
    if keyring.None? || pos > |keyring.value| then Rejected
    else
      var k := keyring.value;
      if pos == |k| then ReadsPastEnd(pos)
      else if k[pos] > 1 then Rejected
      else if pos + 5 > |k| then ReadsPastEnd(|k|)
      else
        var size := BufferToU32(Some(k[pos + 1..pos + 5]));
        if size == 0 then Rejected
        else if pos + 5 + size > |k| then ReadsPastEnd(|k|)
        else Read(KeyringBlob(k[pos], size, k[pos + 5..pos + 5 + size] + [0]))
  }

  /** The discrepancy: an empty keyring, a truncated header and a size
      field larger than the remaining payload all make the C code read past
      the buffer, where the checked read rejects them. */
  lemma AsWrittenReadsPastEnd()
    ensures ReadKeyringBlobAsWritten(Some([]), 0) == ReadsPastEnd(0)
    ensures ReadKeyringBlobAsWritten(Some([1, 0]), 0) == ReadsPastEnd(2)
    ensures ReadKeyringBlobAsWritten(Some([1, 0, 0, 0, 9, 0x41]), 0) == ReadsPastEnd(6)
    ensures KeyringBlobAt(Some([]), 0).None?
    ensures KeyringBlobAt(Some([1, 0]), 0).None?
    ensures KeyringBlobAt(Some([1, 0, 0, 0, 9, 0x41]), 0).None?
  {
    assert [1, 0, 0, 0, 9, 0x41][1..5] == [0, 0, 0, 9];
  }

  /** Whenever the C code stays inside the buffer, the checked read returns
      exactly what it returns. */
  lemma CheckedReadAgreesInBounds(keyring: Option<seq<byte>>, pos: nat)
    requires !ReadKeyringBlobAsWritten(keyring, pos).ReadsPastEnd?
    ensures KeyringBlobAt(keyring, pos) ==
      (match ReadKeyringBlobAsWritten(keyring, pos)
       case Read(b) => Some(b)
       case _ => None)
  {
  }

  // ---------------------------------------------------------------------
  // Keyring handles

  /** The OpenCDK key database handle built from a blob: a file name, or an
      in-memory buffer holding the payload. */
  datatype KeydbHandle = FileHandle(name: seq<byte>) | MemoryHandle(buf: seq<byte>)

  /** The octets of a NUL-terminated string: everything before the first
      NUL (what strlen counts and cdk_strdup copies). */
  function CString(s: seq<byte>): (r: seq<byte>)
    ensures |r| <= |s| && r == s[..|r|]
    ensures 0 !in r
    ensures |r| < |s| ==> s[|r|] == 0
  {
    if s == [] || s[0] == 0 then [] else [s[0]] + CString(s[1..])
  }

  /** A string without NUL octets reads back whole once terminated. */
  lemma {:induction false} CStringOfTerminated(s: seq<byte>, rest: seq<byte>)
    requires 0 !in s
    ensures CString(s + [0] + rest) == s
  {
    if s != [] {
      assert (s + [0] + rest)[1..] == s[1..] + [0] + rest;
      CStringOfTerminated(s[1..], rest);
    }
  }

  /** keyring_to_keydb: kind 0 names a keyring file (the payload as a C
      string), kind 1 is keyring data (the payload's `size` octets), any
      other kind has no handle. */
  function KeyringToKeydb(blob: KeyringBlob): Option<KeydbHandle>
    requires blob.size <= |blob.data|
  {
    if blob.kind == KIND_FILE then Some(FileHandle(CString(blob.data)))
    else if blob.kind == KIND_DATA then Some(MemoryHandle(blob.data[..blob.size]))
    else None
  }

  /** The first record of a keyring, when it reads back, always has a
      handle: the handle of the record a lookup opens. Later records never
      influence it. */
  function FirstHandle(keyring: Option<seq<byte>>): Option<KeydbHandle>
  {
    match KeyringBlobAt(keyring, 0)
    case None => None
    case Some(b) => KeyringToKeydb(b)
  }

  /** Adding a keyring file name and opening the first record gives a file
      handle with that very name, whatever records were appended after. */
  lemma AddedFileOpensAsFile(name: seq<byte>, after: seq<byte>)
    requires 0 < |name| < U32_LIMIT && 0 !in name
    ensures FirstHandle(Some(KeyringRecord(KIND_FILE as int, name) + after)) == Some(FileHandle(name))
  {
    RecordRoundTrip([], KIND_FILE, name, after);
    assert [] + KeyringRecord(KIND_FILE as int, name) + after == KeyringRecord(KIND_FILE as int, name) + after;
    CStringOfTerminated(name, []);
    assert name + [0] == name + [0] + [];
  }

  /** Adding keyring data and opening the first record gives an in-memory
      handle holding exactly that data, whatever records were appended after. */
  lemma AddedDataOpensAsMemory(data: seq<byte>, after: seq<byte>)
    requires 0 < |data| < U32_LIMIT
    ensures FirstHandle(Some(KeyringRecord(KIND_DATA as int, data) + after)) == Some(MemoryHandle(data))
  {
    RecordRoundTrip([], KIND_DATA, data, after);
    assert [] + KeyringRecord(KIND_DATA as int, data) + after == KeyringRecord(KIND_DATA as int, data) + after;
    assert (data + [0])[..|data|] == data;
  }

  /** A blob read from a keyring always has a handle. */
  lemma ReadBlobHasHandle(keyring: Option<seq<byte>>, pos: nat)
    requires KeyringBlobAt(keyring, pos).Some?
    ensures KeyringToKeydb(KeyringBlobAt(keyring, pos).value).Some?
  {
  }

  // ---------------------------------------------------------------------
  // The growable keyring buffer

  /** A gnutls_datum that keyring records are appended to in place. */
  class KeyringDatum {
    var data: seq<byte>

    constructor ()
      ensures data == []
    {
      data := [];
    }
  }

  /** gnutls_openpgp_add_keyring_file: appends a kind-0 record holding the
      file name (without its terminating NUL). */
  method AddKeyringFile(keyring: KeyringDatum?, name: Option<seq<byte>>) returns (rc: Outcome<Error>)
    requires name.Some? ==> 0 !in name.value
    modifies keyring
    ensures keyring == null || name.None? ==> rc == Fail(InvalidParameters)
    ensures keyring != null && name.None? ==> keyring.data == old(keyring.data)
    ensures keyring != null && name.Some? ==>
      rc == Pass && keyring.data == old(keyring.data) + KeyringRecord(KIND_FILE as int, name.value)
  {
    if keyring == null || name.None? {
      return Fail(InvalidParameters);
    }
    var blob := ConvDataToKeyring(KIND_FILE as int, name);
    keyring.data := keyring.data + blob.value;
    return Pass;
  }

  /** gnutls_openpgp_add_keyring_mem: appends a kind-1 record holding the
      data; a NULL keyring, NULL data or zero length is refused. */
  method AddKeyringMem(keyring: KeyringDatum?, data: Option<seq<byte>>) returns (rc: Outcome<Error>)
    modifies keyring
    ensures keyring == null || data.None? || data.value == [] ==> rc == Fail(InvalidParameters)
    ensures keyring != null && (data.None? || data.value == []) ==> keyring.data == old(keyring.data)
    ensures keyring != null && data.Some? && data.value != [] ==>
      rc == Pass && keyring.data == old(keyring.data) + KeyringRecord(KIND_DATA as int, data.value)
  {
    if keyring == null || data.None? || data.value == [] {
      return Fail(InvalidParameters);
    }
    var blob := ConvDataToKeyring(KIND_DATA as int, data);
    keyring.data := keyring.data + blob.value;
    return Pass;
  }
}
