/** The conversion and lookup layer over the OpenPGP packet codec: turning
    a public-key packet into a certificate, finding a key in a keyring,
    verifying a key, its fingerprint and the name in its user id. The codec
    (OpenCDK) and the big-integer library (libgcrypt) are the `Codec`
    oracle; nothing here re-specifies OpenPGP packet parsing. */
module OpenPgp {
  import opened Common
  import opened Keyring
  import opened Packets

  /** An MPI scanned into the big-integer library's representation. */
  datatype Mpi = Mpi(magnitude: nat)

  /** How cdk_keydb_search_key is asked to find a key: by the low 32 bits
      of the key id, by the whole 64-bit key id, or by the 20-octet
      fingerprint. */
  datatype KeydbSearch =
    | SearchShortKeyId(low: nat)
    | SearchKeyId(high: nat, low: nat)
    | SearchFpr(fpr: seq<byte>)

  /** The state cdk_key_check_sigs reports for a key; `KeyOther` is any
      state the mapping does not list. */
  datatype KeyState = KeyInvalid | KeyRevoked | KeyExpired | KeyValid | KeyOther(code: int)

  /** What cdk_key_check_sigs returns: success, "no key", "bad signature",
      or another codec error code. */
  datatype SigCheck = SigsGood | NoKey | BadSignature | CheckFailed(code: int)

  /** The foreign calls the layer makes, as functions of their inputs. */
  datatype Codec = Codec(
    parse: seq<byte> -> Option<seq<Packet>>,                  // cdk_pkt_parse reaching end of input
    search: (KeydbHandle, KeydbSearch) -> Option<seq<Packet>>, // cdk_keydb_search_key
    createFpr: PublicKey -> seq<byte>,                         // cdk_key_create_fpr
    checkSigs: (seq<Packet>, KeydbHandle) -> (SigCheck, KeyState), // cdk_key_check_sigs
    scanMpi: (seq<byte>, nat) -> Option<Mpi>)                  // gcry_mpi_scan, PGP format

  // ---------------------------------------------------------------------
  // Algorithm policy

  /** The library's public-key algorithm tag of a certificate. */
  datatype PkAlgorithm = PkUnknown | PkRsa | PkDsa

  /** The certificate type tag. */
  datatype CertType = CrtUnset | CrtOpenPgp

  /** The two X.509 key-usage bits an OpenPGP key can be given. */
  datatype KeyUsageBit = DigitalSignature | EncipherOnly

  /** The capacity of a certificate's parameter array. */
  const MAX_PARAMS_SIZE: nat := 6

  /** The certificate's algorithm tag: DSA for DSA keys, RSA for all others
      that are not refused. */
  function AlgorithmOf(algo: nat): PkAlgorithm
  {
    if IsDsa(algo) then PkDsa else PkRsa
  }

  /** The key usage set for an algorithm, or None when the certificate's
      key-usage field is left as it was. */
  function KeyUsageFor(algo: nat): Option<set<KeyUsageBit>>
  {
    if IsDsa(algo) || algo == PKE_RSA_S then Some({DigitalSignature})
    else if algo == PKE_RSA_E then Some({EncipherOnly})
    else if algo == PKE_RSA_ES then Some({DigitalSignature, EncipherOnly})
    else None
  }

  /** Section 9.1 of RFC 2440: the algorithms allowed to sign. */
  predicate CanSign(algo: nat)
  {
    algo == PKE_RSA_ES || algo == PKE_RSA_S || algo == PKE_DSA || algo == PKE_ELG_ES
  }

  /** Section 9.1 of RFC 2440: the algorithms allowed to encrypt. */
  predicate CanEncrypt(algo: nat)
  {
    algo == PKE_RSA_ES || algo == PKE_RSA_E || algo == PKE_ELG_E || algo == PKE_ELG_ES
  }

  /** The usage bits follow the algorithm's capabilities: a key is given
      the signature bit exactly when its algorithm may sign and the
      encipher bit exactly when it may encrypt, for every RSA and DSA id;
      every other id leaves the field alone. */
  lemma KeyUsageMatchesCapabilities(algo: nat)
    ensures KeyUsageFor(algo).Some? <==> IsRsa(algo) || IsDsa(algo)
    ensures KeyUsageFor(algo).Some? ==>
      (DigitalSignature in KeyUsageFor(algo).value <==> CanSign(algo)) &&
      (EncipherOnly in KeyUsageFor(algo).value <==> CanEncrypt(algo))
  {
  }

  /** A certificate never holds more parameters than its array has room for. */
  lemma ParamsFitCapacity(algo: nat)
    ensures NumPublicMpis(algo) <= MAX_PARAMS_SIZE
  {
  }

  // ---------------------------------------------------------------------
  // Scanning the MPIs of a key

  /** gcry_mpi_scan on one MPI in PGP format: its octets and a length
      that counts the 2-octet bit-count prefix (section 3.2 of RFC 2440)
      on top of the magnitude. */
  function ScanMpi(codec: Codec, m: RawMpi): Option<Mpi>
  {
    codec.scanMpi(m.data, m.bytes + 2)
  }

  /** The MPIs of a key scanned in order: all of them, or the index of the
      first one that does not scan. */
  function ScanParams(codec: Codec, mpis: seq<RawMpi>): (r: Result<seq<Mpi>, nat>)
    ensures r.Ok? ==>
      && |r.value| == |mpis|
      && (forall k :: 0 <= k < |mpis| ==> ScanMpi(codec, mpis[k]) == Some(r.value[k]))
    ensures r.Err? ==>
      && r.error < |mpis|
      && ScanMpi(codec, mpis[r.error]).None?
      && (forall k :: 0 <= k < r.error ==> ScanMpi(codec, mpis[k]).Some?)
  {
    if mpis == [] then Ok([])
    else match ScanMpi(codec, mpis[0])
      case None => Err(0)
      case Some(m) =>
        match ScanParams(codec, mpis[1..])
        case Ok(ms) => Ok([m] + ms)
        case Err(i) => Err(i + 1)
  }

  /** The public MPIs a key's algorithm calls for. */
  function KeyMpis(pk: PublicKey): seq<RawMpi>
  {
    pk.mpis[..NumPublicMpis(pk.pkeAlgo)]
  }

  /** Whether openpgp_pk_to_gnutls_cert succeeds on a key. */
  predicate ConversionSucceeds(codec: Codec, pk: PublicKey)
  {
    !IsElg(pk.pkeAlgo) && ScanParams(codec, KeyMpis(pk)).Ok?
  }

  // ---------------------------------------------------------------------
  // The certificate

  /** A gnutls_cert that the conversion fills in place; `params` is the
      fixed array of MPI slots (None is a NULL slot). */
  class Cert {
    var subjectPkAlgorithm: PkAlgorithm
    var version: nat
    var valid: bool
    var certType: CertType
    var fingerprint: seq<byte>
    var keyUsage: set<KeyUsageBit>
    var params: array<Option<Mpi>>
    var paramsSize: nat
    var expirationTime: nat
    var activationTime: nat

    /** A zeroed certificate with empty parameter slots. */
    constructor ()
      ensures fresh(params) && params.Length == MAX_PARAMS_SIZE
      ensures forall k :: 0 <= k < params.Length ==> params[k].None?
      ensures subjectPkAlgorithm == PkUnknown && certType == CrtUnset && !valid
      ensures version == 0 && fingerprint == [] && keyUsage == {} && paramsSize == 0
      ensures expirationTime == 0 && activationTime == 0
    {
      subjectPkAlgorithm := PkUnknown;
      version := 0;
      valid := false;
      certType := CrtUnset;
      fingerprint := [];
      keyUsage := {};
      params := new Option<Mpi>[MAX_PARAMS_SIZE](_ => None);
      paramsSize := 0;
      expirationTime := 0;
      activationTime := 0;
    }

    /** The certificate holds key `pk`: every field set from the key and
        each public MPI scanned into its slot. */
    predicate HoldsKey(codec: Codec, pk: PublicKey)
      reads this, params
    {
      && subjectPkAlgorithm == AlgorithmOf(pk.pkeAlgo)
      && version == pk.version
      && !valid
      && certType == CrtOpenPgp
      && fingerprint == codec.createFpr(pk)
      && (KeyUsageFor(pk.pkeAlgo).Some? ==> keyUsage == KeyUsageFor(pk.pkeAlgo).value)
      && paramsSize == NumPublicMpis(pk.pkeAlgo)
      && paramsSize <= params.Length
      && (forall k :: 0 <= k < paramsSize ==> params[k] == ScanMpi(codec, pk.mpis[k]))
      && expirationTime == pk.expiredate
      && activationTime == pk.timestamp
    }
  }

  /** release_mpi_array, called with the number of slots to free: frees and
      clears the first n slots. */
  method ReleaseMpiArray(arr: array<Option<Mpi>>, n: nat)
    requires n <= arr.Length
    modifies arr
    ensures forall k :: 0 <= k < n ==> arr[k].None?
    ensures arr[n..] == old(arr[n..])
  {
    var i := 0;
    while i < n
      invariant 0 <= i <= n
      invariant forall k :: 0 <= k < i ==> arr[k].None?
      invariant arr[i..] == old(arr[i..])
    {
      arr[i] := None;
      i := i + 1;
    }
  }

  /** The scan loop of openpgp_pk_to_gnutls_cert with its cleanup: scans
      each MPI into its slot in order; at the first that does not scan, the
      slots filled so far are released. The outcome is the in-order scan of
      the MPIs. */
  method ScanInto(params: array<Option<Mpi>>, mpis: seq<RawMpi>, codec: Codec) returns (r: Result<seq<Mpi>, nat>)
    requires |mpis| <= params.Length
    modifies params
    ensures r == ScanParams(codec, mpis)
    ensures r.Ok? ==>
      && (forall k :: 0 <= k < |mpis| ==> params[k] == Some(r.value[k]))
      && params[|mpis|..] == old(params[|mpis|..])
    ensures r.Err? ==>
      && (forall k :: 0 <= k < r.error ==> params[k].None?)
      && params[r.error..] == old(params[r.error..])
  {
    var ms: seq<Mpi> := [];
    var i := 0;
    while i < |mpis|
      invariant 0 <= i <= |mpis| && |ms| == i
      invariant forall k :: 0 <= k < i ==> ScanMpi(codec, mpis[k]) == Some(ms[k]) && params[k] == Some(ms[k])
      invariant params[i..] == old(params[i..])
    {
      var m := ScanMpi(codec, mpis[i]);
      if m.None? {
        ReleaseMpiArray(params, i);
        return Err(i);
      }
      params[i] := m;
      ms := ms + [m.value];
      i := i + 1;
    }
    assert ScanParams(codec, mpis).Ok?;
    assert ScanParams(codec, mpis).value == ms;
    return Ok(ms);
  }

  /** openpgp_pk_to_gnutls_cert: refuses a NULL certificate or key and any
      ElGamal key (touching nothing), then sets the algorithm tag, version,
      validity, type, fingerprint and key usage, and scans the key's MPIs
      into the parameter slots. When one does not scan, the slots filled so
      far are released and the times are not set. */
  method PkToCert(cert: Cert?, pk: Option<PublicKey>, codec: Codec) returns (rc: Outcome<Error>)
    requires cert != null ==> cert.params.Length == MAX_PARAMS_SIZE
    modifies cert, if cert == null then {} else {cert.params}
    ensures cert == null || pk.None? ==> rc == Fail(InvalidParameters)
    ensures cert != null && pk.None? ==> unchanged(cert) && unchanged(cert.params)
    ensures cert != null && pk.Some? && IsElg(pk.value.pkeAlgo) ==>
      rc == Fail(UnwantedAlgorithm) && unchanged(cert) && unchanged(cert.params)
    ensures cert != null && pk.Some? && !IsElg(pk.value.pkeAlgo) ==>
      var key := pk.value;
      && cert.params == old(cert.params)
      && cert.subjectPkAlgorithm == AlgorithmOf(key.pkeAlgo)
      && cert.version == key.version
      && !cert.valid
      && cert.certType == CrtOpenPgp
      && cert.fingerprint == codec.createFpr(key)
      && cert.keyUsage == (if KeyUsageFor(key.pkeAlgo).Some? then KeyUsageFor(key.pkeAlgo).value else old(cert.keyUsage))
      && cert.paramsSize == NumPublicMpis(key.pkeAlgo)
    ensures cert != null && pk.Some? && !IsElg(pk.value.pkeAlgo) ==>
      var key := pk.value;
      var n := NumPublicMpis(key.pkeAlgo);
      match ScanParams(codec, KeyMpis(key))
      case Ok(ms) =>
        && rc == Pass
        && (forall k :: 0 <= k < n ==> cert.params[k] == Some(ms[k]))
        && cert.params[n..] == old(cert.params[n..])
        && cert.expirationTime == key.expiredate
        && cert.activationTime == key.timestamp
      case Err(i) =>
        && rc == Fail(MpiScanFailed)
        && (forall k :: 0 <= k < i ==> cert.params[k].None?)
        && cert.params[i..] == old(cert.params[i..])
        && cert.expirationTime == old(cert.expirationTime)
        && cert.activationTime == old(cert.activationTime)
  {
    if cert == null || pk.None? {
      return Fail(InvalidParameters);
    }
    var key := pk.value;
    if IsElg(key.pkeAlgo) {
      return Fail(UnwantedAlgorithm);
    }
    SetKeyFields(cert, key, codec);
    var scanned := ScanInto(cert.params, KeyMpis(key), codec);
    if scanned.Err? {
      return Fail(MpiScanFailed);
    }
    cert.expirationTime := key.expiredate;
    cert.activationTime := key.timestamp;
    return Pass;
  }

  /** The fields openpgp_pk_to_gnutls_cert sets before scanning the MPIs:
      algorithm tag, version, validity, type, fingerprint, key usage when
      the algorithm has one, and the number of parameters. */
  method SetKeyFields(cert: Cert, key: PublicKey, codec: Codec)
    modifies cert
    ensures cert.subjectPkAlgorithm == AlgorithmOf(key.pkeAlgo)
    ensures cert.version == key.version && !cert.valid && cert.certType == CrtOpenPgp
    ensures cert.fingerprint == codec.createFpr(key)
    ensures cert.keyUsage == (if KeyUsageFor(key.pkeAlgo).Some? then KeyUsageFor(key.pkeAlgo).value else old(cert.keyUsage))
    ensures cert.paramsSize == NumPublicMpis(key.pkeAlgo)
    ensures cert.params == old(cert.params)
    ensures cert.expirationTime == old(cert.expirationTime) && cert.activationTime == old(cert.activationTime)
  {
    cert.subjectPkAlgorithm := AlgorithmOf(key.pkeAlgo);
    cert.version := key.version;
    cert.valid := false;
    cert.certType := CrtOpenPgp;
    cert.fingerprint := codec.createFpr(key);
    var usage := KeyUsageFor(key.pkeAlgo);
    if usage.Some? {
      cert.keyUsage := usage.value;
    }
    cert.paramsSize := NumPublicMpis(key.pkeAlgo);
  }

  /** A successful conversion leaves the certificate holding the key. */
  lemma PassedConversionHoldsKey(cert: Cert, codec: Codec, pk: PublicKey)
    requires ConversionSucceeds(codec, pk)
    requires cert.params.Length == MAX_PARAMS_SIZE
    requires cert.subjectPkAlgorithm == AlgorithmOf(pk.pkeAlgo) && cert.version == pk.version
    requires !cert.valid && cert.certType == CrtOpenPgp && cert.fingerprint == codec.createFpr(pk)
    requires KeyUsageFor(pk.pkeAlgo).Some? ==> cert.keyUsage == KeyUsageFor(pk.pkeAlgo).value
    requires cert.paramsSize == NumPublicMpis(pk.pkeAlgo)
    requires forall k :: 0 <= k < cert.paramsSize ==> cert.params[k] == Some(ScanParams(codec, KeyMpis(pk)).value[k])
    requires cert.expirationTime == pk.expiredate && cert.activationTime == pk.timestamp
    ensures cert.HoldsKey(codec, pk)
  {
    var ms := ScanParams(codec, KeyMpis(pk)).value;
    forall k | 0 <= k < cert.paramsSize
      ensures cert.params[k] == ScanMpi(codec, pk.mpis[k])
    {
      assert KeyMpis(pk)[k] == pk.mpis[k];
    }
  }

  /** Releasing after a failed scan as the C code does: the count passed is
      one less than the number of slots filled, in size_t arithmetic. */
  function AsWrittenReleaseCount(filled: nat): nat
  {
    (filled + SIZE_LIMIT - 1) % SIZE_LIMIT
  }

  /** The parameter slots after the C code's release, or None when the
      release runs past the end of the array. */
  function ReleasedAsWritten(params: seq<Option<Mpi>>, filled: nat): Option<seq<Option<Mpi>>>
  {
    var n := AsWrittenReleaseCount(filled);
    if n > |params| then None
    else Some(seq(n, _ => None) + params[n..])
  }

  /** Two witnesses: when the first MPI fails to scan (nothing filled) the
      count wraps to 2^64 - 1 and the release walks past the 6-slot array;
      when the third fails, the MPI scanned into slot 1 is not released. */
  lemma AsWrittenReleaseMisses()
    ensures AsWrittenReleaseCount(0) == SIZE_LIMIT - 1
    ensures ReleasedAsWritten(seq(MAX_PARAMS_SIZE, _ => None), 0).None?
    ensures var filled := [Some(Mpi(3)), Some(Mpi(5)), None, None, None, None];
      ReleasedAsWritten(filled, 2) == Some([None, Some(Mpi(5)), None, None, None, None])
  {
    var filled := [Some(Mpi(3)), Some(Mpi(5)), None, None, None, None];
    assert seq(1, _ => None) + filled[1..] == [None, Some(Mpi(5)), None, None, None, None];
  }

  // ---------------------------------------------------------------------
  // Looking a key up in a keyring

  /** The attribute a key is looked up by. */
  datatype KeyAttr = AttrNone | AttrShortKeyId | AttrKeyId | AttrFpr

  /** The pattern octets each attribute reads: 4 (or a NULL pattern) for a
      short key id, 8 for a key id, 20 for a fingerprint. */
  predicate PatternFits(attr: KeyAttr, pattern: Option<seq<byte>>)
  {
    match attr
    case AttrNone => true
    case AttrShortKeyId => pattern.None? || |pattern.value| >= 4
    case AttrKeyId => pattern.Some? && |pattern.value| >= 8
    case AttrFpr => pattern.Some? && |pattern.value| >= 20
  }

  /** The attribute switch of gnutls_openpgp_get_key: the search request
      built from the attribute and its pattern. */
  function BuildSearch(attr: KeyAttr, pattern: Option<seq<byte>>): Option<KeydbSearch>
    requires PatternFits(attr, pattern)
  {
    match attr
    case AttrNone => None
    case AttrShortKeyId => Some(SearchShortKeyId(BufferToU32(pattern)))
    case AttrKeyId =>
      Some(SearchKeyId(BufferToU32(Some(pattern.value[..4])), BufferToU32(Some(pattern.value[4..8]))))
    case AttrFpr => Some(SearchFpr(pattern.value[..20]))
  }

  /** A 64-bit key id written as a pattern: high word then low word, each
      big-endian. */
  function KeyIdPattern(high: nat, low: nat): seq<byte>
  {
    U32ToBytes(high) + U32ToBytes(low)
  }

  /** Searching by key id recovers both words of the pattern, by short key
      id the word written, and by fingerprint the 20 octets given; anything
      after those octets is ignored. */
  lemma {:induction false} SearchRecoversPattern(high: nat, low: nat, fpr: seq<byte>, rest: seq<byte>)
    requires high < U32_LIMIT && low < U32_LIMIT && |fpr| == 20
    ensures BuildSearch(AttrKeyId, Some(KeyIdPattern(high, low) + rest)) == Some(SearchKeyId(high, low))
    ensures BuildSearch(AttrShortKeyId, Some(U32ToBytes(low) + rest)) == Some(SearchShortKeyId(low))
    ensures BuildSearch(AttrFpr, Some(fpr + rest)) == Some(SearchFpr(fpr))
  {
    var p := KeyIdPattern(high, low) + rest;
    assert p[..4] == U32ToBytes(high);
    assert p[4..8] == U32ToBytes(low);
    U32RoundTrip(high);
    U32RoundTrip(low);
    var q := U32ToBytes(low) + rest;
    assert q[..4] == U32ToBytes(low);
    assert BufferToU32(Some(q)) == BufferToU32(Some(q[..4]));
    assert (fpr + rest)[..20] == fpr;
  }

  /** gnutls_openpgp_get_key: reads the keyring's first record, opens its
      key database, builds the search, and walks the chain the search
      returns, converting every public-key packet into a fresh certificate;
      the last one is the result (the conversion's own failure is not
      reported). A failed search is NO_CERTIFICATE_FOUND; a search that
      finds no public-key packet succeeds with no certificate. */
  method GetKey(keyring: Option<seq<byte>>, attr: KeyAttr, pattern: Option<seq<byte>>, codec: Codec)
    returns (r: Result<Cert?, Error>)
    requires KeyringBlobAt(keyring, 0).Some? ==> PatternFits(attr, pattern)
    ensures keyring.None? || attr == AttrNone ==> r == Err(InvalidParameters)
    ensures keyring.Some? && attr != AttrNone && KeyringBlobAt(keyring, 0).None? ==> r == Err(MemoryError)
    ensures keyring.Some? && attr != AttrNone && KeyringBlobAt(keyring, 0).Some? ==>
      var handle := KeyringToKeydb(KeyringBlobAt(keyring, 0).value).value;
      match codec.search(handle, BuildSearch(attr, pattern).value)
      case None => r == Err(NoCertificateFound)
      case Some(chain) =>
        match LastOfKind(chain, PKT_PUBKEY)
        case None => r == Ok(null)
        case Some(p) =>
          r.Ok? && r.value != null && fresh(r.value) &&
          (ConversionSucceeds(codec, p.pk) ==> r.value.HoldsKey(codec, p.pk))
  {
    if keyring.None? || attr == AttrNone {
      return Err(InvalidParameters);
    }
    var blob := ReadKeyringBlob(keyring, 0);
    if blob.None? {
      return Err(MemoryError);
    }
    ReadBlobHasHandle(keyring, 0);
    var handle := KeyringToKeydb(blob.value).value;
    var search := BuildSearch(attr, pattern).value;
    var found := codec.search(handle, search);
    if found.None? {
      return Err(NoCertificateFound);
    }
    r := ConvertLastKey(found.value, codec);
  }

  /** The packet walk of gnutls_openpgp_get_key: every public key packet
      before the end marker is converted into a fresh certificate, and the
      last one converted is returned; null when there is none. */
  method ConvertLastKey(chain: seq<Packet>, codec: Codec) returns (r: Result<Cert?, Error>)
    ensures match LastOfKind(chain, PKT_PUBKEY)
      case None => r == Ok(null)
      case Some(p) =>
        r.Ok? && r.value != null && fresh(r.value) &&
        (ConversionSucceeds(codec, p.pk) ==> r.value.HoldsKey(codec, p.pk))
  {
    var key: Cert? := null;
    ghost var sofar: Option<Packet> := None;
    var i := 0;
    while i < |chain| && chain[i].Id() != 0
      invariant 0 <= i <= |chain|
      invariant LastOfKind(chain, PKT_PUBKEY) == Later(LastOfKind(chain[i..], PKT_PUBKEY), sofar)
      invariant sofar.None? <==> key == null
      invariant sofar.Some? ==>
        && sofar.value.PublicKeyPacket? && fresh(key)
        && (ConversionSucceeds(codec, sofar.value.pk) ==> key.HoldsKey(codec, sofar.value.pk))
    {
      LastOfKindStep(chain, i, PKT_PUBKEY, sofar);
      if chain[i].PublicKeyPacket? {
        var c := new Cert();
        var pk := chain[i].pk;
        var _ := PkToCert(c, Some(pk), codec);
        if ConversionSucceeds(codec, pk) {
          PassedConversionHoldsKey(c, codec, pk);
        }
        key := c;
        sofar := Some(chain[i]);
      }
      i := i + 1;
    }
    assert LastOfKind(chain[i..], PKT_PUBKEY).None?;
    return Ok(key);
  }

  // ---------------------------------------------------------------------
  // Verifying a key

  /** The certificate status verification returns. */
  datatype TrustStatus = Trusted | Revoked | Expired | Corrupted

  /** gnutls_openpgp_verify_key's return value: a status, a library error
      code, or the bare return code of the signature check when the key's
      state is none of the four listed (0 when the check succeeded or was
      downgraded). */
  datatype VerifyOutcome = Status(status: TrustStatus) | LibraryError(error: Error) | CodecCode(code: int)

  /** The return code after the signature check: "no key" and "bad
      signature" are downgraded to success. */
  function CheckCode(check: SigCheck): int
  {
    match check
    case SigsGood => 0
    case NoKey => 0
    case BadSignature => 0
    case CheckFailed(c) => c
  }

  /** The status switch: each listed key state has its status; an unlisted
      state leaves the return code as it was. */
  function MapStatus(state: KeyState, rc: int): VerifyOutcome
  {
    match state
    case KeyInvalid => Status(Corrupted)
    case KeyRevoked => Status(Revoked)
    case KeyExpired => Status(Expired)
    case KeyValid => Status(Trusted)
    case KeyOther(_) => CodecCode(rc)
  }

  /** gnutls_openpgp_verify_key on a keyring, the first certificate of a
      list and the list length. */
  function VerifyKey(keyring: Option<seq<byte>>, certList: Option<seq<byte>>, certListLength: int, codec: Codec): VerifyOutcome
  {
    if certList.None? || certListLength == 0 || keyring.None? then Status(Corrupted)
    else if certListLength != 1 || |keyring.value| == 0 then Status(Corrupted)
    else match KeyringBlobAt(keyring, 0)
      case None => Status(Corrupted)
      case Some(blob) =>
        match KeyringToKeydb(blob)
        case None => Status(Corrupted)
        case Some(handle) =>
          match codec.parse(certList.value)
          case None => LibraryError(NoCertificateFound)
          case Some(chain) =>
            var (check, state) := codec.checkSigs(chain, handle);
            MapStatus(state, CheckCode(check))
  }

  /** A missing certificate list, anything but a one-certificate list, or
      a keyring whose first record does not read back (a missing keyring
      among them) is CORRUPTED, without any signature check. */
  lemma VerifyRejectsBadInput(keyring: Option<seq<byte>>, certList: Option<seq<byte>>, certListLength: int, codec: Codec)
    requires certList.None? || certListLength != 1 || KeyringBlobAt(keyring, 0).None?
    ensures VerifyKey(keyring, certList, certListLength, codec) == Status(Corrupted)
  {
  }

  /** For one parsed certificate against a readable keyring, the result is
      the listed status of the key state the check reports, whatever the
      check returned; for an unlisted state it is the check's code with
      "no key" and "bad signature" turned into 0. */
  lemma VerifyMapsState(keyring: seq<byte>, cert: seq<byte>, codec: Codec)
    requires KeyringBlobAt(Some(keyring), 0).Some? && codec.parse(cert).Some?
    ensures var handle := FirstHandle(Some(keyring)).value;
      var (check, state) := codec.checkSigs(codec.parse(cert).value, handle);
      VerifyKey(Some(keyring), Some(cert), 1, codec) ==
        (match state
         case KeyInvalid => Status(Corrupted)
         case KeyRevoked => Status(Revoked)
         case KeyExpired => Status(Expired)
         case KeyValid => Status(Trusted)
         case KeyOther(_) => CodecCode(if check.CheckFailed? then check.code else 0))
  {
    var blob := KeyringBlobAt(Some(keyring), 0).value;
    assert |keyring| >= 5;
    assert FirstHandle(Some(keyring)) == KeyringToKeydb(blob);
    ReadBlobHasHandle(Some(keyring), 0);
    var handle := KeyringToKeydb(blob).value;
    var chain := codec.parse(cert).value;
    assert VerifyKey(Some(keyring), Some(cert), 1, codec) == MapStatus(codec.checkSigs(chain, handle).1, CheckCode(codec.checkSigs(chain, handle).0));
  }

  /** The four listed states give four different statuses, and only they
      give a status at all. */
  lemma MapStatusInjective(s1: KeyState, s2: KeyState, rc: int)
    ensures MapStatus(s1, rc).Status? <==> !s1.KeyOther?
    ensures MapStatus(s1, rc).Status? && MapStatus(s1, rc) == MapStatus(s2, rc) ==> s1 == s2
  {
  }

  // ---------------------------------------------------------------------
  // Fingerprint

  /** The fingerprint length the layer reports: 16 octets for an RSA key,
      20 for any other, whatever the key version. */
  function FingerprintLen(algo: nat): (n: nat)
    ensures n == 16 || n == 20
  {
    if IsRsa(algo) then 16 else 20
  }

  /** Section 11.2 of RFC 2440: a version 3 key has a 16-octet MD5
      fingerprint, a version 4 key a 20-octet SHA-1 one. */
  function Rfc2440FingerprintLen(version: nat): nat
  {
    if version < 4 then 16 else 20
  }

  /** The algorithm rule agrees with the version rule on version 3 RSA keys
      and version 4 DSA keys, and disagrees on version 4 RSA keys. */
  lemma FingerprintLenByVersion(algo: nat, version: nat)
    requires version == 3 || version == 4
    ensures IsRsa(algo) && version == 3 ==> FingerprintLen(algo) == Rfc2440FingerprintLen(version)
    ensures !IsRsa(algo) && version == 4 ==> FingerprintLen(algo) == Rfc2440FingerprintLen(version)
    ensures IsRsa(algo) && version == 4 ==> FingerprintLen(algo) != Rfc2440FingerprintLen(version)
  {
  }

  /** gnutls_openpgp_fingerprint: fprlen is set to 0 first; the key is
      parsed, and for every public-key packet of the chain the length and
      fingerprint are set, so the last one wins. `fprlen` and `fpr` are None
      where the C function leaves its output untouched. */
  method Fingerprint(cert: Option<seq<byte>>, codec: Codec)
    returns (rc: Outcome<Error>, fprlen: Option<nat>, fpr: Option<seq<byte>>)
    ensures cert.None? ==> rc == Fail(UnknownError) && fprlen.None? && fpr.None?
    ensures cert.Some? && codec.parse(cert.value).None? ==>
      rc == Fail(NoCertificateFound) && fprlen == Some(0) && fpr.None?
    ensures cert.Some? && codec.parse(cert.value).Some? ==>
      rc == Pass &&
      match LastOfKind(codec.parse(cert.value).value, PKT_PUBKEY)
      case None => fprlen == Some(0) && fpr.None?
      case Some(p) => fprlen == Some(FingerprintLen(p.pk.pkeAlgo)) && fpr == Some(codec.createFpr(p.pk))
  {
    if cert.None? {
      return Fail(UnknownError), None, None;
    }
    fprlen := Some(0);
    fpr := None;
    var parsed := codec.parse(cert.value);
    if parsed.None? {
      return Fail(NoCertificateFound), fprlen, fpr;
    }
    var chain := parsed.value;
    ghost var sofar: Option<Packet> := None;
    var i := 0;
    while i < |chain| && chain[i].Id() != 0
      invariant 0 <= i <= |chain|
      invariant LastOfKind(chain, PKT_PUBKEY) == Later(LastOfKind(chain[i..], PKT_PUBKEY), sofar)
      invariant sofar.None? ==> fprlen == Some(0) && fpr.None?
      invariant sofar.Some? ==>
        && sofar.value.PublicKeyPacket?
        && fprlen == Some(FingerprintLen(sofar.value.pk.pkeAlgo)) && fpr == Some(codec.createFpr(sofar.value.pk))
    {
      LastOfKindStep(chain, i, PKT_PUBKEY, sofar);
      if chain[i].PublicKeyPacket? {
        var pk := chain[i].pk;
        if IsRsa(pk.pkeAlgo) {
          fprlen := Some(16);
        } else {
          fprlen := Some(20);
        }
        fpr := Some(codec.createFpr(pk));
        sofar := Some(chain[i]);
      }
      i := i + 1;
    }
    assert LastOfKind(chain[i..], PKT_PUBKEY).None?;
    return Pass, fprlen, fpr;
  }

  // ---------------------------------------------------------------------
  // The name in a key's user id

  /** The name and e-mail address gnutls_openpgp_extract_key_name fills in. */
  datatype OpenPgpName = OpenPgpName(name: seq<char>, email: seq<char>)

  /** The index of the first occurrence of c in s, as strchr finds it. */
  function IndexOf(s: seq<char>, c: char): (r: Option<nat>)
    ensures r.Some? ==> r.value < |s| && s[r.value] == c && c !in s[..r.value]
    ensures r.None? ==> c !in s
  {
    if s == [] then None
    else if s[0] == c then Some(0)
    else match IndexOf(s[1..], c)
      case None => None
      case Some(i) => Some(i + 1)
  }

  /** The e-mail address in a user id: the characters strictly between the
      first '<' and the first '>', when both occur and '<' comes first;
      otherwise the e-mail stays empty. */
  function EmailOf(uid: seq<char>): seq<char>
  {
    match (IndexOf(uid, '<'), IndexOf(uid, '>'))
    case (Some(lt), Some(gt)) => if lt < gt then uid[lt + 1..gt] else []
    case _ => []
  }

  /** A user id "display <address> rest" gives back exactly the address,
      when the display part has no angle brackets and the address no '>'. */
  lemma {:induction false} EmailRoundTrip(display: seq<char>, address: seq<char>, rest: seq<char>)
    requires '<' !in display && '>' !in display && '>' !in address
    ensures EmailOf(display + "<" + address + ">" + rest) == address
  {
    var uid := display + "<" + address + ">" + rest;
    var lt := |display|;
    var gt := |display| + 1 + |address|;
    assert uid[lt] == '<' && uid[..lt] == display;
    IndexOfFirst(uid, '<', lt);
    assert uid[gt] == '>' && uid[..gt] == display + "<" + address;
    IndexOfFirst(uid, '>', gt);
    assert uid[lt + 1..gt] == address;
  }

  /** strchr finds position i when c is there and nowhere before it. */
  lemma IndexOfFirst(s: seq<char>, c: char, i: nat)
    requires i < |s| && s[i] == c && c !in s[..i]
    ensures IndexOf(s, c) == Some(i)
  {
  }

  /** A user id without both brackets, or with '>' first, has no e-mail. */
  lemma EmailNeedsBothBrackets(uid: seq<char>)
    requires '<' !in uid || '>' !in uid
    ensures EmailOf(uid) == []
  {
  }

  /** The e-mail slice as the C code computes it: the length copied is the
      difference of the two positions (each one past the bracket), in
      size_t arithmetic, where a negative difference wraps to 2^64 minus
      its magnitude (a user id in memory is shorter than 2^64); Err carries that
      length when it exceeds the user id, i.e. when the copy overruns. */
  function EmailAsWritten(uid: seq<char>): Result<seq<char>, nat>
    requires |uid| < SIZE_LIMIT
  {
    CopyAsWritten(uid, IndexOf(uid, '<'), IndexOf(uid, '>'))
  }

  /** The copy between the two brackets found, with the length in size_t
      arithmetic; nothing is copied when a bracket is missing. */
  function CopyAsWritten(uid: seq<char>, lt: Option<nat>, gt: Option<nat>): Result<seq<char>, nat>
    requires |uid| < SIZE_LIMIT
    requires lt.Some? ==> lt.value < |uid|
    requires gt.Some? ==> gt.value < |uid|
  {
    if lt.None? || gt.None? then Ok([])
    else
      var pos1, pos2 := lt.value + 1, gt.value + 1;
      var len := if pos2 >= pos1 then pos2 - pos1 else pos2 - pos1 + SIZE_LIMIT;
      if len == 0 || pos1 + len > |uid| then Err(len)
      else Ok(uid[pos1..pos1 + len - 1])
  }

  /** With '>' before '<' the C code's length wraps to 2^64 minus the
      distance between the brackets and the copy overruns the user id,
      where the corrected slice gives an empty e-mail. */
  lemma EmailAsWrittenWraps(uid: seq<char>, lt: nat, gt: nat)
    requires |uid| < SIZE_LIMIT
    requires IndexOf(uid, '<') == Some(lt) && IndexOf(uid, '>') == Some(gt) && gt < lt
    ensures EmailAsWritten(uid) == Err(SIZE_LIMIT - (lt - gt))
    ensures EmailOf(uid) == []
  {
    CopyWraps(uid, lt, gt);
  }

  lemma CopyWraps(uid: seq<char>, lt: nat, gt: nat)
    requires |uid| < SIZE_LIMIT && gt < lt < |uid|
    ensures CopyAsWritten(uid, Some(lt), Some(gt)) == Err(SIZE_LIMIT - (lt - gt))
  {
  }

  /** With '<' before '>' the C code copies exactly the corrected slice. */
  lemma EmailAsWrittenAgrees(uid: seq<char>, lt: nat, gt: nat)
    requires |uid| < SIZE_LIMIT
    requires IndexOf(uid, '<') == Some(lt) && IndexOf(uid, '>') == Some(gt) && lt < gt
    ensures EmailAsWritten(uid) == Ok(EmailOf(uid))
  {
    CopyAgrees(uid, lt, gt);
  }

  lemma CopyAgrees(uid: seq<char>, lt: nat, gt: nat)
    requires |uid| < SIZE_LIMIT && lt < gt < |uid|
    ensures CopyAsWritten(uid, Some(lt), Some(gt)) == Ok(uid[lt + 1..gt])
  {
  }

  /** "a>b<c": the C code asks for 2^64 - 2 characters of a five-character
      user id. */
  lemma EmailAsWrittenOverruns()
    ensures EmailAsWritten("a>b<c") == Err(SIZE_LIMIT - 2)
    ensures EmailOf("a>b<c") == []
  {
    IndexOfFirst("a>b<c", '<', 3);
    IndexOfFirst("a>b<c", '>', 1);
    EmailAsWrittenWraps("a>b<c", 3, 1);
  }

  /** gnutls_openpgp_extract_key_name: parses the key, takes its first
      user id, and fills in the whole user id as the name and the e-mail
      address found in it. A key without a user id is UNKNOWN_ERROR. */
  function ExtractKeyName(cert: Option<seq<byte>>, codec: Codec): Result<OpenPgpName, Error>
  {
    if cert.None? then Err(InvalidParameters)
    else match codec.parse(cert.value)
      case None => Err(NoCertificateFound)
      case Some(chain) =>
        match NthOfKind(chain, PKT_USERID, 0)
        case None => Err(UnknownError)
        case Some(p) =>
          var uid := if p.UserIdPacket? then p.uid.name else [];
          Ok(OpenPgpName(uid, EmailOf(uid)))
  }

  /** The extracted name is the first live user id of the key, and its
      e-mail is a slice of that name. */
  lemma ExtractKeyNameIsFirstUid(cert: seq<byte>, codec: Codec)
    requires codec.parse(cert).Some?
    ensures var uids := OfKind(Live(codec.parse(cert).value), PKT_USERID);
      match ExtractKeyName(Some(cert), codec)
      case Ok(dn) => uids != [] && uids[0] == UserIdPacket(UserId(dn.name)) &&
        (dn.email == [] || exists i, j :: 0 <= i <= j <= |dn.name| && dn.email == dn.name[i..j])
      case Err(e) => e == UnknownError && uids == []
  {
    var chain := codec.parse(cert).value;
    NthOfKindIsIndex(chain, PKT_USERID, 0);
    var r := NthOfKind(chain, PKT_USERID, 0);
    if r.Some? {
      NthOfKindHasId(chain, PKT_USERID, 0);
      var name := r.value.uid.name;
      var email := EmailOf(name);
      if email != [] {
        var lt := IndexOf(name, '<').value;
        var gt := IndexOf(name, '>').value;
        assert email == name[lt + 1..gt];
      }
    }
  }
}
