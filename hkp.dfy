/** Fetching a key from an HKP keyserver (gnutls_openpgp_recv_key): the
    request line it sends and the framing check on the response. The
    resolver, the socket and the armor decoder are the `Network`
    parameter; the bytes the server sends are the list of chunks that
    successive reads return. */
module Hkp {
  import opened Common
  import opened Keyring

  /** The C `short` port argument. */
  type Short = n: int | -0x8000 <= n < 0x8000

  /** The standard HKP port, used when the port argument is 0. */
  const HKP_PORT: Short := 11371

  /** The port the request names: the argument, or 11371 when it is 0. */
  function EffectivePort(port: Short): (p: Short)
    ensures port == 0 ==> p == HKP_PORT
    ensures port != 0 ==> p == port
  {
    if port == 0 then HKP_PORT else port
  }

  // ---------------------------------------------------------------------
  // Number formatting

  const HEX_UPPER: seq<char> := "0123456789ABCDEF"

  /** Sixteen to the power n. */
  function Pow16(n: nat): (p: nat)
    ensures p > 0
  {
    if n == 0 then 1 else 16 * Pow16(n - 1)
  }

  /** The low n hexadecimal digits of k, most significant first, in upper
      case (printf "%0nX" on a value below 16^n). */
  function HexDigits(k: nat, n: nat): (s: seq<char>)
    ensures |s| == n
    ensures forall c :: c in s ==> c in HEX_UPPER
  {
    if n == 0 then [] else HexDigits(k / 16, n - 1) + [HEX_UPPER[k % 16]]
  }

  /** The value of an upper-case hexadecimal digit. */
  function HexValue(c: char): (v: nat)
    ensures v < 16
  {
    if '0' <= c <= '9' then c as nat - '0' as nat
    else if 'A' <= c <= 'F' then c as nat - 'A' as nat + 10
    else 0
  }

  /** The value of a string of hexadecimal digits. */
  function ParseHex(s: seq<char>): nat
  {
    if s == [] then 0 else ParseHex(s[..|s| - 1]) * 16 + HexValue(s[|s| - 1])
  }

  lemma HexValueOfDigit(d: nat)
    requires d < 16
    ensures HexValue(HEX_UPPER[d]) == d
  {
  }

  /** One more digit: taking the quotient by 16 modulo P, shifting it back
      and adding the last digit is taking k modulo 16 P. */
  lemma ModStep(k: nat, p: nat)
    requires p > 0
    ensures (k / 16 % p) * 16 + k % 16 == k % (16 * p)
  {
    var q := k / 16;
    var a := q / p;
    var b := q % p;
    assert q == p * a + b;
    assert k == 16 * q + k % 16;
    assert k == (16 * p) * a + (16 * b + k % 16) by {
      assert 16 * q == 16 * (p * a) + 16 * b;
      assert 16 * (p * a) == (16 * p) * a;
    }
    DivModUnique(k, 16 * p, a, 16 * b + k % 16);
  }

  /** Reading the digits back gives the number modulo 16^n. */
  lemma {:induction false} HexRoundTrip(k: nat, n: nat)
    ensures ParseHex(HexDigits(k, n)) == k % Pow16(n)
  {
    if n > 0 {
      var s := HexDigits(k, n);
      assert s[..|s| - 1] == HexDigits(k / 16, n - 1);
      HexRoundTrip(k / 16, n - 1);
      HexValueOfDigit(k % 16);
      ModStep(k, Pow16(n - 1));
    }
  }

  /** The key id field "%08X" of a 32-bit key id. */
  function Hex8(keyid: nat): (s: seq<char>)
    ensures |s| == 8
  {
    HexDigits(keyid, 8)
  }

  /** A 32-bit key id is recovered from its eight digits. */
  lemma Hex8RoundTrip(keyid: nat)
    requires keyid < U32_LIMIT
    ensures ParseHex(Hex8(keyid)) == keyid
  {
    Pow16Eight();
    HexRoundTripBelow(keyid, 8);
  }

  /** A number below 16^n is recovered from its n digits. */
  lemma HexRoundTripBelow(k: nat, n: nat)
    requires k < Pow16(n)
    ensures ParseHex(HexDigits(k, n)) == k
  {
    HexRoundTrip(k, n);
  }

  lemma Pow16Eight()
    ensures Pow16(8) == U32_LIMIT
  {
    assert Pow16(2) == 0x100;
    assert Pow16(4) == 0x1_0000 by { assert Pow16(4) == 16 * (16 * Pow16(2)); }
    assert Pow16(6) == 0x100_0000 by { assert Pow16(6) == 16 * (16 * Pow16(4)); }
    assert Pow16(8) == U32_LIMIT by { assert Pow16(8) == 16 * (16 * Pow16(6)); }
  }

  /** The decimal digits of n ("%d" of a non-negative value). */
  function DecimalDigits(n: nat): (s: seq<char>)
    ensures 1 <= |s|
    ensures forall c :: c in s ==> '0' <= c <= '9'
  {
    if n < 10 then ["0123456789"[n]] else DecimalDigits(n / 10) + ["0123456789"[n % 10]]
  }

  /** "%d": a minus sign before the digits of a negative value. */
  function Decimal(n: int): seq<char>
  {
    if n < 0 then "-" + DecimalDigits(-n) else DecimalDigits(n)
  }

  /** The value of a string of decimal digits. */
  function ParseDecimal(s: seq<char>): nat
  {
    if s == [] then 0 else ParseDecimal(s[..|s| - 1]) * 10 + (if '0' <= s[|s| - 1] <= '9' then s[|s| - 1] as nat - '0' as nat else 0)
  }

  /** The decimal digits read back as the number. */
  lemma {:induction false} DecimalRoundTrip(n: nat)
    ensures ParseDecimal(DecimalDigits(n)) == n
  {
    var s := DecimalDigits(n);
    if n < 10 {
      assert s[..0] == [];
    } else {
      assert s[..|s| - 1] == DecimalDigits(n / 10);
      DecimalRoundTrip(n / 10);
    }
  }

  /** A value below 10^k has at most k digits. */
  lemma {:induction false} DecimalDigitsLength(n: nat, bound: nat, k: nat)
    requires 1 <= k && n < bound && bound == Pow10(k)
    ensures |DecimalDigits(n)| <= k
  {
    if n >= 10 {
      assert k > 1;
      DecimalDigitsLength(n / 10, Pow10(k - 1), k - 1);
    }
  }

  /** Ten to the power n. */
  function Pow10(n: nat): (p: nat)
    ensures p > 0
  {
    if n == 0 then 1 else 10 * Pow10(n - 1)
  }

  // ---------------------------------------------------------------------
  // The request

  const REQUEST_PREFIX: seq<char> := "GET /pks/lookup?op=get&search=0x"

  /** The request the function writes to the keyserver: the lookup line
      for the key id and the Host header naming the host and port. */
  function Request(host: seq<char>, port: Short, keyid: nat): seq<char>
  {
    REQUEST_PREFIX + Hex8(keyid) + " HTTP/1.0\r\nHost: " + host + ":" + Decimal(port) + "\r\n"
  }

  /** The request and its terminating NUL fit the strlen(host) + 100
      octets allocated for it, and the key id can be read back from the
      eight characters after the prefix. */
  lemma RequestFitsAndCarriesKeyId(host: seq<char>, port: Short, keyid: nat)
    requires keyid < U32_LIMIT
    ensures |Request(host, port, keyid)| + 1 <= |host| + 100
    ensures ParseHex(Request(host, port, keyid)[32..40]) == keyid
  {
    var d: int := if port < 0 then -(port as int) else port as int;
    assert d < 100000 == Pow10(5);
    DecimalDigitsLength(d, 100000, 5);
    assert |Decimal(port)| <= 6;
    var r := Request(host, port, keyid);
    assert r[32..40] == Hex8(keyid);
    Hex8RoundTrip(keyid);
  }

  // ---------------------------------------------------------------------
  // Reading the response

  /** The characters of a read buffer up to its first NUL, what strstr sees. */
  function CPrefix(s: seq<char>): (r: seq<char>)
    ensures |r| <= |s| && r == s[..|r|]
    ensures '\0' !in r
  {
    if s == [] || s[0] == '\0' then [] else [s[0]] + CPrefix(s[1..])
  }

  /** A buffer without NUL is seen whole. */
  lemma {:induction false} CPrefixWhole(s: seq<char>)
    requires '\0' !in s
    ensures CPrefix(s) == s
  {
    if s != [] {
      assert s[0] in s;
      assert forall c :: c in s[1..] ==> c in s;
      CPrefixWhole(s[1..]);
    }
  }

  /** pat occurs in s at position i. */
  predicate MatchesAt(s: seq<char>, pat: seq<char>, i: nat)
  {
    i + |pat| <= |s| && s[i..i + |pat|] == pat
  }

  /** pat occurs in s. */
  predicate Contains(s: seq<char>, pat: seq<char>)
  {
    exists i: nat | i <= |s| :: MatchesAt(s, pat, i)
  }

  /** A chunk counts when strstr finds "<pre>" or "</pre>" in it. */
  predicate HasMarker(chunk: seq<char>)
  {
    Contains(CPrefix(chunk), "<pre>") || Contains(CPrefix(chunk), "</pre>")
  }

  /** How many chunks have a marker: the `state` the read loop ends with. */
  function FramingChunks(chunks: seq<seq<char>>): (n: nat)
    ensures n <= |chunks|
  {
    if chunks == [] then 0
    else FramingChunks(chunks[..|chunks| - 1]) + (if HasMarker(chunks[|chunks| - 1]) then 1 else 0)
  }

  /** All chunks concatenated: what the read loop accumulates. */
  function Concat(chunks: seq<seq<char>>): seq<char>
  {
    if chunks == [] then [] else Concat(chunks[..|chunks| - 1]) + chunks[|chunks| - 1]
  }

  /** The read loop: appends each chunk to the buffer and counts the
      chunks that contain a marker. */
  method ReadResponse(chunks: seq<seq<char>>) returns (data: seq<char>, state: nat)
    ensures data == Concat(chunks)
    ensures state == FramingChunks(chunks)
  {
    data, state := [], 0;
    var i := 0;
    while i < |chunks|
      invariant 0 <= i <= |chunks|
      invariant data == Concat(chunks[..i])
      invariant state == FramingChunks(chunks[..i])
    {
      assert chunks[..i + 1][..i] == chunks[..i];
      data := data + chunks[i];
      if HasMarker(chunks[i]) {
        state := state + 1;
      }
      i := i + 1;
    }
    assert chunks[..i] == chunks;
  }

  /** A chunk holding both markers counts once. */
  lemma BothMarkersInOneChunk(chunk: seq<char>)
    requires '\0' !in chunk
    requires Contains(chunk, "<pre>") && Contains(chunk, "</pre>")
    ensures FramingChunks([chunk]) == 1
  {
    var one: seq<seq<char>> := [chunk];
    assert one[..0] == [];
    CPrefixWhole(chunk);
  }

  /** A marker split between two reads is missed: only the last of these
      three chunks counts. */
  lemma SplitMarkerMissed()
    ensures FramingChunks(["<pr", "e>k", "</pre>"]) == 1
  {
    var three: seq<seq<char>> := ["<pr", "e>k", "</pre>"];
    assert three[..2] == ["<pr", "e>k"] && three[..2][..1] == ["<pr"] && three[..2][..1][..0] == [];
    CPrefixWhole("</pre>");
    assert MatchesAt("</pre>", "</pre>", 0);
    CPrefixWhole("<pr");
    CPrefixWhole("e>k");
    assert !HasMarker("<pr") && !HasMarker("e>k");
  }

  /** The response of SplitMarkerMissed does hold "<pre>". */
  lemma SplitMarkerInResponse()
    ensures Contains(Concat(["<pr", "e>k", "</pre>"]), "<pre>")
  {
    var three: seq<seq<char>> := ["<pr", "e>k", "</pre>"];
    assert three[..2] == ["<pr", "e>k"] && three[..2][..1] == ["<pr"] && three[..2][..1][..0] == [];
    assert Concat(three[..2][..1]) == "<pr";
    assert Concat(three[..2]) == "<pr" + "e>k";
    assert Concat(three) == "<pr" + "e>k" + "</pre>" == "<pre>k</pre>";
    assert MatchesAt("<pre>k</pre>", "<pre>", 0);
  }

  /** The chunk count of a response adds up over its parts. */
  lemma {:induction false} FramingChunksAppend(a: seq<seq<char>>, b: seq<seq<char>>)
    ensures FramingChunks(a + b) == FramingChunks(a) + FramingChunks(b)
  {
    if b != [] {
      assert (a + b)[..|a + b| - 1] == a + b[..|b| - 1];
      FramingChunksAppend(a, b[..|b| - 1]);
    } else {
      assert a + b == a;
    }
  }

  // ---------------------------------------------------------------------
  // The whole exchange

  /** The outside world of one fetch: whether the host resolves, whether
      the socket connects and the request is written, the chunks the reads
      return, and the armor decoder. */
  datatype Network = Network(
    resolves: seq<char> -> bool,
    connects: bool,
    writes: bool,
    chunks: seq<seq<char>>,
    dearmor: seq<char> -> Option<seq<byte>>)

  /** The function's return value: INVALID_PARAMETERS, -1, or 0. */
  datatype RecvCode = RecvInvalidParameters | RecvSystemError | RecvZero

  /** What a fetch returns, the request it wrote, and the key it stored. */
  datatype RecvResult = RecvResult(rc: RecvCode, sent: Option<seq<char>>, key: Option<seq<byte>>)

  /** gnutls_openpgp_recv_key: refuses a NULL host; resolves and connects
      (-1 on failure); writes the request (-1 on failure); reads the whole
      response; and stores the de-armored key when exactly two chunks held
      a marker and decoding gives a non-empty key. Once the request is
      written the function returns 0, whether or not a key was stored. */
  method RecvKey(host: Option<seq<char>>, port: Short, keyid: nat, net: Network) returns (r: RecvResult)
    requires keyid < U32_LIMIT
    requires forall c :: c in net.chunks ==> 0 < |c| < 4096
    ensures host.None? ==> r == RecvResult(RecvInvalidParameters, None, None)
    ensures host.Some? && (!net.resolves(host.value) || !net.connects) ==> r == RecvResult(RecvSystemError, None, None)
    ensures host.Some? && net.resolves(host.value) && net.connects ==>
      var request := Request(host.value, EffectivePort(port), keyid);
      if !net.writes then r == RecvResult(RecvSystemError, None, None)
      else
        && r.rc == RecvZero
        && r.sent == Some(request)
        && r.key == (if FramingChunks(net.chunks) != 2 then None
                     else match net.dearmor(Concat(net.chunks))
                          case None => None
                          case Some(d) => if d == [] then None else Some(d))
  {
    if host.None? {
      return RecvResult(RecvInvalidParameters, None, None);
    }
    var p := port;
    if p == 0 {
      p := HKP_PORT;
    }
    if !net.resolves(host.value) || !net.connects {
      return RecvResult(RecvSystemError, None, None);
    }
    var request := Request(host.value, p, keyid);
    if !net.writes {
      return RecvResult(RecvSystemError, None, None);
    }
    var data, state := ReadResponse(net.chunks);
    if state != 2 {
      return RecvResult(RecvZero, Some(request), None);
    }
    var raw := net.dearmor(data);
    if raw.None? {
      return RecvResult(RecvZero, Some(request), None);
    }
    var key := if raw.value != [] then Some(raw.value) else None;
    return RecvResult(RecvZero, Some(request), key);
  }
}
