/** The inline helpers of the internal hash and MAC interface: the digest
    classification used by the TLS record layer, and the guards the
    dispatch helpers put around the backend callbacks of a hash or MAC
    handle. The backend behind the callbacks is not modelled: a handle
    logs every callback it makes, and what a callback returns or writes is
    a function of that log. */
module HashInt {
  import opened Common

  /** The digest algorithms the helpers distinguish. */
  datatype DigestAlgorithm =
    | DigUnknown | DigNull | Md5 | Sha1 | Rmd160 | Md2 | Sha256 | Sha384 | Sha512 | Sha224

  /** The design family of each digest: the MD family of RFC 1319 and
      RFC 1321, RIPEMD, and the SHA family of FIPS 180-4. */
  datatype DigestFamily = MdFamily | RipemdFamily | ShaFamily | NoFamily

  /** The family each algorithm belongs to. */
  function FamilyOf(algo: DigestAlgorithm): DigestFamily
  {
    match algo
    case Md2 | Md5 => MdFamily
    case Rmd160 => RipemdFamily
    case Sha1 | Sha224 | Sha256 | Sha384 | Sha512 => ShaFamily
    case DigUnknown | DigNull => NoFamily
  }

  /** IS_SHA: 1 for a SHA-family digest, 0 for anything else. */
  function IsSha(algo: DigestAlgorithm): (r: int)
    ensures r == 0 || r == 1
    ensures r == 1 <==> FamilyOf(algo) == ShaFamily
  {
    if algo == Sha1 || algo == Sha224 || algo == Sha256 || algo == Sha384 || algo == Sha512 then 1 else 0
  }

  /** _gnutls_get_hash_block_len: the input block length the record layer's
      padding work-around assumes, 64 for every digest it knows and 0 for
      the rest; SHA-384 and SHA-512 are given 64 too. */
  function HashBlockLen(algo: DigestAlgorithm): (r: nat)
    ensures r == 0 || r == 64
  {
    match algo
    case Md5 | Sha1 | Rmd160 | Sha256 | Sha384 | Sha512 | Sha224 => 64
    case _ => 0
  }

  /** The digests with a block length are exactly the SHA family, MD5 and
      RIPEMD-160; MD2, the null digest and unknown values have none. */
  lemma BlockLenKnownDigests(algo: DigestAlgorithm)
    ensures HashBlockLen(algo) == 64 <==> IsSha(algo) == 1 || algo == Md5 || algo == Rmd160
  {
  }

  // ---------------------------------------------------------------------
  // Handles and their callbacks

  /** One call a handle makes into its backend. */
  datatype BackendCall =
    | HashCall(text: seq<byte>)
    | NonceCall(nonce: seq<byte>)
    | OutputCall(size: nat)

  /** A MAC handle (mac_hd_st): the MAC length, whether a nonce callback is
      installed, and the backend context behind the hash, nonce and output
      callbacks. */
  class MacHandle {
    const macLen: nat
    const hasNonce: bool
    /** What the hash or nonce callback returns, given the calls before it. */
    const respond: (seq<BackendCall>, BackendCall) -> int
    /** The bytes the output callback writes, given the calls before it. */
    const produce: (seq<BackendCall>, nat) -> seq<byte>
    var calls: seq<BackendCall>

    constructor (macLen: nat, hasNonce: bool,
                 respond: (seq<BackendCall>, BackendCall) -> int,
                 produce: (seq<BackendCall>, nat) -> seq<byte>)
      ensures this.macLen == macLen && this.hasNonce == hasNonce
      ensures this.respond == respond && this.produce == produce
      ensures calls == []
    {
      this.macLen := macLen;
      this.hasNonce := hasNonce;
      this.respond := respond;
      this.produce := produce;
      calls := [];
    }

    /** _gnutls_mac: empty text is accepted without calling the backend;
        otherwise the text goes to the hash callback, whose code is returned. */
    method Mac(text: seq<byte>) returns (r: int)
      modifies this
      ensures |text| == 0 ==> r == 0 && calls == old(calls)
      ensures |text| > 0 ==> r == respond(old(calls), HashCall(text)) && calls == old(calls) + [HashCall(text)]
    {
      r := 0;
      if |text| > 0 {
        r := respond(calls, HashCall(text));
        calls := calls + [HashCall(text)];
      }
    }

    /** _gnutls_mac_output: without a digest buffer nothing happens; with
        one, the output callback writes macLen bytes into it. */
    method MacOutput(wantDigest: bool) returns (digest: Option<seq<byte>>)
      modifies this
      ensures !wantDigest ==> digest == None && calls == old(calls)
      ensures wantDigest ==> digest == Some(produce(old(calls), macLen)) && calls == old(calls) + [OutputCall(macLen)]
    {
      digest := None;
      if wantDigest {
        digest := Some(produce(calls, macLen));
        calls := calls + [OutputCall(macLen)];
      }
    }

    /** _gnutls_mac_set_nonce: 0 without a nonce callback; otherwise the
        nonce goes to the callback, whose code is returned. */
    method SetNonce(nonce: seq<byte>) returns (r: int)
      modifies this
      ensures !hasNonce ==> r == 0 && calls == old(calls)
      ensures hasNonce ==> r == respond(old(calls), NonceCall(nonce)) && calls == old(calls) + [NonceCall(nonce)]
    {
      r := 0;
      if hasNonce {
        r := respond(calls, NonceCall(nonce));
        calls := calls + [NonceCall(nonce)];
      }
    }
  }

  /** A digest handle (digest_hd_st): the algorithm and the backend context
      behind the hash and output callbacks. */
  class DigestHandle {
    const algorithm: DigestAlgorithm
    const respond: (seq<BackendCall>, BackendCall) -> int
    const produce: (seq<BackendCall>, nat) -> seq<byte>
    var calls: seq<BackendCall>

    constructor (algorithm: DigestAlgorithm,
                 respond: (seq<BackendCall>, BackendCall) -> int,
                 produce: (seq<BackendCall>, nat) -> seq<byte>)
      ensures this.algorithm == algorithm
      ensures this.respond == respond && this.produce == produce
      ensures calls == []
    {
      this.algorithm := algorithm;
      this.respond := respond;
      this.produce := produce;
      calls := [];
    }

    /** _gnutls_hash: non-empty text goes to the hash callback, whose code
        is discarded; the result is always 0. */
    method Hash(text: seq<byte>) returns (r: int)
      modifies this
      ensures r == 0
      ensures |text| == 0 ==> calls == old(calls)
      ensures |text| > 0 ==> calls == old(calls) + [HashCall(text)]
    {
      if |text| > 0 {
        var ignored := respond(calls, HashCall(text));
        calls := calls + [HashCall(text)];
      }
      r := 0;
    }

    /** _gnutls_hash_output: without a digest buffer nothing happens; with
        one, the output callback writes as many bytes as the algorithm's
        digest length, which algoLen (_gnutls_hash_get_algo_len) gives. */
    method HashOutput(wantDigest: bool, algoLen: DigestAlgorithm -> nat) returns (digest: Option<seq<byte>>)
      modifies this
      ensures !wantDigest ==> digest == None && calls == old(calls)
      ensures wantDigest ==>
        && digest == Some(produce(old(calls), algoLen(algorithm)))
        && calls == old(calls) + [OutputCall(algoLen(algorithm))]
    {
      var maclen := algoLen(algorithm);
      digest := None;
      if wantDigest {
        digest := Some(produce(calls, maclen));
        calls := calls + [OutputCall(maclen)];
      }
    }
  }
}
