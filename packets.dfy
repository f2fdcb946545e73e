/** The decoded OpenPGP packets that the external packet codec (OpenCDK)
    hands to the layer, and the walks over a packet chain. A chain is the
    codec's linked list, read in list order; a packet with id 0 ends it. */
module Packets {
  import opened Common

  // Packet tags, section 4.3 of RFC 2440.
  const PKT_SIG: nat := 2
  const PKT_SECKEY: nat := 5
  const PKT_PUBKEY: nat := 6
  const PKT_USERID: nat := 13

  /** The most public-key MPIs the codec stores for one key. */
  const MAX_PK_PARTS: nat := 4

  /** An MPI as the codec keeps it: its length in octets and its encoding,
      a 2-octet bit count followed by the magnitude (section 3.2 of RFC 2440). */
  datatype RawMpi = RawMpi(bytes: nat, data: seq<byte>)

  // Public-key algorithm ids, section 9.1 of RFC 2440.
  const PKE_RSA_ES: nat := 1
  const PKE_RSA_E: nat := 2
  const PKE_RSA_S: nat := 3
  const PKE_ELG_E: nat := 16
  const PKE_DSA: nat := 17
  const PKE_ELG_ES: nat := 20

  /** The codec's algorithm classes: the three RSA ids, DSA, and the two
      ElGamal ids. */
  predicate IsRsa(algo: nat) { algo == PKE_RSA_ES || algo == PKE_RSA_E || algo == PKE_RSA_S }
  predicate IsDsa(algo: nat) { algo == PKE_DSA }
  predicate IsElg(algo: nat) { algo == PKE_ELG_E || algo == PKE_ELG_ES }

  /** cdk_key_pk_get_nmpis(algo, 0): how many public MPIs a key of that
      algorithm carries (section 5.5.2 of RFC 2440: n, e for RSA; p, q, g, y
      for DSA; p, g, y for ElGamal), and none for an unknown algorithm. */
  function NumPublicMpis(algo: nat): (n: nat)
    ensures n <= MAX_PK_PARTS
    ensures n > 0 <==> IsRsa(algo) || IsDsa(algo) || IsElg(algo)
  {
    if IsRsa(algo) then 2 else if IsDsa(algo) then 4 else if IsElg(algo) then 3 else 0
  }

  /** The fields of a public-key packet: algorithm id, version, creation
      time, expiry (0 = never) and the public MPIs. */
  datatype PublicKeyFields = PublicKey(
    pkeAlgo: nat,
    version: nat,
    timestamp: nat,
    expiredate: nat,
    mpis: seq<RawMpi>)

  /** A public-key packet as the codec delivers it: it always carries the
      MPIs its algorithm calls for. */
  type PublicKey = k: PublicKeyFields | NumPublicMpis(k.pkeAlgo) <= |k.mpis|
    witness PublicKey(0, 0, 0, 0, [])

  /** A signature packet, kept as the octets the codec would write for it. */
  datatype Signature = Signature(encoded: seq<byte>)

  /** A user-id packet: the user id as a string. */
  datatype UserId = UserId(name: seq<char>)

  /** The ids of the packets whose bodies the layer does not read. */
  type OtherTag = t: nat | t != PKT_SIG && t != PKT_PUBKEY && t != PKT_USERID

  /** One packet of a chain: the union of the bodies the layer reads, tagged
      by the packet id. */
  datatype Packet =
    | PublicKeyPacket(pk: PublicKey)
    | SignaturePacket(sig: Signature)
    | UserIdPacket(uid: UserId)
    | OtherPacket(tag: OtherTag)
  {
    function Id(): nat
    {
      match this
      case PublicKeyPacket(_) => PKT_PUBKEY
      case SignaturePacket(_) => PKT_SIG
      case UserIdPacket(_) => PKT_USERID
      case OtherPacket(t) => t
    }
  }

  /** The packets a walk visits: those before the first packet with id 0. */
  function Live(chain: seq<Packet>): seq<Packet>
  {
    if chain == [] || chain[0].Id() == 0 then [] else [chain[0]] + Live(chain[1..])
  }

  /** The packets with the given id, in chain order. */
  function OfKind(chain: seq<Packet>, id: nat): seq<Packet>
  {
    if chain == [] then []
    else (if chain[0].Id() == id then [chain[0]] else []) + OfKind(chain[1..], id)
  }

  /** The walk of openpgp_pkt_to_sig/pk/uid: the idx-th packet with the
      given id, counting only packets of that id and stopping at an id-0
      packet or at the end of the chain. */
  function NthOfKind(chain: seq<Packet>, id: nat, idx: nat): Option<Packet>
  {
    if chain == [] || chain[0].Id() == 0 then None
    else if chain[0].Id() == id then
      if idx == 0 then Some(chain[0]) else NthOfKind(chain[1..], id, idx - 1)
    else NthOfKind(chain[1..], id, idx)
  }

  /** The walk picks exactly the idx-th element of the live packets of that
      id, and finds nothing when fewer than idx + 1 of them exist. */
  lemma {:induction false} NthOfKindIsIndex(chain: seq<Packet>, id: nat, idx: nat)
    ensures NthOfKind(chain, id, idx) ==
      (var s := OfKind(Live(chain), id); if idx < |s| then Some(s[idx]) else None)
  {
    if chain == [] || chain[0].Id() == 0 {
    } else {
      var rest := chain[1..];
      assert Live(chain) == [chain[0]] + Live(rest);
      assert ([chain[0]] + Live(rest))[1..] == Live(rest);
      assert OfKind(Live(chain), id) ==
        (if chain[0].Id() == id then [chain[0]] else []) + OfKind(Live(rest), id);
      if chain[0].Id() == id {
        if idx > 0 {
          NthOfKindIsIndex(rest, id, idx - 1);
        }
      } else {
        NthOfKindIsIndex(rest, id, idx);
      }
    }
  }

  /** A packet found by the walk has the id asked for; in particular no
      walk ever returns the id-0 packet that ends the chain. */
  lemma {:induction false} NthOfKindHasId(chain: seq<Packet>, id: nat, idx: nat)
    requires NthOfKind(chain, id, idx).Some?
    ensures NthOfKind(chain, id, idx).value.Id() == id && id != 0
    ensures NthOfKind(chain, id, idx).value in chain
  {
    if chain[0].Id() == id && idx == 0 {
    } else if chain[0].Id() == id {
      NthOfKindHasId(chain[1..], id, idx - 1);
    } else {
      NthOfKindHasId(chain[1..], id, idx);
    }
  }

  /** Packets after the id-0 packet are never reached. */
  lemma {:induction false} NthOfKindStopsAtZero(before: seq<Packet>, after: seq<Packet>, id: nat, idx: nat)
    ensures NthOfKind(before + [OtherPacket(0)] + after, id, idx) == NthOfKind(before + [OtherPacket(0)], id, idx)
  {
    if before != [] {
      assert (before + [OtherPacket(0)] + after)[1..] == before[1..] + [OtherPacket(0)] + after;
      assert (before + [OtherPacket(0)])[1..] == before[1..] + [OtherPacket(0)];
      if before[0].Id() == id && idx > 0 {
        NthOfKindStopsAtZero(before[1..], after, id, idx - 1);
      } else {
        NthOfKindStopsAtZero(before[1..], after, id, idx);
      }
    }
  }

  /** openpgp_pkt_to_sig, openpgp_pkt_to_pk and openpgp_pkt_to_uid (which
      differ only in the id they look for): walk the chain counting the
      packets of that id and return the idx-th, or NULL. */
  method NthPacket(chain: seq<Packet>, id: nat, idx: nat) returns (r: Option<Packet>)
    ensures r == NthOfKind(chain, id, idx)
  {
    var i, n := 0, 0;
    while i < |chain| && chain[i].Id() != 0
      invariant 0 <= i <= |chain| && n <= idx
      invariant NthOfKind(chain[i..], id, idx - n) == NthOfKind(chain, id, idx)
    {
      assert chain[i..][1..] == chain[i + 1..];
      if chain[i].Id() == id && n == idx {
        return Some(chain[i]);
      } else if chain[i].Id() == id {
        n := n + 1;
      }
      i := i + 1;
    }
    return None;
  }

  /** The last live packet with the given id: the one a walk that
      overwrites its result at every such packet ends with. */
  function LastOfKind(chain: seq<Packet>, id: nat): (r: Option<Packet>)
    ensures r.Some? ==> r.value.Id() == id && r.value in chain
  {
    if chain == [] || chain[0].Id() == 0 then None
    else match LastOfKind(chain[1..], id)
      case Some(p) => Some(p)
      case None => if chain[0].Id() == id then Some(chain[0]) else None
  }

  /** The walk's result is the last element of the live packets of that id,
      and there is none exactly when no live packet has that id. */
  lemma {:induction false} LastOfKindIsLast(chain: seq<Packet>, id: nat)
    ensures LastOfKind(chain, id) ==
      (var s := OfKind(Live(chain), id); if s == [] then None else Some(s[|s| - 1]))
  {
    if chain != [] && chain[0].Id() != 0 {
      var rest := chain[1..];
      assert Live(chain) == [chain[0]] + Live(rest);
      assert ([chain[0]] + Live(rest))[1..] == Live(rest);
      assert OfKind(Live(chain), id) ==
        (if chain[0].Id() == id then [chain[0]] else []) + OfKind(Live(rest), id);
      LastOfKindIsLast(rest, id);
    }
  }

  /** The later of two sightings: the one from further along the chain
      when there is one. */
  function Later(further: Option<Packet>, sofar: Option<Packet>): Option<Packet>
  {
    if further.Some? then further else sofar
  }

  /** One step of a walk that remembers the last packet of an id seen so far. */
  lemma LastOfKindStep(chain: seq<Packet>, i: nat, id: nat, sofar: Option<Packet>)
    requires i < |chain| && chain[i].Id() != 0
    ensures Later(LastOfKind(chain[i..], id), sofar) ==
      Later(LastOfKind(chain[i + 1..], id), if chain[i].Id() == id then Some(chain[i]) else sofar)
  {
    assert chain[i..][1..] == chain[i + 1..];
  }

  /** Filtering distributes over concatenation. */
  lemma {:induction false} OfKindAppend(a: seq<Packet>, b: seq<Packet>, id: nat)
    ensures OfKind(a + b, id) == OfKind(a, id) + OfKind(b, id)
  {
    if a != [] {
      assert (a + b)[0] == a[0] && (a + b)[1..] == a[1..] + b;
      OfKindAppend(a[1..], b, id);
      assert OfKind(a + b, id) ==
        (if a[0].Id() == id then [a[0]] else []) + (OfKind(a[1..], id) + OfKind(b, id));
    } else {
      assert a + b == b;
    }
  }

  /** Every packet kept by the filter has that id. */
  lemma {:induction false} OfKindHasId(chain: seq<Packet>, id: nat)
    ensures forall p :: p in OfKind(chain, id) ==> p.Id() == id
  {
    if chain != [] {
      OfKindHasId(chain[1..], id);
    }
  }

  /** The live packets are a prefix of the chain that stops just before the
      first id-0 packet (or at the end of the chain). */
  lemma {:induction false} LiveIsPrefix(chain: seq<Packet>)
    ensures |Live(chain)| <= |chain| && Live(chain) == chain[..|Live(chain)|]
    ensures forall i :: 0 <= i < |Live(chain)| ==> chain[i].Id() != 0
    ensures |Live(chain)| < |chain| ==> chain[|Live(chain)|].Id() == 0
  {
    if chain != [] && chain[0].Id() != 0 {
      LiveIsPrefix(chain[1..]);
    }
  }
}
