/** The debugging helpers of the library: the lower-case hexadecimal dump of
    a buffer (bin2hex) and the names of TLS alert descriptions (alert2str)
    and record content types (packet2str). The C helpers write the names
    into a static buffer; here they are functions returning the string. */
module Debug {
  import opened Common

  // ---------------------------------------------------------------------
  // Hexadecimal dump

  /** The digit table of bin2hex. */
  const HEX_LOWER: seq<char> := "0123456789abcdef"

  /** The two digits of one octet: high nibble first. */
  function HexPair(b: byte): (r: seq<char>)
    ensures |r| == 2
  {
    [HEX_LOWER[b / 16], HEX_LOWER[b % 16]]
  }

  /** The digits bin2hex writes for a buffer, before the terminating NUL. */
  function Hex(data: seq<byte>): (r: seq<char>)
    ensures |r| == 2 * |data|
  {
    if |data| == 0 then [] else Hex(data[..|data| - 1]) + HexPair(data[|data| - 1])
  }

  /** The dump of one more octet is the dump so far followed by its two digits. */
  lemma HexSnoc(prefix: seq<byte>, x: byte)
    ensures Hex(prefix + [x]) == Hex(prefix) + HexPair(x)
  {
    assert (prefix + [x])[..|prefix|] == prefix;
  }

  /** Digits 2i and 2i+1 of the dump are the high and low nibble of octet i. */
  lemma {:induction false} HexNibbles(data: seq<byte>, i: nat)
    requires i < |data|
    ensures Hex(data)[2 * i] == HEX_LOWER[data[i] / 16]
    ensures Hex(data)[2 * i + 1] == HEX_LOWER[data[i] % 16]
  {
    var n := |data| - 1;
    assert Hex(data) == Hex(data[..n]) + HexPair(data[n]);
    if i < n {
      HexNibbles(data[..n], i);
      assert data[..n][i] == data[i];
      assert Hex(data)[2 * i] == Hex(data[..n])[2 * i];
      assert Hex(data)[2 * i + 1] == Hex(data[..n])[2 * i + 1];
    } else {
      assert Hex(data)[2 * i] == HexPair(data[n])[0];
      assert Hex(data)[2 * i + 1] == HexPair(data[n])[1];
    }
  }

  /** The value of a lower-case hexadecimal digit, None for any other character. */
  function NibbleValue(c: char): (v: Option<nat>)
    ensures v.Some? ==> v.value < 16 && HEX_LOWER[v.value] == c
  {
    if '0' <= c <= '9' then Some(c as nat - '0' as nat)
    else if 'a' <= c <= 'f' then Some(c as nat - 'a' as nat + 10)
    else None
  }

  lemma NibbleOfDigit(d: nat)
    requires d < 16
    ensures NibbleValue(HEX_LOWER[d]) == Some(d)
  {
  }

  /** The octet spelled by a high and a low digit, appended to what the
      digits before them decoded to; None when either is not a digit. */
  function AppendOctet(rest: Option<seq<byte>>, hi: char, lo: char): (r: Option<seq<byte>>)
    ensures r.Some? ==> rest.Some? && |r.value| == |rest.value| + 1
  {
    match (rest, NibbleValue(hi), NibbleValue(lo))
    case (Some(octets), Some(h), Some(l)) => Some(octets + [h * 16 + l])
    case _ => None
  }

  /** Decoding a dump: pairs of lower-case digits back to octets; None for
      an odd length or a character outside the digit table. */
  function Unhex(s: seq<char>): (r: Option<seq<byte>>)
    ensures r.Some? ==> 2 * |r.value| == |s|
  {
    if |s| == 0 then Some([])
    else if |s| == 1 then None
    else AppendOctet(Unhex(s[..|s| - 2]), s[|s| - 2], s[|s| - 1])
  }

  /** Decoding the last two digits of a string appends the octet they spell. */
  lemma UnhexStep(s: seq<char>, x: byte, rest: seq<byte>)
    requires |s| >= 2
    requires NibbleValue(s[|s| - 2]) == Some(x / 16) && NibbleValue(s[|s| - 1]) == Some(x % 16)
    requires Unhex(s[..|s| - 2]) == Some(rest)
    ensures Unhex(s) == Some(rest + [x])
  {
    assert Unhex(s) == AppendOctet(Unhex(s[..|s| - 2]), s[|s| - 2], s[|s| - 1]);
    AppendDigits(rest, s[|s| - 2], s[|s| - 1], x);
  }

  /** The two digits of an octet append that octet. */
  lemma AppendDigits(rest: seq<byte>, hi: char, lo: char, x: byte)
    requires NibbleValue(hi) == Some(x / 16) && NibbleValue(lo) == Some(x % 16)
    ensures AppendOctet(Some(rest), hi, lo) == Some(rest + [x])
  {
  }

  /** Decoding the dump of one more octet: the step of UnhexHex. */
  lemma UnhexHexSnoc(prefix: seq<byte>, b: byte)
    requires Unhex(Hex(prefix)) == Some(prefix)
    ensures Unhex(Hex(prefix + [b])) == Some(prefix + [b])
  {
    var s := Hex(prefix + [b]);
    HexSnoc(prefix, b);
    assert s[..|s| - 2] == Hex(prefix);
    NibbleOfDigit(b / 16);
    NibbleOfDigit(b % 16);
    UnhexStep(s, b, prefix);
  }

  /** Decoding the dump of a buffer gives the buffer back. */
  lemma {:induction false} UnhexHex(data: seq<byte>)
    ensures Unhex(Hex(data)) == Some(data)
  {
    if |data| > 0 {
      var n := |data| - 1;
      assert data[..n] + [data[n]] == data;
      UnhexHex(data[..n]);
      UnhexHexSnoc(data[..n], data[n]);
    }
  }

  /** Every string that decodes is the dump of what it decodes to: the
      lower-case dump is the only spelling of a buffer. */
  lemma {:induction false} HexUnhex(s: seq<char>)
    requires Unhex(s).Some?
    ensures Hex(Unhex(s).value) == s
  {
    if |s| > 0 {
      var p := s[..|s| - 2];
      assert Unhex(s) == AppendOctet(Unhex(p), s[|s| - 2], s[|s| - 1]);
      var rest := Unhex(p).value;
      var hi := NibbleValue(s[|s| - 2]).value;
      var lo := NibbleValue(s[|s| - 1]).value;
      var x: byte := hi * 16 + lo;
      assert Unhex(s).value == rest + [x];
      HexUnhex(p);
      HexSnoc(rest, x);
      assert HexPair(x) == [s[|s| - 2], s[|s| - 1]] by {
        assert x / 16 == hi && x % 16 == lo;
      }
      DropLastTwo(s);
    }
  }

  /** A string of two or more characters is its prefix and its last two. */
  lemma DropLastTwo(s: seq<char>)
    requires |s| >= 2
    ensures s == s[..|s| - 2] + [s[|s| - 2], s[|s| - 1]]
  {
  }

  /** bin2hex: a buffer of 2 * |data| + 1 characters, filled two digits per
      octet and closed by a NUL; None when the allocation fails. */
  method Bin2Hex(data: seq<byte>, allocOk: bool) returns (r: Option<seq<char>>)
    ensures !allocOk ==> r == None
    ensures allocOk ==> r == Some(Hex(data) + ['\0'])
  {
    if !allocOk {
      return None;
    }
    var buf := new char[2 * |data| + 1];
    var i, j := 0, 0;
    while i < |data|
      invariant 0 <= i <= |data| && j == 2 * i
      invariant buf[..j] == Hex(data[..i])
    {
      ghost var done := buf[..j];
      buf[j] := HEX_LOWER[data[i] / 16];
      buf[j + 1] := HEX_LOWER[data[i] % 16];
      assert buf[..j + 2] == done + HexPair(data[i]);
      assert data[..i + 1] == data[..i] + [data[i]];
      HexSnoc(data[..i], data[i]);
      i, j := i + 1, j + 2;
    }
    assert data[..i] == data;
    buf[j] := '\0';
    assert buf[..] == buf[..j] + [buf[j]];
    r := Some(buf[..]);
  }

  // ---------------------------------------------------------------------
  // Alert descriptions (section 7.2 of RFC 2246)

  /** The alert descriptions alert2str has a name for. */
  const KNOWN_ALERTS: set<int> :=
    {0, 10, 20, 21, 22, 30, 40, 42, 43, 44, 45, 46, 47, 48, 49, 50, 51, 60, 70, 71, 90, 100}

  const UNKNOWN_ALERT: seq<char> := "Unknown Alert"

  /** alert2str: the name of an alert description, "Unknown Alert" for any
      value without a case. */
  function AlertToString(alert: int): (r: seq<char>)
    ensures r == UNKNOWN_ALERT <==> alert !in KNOWN_ALERTS
  {
    match alert
    case 0 => "Close Notify"                   // close_notify
    case 10 => "Unexpected message"            // unexpected_message
    case 20 => "Bad record MAC"                // bad_record_mac
    case 21 => "Decryption Failed"             // decryption_failed
    case 22 => "Record Overflow"               // record_overflow
    case 30 => "Decompression Failed"          // decompression_failure
    case 40 => "Handshake failed"              // handshake_failure
    case 42 => "Certificate is bad"            // bad_certificate
    case 43 => "Certificate is not supported"  // unsupported_certificate
    case 44 => "Certificate was revoked"       // certificate_revoked
    case 45 => "Certificate is expired"        // certificate_expired
    case 46 => "Unknown Certificate"           // certificate_unknown
    case 47 => "Illegal Parameter"             // illegal_parameter
    case 48 => "CA is not known"               // unknown_ca
    case 49 => "Access was denied"             // access_denied
    case 50 => "Decode error"                  // decode_error
    case 51 => "Decrypt error"                 // decrypt_error
    case 60 => "Export Restriction"            // export_restriction
    case 70 => "Error in protocol version"     // protocol_version
    case 71 => "Insufficient Security"         // insufficient_security
    case 90 => "User Canceled"                 // user_canceled
    case 100 => "No renegotiation is allowed"  // no_renegotiation
    case _ => UNKNOWN_ALERT
  }

  /** Two different known descriptions never share a name, in the order
      the codes are listed. */
  lemma AlertNamesDistinctOrdered(a: int, b: int)
    requires a in KNOWN_ALERTS && b in KNOWN_ALERTS && a < b
    ensures AlertToString(a) != AlertToString(b)
  {
  }

  /** Two different known descriptions never share a name, so the name
      identifies the alert. */
  lemma AlertNamesDistinct(a: int, b: int)
    requires a in KNOWN_ALERTS && a != b
    ensures AlertToString(a) != AlertToString(b)
  {
    if b in KNOWN_ALERTS {
      if a < b {
        AlertNamesDistinctOrdered(a, b);
      } else {
        AlertNamesDistinctOrdered(b, a);
      }
    }
  }

  // ---------------------------------------------------------------------
  // Record content types (section 6.2.1 of RFC 2246)

  /** The content types packet2str has a name for. */
  const KNOWN_PACKETS: set<int> := {20, 21, 22, 23}

  const UNKNOWN_PACKET: seq<char> := "Unknown Packet"

  /** packet2str: the name of a record content type, "Unknown Packet" for
      any other value. */
  function PacketToString(packet: int): (r: seq<char>)
    ensures r == UNKNOWN_PACKET <==> packet !in KNOWN_PACKETS
  {
    match packet
    case 20 => "Change Cipher Spec"  // change_cipher_spec
    case 21 => "Alert"               // alert
    case 22 => "Handshake"           // handshake
    case 23 => "Application Data"    // application_data
    case _ => UNKNOWN_PACKET
  }

  /** Two different known content types never share a name. */
  lemma PacketNamesDistinct(a: int, b: int)
    requires a in KNOWN_PACKETS && a != b
    ensures PacketToString(a) != PacketToString(b)
  {
  }
}
