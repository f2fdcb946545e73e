/** Setting an X.509 distinguished name from its string form (RFC 4514,
    sections 2.4 and 3): the tokenizer read_attr_and_val, the element loop
    crt_set_dn, and dn_attr_crt_set, which resolves the attribute's OID,
    unescapes or hex-decodes the value and hands it to a setter.

    The DN string is a `seq<char>` read as a C string: a position at or
    past its end reads as NUL. Positions into it model the C pointers. The
    OID tables, the hex decoder and the ASN.1 setters are foreign: the
    first three are the `DnEnv` oracle, the setters a `DnTarget` that logs
    every call made to it. */
module X509Dn {
  import opened Common

  /** The character at position i, NUL at or past the end. */
  function At(s: seq<char>, i: nat): char
  {
    if i < |s| then s[i] else '\0'
  }

  /** c_isspace: space, tab, newline, vertical tab, form feed, return. */
  predicate IsSpace(c: char)
  {
    c == ' ' || c == '\t' || c == '\n' || c == '\U{B}' || c == '\U{C}' || c == '\r'
  }

  /** c_isdigit. */
  predicate IsDigit(c: char)
  {
    '0' <= c <= '9'
  }

  /** The size of the buffer an OID-form attribute name is copied into. */
  const MAX_OID_SIZE: nat := 128

  // ---------------------------------------------------------------------
  // The scanning loops of read_attr_and_val, as functions of a position

  /** The first position at or after p that is not a space. */
  function SkipSpaces(s: seq<char>, p: nat): (r: nat)
    requires p <= |s|
    ensures p <= r <= |s|
    decreases |s| - p
  {
    if p < |s| && IsSpace(s[p]) then SkipSpaces(s, p + 1) else p
  }

  /** The end of a name started at p: the first '=', NUL or space. */
  function NameEnd(s: seq<char>, p: nat): (r: nat)
    requires p <= |s|
    ensures p <= r <= |s|
    decreases |s| - p
  {
    if p < |s| && s[p] != '=' && s[p] != '\0' && !IsSpace(s[p]) then NameEnd(s, p + 1) else p
  }

  /** Every character a name spans is neither '=', NUL nor a space. */
  lemma {:induction false} NameEndSpans(s: seq<char>, p: nat)
    requires p <= |s|
    ensures forall k :: p <= k < NameEnd(s, p) ==> s[k] != '=' && s[k] != '\0' && !IsSpace(s[k])
    decreases |s| - p
  {
    if p < |s| && s[p] != '=' && s[p] != '\0' && !IsSpace(s[p]) {
      NameEndSpans(s, p + 1);
    }
  }

  /** Whether position k of a value ends it: NUL, newline, or a comma not
      right after a backslash. */
  predicate EndsValue(s: seq<char>, k: nat)
    requires 1 <= k
  {
    var c := At(s, k);
    c == '\0' || c == '\n' || (c == ',' && At(s, k - 1) != '\\')
  }

  /** The end of a value started at p: the first position that ends it. */
  function ValueEnd(s: seq<char>, p: nat): (r: nat)
    requires 1 <= p <= |s|
    ensures p <= r <= |s| && EndsValue(s, r)
    decreases |s| - p
  {
    if p < |s| && !EndsValue(s, p) then ValueEnd(s, p + 1) else p
  }

  /** No position a value spans ends it. */
  lemma {:induction false} ValueEndSpans(s: seq<char>, p: nat)
    requires 1 <= p <= |s|
    ensures forall k :: p <= k < ValueEnd(s, p) ==> !EndsValue(s, k)
    decreases |s| - p
  {
    if p < |s| && !EndsValue(s, p) {
      ValueEndSpans(s, p + 1);
    }
  }

  /** The size of the value at d after trailing spaces are removed,
      starting from `size`: a space is removed unless a backslash escapes
      it. */
  function TrimmedSize(s: seq<char>, d: nat, size: nat): (r: nat)
    requires d + size <= |s|
    ensures r <= size
    ensures r == 0 || !IsSpace(s[d + r - 1]) || (r >= 2 && s[d + r - 2] == '\\')
  {
    if size == 0 || !IsSpace(s[d + size - 1]) then size
    else if size >= 2 && s[d + size - 2] == '\\' then size
    else TrimmedSize(s, d, size - 1)
  }

  /** The character at k of the value that starts at d follows a
      backslash of that value. */
  predicate EscapedAfter(s: seq<char>, d: nat, k: nat)
    requires k <= |s|
  {
    d < k && s[k - 1] == '\\'
  }

  /** Trimming removes only spaces, and only those no backslash escapes. */
  lemma {:induction false} TrimmedSizeRemovesSpaces(s: seq<char>, d: nat, size: nat)
    requires d + size <= |s|
    ensures var r := TrimmedSize(s, d, size);
      forall k :: d + r <= k < d + size ==> IsSpace(s[k]) && !EscapedAfter(s, d, k)
  {
    if size == 0 || !IsSpace(s[d + size - 1]) {
    } else if size >= 2 && s[d + size - 2] == '\\' {
    } else {
      TrimmedSizeRemovesSpaces(s, d, size - 1);
    }
  }

  /** The trim loop as the C code writes it: the backslash test is guarded
      by `val->size - 2 > 0` in unsigned 32-bit arithmetic, which is false
      for a two-character value and, wrapping, true for a one-character
      value, where the C code would then read `val->data[4294967295]`.
      That branch is never taken on a value read by the tokeniser, which
      never starts with a space; the model reads the character before the
      value there instead. A value is shorter than 2^32 characters, so the
      subtraction wraps only below 2. */
  function TrimmedSizeAsWritten(s: seq<char>, d: nat, size: nat): nat
    requires 1 <= d && d + size <= |s|
  {
    if size == 0 || !IsSpace(s[d + size - 1]) then size
    else if (if size >= 2 then size - 2 else size + U32_LIMIT - 2) > 0 && s[d + size - 2] == '\\' then size
    else TrimmedSizeAsWritten(s, d, size - 1)
  }

  /** In "CN=\ " the C guard drops the escaped space of the
      two-character value (leaving a lone backslash), while in "O=a\ " it
      keeps it; the corrected rule keeps both. */
  lemma TrimAsWrittenDropsEscapedSpace()
    ensures TrimmedSizeAsWritten("CN=\\ ", 3, 2) == 1 && TrimmedSize("CN=\\ ", 3, 2) == 2
    ensures TrimmedSizeAsWritten("O=a\\ ", 2, 3) == 3 && TrimmedSize("O=a\\ ", 2, 3) == 3
    ensures Unescape("CN=\\ "[3..4]) == "\\" && Unescape("CN=\\ "[3..5]) == " "
  {
    assert "CN=\\ "[3..4] == "\\";
    assert "CN=\\ "[3..5] == "\\ ";
    assert "\\ "[2..] == [];
  }

  /** The two trims agree on a value that does not start with a space,
      unless it is a backslash followed by a space. */
  lemma {:induction false} TrimAgreesElsewhere(s: seq<char>, d: nat, size: nat)
    requires 1 <= d && d + size <= |s| && !IsSpace(At(s, d))
    requires !(size >= 2 && s[d] == '\\' && IsSpace(s[d + 1]))
    ensures TrimmedSizeAsWritten(s, d, size) == TrimmedSize(s, d, size)
  {
    if size == 0 || !IsSpace(s[d + size - 1]) {
    } else if size >= 2 && s[d + size - 2] == '\\' {
      assert size != 2;
    } else {
      assert size != 1;
      TrimAgreesElsewhere(s, d, size - 1);
    }
  }

  // ---------------------------------------------------------------------
  // read_attr_and_val

  /** One parsed element: its name, its value (trailing spaces removed),
      whether the value is raw ('#'-prefixed), and the position where the
      value ended. */
  datatype AttrVal = AttrVal(name: seq<char>, value: seq<char>, isRaw: bool, next: nat)

  /** read_attr_and_val on the element that starts at p: leading spaces,
      a name up to '=', NUL or space, spaces, the '=', spaces, and a value
      up to NUL, newline or an unescaped comma. A missing '=' or an empty
      name or value is PARSING_ERROR. */
  function ReadAttrAndValSpec(s: seq<char>, p: nat): Result<AttrVal, Error>
    requires p <= |s|
  {
    var a := SkipSpaces(s, p);
    var b := NameEnd(s, a);
    var c := SkipSpaces(s, b);
    if At(s, c) != '=' then Err(ParsingError)
    else
      var d := SkipSpaces(s, c + 1);
      var e := ValueEnd(s, d);
      var size := ValueSize(s, d);
      if size == 0 || b == a then Err(ParsingError)
      else Ok(AttrVal(s[a..b], s[d..d + size], At(s, d) == '#', e))
  }

  /** The space-skipping loop read_attr_and_val runs three times. */
  method SkipSpacesFrom(s: seq<char>, p0: nat) returns (p: nat)
    requires p0 <= |s|
    ensures p == SkipSpaces(s, p0)
  {
    p := p0;
    while p < |s| && IsSpace(s[p])
      invariant p0 <= p <= |s| && SkipSpaces(s, p) == SkipSpaces(s, p0)
    {
      p := p + 1;
    }
  }

  /** The loop that scans a name. */
  method ScanName(s: seq<char>, p0: nat) returns (p: nat)
    requires p0 <= |s|
    ensures p == NameEnd(s, p0)
  {
    p := p0;
    while p < |s| && s[p] != '=' && s[p] != '\0' && !IsSpace(s[p])
      invariant p0 <= p <= |s| && NameEnd(s, p) == NameEnd(s, p0)
    {
      p := p + 1;
    }
  }

  /** The size of the value at d once its trailing spaces are trimmed. */
  function ValueSize(s: seq<char>, d: nat): nat
    requires 1 <= d <= |s|
  {
    TrimmedSize(s, d, ValueEnd(s, d) - d)
  }

  /** The loop that scans a value and the loop that trims its trailing
      spaces: the value's end and its trimmed size. */
  method ScanValue(s: seq<char>, start: nat) returns (p: nat, size: nat)
    requires 1 <= start <= |s|
    ensures p == ValueEnd(s, start) && size == ValueSize(s, start)
  {
    p := start;
    while p < |s| && !EndsValue(s, p)
      invariant start <= p <= |s| && ValueEnd(s, p) == ValueEnd(s, start)
    {
      p := p + 1;
    }
    size := p - start;
    while size > 0 && IsSpace(s[start + size - 1])
      invariant start + size <= p && TrimmedSize(s, start, size) == TrimmedSize(s, start, p - start)
    {
      if size >= 2 && s[start + size - 2] == '\\' {
        break;
      }
      size := size - 1;
    }
  }

  /** read_attr_and_val: skip spaces, scan the name, skip spaces, expect
      '=', skip spaces, scan and trim the value; on success the new
      position is where the value ended. */
  method ReadAttrAndVal(s: seq<char>, ptr: nat) returns (r: Result<AttrVal, Error>)
    requires ptr <= |s|
    ensures r == ReadAttrAndValSpec(s, ptr)
  {
    var nameStart := SkipSpacesFrom(s, ptr);
    var nameEnd := ScanName(s, nameStart);
    var eq := SkipSpacesFrom(s, nameEnd);
    if At(s, eq) != '=' {
      return Err(ParsingError);
    }
    var valStart := SkipSpacesFrom(s, eq + 1);
    var isRaw := At(s, valStart) == '#';
    var valEnd, size := ScanValue(s, valStart);
    SpecAfterEquals(s, ptr, nameStart, nameEnd, eq, valStart, valEnd, size);
    if size == 0 || nameEnd == nameStart {
      return Err(ParsingError);
    }
    r := Ok(AttrVal(s[nameStart..nameEnd], s[valStart..valStart + size], isRaw, valEnd));
  }

  /** The element read once the '=' is found, in terms of the positions
      the scans reach. */
  lemma SpecAfterEquals(s: seq<char>, p: nat, a: nat, b: nat, c: nat, d: nat, e: nat, size: nat)
    requires p <= |s|
    requires a == SkipSpaces(s, p) && b == NameEnd(s, a) && c == SkipSpaces(s, b) && At(s, c) == '='
    requires d == SkipSpaces(s, c + 1) && e == ValueEnd(s, d) && size == ValueSize(s, d)
    ensures d + size <= |s|
    ensures ReadAttrAndValSpec(s, p) ==
      if size == 0 || b == a then Err(ParsingError)
      else Ok(AttrVal(s[a..b], s[d..d + size], At(s, d) == '#', e))
  {
  }

  /** Where the value of the element at p starts: after the name, the
      spaces, the '=' and the spaces that follow it. */
  function ValueStart(s: seq<char>, p: nat): nat
    requires p <= |s|
  {
    var c := SkipSpaces(s, NameEnd(s, SkipSpaces(s, p)));
    if c < |s| then SkipSpaces(s, c + 1) else |s|
  }

  /** The positions a successful read passes through: the element that
      starts at p is named s[a..b] and valued s[d..d + size]. */
  lemma ReadPositions(s: seq<char>, p: nat, av: AttrVal) returns (a: nat, b: nat, d: nat, size: nat)
    requires p <= |s| && ReadAttrAndValSpec(s, p) == Ok(av)
    ensures p <= a < b < d <= |s| && a == SkipSpaces(s, p) && b == NameEnd(s, a)
    ensures size == ValueSize(s, d) && 0 < size && d + size <= av.next
    ensures av == AttrVal(s[a..b], s[d..d + size], At(s, d) == '#', ValueEnd(s, d))
  {
    a := SkipSpaces(s, p);
    b := NameEnd(s, a);
    var c := SkipSpaces(s, b);
    assert At(s, c) == '=';
    d := SkipSpaces(s, c + 1);
    size := ValueSize(s, d);
    SpecAfterEquals(s, p, a, b, c, d, ValueEnd(s, d), size);
  }

  /** A successful read moves past p, to a position that ends the value. */
  lemma ReadAttrAndValAdvances(s: seq<char>, p: nat, av: AttrVal)
    requires p <= |s| && ReadAttrAndValSpec(s, p) == Ok(av)
    ensures p < av.next <= |s| && EndsValue(s, av.next)
  {
    var a, b, d, size := ReadPositions(s, p, av);
  }

  /** The name of an element read is non-empty and holds no '=', NUL or
      space. */
  lemma ReadAttrAndValName(s: seq<char>, p: nat, av: AttrVal)
    requires p <= |s| && ReadAttrAndValSpec(s, p) == Ok(av)
    ensures 0 < |av.name| && forall c :: c in av.name ==> c != '=' && c != '\0' && !IsSpace(c)
  {
    var a, b, d, size := ReadPositions(s, p, av);
    NameChars(s, a);
  }

  /** The value of an element read is non-empty, raw exactly when it
      starts with '#', holds no NUL or newline, and ends in a non-space or
      an escaped space. */
  lemma ReadAttrAndValValue(s: seq<char>, p: nat, av: AttrVal)
    requires p <= |s| && ReadAttrAndValSpec(s, p) == Ok(av)
    ensures 0 < |av.value| && (av.isRaw <==> av.value[0] == '#')
    ensures '\0' !in av.value && '\n' !in av.value
    ensures !IsSpace(av.value[|av.value| - 1]) || (|av.value| >= 2 && av.value[|av.value| - 2] == '\\')
  {
    var d := ReadValuePosition(s, p, av);
    ValueChars(s, d);
    assert av.value[0] == s[d];
  }

  /** Where the value of a successful read starts. */
  lemma ReadValuePosition(s: seq<char>, p: nat, av: AttrVal) returns (d: nat)
    requires p <= |s| && ReadAttrAndValSpec(s, p) == Ok(av)
    ensures 1 <= d < |s| && av.value == s[d..d + ValueSize(s, d)] && av.isRaw == (s[d] == '#')
  {
    var a, b, size;
    a, b, d, size := ReadPositions(s, p, av);
  }

  /** The value of an element read is the text from where the value
      starts up to where it ended, less exactly the trailing spaces no
      backslash escapes. */
  lemma ReadAttrAndValSpan(s: seq<char>, p: nat, av: AttrVal)
    requires p <= |s| && ReadAttrAndValSpec(s, p) == Ok(av)
    ensures var d := ValueStart(s, p);
      && d + |av.value| <= av.next <= |s|
      && av.value == s[d..d + |av.value|]
      && forall k :: d + |av.value| <= k < av.next ==> IsSpace(s[k]) && !EscapedAfter(s, d, k)
  {
    var a := SkipSpaces(s, p);
    var b := NameEnd(s, a);
    var c := SkipSpaces(s, b);
    assert At(s, c) == '=';
    var d := SkipSpaces(s, c + 1);
    var size := ValueSize(s, d);
    SpecAfterEquals(s, p, a, b, c, d, ValueEnd(s, d), size);
    assert av.value == s[d..d + size] && av.next == ValueEnd(s, d);
    ValueStartAfter(s, p, c);
    TrimmedValueSpan(s, d);
  }

  /** Once the '=' is found at c, the value starts at the first non-space
      after it. */
  lemma ValueStartAfter(s: seq<char>, p: nat, c: nat)
    requires p <= |s| && c == SkipSpaces(s, NameEnd(s, SkipSpaces(s, p))) && c < |s|
    ensures ValueStart(s, p) == SkipSpaces(s, c + 1)
  {
  }

  /** Between the trimmed value at d and the end of the value there are
      only spaces no backslash of the value escapes. */
  lemma TrimmedValueSpan(s: seq<char>, d: nat)
    requires 1 <= d <= |s|
    ensures d + ValueSize(s, d) <= ValueEnd(s, d) <= |s|
    ensures forall k :: d + ValueSize(s, d) <= k < ValueEnd(s, d) ==> IsSpace(s[k]) && !EscapedAfter(s, d, k)
  {
    TrimmedSizeRemovesSpaces(s, d, ValueEnd(s, d) - d);
  }

  /** A scanned name holds no '=', NUL or space. */
  lemma NameChars(s: seq<char>, a: nat)
    requires a <= |s|
    ensures forall c :: c in s[a..NameEnd(s, a)] ==> c != '=' && c != '\0' && !IsSpace(c)
  {
    var b := NameEnd(s, a);
    NameEndSpans(s, a);
    forall c | c in s[a..b]
      ensures c != '=' && c != '\0' && !IsSpace(c)
    {
      var k :| 0 <= k < b - a && s[a..b][k] == c;
      assert s[a + k] == c;
    }
  }

  /** A scanned and trimmed value holds no NUL or newline and ends in a
      non-space or an escaped space. */
  lemma ValueChars(s: seq<char>, d: nat)
    requires 1 <= d <= |s|
    ensures var v := s[d..d + ValueSize(s, d)];
      && '\0' !in v && '\n' !in v
      && (|v| == 0 || !IsSpace(v[|v| - 1]) || (|v| >= 2 && v[|v| - 2] == '\\'))
  {
    var size := ValueSize(s, d);
    var v := s[d..d + size];
    ValueEndSpans(s, d);
    forall k | 0 <= k < size
      ensures v[k] != '\0' && v[k] != '\n'
    {
      assert v[k] == s[d + k];
      assert !EndsValue(s, d + k);
    }
    if size > 0 {
      assert v[size - 1] == s[d + size - 1];
      if size >= 2 {
        assert v[size - 2] == s[d + size - 2];
      }
    }
  }

  // ---------------------------------------------------------------------
  // Escaping

  /** The characters a backslash escapes in a value. */
  predicate Escapable(c: char)
  {
    c == ',' || c == '#' || c == ' '
  }

  /** The unescaping of dn_attr_crt_set: a backslash followed by ',', '#'
      or a space stands for that character; everything else is copied. */
  function Unescape(v: seq<char>): seq<char>
  {
    if v == [] then []
    else if |v| >= 2 && v[0] == '\\' && Escapable(v[1]) then [v[1]] + Unescape(v[2..])
    else [v[0]] + Unescape(v[1..])
  }

  /** How many escape pairs the unescaping consumes. */
  function EscapeCount(v: seq<char>): nat
  {
    if v == [] then 0
    else if |v| >= 2 && v[0] == '\\' && Escapable(v[1]) then 1 + EscapeCount(v[2..])
    else EscapeCount(v[1..])
  }

  /** Unescaping shrinks the value by one character per escape. */
  lemma {:induction false} UnescapeLength(v: seq<char>)
    ensures 2 * EscapeCount(v) <= |v|
    ensures |Unescape(v)| == |v| - EscapeCount(v)
  {
    if v == [] {
    } else if |v| >= 2 && v[0] == '\\' && Escapable(v[1]) {
      UnescapeLength(v[2..]);
    } else {
      UnescapeLength(v[1..]);
    }
  }

  /** The escaping a writer applies so a value reads back: a backslash
      before each ',', '#' and space. */
  function Escape(v: seq<char>): (r: seq<char>)
    ensures |r| >= |v|
  {
    if v == [] then []
    else if Escapable(v[0]) then ['\\', v[0]] + Escape(v[1..])
    else [v[0]] + Escape(v[1..])
  }

  /** Escaping then unescaping gives the value back. */
  lemma {:induction false} UnescapeEscape(v: seq<char>)
    ensures Unescape(Escape(v)) == v
  {
    if v != [] {
      var r := Escape(v);
      UnescapeEscape(v[1..]);
      if Escapable(v[0]) {
        assert r[2..] == Escape(v[1..]);
      } else {
        assert r[1..] == Escape(v[1..]);
        if |r| >= 2 && r[0] == '\\' {
          EscapeStart(v[1..]);
        }
      }
    }
  }

  /** An escaped value never starts with an escapable character. */
  lemma EscapeStart(v: seq<char>)
    requires v != []
    ensures !Escapable(Escape(v)[0])
  {
  }

  /** One step of the unescaping from position j. */
  lemma UnescapeStep(val: seq<char>, j: nat)
    requires j < |val|
    ensures Unescape(val[j..]) ==
      if j + 1 < |val| && val[j] == '\\' && Escapable(val[j + 1]) then [val[j + 1]] + Unescape(val[j + 2..])
      else [val[j]] + Unescape(val[j + 1..])
  {
    assert val[j..][1..] == val[j + 1..];
    if j + 1 < |val| {
      assert val[j..][2..] == val[j + 2..];
    }
  }

  /** Moving one character from the unread part to the written part. */
  lemma AppendOne(done: seq<char>, c: char, rest: seq<char>, whole: seq<char>)
    requires done + ([c] + rest) == whole
    ensures (done + [c]) + rest == whole
  {
    assert (done + [c]) + rest == done + ([c] + rest);
  }

  /** The unescape loop of dn_attr_crt_set: i indexes the output, j the
      value; an escape pair writes one character and shrinks the output
      size by one. */
  method UnescapeValue(val: seq<char>) returns (out: seq<char>)
    ensures out == Unescape(val)
  {
    var tmp := new char[|val| + 1];
    var size := |val|;
    var i, j := 0, 0;
    while i < size
      invariant 0 <= i <= size <= |val|
      invariant j == i + (|val| - size) && j <= |val|
      invariant tmp[..i] + Unescape(val[j..]) == Unescape(val)
      decreases size - i
    {
      UnescapeStep(val, j);
      ghost var done := tmp[..i];
      var c, step;
      if 1 + j != |val| && val[j] == '\\' && Escapable(val[j + 1]) {
        c, step := val[j + 1], 2;
        size := size - 1;
      } else {
        c, step := val[j], 1;
      }
      tmp[i] := c;
      assert tmp[..i + 1] == done + [c];
      AppendOne(done, c, Unescape(val[j + step..]), Unescape(val));
      i, j := i + 1, j + step;
    }
    tmp[size] := '\0';
    assert val[j..] == [];
    return tmp[..size];
  }

  // ---------------------------------------------------------------------
  // dn_attr_crt_set

  /** The foreign lookups dn_attr_crt_set makes: whether an OID is in the
      DN attribute table (gnutls_x509_dn_oid_known), the OID of an LDAP
      attribute name (_gnutls_ldap_string_to_oid) and the hex decoder
      (gnutls_hex_decode2), each failing as None. */
  datatype DnEnv = DnEnv(
    oidKnown: seq<char> -> bool,
    ldapToOid: seq<char> -> Option<seq<char>>,
    hexDecode: seq<char> -> Option<seq<byte>>)

  /** A value handed to a setter: unescaped text, or the octets of a raw
      ('#'-prefixed, hex) value; the setter's raw flag is `Octets?`. */
  datatype DnValue = Text(chars: seq<char>) | Octets(bytes: seq<byte>)

  /** One attribute as a setter receives it. */
  datatype DnRecord = DnRecord(oid: seq<char>, value: DnValue)

  /** The OID of an attribute: a name starting with a digit is an OID
      itself, which must fit the 128-character buffer and, unless the value
      is raw, be known; any other name is looked up as an LDAP name. */
  function ResolveOid(name: seq<char>, isRaw: bool, env: DnEnv): (r: Result<seq<char>, Error>)
    requires name != []
    ensures r.Err? ==> r.error == ParsingError
    ensures IsDigit(name[0]) ==>
      (r.Ok? <==> |name| < MAX_OID_SIZE && (env.oidKnown(name) || isRaw)) && (r.Ok? ==> r.value == name)
    ensures !IsDigit(name[0]) ==> r == (if env.ldapToOid(name).Some? then Ok(env.ldapToOid(name).value) else Err(ParsingError))
  {
    if IsDigit(name[0]) then
      if |name| >= MAX_OID_SIZE then Err(ParsingError)
      else if !env.oidKnown(name) && !isRaw then Err(ParsingError)
      else Ok(name)
    else
      match env.ldapToOid(name)
      case None => Err(ParsingError)
      case Some(oid) => Ok(oid)
  }

  /** What dn_attr_crt_set hands the setter for one element: an empty name
      or value is PARSING_ERROR, so is an OID that does not resolve and a
      raw value whose hex (after the '#') does not decode; a text value is
      unescaped. */
  function AttrRecord(name: seq<char>, val: seq<char>, isRaw: bool, env: DnEnv): Result<DnRecord, Error>
  {
    if |name| == 0 || |val| == 0 then Err(ParsingError)
    else match ResolveOid(name, isRaw, env)
      case Err(e) => Err(e)
      case Ok(oid) =>
        if isRaw then
          match env.hexDecode(val[1..])
          case None => Err(ParsingError)
          case Some(bytes) => Ok(DnRecord(oid, Octets(bytes)))
        else Ok(DnRecord(oid, Text(Unescape(val))))
  }

  /** The four setters the public entry points plug into crt_set_dn: the
      certificate subject, the certificate issuer, the request subject and
      a bare DN structure. */
  datatype SetterKind = CrtSubject | CrtIssuer | CrqSubject | DnStructure

  /** One call of a setter. */
  datatype SetterCall = SetterCall(setter: SetterKind, record: DnRecord)

  /** The object a DN is set on (a certificate, a request or a DN). Its
      setters are foreign ASN.1 code: `respond` gives the code a setter
      returns given the calls made before, and `calls` logs every call. */
  class DnTarget {
    var calls: seq<SetterCall>
    const respond: (seq<SetterCall>, SetterCall) -> int

    constructor (respond: (seq<SetterCall>, SetterCall) -> int)
      ensures this.respond == respond && calls == []
    {
      this.respond := respond;
      calls := [];
    }

    /** Call a setter: log the call and return its code. */
    method Invoke(call: SetterCall) returns (ret: int)
      modifies this
      ensures calls == old(calls) + [call]
      ensures ret == respond(old(calls), call)
    {
      ret := respond(calls, call);
      calls := calls + [call];
    }
  }

  /** A setter's code as crt_set_dn passes it on: negative codes are
      errors returned unchanged, the rest is success. */
  function SetterOutcome(ret: int): (o: Outcome<Error>)
    ensures o.Pass? <==> ret >= 0
    ensures o.Fail? ==> o.error == SetterError(ret)
  {
    if ret < 0 then Fail(SetterError(ret)) else Pass
  }

  /** dn_attr_crt_set: resolve the OID, decode or unescape the value and
      call the setter once; on any error before the call no setter runs. */
  method DnAttrCrtSet(f: SetterKind, target: DnTarget, name: seq<char>, val: seq<char>, isRaw: bool, env: DnEnv)
    returns (rc: Outcome<Error>)
    modifies target
    ensures match AttrRecord(name, val, isRaw, env)
      case Err(e) => rc == Fail(e) && target.calls == old(target.calls)
      case Ok(rec) =>
        && target.calls == old(target.calls) + [SetterCall(f, rec)]
        && rc == SetterOutcome(target.respond(old(target.calls), SetterCall(f, rec)))
  {
    if |name| == 0 || |val| == 0 {
      return Fail(ParsingError);
    }
    var oid;
    if IsDigit(name[0]) {
      if |name| >= MAX_OID_SIZE {
        return Fail(ParsingError);
      }
      oid := name;
      if !env.oidKnown(oid) && !isRaw {
        return Fail(ParsingError);
      }
    } else {
      var found := env.ldapToOid(name);
      if found.None? {
        return Fail(ParsingError);
      }
      oid := found.value;
    }
    var value;
    if isRaw {
      var decoded := env.hexDecode(val[1..]);
      if decoded.None? {
        return Fail(ParsingError);
      }
      value := Octets(decoded.value);
    } else {
      var chars := UnescapeValue(val);
      value := Text(chars);
    }
    var ret := target.Invoke(SetterCall(f, DnRecord(oid, value)));
    if ret < 0 {
      return Fail(SetterError(ret));
    }
    return Pass;
  }

  // ---------------------------------------------------------------------
  // crt_set_dn

  /** How a run of crt_set_dn ends: its code, the setter calls made, and
      the error position last recorded (None before the first element). */
  datatype DnRun = DnRun(rc: Outcome<Error>, calls: seq<SetterCall>, err: Option<nat>)

  /** One pass of crt_set_dn's loop: either the run ends, or it goes on at
      a later position with the calls made and the error position. */
  datatype DnStep = Stop(run: DnRun) | Next(p: nat, calls: seq<SetterCall>, err: nat)

  /** One element at position p: read it, skip spaces, set it, and check
      the separator. A failing read or set leaves the error position at
      the element's start; a bad separator leaves it at the separator,
      and a comma is skipped. */
  function ElementStep(f: SetterKind, respond: (seq<SetterCall>, SetterCall) -> int, env: DnEnv,
                       s: seq<char>, p: nat, calls: seq<SetterCall>): (st: DnStep)
    requires p <= |s|
    ensures st.Next? ==> p < st.p <= |s| && st.err <= |s| && |st.calls| == |calls| + 1 && st.calls[..|calls|] == calls
    ensures st.Stop? ==>
      && st.run.rc.Fail? && st.run.err.Some? && st.run.err.value <= |s|
      && |calls| <= |st.run.calls| <= |calls| + 1 && st.run.calls[..|calls|] == calls
  {
    match ReadAttrAndValSpec(s, p)
    case Err(e) => Stop(DnRun(Fail(e), calls, Some(p)))
    case Ok(av) =>
      ReadAttrAndValAdvances(s, p, av);
      var q := SkipSpaces(s, av.next);
      match AttrRecord(av.name, av.value, av.isRaw, env)
      case Err(e) => Stop(DnRun(Fail(e), calls, Some(p)))
      case Ok(rec) =>
        var call := SetterCall(f, rec);
        var ret := respond(calls, call);
        if ret < 0 then Stop(DnRun(Fail(SetterError(ret)), calls + [call], Some(p)))
        else SeparatorStep(s, q, calls + [call])
  }

  /** The separator test after an element is set, at q past the spaces
      that follow it: anything but ',', NUL or a newline is PARSING_ERROR
      there, and a ',' is skipped. */
  function SeparatorStep(s: seq<char>, q: nat, calls: seq<SetterCall>): DnStep
  {
    if At(s, q) != ',' && At(s, q) != '\0' && At(s, q) != '\n' then
      Stop(DnRun(Fail(ParsingError), calls, Some(q)))
    else Next(if At(s, q) == ',' then q + 1 else q, calls, q)
  }

  /** Whether the element at p fails before its separator is looked at:
      it does not read, its OID or value does not resolve, or the setter
      returns a negative code. */
  predicate ElementFails(f: SetterKind, respond: (seq<SetterCall>, SetterCall) -> int, env: DnEnv,
                         s: seq<char>, p: nat, calls: seq<SetterCall>)
    requires p <= |s|
  {
    match ReadAttrAndValSpec(s, p)
    case Err(_) => true
    case Ok(av) =>
      match AttrRecord(av.name, av.value, av.isRaw, env)
      case Err(_) => true
      case Ok(rec) => respond(calls, SetterCall(f, rec)) < 0
  }

  /** The error position is left at the element's start exactly when the
      element fails to read or to set; a read error is passed on as it is
      and stops the run before any call. */
  lemma ElementFailsAtStart(f: SetterKind, respond: (seq<SetterCall>, SetterCall) -> int, env: DnEnv,
                            s: seq<char>, p: nat, calls: seq<SetterCall>)
    requires p <= |s|
    ensures var st := ElementStep(f, respond, env, s, p, calls);
      && (ElementFails(f, respond, env, s, p, calls) <==> st.Stop? && st.run.err == Some(p))
      && (ReadAttrAndValSpec(s, p).Err? ==> st == Stop(DnRun(Fail(ReadAttrAndValSpec(s, p).error), calls, Some(p))))
  {
    match ReadAttrAndValSpec(s, p)
    case Err(_) =>
    case Ok(av) =>
      ReadAttrAndValAdvances(s, p, av);
  }

  /** After an element that is set, the next character other than a space
      must be ',', NUL or a newline; anything else is PARSING_ERROR with
      the error position at that character. A ',' is skipped. */
  lemma SeparatorRule(f: SetterKind, respond: (seq<SetterCall>, SetterCall) -> int, env: DnEnv,
                      s: seq<char>, p: nat, calls: seq<SetterCall>, av: AttrVal, rec: DnRecord)
    requires p <= |s| && ReadAttrAndValSpec(s, p) == Ok(av)
    requires AttrRecord(av.name, av.value, av.isRaw, env) == Ok(rec)
    requires respond(calls, SetterCall(f, rec)) >= 0
    ensures av.next <= |s|
    ensures var q := SkipSpaces(s, av.next);
      var c := At(s, q);
      var st := ElementStep(f, respond, env, s, p, calls);
      && p < q
      && (st.Stop? <==> c != ',' && c != '\0' && c != '\n')
      && (st.Stop? ==> st.run == DnRun(Fail(ParsingError), calls + [SetterCall(f, rec)], Some(q)))
      && (st.Next? ==> st == Next(if c == ',' then q + 1 else q, calls + [SetterCall(f, rec)], q))
  {
    ElementStepAfterSet(f, respond, env, s, p, calls, av, rec);
  }

  /** After an element that is set, the step is the separator test at
      the first non-space after the value. */
  lemma ElementStepAfterSet(f: SetterKind, respond: (seq<SetterCall>, SetterCall) -> int, env: DnEnv,
                            s: seq<char>, p: nat, calls: seq<SetterCall>, av: AttrVal, rec: DnRecord)
    requires p <= |s| && ReadAttrAndValSpec(s, p) == Ok(av)
    requires AttrRecord(av.name, av.value, av.isRaw, env) == Ok(rec)
    requires respond(calls, SetterCall(f, rec)) >= 0
    ensures p < av.next <= |s|
    ensures ElementStep(f, respond, env, s, p, calls) == SeparatorStep(s, SkipSpaces(s, av.next), calls + [SetterCall(f, rec)])
  {
    ReadAttrAndValAdvances(s, p, av);
  }

  /** crt_set_dn from position p, with the calls made and the error
      position recorded so far: elements are set one after another until
      NUL or a newline. */
  function SetDnFrom(f: SetterKind, respond: (seq<SetterCall>, SetterCall) -> int, env: DnEnv,
                     s: seq<char>, p: nat, calls: seq<SetterCall>, err: Option<nat>): DnRun
    requires p <= |s|
    decreases |s| - p
  {
    if At(s, p) == '\0' || At(s, p) == '\n' then DnRun(Pass, calls, err)
    else match ElementStep(f, respond, env, s, p, calls)
      case Stop(run) => run
      case Next(q, calls', e) => SetDnFrom(f, respond, env, s, q, calls', Some(e))
  }

  /** "CN=a\nO=b": the newline after "a" ends the value and is then
      skipped as a space, so the 'O' at position 5 is a bad separator. The
      run is PARSING_ERROR at 5, after CN has been set. */
  lemma NewlineBeforeElementIsParsingError(f: SetterKind, respond: (seq<SetterCall>, SetterCall) -> int,
                                           env: DnEnv, calls: seq<SetterCall>)
    requires env.ldapToOid("CN").Some?
    requires respond(calls, SetterCall(f, DnRecord(env.ldapToOid("CN").value, Text("a")))) >= 0
    ensures SetDnFrom(f, respond, env, "CN=a\nO=b", 0, calls, None) ==
      DnRun(Fail(ParsingError), calls + [SetterCall(f, DnRecord(env.ldapToOid("CN").value, Text("a")))], Some(5))
  {
    var s := "CN=a\nO=b";
    var rec := DnRecord(env.ldapToOid("CN").value, Text("a"));
    ReadNewlineExample();
    assert Unescape("a") == "a";
    assert AttrRecord("CN", "a", false, env) == Ok(rec);
    SeparatorRule(f, respond, env, s, 0, calls, AttrVal("CN", "a", false, 4), rec);
    assert At(s, 0) == 'C';
  }

  /** The element read at the start of "CN=a\nO=b", and where the spaces
      after it end. */
  lemma ReadNewlineExample()
    ensures ReadAttrAndValSpec("CN=a\nO=b", 0) == Ok(AttrVal("CN", "a", false, 4))
    ensures SkipSpaces("CN=a\nO=b", 4) == 5 && At("CN=a\nO=b", 5) == 'O'
  {
    var s := "CN=a\nO=b";
    NewlineExampleName(s);
    NewlineExampleValue(s);
    SpecAfterEquals(s, 0, 0, 2, 2, 3, 4, 1);
    assert s[0..2] == "CN" && s[3..4] == "a";
    assert SkipSpaces(s, 5) == 5;
  }

  /** The name of "CN=a\nO=b" and the '=' after it. */
  lemma NewlineExampleName(s: seq<char>)
    requires s == "CN=a\nO=b"
    ensures SkipSpaces(s, 0) == 0 && NameEnd(s, 0) == 2 && SkipSpaces(s, 2) == 2 && At(s, 2) == '='
  {
    assert NameEnd(s, 2) == 2;
    assert NameEnd(s, 1) == 2;
  }

  /** The value of "CN=a\nO=b": one character, ended by the newline. */
  lemma NewlineExampleValue(s: seq<char>)
    requires s == "CN=a\nO=b"
    ensures SkipSpaces(s, 3) == 3 && ValueEnd(s, 3) == 4 && ValueSize(s, 3) == 1
  {
    assert ValueEnd(s, 4) == 4;
    assert TrimmedSize(s, 3, 1) == 1;
  }

  /** The body of crt_set_dn's loop for the element at p. */
  method SetElement(f: SetterKind, t: DnTarget, s: seq<char>, p: nat, env: DnEnv) returns (st: DnStep)
    requires p <= |s|
    modifies t
    ensures st == ElementStep(f, t.respond, env, s, p, old(t.calls))
    ensures t.calls == (if st.Stop? then st.run.calls else st.calls)
  {
    var read := ReadAttrAndVal(s, p);
    if read.Err? {
      return Stop(DnRun(Fail(read.error), t.calls, Some(p)));
    }
    var av := read.value;
    ReadAttrAndValAdvances(s, p, av);
    var q := SkipSpacesFrom(s, av.next);
    var setRc := DnAttrCrtSet(f, t, av.name, av.value, av.isRaw, env);
    if setRc.Fail? {
      return Stop(DnRun(setRc, t.calls, Some(p)));
    }
    if At(s, q) != ',' && At(s, q) != '\0' && At(s, q) != '\n' {
      return Stop(DnRun(Fail(ParsingError), t.calls, Some(q)));
    }
    var next := if At(s, q) == ',' then q + 1 else q;
    return Next(next, t.calls, q);
  }

  /** crt_set_dn: a missing object or string is INVALID_REQUEST; otherwise
      the element loop runs over the string and the calls it makes are
      the setters' log. */
  method CrtSetDn(f: SetterKind, target: DnTarget?, dn: Option<seq<char>>, env: DnEnv)
    returns (rc: Outcome<Error>, err: Option<nat>)
    modifies target
    ensures target == null || dn.None? ==> rc == Fail(InvalidRequest) && err.None?
    ensures target != null && dn.None? ==> target.calls == old(target.calls)
    ensures target != null && dn.Some? ==>
      var run := SetDnFrom(f, target.respond, env, dn.value, 0, old(target.calls), None);
      rc == run.rc && err == run.err && target.calls == run.calls
  {
    if target == null || dn.None? {
      return Fail(InvalidRequest), None;
    }
    var s := dn.value;
    var t: DnTarget := target;
    ghost var run := SetDnFrom(f, t.respond, env, s, 0, t.calls, None);
    var p := 0;
    err := None;
    while At(s, p) != '\0' && At(s, p) != '\n'
      invariant p <= |s|
      invariant SetDnFrom(f, t.respond, env, s, p, t.calls, err) == run
      decreases |s| - p
    {
      err := Some(p);
      var st := SetElement(f, t, s, p, env);
      if st.Stop? {
        return st.run.rc, st.run.err;
      }
      p, err := st.p, Some(st.err);
    }
    return Pass, err;
  }

  /** gnutls_x509_crt_set_dn: set a certificate's subject DN. */
  method CrtSetSubjectDn(crt: DnTarget?, dn: Option<seq<char>>, env: DnEnv) returns (rc: Outcome<Error>, err: Option<nat>)
    modifies crt
    ensures crt == null || dn.None? ==> rc == Fail(InvalidRequest)
    ensures crt != null && dn.Some? ==>
      var run := SetDnFrom(CrtSubject, crt.respond, env, dn.value, 0, old(crt.calls), None);
      rc == run.rc && err == run.err && crt.calls == run.calls
  {
    rc, err := CrtSetDn(CrtSubject, crt, dn, env);
  }

  /** gnutls_x509_crt_set_issuer_dn: set a certificate's issuer DN. */
  method CrtSetIssuerDn(crt: DnTarget?, dn: Option<seq<char>>, env: DnEnv) returns (rc: Outcome<Error>, err: Option<nat>)
    modifies crt
    ensures crt == null || dn.None? ==> rc == Fail(InvalidRequest)
    ensures crt != null && dn.Some? ==>
      var run := SetDnFrom(CrtIssuer, crt.respond, env, dn.value, 0, old(crt.calls), None);
      rc == run.rc && err == run.err && crt.calls == run.calls
  {
    rc, err := CrtSetDn(CrtIssuer, crt, dn, env);
  }

  /** gnutls_x509_crq_set_dn: set a certificate request's subject DN. */
  method CrqSetDn(crq: DnTarget?, dn: Option<seq<char>>, env: DnEnv) returns (rc: Outcome<Error>, err: Option<nat>)
    modifies crq
    ensures crq == null || dn.None? ==> rc == Fail(InvalidRequest)
    ensures crq != null && dn.Some? ==>
      var run := SetDnFrom(CrqSubject, crq.respond, env, dn.value, 0, old(crq.calls), None);
      rc == run.rc && err == run.err && crq.calls == run.calls
  {
    rc, err := CrtSetDn(CrqSubject, crq, dn, env);
  }

  /** gnutls_x509_dn_set_str: set a DN structure from a string; a missing
      structure is INVALID_REQUEST before anything else. */
  method DnSetStr(dn: DnTarget?, str: Option<seq<char>>, env: DnEnv) returns (rc: Outcome<Error>, err: Option<nat>)
    modifies dn
    ensures dn == null || str.None? ==> rc == Fail(InvalidRequest)
    ensures dn != null && str.Some? ==>
      var run := SetDnFrom(DnStructure, dn.respond, env, str.value, 0, old(dn.calls), None);
      rc == run.rc && err == run.err && dn.calls == run.calls
  {
    if dn == null {
      return Fail(InvalidRequest), None;
    }
    rc, err := CrtSetDn(DnStructure, dn, str, env);
  }

  // ---------------------------------------------------------------------
  // Round trip: a DN written with escapes sets exactly its attributes

  /** One relative distinguished name as a writer would give it: an
      attribute name (LDAP name or dotted OID) and its text value. */
  datatype Rdn = Rdn(name: seq<char>, value: seq<char>)

  /** A name the tokenizer reads whole and that resolves to an OID. */
  predicate SettableName(name: seq<char>, env: DnEnv)
  {
    && name != []
    && (forall c :: c in name ==> c != '=' && c != '\0' && !IsSpace(c))
    && ResolveOid(name, false, env).Ok?
  }

  /** A value the escaping carries through: non-empty, no whitespace but
      the plain space, no NUL, and not ending in a backslash (which would
      escape the comma that follows). */
  predicate WritableValue(v: seq<char>)
  {
    && v != []
    && (forall c :: c in v ==> c == ' ' || (!IsSpace(c) && c != '\0'))
    && v[|v| - 1] != '\\'
  }

  predicate SettableRdn(r: Rdn, env: DnEnv)
  {
    SettableName(r.name, env) && WritableValue(r.value)
  }

  /** The text of one RDN: name, '=', escaped value. */
  function FormatRdn(r: Rdn): seq<char>
  {
    r.name + "=" + Escape(r.value)
  }

  /** The text of a DN: its RDNs joined by commas. */
  function FormatDn(rdns: seq<Rdn>): seq<char>
  {
    if rdns == [] then []
    else if |rdns| == 1 then FormatRdn(rdns[0])
    else FormatRdn(rdns[0]) + "," + FormatDn(rdns[1..])
  }

  /** Every RDN of a list is settable. */
  predicate AllSettable(rdns: seq<Rdn>, env: DnEnv)
  {
    forall i :: 0 <= i < |rdns| ==> SettableRdn(rdns[i], env)
  }

  /** The setter call one RDN should produce: its OID and its value. */
  function RdnCall(f: SetterKind, env: DnEnv, r: Rdn): SetterCall
    requires SettableRdn(r, env)
  {
    SetterCall(f, DnRecord(ResolveOid(r.name, false, env).value, Text(r.value)))
  }

  /** The setter calls a DN's RDNs should produce, in order. */
  function Records(f: SetterKind, env: DnEnv, rdns: seq<Rdn>): seq<SetterCall>
    requires AllSettable(rdns, env)
  {
    if rdns == [] then []
    else [RdnCall(f, env, rdns[0])] + Records(f, env, rdns[1..])
  }

  /** Escaping distributes over concatenation. */
  lemma {:induction false} EscapeAppend(a: seq<char>, b: seq<char>)
    ensures Escape(a + b) == Escape(a) + Escape(b)
  {
    if a == [] {
      assert a + b == b;
    } else {
      assert (a + b)[0] == a[0] && (a + b)[1..] == a[1..] + b;
      EscapeAppend(a[1..], b);
    }
  }

  /** Inside an escaped value no character is NUL or a newline, and every
      comma follows a backslash. */
  lemma {:induction false} EscapedChars(v: seq<char>)
    requires forall c :: c in v ==> c != '\0' && c != '\n'
    ensures forall i :: 0 <= i < |Escape(v)| ==>
      && Escape(v)[i] != '\0' && Escape(v)[i] != '\n'
      && (Escape(v)[i] == ',' ==> i > 0 && Escape(v)[i - 1] == '\\')
  {
    if v != [] {
      var tail := v[1..];
      assert forall c :: c in tail ==> c in v;
      EscapedChars(tail);
      assert v[0] in v;
      if tail != [] {
        EscapeStart(tail);
      }
      if Escapable(v[0]) {
        assert Escape(v) == ['\\', v[0]] + Escape(tail);
      } else {
        assert Escape(v) == [v[0]] + Escape(tail);
      }
    }
  }

  /** How an escaped writable value starts and ends: not with a space or
      '#'; its last character is not a backslash, and is a space only
      right after a backslash. */
  lemma EscapedEnds(v: seq<char>)
    requires WritableValue(v)
    ensures var e := Escape(v);
      && |e| >= 1 && !IsSpace(e[0]) && e[0] != '#'
      && e[|e| - 1] != '\\'
      && (IsSpace(e[|e| - 1]) ==> |e| >= 2 && e[|e| - 2] == '\\')
  {
    EscapeStart(v);
    assert v[0] in v;
    EscapedLast(v);
  }

  /** The end of an escaped writable value: its last character, preceded
      by a backslash when that character is escapable. */
  lemma EscapedLast(v: seq<char>)
    requires WritableValue(v)
    ensures var e := Escape(v);
      && |e| >= 1 && e[|e| - 1] == v[|v| - 1]
      && (Escapable(v[|v| - 1]) ==> |e| >= 2 && e[|e| - 2] == '\\')
  {
    var pre := v[..|v| - 1];
    var last := v[|v| - 1];
    assert v == pre + [last];
    EscapeAppend(pre, [last]);
    var t := Escape([last]);
    assert [last][1..] == [];
    if Escapable(last) {
      assert t == ['\\', last];
    } else {
      assert t == [last];
    }
    assert Escape(v) == Escape(pre) + t;
  }

  /** A name scan over characters that may be part of a name ends where
      one that ends it stands. */
  lemma {:induction false} NameEndAt(s: seq<char>, p: nat, q: nat)
    requires p <= q <= |s|
    requires forall k :: p <= k < q ==> s[k] != '=' && s[k] != '\0' && !IsSpace(s[k])
    requires At(s, q) == '='
    ensures NameEnd(s, p) == q
    decreases q - p
  {
    if p < q {
      NameEndAt(s, p + 1, q);
    }
  }

  /** A value scan over positions that do not end it stops at the first
      one that does. */
  lemma {:induction false} ValueEndAt(s: seq<char>, p: nat, q: nat)
    requires 1 <= p <= q <= |s|
    requires forall k :: p <= k < q ==> !EndsValue(s, k)
    requires EndsValue(s, q)
    ensures ValueEnd(s, p) == q
    decreases q - p
  {
    if p < q {
      ValueEndAt(s, p + 1, q);
    }
  }

  /** A settable name at p followed by '=' is read whole. */
  lemma ReadFormattedName(s: seq<char>, p: nat, name: seq<char>, env: DnEnv)
    requires SettableName(name, env)
    requires p + |name| < |s| && s[p..p + |name|] == name && s[p + |name|] == '='
    ensures SkipSpaces(s, p) == p && NameEnd(s, p) == p + |name|
    ensures SkipSpaces(s, p + |name|) == p + |name|
  {
    assert s[p] == name[0] && name[0] in name;
    forall k | p <= k < p + |name|
      ensures s[k] != '=' && s[k] != '\0' && !IsSpace(s[k])
    {
      assert s[k] == name[k - p] && name[k - p] in name;
    }
    NameEndAt(s, p, p + |name|);
  }

  /** An escaped writable value at d followed by a comma or the end is
      read whole, as text, and nothing is trimmed from it. */
  lemma ReadFormattedValue(s: seq<char>, d: nat, v: seq<char>)
    requires WritableValue(v) && 1 <= d
    requires d + |Escape(v)| <= |s| && s[d..d + |Escape(v)|] == Escape(v)
    requires At(s, d + |Escape(v)|) == ',' || At(s, d + |Escape(v)|) == '\0'
    ensures SkipSpaces(s, d) == d && At(s, d) != '#'
    ensures ValueEnd(s, d) == d + |Escape(v)|
    ensures ValueSize(s, d) == |Escape(v)|
  {
    var e := Escape(v);
    var end := d + |e|;
    EscapedEnds(v);
    assert forall c :: c in v ==> c != '\0' && c != '\n';
    EscapedChars(v);
    assert s[d] == e[0];
    forall k | d <= k < end
      ensures !EndsValue(s, k)
    {
      assert s[k] == e[k - d];
      if s[k] == ',' {
        assert s[k - 1] == e[k - d - 1];
      }
    }
    assert s[end - 1] == e[|e| - 1];
    ValueEndAt(s, d, end);
  }

  /** Where the parts of a formatted RDN stand in the string. */
  lemma FormattedRdnParts(s: seq<char>, p: nat, r: Rdn)
    requires p + |FormatRdn(r)| <= |s| && s[p..p + |FormatRdn(r)|] == FormatRdn(r)
    ensures var b := p + |r.name|;
      && |FormatRdn(r)| == |r.name| + 1 + |Escape(r.value)|
      && s[p..b] == r.name && s[b] == '=' && s[b + 1..b + 1 + |Escape(r.value)|] == Escape(r.value)
  {
    var e := Escape(r.value);
    var b := p + |r.name|;
    var end := p + |FormatRdn(r)|;
    assert s[p..end] == r.name + "=" + e;
    assert s[p..b] == s[p..end][..|r.name|];
    assert s[b] == s[p..end][|r.name|];
    assert s[b + 1..end] == s[p..end][|r.name| + 1..];
  }

  /** An element whose name spans [p, b), followed directly by '=' and
      by an untrimmed value that starts at b + 1 without '#' and ends at
      `end`, reads as that name and value. */
  lemma ReadAtPositions(s: seq<char>, p: nat, b: nat, end: nat, name: seq<char>, value: seq<char>)
    requires p < b && b + 1 < end <= |s|
    requires SkipSpaces(s, p) == p && NameEnd(s, p) == b && At(s, b) == '='
    requires SkipSpaces(s, b) == b && SkipSpaces(s, b + 1) == b + 1 && At(s, b + 1) != '#'
    requires ValueEnd(s, b + 1) == end && ValueSize(s, b + 1) == end - (b + 1)
    requires s[p..b] == name && s[b + 1..end] == value
    ensures ReadAttrAndValSpec(s, p) == Ok(AttrVal(name, value, false, end))
  {
    assert ReadAttrAndValSpec(s, p).Ok?;
    assert ReadAttrAndValSpec(s, p).value.value == s[b + 1..end];
  }

  /** An RDN formatted at position p and followed by a comma or the end
      of the string reads back as its name and its escaped value, not raw,
      ending right after the value. */
  lemma ReadFormattedRdn(s: seq<char>, p: nat, r: Rdn, env: DnEnv)
    requires SettableRdn(r, env)
    requires p + |FormatRdn(r)| <= |s| && s[p..p + |FormatRdn(r)|] == FormatRdn(r)
    requires At(s, p + |FormatRdn(r)|) == ',' || At(s, p + |FormatRdn(r)|) == '\0'
    ensures ReadAttrAndValSpec(s, p) == Ok(AttrVal(r.name, Escape(r.value), false, p + |FormatRdn(r)|))
  {
    var e := Escape(r.value);
    var b := p + |r.name|;
    FormattedRdnParts(s, p, r);
    var end := p + |FormatRdn(r)|;
    assert end == b + 1 + |e|;
    ReadFormattedName(s, p, r.name, env);
    ReadFormattedValue(s, b + 1, r.value);
    ReadAtPositions(s, p, b, end, r.name, e);
  }

  /** One loop pass over a formatted RDN: it is set and the loop goes on
      past the comma, or stops at the end. */
  lemma FormattedElementStep(f: SetterKind, respond: (seq<SetterCall>, SetterCall) -> int, env: DnEnv,
                             s: seq<char>, p: nat, r: Rdn, calls: seq<SetterCall>)
    requires SettableRdn(r, env)
    requires respond(calls, RdnCall(f, env, r)) >= 0
    requires p + |FormatRdn(r)| <= |s| && s[p..p + |FormatRdn(r)|] == FormatRdn(r)
    requires At(s, p + |FormatRdn(r)|) == ',' || At(s, p + |FormatRdn(r)|) == '\0'
    ensures var end := p + |FormatRdn(r)|;
      ElementStep(f, respond, env, s, p, calls) ==
        Next(if At(s, end) == ',' then end + 1 else end, calls + [RdnCall(f, env, r)], end)
  {
    var end := p + |FormatRdn(r)|;
    var av := AttrVal(r.name, Escape(r.value), false, end);
    ReadFormattedRdn(s, p, r, env);
    assert ReadAttrAndValSpec(s, p) == Ok(av);
    assert SkipSpaces(s, end) == end;
    var call := RdnCall(f, env, r);
    assert AttrRecord(av.name, av.value, av.isRaw, env) == Ok(call.record) by {
      UnescapeEscape(r.value);
      EscapedEnds(r.value);
    }
    ElementStepAfterSet(f, respond, env, s, p, calls, av, call.record);
  }

  /** A loop pass that goes on leads to the run from its new position. */
  lemma SetDnFromNext(f: SetterKind, respond: (seq<SetterCall>, SetterCall) -> int, env: DnEnv,
                      s: seq<char>, p: nat, calls: seq<SetterCall>, err: Option<nat>, st: DnStep)
    requires p <= |s| && At(s, p) != '\0' && At(s, p) != '\n'
    requires st == ElementStep(f, respond, env, s, p, calls) && st.Next?
    ensures SetDnFrom(f, respond, env, s, p, calls, err) == SetDnFrom(f, respond, env, s, st.p, st.calls, Some(st.err))
  {
  }

  /** Where the rest of a formatted DN starts after its first RDN. */
  lemma FormattedDnParts(s: seq<char>, p: nat, rdns: seq<Rdn>)
    requires p <= |s| && s[p..] == FormatDn(rdns) && rdns != []
    ensures var end := p + |FormatRdn(rdns[0])|;
      && end <= |s| && s[p..end] == FormatRdn(rdns[0])
      && (if |rdns| == 1 then end == |s| else end < |s| && s[end] == ',' && s[end + 1..] == FormatDn(rdns[1..]))
  {
    var text := FormatRdn(rdns[0]);
    var end := p + |text|;
    if |rdns| == 1 {
      assert s[p..] == text;
      assert s[p..end] == text by {
        assert s[p..end] == s[p..];
      }
    } else {
      var tail := FormatDn(rdns[1..]);
      assert s[p..] == text + "," + tail;
      assert s[p..end] == text by {
        assert s[p..end] == s[p..][..|text|];
      }
      assert s[end] == ',' by {
        assert s[end] == s[p..][|text|];
      }
      assert s[end + 1..] == tail by {
        assert s[end + 1..] == s[p..][|text| + 1..];
      }
    }
  }

  /** Setting a formatted DN makes exactly one setter call per RDN, in
      order, each with the RDN's OID and its unescaped value, and succeeds
      when the setters do. */
  lemma {:induction false} SetFormattedDn(f: SetterKind, respond: (seq<SetterCall>, SetterCall) -> int, env: DnEnv,
                                          s: seq<char>, p: nat, rdns: seq<Rdn>, calls: seq<SetterCall>, err: Option<nat>)
    requires p <= |s| && s[p..] == FormatDn(rdns)
    requires AllSettable(rdns, env)
    requires forall c, call :: respond(c, call) >= 0
    ensures SetDnFrom(f, respond, env, s, p, calls, err).rc == Pass
    ensures SetDnFrom(f, respond, env, s, p, calls, err).calls == calls + Records(f, env, rdns)
    decreases |rdns|
  {
    if rdns == [] {
      assert At(s, p) == '\0';
      assert calls + Records(f, env, rdns) == calls;
    } else {
      var next, end := FirstRdnStep(f, respond, env, s, p, rdns, calls, err);
      SetFormattedDn(f, respond, env, s, next, rdns[1..], calls + [RdnCall(f, env, rdns[0])], Some(end));
      RecordsCons(f, env, rdns, calls);
    }
  }

  /** The first RDN of a formatted DN: one run step sets it and moves to
      the text of the remaining RDNs. */
  lemma FirstRdnStep(f: SetterKind, respond: (seq<SetterCall>, SetterCall) -> int, env: DnEnv,
                     s: seq<char>, p: nat, rdns: seq<Rdn>, calls: seq<SetterCall>, err: Option<nat>)
    returns (next: nat, end: nat)
    requires p <= |s| && s[p..] == FormatDn(rdns) && rdns != []
    requires AllSettable(rdns, env)
    requires forall c, call :: respond(c, call) >= 0
    ensures p < next <= |s| && s[next..] == FormatDn(rdns[1..])
    ensures SetDnFrom(f, respond, env, s, p, calls, err)
      == SetDnFrom(f, respond, env, s, next, calls + [RdnCall(f, env, rdns[0])], Some(end))
  {
    assert SettableRdn(rdns[0], env);
    next, end := FirstRdnText(s, p, rdns, env);
    var call := RdnCall(f, env, rdns[0]);
    FormattedElementStep(f, respond, env, s, p, rdns[0], calls);
    SetDnFromNext(f, respond, env, s, p, calls, err, Next(next, calls + [call], end));
  }

  /** Where the first RDN of a formatted DN ends and the next one starts. */
  lemma FirstRdnText(s: seq<char>, p: nat, rdns: seq<Rdn>, env: DnEnv) returns (next: nat, end: nat)
    requires p <= |s| && s[p..] == FormatDn(rdns) && rdns != []
    requires SettableRdn(rdns[0], env)
    ensures end == p + |FormatRdn(rdns[0])| && end <= |s| && s[p..end] == FormatRdn(rdns[0])
    ensures At(s, end) == ',' || At(s, end) == '\0'
    ensures next == if At(s, end) == ',' then end + 1 else end
    ensures p < next <= |s| && s[next..] == FormatDn(rdns[1..])
    ensures At(s, p) != '\0' && At(s, p) != '\n'
  {
    var r := rdns[0];
    end := p + |FormatRdn(r)|;
    FormattedDnParts(s, p, rdns);
    next := if |rdns| == 1 then end else end + 1;
    assert At(s, p) != '\0' && At(s, p) != '\n' by {
      assert s[p] == s[p..end][0] == r.name[0] && r.name[0] in r.name;
    }
  }

  /** Setting the first RDN and then the rest makes the calls of all. */
  lemma RecordsCons(f: SetterKind, env: DnEnv, rdns: seq<Rdn>, calls: seq<SetterCall>)
    requires rdns != [] && AllSettable(rdns, env)
    ensures AllSettable(rdns[1..], env)
    ensures calls + [RdnCall(f, env, rdns[0])] + Records(f, env, rdns[1..]) == calls + Records(f, env, rdns)
  {
    var rest := rdns[1..];
    forall i | 0 <= i < |rest|
      ensures SettableRdn(rest[i], env)
    {
      assert rest[i] == rdns[i + 1];
    }
    var first := RdnCall(f, env, rdns[0]);
    var tail := Records(f, env, rest);
    assert Records(f, env, rdns) == [first] + tail;
    assert calls + [first] + tail == calls + ([first] + tail);
  }

  /** The round trip for a whole string: gnutls_x509_crt_set_dn and its
      siblings, given a DN written with escapes, set each RDN's attribute
      once, in order, to its original value. */
  lemma DnRoundTrip(f: SetterKind, respond: (seq<SetterCall>, SetterCall) -> int, env: DnEnv,
                    rdns: seq<Rdn>, calls: seq<SetterCall>)
    requires AllSettable(rdns, env)
    requires forall c, call :: respond(c, call) >= 0
    ensures var run := SetDnFrom(f, respond, env, FormatDn(rdns), 0, calls, None);
      run.rc == Pass && run.calls == calls + Records(f, env, rdns)
  {
    var s := FormatDn(rdns);
    assert s[0..] == s;
    SetFormattedDn(f, respond, env, s, 0, rdns, calls, None);
  }

  /** The C trim breaks the round trip on the RDN whose value is one
      space: it is written "CN=\\ " and its value read back as a lone
      backslash, where the corrected read gives the space back. */
  lemma AsWrittenTrimBreaksRoundTrip()
    ensures FormatRdn(Rdn("CN", " ")) == "CN=\\ " && WritableValue(" ")
    ensures Unescape("CN=\\ "[3..3 + TrimmedSizeAsWritten("CN=\\ ", 3, 2)]) == "\\"
    ensures Unescape("CN=\\ "[3..3 + TrimmedSize("CN=\\ ", 3, 2)]) == " "
  {
    TrimAsWrittenDropsEscapedSpace();
    assert Escape(" ") == "\\ ";
  }

  /** A run only ever appends to the setters' log, and a failed run has
      recorded an error position inside the string. */
  lemma {:induction false} SetDnCallsGrow(f: SetterKind, respond: (seq<SetterCall>, SetterCall) -> int, env: DnEnv,
                                          s: seq<char>, p: nat, calls: seq<SetterCall>, err: Option<nat>)
    requires p <= |s|
    ensures var run := SetDnFrom(f, respond, env, s, p, calls, err);
      && |calls| <= |run.calls| && run.calls[..|calls|] == calls
      && (run.rc.Fail? ==> run.err.Some? && run.err.value <= |s|)
    decreases |s| - p
  {
    if At(s, p) != '\0' && At(s, p) != '\n' {
      var st := ElementStep(f, respond, env, s, p, calls);
      if st.Next? {
        SetDnCallsGrow(f, respond, env, s, st.p, st.calls, Some(st.err));
      }
    }
  }
}
