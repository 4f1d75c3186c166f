/** The JSON text the contract stores and returns: what `JSON.stringify` writes
    for a certificate object and for an array of them, and a parser that reads
    that text back the way `JSON.parse` does.

    The parser reads the layout the serializer produces (no whitespace, the
    members in the order the contract declares them, string values) and
    accepts every JSON string escape inside a value except `\u` escapes of
    UTF-16 surrogates. */
module ShmJson {
  import opened ShmTypes

  // ---------------------------------------------------------------------------
  // Hexadecimal digits of \u escapes

  /** The lower-case hex digit of `n`, as `JSON.stringify` writes it. */
  function HexDigit(n: nat): char
    requires n < 16
  {
    if n < 10 then ('0' as int + n) as char else ('a' as int + n - 10) as char
  }

  /** The value of a hex digit in either case. */
  function HexValue(c: char): (r: Option<nat>)
    ensures r.Some? ==> r.value < 16
  {
    if '0' <= c <= '9' then Some(c as int - '0' as int)
    else if 'a' <= c <= 'f' then Some(c as int - 'a' as int + 10)
    else if 'A' <= c <= 'F' then Some(c as int - 'A' as int + 10)
    else None
  }

  /** The code unit written by four hex digits. */
  function Hex4(h: string): (r: Option<nat>)
    requires |h| == 4
    ensures r.Some? ==> r.value < 0x1_0000
  {
    var a :- HexValue(h[0]);
    var b :- HexValue(h[1]);
    var c :- HexValue(h[2]);
    var d :- HexValue(h[3]);
    Some(((a * 16 + b) * 16 + c) * 16 + d)
  }

  // ---------------------------------------------------------------------------
  // Serializing

  /** How `JSON.stringify` writes one character of a string value: the quote
      and the backslash escaped, the five control characters that have a short
      escape written with it, the other control characters as \u00xx, and
      every other character as itself. */
  function EscapeChar(c: char): string {
    if c == '"' then "\\\""
    else if c == '\\' then "\\\\"
    else if c == '\U{8}' then "\\b"
    else if c == '\U{C}' then "\\f"
    else if c == '\n' then "\\n"
    else if c == '\r' then "\\r"
    else if c == '\t' then "\\t"
    else if c < ' ' then "\\u00" + [HexDigit(c as int / 16), HexDigit(c as int % 16)]
    else [c]
  }

  function Escape(s: string): string {
    if s == [] then [] else EscapeChar(s[0]) + Escape(s[1..])
  }

  /** A string value between double quotes. */
  function Quote(s: string): string {
    "\"" + Escape(s) + "\""
  }

  // The member names, each with the punctuation before it and the colon after.
  const ShmIdKey := "{\"shmId\":"
  const PemilikKey := ",\"pemilik\":"
  const AlamatKey := ",\"alamat\":"
  const LuasKey := ",\"luas\":"
  const TanggalTerbitKey := ",\"tanggalTerbit\":"
  const DocTypeKey := ",\"docType\":"

  /** The member names of a certificate object, in declaration order. */
  const Keys: seq<string> := [ShmIdKey, PemilikKey, AlamatKey, LuasKey, TanggalTerbitKey, DocTypeKey]

  /** The member values of a certificate, in the order of `Keys`. */
  function Fields(r: Shm): seq<string> {
    [r.shmId, r.pemilik, r.alamat, r.luas, r.tanggalTerbit, r.docType]
  }

  /** Members named `keys` with string values `vals`, one after the other. */
  function Members(keys: seq<string>, vals: seq<string>): string
    requires |keys| == |vals|
  {
    if keys == [] then "" else keys[0] + Quote(vals[0]) + Members(keys[1..], vals[1..])
  }

  /** `JSON.stringify` of a certificate object: its members in the order the
      object literal declares them. */
  function Encode(r: Shm): Text {
    Members(Keys, Fields(r)) + "}"
  }

  /** Texts separated by commas. */
  function Join(ts: seq<Text>): Text {
    if ts == [] then ""
    else if |ts| == 1 then ts[0]
    else ts[0] + "," + Join(ts[1..])
  }

  function EncodeAll(rs: seq<Shm>): (ts: seq<Text>)
    ensures |ts| == |rs|
    ensures forall i :: 0 <= i < |rs| ==> ts[i] == Encode(rs[i])
  {
    seq(|rs|, i requires 0 <= i < |rs| => Encode(rs[i]))
  }

  /** `JSON.stringify` of an array of certificate objects. */
  function EncodeArray(rs: seq<Shm>): Text {
    "[" + Join(EncodeAll(rs)) + "]"
  }

  // ---------------------------------------------------------------------------
  // Parsing; each parser returns the value read and the text after it

  /** The text after the literal `lit`, if `s` starts with it. */
  function Skip(lit: string, s: string): (r: Option<string>)
    ensures r.Some? ==> |r.value| == |s| - |lit|
  {
    if lit <= s then Some(s[|lit|..]) else None
  }

  /** The character an escape sequence stands for; `s` follows the backslash.
      A \u escape naming a surrogate code unit is refused, since a lone
      surrogate is not a character. */
  function Unescape(s: string): (r: Option<(char, string)>)
    ensures r.Some? ==> |r.value.1| < |s|
  {
    if |s| == 0 then None
    else if s[0] == '"' then Some(('"', s[1..]))
    else if s[0] == '\\' then Some(('\\', s[1..]))
    else if s[0] == '/' then Some(('/', s[1..]))
    else if s[0] == 'b' then Some(('\U{8}', s[1..]))
    else if s[0] == 'f' then Some(('\U{C}', s[1..]))
    else if s[0] == 'n' then Some(('\n', s[1..]))
    else if s[0] == 'r' then Some(('\r', s[1..]))
    else if s[0] == 't' then Some(('\t', s[1..]))
    else if s[0] == 'u' && |s| >= 5 then
      var v :- Hex4(s[1..5]);
      if v < 0xD800 || 0xE000 <= v then Some((v as char, s[5..])) else None
    else None
  }

  /** The characters of a string value up to its closing quote, which is
      consumed; a raw control character or an unknown escape is refused. */
  function ParseChars(s: string): (r: Option<(string, string)>)
    ensures r.Some? ==> |r.value.1| < |s|
    decreases |s|
  {
    if |s| == 0 then None
    else if s[0] == '"' then Some(([], s[1..]))
    else if s[0] == '\\' then
      var e :- Unescape(s[1..]);
      var t :- ParseChars(e.1);
      Some(([e.0] + t.0, t.1))
    else if s[0] < ' ' then None
    else
      var t :- ParseChars(s[1..]);
      Some(([s[0]] + t.0, t.1))
  }

  function ParseString(s: string): (r: Option<(string, string)>)
    ensures r.Some? ==> |r.value.1| < |s|
  {
    if |s| > 0 && s[0] == '"' then ParseChars(s[1..]) else None
  }

  /** A member: the literal `key` (name, punctuation) and then a string value. */
  function ParseMember(key: string, s: string): (r: Option<(string, string)>)
    ensures r.Some? ==> |r.value.1| < |s|
  {
    var t :- Skip(key, s);
    ParseString(t)
  }

  /** Members named `keys`, in that order, each with a string value. */
  function ParseMembers(keys: seq<string>, s: string): (r: Option<(seq<string>, string)>)
    ensures r.Some? ==> |r.value.0| == |keys| && |r.value.1| <= |s|
  {
    if keys == [] then Some(([], s))
    else
      var m :- ParseMember(keys[0], s);
      var more :- ParseMembers(keys[1..], m.1);
      Some(([m.0] + more.0, more.1))
  }

  function ParseRecord(s: string): (r: Option<(Shm, string)>)
    ensures r.Some? ==> |r.value.1| < |s|
  {
    var p :- ParseMembers(Keys, s);
    var rest :- Skip("}", p.1);
    var v := p.0;
    Some((Shm(v[0], v[1], v[2], v[3], v[4], v[5]), rest))
  }

  /** `JSON.parse` of a stored value: one certificate object and nothing after it. */
  function Decode(t: Text): Option<Shm> {
    var p :- ParseRecord(t);
    if p.1 == [] then Some(p.0) else None
  }

  /** One or more objects separated by commas, through the closing bracket. */
  function ParseItems(s: string): (r: Option<(seq<Shm>, string)>)
    ensures r.Some? ==> |r.value.1| < |s|
    decreases |s|
  {
    var p :- ParseRecord(s);
    if |p.1| > 0 && p.1[0] == ',' then
      var q :- ParseItems(p.1[1..]);
      Some(([p.0] + q.0, q.1))
    else if |p.1| > 0 && p.1[0] == ']' then Some(([p.0], p.1[1..]))
    else None
  }

  /** `JSON.parse` of an array of certificate objects. */
  function DecodeArray(t: Text): Option<seq<Shm>> {
    var s :- Skip("[", t);
    if s == "]" then Some([])
    else
      var p :- ParseItems(s);
      if p.1 == [] then Some(p.0) else None
  }

  // ---------------------------------------------------------------------------
  // Round trips

  lemma SkipLiteral(lit: string, rest: string)
    ensures Skip(lit, lit + rest) == Some(rest)
  {
    assert (lit + rest)[..|lit|] == lit;
    assert (lit + rest)[|lit|..] == rest;
  }

  lemma HexDigitValue(n: nat)
    requires n < 16
    ensures HexValue(HexDigit(n)) == Some(n)
  {
  }

  /** Parsing the escaped form of one character gives the character back and
      continues with what follows. */
  lemma ParseEscapedChar(c: char, tail: string)
    ensures ParseChars(EscapeChar(c) + tail)
         == (match ParseChars(tail)
             case None => None
             case Some(t) => Some(([c] + t.0, t.1)))
  {
    var s := EscapeChar(c) + tail;
    if c == '"' || c == '\\' || c == '\U{8}' || c == '\U{C}' || c == '\n' || c == '\r' || c == '\t' {
      assert s[0] == '\\' && s[1..] == [EscapeChar(c)[1]] + tail;
      assert Unescape(s[1..]) == Some((c, tail));
    } else if c < ' ' {
      var hi, lo := c as int / 16, c as int % 16;
      HexDigitValue(hi);
      HexDigitValue(lo);
      assert s[0] == '\\' && s[1..] == "u00" + [HexDigit(hi), HexDigit(lo)] + tail;
      assert s[1..][1..5] == ['0', '0', HexDigit(hi), HexDigit(lo)];
      assert Hex4(s[1..][1..5]) == Some(c as int);
      assert s[1..][5..] == tail;
      assert Unescape(s[1..]) == Some((c, tail));
    } else {
      assert s[0] == c && s[1..] == tail;
    }
  }

  /** A string value's escaped characters parse back to the string itself. */
  lemma {:induction false} ParseCharsEscape(t: string, tail: string)
    ensures ParseChars(Escape(t) + "\"" + tail) == Some((t, tail))
    decreases |t|
  {
    if t == [] {
      assert Escape(t) + "\"" + tail == "\"" + tail;
    } else {
      var rest := Escape(t[1..]) + "\"" + tail;
      assert Escape(t) + "\"" + tail == EscapeChar(t[0]) + rest;
      ParseCharsEscape(t[1..], tail);
      ParseEscapedChar(t[0], rest);
      assert [t[0]] + t[1..] == t;
    }
  }

  lemma ParseMemberQuote(key: string, v: string, tail: string)
    ensures ParseMember(key, key + Quote(v) + tail) == Some((v, tail))
  {
    var body := Escape(v) + "\"" + tail;
    assert key + Quote(v) + tail == key + ("\"" + body);
    SkipLiteral(key, "\"" + body);
    assert ("\"" + body)[1..] == body;
    ParseCharsEscape(v, tail);
  }

  lemma {:induction false} ParseMembersEncode(keys: seq<string>, vals: seq<string>, tail: string)
    requires |keys| == |vals|
    ensures ParseMembers(keys, Members(keys, vals) + tail) == Some((vals, tail))
    decreases |keys|
  {
    if keys == [] {
      assert Members(keys, vals) + tail == tail;
    } else {
      var m := keys[0] + Quote(vals[0]);
      var more := Members(keys[1..], vals[1..]);
      Regroup(m, more, tail);
      ParseMemberQuote(keys[0], vals[0], more + tail);
      ParseMembersEncode(keys[1..], vals[1..], tail);
      assert [vals[0]] + vals[1..] == vals;
    }
  }

  /** A serialized certificate parses back to itself, leaving what follows it. */
  lemma ParseRecordEncode(r: Shm, tail: string)
    ensures ParseRecord(Encode(r) + tail) == Some((r, tail))
  {
    var ms := Members(Keys, Fields(r));
    Regroup(ms, "}", tail);
    ParseMembersEncode(Keys, Fields(r), "}" + tail);
    SkipLiteral("}", tail);
  }

  /** What the contract writes for a certificate reads back as that certificate. */
  lemma DecodeEncode(r: Shm)
    ensures Decode(Encode(r)) == Some(r)
  {
    ParseRecordEncode(r, []);
    assert Encode(r) + [] == Encode(r);
  }

  /** Serialized certificates are never the empty text. */
  lemma EncodeNonEmpty(r: Shm)
    ensures |Encode(r)| > |ShmIdKey|
  {
  }

  /** A certificate followed by the closing bracket ends the list. */
  lemma ParseItemsLast(r: Shm, tail: string)
    ensures ParseItems(Encode(r) + ("]" + tail)) == Some(([r], tail))
  {
    ParseRecordEncode(r, "]" + tail);
    assert ("]" + tail)[1..] == tail;
  }

  /** A certificate followed by a comma continues with the rest of the list. */
  lemma ParseItemsComma(r: Shm, more: string)
    ensures ParseItems(Encode(r) + ("," + more))
         == (match ParseItems(more)
             case None => None
             case Some(q) => Some(([r] + q.0, q.1)))
  {
    ParseRecordEncode(r, "," + more);
    assert ("," + more)[1..] == more;
  }

  lemma Regroup(a: string, b: string, c: string)
    ensures a + b + c == a + (b + c)
  {
  }

  /** A list's text followed by the closing bracket: its first element, then
      either the bracket or a comma and the rest of the list. */
  lemma JoinThen(ts: seq<Text>, tail: string)
    requires ts != []
    ensures |ts| == 1 ==> Join(ts) + "]" + tail == ts[0] + ("]" + tail)
    ensures |ts| > 1 ==> Join(ts) + "]" + tail == ts[0] + ("," + (Join(ts[1..]) + "]" + tail))
  {
    var a := ts[0];
    if |ts| == 1 {
      Regroup(a, "]", tail);
    } else {
      var j := Join(ts[1..]);
      assert Join(ts) == a + "," + j;
      Regroup(a + "," + j, "]", tail);
      Regroup(a, ",", j);
      Regroup(a, "," + j, "]" + tail);
      Regroup(",", j, "]" + tail);
      Regroup(j, "]", tail);
    }
  }

  lemma {:induction false} ParseItemsEncode(rs: seq<Shm>, tail: string)
    requires rs != []
    ensures ParseItems(Join(EncodeAll(rs)) + "]" + tail) == Some((rs, tail))
    decreases |rs|
  {
    var ts := EncodeAll(rs);
    JoinThen(ts, tail);
    if |rs| == 1 {
      ParseItemsLast(rs[0], tail);
      assert [rs[0]] == rs;
    } else {
      assert ts[1..] == EncodeAll(rs[1..]);
      ParseItemsComma(rs[0], Join(ts[1..]) + "]" + tail);
      ParseItemsEncode(rs[1..], tail);
      assert [rs[0]] + rs[1..] == rs;
    }
  }

  lemma {:induction false} JoinLength(ts: seq<Text>)
    requires ts != []
    ensures |Join(ts)| >= |ts[0]|
  {
  }

  /** The array the enumeration returns parses back to the same certificates. */
  lemma DecodeArrayEncodeArray(rs: seq<Shm>)
    ensures DecodeArray(EncodeArray(rs)) == Some(rs)
  {
    var body := Join(EncodeAll(rs)) + "]";
    SkipLiteral("[", body);
    assert EncodeArray(rs) == "[" + body;
    if rs != [] {
      ParseItemsEncode(rs, []);
      assert body + [] == body;
      JoinLength(EncodeAll(rs));
      EncodeNonEmpty(rs[0]);
      assert body != "]";
    }
  }
}
