/**
  * The JSON text the token codec and the session store exchange: flat objects
  * whose members are strings or integers, and bare strings. `Stringify` writes
  * the compact form `JSON.stringify` produces for such values; `Parse` reads that
  * form back.
  */
module Json {
  import opened Wrappers

  datatype Primitive = JString(s: string) | JNumber(n: int)

  type Member = (string, Primitive)

  datatype Json = Prim(p: Primitive) | JObject(members: seq<Member>)

  // ---------------------------------------------------------------------------
  // Writing

  /** A lower-case hexadecimal digit. */
  function HexChar(d: nat): char
    requires d < 16
  {
    if d < 10 then (48 + d) as char else (97 + (d - 10)) as char
  }

  /** How `JSON.stringify` writes one character of a string: `"` and `\` after a backslash,
      the five control characters with a short escape as `\b`, `\f`, `\n`, `\r`, `\t`,
      every other character below U+0020 as `\u00` and two hexadecimal digits, and the rest as is. */
  function EscapeChar(c: char): string
  {
    if c == '"' || c == '\\' then ['\\', c]
    else if c == 8 as char then ['\\', 'b']
    else if c == 12 as char then ['\\', 'f']
    else if c == '\n' then ['\\', 'n']
    else if c == '\r' then ['\\', 'r']
    else if c == '\t' then ['\\', 't']
    else if c < ' ' then ['\\', 'u', '0', '0', HexChar(c as int / 16), HexChar(c as int % 16)]
    else [c]
  }

  function Escape(s: string): string
    decreases |s|
  {
    if |s| == 0 then [] else EscapeChar(s[0]) + Escape(s[1..])
  }

  function Quote(s: string): string
  {
    ['"'] + Escape(s) + ['"']
  }

  function DigitChar(d: nat): char
    requires d < 10
  {
    (48 + d) as char
  }

  /** Decimal digits of `n`, most significant first. */
  function Digits(n: nat): string
    decreases n
  {
    (if n < 10 then [] else Digits(n / 10)) + [DigitChar(n % 10)]
  }

  function NumberText(n: int): string
  {
    if n < 0 then ['-'] + Digits(-n) else Digits(n)
  }

  function PrimitiveText(p: Primitive): string
  {
    match p
    case JString(s) => Quote(s)
    case JNumber(n) => NumberText(n)
  }

  function MemberText(m: Member): string
  {
    Quote(m.0) + [':'] + PrimitiveText(m.1)
  }

  function MembersText(ms: seq<Member>): string
    decreases |ms|
  {
    if |ms| == 0 then []
    else if |ms| == 1 then MemberText(ms[0])
    else MemberText(ms[0]) + [','] + MembersText(ms[1..])
  }

  /** `JSON.stringify(j)` */
  function Stringify(j: Json): string
  {
    match j
    case Prim(p) => PrimitiveText(p)
    case JObject(ms) => ['{'] + (MembersText(ms) + ['}'])
  }

  // ---------------------------------------------------------------------------
  // Reading: each parser returns the value read and the text after it

  function ConsChar(c: char, r: Option<(string, string)>): Option<(string, string)>
  {
    if r.None? then None else Some(([c] + r.value.0, r.value.1))
  }

  /** The value of a hexadecimal digit of either case. */
  function HexValue(c: char): Option<nat>
  {
    if '0' <= c <= '9' then Some(c as int - 48)
    else if 'a' <= c <= 'f' then Some(c as int - 97 + 10)
    else if 'A' <= c <= 'F' then Some(c as int - 65 + 10)
    else None
  }

  /** The character a `\uXXXX` escape stands for; a surrogate half is not a character. */
  function UnicodeEscape(h: string): Option<char>
    requires |h| == 4
  {
    var d0, d1, d2, d3 := HexValue(h[0]), HexValue(h[1]), HexValue(h[2]), HexValue(h[3]);
    if d0.None? || d1.None? || d2.None? || d3.None? then None
    else
      var v := d0.value * 4096 + d1.value * 256 + d2.value * 16 + d3.value;
      if 0xD800 <= v < 0xE000 then None else Some(v as char)
  }

  /** The character a two-character escape `\c` stands for. */
  function ShortEscape(c: char): Option<char>
  {
    if c == '"' || c == '\\' || c == '/' then Some(c)
    else if c == 'b' then Some(8 as char)
    else if c == 'f' then Some(12 as char)
    else if c == 'n' then Some('\n')
    else if c == 'r' then Some('\r')
    else if c == 't' then Some('\t')
    else None
  }

  /** Reads string contents up to and including the closing quote; a raw character below
      U+0020 or an unknown escape fails. */
  function ParseStringBody(s: string): (r: Option<(string, string)>)
    ensures r.Some? ==> |r.value.1| < |s|
    decreases |s|
  {
    if |s| == 0 then None
    else if s[0] == '"' then Some(([], s[1..]))
    else if s[0] == '\\' then
      if |s| < 2 then None
      else if s[1] == 'u' then
        if |s| < 6 then None
        else
          var c := UnicodeEscape(s[2..6]);
          if c.None? then None else ConsChar(c.value, ParseStringBody(s[6..]))
      else
        var c := ShortEscape(s[1]);
        if c.None? then None else ConsChar(c.value, ParseStringBody(s[2..]))
    else if s[0] < ' ' then None
    else ConsChar(s[0], ParseStringBody(s[1..]))
  }

  function ParseString(s: string): (r: Option<(string, string)>)
    ensures r.Some? ==> |r.value.1| < |s|
  {
    if |s| > 0 && s[0] == '"' then ParseStringBody(s[1..]) else None
  }

  predicate IsDigit(c: char)
  {
    48 <= c as int <= 57
  }

  /** The number of decimal digits at the front of `s`. */
  function DigitSpan(s: string): (k: nat)
    ensures k <= |s|
    ensures forall i :: 0 <= i < k ==> IsDigit(s[i])
    ensures k < |s| ==> !IsDigit(s[k])
    decreases |s|
  {
    if |s| > 0 && IsDigit(s[0]) then 1 + DigitSpan(s[1..]) else 0
  }

  function DigitValue(c: char): (d: nat)
    requires IsDigit(c)
    ensures d < 10
  {
    c as int - 48
  }

  function DigitsValue(ds: string): nat
    requires forall i :: 0 <= i < |ds| ==> IsDigit(ds[i])
    decreases |ds|
  {
    if |ds| == 0 then 0
    else 10 * DigitsValue(ds[..|ds| - 1]) + DigitValue(ds[|ds| - 1])
  }

  /** Decimal digits without a leading zero, as JSON requires. */
  function ParseNat(s: string): (r: Option<(nat, string)>)
    ensures r.Some? ==> |r.value.1| < |s|
  {
    var k := DigitSpan(s);
    if k == 0 || (k > 1 && s[0] == '0') then None else Some((DigitsValue(s[..k]), s[k..]))
  }

  function ParseNumber(s: string): (r: Option<(int, string)>)
    ensures r.Some? ==> |r.value.1| < |s|
  {
    if |s| > 0 && s[0] == '-' then
      var m := ParseNat(s[1..]);
      if m.None? then None else Some((0 - m.value.0 as int, m.value.1))
    else
      var m := ParseNat(s);
      if m.None? then None else Some((m.value.0 as int, m.value.1))
  }

  function ParsePrimitive(s: string): (r: Option<(Primitive, string)>)
    ensures r.Some? ==> |r.value.1| < |s|
  {
    if |s| > 0 && s[0] == '"' then
      var t := ParseString(s);
      if t.None? then None else Some((JString(t.value.0), t.value.1))
    else
      var m := ParseNumber(s);
      if m.None? then None else Some((JNumber(m.value.0), m.value.1))
  }

  /** Reads `"key":value` members separated by `,` up to and including the closing `}`. */
  function ParseMembers(s: string): (r: Option<(seq<Member>, string)>)
    ensures r.Some? ==> |r.value.1| < |s|
    decreases |s|
  {
    var key := ParseString(s);
    if key.None? then None
    else
      var afterKey := key.value.1;
      if |afterKey| == 0 || afterKey[0] != ':' then None
      else
        var value := ParsePrimitive(afterKey[1..]);
        if value.None? then None
        else
          var m := (key.value.0, value.value.0);
          var afterValue := value.value.1;
          if |afterValue| == 0 then None
          else if afterValue[0] == '}' then Some(([m], afterValue[1..]))
          else if afterValue[0] == ',' then
            var more := ParseMembers(afterValue[1..]);
            if more.None? then None else Some(([m] + more.value.0, more.value.1))
          else None
  }

  /** `JSON.parse(s)`; fails unless all of `s` is one value. */
  function Parse(s: string): Option<Json>
  {
    if |s| > 0 && s[0] == '{' then
      if |s| >= 2 && s[1] == '}' then
        if |s| == 2 then Some(JObject([])) else None
      else
        var ms := ParseMembers(s[1..]);
        if ms.Some? && ms.value.1 == [] then Some(JObject(ms.value.0)) else None
    else
      var p := ParsePrimitive(s);
      if p.Some? && p.value.1 == [] then Some(Prim(p.value.0)) else None
  }

  // ---------------------------------------------------------------------------
  // Member access

  /** The value of `key` in an object; as with `JSON.parse`, a later duplicate wins. */
  function Lookup(ms: seq<Member>, key: string): Option<Primitive>
    decreases |ms|
  {
    if |ms| == 0 then None
    else if ms[|ms| - 1].0 == key then Some(ms[|ms| - 1].1)
    else Lookup(ms[..|ms| - 1], key)
  }

  function GetString(j: Json, key: string): Option<string>
  {
    if j.Prim? then None
    else
      var v := Lookup(j.members, key);
      if v.Some? && v.value.JString? then Some(v.value.s) else None
  }

  function GetNumber(j: Json, key: string): Option<int>
  {
    if j.Prim? then None
    else
      var v := Lookup(j.members, key);
      if v.Some? && v.value.JNumber? then Some(v.value.n) else None
  }

  // ---------------------------------------------------------------------------
  // Proofs

  /** A member whose key does not occur after it is the one `Lookup` finds. */
  lemma {:induction false} LookupFind(ms: seq<Member>, i: int)
    requires 0 <= i < |ms|
    requires forall j :: i < j < |ms| ==> ms[j].0 != ms[i].0
    ensures Lookup(ms, ms[i].0) == Some(ms[i].1)
    decreases |ms|
  {
    if i < |ms| - 1 {
      LookupFind(ms[..|ms| - 1], i);
    }
  }

  /** One escaped character is read back, and reading goes on right after it. */
  lemma ParseEscapedChar(c: char, tail: string)
    ensures ParseStringBody(EscapeChar(c) + tail) == ConsChar(c, ParseStringBody(tail))
  {
    var e := EscapeChar(c);
    var s := e + tail;
    if c == '"' || c == '\\' || c == 8 as char || c == 12 as char || c == '\n' || c == '\r' || c == '\t' {
      assert s[0] == '\\' && s[1] == e[1] && s[2..] == tail;
    } else if c < ' ' {
      ParseControlChar(c, tail);
    } else {
      assert s[0] == c && s[1..] == tail;
    }
  }

  lemma ParseControlChar(c: char, tail: string)
    requires c < ' ' && c != 8 as char && c != 12 as char && c != '\n' && c != '\r' && c != '\t'
    ensures ParseStringBody(EscapeChar(c) + tail) == ConsChar(c, ParseStringBody(tail))
  {
    var n := c as int;
    var h := ['0', '0', HexChar(n / 16), HexChar(n % 16)];
    var s := EscapeChar(c) + tail;
    assert s == ['\\', 'u'] + h + tail;
    assert s[2..6] == h && s[6..] == tail;
    assert HexValue(HexChar(n / 16)) == Some(n / 16);
    assert HexValue(HexChar(n % 16)) == Some(n % 16);
    assert UnicodeEscape(h) == Some(c);
  }

  lemma {:induction false} ParseEscaped(s: string, rest: string)
    ensures ParseStringBody(Escape(s) + ['"'] + rest) == Some((s, rest))
    decreases |s|
  {
    if |s| > 0 {
      var tail := Escape(s[1..]) + ['"'] + rest;
      assert Escape(s) + ['"'] + rest == EscapeChar(s[0]) + tail;
      ParseEscapedChar(s[0], tail);
      ParseEscaped(s[1..], rest);
      assert [s[0]] + s[1..] == s;
    }
  }

  lemma ParseQuoted(s: string, rest: string)
    ensures ParseString(Quote(s) + rest) == Some((s, rest))
  {
    ParseEscaped(s, rest);
    assert (Quote(s) + rest)[1..] == Escape(s) + ['"'] + rest;
  }

  lemma DigitsSnoc(prefix: string, c: char)
    requires forall i :: 0 <= i < |prefix| ==> IsDigit(prefix[i])
    requires IsDigit(c)
    ensures forall i :: 0 <= i < |prefix + [c]| ==> IsDigit((prefix + [c])[i])
    ensures DigitsValue(prefix + [c]) == 10 * DigitsValue(prefix) + DigitValue(c)
  {
    var d := prefix + [c];
    assert d[..|d| - 1] == prefix;
  }

  lemma {:induction false} DigitsShape(n: nat)
    ensures |Digits(n)| >= 1
    ensures forall i :: 0 <= i < |Digits(n)| ==> IsDigit(Digits(n)[i])
    ensures DigitsValue(Digits(n)) == n
    ensures |Digits(n)| > 1 ==> Digits(n)[0] != '0'
    decreases n
  {
    var last := DigitChar(n % 10);
    assert IsDigit(last) && DigitValue(last) == n % 10;
    if n < 10 {
      assert Digits(n) == [] + [last];
      DigitsSnoc([], last);
    } else {
      var prefix := Digits(n / 10);
      DigitsShape(n / 10);
      assert Digits(n) == prefix + [last];
      DigitsSnoc(prefix, last);
      LeadingDigit(n / 10);
    }
  }

  /** A positive number's digits do not start with zero. */
  lemma {:induction false} LeadingDigit(n: nat)
    requires n > 0
    ensures |Digits(n)| >= 1 && Digits(n)[0] != '0'
    decreases n
  {
    if n >= 10 {
      LeadingDigit(n / 10);
      assert Digits(n)[0] == Digits(n / 10)[0];
    }
  }

  lemma {:induction false} DigitSpanPrefix(d: string, rest: string)
    requires forall i :: 0 <= i < |d| ==> IsDigit(d[i])
    requires |rest| == 0 || !IsDigit(rest[0])
    ensures DigitSpan(d + rest) == |d|
    decreases |d|
  {
    if |d| > 0 {
      DigitSpanPrefix(d[1..], rest);
      assert (d + rest)[1..] == d[1..] + rest;
    }
  }

  /** A number's text starts with a minus sign or a digit. */
  lemma NumberTextStart(n: int)
    ensures |NumberText(n)| > 0
    ensures NumberText(n)[0] == '-' || IsDigit(NumberText(n)[0])
  {
    if n >= 0 {
      DigitsShape(n);
    }
  }

  lemma ParseNatText(m: nat, rest: string)
    requires |rest| == 0 || !IsDigit(rest[0])
    ensures ParseNat(Digits(m) + rest) == Some((m, rest))
  {
    var d := Digits(m);
    DigitsShape(m);
    DigitSpanPrefix(d, rest);
    assert (d + rest)[0] == d[0];
    assert (d + rest)[..|d|] == d;
    assert (d + rest)[|d|..] == rest;
  }

  lemma ParseNumberMinus(u: string)
    ensures ParseNumber(['-'] + u)
         == if ParseNat(u).None? then None else Some((0 - ParseNat(u).value.0 as int, ParseNat(u).value.1))
  {
    assert (['-'] + u)[1..] == u;
  }

  lemma ParseNumberPlain(u: string)
    requires |u| > 0 && IsDigit(u[0])
    ensures ParseNumber(u) == if ParseNat(u).None? then None else Some((ParseNat(u).value.0 as int, ParseNat(u).value.1))
  {
  }

  lemma ParseNumberText(n: int, rest: string)
    requires |rest| == 0 || !IsDigit(rest[0])
    ensures ParseNumber(NumberText(n) + rest) == Some((n, rest))
  {
    if n < 0 {
      var u := Digits(-n) + rest;
      ParseNatText(-n, rest);
      assert NumberText(n) + rest == ['-'] + u;
      ParseNumberMinus(u);
    } else {
      var u := Digits(n) + rest;
      ParseNatText(n, rest);
      NumberTextStart(n);
      assert u[0] == Digits(n)[0];
      ParseNumberPlain(u);
    }
  }

  lemma ParsePrimitiveText(p: Primitive, rest: string)
    requires |rest| == 0 || !IsDigit(rest[0])
    ensures ParsePrimitive(PrimitiveText(p) + rest) == Some((p, rest))
  {
    match p
    case JString(s) =>
      ParseQuoted(s, rest);
    case JNumber(n) =>
      ParseNumberText(n, rest);
      NumberTextStart(n);
      assert (PrimitiveText(p) + rest)[0] == NumberText(n)[0];
  }

  /** What follows the first member's value: the closing brace or a comma and more members. */
  function MembersTail(ms: seq<Member>, rest: string): string
    requires |ms| >= 1
  {
    if |ms| == 1 then ['}'] + rest else [','] + MembersText(ms[1..]) + ['}'] + rest
  }

  lemma {:induction false} MembersTextFirst(ms: seq<Member>, rest: string)
    requires |ms| >= 1
    ensures MembersText(ms) + ['}'] + rest
         == Quote(ms[0].0) + ([':'] + PrimitiveText(ms[0].1) + MembersTail(ms, rest))
  {
    var q, v := Quote(ms[0].0), PrimitiveText(ms[0].1);
    var more := if |ms| == 1 then [] else [','] + MembersText(ms[1..]);
    assert MembersText(ms) == MemberText(ms[0]) + more;
    assert MembersTail(ms, rest) == more + ['}'] + rest;
    Associate(q, v, more, rest);
  }

  lemma Associate(q: string, v: string, more: string, rest: string)
    ensures (q + [':'] + v) + more + ['}'] + rest == q + ([':'] + v + (more + ['}'] + rest))
  {
  }

  lemma DropColon(v: string, tail: string)
    ensures ([':'] + v + tail)[1..] == v + tail
  {
  }

  lemma MembersTailFacts(ms: seq<Member>, rest: string)
    requires |ms| >= 1
    ensures |MembersTail(ms, rest)| > 0
    ensures |ms| == 1 ==> MembersTail(ms, rest)[0] == '}' && MembersTail(ms, rest)[1..] == rest
    ensures |ms| > 1 ==>
      MembersTail(ms, rest)[0] == ',' && MembersTail(ms, rest)[1..] == MembersText(ms[1..]) + ['}'] + rest
  {
    if |ms| == 1 {
      assert MembersTail(ms, rest)[1..] == rest;
    } else {
      var x := MembersText(ms[1..]);
      assert MembersTail(ms, rest) == [','] + (x + ['}'] + rest);
    }
  }

  /** One step of `ParseMembers`, stated over the pieces it reads. */
  lemma ParseMembersStep(s: string, key: string, afterKey: string, value: Primitive, tail: string)
    requires ParseString(s) == Some((key, afterKey))
    requires |afterKey| > 0 && afterKey[0] == ':'
    requires ParsePrimitive(afterKey[1..]) == Some((value, tail))
    requires |tail| > 0
    ensures tail[0] == '}' ==> ParseMembers(s) == Some(([(key, value)], tail[1..]))
    ensures tail[0] == ',' ==>
      ParseMembers(s) ==
        var more := ParseMembers(tail[1..]);
        if more.None? then None else Some(([(key, value)] + more.value.0, more.value.1))
  {
  }

  /** The first member's key and value are read from the front of the members' text. */
  lemma ParseFirstMember(ms: seq<Member>, rest: string)
    requires |ms| >= 1
    ensures var afterKey := [':'] + PrimitiveText(ms[0].1) + MembersTail(ms, rest);
      && ParseString(MembersText(ms) + ['}'] + rest) == Some((ms[0].0, afterKey))
      && |afterKey| > 0 && afterKey[0] == ':'
      && ParsePrimitive(afterKey[1..]) == Some((ms[0].1, MembersTail(ms, rest)))
  {
    var tail := MembersTail(ms, rest);
    var afterKey := [':'] + PrimitiveText(ms[0].1) + tail;
    MembersTextFirst(ms, rest);
    ParseQuoted(ms[0].0, afterKey);
    DropColon(PrimitiveText(ms[0].1), tail);
    MembersTailFacts(ms, rest);
    ParsePrimitiveText(ms[0].1, tail);
  }

  /** One step of reading the members' text: the first member, then the closing brace or the rest. */
  lemma ParseMembersTextStep(ms: seq<Member>, rest: string)
    requires |ms| >= 1
    ensures |ms| == 1 ==> ParseMembers(MembersText(ms) + ['}'] + rest) == Some(([ms[0]], rest))
    ensures |ms| > 1 ==>
      ParseMembers(MembersText(ms) + ['}'] + rest) ==
        var more := ParseMembers(MembersText(ms[1..]) + ['}'] + rest);
        if more.None? then None else Some(([ms[0]] + more.value.0, more.value.1))
  {
    var s := MembersText(ms) + ['}'] + rest;
    var tail := MembersTail(ms, rest);
    var afterKey := [':'] + PrimitiveText(ms[0].1) + tail;
    ParseFirstMember(ms, rest);
    MembersTailFacts(ms, rest);
    ParseMembersStep(s, ms[0].0, afterKey, ms[0].1, tail);
  }

  lemma {:induction false} ParseMembersText(ms: seq<Member>, rest: string)
    requires |ms| >= 1
    ensures ParseMembers(MembersText(ms) + ['}'] + rest) == Some((ms, rest))
    decreases |ms|
  {
    ParseMembersTextStep(ms, rest);
    if |ms| == 1 {
      assert ms == [ms[0]];
    } else {
      ParseMembersText(ms[1..], rest);
      assert ms == [ms[0]] + ms[1..];
    }
  }

  lemma ParsePrimitiveAlone(p: Primitive)
    ensures Parse(PrimitiveText(p)) == Some(Prim(p))
  {
    ParsePrimitiveText(p, []);
    assert PrimitiveText(p) + [] == PrimitiveText(p);
    if p.JNumber? {
      NumberTextStart(p.n);
    }
  }

  lemma ParseBrace(u: string)
    requires |u| > 0 && u[0] == '"'
    ensures Parse(['{'] + u)
         == var ms := ParseMembers(u); if ms.Some? && ms.value.1 == [] then Some(JObject(ms.value.0)) else None
  {
    assert (['{'] + u)[1..] == u;
  }

  /** The members' text opens with the first key's quote. */
  lemma MembersTextStart(ms: seq<Member>, rest: string)
    requires |ms| > 0
    ensures |MembersText(ms) + ['}'] + rest| > 0 && (MembersText(ms) + ['}'] + rest)[0] == '"'
  {
    MembersTextFirst(ms, rest);
    assert Quote(ms[0].0)[0] == '"';
  }

  lemma ParseObjectText(ms: seq<Member>)
    requires |ms| > 0
    ensures Parse(['{'] + (MembersText(ms) + ['}'])) == Some(JObject(ms))
  {
    var u := MembersText(ms) + ['}'];
    assert u + [] == u;
    ParseMembersText(ms, []);
    MembersTextStart(ms, []);
    ParseBrace(u);
  }

  /** Parsing the text of a value gives back the value. */
  lemma ParseStringify(j: Json)
    ensures Parse(Stringify(j)) == Some(j)
  {
    match j
    case Prim(p) =>
      ParsePrimitiveAlone(p);
    case JObject(ms) =>
      if |ms| > 0 {
        ParseObjectText(ms);
      }
  }
}
