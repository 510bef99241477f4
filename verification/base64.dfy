/**
  * Base64 as the token codec uses it: the standard alphabet of RFC 4648
  * section 4, then the padding removed (allowed by RFC 4648 section 3.2) and
  * `+`/`/` replaced by `-`/`_` (the alphabet of RFC 4648 section 5).
  * Decoding undoes the substitution, re-pads to a multiple of four and
  * decodes with the standard alphabet.
  */
module Base64 {
  import opened Wrappers

  type byte = x: int | 0 <= x < 256
  type sextet = x: int | 0 <= x < 64

  /** The character of a 6-bit group in the standard alphabet (RFC 4648, Table 1). */
  function Char(v: sextet): (c: char)
    ensures Value(c) == Some(v)
    ensures c != '=' && c != '-' && c != '_' && c != '.'
  {
    if v < 26 then (65 + v) as char
    else if v < 52 then (97 + (v - 26)) as char
    else if v < 62 then (48 + (v - 52)) as char
    else if v == 62 then '+'
    else '/'
  }

  /** The 6-bit group a character of the standard alphabet stands for. */
  function Value(c: char): Option<sextet>
  {
    if 'A' <= c <= 'Z' then Some(c as int - 65)
    else if 'a' <= c <= 'z' then Some(c as int - 97 + 26)
    else if '0' <= c <= '9' then Some(c as int - 48 + 52)
    else if c == '+' then Some(62)
    else if c == '/' then Some(63)
    else None
  }

  /** A character of the URL-safe alphabet (RFC 4648, Table 2). */
  predicate IsUrlChar(c: char)
  {
    ('A' <= c <= 'Z') || ('a' <= c <= 'z') || ('0' <= c <= '9') || c == '-' || c == '_'
  }

  /** Standard base64 with `=` padding: every 3 bytes become 4 characters. */
  function EncodeStd(b: seq<byte>): seq<char>
    decreases |b|
  {
    if |b| == 0 then []
    else if |b| == 1 then
      [Char(b[0] / 4), Char(b[0] % 4 * 16), '=', '=']
    else if |b| == 2 then
      [Char(b[0] / 4), Char(b[0] % 4 * 16 + b[1] / 16), Char(b[1] % 16 * 4), '=']
    else
      [Char(b[0] / 4), Char(b[0] % 4 * 16 + b[1] / 16), Char(b[1] % 16 * 4 + b[2] / 64), Char(b[2] % 64)]
      + EncodeStd(b[3..])
  }

  /** One group of four characters; `last` allows the `=`-padded forms. */
  function DecodeGroup(q: seq<char>, last: bool): Option<seq<byte>>
    requires |q| == 4
  {
    var v0, v1, v2, v3 := Value(q[0]), Value(q[1]), Value(q[2]), Value(q[3]);
    if v0.None? || v1.None? then None
    else if last && q[2] == '=' && q[3] == '=' then
      Some([v0.value * 4 + v1.value / 16])
    else if v2.None? then None
    else if last && q[3] == '=' then
      Some([v0.value * 4 + v1.value / 16, v1.value % 16 * 16 + v2.value / 4])
    else if v3.None? then None
    else
      Some([v0.value * 4 + v1.value / 16, v1.value % 16 * 16 + v2.value / 4, v2.value % 4 * 64 + v3.value])
  }

  /** Standard base64 decoding; fails on a length that is not a multiple of four,
      a character outside the alphabet, or padding anywhere but the end. */
  function DecodeStd(s: seq<char>): Option<seq<byte>>
    decreases |s|
  {
    if |s| == 0 then Some([])
    else if |s| < 4 then None
    else
      match DecodeGroup(s[..4], |s| == 4)
      case None => None
      case Some(g) =>
        if |s| == 4 then Some(g)
        else
          match DecodeStd(s[4..])
          case None => None
          case Some(t) => Some(g + t)
  }

  /** `s.replace(/c/g, '')` */
  function RemoveAll(s: seq<char>, c: char): (r: seq<char>)
    ensures forall i :: 0 <= i < |r| ==> r[i] != c
    decreases |s|
  {
    if |s| == 0 then []
    else if s[0] == c then RemoveAll(s[1..], c)
    else [s[0]] + RemoveAll(s[1..], c)
  }

  /** `s.replace(/from/g, to)` for single characters. */
  function ReplaceAll(s: seq<char>, from: char, to: char): (r: seq<char>)
    ensures |r| == |s|
    ensures forall i :: 0 <= i < |s| ==> r[i] == if s[i] == from then to else s[i]
  {
    seq(|s|, i requires 0 <= i < |s| => if s[i] == from then to else s[i])
  }

  function Repeat(c: char, n: nat): (r: seq<char>)
    ensures |r| == n && forall i :: 0 <= i < n ==> r[i] == c
  {
    seq(n, _ => c)
  }

  /** Restores the `=` padding that makes the length a multiple of four. */
  function Repad(s: seq<char>): (r: seq<char>)
    ensures |r| % 4 == 0
  {
    var pad := |s| % 4;
    if pad != 0 then s + Repeat('=', 4 - pad) else s
  }

  /** Unpadded URL-safe encoding: standard base64, then `=` removed, `+` to `-`, `/` to `_`. */
  function EncodeUrl(b: seq<byte>): seq<char>
  {
    ReplaceAll(ReplaceAll(RemoveAll(EncodeStd(b), '='), '+', '-'), '/', '_')
  }

  /** Decoding of an unpadded URL-safe segment: `-` to `+`, `_` to `/`, re-pad, standard decode. */
  function DecodeUrl(s: seq<char>): Option<seq<byte>>
  {
    DecodeStd(Repad(ReplaceAll(ReplaceAll(s, '-', '+'), '_', '/')))
  }

  /** Number of `=` characters standard base64 appends to `n` bytes. */
  function PadCount(n: nat): nat
  {
    if n % 3 == 1 then 2 else if n % 3 == 2 then 1 else 0
  }

  // ---------------------------------------------------------------------------
  // Proofs

  lemma GroupRoundTrip(b0: byte, b1: byte, b2: byte)
    ensures (b0 / 4) * 4 + (b0 % 4 * 16 + b1 / 16) / 16 == b0
    ensures (b0 % 4 * 16 + b1 / 16) % 16 * 16 + (b1 % 16 * 4 + b2 / 64) / 4 == b1
    ensures (b1 % 16 * 4 + b2 / 64) % 4 * 64 + b2 % 64 == b2
  {
    assert (b0 % 4 * 16 + b1 / 16) / 16 == b0 % 4;
    assert (b0 % 4 * 16 + b1 / 16) % 16 == b1 / 16;
    assert (b1 % 16 * 4 + b2 / 64) / 4 == b1 % 16;
    assert (b1 % 16 * 4 + b2 / 64) % 4 == b2 / 64;
  }

  /** The four characters standard base64 writes for three bytes. */
  function Group(b0: byte, b1: byte, b2: byte): (q: seq<char>)
    ensures |q| == 4 && forall i :: 0 <= i < 4 ==> Value(q[i]).Some?
  {
    [Char(b0 / 4), Char(b0 % 4 * 16 + b1 / 16), Char(b1 % 16 * 4 + b2 / 64), Char(b2 % 64)]
  }

  lemma EncodeStdCons(b: seq<byte>)
    requires |b| >= 3
    ensures EncodeStd(b) == Group(b[0], b[1], b[2]) + EncodeStd(b[3..])
  {
  }

  /** Alphabet characters followed by exactly `k` padding characters. */
  ghost predicate Padded(s: seq<char>, k: nat)
  {
    && k <= |s|
    && (forall i :: 0 <= i < |s| - k ==> Value(s[i]).Some?)
    && (forall i :: |s| - k <= i < |s| ==> s[i] == '=')
  }

  lemma PaddedPrepend(g: seq<char>, r: seq<char>, k: nat)
    requires |g| == 4 && forall i :: 0 <= i < 4 ==> Value(g[i]).Some?
    requires Padded(r, k)
    ensures Padded(g + r, k)
  {
    forall i | 0 <= i < |g + r| - k
      ensures Value((g + r)[i]).Some?
    {
      if i >= 4 {
        assert (g + r)[i] == r[i - 4];
      }
    }
    forall i | |g + r| - k <= i < |g + r|
      ensures (g + r)[i] == '='
    {
      assert (g + r)[i] == r[i - 4];
    }
  }

  /** Dropping a group of three bytes keeps the padding and removes one group. */
  lemma GroupCount(n: nat)
    requires n >= 3
    ensures PadCount(n) == PadCount(n - 3)
    ensures (n + 2) / 3 == (n - 3 + 2) / 3 + 1
  {
    assert n % 3 == (n - 3) % 3;
  }

  /** The shape of standard base64: four characters per started group of three bytes,
      alphabet characters followed by `PadCount` `=`. */
  lemma {:induction false} EncodeStdShape(b: seq<byte>)
    ensures |EncodeStd(b)| == 4 * ((|b| + 2) / 3)
    ensures Padded(EncodeStd(b), PadCount(|b|))
    decreases |b|
  {
    if |b| >= 3 {
      var k := PadCount(|b|);
      EncodeStdCons(b);
      EncodeStdShape(b[3..]);
      GroupCount(|b|);
      PaddedPrepend(Group(b[0], b[1], b[2]), EncodeStd(b[3..]), k);
    } else if |b| > 0 {
      EncodeStdShort(b);
    }
  }

  /** One or two bytes: two or three alphabet characters, then the padding. */
  lemma EncodeStdShort(b: seq<byte>)
    requires 1 <= |b| <= 2
    ensures |EncodeStd(b)| == 4
    ensures Padded(EncodeStd(b), PadCount(|b|))
  {
    var s := EncodeStd(b);
    assert Value(s[0]).Some? && Value(s[1]).Some?;
    if |b| == 2 {
      assert Value(s[2]).Some?;
    }
  }

  /** The first group of an encoding of three or more bytes decodes to those bytes. */
  lemma DecodeFirstGroup(b: seq<byte>, last: bool)
    requires |b| >= 3
    ensures DecodeGroup(Group(b[0], b[1], b[2]), last) == Some(b[..3])
  {
    GroupRoundTrip(b[0], b[1], b[2]);
    assert b[..3] == [b[0], b[1], b[2]];
  }

  /** One or two bytes come back from their padded group. */
  lemma DecodeEncodeShort(b: seq<byte>)
    requires 1 <= |b| <= 2
    ensures DecodeStd(EncodeStd(b)) == Some(b)
  {
    if |b| == 1 {
      DecodeOneByte(b[0]);
      assert b == [b[0]];
    } else {
      DecodeTwoBytes(b[0], b[1]);
      assert b == [b[0], b[1]];
    }
  }

  lemma DecodeOneByte(b0: byte)
    ensures DecodeStd(EncodeStd([b0])) == Some([b0])
  {
    var q := [Char(b0 / 4), Char(b0 % 4 * 16), '=', '='];
    assert EncodeStd([b0]) == q;
    assert q[..4] == q;
    assert (b0 % 4 * 16) / 16 == b0 % 4;
    assert DecodeGroup(q, true) == Some([b0]);
  }

  lemma DecodeTwoBytes(b0: byte, b1: byte)
    ensures DecodeStd(EncodeStd([b0, b1])) == Some([b0, b1])
  {
    var q := [Char(b0 / 4), Char(b0 % 4 * 16 + b1 / 16), Char(b1 % 16 * 4), '='];
    assert EncodeStd([b0, b1]) == q;
    assert q[..4] == q;
    GroupRoundTrip(b0, b1, 0);
    assert DecodeGroup(q, true) == Some([b0, b1]);
  }

  /** Decoding standard base64 gives back the bytes (RFC 4648 section 4 is a bijection). */
  lemma {:induction false} DecodeEncodeStd(b: seq<byte>)
    ensures DecodeStd(EncodeStd(b)) == Some(b)
    decreases |b|
  {
    if 1 <= |b| <= 2 {
      DecodeEncodeShort(b);
    } else if |b| >= 3 {
      var g, rest := Group(b[0], b[1], b[2]), EncodeStd(b[3..]);
      var s := g + rest;
      EncodeStdCons(b);
      assert s[..4] == g && s[4..] == rest;
      DecodeFirstGroup(b, |s| == 4);
      if |b| > 3 {
        EncodeStdShape(b[3..]);
        DecodeEncodeStd(b[3..]);
        assert b == b[..3] + b[3..];
      } else {
        assert b[..3] == b;
      }
    }
  }

  lemma {:induction false} RemoveAllTrailing(s: seq<char>, c: char, n: nat)
    requires n <= |s|
    requires forall i :: 0 <= i < n ==> s[i] != c
    requires forall i :: n <= i < |s| ==> s[i] == c
    ensures RemoveAll(s, c) == s[..n]
    decreases |s|
  {
    if |s| > 0 {
      if n == 0 {
        RemoveAllTrailing(s[1..], c, 0);
      } else {
        RemoveAllTrailing(s[1..], c, n - 1);
        assert s[..n] == [s[0]] + s[1..][..n - 1];
      }
    }
  }

  /** Removing the trailing padding leaves the alphabet characters. */
  lemma StripPadding(s: seq<char>, k: nat)
    requires Padded(s, k)
    ensures RemoveAll(s, '=') == s[..|s| - k]
    ensures s == s[..|s| - k] + Repeat('=', k)
  {
    RemoveAllTrailing(s, '=', |s| - k);
    var u, pad := s[..|s| - k], Repeat('=', k);
    forall i | 0 <= i < |s|
      ensures (u + pad)[i] == s[i]
    {
      if i >= |u| {
        assert (u + pad)[i] == pad[i - |u|];
      }
    }
    assert u + pad == s;
  }

  lemma PadArithmetic(x: nat, k: nat)
    requires k < 4 && k <= 4 * x
    ensures (4 * x - k) % 4 == if k == 0 then 0 else 4 - k
  {
    if k > 0 {
      assert 4 * x - k == 4 * (x - 1) + (4 - k);
    }
  }

  /** Removing the padding and re-padding by length gives back standard base64. */
  lemma StripRepad(b: seq<byte>)
    ensures Repad(RemoveAll(EncodeStd(b), '=')) == EncodeStd(b)
  {
    var s := EncodeStd(b);
    var k := PadCount(|b|);
    EncodeStdShape(b);
    StripPadding(s, k);
    PadArithmetic((|b| + 2) / 3, k);
  }

  /** A standard-alphabet character, after the two substitutions, is URL-safe. */
  lemma UrlSubstitution(c: char)
    requires Value(c).Some?
    ensures var d := if c == '+' then '-' else c;
      var e := if d == '/' then '_' else d;
      IsUrlChar(e) && e !in {'=', '+', '/', '.'}
  {
  }

  /** Unpadded length: four characters per three bytes, rounded up. */
  lemma UnpaddedLength(n: nat)
    ensures 4 * ((n + 2) / 3) - PadCount(n) == (4 * n + 2) / 3
  {
    var q, r := n / 3, n % 3;
    assert n == 3 * q + r;
    if r == 0 {
      assert (n + 2) / 3 == q;
      assert 4 * n + 2 == 3 * (4 * q) + 2;
    } else if r == 1 {
      assert (n + 2) / 3 == q + 1;
      assert 4 * n + 2 == 3 * (4 * q + 2);
    } else {
      assert (n + 2) / 3 == q + 1;
      assert 4 * n + 2 == 3 * (4 * q + 3) + 1;
    }
  }

  /** Every character of an encoded segment is in the URL-safe alphabet, so it holds
      no `=`, `+`, `/` (nor the `.` that separates token segments). */
  lemma EncodeUrlAlphabet(b: seq<byte>)
    ensures |EncodeUrl(b)| == (4 * |b| + 2) / 3
    ensures forall i :: 0 <= i < |EncodeUrl(b)| ==> IsUrlChar(EncodeUrl(b)[i])
    ensures forall i :: 0 <= i < |EncodeUrl(b)| ==>
      EncodeUrl(b)[i] !in {'=', '+', '/', '.'}
  {
    var s := EncodeStd(b);
    var k := PadCount(|b|);
    EncodeStdShape(b);
    StripPadding(s, k);
    UnpaddedLength(|b|);
    var u := RemoveAll(s, '=');
    var m := ReplaceAll(u, '+', '-');
    var e := ReplaceAll(m, '/', '_');
    assert e == EncodeUrl(b);
    forall i | 0 <= i < |e|
      ensures IsUrlChar(e[i]) && e[i] !in {'=', '+', '/', '.'}
    {
      assert u[i] == s[i];
      assert Value(s[i]).Some?;
      UrlSubstitution(u[i]);
    }
  }

  /** Decoding an encoded segment gives back the bytes. */
  lemma DecodeEncodeUrl(b: seq<byte>)
    ensures DecodeUrl(EncodeUrl(b)) == Some(b)
  {
    var s := EncodeStd(b);
    var u := RemoveAll(s, '=');
    EncodeStdShape(b);
    StripPadding(s, PadCount(|b|));
    var e := EncodeUrl(b);
    var back := ReplaceAll(ReplaceAll(e, '-', '+'), '_', '/');
    assert back == u by {
      forall i | 0 <= i < |u| ensures back[i] == u[i] {
        assert u[i] == s[i];
      }
    }
    StripRepad(b);
    DecodeEncodeStd(b);
  }
}
