/** The byte-level string helpers of the tree on UTF-8 (section 3 of RFC 3629), and their
    agreement with the char-level meaning the tree is modelled with. */
module Utf8 {
  import opened Bytes
  import opened Options
  import opened Text

  // ---------- the encoding ----------

  function Encode(c: char): (bs: seq<Byte>)
    ensures 1 <= |bs| <= 4 && |bs| == Width(bs[0])
    ensures bs[0] < 0x80 <==> c as int < 0x80
    ensures c as int < 0x80 ==> bs == [c as int]
  {
    var v := c as int;
    if v < 0x80 then [v]
    else if v < 0x800 then [0xC0 + v / 64, 0x80 + v % 64]
    else if v < 0x1_0000 then [0xE0 + v / 4096, 0x80 + v / 64 % 64, 0x80 + v % 64]
    else [0xF0 + v / 26_2144, 0x80 + v / 4096 % 64, 0x80 + v / 64 % 64, 0x80 + v % 64]
  }

  function EncodeAll(s: string): seq<Byte> {
    if s == "" then [] else Encode(s[0]) + EncodeAll(s[1..])
  }

  /** The length of an encoded char, from its first byte. */
  function Width(b: Byte): (w: nat)
    ensures 1 <= w <= 4
  {
    if b < 0x80 then 1 else if b < 0xE0 then 2 else if b < 0xF0 then 3 else 4
  }

  predicate IsScalar(v: int) {
    0 <= v < 0xD800 || 0xE000 <= v < 0x11_0000
  }

  /** The first char of a byte string, if there is one. */
  function DecodeFirst(bs: seq<Byte>): Option<char> {
    if bs == [] || |bs| < Width(bs[0]) then None
    else
      var v: int := match Width(bs[0])
        case 1 => bs[0] as int
        case 2 => (bs[0] as int - 0xC0) * 64 + (bs[1] as int - 0x80)
        case 3 => (bs[0] as int - 0xE0) * 4096 + (bs[1] as int - 0x80) * 64 + (bs[2] as int - 0x80)
        case _ => (bs[0] as int - 0xF0) * 26_2144 + (bs[1] as int - 0x80) * 4096
                  + (bs[2] as int - 0x80) * 64 + (bs[3] as int - 0x80);
      if IsScalar(v) then Some(v as char) else None
  }

  /** The chars of a byte string. */
  function Chars(bs: seq<Byte>): string {
    match DecodeFirst(bs)
    case None => ""
    case Some(c) => [c] + Chars(bs[Width(bs[0])..])
  }

  lemma DivTwice(v: nat)
    ensures v / 64 / 64 == v / 4096
  {
    var q := v / 64;
    assert v == 64 * q + v % 64 && q == 64 * (q / 64) + q % 64;
  }

  lemma DivThrice(v: nat)
    ensures v / 4096 / 64 == v / 26_2144
  {
    var q := v / 4096;
    assert v == 4096 * q + v % 4096 && q == 64 * (q / 64) + q % 64;
  }

  /** The bits above the last six, put together again. */
  lemma SixBits(v: nat)
    ensures v / 64 == v / 4096 * 64 + v / 64 % 64
    ensures v / 4096 == v / 26_2144 * 64 + v / 4096 % 64
  {
    DivTwice(v);
    DivThrice(v);
  }

  lemma DecodeEncoded(c: char, rest: seq<Byte>)
    ensures DecodeFirst(Encode(c) + rest) == Some(c)
  {
    var es, bs := Encode(c), Encode(c) + rest;
    assert forall i :: 0 <= i < |es| ==> bs[i] == es[i];
    SixBits(c as int);
  }

  /** Decoding inverts encoding. */
  lemma {:induction false} CharsOfEncoded(s: string)
    ensures Chars(EncodeAll(s)) == s
  {
    if s != "" {
      var head, tail := Encode(s[0]), EncodeAll(s[1..]);
      DecodeEncoded(s[0], tail);
      assert (head + tail)[0] == head[0];
      assert (head + tail)[|head|..] == tail;
      CharsOfEncoded(s[1..]);
    }
  }

  lemma {:induction false} EncodeAllConcat(s: string, t: string)
    ensures EncodeAll(s + t) == EncodeAll(s) + EncodeAll(t)
  {
    if s == "" {
      assert s + t == t;
    } else {
      assert (s + t)[1..] == s[1..] + t;
      EncodeAllConcat(s[1..], t);
    }
  }

  lemma EncodeAllSplit(s: string, n: nat)
    requires n <= |s|
    ensures EncodeAll(s) == EncodeAll(s[..n]) + EncodeAll(s[n..])
  {
    assert s == s[..n] + s[n..];
    EncodeAllConcat(s[..n], s[n..]);
  }

  lemma {:induction false} NoShorterThanChars(s: string)
    ensures |s| <= |EncodeAll(s)|
  {
    if s != "" { NoShorterThanChars(s[1..]); }
  }

  // ---------- ASCII prefixes ----------

  predicate IsAscii(bs: seq<Byte>) {
    forall i :: 0 <= i < |bs| ==> bs[i] < 0x80
  }

  /** `n` leading ASCII bytes are `n` chars. */
  lemma {:induction false} AsciiBytesAreChars(s: string, n: nat)
    requires n <= |EncodeAll(s)| && IsAscii(EncodeAll(s)[..n])
    ensures n <= |s| && EncodeAll(s)[n..] == EncodeAll(s[n..])
    decreases n
  {
    if n > 0 {
      var bs := EncodeAll(s);
      assert bs[..n][0] == Encode(s[0])[0];
      assert bs == [bs[0]] + EncodeAll(s[1..]);
      assert EncodeAll(s[1..])[..n - 1] == bs[..n][1..];
      AsciiBytesAreChars(s[1..], n - 1);
      assert s[1..][n - 1..] == s[n..];
      assert bs[n..] == EncodeAll(s[1..])[n - 1..];
    }
  }

  // ---------- shared prefixes ----------

  function CommonByteLen(a: seq<Byte>, b: seq<Byte>): (k: nat)
    ensures k <= |a| && k <= |b|
  {
    if a == [] || b == [] || a[0] != b[0] then 0 else 1 + CommonByteLen(a[1..], b[1..])
  }

  function SharedPrefixCountBytes(a: seq<Byte>, b: seq<Byte>): nat {
    var k := CommonByteLen(a, b);
    if IsAscii(a[..k]) then k else SharedPrefixCount(Chars(a), Chars(b))
  }

  /** If the common bytes are ASCII, they are as many as the common chars. */
  lemma {:induction false} CommonAscii(s: string, t: string)
    requires var k := CommonByteLen(EncodeAll(s), EncodeAll(t)); IsAscii(EncodeAll(s)[..k])
    ensures CommonByteLen(EncodeAll(s), EncodeAll(t)) == SharedPrefixCount(s, t)
  {
    var a, b := EncodeAll(s), EncodeAll(t);
    var k := CommonByteLen(a, b);
    if k == 0 {
      if s != "" && t != "" {
        assert a[0] == Encode(s[0])[0] && b[0] == Encode(t[0])[0];
      }
    } else {
      assert a[..k][0] == Encode(s[0])[0] && b[0] == Encode(t[0])[0];
      assert Encode(s[0]) == [s[0] as int] && Encode(t[0]) == [t[0] as int];
      assert a[1..] == EncodeAll(s[1..]) && b[1..] == EncodeAll(t[1..]);
      assert a[1..][..k - 1] == a[..k][1..];
      CommonAscii(s[1..], t[1..]);
    }
  }

  /** The byte-level count is the char-level one on all valid strings. */
  lemma SharedPrefixCountCorrect(s: string, t: string)
    ensures SharedPrefixCountBytes(EncodeAll(s), EncodeAll(t)) == SharedPrefixCount(s, t)
  {
    var k := CommonByteLen(EncodeAll(s), EncodeAll(t));
    if IsAscii(EncodeAll(s)[..k]) {
      CommonAscii(s, t);
    } else {
      CharsOfEncoded(s);
      CharsOfEncoded(t);
    }
  }

  // ---------- char boundaries ----------

  /** The byte offset of char `n`, found by hopping from char to char. */
  function NthCharIndex(bs: seq<Byte>, n: nat): Option<nat> {
    if bs == [] then None
    else if n == 0 then Some(0)
    else if |bs| < Width(bs[0]) then None
    else match NthCharIndex(bs[Width(bs[0])..], n - 1)
      case None => None
      case Some(i) => Some(Width(bs[0]) + i)
  }

  lemma {:induction false} NthCharIndexCorrect(s: string, n: nat)
    ensures NthCharIndex(EncodeAll(s), n) == if n < |s| then Some(|EncodeAll(s[..n])|) else None
    decreases n
  {
    if s != "" && n > 0 {
      var bs, head := EncodeAll(s), Encode(s[0]);
      assert bs[0] == head[0];
      assert bs[|head|..] == EncodeAll(s[1..]);
      NthCharIndexCorrect(s[1..], n - 1);
      if n < |s| {
        assert s[..n][1..] == s[1..][..n - 1];
      }
    }
  }

  function Min(a: nat, b: nat): nat { if a < b then a else b }

  function AdvanceByChars(bs: seq<Byte>, n: nat): seq<Byte> {
    if n == 0 then bs
    else if n >= |bs| then []
    else if IsAscii(bs[..n]) then bs[n..]
    else match NthCharIndex(bs, n)
      case Some(i) => if i <= |bs| then bs[i..] else []
      case None => []
  }

  /** Advancing drops exactly the first `n` chars, or all of them. */
  lemma AdvanceByCharsCorrect(s: string, n: nat)
    ensures AdvanceByChars(EncodeAll(s), n) == EncodeAll(s[Min(n, |s|)..])
  {
    var bs := EncodeAll(s);
    NoShorterThanChars(s);
    if n == 0 {
      assert s[0..] == s;
    } else if n < |bs| {
      if IsAscii(bs[..n]) {
        AsciiBytesAreChars(s, n);
      } else {
        NthCharIndexCorrect(s, n);
        if n < |s| { EncodeAllSplit(s, n); }
      }
    }
  }

  function TakeChars(bs: seq<Byte>, n: nat): seq<Byte> {
    if n == 0 then []
    else match NthCharIndex(bs, n)
      case Some(i) => if i <= |bs| then bs[..i] else bs
      case None => bs
  }

  lemma TakeCharsCorrect(s: string, n: nat)
    ensures TakeChars(EncodeAll(s), n) == EncodeAll(s[..Min(n, |s|)])
  {
    NthCharIndexCorrect(s, n);
    if n < |s| {
      EncodeAllSplit(s, n);
    } else {
      assert s[..|s|] == s;
    }
  }

  // ---------- node texts with a cached char count ----------

  datatype NodeText = NodeText(text: seq<Byte>, charCount: nat)

  ghost predicate Holds(nt: NodeText, s: string) {
    nt.text == EncodeAll(s) && nt.charCount == |s|
  }

  function SplitAtChar(nt: NodeText, k: nat): (NodeText, NodeText) {
    if k == 0 then (NodeText([], 0), nt)
    else if k >= nt.charCount then (nt, NodeText([], 0))
    else
      var i := match NthCharIndex(nt.text, k) case Some(i) => i case None => |nt.text|;
      if i > |nt.text| then (nt, NodeText([], 0))
      else (NodeText(nt.text[..i], k), NodeText(nt.text[i..], nt.charCount - k))
  }

  /** Splitting loses nothing, cuts between chars, and keeps both cached counts exact. */
  lemma SplitAtCharCorrect(nt: NodeText, s: string, k: nat)
    requires Holds(nt, s)
    ensures var (a, b) := SplitAtChar(nt, k);
            && Holds(a, s[..Min(k, |s|)]) && Holds(b, s[Min(k, |s|)..])
            && a.text + b.text == nt.text
  {
    assert s[..|s|] == s && s[0..] == s;
    NthCharIndexCorrect(s, k);
    if 0 < k < |s| { EncodeAllSplit(s, k); }
  }
}
