/** UTF-8 as RFC 3629 defines it: the octet grammar of section 4, the bit layout of
    section 3, and what follows from them.  Nothing here looks at the library's code;
    the library is proved against these definitions. */
module Rfc3629 {

  type Octet = bv8

  /** A character number that may be encoded: 0 to 10FFFF without the surrogates. */
  predicate IsScalarValue(cp: bv32) {
    cp < 0xD800 || 0xE000 <= cp <= 0x10FFFF
  }

  // ---------------------------------------------------------------- section 4: grammar

  predicate IsTail(o: Octet) {
    0x80 <= o <= 0xBF
  }

  predicate Char1(a: Octet) {
    a <= 0x7F
  }

  predicate Char2(a: Octet, b: Octet) {
    0xC2 <= a <= 0xDF && IsTail(b)
  }

  predicate Char3(a: Octet, b: Octet, c: Octet) {
    || (a == 0xE0 && 0xA0 <= b <= 0xBF && IsTail(c))
    || (0xE1 <= a <= 0xEC && IsTail(b) && IsTail(c))
    || (a == 0xED && 0x80 <= b <= 0x9F && IsTail(c))
    || (0xEE <= a <= 0xEF && IsTail(b) && IsTail(c))
  }

  predicate Char4(a: Octet, b: Octet, c: Octet, d: Octet) {
    || (a == 0xF0 && 0x90 <= b <= 0xBF && IsTail(c) && IsTail(d))
    || (0xF1 <= a <= 0xF3 && IsTail(b) && IsTail(c) && IsTail(d))
    || (a == 0xF4 && 0x80 <= b <= 0x8F && IsTail(c) && IsTail(d))
  }

  /** UTF8-char */
  predicate IsChar(s: seq<Octet>) {
    || (|s| == 1 && Char1(s[0]))
    || (|s| == 2 && Char2(s[0], s[1]))
    || (|s| == 3 && Char3(s[0], s[1], s[2]))
    || (|s| == 4 && Char4(s[0], s[1], s[2], s[3]))
  }

  /** UTF8-octets = *( UTF8-char ) */
  ghost predicate IsText(s: seq<Octet>)
    decreases |s|
  {
    s == [] || exists n | 1 <= n <= |s| :: IsChar(s[..n]) && IsText(s[n..])
  }

  // ------------------------------------------------------------- section 3: bit layout

  function Bits2(a: Octet, b: Octet): bv32 {
    ((a & 0x1f) as bv32 << 6) | (b & 0x3f) as bv32
  }

  function Bits3(a: Octet, b: Octet, c: Octet): bv32 {
    ((a & 0x0f) as bv32 << 12) | ((b & 0x3f) as bv32 << 6) | (c & 0x3f) as bv32
  }

  function Bits4(a: Octet, b: Octet, c: Octet, d: Octet): bv32 {
    ((a & 0x07) as bv32 << 18) | ((b & 0x3f) as bv32 << 12) | ((c & 0x3f) as bv32 << 6) | (d & 0x3f) as bv32
  }

  /** The payload bits of one to four octets, whether or not they are a UTF8-char. */
  function Payload(s: seq<Octet>): bv32
    requires 1 <= |s| <= 4
  {
    if |s| == 1 then s[0] as bv32
    else if |s| == 2 then Bits2(s[0], s[1])
    else if |s| == 3 then Bits3(s[0], s[1], s[2])
    else Bits4(s[0], s[1], s[2], s[3])
  }

  /** The octet made of a marker and of the six bits of `cp` that start at bit `shift`. */
  function Fill(marker: Octet, mask: bv32, bits: bv32): Octet {
    marker | (bits & mask & 0xff) as bv8
  }

  function Encode(cp: bv32): seq<Octet> {
    if cp <= 0x7F then [Fill(0x00, 0x7f, cp)]
    else if cp <= 0x7FF then [Fill(0xC0, 0x1f, cp >> 6), Fill(0x80, 0x3f, cp)]
    else if cp <= 0xFFFF then [Fill(0xE0, 0x0f, cp >> 12), Fill(0x80, 0x3f, cp >> 6), Fill(0x80, 0x3f, cp)]
    else [Fill(0xF0, 0x07, cp >> 18), Fill(0x80, 0x3f, cp >> 12), Fill(0x80, 0x3f, cp >> 6), Fill(0x80, 0x3f, cp)]
  }

  lemma Fill2(cp: bv32)
    requires 0x80 <= cp <= 0x7FF
    ensures var a, b := Fill(0xC0, 0x1f, cp >> 6), Fill(0x80, 0x3f, cp); Char2(a, b) && Bits2(a, b) == cp
  {}

  lemma Fill3(cp: bv32)
    requires 0x800 <= cp <= 0xFFFF && IsScalarValue(cp)
    ensures
      var a, b, c := Fill(0xE0, 0x0f, cp >> 12), Fill(0x80, 0x3f, cp >> 6), Fill(0x80, 0x3f, cp);
      Char3(a, b, c) && Bits3(a, b, c) == cp
  {}

  lemma Fill4(cp: bv32)
    requires 0x10000 <= cp <= 0x10FFFF
    ensures
      var a, b, c, d := Fill(0xF0, 0x07, cp >> 18), Fill(0x80, 0x3f, cp >> 12), Fill(0x80, 0x3f, cp >> 6), Fill(0x80, 0x3f, cp);
      Char4(a, b, c, d) && Bits4(a, b, c, d) == cp
  {}

  lemma RefillBits2(a: Octet, b: Octet)
    requires Char2(a, b)
    ensures
      var cp := Bits2(a, b);
      0x80 <= cp <= 0x7FF && Fill(0xC0, 0x1f, cp >> 6) == a && Fill(0x80, 0x3f, cp) == b
  {}

  lemma RefillBits3(a: Octet, b: Octet, c: Octet)
    requires Char3(a, b, c)
    ensures
      var cp := Bits3(a, b, c);
      0x800 <= cp <= 0xFFFF && IsScalarValue(cp) &&
      Fill(0xE0, 0x0f, cp >> 12) == a && Fill(0x80, 0x3f, cp >> 6) == b && Fill(0x80, 0x3f, cp) == c
  {}

  lemma RefillBits4(a: Octet, b: Octet, c: Octet, d: Octet)
    requires Char4(a, b, c, d)
    ensures
      var cp := Bits4(a, b, c, d);
      0x10000 <= cp <= 0x10FFFF &&
      Fill(0xF0, 0x07, cp >> 18) == a && Fill(0x80, 0x3f, cp >> 12) == b && Fill(0x80, 0x3f, cp >> 6) == c && Fill(0x80, 0x3f, cp) == d
  {}

  lemma Refill1(s: seq<Octet>)
    requires |s| == 1 && IsChar(s)
    ensures IsScalarValue(Payload(s)) && Encode(Payload(s)) == s
  {
    assert Fill(0x00, 0x7f, s[0] as bv32) == s[0];
  }

  lemma Refill2(s: seq<Octet>)
    requires |s| == 2 && IsChar(s)
    ensures IsScalarValue(Payload(s)) && Encode(Payload(s)) == s
  {
    RefillBits2(s[0], s[1]);
  }

  lemma Refill3(s: seq<Octet>)
    requires |s| == 3 && IsChar(s)
    ensures IsScalarValue(Payload(s)) && Encode(Payload(s)) == s
  {
    hide Bits3, Encode, IsScalarValue, Char1, Char2, Char3, Char4;
    EncodeOfBits3(s[0], s[1], s[2]);
    assert s == [s[0], s[1], s[2]];
  }

  lemma EncodeOfBits3(a: Octet, b: Octet, c: Octet)
    requires Char3(a, b, c)
    ensures IsScalarValue(Bits3(a, b, c)) && Encode(Bits3(a, b, c)) == [a, b, c]
  {
    RefillBits3(a, b, c);
    hide Bits3, Fill, Char3;
  }

  lemma Refill4(s: seq<Octet>)
    requires |s| == 4 && IsChar(s)
    ensures IsScalarValue(Payload(s)) && Encode(Payload(s)) == s
  {
    hide Bits4, Encode, IsScalarValue, Char1, Char2, Char3, Char4;
    EncodeOfBits4(s[0], s[1], s[2], s[3]);
    assert s == [s[0], s[1], s[2], s[3]];
  }

  function FourFilled(cp: bv32): seq<Octet> {
    [Fill(0xF0, 0x07, cp >> 18), Fill(0x80, 0x3f, cp >> 12), Fill(0x80, 0x3f, cp >> 6), Fill(0x80, 0x3f, cp)]
  }

  lemma RefilledFour(a: Octet, b: Octet, c: Octet, d: Octet)
    requires Char4(a, b, c, d)
    ensures FourFilled(Bits4(a, b, c, d)) == [a, b, c, d]
    ensures 0x10000 <= Bits4(a, b, c, d) <= 0x10FFFF
  {
    RefillBits4(a, b, c, d);
    hide Bits4, Fill, Char4;
  }

  lemma EncodeFour(cp: bv32)
    requires 0x10000 <= cp <= 0x10FFFF
    ensures IsScalarValue(cp) && Encode(cp) == FourFilled(cp)
  {
    hide Fill;
  }

  lemma EncodeOfBits4(a: Octet, b: Octet, c: Octet, d: Octet)
    requires Char4(a, b, c, d)
    ensures IsScalarValue(Bits4(a, b, c, d)) && Encode(Bits4(a, b, c, d)) == [a, b, c, d]
  {
    hide Bits4, FourFilled, Encode, IsScalarValue, Char4;
    RefilledFour(a, b, c, d);
    EncodeFour(Bits4(a, b, c, d));
  }

  // --------------------------------------------- one character: encoding is a bijection

  /** The encoding of a scalar value is a UTF8-char that carries that value. */
  lemma EncodeIsChar(cp: bv32)
    requires IsScalarValue(cp)
    ensures 1 <= |Encode(cp)| <= 4 && IsChar(Encode(cp)) && Payload(Encode(cp)) == cp
  {
    if cp <= 0x7F {
      assert Fill(0x00, 0x7f, cp) as bv32 == cp && Char1(Fill(0x00, 0x7f, cp));
    } else if cp <= 0x7FF {
      Fill2(cp);
    } else if cp <= 0xFFFF {
      Fill3(cp);
    } else {
      Fill4(cp);
    }
  }

  /** A UTF8-char carries a scalar value and is the encoding of that value. */
  lemma CharIsEncoding(s: seq<Octet>)
    requires IsChar(s)
    ensures IsScalarValue(Payload(s)) && Encode(Payload(s)) == s
  {
    hide Payload, Encode, IsScalarValue, Char1, Char2, Char3, Char4;
    if |s| == 1 {
      Refill1(s);
    } else if |s| == 2 {
      Refill2(s);
    } else if |s| == 3 {
      Refill3(s);
    } else {
      Refill4(s);
    }
  }

  /** No UTF8-char is a proper prefix of another one. */
  lemma PrefixFree(s: seq<Octet>, m: nat, n: nat)
    requires m <= |s| && n <= |s| && IsChar(s[..m]) && IsChar(s[..n])
    ensures m == n
  {
    assert s[..m][0] == s[0] == s[..n][0];
  }

  // ------------------------------------------------------ texts: sequences of characters

  /** Length of the UTF8-char at the front of `s`, 0 if there is none. */
  function FrontChar(s: seq<Octet>): (n: nat)
    ensures n > 0 ==> n <= |s| && n <= 4 && IsChar(s[..n])
    ensures forall m | 1 <= m <= |s| && IsChar(s[..m]) :: m == n
  {
    var n := if |s| >= 1 && IsChar(s[..1]) then 1
             else if |s| >= 2 && IsChar(s[..2]) then 2
             else if |s| >= 3 && IsChar(s[..3]) then 3
             else if |s| >= 4 && IsChar(s[..4]) then 4
             else 0;
    assert forall m | 1 <= m <= |s| && IsChar(s[..m]) :: m == n by {
      forall m | 1 <= m <= |s| && IsChar(s[..m]) ensures m == n {
        assert |s[..m]| == m;
        assert n > 0;
        PrefixFree(s, m, n);
      }
    }
    n
  }

  /** Length of the longest prefix of `s` that is a text. */
  function ValidPrefix(s: seq<Octet>): (n: nat)
    ensures n <= |s|
  {
    var n := FrontChar(s);
    if n == 0 then 0 else n + ValidPrefix(s[n..])
  }

  /** The values of the characters of that prefix. */
  function CodePoints(s: seq<Octet>): seq<bv32> {
    var n := FrontChar(s);
    if n == 0 then [] else [Payload(s[..n])] + CodePoints(s[n..])
  }

  function EncodeAll(cps: seq<bv32>): seq<Octet> {
    if cps == [] then [] else Encode(cps[0]) + EncodeAll(cps[1..])
  }

  predicate AllScalar(cps: seq<bv32>) {
    forall i | 0 <= i < |cps| :: IsScalarValue(cps[i])
  }

  /** A nonempty text starts with a character, and the rest is a text. */
  lemma {:induction false} TextFront(s: seq<Octet>)
    requires s != []
    ensures IsText(s) <==> FrontChar(s) > 0 && IsText(s[FrontChar(s)..])
  {}

  /** The valid prefix is a text, and every text that is a prefix of `s` lies inside it. */
  lemma {:induction false} ValidPrefixIsLongest(s: seq<Octet>, m: nat)
    requires m <= |s|
    ensures IsText(s[..ValidPrefix(s)])
    ensures IsText(s[..m]) ==> m <= ValidPrefix(s)
    decreases |s|
  {
    hide IsChar, IsScalarValue, Payload, Encode, FrontChar;
    var n := FrontChar(s);
    if n == 0 {
      if m > 0 {
        TextFront(s[..m]);
        var k := FrontChar(s[..m]);
        if k > 0 { assert s[..m][..k] == s[..k]; }
      }
    } else {
      ValidPrefixIsLongest(s[n..], 0);
      var p := s[..ValidPrefix(s)];
      assert p[..n] == s[..n] && p[n..] == s[n..][..ValidPrefix(s[n..])];
      if m > 0 && IsText(s[..m]) {
        TextFront(s[..m]);
        var k := FrontChar(s[..m]);
        assert s[..m][..k] == s[..k];
        assert s[..m][n..] == s[n..][..m - n];
        ValidPrefixIsLongest(s[n..], m - n);
      }
    }
  }

  lemma {:induction false} TextIffWhole(s: seq<Octet>)
    ensures IsText(s) <==> ValidPrefix(s) == |s|
  {
    assert s[..|s|] == s;
    ValidPrefixIsLongest(s, |s|);
  }

  /** Decoding then encoding gives the valid prefix back. */
  lemma {:induction false} EncodeCodePoints(s: seq<Octet>)
    ensures AllScalar(CodePoints(s))
    ensures EncodeAll(CodePoints(s)) == s[..ValidPrefix(s)]
    decreases |s|
  {
    hide IsChar, IsScalarValue, Payload, Encode, FrontChar;
    var n := FrontChar(s);
    if n > 0 {
      CharIsEncoding(s[..n]);
      EncodeCodePoints(s[n..]);
      assert CodePoints(s)[1..] == CodePoints(s[n..]);
      assert s[..ValidPrefix(s)] == s[..n] + s[n..][..ValidPrefix(s[n..])];
    }
  }

  lemma FrontOfEncoding(cp: bv32, rest: seq<Octet>)
    requires IsScalarValue(cp)
    ensures FrontChar(Encode(cp) + rest) == |Encode(cp)|
    ensures CodePoints(Encode(cp) + rest) == [cp] + CodePoints(rest)
    ensures ValidPrefix(Encode(cp) + rest) == |Encode(cp)| + ValidPrefix(rest)
  {
    hide Payload, IsChar, Encode, IsScalarValue, FrontChar;
    EncodeIsChar(cp);
    var s, n := Encode(cp) + rest, |Encode(cp)|;
    assert s[..n] == Encode(cp) && s[n..] == rest;
  }

  /** Encoding then decoding gives the code points back, whatever follows them. */
  lemma {:induction false} DecodeEncodeAll(cps: seq<bv32>, rest: seq<Octet>)
    requires AllScalar(cps)
    ensures CodePoints(EncodeAll(cps) + rest) == cps + CodePoints(rest)
    ensures ValidPrefix(EncodeAll(cps) + rest) == |EncodeAll(cps)| + ValidPrefix(rest)
    decreases |cps|
  {
    hide Encode, IsScalarValue, CodePoints, ValidPrefix;
    if cps == [] {
      assert EncodeAll(cps) + rest == rest;
    } else {
      var tail := EncodeAll(cps[1..]) + rest;
      assert EncodeAll(cps) + rest == Encode(cps[0]) + tail;
      FrontOfEncoding(cps[0], tail);
      DecodeEncodeAll(cps[1..], rest);
      assert cps == [cps[0]] + cps[1..];
    }
  }

  /** The texts are exactly the encodings of sequences of scalar values, and `CodePoints`
      is the one sequence a text encodes. */
  lemma {:induction false} TextsAreEncodings(s: seq<Octet>, cps: seq<bv32>)
    ensures IsText(s) ==> AllScalar(CodePoints(s)) && EncodeAll(CodePoints(s)) == s
    ensures AllScalar(cps) && EncodeAll(cps) == s ==> IsText(s) && CodePoints(s) == cps
  {
    TextIffWhole(s);
    EncodeCodePoints(s);
    if AllScalar(cps) && EncodeAll(cps) == s {
      DecodeEncodeAll(cps, []);
      assert s + [] == s;
    }
  }

  /** Decoding a text followed by anything. */
  lemma {:induction false} TextThen(t: seq<Octet>, rest: seq<Octet>)
    requires IsText(t)
    ensures CodePoints(t + rest) == CodePoints(t) + CodePoints(rest)
    ensures ValidPrefix(t + rest) == |t| + ValidPrefix(rest)
    ensures IsText(t + rest) <==> IsText(rest)
  {
    TextsAreEncodings(t, []);
    DecodeEncodeAll(CodePoints(t), rest);
    TextIffWhole(t + rest);
    TextIffWhole(rest);
  }
}
