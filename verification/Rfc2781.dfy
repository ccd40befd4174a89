/** UTF-16 as section 2 of RFC 2781 defines it, built like the UTF-8 definitions. */
module Rfc2781 {

  import opened Rfc3629

  type Word = bv16

  predicate IsHigh(w: Word) {
    0xD800 <= w <= 0xDBFF
  }

  predicate IsLow(w: Word) {
    0xDC00 <= w <= 0xDFFF
  }

  /** The words of one character: a single word that is no surrogate, or a surrogate pair. */
  predicate IsUnit(s: seq<Word>) {
    || (|s| == 1 && !IsHigh(s[0]) && !IsLow(s[0]))
    || (|s| == 2 && IsHigh(s[0]) && IsLow(s[1]))
  }

  ghost predicate IsText16(s: seq<Word>)
    decreases |s|
  {
    s == [] || exists n | 1 <= n <= |s| :: IsUnit(s[..n]) && IsText16(s[n..])
  }

  /** Section 2.2: ten bits from each surrogate, added to 10000 hexadecimal. */
  function PairValue(w1: Word, w2: Word): bv32 {
    (((w1 & 0x3ff) as bv32 << 10) | (w2 & 0x3ff) as bv32) + 0x10000
  }

  function Value16(s: seq<Word>): bv32
    requires 1 <= |s| <= 2
  {
    if |s| == 1 then s[0] as bv32 else PairValue(s[0], s[1])
  }

  /** Section 2.1: subtract 10000 hexadecimal and spread the twenty bits. */
  function High(cp: bv32): Word {
    0xD800 | (((cp - 0x10000) >> 10) & 0x3ff) as bv16
  }

  function Low(cp: bv32): Word {
    0xDC00 | ((cp - 0x10000) & 0x3ff) as bv16
  }

  function Encode16(cp: bv32): seq<Word> {
    if cp < 0x10000 then [(cp & 0xffff) as bv16] else [High(cp), Low(cp)]
  }

  lemma SingleFits(cp: bv32)
    requires IsScalarValue(cp) && cp < 0x10000
    ensures var w := (cp & 0xffff) as bv16; !IsHigh(w) && !IsLow(w) && w as bv32 == cp
  {}

  lemma PairFits(cp: bv32)
    requires 0x10000 <= cp <= 0x10FFFF
    ensures IsHigh(High(cp)) && IsLow(Low(cp)) && PairValue(High(cp), Low(cp)) == cp
  {}

  lemma PairReads(w1: Word, w2: Word)
    requires IsHigh(w1) && IsLow(w2)
    ensures var cp := PairValue(w1, w2); 0x10000 <= cp <= 0x10FFFF && High(cp) == w1 && Low(cp) == w2
  {}

  lemma SingleReads(w: Word)
    requires !IsHigh(w) && !IsLow(w)
    ensures var cp := w as bv32; IsScalarValue(cp) && cp < 0x10000 && (cp & 0xffff) as bv16 == w
  {}

  lemma Encode16IsUnit(cp: bv32)
    requires IsScalarValue(cp)
    ensures 1 <= |Encode16(cp)| <= 2 && IsUnit(Encode16(cp)) && Value16(Encode16(cp)) == cp
  {
    if cp < 0x10000 {
      SingleFits(cp);
    } else {
      PairFits(cp);
    }
  }

  lemma UnitIsEncoding(s: seq<Word>)
    requires IsUnit(s)
    ensures IsScalarValue(Value16(s)) && Encode16(Value16(s)) == s
  {
    hide Encode16, PairValue, IsHigh, IsLow;
    if |s| == 1 {
      SingleIsEncoding(s[0]);
      assert s == [s[0]];
    } else {
      PairIsEncoding(s[0], s[1]);
      assert s == [s[0], s[1]];
    }
  }

  lemma SingleIsEncoding(w: Word)
    requires !IsHigh(w) && !IsLow(w)
    ensures IsScalarValue(w as bv32) && Encode16(w as bv32) == [w]
  {
    SingleReads(w);
  }

  lemma PairIsEncoding(w1: Word, w2: Word)
    requires IsHigh(w1) && IsLow(w2)
    ensures IsScalarValue(PairValue(w1, w2)) && Encode16(PairValue(w1, w2)) == [w1, w2]
  {
    hide High, Low, PairValue;
    PairReads(w1, w2);
  }

  /** Length of the character at the front of `s`, 0 if there is none. */
  function FrontUnit(s: seq<Word>): (n: nat)
    ensures n > 0 ==> n <= |s| && n <= 2 && IsUnit(s[..n])
    ensures forall m | 1 <= m <= |s| && IsUnit(s[..m]) :: m == n
  {
    if |s| >= 1 && IsUnit(s[..1]) then 1 else if |s| >= 2 && IsUnit(s[..2]) then 2 else 0
  }

  function ValidPrefix16(s: seq<Word>): (n: nat)
    ensures n <= |s|
  {
    var n := FrontUnit(s);
    if n == 0 then 0 else n + ValidPrefix16(s[n..])
  }

  function CodePoints16(s: seq<Word>): seq<bv32> {
    var n := FrontUnit(s);
    if n == 0 then [] else [Value16(s[..n])] + CodePoints16(s[n..])
  }

  function EncodeAll16(cps: seq<bv32>): seq<Word> {
    if cps == [] then [] else Encode16(cps[0]) + EncodeAll16(cps[1..])
  }

  lemma {:induction false} Text16IffWhole(s: seq<Word>)
    ensures IsText16(s) <==> ValidPrefix16(s) == |s|
    decreases |s|
  {
    hide IsUnit, FrontUnit;
    if s != [] {
      Text16Front(s);
      var n := FrontUnit(s);
      if n > 0 {
        Text16IffWhole(s[n..]);
      }
    }
  }

  lemma Text16Front(s: seq<Word>)
    requires s != []
    ensures IsText16(s) <==> FrontUnit(s) > 0 && IsText16(s[FrontUnit(s)..])
  {}

  lemma {:induction false} EncodeCodePoints16(s: seq<Word>)
    ensures AllScalar(CodePoints16(s))
    ensures EncodeAll16(CodePoints16(s)) == s[..ValidPrefix16(s)]
    decreases |s|
  {
    hide IsUnit, FrontUnit, Value16, Encode16, IsScalarValue;
    var n := FrontUnit(s);
    if n > 0 {
      UnitIsEncoding(s[..n]);
      EncodeCodePoints16(s[n..]);
      assert CodePoints16(s)[1..] == CodePoints16(s[n..]);
      assert s[..ValidPrefix16(s)] == s[..n] + s[n..][..ValidPrefix16(s[n..])];
    }
  }

  lemma FrontOfEncoding16(cp: bv32, rest: seq<Word>)
    requires IsScalarValue(cp)
    ensures CodePoints16(Encode16(cp) + rest) == [cp] + CodePoints16(rest)
    ensures ValidPrefix16(Encode16(cp) + rest) == |Encode16(cp)| + ValidPrefix16(rest)
  {
    hide IsUnit, FrontUnit, Value16, Encode16, IsScalarValue;
    Encode16IsUnit(cp);
    var s, n := Encode16(cp) + rest, |Encode16(cp)|;
    assert s[..n] == Encode16(cp) && s[n..] == rest;
  }

  lemma {:induction false} DecodeEncodeAll16(cps: seq<bv32>, rest: seq<Word>)
    requires AllScalar(cps)
    ensures CodePoints16(EncodeAll16(cps) + rest) == cps + CodePoints16(rest)
    ensures ValidPrefix16(EncodeAll16(cps) + rest) == |EncodeAll16(cps)| + ValidPrefix16(rest)
    decreases |cps|
  {
    hide Encode16, IsScalarValue, CodePoints16, ValidPrefix16;
    if cps == [] {
      assert EncodeAll16(cps) + rest == rest;
    } else {
      var tail := EncodeAll16(cps[1..]) + rest;
      assert EncodeAll16(cps) + rest == Encode16(cps[0]) + tail;
      FrontOfEncoding16(cps[0], tail);
      DecodeEncodeAll16(cps[1..], rest);
      assert cps == [cps[0]] + cps[1..];
    }
  }

  /** The well-formed word sequences are exactly the encodings of sequences of scalar values,
      and each has one decoding. */
  lemma Texts16AreEncodings(s: seq<Word>, cps: seq<bv32>)
    ensures IsText16(s) ==> AllScalar(CodePoints16(s)) && EncodeAll16(CodePoints16(s)) == s
    ensures AllScalar(cps) && EncodeAll16(cps) == s ==> IsText16(s) && CodePoints16(s) == cps
  {
    hide *;
    Text16IffWhole(s);
    EncodeCodePoints16(s);
    if AllScalar(cps) && EncodeAll16(cps) == s {
      DecodeEncodeAll16(cps, []);
      Nothing16();
      assert s + [] == s;
    }
  }

  lemma Nothing16()
    ensures CodePoints16([]) == [] && ValidPrefix16([]) == 0
  {}

  lemma Text16Then(t: seq<Word>, rest: seq<Word>)
    requires IsText16(t)
    ensures CodePoints16(t + rest) == CodePoints16(t) + CodePoints16(rest)
    ensures ValidPrefix16(t + rest) == |t| + ValidPrefix16(rest)
    ensures IsText16(t + rest) <==> IsText16(rest)
  {
    hide *;
    Texts16AreEncodings(t, []);
    DecodeEncodeAll16(CodePoints16(t), rest);
    Text16IffWhole(t + rest);
    Text16IffWhole(rest);
  }

  /** No surrogate stands alone. */
  predicate AllPaired(s: seq<Word>) {
    forall i {:trigger s[i]} | 0 <= i < |s| ::
      && (IsHigh(s[i]) ==> i + 1 < |s| && IsLow(s[i + 1]))
      && (IsLow(s[i]) ==> i > 0 && IsHigh(s[i - 1]))
  }

  lemma HighIsNotLow(w: Word)
    ensures !(IsHigh(w) && IsLow(w))
  {}

  /** Well-formed UTF-16 is the absence of unpaired surrogates. */
  lemma {:induction false} Text16IffPaired(s: seq<Word>)
    ensures IsText16(s) <==> AllPaired(s)
    decreases |s|
  {
    hide IsHigh, IsLow;
    if s != [] {
      Text16Front(s);
      forall w: Word { HighIsNotLow(w); }
      var n := FrontUnit(s);
      if n > 0 {
        var rest := s[n..];
        Text16IffPaired(rest);
        assert s[0] == s[..n][0] && (n == 2 ==> s[1] == s[..n][1]);
        assert forall i | n <= i < |s| :: s[i] == rest[i - n];
        assert forall j | 0 <= j < |rest| :: rest[j] == s[n + j];
      } else {
        assert IsHigh(s[0]) || IsLow(s[0]) by { assert s[..1][0] == s[0]; }
        assert IsHigh(s[0]) && |s| > 1 ==> !IsLow(s[1]) by { assert |s| > 1 ==> !IsUnit(s[..2]); }
        assert !((IsHigh(s[0]) ==> 0 + 1 < |s| && IsLow(s[0 + 1])) && !IsLow(s[0]));
      }
    }
  }

  lemma {:induction false} EncodeAll16Snoc(cps: seq<bv32>, cp: bv32)
    ensures EncodeAll16(cps + [cp]) == EncodeAll16(cps) + Encode16(cp)
  {
    hide Encode16;
    if cps == [] {
      assert EncodeAll16([cp]) == Encode16(cp) + [];
    } else {
      assert (cps + [cp])[1..] == cps[1..] + [cp];
      EncodeAll16Snoc(cps[1..], cp);
    }
  }
}
