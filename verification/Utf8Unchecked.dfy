/** lib/charset/utf8/unchecked.h: the fast variants without validation.  On valid input they
    give the results and end positions of the checked ones and stay inside the range. */
module Utf8Unchecked {

  import opened Rfc3629
  import opened Rfc2781
  import opened Utf8Core
  import opened Utf8Checked
  import opened Utf16Conversion

  /** What the code writes for any 32-bit value: the encoding, also of surrogates and of values up
      to 1FFFFF; beyond, higher bits spill into the marker of the first octet. */
  function Octets(cp: bv32): (r: seq<Octet>)
    ensures cp >= 0x10000 ==> |r| == 4
  {
    if cp <= 0x1FFFFF then Encode(cp) else [Uint8((cp >> 18) | 0xf0)] + Encode(cp)[1..]
  }

  lemma OctetsAre(cp: bv32)
    ensures Octets(cp) ==
      if cp < 0x80 then [Uint8(cp)]
      else if cp < 0x800 then [Uint8((cp >> 6) | 0xc0), Uint8((cp & 0x3f) | 0x80)]
      else if cp < 0x10000 then
        [Uint8((cp >> 12) | 0xe0), Uint8(((cp >> 6) & 0x3f) | 0x80), Uint8((cp & 0x3f) | 0x80)]
      else
        [Uint8((cp >> 18) | 0xf0), Uint8(((cp >> 12) & 0x3f) | 0x80),
         Uint8(((cp >> 6) & 0x3f) | 0x80), Uint8((cp & 0x3f) | 0x80)]
    ensures IsScalarValue(cp) ==> Octets(cp) == Encode(cp)
  {
    hide Uint8, Fill;
    if cp < 0x80 {
      Written1(cp);
    } else if cp < 0x800 {
      Written2(cp);
    } else if cp < 0x10000 {
      Written3(cp);
    } else {
      Written4(cp);
    }
  }

  method Append(cp: bv32, result0: seq<Octet>) returns (result: seq<Octet>)
    ensures result == result0 + Octets(cp)
    ensures IsScalarValue(cp) ==> result == result0 + Encode(cp)
  {
    hide Uint8, Encode, Octets, IsScalarValue;
    OctetsAre(cp);
    result := result0;
    if cp < 0x80 {
      result := result + [Uint8(cp)];
    } else if cp < 0x800 {
      result := result + [Uint8((cp >> 6) | 0xc0)];
      result := result + [Uint8((cp & 0x3f) | 0x80)];
    } else if cp < 0x10000 {
      result := result + [Uint8((cp >> 12) | 0xe0)];
      result := result + [Uint8(((cp >> 6) & 0x3f) | 0x80)];
      result := result + [Uint8((cp & 0x3f) | 0x80)];
    } else {
      result := result + [Uint8((cp >> 18) | 0xf0)];
      result := result + [Uint8(((cp >> 12) & 0x3f) | 0x80)];
      result := result + [Uint8(((cp >> 6) & 0x3f) | 0x80)];
      result := result + [Uint8((cp & 0x3f) | 0x80)];
    }
  }

  /** The bits that reach the octets. */
  function Kept(cp: bv32): bv32 {
    if cp < 0x10000 then cp else Low22(cp)
  }

  /** They are still the bits of a scalar value, in a sequence of the right length. */
  predicate KeepsScalar(cp: bv32) {
    IsScalarValue(Kept(cp)) && (cp < 0x10000 <==> Kept(cp) < 0x10000)
  }

  lemma ThreeOctets(cp: bv32)
    requires 0x800 <= cp < 0x10000
    ensures
      var a, b, c := Fill(0xE0, 0x0f, cp >> 12), Fill(0x80, 0x3f, cp >> 6), Fill(0x80, 0x3f, cp);
      SequenceLength(a) == 3 && (Char3(a, b, c) <==> KeepsScalar(cp))
  {}

  function Lead(cp: bv32): Octet {
    if cp <= 0x1FFFFF then Fill(0xF0, 0x07, cp >> 18) else Uint8((cp >> 18) | 0xf0)
  }

  function Second(cp: bv32): Octet {
    Fill(0x80, 0x3f, cp >> 12)
  }

  function Third(cp: bv32): Octet {
    Fill(0x80, 0x3f, cp >> 6)
  }

  function Fourth(cp: bv32): Octet {
    Fill(0x80, 0x3f, cp)
  }

  lemma LeadLength(cp: bv32)
    requires 0x10000 <= cp
    ensures SequenceLength(Lead(cp)) == 4 || SequenceLength(Lead(cp)) == 0
  {}

  function Low22(cp: bv32): bv32 {
    cp & 0x3FFFFF
  }

  lemma LeadByLowBits(cp: bv32)
    requires 0x10000 <= cp && Low22(cp) <= 0x10FFFF
    ensures Lead(cp) == Lead(Low22(cp))
  {}

  lemma RestByLowBits(cp: bv32)
    ensures Second(cp) == Second(Low22(cp)) && Third(cp) == Third(Low22(cp)) && Fourth(cp) == Fourth(Low22(cp))
  {}

  lemma FourAreChar(cp: bv32)
    requires 0x10000 <= cp
    ensures Char4(Lead(cp), Second(cp), Third(cp), Fourth(cp)) <==> 0x10000 <= Low22(cp) <= 0x10FFFF
  {}

  lemma BitsInRange(v: bv32)
    requires 0x10000 <= v <= 0x10FFFF
    ensures Bits4(Lead(v), Second(v), Third(v), Fourth(v)) == v
  {
    Fill4(v);
    hide Bits4, Fill;
  }

  lemma FourKeepBits(cp: bv32)
    requires 0x10000 <= cp && 0x10000 <= Low22(cp) <= 0x10FFFF
    ensures Bits4(Lead(cp), Second(cp), Third(cp), Fourth(cp)) == Low22(cp)
  {
    hide Bits4, Low22, Lead, Second, Third, Fourth;
    LeadByLowBits(cp);
    RestByLowBits(cp);
    BitsInRange(Low22(cp));
  }

  lemma FourOctets(cp: bv32)
    requires 0x10000 <= cp
    ensures
      var a, b, c, d := Lead(cp), Second(cp), Third(cp), Fourth(cp);
      && (SequenceLength(a) == 4 || SequenceLength(a) == 0)
      && (Char4(a, b, c, d) <==> KeepsScalar(cp))
      && (Char4(a, b, c, d) ==> Bits4(a, b, c, d) == Kept(cp))
  {
    hide SequenceLength, Char4, Lead, Second, Third, Fourth, Bits4, Low22;
    LeadLength(cp);
    FourAreChar(cp);
    if KeepsScalar(cp) {
      FourKeepBits(cp);
    }
  }

  lemma FourOctetsAre(cp: bv32)
    requires 0x10000 <= cp
    ensures Octets(cp) == [Lead(cp), Second(cp), Third(cp), Fourth(cp)]
  {
    hide Fill, Uint8;
  }

  lemma FrontOfThree(a: Octet, b: Octet, c: Octet)
    requires SequenceLength(a) == 3
    ensures FrontChar([a, b, c]) == if Char3(a, b, c) then 3 else 0
  {
    hide SequenceLength, FrontChar, TrailError, Char1, Char2, Char4;
    FrontByLead([a, b, c]);
    assert [a, b, c][..3] == [a, b, c];
    CompleteIff([a, b, c], 3);
  }

  lemma FrontOfFour(a: Octet, b: Octet, c: Octet, d: Octet)
    requires SequenceLength(a) == 4 || SequenceLength(a) == 0
    ensures FrontChar([a, b, c, d]) == if SequenceLength(a) == 4 && Char4(a, b, c, d) then 4 else 0
    ensures Char4(a, b, c, d) ==> SequenceLength(a) == 4
    ensures Payload([a, b, c, d]) == Bits4(a, b, c, d)
  {
    LeadOfFour(a, b, c, d);
    hide SequenceLength, FrontChar, TrailError, Char1, Char2, Char3;
    FrontByLead([a, b, c, d]);
    assert [a, b, c, d][..4] == [a, b, c, d];
    CompleteIff([a, b, c, d], 4);
  }

  lemma LeadOfFour(a: Octet, b: Octet, c: Octet, d: Octet)
    ensures Char4(a, b, c, d) ==> SequenceLength(a) == 4
  {}

  /** The whole is a character, or no character stands at its front. */
  lemma FrontOfOctets(cp: bv32)
    ensures Octets(cp) != [] && FrontChar(Octets(cp)) == if KeepsScalar(cp) then |Octets(cp)| else 0
    ensures KeepsScalar(cp) ==> 1 <= |Octets(cp)| <= 4 && Payload(Octets(cp)) == Kept(cp)
  {
    if cp >= 0x10000 {
      hide Octets, FrontChar, SequenceLength, Lead, Second, Third, Fourth, Kept, KeepsScalar, Payload, Bits4, Char4;
      FourOctetsAre(cp);
      FourOctets(cp);
      FrontOfFour(Lead(cp), Second(cp), Third(cp), Fourth(cp));
    } else if IsScalarValue(cp) {
      hide Encode, FrontChar, Payload, IsChar;
      EncodeIsChar(cp);
      CharIsText(Encode(cp));
    } else {
      hide SequenceLength, FrontChar, Fill, Payload;
      ThreeOctets(cp);
      FrontOfThree(Fill(0xE0, 0x0f, cp >> 12), Fill(0x80, 0x3f, cp >> 6), Fill(0x80, 0x3f, cp));
    }
  }

  /** A text comes out exactly for the scalar values and, because only 22 bits are kept, for the
      larger values that end in the bits of one above FFFF; then it is the character of those bits. */
  lemma TextIffKeptScalar(cp: bv32)
    ensures IsText(Octets(cp)) <==> KeepsScalar(cp)
    ensures IsText(Octets(cp)) ==> CodePoints(Octets(cp)) == [Kept(cp)]
  {
    hide Octets, Kept, KeepsScalar, IsChar, Payload, FrontChar, CodePoints, IsText;
    var s := Octets(cp);
    FrontOfOctets(cp);
    TextFront(s);
    assert s[..|s|] == s && s[|s|..] == [];
    if FrontChar(s) > 0 {
      CharIsText(s);
      OneChar(s);
    }
  }

  lemma OneReadsBack(cp: bv32)
    requires cp < 0x80
    ensures var a := Fill(0x00, 0x7f, cp); a as bv32 == cp && SequenceLength(a) == 1
  {}

  lemma TwoReadBack(cp: bv32)
    requires 0x80 <= cp < 0x800
    ensures var a, b := Fill(0xC0, 0x1f, cp >> 6), Fill(0x80, 0x3f, cp); SequenceLength(a) == 2 && Bits2(a, b) == cp
  {}

  lemma ThreeReadBack(cp: bv32)
    requires 0x800 <= cp < 0x10000
    ensures
      var a, b, c := Fill(0xE0, 0x0f, cp >> 12), Fill(0x80, 0x3f, cp >> 6), Fill(0x80, 0x3f, cp);
      SequenceLength(a) == 3 && Bits3(a, b, c) == cp
  {}

  function Low21(cp: bv32): bv32 {
    cp & 0x1FFFFF
  }

  lemma LeadReadsBack(cp: bv32)
    requires 0x10000 <= cp
    ensures (Lead(cp) & 0x07) as bv32 << 18 == cp & 0x1C0000
    ensures cp <= 0x1FFFFF ==> SequenceLength(Lead(cp)) == 4 && Low21(cp) == cp
  {}

  lemma RestReadsBack(cp: bv32)
    ensures (Second(cp) & 0x3f) as bv32 << 12 == cp & 0x3F000
    ensures (Third(cp) & 0x3f) as bv32 << 6 == cp & 0xFC0
    ensures (Fourth(cp) & 0x3f) as bv32 == cp & 0x3F
  {}

  lemma BitsJoin(cp: bv32)
    ensures (cp & 0x1C0000) | (cp & 0x3F000) | (cp & 0xFC0) | (cp & 0x3F) == Low21(cp)
  {}

  lemma FourReadBack(cp: bv32)
    requires 0x10000 <= cp
    ensures Bits4(Lead(cp), Second(cp), Third(cp), Fourth(cp)) == Low21(cp)
    ensures cp <= 0x1FFFFF ==> SequenceLength(Lead(cp)) == 4 && Low21(cp) == cp
  {
    hide Lead, Second, Third, Fourth, Low21, SequenceLength;
    LeadReadsBack(cp);
    RestReadsBack(cp);
    BitsJoin(cp);
  }

  /** Whatever is appended can be read back without checks, surrogates included, as far as 21 bits
      hold it: the octets carry these bits, and up to 1FFFFF the first one announces their number. */
  lemma NextUndoesAppend(cp: bv32)
    ensures 1 <= |Octets(cp)| <= 4 && Payload(Octets(cp)) == if cp < 0x10000 then cp else Low21(cp)
    ensures cp <= 0x1FFFFF ==> SequenceLength(Octets(cp)[0]) == |Octets(cp)| && Payload(Octets(cp)) == cp
  {
    if cp < 0x80 {
      OneReadsBack(cp);
      hide Fill, SequenceLength;
    } else if cp < 0x800 {
      TwoReadBack(cp);
      hide Fill, SequenceLength, Bits2;
    } else if cp < 0x10000 {
      ThreeReadBack(cp);
      hide Fill, SequenceLength, Bits3;
    } else {
      FourOctetsAre(cp);
      FourReadBack(cp);
      hide Octets, Lead, Second, Third, Fourth, Bits4, SequenceLength, Low21;
    }
  }

  /** Octets that next steps over, going by the lead octet alone. */
  function Step(lead: Octet): (n: nat)
    ensures 1 <= n <= 4
  {
    if SequenceLength(lead) == 0 then 1 else SequenceLength(lead)
  }

  /** core.h, mask8: an octet widened. */
  function Mask8(o: Octet): bv32 {
    o as bv32
  }

  // The assignments to the code point, one function each.

  function Two(cp: bv32, o: Octet): bv32 {
    ((cp << 6) & 0x7ff) + (o as bv32 & 0x3f)
  }

  function FirstOfThree(cp: bv32, o: Octet): bv32 {
    ((cp << 12) & 0xffff) + ((o as bv32 << 6) & 0xfff)
  }

  function FirstOfFour(cp: bv32, o: Octet): bv32 {
    ((cp << 18) & 0x1fffff) + ((o as bv32 << 12) & 0x3ffff)
  }

  function AndThird(cp: bv32, o: Octet): bv32 {
    cp + ((o as bv32 << 6) & 0xfff)
  }

  function AndLast(cp: bv32, o: Octet): bv32 {
    cp + (o as bv32 & 0x3f)
  }

  lemma PiecesAdd2(a: Octet, b: Octet)
    ensures Two(Mask8(a), b) == Bits2(a, b)
  {
    Sum2(a, b);
  }

  lemma PiecesAdd3(a: Octet, b: Octet, c: Octet)
    ensures AndLast(FirstOfThree(Mask8(a), b), c) == Bits3(a, b, c)
  {
    Sum3(a, b, c);
  }

  lemma PiecesAdd4(a: Octet, b: Octet, c: Octet, d: Octet)
    ensures AndLast(AndThird(FirstOfFour(Mask8(a), b), c), d) == Bits4(a, b, c, d)
  {
    Sum4(a, b, c, d);
  }

  method Next(s: seq<Octet>, it0: nat) returns (cp: bv32, it: nat)
    requires it0 < |s| && it0 + Step(s[it0]) <= |s|
    ensures it == it0 + Step(s[it0])
    ensures cp == Payload(s[it0..it])
  {
    hide SequenceLength, Payload, Bits2, Bits3, Bits4, Mask8, Two, FirstOfThree, FirstOfFour, AndThird, AndLast;
    PayloadAt(s, it0, Step(s[it0]));
    it := it0;
    cp := Mask8(s[it]);
    var length := SequenceLength(s[it]);
    match length {
      case 2 =>
        it := it + 1;
        cp := Two(cp, s[it]);
        PiecesAdd2(s[it0], s[it]);
      case 3 =>
        it := it + 1;
        cp := FirstOfThree(cp, s[it]);
        it := it + 1;
        cp := AndLast(cp, s[it]);
        PiecesAdd3(s[it0], s[it0 + 1], s[it]);
      case 4 =>
        it := it + 1;
        cp := FirstOfFour(cp, s[it]);
        it := it + 1;
        cp := AndThird(cp, s[it]);
        it := it + 1;
        cp := AndLast(cp, s[it]);
        PiecesAdd4(s[it0], s[it0 + 1], s[it0 + 2], s[it]);
      case _ =>
    }
    it := it + 1;
  }

  lemma PayloadAt(s: seq<Octet>, i: nat, n: nat)
    requires 1 <= n <= 4 && i + n <= |s|
    ensures
      Payload(s[i..i + n]) ==
      if n == 1 then Mask8(s[i])
      else if n == 2 then Bits2(s[i], s[i + 1])
      else if n == 3 then Bits3(s[i], s[i + 1], s[i + 2])
      else Bits4(s[i], s[i + 1], s[i + 2], s[i + 3])
  {
    hide Bits2, Bits3, Bits4;
  }

  /** Where a character starts, the step by the lead octet is the checked step and reads the
      checked code point. */
  lemma StepIsFront(s: seq<Octet>, it: nat, end: nat)
    requires it < end <= |s| && FrontChar(s[it..end]) > 0
    ensures Step(s[it]) == FrontChar(s[it..end]) && it + Step(s[it]) <= end
    ensures NextOutcome(s[it..end]) == Returned(Payload(s[it..it + Step(s[it])]))
  {
    hide SequenceLength, IsChar, Payload;
    FrontByLead(s[it..end]);
    assert s[it..end][..Step(s[it])] == s[it..it + Step(s[it])];
  }

  method PeekNext(s: seq<Octet>, it: nat) returns (cp: bv32)
    requires it < |s| && it + Step(s[it]) <= |s|
    ensures cp == Payload(s[it..it + Step(s[it])])
  {
    var ignored;
    cp, ignored := Next(s, it);
  }

  /** There has to be a lead octet in front of the iterator, with its sequence in bounds. */
  method Prior(s: seq<Octet>, it0: nat) returns (cp: bv32, it: nat)
    requires it0 <= |s|
    requires var j := LastLead(s[..it0]); j >= 0 && j + Step(s[j]) <= |s|
    ensures it == LastLead(s[..it0])
    ensures cp == Payload(s[it..it + Step(s[it])])
  {
    hide IsTail, Step;
    ghost var j := LastLead(s[..it0]);
    it := it0 - 1;
    while IsTrail(s[it])
      invariant j <= it < it0
      decreases it
    {
      assert s[it] == s[..it0][it];
      it := it - 1;
    }
    assert s[it] == s[..it0][it];
    cp := PeekNext(s, it);
  }

  /** From a boundary of a text, the unchecked step back is the checked one. */
  lemma PriorIsChecked(s: seq<Octet>, q: nat)
    requires IsText(s) && 0 < q <= |s| && IsText(s[..q])
    ensures
      var p := LastLead(s[..q]);
      && p >= 0 && p + Step(s[p]) == q
      && NextOutcome(s[p..q]) == Returned(Payload(s[p..p + Step(s[p])]))
  {
    hide *;
    NextUndoesPrior(s, q);
    var p := LastLead(s[..q]);
    PriorUndoesNext(s, p);
    assert s[p..|s|] == s[p..];
    ReturnedIffFront(s[p..]);
    StepIsFront(s, p, |s|);
  }

  lemma FrontOfRest(t: seq<Octet>, k: nat, cps: seq<bv32>)
    requires IsText(t) && ReadUpTo(t, k, cps) && k < |t|
    ensures FrontChar(t[k..]) > 0
  {
    hide *;
    ReadRest(t, k, cps);
    TextFront(t[k..]);
  }

  method Advance(s: seq<Octet>, it0: nat, n: int, ghost end: nat) returns (it: nat)
    requires it0 <= end <= |s| && IsText(s[it0..end]) && n <= |CodePoints(s[it0..end])|
    ensures it0 <= it <= end
    ensures n <= 0 ==> it == it0
    ensures n > 0 ==> IsText(s[it0..it]) && CodePoints(s[it0..it]) == CodePoints(s[it0..end])[..n]
  {
    hide *;
    it := it0;
    ghost var t := s[it0..end];
    ghost var cps: seq<bv32> := [];
    ReadNothing(t);
    var i := 0;
    while i < n
      invariant it0 <= it <= end && 0 <= i <= (if n < 0 then 0 else n) && (i == 0 ==> it == it0)
      invariant ReadUpTo(t, it - it0, cps) && |cps| == i
    {
      if it == end { ReadDone(t, cps); }
      assert s[it..end] == t[it - it0..];
      FrontOfRest(t, it - it0, cps);
      ReadOn(t, it - it0, cps);
      StepIsFront(s, it, end);
      var cp, next := Next(s, it);
      cps := cps + [cp];
      it := next;
      i := i + 1;
    }
    ReadRest(t, it - it0, cps);
    ReadSoFar(t, it - it0, cps);
    assert t[..it - it0] == s[it0..it];
  }

  lemma ReadSoFar(t: seq<Octet>, k: nat, cps: seq<bv32>)
    requires ReadUpTo(t, k, cps)
    ensures IsText(t[..k]) && CodePoints(t[..k]) == cps
  {
    hide IsText, CodePoints;
  }

  method Distance(s: seq<Octet>, first0: nat, last: nat) returns (dist: nat)
    requires first0 <= last <= |s| && IsText(s[first0..last])
    ensures dist == |CodePoints(s[first0..last])|
  {
    hide *;
    var first := first0;
    ghost var t := s[first0..last];
    ghost var cps: seq<bv32> := [];
    ReadNothing(t);
    dist := 0;
    while first < last
      invariant first0 <= first <= last
      invariant ReadUpTo(t, first - first0, cps) && |cps| == dist
      decreases last - first
    {
      assert s[first..last] == t[first - first0..];
      FrontOfRest(t, first - first0, cps);
      ReadOn(t, first - first0, cps);
      StepIsFront(s, first, last);
      var cp, next := Next(s, first);
      cps := cps + [cp];
      first := next;
      dist := dist + 1;
    }
    ReadDone(t, cps);
  }

  method Utf8To32(s: seq<Octet>, start0: nat, end: nat, result0: seq<bv32>) returns (result: seq<bv32>)
    requires start0 <= end <= |s| && IsText(s[start0..end])
    ensures result == result0 + CodePoints(s[start0..end])
  {
    hide *;
    var start := start0;
    ghost var t := s[start0..end];
    ghost var cps: seq<bv32> := [];
    ReadNothing(t);
    result := result0;
    while start < end
      invariant start0 <= start <= end
      invariant ReadUpTo(t, start - start0, cps) && result == result0 + cps
      decreases end - start
    {
      assert s[start..end] == t[start - start0..];
      FrontOfRest(t, start - start0, cps);
      ReadOn(t, start - start0, cps);
      StepIsFront(s, start, end);
      var cp, next := Next(s, start);
      cps := cps + [cp];
      result := result + [cp];
      start := next;
    }
    ReadDone(t, cps);
  }

  method Utf32To8(cps: seq<bv32>, start0: nat, end: nat, result0: seq<Octet>) returns (result: seq<Octet>)
    requires start0 <= end <= |cps| && AllScalar(cps[start0..end])
    ensures result == result0 + EncodeAll(cps[start0..end])
  {
    hide Encode, EncodeAll, IsScalarValue;
    var start := start0;
    result := result0;
    ghost var t := cps[start0..end];
    WriteNothing(t);
    while start != end
      invariant start0 <= start <= end
      invariant result == result0 + EncodeAll(t[..start - start0])
      decreases end - start
    {
      WriteStep(t, start - start0);
      assert IsScalarValue(t[start - start0]);
      result := Append(cps[start], result);
      start := start + 1;
    }
    assert t[..|t|] == t;
  }

  method Utf8To16(s: seq<Octet>, start0: nat, end: nat, result0: seq<Word>) returns (result: seq<Word>)
    requires start0 <= end <= |s| && IsText(s[start0..end])
    ensures result == result0 + EncodeAll16(CodePoints(s[start0..end]))
  {
    hide *;
    var start := start0;
    result := result0;
    ghost var t := s[start0..end];
    ghost var cps: seq<bv32> := [];
    ReadNothing(t);
    EncodeAll16Empty();
    while start < end
      invariant start0 <= start <= end
      invariant ReadUpTo(t, start - start0, cps)
      invariant result == result0 + EncodeAll16(cps)
      decreases end - start
    {
      assert s[start..end] == t[start - start0..];
      FrontOfRest(t, start - start0, cps);
      ReadOn(t, start - start0, cps);
      StepIsFront(s, start, end);
      ReadIsScalar(s[start..end]);
      var cp, next := Next(s, start);
      SplitByOffset(cp);
      EncodeAll16Snoc(cps, cp);
      Split16(cp);
      if cp > 0xffff {
        result := result + [Uint16((cp >> 10) + LEAD_OFFSET)];
        result := result + [Uint16((cp & 0x3ff) + TRAIL_SURROGATE_MIN)];
      } else {
        result := result + [Uint16(cp)];
      }
      cps := cps + [cp];
      start := next;
    }
    ReadDone(t, cps);
  }

  method Utf16To8(w: seq<Word>, start0: nat, end: nat, result0: seq<Octet>) returns (result: seq<Octet>)
    requires start0 <= end <= |w| && IsText16(w[start0..end])
    ensures result == result0 + EncodeAll(CodePoints16(w[start0..end]))
  {
    hide *;
    var start := start0;
    result := result0;
    ghost var t := w[start0..end];
    ghost var cps: seq<bv32> := [];
    ReadNothing16(t);
    EncodeAllEmpty();
    while start != end
      invariant start0 <= start <= end
      invariant ReadUpTo16(t, start - start0, cps)
      invariant result == result0 + EncodeAll(cps)
      decreases end - start
    {
      ghost var u := w[start..end];
      assert u == t[start - start0..];
      FrontOfRest16(t, start - start0, cps);
      Verdict(u);
      ReadOn16(t, start - start0, cps);
      UnitIsEncoding(u[..FrontUnit(u)]);
      var cp := Mask16(w[start]);
      start := start + 1;
      if IsLeadSurrogate(cp) {
        var trailSurrogate := Mask16(w[start]);
        start := start + 1;
        cp := Combined(cp, trailSurrogate);
      }
      result := Append(cp, result);
      EncodeAllConcat(cps, [cp]);
      EncodeAllOne(cp);
      cps := cps + [cp];
    }
    ReadStop16(t, end - start0, cps);
  }

  lemma FrontOfRest16(t: seq<Word>, k: nat, cps: seq<bv32>)
    requires IsText16(t) && ReadUpTo16(t, k, cps) && k < |t|
    ensures FrontUnit(t[k..]) > 0
  {
    hide *;
    ReadRest16(t, k, cps);
    Text16Front(t[k..]);
  }
}
