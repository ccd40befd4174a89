/** What the generators of lib/crc.c leave in a table, for any polynomial and any initial
    register, and when that is the table of the polynomial. */
module CrcGenerators {

  import opened Gf2
  import opened CrcEngine
  import opened Crc
  import SR = ShiftRegister

  function Flip(i: bv8): bv8 {
    i ^ 0xff
  }

  /** The register after the eight bits of the flipped index, from the initial register `s`. */
  function Raw(p: bv32, s: bv32, i: bv8): bv32 {
    Steps(p, Add(s, AtTop(Flip(i))), 8)
  }

  // ------------------------------------------------------------- the inner loop, bit by bit

  /** Bit `j` of an octet, from the highest. */
  predicate MaskedBit(nb: bv8, j: nat)
    requires j < 8
  {
    nb & (0x80 >> j) != 0
  }

  /** The next bit of the flipped index is the highest one left after `j` shifts. */
  lemma HighIsMaskedBit(nb: bv8, j: nat)
    requires j < 8
    ensures High(ShiftBy(AtTop(nb), j)) == MaskedBit(nb, j)
  {
    hide Shl, High, AtTop, MaskedBit;
    MaskedBits(nb);
    Shifts(AtTop(nb));
    assert j == 0 || j == 1 || j == 2 || j == 3 || j == 4 || j == 5 || j == 6 || j == 7;
  }

  lemma Shifts(x: bv32)
    ensures
      var x1 := Shl(x); var x2 := Shl(x1); var x3 := Shl(x2);
      var x4 := Shl(x3); var x5 := Shl(x4); var x6 := Shl(x5); var x7 := Shl(x6);
      && ShiftBy(x, 0) == x && ShiftBy(x, 1) == x1 && ShiftBy(x, 2) == x2 && ShiftBy(x, 3) == x3
      && ShiftBy(x, 4) == x4 && ShiftBy(x, 5) == x5 && ShiftBy(x, 6) == x6 && ShiftBy(x, 7) == x7
  {
    hide Shl;
    BitsExtend(x, 0);
    BitsExtend(x, 1);
    BitsExtend(x, 2);
    BitsExtend(x, 3);
    BitsExtend(x, 4);
    BitsExtend(x, 5);
    BitsExtend(x, 6);
  }

  lemma MaskedBits(nb: bv8)
    ensures
      var x := AtTop(nb); var x1 := Shl(x); var x2 := Shl(x1); var x3 := Shl(x2);
      var x4 := Shl(x3); var x5 := Shl(x4); var x6 := Shl(x5); var x7 := Shl(x6);
      && High(x) == MaskedBit(nb, 0) && High(x1) == MaskedBit(nb, 1)
      && High(x2) == MaskedBit(nb, 2) && High(x3) == MaskedBit(nb, 3)
      && High(x4) == MaskedBit(nb, 4) && High(x5) == MaskedBit(nb, 5)
      && High(x6) == MaskedBit(nb, 6) && High(x7) == MaskedBit(nb, 7)
  {}

  lemma {:induction false} StepsExtend(p: bv32, x: bv32, n: nat)
    ensures Steps(p, x, n + 1) == Step(p, Steps(p, x, n))
    decreases n
  {
    hide Step;
    if n > 0 {
      StepsExtend(p, Step(p, x), n - 1);
    }
  }

  /** One step of a register whose incoming bits are still to be added to it. */
  lemma StepWithBit(p: bv32, x: bv32, rest: bv32)
    ensures Step(p, Add(x, rest)) == Add(Add(Shl(x), if High(x) != High(rest) then p else 0), Shl(rest))
  {
    hide Shl, High, Add;
    ShlOfSum(x, rest);
    HighOfSum(x, rest);
    var c := if High(x) != High(rest) then p else 0;
    AddLaws(Shl(x), Shl(rest), c);
    AddCommutes(Shl(rest), c);
    AddLaws(Shl(x), c, Shl(rest));
  }

  /** The loop's invariant is kept by any word that took one step with the next bit. */
  lemma SerialStep(p: bv32, s: bv32, x: bv32, x': bv32, nb: bv8, j: nat)
    requires j < 8
    requires Steps(p, Add(s, AtTop(nb)), j) == Add(x, ShiftBy(AtTop(nb), j))
    requires x' == Add(Shl(x), if High(x) != MaskedBit(nb, j) then p else 0)
    ensures Steps(p, Add(s, AtTop(nb)), j + 1) == Add(x', ShiftBy(AtTop(nb), j + 1))
  {
    hide Steps, Step, Shl, High, Add, AtTop, ShiftBy, MaskedBit;
    StepsExtend(p, Add(s, AtTop(nb)), j);
    HighIsMaskedBit(nb, j);
    StepWithBit(p, x, ShiftBy(AtTop(nb), j));
    BitsExtend(AtTop(nb), j);
  }

  lemma SerialDone(p: bv32, s: bv32, x: bv32, nb: bv8)
    requires Steps(p, Add(s, AtTop(nb)), 8) == Add(x, ShiftBy(AtTop(nb), 8))
    ensures x == Steps(p, Add(s, AtTop(nb)), 8)
  {
    hide Steps, Shl, AtTop, Add;
    OctetIsAligned(nb);
    AddZero(x);
  }

  lemma SerialStart(x: bv32, p: bv32, nb: bv8)
    ensures Steps(p, Add(x, AtTop(nb)), 0) == Add(x, ShiftBy(AtTop(nb), 0))
  {}

  // ----------------------------------------------------------------- entries of the tables

  const CORRECTION16: bv32 := 0xff00_0000
  const CORRECTION32: bv32 := 0xffff_ff00

  ghost predicate IsGenerated8(tab: seq<bv8>, code: bv8, init: bv8) {
    |tab| == 256 && forall i: bv8 :: Top8(tab[i as int]) == Raw(Top8(code), Top8(init), i)
  }

  ghost predicate IsGenerated16(tab: seq<bv16>, code: bv16, init: bv16) {
    |tab| == 256 && forall i: bv8 :: Top16(tab[i as int]) == Add(Raw(Top16(code), Top16(init), i), CORRECTION16)
  }

  ghost predicate IsGenerated32(tab: seq<bv32>, code: bv32, init: bv32) {
    |tab| == 256 && forall i: bv8 :: tab[i as int] == Add(Raw(code, init, i), CORRECTION32)
  }

  /** Ones above the highest octet survive eight steps unchanged, and the rest is the entry. */
  lemma RawOfOnes(p: bv32, ones: bv32, rest: bv32, i: bv8)
    requires ones == Add(AtTop(0xff), rest) && rest & 0xff00_0000 == 0
    ensures Raw(p, ones, i) == Add(Entry(p, i), Shl8(rest))
  {
    hide Steps, Shl8;
    FlipTwice(i);
    FeedSplit(p, ones, 0xff, rest, Flip(i));
  }

  lemma FlipTwice(i: bv8)
    ensures 0xff ^ Flip(i) == i
  {}

  lemma OnesSplit()
    ensures Top8(0xff) == Add(AtTop(0xff), 0) && Shl8(0) == 0
    ensures Top16(0xffff) == Add(AtTop(0xff), 0x00ff_0000) && Shl8(0x00ff_0000) == CORRECTION16
    ensures 0xffff_ffff == Add(AtTop(0xff), 0x00ff_ffff) && Shl8(0x00ff_ffff) == CORRECTION32
  {}

  lemma AddCancels(x: bv32, y: bv32, c: bv32)
    ensures Add(Add(x, c), c) == x
    ensures Add(x, c) == Add(y, c) <==> x == y
  {}

  /** With a polynomial whose constant term is one, steps lose nothing. */
  lemma StepsInjective(p: bv32, x: bv32, y: bv32, w: nat, n: nat)
    requires w > 0 && Aligned(p, w) && Aligned(x, w) && Aligned(y, w) && SR.Odd(TopBits(p, w))
    ensures Steps(p, x, n) == Steps(p, y, n) <==> x == y
  {
    hide Steps, TopBits, ShiftBy;
    if Steps(p, x, n) == Steps(p, y, n) {
      StepsAreBitSteps(p, x, w, n);
      StepsAreBitSteps(p, y, w, n);
      SR.RunInjective(TopBits(p, w), TopBits(x, w), TopBits(y, w), Zeros(n));
      BitsInjective(x, y, w);
    }
  }

  /** For such a polynomial the initial register shows in every entry. */
  lemma RawInjective(p: bv32, s: bv32, t: bv32, i: bv8, w: nat)
    requires w >= 8 && Aligned(p, w) && Aligned(s, w) && Aligned(t, w) && SR.Odd(TopBits(p, w))
    ensures Raw(p, s, i) == Raw(p, t, i) <==> s == t
  {
    hide Steps, TopBits, ShiftBy, Add, AtTop, SR.Odd;
    var top := AtTop(Flip(i));
    OctetAtTop(Flip(i), w);
    BitsOfSum(s, top, w);
    BitsOfSum(t, top, w);
    ZeroFacts(0);
    StepsInjective(p, Add(s, top), Add(t, top), w, 8);
    AddCancels(s, t, top);
  }

  /** Run with an all-ones initial register, the generators make the tables of any polynomial:
      flipped index, ones and correction cancel. */
  lemma OnesGenerateTables(t8: seq<bv8>, c8: bv8, t16: seq<bv16>, c16: bv16, t32: seq<bv32>, c32: bv32)
    ensures IsGenerated8(t8, c8, 0xff) ==> IsTable8(t8, c8)
    ensures IsGenerated16(t16, c16, 0xffff) ==> IsTable16(t16, c16)
    ensures IsGenerated32(t32, c32, 0xffff_ffff) ==> IsTable32(t32, c32)
  {
    hide Raw, Entry, Add, AtTop, Shl8, Top8, Top16;
    OnesSplit();
    forall i: bv8
      ensures Raw(Top8(c8), Top8(0xff), i) == Entry(Top8(c8), i)
      ensures Add(Raw(Top16(c16), Top16(0xffff), i), CORRECTION16) == Entry(Top16(c16), i)
      ensures Add(Raw(c32, 0xffff_ffff, i), CORRECTION32) == Entry(c32, i)
    {
      RawOfOnes(Top8(c8), Top8(0xff), 0, i);
      AddZero(Entry(Top8(c8), i));
      RawOfOnes(Top16(c16), Top16(0xffff), 0x00ff_0000, i);
      AddCancels(Entry(Top16(c16), i), 0, CORRECTION16);
      RawOfOnes(c32, 0xffff_ffff, 0x00ff_ffff, i);
      AddCancels(Entry(c32, i), 0, CORRECTION32);
    }
  }

  /** For a polynomial with constant term one the all-ones register is the only one that does. */
  lemma Generated8IffOnes(tab: seq<bv8>, code: bv8, init: bv8)
    requires IsGenerated8(tab, code, init) && SR.Odd(Bits8(code))
    ensures IsTable8(tab, code) <==> init == 0xff
  {
    hide Raw, Entry, Add, AtTop, Shl8, Top8, SR.Odd, TopBits, ShiftBy;
    OnesGenerateTables(tab, code, [], 0, [], 0);
    if IsTable8(tab, code) {
      OnesSplit();
      RawOfOnes(Top8(code), Top8(0xff), 0, 0);
      AddZero(Entry(Top8(code), 0));
      assert Top8(tab[(0 as bv8) as int]) == Entry(Top8(code), 0) == Raw(Top8(code), Top8(init), 0);
      TopsAligned(code, 0, 0);
      TopsAligned(init, 0, 0);
      TopsAligned(0xff, 0, 0);
      RawInjective(Top8(code), Top8(init), Top8(0xff), 0, 8);
      TopsInjective(init, 0xff, 0, 0);
    }
  }

  lemma Generated16IffOnes(tab: seq<bv16>, code: bv16, init: bv16)
    requires IsGenerated16(tab, code, init) && SR.Odd(Bits16(code))
    ensures IsTable16(tab, code) <==> init == 0xffff
  {
    hide Raw, Entry, Add, AtTop, Shl8, Top16, SR.Odd, TopBits, ShiftBy;
    OnesGenerateTables([], 0, tab, code, [], 0);
    if IsTable16(tab, code) {
      OnesSplit();
      var e := Entry(Top16(code), 0);
      RawOfOnes(Top16(code), Top16(0xffff), 0x00ff_0000, 0);
      assert Top16(tab[(0 as bv8) as int]) == e == Add(Raw(Top16(code), Top16(init), 0), CORRECTION16);
      AddCancels(Raw(Top16(code), Top16(init), 0), 0, CORRECTION16);
      TopsAligned(0, code, 0);
      TopsAligned(0, init, 0);
      TopsAligned(0, 0xffff, 0);
      RawInjective(Top16(code), Top16(init), Top16(0xffff), 0, 16);
      TopsInjective(0, 0, init, 0xffff);
    }
  }

  lemma Generated32IffOnes(tab: seq<bv32>, code: bv32, init: bv32)
    requires IsGenerated32(tab, code, init) && SR.Odd(Bits32(code))
    ensures IsTable32(tab, code) <==> init == 0xffff_ffff
  {
    hide Raw, Entry, Add, AtTop, Shl8, SR.Odd, TopBits, ShiftBy;
    OnesGenerateTables([], 0, [], 0, tab, code);
    if IsTable32(tab, code) {
      OnesSplit();
      var e := Entry(code, 0);
      RawOfOnes(code, 0xffff_ffff, 0x00ff_ffff, 0);
      assert tab[(0 as bv8) as int] == e == Add(Raw(code, init, 0), CORRECTION32);
      AddCancels(Raw(code, init, 0), 0, CORRECTION32);
      TopsAligned(0, 0, code);
      TopsAligned(0, 0, init);
      TopsAligned(0, 0, 0xffff_ffff);
      RawInjective(code, init, 0xffff_ffff, 0, 32);
    }
  }
}
