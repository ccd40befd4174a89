/** One engine for the three CRCs of lib/crc.c.  A register of 8, 16 or 32 bits stands in the
    highest bits of a 32-bit word, so that all three shift and take in message octets in the
    same way; its bits are those of the bit-serial register. */
module CrcEngine {

  import opened Gf2
  import SR = ShiftRegister

  function Shl(x: bv32): bv32 {
    x << 1
  }

  function High(x: bv32): bool {
    x & 0x8000_0000 != 0
  }

  function Add(x: bv32, y: bv32): bv32 {
    x ^ y
  }

  /** A message octet at the top of a word. */
  function AtTop(octet: bv8): bv32 {
    octet as bv32 << 24
  }

  /** One zero bit shifted in, with the generator polynomial `p` aligned to the top. */
  function Step(p: bv32, x: bv32): bv32 {
    Add(Shl(x), if High(x) then p else 0)
  }

  function Steps(p: bv32, x: bv32, n: nat): bv32
    decreases n
  {
    if n == 0 then x else Steps(p, Step(p, x), n - 1)
  }

  /** One message octet. */
  function Feed(p: bv32, x: bv32, octet: bv8): bv32 {
    Steps(p, Add(x, AtTop(octet)), 8)
  }

  function FeedAll(p: bv32, x: bv32, data: seq<bv8>): bv32
    decreases |data|
  {
    if data == [] then x else FeedAll(p, Feed(p, x, data[0]), data[1..])
  }

  // ------------------------------------------------------------------------------ the bits

  /** The highest `n` bits of `x`, highest first. */
  function TopBits(x: bv32, n: nat): (b: Bits)
    ensures |b| == n
    decreases n
  {
    if n == 0 then [] else [High(x)] + TopBits(Shl(x), n - 1)
  }

  function ShiftBy(x: bv32, n: nat): bv32
    decreases n
  {
    if n == 0 then x else ShiftBy(Shl(x), n - 1)
  }

  /** `x` holds nothing below its highest `n` bits. */
  predicate Aligned(x: bv32, n: nat) {
    ShiftBy(x, n) == 0
  }

  function OctetBits(octet: bv8): (b: Bits)
    ensures |b| == 8
  {
    TopBits(AtTop(octet), 8)
  }

  function MessageBits(data: seq<bv8>): (b: Bits)
    ensures |b| == 8 * |data|
  {
    if data == [] then [] else OctetBits(data[0]) + MessageBits(data[1..])
  }

  lemma ShlOfSum(x: bv32, y: bv32)
    ensures Shl(Add(x, y)) == Add(Shl(x), Shl(y))
  {}

  lemma HighOfSum(x: bv32, y: bv32)
    ensures High(Add(x, y)) == (High(x) != High(y))
  {}

  lemma ShiftLosesOnlyHigh(x: bv32, y: bv32)
    requires Shl(x) == Shl(y) && High(x) == High(y)
    ensures x == y
  {}

  lemma ZeroFacts(x: bv32)
    ensures Add(x, 0) == x && Shl(0) == 0 && High(0) == false
  {}

  lemma {:induction false} BitsOfSum(x: bv32, y: bv32, n: nat)
    ensures TopBits(Add(x, y), n) == Xor(TopBits(x, n), TopBits(y, n))
    ensures ShiftBy(Add(x, y), n) == Add(ShiftBy(x, n), ShiftBy(y, n))
    decreases n
  {
    hide Shl, High, Add;
    if n > 0 {
      BitsOfSum(Shl(x), Shl(y), n - 1);
      SumStep(x, y, n);
    }
  }

  lemma SumStep(x: bv32, y: bv32, n: nat)
    requires n > 0
    ensures TopBits(Add(x, y), n) == [High(x) != High(y)] + TopBits(Add(Shl(x), Shl(y)), n - 1)
    ensures ShiftBy(Add(x, y), n) == ShiftBy(Add(Shl(x), Shl(y)), n - 1)
  {
    hide Shl, High, Add;
    ShlOfSum(x, y);
    HighOfSum(x, y);
  }

  lemma {:induction false} BitsOfZero(n: nat)
    ensures TopBits(0, n) == Zeros(n) && Aligned(0, n)
  {
    hide Shl, High;
    ZeroFacts(0);
    if n > 0 {
      BitsOfZero(n - 1);
    }
  }

  lemma {:induction false} BitsExtend(x: bv32, n: nat)
    ensures TopBits(x, n + 1) == TopBits(x, n) + [High(ShiftBy(x, n))]
    ensures ShiftBy(x, n + 1) == Shl(ShiftBy(x, n))
    decreases n
  {
    hide Shl, High;
    if n > 0 {
      BitsExtend(Shl(x), n - 1);
    }
  }

  /** Aligned words are determined by their highest bits. */
  lemma {:induction false} BitsInjective(x: bv32, y: bv32, n: nat)
    requires Aligned(x, n) && Aligned(y, n) && TopBits(x, n) == TopBits(y, n)
    ensures x == y
    decreases n
  {
    hide Shl, High;
    if n > 0 {
      assert TopBits(x, n)[0] == TopBits(y, n)[0];
      assert TopBits(x, n)[1..] == TopBits(y, n)[1..];
      BitsInjective(Shl(x), Shl(y), n - 1);
      ShiftLosesOnlyHigh(x, y);
    }
  }

  // ---------------------------------------------------- the engine is the bit-serial register

  lemma ShiftShape(x: bv32, w: nat)
    requires w > 0 && Aligned(x, w)
    ensures TopBits(x, w)[0] == High(x)
    ensures TopBits(Shl(x), w) == TopBits(x, w)[1..] + [false]
    ensures Aligned(Shl(x), w)
  {
    hide Shl, High;
    ZeroFacts(0);
    BitsExtend(x, w);
    assert TopBits(x, w + 1)[1..] == TopBits(Shl(x), w);
    assert ShiftBy(x, w + 1) == ShiftBy(Shl(x), w);
  }

  /** A step of the engine is a step of the bit-serial register. */
  lemma StepIsBitStep(p: bv32, x: bv32, w: nat)
    requires w > 0 && Aligned(p, w) && Aligned(x, w)
    ensures TopBits(Step(p, x), w) == SR.Step(TopBits(p, w), TopBits(x, w), false)
    ensures Aligned(Step(p, x), w)
  {
    hide Shl, High, Add, TopBits, ShiftBy;
    ShiftShape(x, w);
    BitsOfZero(w);
    BitsOfSum(Shl(x), if High(x) then p else 0, w);
    XorSelf(TopBits(Shl(x), w));
    ZeroFacts(0);
  }

  lemma {:induction false} StepsAreBitSteps(p: bv32, x: bv32, w: nat, n: nat)
    requires w > 0 && Aligned(p, w) && Aligned(x, w)
    ensures TopBits(Steps(p, x, n), w) == SR.Run(TopBits(p, w), TopBits(x, w), Zeros(n))
    ensures Aligned(Steps(p, x, n), w)
    decreases n
  {
    hide Step, TopBits, ShiftBy, Aligned;
    if n > 0 {
      StepIsBitStep(p, x, w);
      StepsAreBitSteps(p, Step(p, x), w, n - 1);
      assert Zeros(n)[1..] == Zeros(n - 1);
    }
  }

  lemma {:induction false} ShiftBySum(x: bv32, m: nat, n: nat)
    ensures ShiftBy(x, m + n) == ShiftBy(ShiftBy(x, m), n)
    ensures TopBits(x, m + n) == TopBits(x, m) + TopBits(ShiftBy(x, m), n)
    decreases m
  {
    hide Shl, High;
    if m > 0 {
      ShiftBySum(Shl(x), m - 1, n);
    }
  }

  lemma OctetIsAligned(octet: bv8)
    ensures Aligned(AtTop(octet), 8)
  {
    var x := AtTop(octet);
    assert Shl(Shl(Shl(Shl(Shl(Shl(Shl(Shl(x)))))))) == 0;
    assert ShiftBy(x, 8) == ShiftBy(Shl(Shl(Shl(Shl(x)))), 4);
  }

  lemma OctetAtTop(octet: bv8, w: nat)
    requires w >= 8
    ensures TopBits(AtTop(octet), w) == OctetBits(octet) + Zeros(w - 8) && Aligned(AtTop(octet), w)
  {
    hide AtTop, Shl, High, TopBits, ShiftBy;
    OctetIsAligned(octet);
    ShiftBySum(AtTop(octet), 8, w - 8);
    BitsOfZero(w - 8);
  }

  /** Feeding an octet to the engine is feeding its eight bits to the bit-serial register. */
  lemma FeedIsRun(p: bv32, x: bv32, octet: bv8, w: nat)
    requires w >= 8 && Aligned(p, w) && Aligned(x, w)
    ensures TopBits(Feed(p, x, octet), w) == SR.Run(TopBits(p, w), TopBits(x, w), OctetBits(octet))
    ensures Aligned(Feed(p, x, octet), w)
  {
    hide Steps, TopBits, ShiftBy, Add, AtTop;
    var top := AtTop(octet);
    OctetAtTop(octet, w);
    BitsOfSum(x, top, w);
    ZeroFacts(0);
    StepsAreBitSteps(p, Add(x, top), w, 8);
    SR.RunPreloaded(TopBits(p, w), TopBits(x, w), OctetBits(octet));
  }

  /** Feeding a message, octet by octet, is feeding all its bits. */
  lemma {:induction false} FeedAllIsRun(p: bv32, x: bv32, data: seq<bv8>, w: nat)
    requires w >= 8 && Aligned(p, w) && Aligned(x, w)
    ensures TopBits(FeedAll(p, x, data), w) == SR.Run(TopBits(p, w), TopBits(x, w), MessageBits(data))
    ensures Aligned(FeedAll(p, x, data), w)
    decreases |data|
  {
    hide Feed, TopBits, ShiftBy, Aligned, OctetBits;
    if data != [] {
      var x' := Feed(p, x, data[0]);
      FeedIsRun(p, x, data[0], w);
      FeedAllIsRun(p, x', data[1..], w);
      SR.RunConcat(TopBits(p, w), TopBits(x, w), OctetBits(data[0]), MessageBits(data[1..]));
    }
  }

  lemma {:induction false} MessageBitsConcat(a: seq<bv8>, b: seq<bv8>)
    ensures MessageBits(a + b) == MessageBits(a) + MessageBits(b)
  {
    hide OctetBits;
    if a == [] {
      assert a + b == b;
    } else {
      assert (a + b)[1..] == a[1..] + b;
      MessageBitsConcat(a[1..], b);
    }
  }
}
