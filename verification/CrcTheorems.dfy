/** What the table-driven CRCs of lib/crc.c are good for: for every table of every polynomial,
    every initial register and messages of every length. */
module CrcTheorems {

  import opened Gf2
  import opened CrcEngine
  import opened Crc
  import opened CrcTables
  import opened CrcGenerators
  import SR = ShiftRegister

  // ---------------------------------------------------------------- the mathematical value

  /** The result is what reg·x^(8n) + M·x^w leaves on division by the generator, and nothing else
      is a remainder of that division. */
  lemma Crc8IsRemainder(tab: seq<bv8>, code: bv8, crc: bv8, data: seq<bv8>)
    requires IsTable8(tab, code)
    ensures
      forall r: Bits :: IsRemainder(r, SR.Dividend(Bits8(crc), MessageBits(data)), [true] + Bits8(code))
                  <==> r == Bits8(TableCrc8(tab, crc, data))
  {
    hide TableCrc8, Bits8, MessageBits, SR.Run, SR.Dividend, IsRemainder;
    Crc8IsRun(tab, code, crc, data);
    SR.RunIsRemainder(Bits8(code), Bits8(crc), MessageBits(data));
  }

  lemma Crc16IsRemainder(tab: seq<bv16>, code: bv16, crc: bv16, data: seq<bv8>)
    requires IsTable16(tab, code)
    ensures
      forall r: Bits :: IsRemainder(r, SR.Dividend(Bits16(crc), MessageBits(data)), [true] + Bits16(code))
                  <==> r == Bits16(TableCrc16(tab, crc, data))
  {
    hide TableCrc16, Bits16, MessageBits, SR.Run, SR.Dividend, IsRemainder;
    Crc16IsRun(tab, code, crc, data);
    SR.RunIsRemainder(Bits16(code), Bits16(crc), MessageBits(data));
  }

  lemma Crc32IsRemainder(tab: seq<bv32>, code: bv32, crc: bv32, data: seq<bv8>)
    requires IsTable32(tab, code)
    ensures
      forall r: Bits :: IsRemainder(r, SR.Dividend(Bits32(crc), MessageBits(data)), [true] + Bits32(code))
                  <==> r == Bits32(TableCrc32(tab, crc, data))
  {
    hide TableCrc32, Bits32, MessageBits, SR.Run, SR.Dividend, IsRemainder;
    Crc32IsRun(tab, code, crc, data);
    SR.RunIsRemainder(Bits32(code), Bits32(crc), MessageBits(data));
  }

  // ------------------------------------------------------------------------ linear structure

  /** A message may be checked in pieces, the result of one being the seed of the next. */
  lemma {:induction false} Crc8InPieces(tab: seq<bv8>, crc: bv8, a: seq<bv8>, b: seq<bv8>)
    requires |tab| == 256
    ensures TableCrc8(tab, crc, a + b) == TableCrc8(tab, TableCrc8(tab, crc, a), b)
    decreases |a|
  {
    hide Next8;
    if a == [] {
      assert a + b == b;
    } else {
      assert (a + b)[1..] == a[1..] + b;
      Crc8InPieces(tab, Next8(tab, crc, a[0]), a[1..], b);
    }
  }

  /** A message may be checked in pieces, the result of one being the seed of the next. */
  lemma {:induction false} Crc16InPieces(tab: seq<bv16>, crc: bv16, a: seq<bv8>, b: seq<bv8>)
    requires |tab| == 256
    ensures TableCrc16(tab, crc, a + b) == TableCrc16(tab, TableCrc16(tab, crc, a), b)
    decreases |a|
  {
    hide Next16;
    if a == [] {
      assert a + b == b;
    } else {
      assert (a + b)[1..] == a[1..] + b;
      Crc16InPieces(tab, Next16(tab, crc, a[0]), a[1..], b);
    }
  }

  /** A message may be checked in pieces, the result of one being the seed of the next. */
  lemma {:induction false} Crc32InPieces(tab: seq<bv32>, crc: bv32, a: seq<bv8>, b: seq<bv8>)
    requires |tab| == 256
    ensures TableCrc32(tab, crc, a + b) == TableCrc32(tab, TableCrc32(tab, crc, a), b)
    decreases |a|
  {
    hide Next32;
    if a == [] {
      assert a + b == b;
    } else {
      assert (a + b)[1..] == a[1..] + b;
      Crc32InPieces(tab, Next32(tab, crc, a[0]), a[1..], b);
    }
  }

  function XorOctets(a: seq<bv8>, b: seq<bv8>): (r: seq<bv8>)
    requires |a| == |b|
    ensures |r| == |a|
  {
    seq(|a|, i requires 0 <= i < |a| => Plus(a[i], b[i]))
  }

  lemma FeedSum(p: bv32, x: bv32, y: bv32, a: bv8, b: bv8)
    ensures Feed(p, Add(x, y), Plus(a, b)) == Add(Feed(p, x, a), Feed(p, y, b))
  {
    hide Steps, Add, AtTop, Plus;
    OctetSums(a, b);
    AddSwap(x, y, AtTop(a), AtTop(b));
    StepsOfSum(p, Add(x, AtTop(a)), Add(y, AtTop(b)), 8);
  }

  lemma {:induction false} FeedAllSum(p: bv32, x: bv32, y: bv32, a: seq<bv8>, b: seq<bv8>)
    requires |a| == |b|
    ensures FeedAll(p, Add(x, y), XorOctets(a, b)) == Add(FeedAll(p, x, a), FeedAll(p, y, b))
    decreases |a|
  {
    hide Feed, Add, Plus;
    if a != [] {
      FeedSum(p, x, y, a[0], b[0]);
      assert XorOctets(a, b)[1..] == XorOctets(a[1..], b[1..]);
      FeedAllSum(p, Feed(p, x, a[0]), Feed(p, y, b[0]), a[1..], b[1..]);
    }
  }

  function Sum8(x: bv8, y: bv8): bv8 {
    x ^ y
  }

  lemma Top8OfSum(x: bv8, y: bv8)
    ensures Top8(Sum8(x, y)) == Add(Top8(x), Top8(y))
  {}

  /** CRCs add up over seeds and equally long messages at once. */
  lemma Crc8OfSum(tab: seq<bv8>, code: bv8, c: bv8, d: bv8, a: seq<bv8>, b: seq<bv8>)
    requires IsTable8(tab, code) && |a| == |b|
    ensures TableCrc8(tab, Sum8(c, d), XorOctets(a, b)) == Sum8(TableCrc8(tab, c, a), TableCrc8(tab, d, b))
  {
    hide TableCrc8, FeedAll, Sum8, Add, Top8, XorOctets, Entry;
    var l, r := TableCrc8(tab, c, a), TableCrc8(tab, d, b);
    TableCrc8IsFeed(tab, code, c, a);
    TableCrc8IsFeed(tab, code, d, b);
    TableCrc8IsFeed(tab, code, Sum8(c, d), XorOctets(a, b));
    Top8OfSum(c, d);
    Top8OfSum(l, r);
    FeedAllSum(Top8(code), Top8(c), Top8(d), a, b);
    TopsInjective(TableCrc8(tab, Sum8(c, d), XorOctets(a, b)), Sum8(l, r), 0, 0);
  }

  function Sum16(x: bv16, y: bv16): bv16 {
    x ^ y
  }

  lemma Top16OfSum(x: bv16, y: bv16)
    ensures Top16(Sum16(x, y)) == Add(Top16(x), Top16(y))
  {}

  /** CRCs add up over seeds and equally long messages at once. */
  lemma Crc16OfSum(tab: seq<bv16>, code: bv16, c: bv16, d: bv16, a: seq<bv8>, b: seq<bv8>)
    requires IsTable16(tab, code) && |a| == |b|
    ensures TableCrc16(tab, Sum16(c, d), XorOctets(a, b)) == Sum16(TableCrc16(tab, c, a), TableCrc16(tab, d, b))
  {
    hide TableCrc16, FeedAll, Sum16, Add, Top16, XorOctets, Entry;
    var l, r := TableCrc16(tab, c, a), TableCrc16(tab, d, b);
    TableCrc16IsFeed(tab, code, c, a);
    TableCrc16IsFeed(tab, code, d, b);
    TableCrc16IsFeed(tab, code, Sum16(c, d), XorOctets(a, b));
    Top16OfSum(c, d);
    Top16OfSum(l, r);
    FeedAllSum(Top16(code), Top16(c), Top16(d), a, b);
    TopsInjective(0, 0, TableCrc16(tab, Sum16(c, d), XorOctets(a, b)), Sum16(l, r));
  }

  lemma Crc32OfSum(tab: seq<bv32>, code: bv32, c: bv32, d: bv32, a: seq<bv8>, b: seq<bv8>)
    requires IsTable32(tab, code) && |a| == |b|
    ensures TableCrc32(tab, Add(c, d), XorOctets(a, b)) == Add(TableCrc32(tab, c, a), TableCrc32(tab, d, b))
  {
    hide TableCrc32, FeedAll, Add, XorOctets, Entry;
    TableCrc32IsFeed(tab, code, c, a);
    TableCrc32IsFeed(tab, code, d, b);
    TableCrc32IsFeed(tab, code, Add(c, d), XorOctets(a, b));
    FeedAllSum(code, c, d, a, b);
  }

  // ------------------------------------------------------------------------ error detection

  lemma Same8(x: bv8, y: bv8)
    ensures x == y <==> Bits8(x) == Bits8(y)
  {
    hide Bits8;
    BitsDetermine(x, y, 0, 0, 0, 0);
  }

  /** Different messages whose differences fit into a window of 8 bits, at any bit offset, get
      different CRCs from the same seed. */
  lemma Crc8DetectsBursts(tab: seq<bv8>, code: bv8, crc: bv8, a: seq<bv8>, b: seq<bv8>, i: nat)
    requires IsTable8(tab, code) && SR.Odd(Bits8(code))
    requires a != b && SR.DifferInWindow(MessageBits(a), MessageBits(b), i, 8)
    ensures TableCrc8(tab, crc, a) != TableCrc8(tab, crc, b)
  {
    hide TableCrc8, Bits8, MessageBits, SR.Run, SR.Odd, SR.DifferInWindow, Entry;
    MessageDetermined(a, b);
    Crc8IsRun(tab, code, crc, a);
    Crc8IsRun(tab, code, crc, b);
    SR.BurstDetected(Bits8(code), Bits8(crc), MessageBits(a), MessageBits(b), i);
  }

  /** In a window of one bit more, exactly the generator's own pattern escapes. */
  lemma Crc8MissesOnlyGenerator(tab: seq<bv8>, code: bv8, crc: bv8, a: seq<bv8>, b: seq<bv8>, i: nat)
    requires IsTable8(tab, code) && SR.Odd(Bits8(code))
    requires a != b && SR.DifferInWindow(MessageBits(a), MessageBits(b), i, 8 + 1)
    requires i + 8 + 1 <= |MessageBits(a)|
    ensures TableCrc8(tab, crc, a) == TableCrc8(tab, crc, b)
      <==> Xor(MessageBits(a), MessageBits(b))[i..i + 8 + 1] == [true] + Bits8(code)
  {
    hide TableCrc8, Bits8, MessageBits, SR.Run, SR.Odd, SR.DifferInWindow, Entry;
    MessageDetermined(a, b);
    Crc8IsRun(tab, code, crc, a);
    Crc8IsRun(tab, code, crc, b);
    Same8(TableCrc8(tab, crc, a), TableCrc8(tab, crc, b));
    SR.GeneratorMissed(Bits8(code), Bits8(crc), MessageBits(a), MessageBits(b), i);
  }

  lemma Same16(x: bv16, y: bv16)
    ensures x == y <==> Bits16(x) == Bits16(y)
  {
    hide Bits16;
    BitsDetermine(0, 0, x, y, 0, 0);
  }

  /** Different messages whose differences fit into a window of 16 bits, at any bit offset, get
      different CRCs from the same seed. */
  lemma Crc16DetectsBursts(tab: seq<bv16>, code: bv16, crc: bv16, a: seq<bv8>, b: seq<bv8>, i: nat)
    requires IsTable16(tab, code) && SR.Odd(Bits16(code))
    requires a != b && SR.DifferInWindow(MessageBits(a), MessageBits(b), i, 16)
    ensures TableCrc16(tab, crc, a) != TableCrc16(tab, crc, b)
  {
    hide TableCrc16, Bits16, MessageBits, SR.Run, SR.Odd, SR.DifferInWindow, Entry;
    MessageDetermined(a, b);
    Crc16IsRun(tab, code, crc, a);
    Crc16IsRun(tab, code, crc, b);
    SR.BurstDetected(Bits16(code), Bits16(crc), MessageBits(a), MessageBits(b), i);
  }

  /** In a window of one bit more, exactly the generator's own pattern escapes. */
  lemma Crc16MissesOnlyGenerator(tab: seq<bv16>, code: bv16, crc: bv16, a: seq<bv8>, b: seq<bv8>, i: nat)
    requires IsTable16(tab, code) && SR.Odd(Bits16(code))
    requires a != b && SR.DifferInWindow(MessageBits(a), MessageBits(b), i, 16 + 1)
    requires i + 16 + 1 <= |MessageBits(a)|
    ensures TableCrc16(tab, crc, a) == TableCrc16(tab, crc, b)
      <==> Xor(MessageBits(a), MessageBits(b))[i..i + 16 + 1] == [true] + Bits16(code)
  {
    hide TableCrc16, Bits16, MessageBits, SR.Run, SR.Odd, SR.DifferInWindow, Entry;
    MessageDetermined(a, b);
    Crc16IsRun(tab, code, crc, a);
    Crc16IsRun(tab, code, crc, b);
    Same16(TableCrc16(tab, crc, a), TableCrc16(tab, crc, b));
    SR.GeneratorMissed(Bits16(code), Bits16(crc), MessageBits(a), MessageBits(b), i);
  }

  lemma Same32(x: bv32, y: bv32)
    ensures x == y <==> Bits32(x) == Bits32(y)
  {
    hide Bits32;
    BitsDetermine(0, 0, 0, 0, x, y);
  }

  /** Different messages whose differences fit into a window of 32 bits, at any bit offset, get
      different CRCs from the same seed. */
  lemma Crc32DetectsBursts(tab: seq<bv32>, code: bv32, crc: bv32, a: seq<bv8>, b: seq<bv8>, i: nat)
    requires IsTable32(tab, code) && SR.Odd(Bits32(code))
    requires a != b && SR.DifferInWindow(MessageBits(a), MessageBits(b), i, 32)
    ensures TableCrc32(tab, crc, a) != TableCrc32(tab, crc, b)
  {
    hide TableCrc32, Bits32, MessageBits, SR.Run, SR.Odd, SR.DifferInWindow, Entry;
    MessageDetermined(a, b);
    Crc32IsRun(tab, code, crc, a);
    Crc32IsRun(tab, code, crc, b);
    SR.BurstDetected(Bits32(code), Bits32(crc), MessageBits(a), MessageBits(b), i);
  }

  /** In a window of one bit more, exactly the generator's own pattern escapes. */
  lemma Crc32MissesOnlyGenerator(tab: seq<bv32>, code: bv32, crc: bv32, a: seq<bv8>, b: seq<bv8>, i: nat)
    requires IsTable32(tab, code) && SR.Odd(Bits32(code))
    requires a != b && SR.DifferInWindow(MessageBits(a), MessageBits(b), i, 32 + 1)
    requires i + 32 + 1 <= |MessageBits(a)|
    ensures TableCrc32(tab, crc, a) == TableCrc32(tab, crc, b)
      <==> Xor(MessageBits(a), MessageBits(b))[i..i + 32 + 1] == [true] + Bits32(code)
  {
    hide TableCrc32, Bits32, MessageBits, SR.Run, SR.Odd, SR.DifferInWindow, Entry;
    MessageDetermined(a, b);
    Crc32IsRun(tab, code, crc, a);
    Crc32IsRun(tab, code, crc, b);
    Same32(TableCrc32(tab, crc, a), TableCrc32(tab, crc, b));
    SR.GeneratorMissed(Bits32(code), Bits32(crc), MessageBits(a), MessageBits(b), i);
  }

  lemma OctetDetermined(a: bv8, b: bv8)
    requires OctetBits(a) == OctetBits(b)
    ensures a == b
  {
    hide TopBits, ShiftBy, AtTop;
    OctetIsAligned(a);
    OctetIsAligned(b);
    BitsInjective(AtTop(a), AtTop(b), 8);
    OctetAtTopInjective(a, b);
  }

  lemma OctetAtTopInjective(a: bv8, b: bv8)
    ensures AtTop(a) == AtTop(b) ==> a == b
  {}

  /** Messages are determined by their bits. */
  lemma {:induction false} MessageDetermined(a: seq<bv8>, b: seq<bv8>)
    ensures MessageBits(a) == MessageBits(b) <==> a == b
  {
    hide OctetBits;
    if MessageBits(a) == MessageBits(b) && a != [] && b != [] {
      assert MessageBits(a)[..8] == OctetBits(a[0]) && MessageBits(a)[8..] == MessageBits(a[1..]);
      assert MessageBits(b)[..8] == OctetBits(b[0]) && MessageBits(b)[8..] == MessageBits(b[1..]);
      OctetDetermined(a[0], b[0]);
      MessageDetermined(a[1..], b[1..]);
      assert a == [a[0]] + a[1..] && b == [b[0]] + b[1..];
    }
  }

  // -------------------------------------------------------------------------------- trailers

  function Octets16(r: bv16): seq<bv8> {
    [(r >> 8) as bv8, (r & 0xff) as bv8]
  }

  function Octets32(r: bv32): seq<bv8> {
    [(r >> 24) as bv8, ((r >> 16) & 0xff) as bv8, ((r >> 8) & 0xff) as bv8, (r & 0xff) as bv8]
  }

  /** The highest eight bits of a word are the bits of its highest octet. */
  lemma HighOctetBits(x: bv32)
    ensures TopBits(x, 8) == OctetBits(HighOctet32(x))
  {
    hide TopBits, ShiftBy, Add, AtTop, Rest32, HighOctet32;
    Split32(x);
    BitsOfSum(AtTop(HighOctet32(x)), Rest32(x), 8);
    LowBitsQuiet(Rest32(x));
    XorSelf(OctetBits(HighOctet32(x)));
  }

  lemma LowBitsQuiet(x: bv32)
    requires x & 0xff00_0000 == 0
    ensures TopBits(x, 8) == Zeros(8)
  {
    QuietBits(x);
    hide Shl, High;
    var x1 := Shl(x); var x2 := Shl(x1); var x3 := Shl(x2); var x4 := Shl(x3);
    assert TopBits(x4, 4) == [false, false, false, false];
    assert TopBits(x, 8) == [false, false, false, false] + TopBits(x4, 4);
  }

  lemma MessageBitsOfTwo(a: bv8, b: bv8)
    ensures MessageBits([a, b]) == OctetBits(a) + OctetBits(b)
  {
    hide OctetBits;
    assert [a, b][1..] == [b] && [b][1..] == [];
    assert MessageBits([b]) == OctetBits(b);
  }

  lemma TrailerWords(r16: bv16, r32: bv32)
    ensures HighOctet32(Top16(r16)) == Octets16(r16)[0] && HighOctet32(Shl8(Top16(r16))) == Octets16(r16)[1]
    ensures HighOctet32(r32) == Octets32(r32)[0] && HighOctet32(Shl8(r32)) == Octets32(r32)[1]
    ensures HighOctet32(Shl8(Shl8(r32))) == Octets32(r32)[2] && HighOctet32(Shl8(Shl8(Shl8(r32)))) == Octets32(r32)[3]
  {}

  lemma NextOctetBits(x: bv32, n: nat)
    ensures TopBits(x, 8 + n) == OctetBits(HighOctet32(x)) + TopBits(Shl8(x), n)
  {
    hide TopBits, ShiftBy, Shl8, OctetBits, HighOctet32;
    ShiftBySum(x, 8, n);
    ShiftBy8(x);
    HighOctetBits(x);
  }

  /** The bits of a trailer are those of the register. */
  lemma TrailerBits(r8: bv8, r16: bv16, r32: bv32)
    ensures MessageBits([r8]) == Bits8(r8)
    ensures MessageBits(Octets16(r16)) == Bits16(r16)
    ensures MessageBits(Octets32(r32)) == Bits32(r32)
  {
    hide TopBits, Shl8, HighOctet32, AtTop, OctetBits, MessageBits, Octets16, Octets32;
    Trailer8(r8);
    Trailer16(r16);
    Trailer32(r32);
  }

  lemma Trailer8(r: bv8)
    ensures MessageBits([r]) == Bits8(r)
  {
    assert [r][1..] == [];
    assert AtTop(r) == Top8(r);
  }

  lemma Trailer16(r: bv16)
    ensures MessageBits(Octets16(r)) == Bits16(r)
  {
    hide TopBits, Shl8, HighOctet32, Top16, OctetBits, MessageBits;
    var a, b := Octets16(r)[0], Octets16(r)[1];
    TrailerWords(r, 0);
    hide Octets16;
    NextOctetBits(Top16(r), 8);
    NextOctetBits(Shl8(Top16(r)), 0);
    NoBits(Shl8(Shl8(Top16(r))));
    MessageBitsOfTwo(a, b);
    assert Octets16(r) == [a, b] by {
      TwoOctets(r);
    }
  }

  lemma TwoOctets(r: bv16)
    ensures Octets16(r) == [Octets16(r)[0], Octets16(r)[1]]
  {}

  lemma FourOctets(r: bv32)
    ensures Octets32(r) == [Octets32(r)[0], Octets32(r)[1]] + [Octets32(r)[2], Octets32(r)[3]]
  {}

  lemma NoBits(x: bv32)
    ensures TopBits(x, 0) == []
  {}

  lemma Trailer32(r: bv32)
    ensures MessageBits(Octets32(r)) == Bits32(r)
  {
    hide TopBits, Shl8, HighOctet32, OctetBits, MessageBits;
    FourOctets(r);
    var a, b, c, d := Octets32(r)[0], Octets32(r)[1], Octets32(r)[2], Octets32(r)[3];
    TrailerWords(0, r);
    hide Octets32;
    NextOctetBits(r, 24);
    NextOctetBits(Shl8(r), 16);
    NextOctetBits(Shl8(Shl8(r)), 8);
    NextOctetBits(Shl8(Shl8(Shl8(r))), 0);
    NoBits(Shl8(Shl8(Shl8(Shl8(r)))));
    MessageBitsOfTwo(a, b);
    MessageBitsOfTwo(c, d);
    MessageBitsConcat([a, b], [c, d]);
  }

  lemma ZeroRegisters()
    ensures Bits8(0) == Zeros(8) && Bits16(0) == Zeros(16) && Bits32(0) == Zeros(32)
  {
    hide TopBits;
    BitsOfZero(8);
    BitsOfZero(16);
    BitsOfZero(32);
    assert Top8(0) == 0 && Top16(0) == 0;
  }

  /** A trailer empties the register exactly when it is the big-endian CRC of what came before. */
  lemma Crc8Trailer(tab: seq<bv8>, code: bv8, crc: bv8, data: seq<bv8>, t: bv8)
    requires IsTable8(tab, code) && SR.Odd(Bits8(code))
    ensures TableCrc8(tab, crc, data + [t]) == 0 <==> t == TableCrc8(tab, crc, data)
  {
    hide TableCrc8, Bits8, MessageBits, SR.Run, SR.Odd, Entry;
    var r := TableCrc8(tab, crc, data);
    Crc8InPieces(tab, crc, data, [t]);
    Crc8IsRun(tab, code, r, [t]);
    TrailerBits(t, 0, 0);
    SR.TrailerBits(Bits8(code), Bits8(r), Bits8(t));
    ZeroRegisters();
    Same8(TableCrc8(tab, r, [t]), 0);
    Same8(t, r);
  }

  /** A trailer empties the register exactly when it is the big-endian CRC of what came before. */
  lemma Crc16Trailer(tab: seq<bv16>, code: bv16, crc: bv16, data: seq<bv8>, t: bv16)
    requires IsTable16(tab, code) && SR.Odd(Bits16(code))
    ensures TableCrc16(tab, crc, data + Octets16(t)) == 0 <==> t == TableCrc16(tab, crc, data)
  {
    hide TableCrc16, Bits16, MessageBits, SR.Run, SR.Odd, Entry, Octets16;
    var r := TableCrc16(tab, crc, data);
    Crc16InPieces(tab, crc, data, Octets16(t));
    Crc16IsRun(tab, code, r, Octets16(t));
    TrailerBits(0, t, 0);
    SR.TrailerBits(Bits16(code), Bits16(r), Bits16(t));
    ZeroRegisters();
    Same16(TableCrc16(tab, r, Octets16(t)), 0);
    Same16(t, r);
  }

  /** A trailer empties the register exactly when it is the big-endian CRC of what came before. */
  lemma Crc32Trailer(tab: seq<bv32>, code: bv32, crc: bv32, data: seq<bv8>, t: bv32)
    requires IsTable32(tab, code) && SR.Odd(Bits32(code))
    ensures TableCrc32(tab, crc, data + Octets32(t)) == 0 <==> t == TableCrc32(tab, crc, data)
  {
    hide TableCrc32, Bits32, MessageBits, SR.Run, SR.Odd, Entry, Octets32;
    var r := TableCrc32(tab, crc, data);
    Crc32InPieces(tab, crc, data, Octets32(t));
    Crc32IsRun(tab, code, r, Octets32(t));
    TrailerBits(0, 0, t);
    SR.TrailerBits(Bits32(code), Bits32(r), Bits32(t));
    ZeroRegisters();
    Same32(TableCrc32(tab, r, Octets32(t)), 0);
    Same32(t, r);
  }

  // ---------------------------------------------------------------------------------- parity

  /** The register keeps the parity of seed and message exactly when the polynomial has an even
      number of terms, its leading one included. */
  lemma Crc8KeepsParity(tab: seq<bv8>, code: bv8)
    requires IsTable8(tab, code)
    ensures Parity(Bits8(code)) <==>
      forall crc, data :: Parity(Bits8(TableCrc8(tab, crc, data))) == (Parity(Bits8(crc)) != Parity(MessageBits(data)))
  {
    hide TableCrc8, Bits8, MessageBits, SR.Run, Parity, Entry;
    if Parity(Bits8(code)) {
      forall crc, data
        ensures Parity(Bits8(TableCrc8(tab, crc, data))) == (Parity(Bits8(crc)) != Parity(MessageBits(data)))
      {
        Crc8IsRun(tab, code, crc, data);
        SR.RunParity(Bits8(code), Bits8(crc), MessageBits(data));
      }
    } else {
      LastBit8(tab, code);
      LastBitParity();
    }
  }

  lemma LastBit8(tab: seq<bv8>, code: bv8)
    requires IsTable8(tab, code)
    ensures TableCrc8(tab, 0, [0x01]) == code
  {
    assert [0x01 as bv8][1..] == [];
    TableCrc8IsFeed(tab, code, 0, [0x01]);
    LastBitFed(Top8(code));
    assert Top8(0) == 0;
    TopsInjective(TableCrc8(tab, 0, [0x01]), code, 0, 0);
  }

  /** The register keeps the parity of seed and message exactly when the polynomial has an even
      number of terms, its leading one included. */
  lemma Crc16KeepsParity(tab: seq<bv16>, code: bv16)
    requires IsTable16(tab, code)
    ensures Parity(Bits16(code)) <==>
      forall crc, data :: Parity(Bits16(TableCrc16(tab, crc, data))) == (Parity(Bits16(crc)) != Parity(MessageBits(data)))
  {
    hide TableCrc16, Bits16, MessageBits, SR.Run, Parity, Entry;
    if Parity(Bits16(code)) {
      forall crc, data
        ensures Parity(Bits16(TableCrc16(tab, crc, data))) == (Parity(Bits16(crc)) != Parity(MessageBits(data)))
      {
        Crc16IsRun(tab, code, crc, data);
        SR.RunParity(Bits16(code), Bits16(crc), MessageBits(data));
      }
    } else {
      LastBit16(tab, code);
      LastBitParity();
    }
  }

  lemma LastBit16(tab: seq<bv16>, code: bv16)
    requires IsTable16(tab, code)
    ensures TableCrc16(tab, 0, [0x01]) == code
  {
    assert [0x01 as bv8][1..] == [];
    TableCrc16IsFeed(tab, code, 0, [0x01]);
    LastBitFed(Top16(code));
    assert Top16(0) == 0;
    TopsInjective(0, 0, TableCrc16(tab, 0, [0x01]), code);
  }

  /** The register keeps the parity of seed and message exactly when the polynomial has an even
      number of terms, its leading one included. */
  lemma Crc32KeepsParity(tab: seq<bv32>, code: bv32)
    requires IsTable32(tab, code)
    ensures Parity(Bits32(code)) <==>
      forall crc, data :: Parity(Bits32(TableCrc32(tab, crc, data))) == (Parity(Bits32(crc)) != Parity(MessageBits(data)))
  {
    hide TableCrc32, Bits32, MessageBits, SR.Run, Parity, Entry;
    if Parity(Bits32(code)) {
      forall crc, data
        ensures Parity(Bits32(TableCrc32(tab, crc, data))) == (Parity(Bits32(crc)) != Parity(MessageBits(data)))
      {
        Crc32IsRun(tab, code, crc, data);
        SR.RunParity(Bits32(code), Bits32(crc), MessageBits(data));
      }
    } else {
      LastBit32(tab, code);
      LastBitParity();
    }
  }

  lemma LastBit32(tab: seq<bv32>, code: bv32)
    requires IsTable32(tab, code)
    ensures TableCrc32(tab, 0, [0x01]) == code
  {
    assert [0x01 as bv8][1..] == [];
    TableCrc32IsFeed(tab, code, 0, [0x01]);
    LastBitFed(code);
  }

  lemma LastBitFed(p: bv32)
    ensures Feed(p, 0, 0x01) == p && FeedAll(p, 0, [0x01]) == p
  {
    assert [0x01 as bv8][1..] == [];
    assert Add(0, AtTop(0x01)) == 0x0100_0000;
    assert Steps(p, 0x0100_0000, 8) == Steps(p, 0x1000_0000, 4) == Steps(p, 0x8000_0000, 1) == p;
  }

  lemma LastBitParity()
    ensures Parity(MessageBits([0x01])) && !Parity(Bits8(0)) && !Parity(Bits16(0)) && !Parity(Bits32(0))
  {
    assert [0x01 as bv8][1..] == [] && MessageBits([0x01]) == OctetBits(0x01);
    OctetFacts();
    ZeroRegisters();
    SR.ZerosParity(8);
    SR.ZerosParity(16);
    SR.ZerosParity(32);
  }

  lemma OctetFacts()
    ensures Parity(OctetBits(0x01)) && Parity(OctetBits(0x07)) && Parity(OctetBits(0x10)) && !Parity(OctetBits(0x21))
    ensures Parity(OctetBits(0x04)) && Parity(OctetBits(0xc1)) && !Parity(OctetBits(0x1d)) && !Parity(OctetBits(0xb7))
    ensures OctetBits(0x07)[7] && OctetBits(0x21)[7] && OctetBits(0xb7)[7]
  {
    hide OctetBits, Parity;
    OctetParity(0x01);
    OctetParity(0x07);
    OctetParity(0x10);
    OctetParity(0x21);
    OctetParity(0x04);
    OctetParity(0xc1);
    OctetParity(0x1d);
    OctetParity(0xb7);
  }

  lemma FourBits(x: bv32)
    ensures TopBits(x, 4) == [High(x), High(Shl(x)), High(Shl(Shl(x))), High(Shl(Shl(Shl(x))))]
    ensures ShiftBy(x, 4) == Shl(Shl(Shl(Shl(x))))
  {
    hide High, Shl;
    assert TopBits(Shl(Shl(x)), 2) == [High(Shl(Shl(x))), High(Shl(Shl(Shl(x))))];
  }

  function HighHalf(o: bv8): Bits {
    [MaskedBit(o, 0), MaskedBit(o, 1), MaskedBit(o, 2), MaskedBit(o, 3)]
  }

  function LowHalf(o: bv8): Bits {
    [MaskedBit(o, 4), MaskedBit(o, 5), MaskedBit(o, 6), MaskedBit(o, 7)]
  }

  lemma OctetBitsAre(o: bv8)
    ensures OctetBits(o) == HighHalf(o) + LowHalf(o)
  {
    hide Shl, High, AtTop, MaskedBit, TopBits, ShiftBy;
    MaskedBits(o);
    FourBits(AtTop(o));
    FourBits(Shl(Shl(Shl(Shl(AtTop(o))))));
    ShiftBySum(AtTop(o), 4, 4);
  }

  lemma ParityOfFour(a: bool, b: bool, c: bool, d: bool)
    ensures Parity([a, b, c, d]) == (a != (b != (c != d)))
  {
    assert [d][1..] == [] && Parity([d]) == d;
    assert [c, d][1..] == [d] && [b, c, d][1..] == [c, d] && [a, b, c, d][1..] == [b, c, d];
    assert Parity([c, d]) == (c != d);
  }

  predicate OddOctet(o: bv8) {
    (MaskedBit(o, 0) != (MaskedBit(o, 1) != (MaskedBit(o, 2) != MaskedBit(o, 3))))
    != (MaskedBit(o, 4) != (MaskedBit(o, 5) != (MaskedBit(o, 6) != MaskedBit(o, 7))))
  }

  lemma OctetParity(o: bv8)
    ensures Parity(OctetBits(o)) == OddOctet(o) && OctetBits(o)[7] == MaskedBit(o, 7)
  {
    hide OctetBits, Parity, MaskedBit;
    OctetBitsAre(o);
    ParityOfFour(MaskedBit(o, 0), MaskedBit(o, 1), MaskedBit(o, 2), MaskedBit(o, 3));
    ParityOfFour(MaskedBit(o, 4), MaskedBit(o, 5), MaskedBit(o, 6), MaskedBit(o, 7));
    ParityConcat(HighHalf(o), LowHalf(o));
  }

  lemma CodeOctets()
    ensures Octets16(CODE16) == [0x10, 0x21] && Octets32(CODE32) == [0x04, 0xc1] + [0x1d, 0xb7]
  {}

  /** Facts about the three polynomials of the program: all have the constant term one, and the
      first two an even number of terms. */
  lemma Polynomials()
    ensures SR.Odd(Bits8(CODE8)) && SR.Odd(Bits16(CODE16)) && SR.Odd(Bits32(CODE32))
    ensures Parity(Bits8(CODE8)) && Parity(Bits16(CODE16)) && !Parity(Bits32(CODE32))
  {
    hide OctetBits, Bits8, Bits16, Bits32, MessageBits, Octets16, Octets32, Parity;
    TrailerBits(CODE8, CODE16, CODE32);
    CodeOctets();
    OctetFacts();
    MessageBitsOfOne(0x07);
    MessageBitsOfTwo(0x10, 0x21);
    MessageBitsOfTwo(0x04, 0xc1);
    MessageBitsOfTwo(0x1d, 0xb7);
    MessageBitsConcat([0x04, 0xc1], [0x1d, 0xb7]);
    ParityConcat(OctetBits(0x10), OctetBits(0x21));
    ParityConcat(OctetBits(0x04), OctetBits(0xc1));
    ParityConcat(OctetBits(0x1d), OctetBits(0xb7));
    ParityConcat(OctetBits(0x04) + OctetBits(0xc1), OctetBits(0x1d) + OctetBits(0xb7));
  }

  lemma MessageBitsOfOne(a: bv8)
    ensures MessageBits([a]) == OctetBits(a)
  {
    assert [a][1..] == [];
  }

  /** Any odd number of flipped bits, anywhere in a message of any length, changes the CRC-8 and
      the CRC-16 of the program. */
  lemma OddFlipsDetected(c8: bv8, c16: bv16, a: seq<bv8>, b: seq<bv8>)
    requires |a| == |b| && Parity(Xor(MessageBits(a), MessageBits(b)))
    ensures TableCrc8(Table8(), c8, a) != TableCrc8(Table8(), c8, b)
    ensures TableCrc16(Table16(), c16, a) != TableCrc16(Table16(), c16, b)
  {
    hide TableCrc8, TableCrc16, Bits8, Bits16, MessageBits, Parity, Table8, Table16, Entry;
    StaticTables();
    Polynomials();
    ParityXor(MessageBits(a), MessageBits(b));
    Crc8KeepsParity(Table8(), CODE8);
    Crc16KeepsParity(Table16(), CODE16);
  }
}
