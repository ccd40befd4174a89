/** lib/crc.c: the three table-driven CRCs and the generators of their tables, as the code
    computes them on 8, 16 and 32-bit words. */
module Crc {

  import opened Gf2
  import opened CrcEngine
  import SR = ShiftRegister

  // ------------------------------------------------- registers aligned to the top of a word

  function Top8(r: bv8): bv32 {
    r as bv32 << 24
  }

  function Top16(r: bv16): bv32 {
    r as bv32 << 16
  }

  /** Entry `i` of the table for the polynomial `p`: what eight steps make of octet `i`. */
  function Entry(p: bv32, i: bv8): bv32 {
    Steps(p, AtTop(i), 8)
  }

  ghost predicate IsTable8(tab: seq<bv8>, code: bv8) {
    |tab| == 256 && forall i: bv8 :: Top8(tab[i as int]) == Entry(Top8(code), i)
  }

  ghost predicate IsTable16(tab: seq<bv16>, code: bv16) {
    |tab| == 256 && forall i: bv8 :: Top16(tab[i as int]) == Entry(Top16(code), i)
  }

  ghost predicate IsTable32(tab: seq<bv32>, code: bv32) {
    |tab| == 256 && forall i: bv8 :: tab[i as int] == Entry(code, i)
  }

  // -------------------------------------------------------------- one octet, by table lookup

  function Slot8(crc: bv8, octet: bv8): (i: bv8)
    ensures i as int < 256
  {
    crc ^ octet
  }

  function Next8(tab: seq<bv8>, crc: bv8, octet: bv8): bv8
    requires |tab| == 256
  {
    tab[Slot8(crc, octet) as int]
  }

  function Slot16(crc: bv16, octet: bv8): (i: bv16)
    ensures i as int < 256
  {
    SlotBound16(crc, octet);
    (crc >> 8) ^ octet as bv16
  }

  lemma SlotBound16(crc: bv16, octet: bv8)
    ensures ((crc >> 8) ^ octet as bv16) < 256
  {}

  function Slot32(crc: bv32, octet: bv8): (i: bv32)
    ensures i as int < 256
  {
    ((crc >> 24) ^ octet as bv32) & 0xff
  }

  function Mix16(crc: bv16, entry: bv16): bv16 {
    (crc << 8) ^ entry
  }

  function Mix32(crc: bv32, entry: bv32): bv32 {
    (crc << 8) ^ entry
  }

  function Next16(tab: seq<bv16>, crc: bv16, octet: bv8): bv16
    requires |tab| == 256
  {
    Mix16(crc, tab[Slot16(crc, octet) as int])
  }

  function Next32(tab: seq<bv32>, crc: bv32, octet: bv8): bv32
    requires |tab| == 256
  {
    Mix32(crc, tab[Slot32(crc, octet) as int])
  }

  function TableCrc8(tab: seq<bv8>, crc: bv8, data: seq<bv8>): bv8
    requires |tab| == 256
    decreases |data|
  {
    if data == [] then crc else TableCrc8(tab, Next8(tab, crc, data[0]), data[1..])
  }

  function TableCrc16(tab: seq<bv16>, crc: bv16, data: seq<bv8>): bv16
    requires |tab| == 256
    decreases |data|
  {
    if data == [] then crc else TableCrc16(tab, Next16(tab, crc, data[0]), data[1..])
  }

  function TableCrc32(tab: seq<bv32>, crc: bv32, data: seq<bv8>): bv32
    requires |tab| == 256
    decreases |data|
  {
    if data == [] then crc else TableCrc32(tab, Next32(tab, crc, data[0]), data[1..])
  }

  // ----------------------------------------------------------- lookups are eight steps each

  lemma StepOfSum(p: bv32, x: bv32, y: bv32)
    ensures Step(p, Add(x, y)) == Add(Step(p, x), Step(p, y))
  {
    hide Shl, High, Add;
    ShlOfSum(x, y);
    HighOfSum(x, y);
    var a, b := if High(x) then p else 0, if High(y) then p else 0;
    AddSwap(Shl(x), Shl(y), a, b);
    AddSelf(p);
  }

  lemma AddSwap(a: bv32, b: bv32, c: bv32, d: bv32)
    ensures Add(Add(a, b), Add(c, d)) == Add(Add(a, c), Add(b, d))
  {
    hide Add;
    AddLaws(Add(a, b), c, d);
    AddLaws(a, b, c);
    AddLaws(a, c, b);
    AddLaws(Add(a, c), b, d);
    AddCommutes(b, c);
  }

  lemma AddLaws(a: bv32, b: bv32, c: bv32)
    ensures Add(Add(a, b), c) == Add(a, Add(b, c))
  {}

  lemma AddCommutes(a: bv32, b: bv32)
    ensures Add(a, b) == Add(b, a)
  {}

  lemma AddSelf(p: bv32)
    ensures Add(p, p) == 0 && Add(p, 0) == p && Add(0, p) == p && Add(0, 0) == 0
  {}

  lemma {:induction false} StepsOfSum(p: bv32, x: bv32, y: bv32, n: nat)
    ensures Steps(p, Add(x, y), n) == Add(Steps(p, x, n), Steps(p, y, n))
    decreases n
  {
    hide Step, Add;
    if n > 0 {
      StepOfSum(p, x, y);
      StepsOfSum(p, Step(p, x), Step(p, y), n - 1);
    }
  }

  function Shl8(x: bv32): bv32 {
    x << 8
  }

  lemma QuietStep(p: bv32, x: bv32)
    requires !High(x)
    ensures Step(p, x) == Shl(x)
  {}

  /** Without a bit among the highest eight, eight steps only shift. */
  lemma QuietSteps(p: bv32, x: bv32)
    requires x & 0xff00_0000 == 0
    ensures Steps(p, x, 8) == Shl8(x)
  {
    QuietBits(x);
    var x1 := Shl(x);
    var x2 := Shl(x1);
    var x3 := Shl(x2);
    var x4 := Shl(x3);
    var x5 := Shl(x4);
    var x6 := Shl(x5);
    var x7 := Shl(x6);
    QuietChain(p, x, x1, x2, x3, x4, x5, x6, x7);
  }

  lemma QuietBits(x: bv32)
    requires x & 0xff00_0000 == 0
    ensures
      var x1 := Shl(x); var x2 := Shl(x1); var x3 := Shl(x2); var x4 := Shl(x3);
      var x5 := Shl(x4); var x6 := Shl(x5); var x7 := Shl(x6);
      && High(x) == High(x1) == High(x2) == High(x3) == High(x4) == High(x5) == High(x6) == High(x7) == false
      && Shl(x7) == Shl8(x)
  {}

  lemma QuietChain(p: bv32, x: bv32, x1: bv32, x2: bv32, x3: bv32, x4: bv32, x5: bv32, x6: bv32, x7: bv32)
    requires x1 == Shl(x) && x2 == Shl(x1) && x3 == Shl(x2) && x4 == Shl(x3)
    requires x5 == Shl(x4) && x6 == Shl(x5) && x7 == Shl(x6)
    requires High(x) == High(x1) == High(x2) == High(x3) == High(x4) == High(x5) == High(x6) == High(x7) == false
    ensures Steps(p, x, 8) == Shl(x7)
  {
    hide Shl, High, Step;
    QuietStep(p, x);
    QuietStep(p, x1);
    QuietStep(p, x2);
    QuietStep(p, x3);
    assert Steps(p, x, 8) == Steps(p, x4, 4);
    QuietStep(p, x4);
    QuietStep(p, x5);
    QuietStep(p, x6);
    QuietStep(p, x7);
  }

  lemma OctetOfSum(a: bv8, b: bv8)
    ensures AtTop(a ^ b) == Add(AtTop(a), AtTop(b))
  {}

  /** What one octet does to a register, with the highest octet `top` and the rest apart. */
  lemma FeedSplit(p: bv32, x: bv32, top: bv8, rest: bv32, octet: bv8)
    requires x == Add(AtTop(top), rest) && rest & 0xff00_0000 == 0
    ensures Feed(p, x, octet) == Add(Entry(p, top ^ octet), Shl8(rest))
  {
    hide Steps, Shl8, Add, AtTop;
    OctetOfSum(top, octet);
    AddLaws(AtTop(top), rest, AtTop(octet));
    AddCommutes(rest, AtTop(octet));
    AddLaws(AtTop(top), AtTop(octet), rest);
    StepsOfSum(p, AtTop(top ^ octet), rest, 8);
    QuietSteps(p, rest);
  }

  lemma Split8(crc: bv8)
    ensures Top8(crc) == Add(AtTop(crc), 0) && Shl8(0) == 0 && (0 as bv32) & 0xff00_0000 == 0
  {}

  function HighOctet16(crc: bv16): bv8 {
    (crc >> 8) as bv8
  }

  function Rest16(crc: bv16): bv32 {
    (crc & 0xff) as bv32 << 16
  }

  function HighOctet32(crc: bv32): bv8 {
    (crc >> 24) as bv8
  }

  function Rest32(crc: bv32): bv32 {
    crc & 0x00ff_ffff
  }

  lemma Split16(crc: bv16)
    ensures Top16(crc) == Add(AtTop(HighOctet16(crc)), Rest16(crc)) && Rest16(crc) & 0xff00_0000 == 0
  {}

  lemma Split32(crc: bv32)
    ensures crc == Add(AtTop(HighOctet32(crc)), Rest32(crc)) && Rest32(crc) & 0xff00_0000 == 0
  {}

  lemma SlotIsHighOctet16(crc: bv16, octet: bv8)
    ensures Slot16(crc, octet) as int == (HighOctet16(crc) ^ octet) as int
  {
    SlotBits16(crc, octet);
    SameIndex16(HighOctet16(crc) ^ octet);
  }

  lemma SlotBits16(crc: bv16, octet: bv8)
    ensures Slot16(crc, octet) == (HighOctet16(crc) ^ octet) as bv16
  {}

  lemma SlotIsHighOctet32(crc: bv32, octet: bv8)
    ensures Slot32(crc, octet) as int == (HighOctet32(crc) ^ octet) as int
  {
    SlotBits32(crc, octet);
    SameIndex32(HighOctet32(crc) ^ octet);
  }

  lemma SlotBits32(crc: bv32, octet: bv8)
    ensures Slot32(crc, octet) == (HighOctet32(crc) ^ octet) as bv32
  {}

  lemma SameIndex16(i: bv8)
    ensures (i as bv16) as int == i as int
  {}

  lemma SameIndex32(i: bv8)
    ensures (i as bv32) as int == i as int
  {}

  lemma Join16(crc: bv16, t: bv16)
    ensures Top16(Mix16(crc, t)) == Add(Top16(t), Shl8(Rest16(crc)))
  {}

  lemma Join32(crc: bv32, t: bv32)
    ensures Mix32(crc, t) == Add(t, Shl8(Rest32(crc)))
  {}

  lemma Lookup8(tab: seq<bv8>, code: bv8, crc: bv8, octet: bv8)
    requires IsTable8(tab, code)
    ensures Top8(Next8(tab, crc, octet)) == Feed(Top8(code), Top8(crc), octet)
  {
    hide Feed, Entry, AtTop, Add, Shl8, Top8;
    Split8(crc);
    FeedSplit(Top8(code), Top8(crc), crc, 0, octet);
    AddZero(Entry(Top8(code), crc ^ octet));
  }

  lemma AddZero(x: bv32)
    ensures Add(x, 0) == x
  {}

  lemma Lookup16(tab: seq<bv16>, code: bv16, crc: bv16, octet: bv8)
    requires IsTable16(tab, code)
    ensures Top16(Next16(tab, crc, octet)) == Feed(Top16(code), Top16(crc), octet)
  {
    hide Feed, Entry, AtTop, Add, Shl8, Top16, HighOctet16, Rest16, Slot16, Mix16;
    var i := HighOctet16(crc) ^ octet;
    Split16(crc);
    SlotIsHighOctet16(crc, octet);
    FeedSplit(Top16(code), Top16(crc), HighOctet16(crc), Rest16(crc), octet);
    Join16(crc, tab[i as int]);
  }

  lemma Lookup32(tab: seq<bv32>, code: bv32, crc: bv32, octet: bv8)
    requires IsTable32(tab, code)
    ensures Next32(tab, crc, octet) == Feed(code, crc, octet)
  {
    hide Feed, Entry, AtTop, Add, Shl8, HighOctet32, Rest32, Slot32, Mix32;
    var i := HighOctet32(crc) ^ octet;
    Split32(crc);
    SlotIsHighOctet32(crc, octet);
    FeedSplit(code, crc, HighOctet32(crc), Rest32(crc), octet);
    Join32(crc, tab[i as int]);
  }

  lemma {:induction false} TableCrc8IsFeed(tab: seq<bv8>, code: bv8, crc: bv8, data: seq<bv8>)
    requires IsTable8(tab, code)
    ensures Top8(TableCrc8(tab, crc, data)) == FeedAll(Top8(code), Top8(crc), data)
    decreases |data|
  {
    hide Next8, Feed, Top8, Entry;
    if data != [] {
      Lookup8(tab, code, crc, data[0]);
      TableCrc8IsFeed(tab, code, Next8(tab, crc, data[0]), data[1..]);
    }
  }

  lemma {:induction false} TableCrc16IsFeed(tab: seq<bv16>, code: bv16, crc: bv16, data: seq<bv8>)
    requires IsTable16(tab, code)
    ensures Top16(TableCrc16(tab, crc, data)) == FeedAll(Top16(code), Top16(crc), data)
    decreases |data|
  {
    hide Next16, Feed, Top16, Entry;
    if data != [] {
      Lookup16(tab, code, crc, data[0]);
      TableCrc16IsFeed(tab, code, Next16(tab, crc, data[0]), data[1..]);
    }
  }

  lemma {:induction false} TableCrc32IsFeed(tab: seq<bv32>, code: bv32, crc: bv32, data: seq<bv8>)
    requires IsTable32(tab, code)
    ensures TableCrc32(tab, crc, data) == FeedAll(code, crc, data)
    decreases |data|
  {
    hide Next32, Feed, Entry;
    if data != [] {
      Lookup32(tab, code, crc, data[0]);
      TableCrc32IsFeed(tab, code, Next32(tab, crc, data[0]), data[1..]);
    }
  }

  // -------------------------------------------------------------------- registers as bits

  function Bits8(r: bv8): (b: Bits)
    ensures |b| == 8
  {
    TopBits(Top8(r), 8)
  }

  function Bits16(r: bv16): (b: Bits)
    ensures |b| == 16
  {
    TopBits(Top16(r), 16)
  }

  function Bits32(r: bv32): (b: Bits)
    ensures |b| == 32
  {
    TopBits(r, 32)
  }

  lemma ShiftBy8(x: bv32)
    ensures ShiftBy(x, 8) == Shl8(x)
  {
    var x4 := Shl(Shl(Shl(Shl(x))));
    assert ShiftBy(x, 8) == ShiftBy(x4, 4) == Shl(Shl(Shl(Shl(x4))));
    EightShifts(x);
  }

  lemma EightShifts(x: bv32)
    ensures Shl(Shl(Shl(Shl(Shl(Shl(Shl(Shl(x)))))))) == Shl8(x)
  {}

  lemma TopsAligned(r8: bv8, r16: bv16, r32: bv32)
    ensures Aligned(Top8(r8), 8) && Aligned(Top16(r16), 16) && Aligned(r32, 32)
  {
    hide ShiftBy, Shl8, Top8, Top16;
    ShiftBy8(Top8(r8));
    ShiftBySum(Top16(r16), 8, 8);
    ShiftBy8(Top16(r16));
    ShiftBy8(Shl8(Top16(r16)));
    ShiftBySum(r32, 8, 24);
    ShiftBySum(ShiftBy(r32, 8), 8, 16);
    ShiftBySum(ShiftBy(ShiftBy(r32, 8), 8), 8, 8);
    ShiftBy8(r32);
    ShiftBy8(Shl8(r32));
    ShiftBy8(Shl8(Shl8(r32)));
    ShiftBy8(Shl8(Shl8(Shl8(r32))));
    ShiftsEmpty(r8, r16, r32);
  }

  lemma ShiftsEmpty(r8: bv8, r16: bv16, r32: bv32)
    ensures Shl8(Top8(r8)) == 0 && Shl8(Shl8(Top16(r16))) == 0 && Shl8(Shl8(Shl8(Shl8(r32)))) == 0
  {}

  lemma BitsDetermine(a8: bv8, b8: bv8, a16: bv16, b16: bv16, a32: bv32, b32: bv32)
    ensures Bits8(a8) == Bits8(b8) ==> a8 == b8
    ensures Bits16(a16) == Bits16(b16) ==> a16 == b16
    ensures Bits32(a32) == Bits32(b32) ==> a32 == b32
  {
    hide TopBits, Top8, Top16, Aligned;
    TopsAligned(a8, a16, a32);
    TopsAligned(b8, b16, b32);
    if Bits8(a8) == Bits8(b8) {
      BitsInjective(Top8(a8), Top8(b8), 8);
      TopsInjective(a8, b8, a16, b16);
    }
    if Bits16(a16) == Bits16(b16) {
      BitsInjective(Top16(a16), Top16(b16), 16);
      TopsInjective(a8, b8, a16, b16);
    }
    if Bits32(a32) == Bits32(b32) {
      BitsInjective(a32, b32, 32);
    }
  }

  lemma TopsInjective(a8: bv8, b8: bv8, a16: bv16, b16: bv16)
    ensures Top8(a8) == Top8(b8) ==> a8 == b8
    ensures Top16(a16) == Top16(b16) ==> a16 == b16
  {}

  /** The 8-bit table loop computes what the bit-serial register computes. */
  lemma Crc8IsRun(tab: seq<bv8>, code: bv8, crc: bv8, data: seq<bv8>)
    requires IsTable8(tab, code)
    ensures Bits8(TableCrc8(tab, crc, data)) == SR.Run(Bits8(code), Bits8(crc), MessageBits(data))
  {
    hide TopBits, FeedAll, Bits8, Bits16, Bits32, Top8, Top16, Aligned, MessageBits, SR.Run, TableCrc8, TableCrc16, TableCrc32;
    TableCrc8IsFeed(tab, code, crc, data);
    TopsAligned(code, 0, 0);
    TopsAligned(crc, 0, 0);
    FeedAllIsRun(Top8(code), Top8(crc), data, 8);
    BitsAre(code, 0, 0);
    BitsAre(crc, 0, 0);
    BitsAre(TableCrc8(tab, crc, data), 0, 0);
  }

  lemma BitsAre(r8: bv8, r16: bv16, r32: bv32)
    ensures Bits8(r8) == TopBits(Top8(r8), 8) && Bits16(r16) == TopBits(Top16(r16), 16) && Bits32(r32) == TopBits(r32, 32)
  {}

  /** The 16-bit table loop computes what the bit-serial register computes. */
  lemma Crc16IsRun(tab: seq<bv16>, code: bv16, crc: bv16, data: seq<bv8>)
    requires IsTable16(tab, code)
    ensures Bits16(TableCrc16(tab, crc, data)) == SR.Run(Bits16(code), Bits16(crc), MessageBits(data))
  {
    hide TopBits, FeedAll, Bits8, Bits16, Bits32, Top8, Top16, Aligned, MessageBits, SR.Run, TableCrc8, TableCrc16, TableCrc32;
    TableCrc16IsFeed(tab, code, crc, data);
    TopsAligned(0, code, 0);
    TopsAligned(0, crc, 0);
    FeedAllIsRun(Top16(code), Top16(crc), data, 16);
    BitsAre(0, code, 0);
    BitsAre(0, crc, 0);
    BitsAre(0, TableCrc16(tab, crc, data), 0);
  }

  /** The 32-bit table loop computes what the bit-serial register computes. */
  lemma Crc32IsRun(tab: seq<bv32>, code: bv32, crc: bv32, data: seq<bv8>)
    requires IsTable32(tab, code)
    ensures Bits32(TableCrc32(tab, crc, data)) == SR.Run(Bits32(code), Bits32(crc), MessageBits(data))
  {
    hide TopBits, FeedAll, Bits8, Bits16, Bits32, Top8, Top16, Aligned, MessageBits, SR.Run, TableCrc8, TableCrc16, TableCrc32;
    TableCrc32IsFeed(tab, code, crc, data);
    TopsAligned(0, 0, code);
    TopsAligned(0, 0, crc);
    FeedAllIsRun(code, crc, data, 32);
    BitsAre(0, 0, code);
    BitsAre(0, 0, crc);
    BitsAre(0, 0, TableCrc32(tab, crc, data));
  }
}
