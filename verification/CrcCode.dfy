/** lib/crc.c as it runs: the three global tables, the loops over a message and the generators
    that overwrite a table. */
module CrcCode {

  import opened CrcEngine
  import opened Crc
  import opened CrcGenerators
  import opened CrcTables
  import SR = ShiftRegister

  class CrcGlobals {

    const crc8tab: array<bv8>
    const crc16tab: array<bv16>
    const crc32tab: array<bv32>

    ghost predicate Valid() {
      crc8tab.Length == crc16tab.Length == crc32tab.Length == 256
    }

    /** The tables as the program starts. */
    constructor ()
      ensures Valid() && fresh(crc8tab) && fresh(crc16tab) && fresh(crc32tab)
      ensures IsTable8(crc8tab[..], CODE8) && IsTable16(crc16tab[..], CODE16) && IsTable32(crc32tab[..], CODE32)
    {
      crc8tab := new bv8[256](i requires 0 <= i < 256 => Entry8(i as bv8));
      crc16tab := new bv16[256](i requires 0 <= i < 256 => Entry16(i as bv8));
      crc32tab := new bv32[256](i requires 0 <= i < 256 => Entry32(i as bv8));
      new;
      hide Entry8, Entry16, Entry32;
      assert crc8tab[..] == Table8();
      assert crc16tab[..] == Table16();
      assert crc32tab[..] == Table32();
      StaticTables();
    }

    /** The CRC over the first `nb` octets of `data` from the register `crc`: a remainder. */
    method Crc8(crc: bv8, data: array<bv8>, nb: nat) returns (lCrc: bv8)
      requires Valid() && nb <= data.Length
      ensures lCrc == TableCrc8(crc8tab[..], crc, data[..nb])
      ensures forall code | IsTable8(crc8tab[..], code) ::
                Bits8(lCrc) == SR.Run(Bits8(code), Bits8(crc), MessageBits(data[..nb]))
    {
      lCrc := crc;
      var k, left := 0, nb;
      while left > 0
        invariant 0 <= k && k + left == nb
        invariant TableCrc8(crc8tab[..], lCrc, data[k..nb]) == TableCrc8(crc8tab[..], crc, data[..nb])
      {
        left := left - 1;
        hide Slot8;
        assert data[k..nb][0] == data[k] && data[k..nb][1..] == data[k + 1..nb];
        lCrc := crc8tab[Slot8(lCrc, data[k]) as int];
        k := k + 1;
      }
      forall code | IsTable8(crc8tab[..], code)
        ensures Bits8(lCrc) == SR.Run(Bits8(code), Bits8(crc), MessageBits(data[..nb]))
      {
        Crc8IsRun(crc8tab[..], code, crc, data[..nb]);
      }
    }

    /** The CRC over the first `nb` octets of `data` from the register `crc`: a remainder. */
    method Crc16(crc: bv16, data: array<bv8>, nb: nat) returns (lCrc: bv16)
      requires Valid() && nb <= data.Length
      ensures lCrc == TableCrc16(crc16tab[..], crc, data[..nb])
      ensures forall code | IsTable16(crc16tab[..], code) ::
                Bits16(lCrc) == SR.Run(Bits16(code), Bits16(crc), MessageBits(data[..nb]))
    {
      lCrc := crc;
      var k, left := 0, nb;
      while left > 0
        invariant 0 <= k && k + left == nb
        invariant TableCrc16(crc16tab[..], lCrc, data[k..nb]) == TableCrc16(crc16tab[..], crc, data[..nb])
      {
        left := left - 1;
        hide Slot16, Mix16;
        assert data[k..nb][0] == data[k] && data[k..nb][1..] == data[k + 1..nb];
        lCrc := Mix16(lCrc, crc16tab[Slot16(lCrc, data[k]) as int]);
        k := k + 1;
      }
      forall code | IsTable16(crc16tab[..], code)
        ensures Bits16(lCrc) == SR.Run(Bits16(code), Bits16(crc), MessageBits(data[..nb]))
      {
        Crc16IsRun(crc16tab[..], code, crc, data[..nb]);
      }
    }

    /** The CRC over the first `nb` octets of `data` from the register `crc`: a remainder. */
    method Crc32(crc: bv32, data: array<bv8>, nb: nat) returns (lCrc: bv32)
      requires Valid() && nb <= data.Length
      ensures lCrc == TableCrc32(crc32tab[..], crc, data[..nb])
      ensures forall code | IsTable32(crc32tab[..], code) ::
                Bits32(lCrc) == SR.Run(Bits32(code), Bits32(crc), MessageBits(data[..nb]))
    {
      lCrc := crc;
      var k, left := 0, nb;
      while left > 0
        invariant 0 <= k && k + left == nb
        invariant TableCrc32(crc32tab[..], lCrc, data[k..nb]) == TableCrc32(crc32tab[..], crc, data[..nb])
      {
        left := left - 1;
        hide Slot32, Mix32;
        assert data[k..nb][0] == data[k] && data[k..nb][1..] == data[k + 1..nb];
        lCrc := Mix32(lCrc, crc32tab[Slot32(lCrc, data[k]) as int]);
        k := k + 1;
      }
      forall code | IsTable32(crc32tab[..], code)
        ensures Bits32(lCrc) == SR.Run(Bits32(code), Bits32(crc), MessageBits(data[..nb]))
      {
        Crc32IsRun(crc32tab[..], code, crc, data[..nb]);
      }
    }

    /** The inner loop of the generator: one index, bit by bit. */
    static method Serial8(code: bv8, init: bv8, nb: bv8) returns (crc: bv8)
      ensures Top8(crc) == Register8(code, init, nb)
    {
      hide Add, AtTop, ShiftBy, Steps, MaskedBit, Shl, High, Round8, Top8;
      crc := init;
      var j := 0;
      SerialStart(Top8(crc), Top8(code), nb);
      while j < 8
        invariant 0 <= j <= 8
        invariant Steps(Top8(code), Add(Top8(init), AtTop(nb)), j) == Add(Top8(crc), ShiftBy(AtTop(nb), j))
      {
        Round8IsStep(code, crc, MaskedBit(nb, j));
        ghost var before := crc;
        crc := Round8(code, crc, MaskedBit(nb, j));
        SerialStep(Top8(code), Top8(init), Top8(before), Top8(crc), nb, j);
        j := j + 1;
      }
      SerialDone(Top8(code), Top8(init), Top8(crc), nb);
    }

    /** Overwrites the table; with an all-ones `init` by the table of `code`. */
    method InitCrc8Tab(code: bv8, init: bv8)
      requires Valid()
      modifies crc8tab
      ensures IsGenerated8(crc8tab[..], code, init)
      ensures init == 0xff ==> IsTable8(crc8tab[..], code)
      ensures init == 0xff && code == CODE8 ==> crc8tab[..] == Table8()
    {
      hide Raw, Entry, Add, Steps, AtTop, Wanted8, Register8, Flip, Octet, Entry8, Top8;
      var i := 0;
      while i < 256
        invariant 0 <= i <= 256
        invariant forall k | 0 <= k < i :: Top8(crc8tab[k]) == Wanted8(code, init, Octet(k))
      {
        var crc := Serial8(code, init, Flip(Octet(i)));
        WantedIs8(code, init, Octet(i));
        crc8tab[i] := crc;
        i := i + 1;
      }
      WholeTable8(crc8tab[..], code, init);
    }

    /** The inner loop of the generator: one index, bit by bit. */
    static method Serial16(code: bv16, init: bv16, nb: bv8) returns (crc: bv16)
      ensures Top16(crc) == Register16(code, init, nb)
    {
      hide Add, AtTop, ShiftBy, Steps, MaskedBit, Shl, High, Round16, Top16, Corrected16;
      crc := init;
      var j := 0;
      SerialStart(Top16(crc), Top16(code), nb);
      while j < 8
        invariant 0 <= j <= 8
        invariant Steps(Top16(code), Add(Top16(init), AtTop(nb)), j) == Add(Top16(crc), ShiftBy(AtTop(nb), j))
      {
        Round16IsStep(code, crc, MaskedBit(nb, j));
        ghost var before := crc;
        crc := Round16(code, crc, MaskedBit(nb, j));
        SerialStep(Top16(code), Top16(init), Top16(before), Top16(crc), nb, j);
        j := j + 1;
      }
      SerialDone(Top16(code), Top16(init), Top16(crc), nb);
      Correct16(crc);
      crc := Corrected16(crc);
    }

    /** Overwrites the table; with an all-ones `init` by the table of `code`. */
    method InitCrc16Tab(code: bv16, init: bv16)
      requires Valid()
      modifies crc16tab
      ensures IsGenerated16(crc16tab[..], code, init)
      ensures init == 0xffff ==> IsTable16(crc16tab[..], code)
      ensures init == 0xffff && code == CODE16 ==> crc16tab[..] == Table16()
    {
      hide Raw, Entry, Add, Steps, AtTop, Wanted16, Register16, Flip, Octet, Entry16, Top16;
      var i := 0;
      while i < 256
        invariant 0 <= i <= 256
        invariant forall k | 0 <= k < i :: Top16(crc16tab[k]) == Wanted16(code, init, Octet(k))
      {
        var crc := Serial16(code, init, Flip(Octet(i)));
        WantedIs16(code, init, Octet(i));
        crc16tab[i] := crc;
        i := i + 1;
      }
      WholeTable16(crc16tab[..], code, init);
    }

    /** The inner loop of the generator: one index, bit by bit. */
    static method Serial32(code: bv32, init: bv32, nb: bv8) returns (crc: bv32)
      ensures crc == Register32(code, init, nb)
    {
      hide Add, AtTop, ShiftBy, Steps, MaskedBit, Shl, High, Round32, Corrected32;
      crc := init;
      var j := 0;
      SerialStart(crc, code, nb);
      while j < 8
        invariant 0 <= j <= 8
        invariant Steps(code, Add(init, AtTop(nb)), j) == Add(crc, ShiftBy(AtTop(nb), j))
      {
        Round32IsStep(code, crc, MaskedBit(nb, j));
        ghost var before := crc;
        crc := Round32(code, crc, MaskedBit(nb, j));
        SerialStep(code, init, before, crc, nb, j);
        j := j + 1;
      }
      SerialDone(code, init, crc, nb);
      Correct32(crc);
      crc := Corrected32(crc);
    }

    /** Overwrites the table; with an all-ones `init` by the table of `code`. */
    method InitCrc32Tab(code: bv32, init: bv32)
      requires Valid()
      modifies crc32tab
      ensures IsGenerated32(crc32tab[..], code, init)
      ensures init == 0xffff_ffff ==> IsTable32(crc32tab[..], code)
      ensures init == 0xffff_ffff && code == CODE32 ==> crc32tab[..] == Table32()
    {
      hide Raw, Entry, Add, Steps, AtTop, Wanted32, Register32, Flip, Octet, Entry32;
      var i := 0;
      while i < 256
        invariant 0 <= i <= 256
        invariant forall k | 0 <= k < i :: crc32tab[k] == Wanted32(code, init, Octet(k))
      {
        var crc := Serial32(code, init, Flip(Octet(i)));
        WantedIs32(code, init, Octet(i));
        crc32tab[i] := crc;
        i := i + 1;
      }
      WholeTable32(crc32tab[..], code, init);
    }
  }

  function Octet(i: nat): bv8
    requires i < 256
  {
    i as bv8
  }

  lemma OctetOf(i: bv8)
    ensures i as int < 256 && Octet(i as int) == i
  {}

  lemma AllOctets8(tab: seq<bv8>, code: bv8, init: bv8)
    requires |tab| == 256
    requires forall k | 0 <= k < 256 :: Top8(tab[k]) == Raw(Top8(code), Top8(init), Octet(k))
    ensures IsGenerated8(tab, code, init)
  {
    hide Raw, Add, Octet, Top8;
    forall i: bv8 ensures Top8(tab[i as int]) == Raw(Top8(code), Top8(init), i) {
      OctetOf(i);
    }
  }

  /** The register after the bits of `nb` and the correction, at the top of a word. */
  function Register8(code: bv8, init: bv8, nb: bv8): bv32 {
    Steps(Top8(code), Add(Top8(init), AtTop(nb)), 8)
  }

  /** Entry `i` of the generated table, at the top of a word. */
  function Wanted8(code: bv8, init: bv8, i: bv8): bv32 {
    Raw(Top8(code), Top8(init), i)
  }

  lemma WantedIs8(code: bv8, init: bv8, i: bv8)
    ensures Wanted8(code, init, i) == Register8(code, init, Flip(i))
  {}

  /** A whole generated table, by the octets of its indices. */
  lemma WholeTable8(tab: seq<bv8>, code: bv8, init: bv8)
    requires |tab| == 256
    requires forall k | 0 <= k < 256 :: Top8(tab[k]) == Wanted8(code, init, Octet(k))
    ensures IsGenerated8(tab, code, init)
    ensures init == 0xff ==> IsTable8(tab, code) && (code == CODE8 ==> tab == Table8())
  {
    hide Raw, Add, Octet, Entry, Top8;
    AllOctets8(tab, code, init);
    OnesGenerateTables(tab, code, [], 0, [], 0);
    StaticTables();
    TablesUnique(tab, Table8(), CODE8, [], [], 0, [], [], 0);
  }

  lemma AllOctets16(tab: seq<bv16>, code: bv16, init: bv16)
    requires |tab| == 256
    requires forall k | 0 <= k < 256 :: Top16(tab[k]) == Add(Raw(Top16(code), Top16(init), Octet(k)), CORRECTION16)
    ensures IsGenerated16(tab, code, init)
  {
    hide Raw, Add, Octet, Top16;
    forall i: bv8 ensures Top16(tab[i as int]) == Add(Raw(Top16(code), Top16(init), i), CORRECTION16) {
      OctetOf(i);
    }
  }

  /** The register after the bits of `nb` and the correction, at the top of a word. */
  function Register16(code: bv16, init: bv16, nb: bv8): bv32 {
    Add(Steps(Top16(code), Add(Top16(init), AtTop(nb)), 8), CORRECTION16)
  }

  /** Entry `i` of the generated table, at the top of a word. */
  function Wanted16(code: bv16, init: bv16, i: bv8): bv32 {
    Add(Raw(Top16(code), Top16(init), i), CORRECTION16)
  }

  lemma WantedIs16(code: bv16, init: bv16, i: bv8)
    ensures Wanted16(code, init, i) == Register16(code, init, Flip(i))
  {}

  /** A whole generated table, by the octets of its indices. */
  lemma WholeTable16(tab: seq<bv16>, code: bv16, init: bv16)
    requires |tab| == 256
    requires forall k | 0 <= k < 256 :: Top16(tab[k]) == Wanted16(code, init, Octet(k))
    ensures IsGenerated16(tab, code, init)
    ensures init == 0xffff ==> IsTable16(tab, code) && (code == CODE16 ==> tab == Table16())
  {
    hide Raw, Add, Octet, Entry, Top16;
    AllOctets16(tab, code, init);
    OnesGenerateTables([], 0, tab, code, [], 0);
    StaticTables();
    TablesUnique([], [], 0, tab, Table16(), CODE16, [], [], 0);
  }

  lemma AllOctets32(tab: seq<bv32>, code: bv32, init: bv32)
    requires |tab| == 256
    requires forall k | 0 <= k < 256 :: tab[k] == Add(Raw(code, init, Octet(k)), CORRECTION32)
    ensures IsGenerated32(tab, code, init)
  {
    hide Raw, Add, Octet;
    forall i: bv8 ensures tab[i as int] == Add(Raw(code, init, i), CORRECTION32) {
      OctetOf(i);
    }
  }

  /** The register after the bits of `nb` and the correction, at the top of a word. */
  function Register32(code: bv32, init: bv32, nb: bv8): bv32 {
    Add(Steps(code, Add(init, AtTop(nb)), 8), CORRECTION32)
  }

  /** Entry `i` of the generated table, at the top of a word. */
  function Wanted32(code: bv32, init: bv32, i: bv8): bv32 {
    Add(Raw(code, init, i), CORRECTION32)
  }

  lemma WantedIs32(code: bv32, init: bv32, i: bv8)
    ensures Wanted32(code, init, i) == Register32(code, init, Flip(i))
  {}

  /** A whole generated table, by the octets of its indices. */
  lemma WholeTable32(tab: seq<bv32>, code: bv32, init: bv32)
    requires |tab| == 256
    requires forall k | 0 <= k < 256 :: tab[k] == Wanted32(code, init, Octet(k))
    ensures IsGenerated32(tab, code, init)
    ensures init == 0xffff_ffff ==> IsTable32(tab, code) && (code == CODE32 ==> tab == Table32())
  {
    hide Raw, Add, Octet, Entry;
    AllOctets32(tab, code, init);
    OnesGenerateTables([], 0, [], 0, tab, code);
    StaticTables();
    TablesUnique([], [], 0, [], [], 0, tab, Table32(), CODE32);
  }

  /** One round of the inner loop, for the next bit of the flipped index. */
  function Round8(code: bv8, crc: bv8, bit: bool): bv8 {
    var msb := (if bit then 1 else 0) ^ (crc >> 7);
    if msb != 0 then (crc << 1) ^ code else crc << 1
  }

  lemma Msb8(crc: bv8, bit: bool)
    ensures (if bit then 1 else 0) ^ (crc >> 7) != 0 <==> High(Top8(crc)) != bit
  {}

  lemma Shift8(crc: bv8)
    ensures Top8(crc << 1) == Shl(Top8(crc))
  {}

  lemma Sum8(x: bv8, y: bv8)
    ensures Top8(x ^ y) == Add(Top8(x), Top8(y))
  {}

  /** A round on a 8-bit register is a step of the engine. */
  lemma Round8IsStep(code: bv8, crc: bv8, bit: bool)
    ensures Top8(Round8(code, crc, bit)) == Add(Shl(Top8(crc)), if High(Top8(crc)) != bit then Top8(code) else 0)
  {
    hide High, Shl, Add, Top8;
    Msb8(crc, bit);
    AddZero(Shl(Top8(crc)));
    Shift8(crc);
    Sum8(crc << 1, code);
  }

  /** One round of the inner loop, for the next bit of the flipped index. */
  function Round16(code: bv16, crc: bv16, bit: bool): bv16 {
    var msb := (if bit then 1 else 0) ^ (crc >> 15);
    if msb != 0 then (crc << 1) ^ code else crc << 1
  }

  lemma Msb16(crc: bv16, bit: bool)
    ensures (if bit then 1 else 0) ^ (crc >> 15) != 0 <==> High(Top16(crc)) != bit
  {}

  lemma Shift16(crc: bv16)
    ensures Top16(crc << 1) == Shl(Top16(crc))
  {}

  lemma Sum16(x: bv16, y: bv16)
    ensures Top16(x ^ y) == Add(Top16(x), Top16(y))
  {}

  /** A round on a 16-bit register is a step of the engine. */
  lemma Round16IsStep(code: bv16, crc: bv16, bit: bool)
    ensures Top16(Round16(code, crc, bit)) == Add(Shl(Top16(crc)), if High(Top16(crc)) != bit then Top16(code) else 0)
  {
    hide High, Shl, Add, Top16;
    Msb16(crc, bit);
    AddZero(Shl(Top16(crc)));
    Shift16(crc);
    Sum16(crc << 1, code);
  }

  /** One round of the inner loop, for the next bit of the flipped index. */
  function Round32(code: bv32, crc: bv32, bit: bool): bv32 {
    var msb := (if bit then 1 else 0) ^ (crc >> 31);
    if msb != 0 then (crc << 1) ^ code else crc << 1
  }

  lemma Msb32(crc: bv32, bit: bool)
    ensures (if bit then 1 else 0) ^ (crc >> 31) != 0 <==> High(crc) != bit
  {}

  lemma Shift32(crc: bv32, code: bv32)
    ensures crc << 1 == Shl(crc) && (crc << 1) ^ code == Add(Shl(crc), code)
  {}

  /** A round on a 32-bit register is a step of the engine. */
  lemma Round32IsStep(code: bv32, crc: bv32, bit: bool)
    ensures Round32(code, crc, bit) == Add(Shl(crc), if High(crc) != bit then code else 0)
  {
    hide High, Shl, Add;
    Msb32(crc, bit);
    AddZero(Shl(crc));
    Shift32(crc, code);
  }

  function Corrected16(crc: bv16): bv16 {
    crc ^ 0xff00
  }

  function Corrected32(crc: bv32): bv32 {
    crc ^ 0xffff_ff00
  }

  lemma Correct16(crc: bv16)
    ensures Top16(Corrected16(crc)) == Add(Top16(crc), CORRECTION16)
  {
    assert Top16(0xff00) == CORRECTION16;
    hide Top16, Add;
    Sum16(crc, 0xff00);
  }

  lemma Correct32(crc: bv32)
    ensures Corrected32(crc) == Add(crc, CORRECTION32)
  {}
}
