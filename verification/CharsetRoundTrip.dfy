/** What the two conversions of the EBU Latin converter are to each other, for any table that
    meets the converter's demands. */
module CharsetRoundTrip {

  import opened Rfc3629
  import opened Charset

  /** The code point an EBU Latin character stands for. */
  function PointOf(t: seq<bv32>, c: EbuChar): bv32
    requires |t| == TABLE_ENTRIES
  {
    if c >= TABLE_OFFSET then t[c - TABLE_OFFSET] else 0x2047
  }

  function Points(t: seq<bv32>, str: seq<EbuChar>): seq<bv32>
    requires |t| == TABLE_ENTRIES
  {
    seq(|str|, i requires 0 <= i < |str| => PointOf(t, str[i]))
  }

  /** NUL cannot be represented: it comes back as a space. */
  function NulToSpace(str: seq<EbuChar>): seq<EbuChar> {
    seq(|str|, i requires 0 <= i < |str| => if str[i] == 0 then EBU_SPACE else str[i])
  }

  /** Code points outside the table become spaces. */
  function OnlyKnown(t: seq<bv32>, cps: seq<bv32>): seq<bv32> {
    seq(|cps|, i requires 0 <= i < |cps| => if cps[i] in t then cps[i] else 0x20)
  }

  /** The table as code points: scalar values, pairwise different, with the space where EBU
      Latin has it and without U+2047. */
  ghost predicate IsPointTable(t: seq<bv32>) {
    && |t| == TABLE_ENTRIES
    && AllScalar(t)
    && (forall i, j | 0 <= i < j < |t| :: t[i] != t[j])
    && t[EBU_SPACE - TABLE_OFFSET] == 0x20
    && 0x2047 !in t
  }

  lemma UnknownAndSpace()
    ensures IsScalarValue(0x2047) && Encode(0x2047) == UNKNOWN && IsScalarValue(0x20) && Payload(SPACE) == 0x20
  {}

  lemma TableOfPoints(table: seq<seq<Octet>>)
    requires IsTable(table)
    ensures IsPointTable(Decoded(table))
    ensures forall c: EbuChar ::
              StringOf(table, c) == Encode(PointOf(Decoded(table), c)) && IsScalarValue(PointOf(Decoded(table), c))
  {
    hide Char1, Char2, Char3, Char4, Payload, Encode, IsScalarValue;
    var t := Decoded(table);
    UnknownAndSpace();
    forall i | 0 <= i < |t| ensures IsScalarValue(t[i]) && Encode(t[i]) == table[i] {
      CharIsEncoding(table[i]);
    }
  }

  lemma {:induction false} FromEbuEncodes(table: seq<seq<Octet>>, str: seq<EbuChar>)
    requires IsTable(table)
    ensures FromEbu(table, str) == EncodeAll(Points(Decoded(table), str))
    ensures AllScalar(Points(Decoded(table), str))
  {
    hide IsChar, IsScalarValue, Encode, StringOf, PointOf, Decoded;
    TableOfPoints(table);
    var points := Points(Decoded(table), str);
    if str != [] {
      FromEbuEncodes(table, str[1..]);
      assert points[1..] == Points(Decoded(table), str[1..]);
    }
  }

  lemma IndexOfUnique(t: seq<bv32>, cp: bv32, i: nat)
    requires IsPointTable(t)
    ensures i < |t| && t[i] == cp ==> IndexOf(t, cp) == i
    ensures cp !in t ==> IndexOf(t, cp) == |t|
  {
    hide IsScalarValue;
    var j := IndexOf(t, cp);
    assert j < |t| ==> t[j] in t;
  }

  lemma EbuOfPoint(t: seq<bv32>, c: EbuChar)
    requires IsPointTable(t)
    ensures EbuOf(t, PointOf(t, c)) == if c == 0 then EBU_SPACE else c
  {
    hide IsScalarValue, IndexOf;
    IndexOfUnique(t, PointOf(t, c), if c == 0 then 0 else c - TABLE_OFFSET);
  }

  lemma PointOfEbu(t: seq<bv32>, cp: bv32)
    requires IsPointTable(t)
    ensures PointOf(t, EbuOf(t, cp)) == if cp in t then cp else 0x20
  {
    hide IsScalarValue;
    if cp !in t {
      IndexOfUnique(t, cp, 0);
    }
  }

  /** EBU Latin to UTF-8 and back: every string without NUL returns unchanged, NUL returns as
      a space, and the intermediate line is a valid text with one character for each of the
      string's. */
  lemma EbuRoundTrip(table: seq<seq<Octet>>, str: seq<EbuChar>)
    requires IsTable(table)
    ensures
      var line := FromEbu(table, str);
      && IsText(line)
      && |CodePoints(line)| == |str|
      && ToEbu(Decoded(table), CodePoints(line)) == NulToSpace(str)
      && (0 !in str ==> ToEbu(Decoded(table), CodePoints(line)) == str)
  {
    hide IsChar, IsText, IsScalarValue, CodePoints, EncodeAll, PointOf, EbuOf, Decoded, FromEbu, IsPointTable;
    var t := Decoded(table);
    var points := Points(t, str);
    FromEbuEncodes(table, str);
    TextsAreEncodings(FromEbu(table, str), points);
    TableOfPoints(table);
    forall i | 0 <= i < |str|
      ensures EbuOf(t, points[i]) == if str[i] == 0 then EBU_SPACE else str[i]
    {
      EbuOfPoint(t, str[i]);
    }
  }

  /** UTF-8 to EBU Latin and back: what returns is the valid prefix with a space for each code
      point outside the table. */
  lemma Utf8RoundTrip(table: seq<seq<Octet>>, line: seq<Octet>)
    requires IsTable(table)
    ensures
      var t := Decoded(table);
      var str := ToEbu(t, CodePoints(line));
      && |str| == |CodePoints(line)|
      && 0 !in str
      && FromEbu(table, str) == EncodeAll(OnlyKnown(t, CodePoints(line)))
      && ((forall cp | cp in CodePoints(line) :: cp in t) ==> FromEbu(table, str) == line[..ValidPrefix(line)])
  {
    hide IsChar, IsScalarValue, CodePoints, ValidPrefix, EncodeAll, PointOf, IndexOf, Decoded, FromEbu, IsPointTable;
    var t := Decoded(table);
    var cps := CodePoints(line);
    var str := ToEbu(t, cps);
    FromEbuEncodes(table, str);
    TableOfPoints(table);
    forall i | 0 <= i < |cps|
      ensures PointOf(t, str[i]) == if cps[i] in t then cps[i] else 0x20
    {
      PointOfEbu(t, cps[i]);
    }
    assert Points(t, str) == OnlyKnown(t, cps);
    EncodeCodePoints(line);
    if forall cp | cp in cps :: cp in t {
      assert OnlyKnown(t, cps) == cps;
    }
  }

  /** Converting there and back a second time changes nothing. */
  lemma Utf8RoundTripIdempotent(table: seq<seq<Octet>>, line: seq<Octet>)
    requires IsTable(table)
    ensures
      var t := Decoded(table);
      var once := FromEbu(table, ToEbu(t, CodePoints(line)));
      IsText(once) && FromEbu(table, ToEbu(t, CodePoints(once))) == once
  {
    hide IsChar, IsText, CodePoints, ToEbu, Decoded, FromEbu;
    Utf8RoundTrip(table, line);
    EbuRoundTrip(table, ToEbu(Decoded(table), CodePoints(line)));
  }
}
