/** lib/charset/charset.cpp: conversion between UTF-8 and EBU Latin.  The converter is modelled
    for any table of single valid characters; EbuTable.dfy supplies the real one. */
module Charset {

  import opened Rfc3629
  import opened Utf8Core
  import opened Utf8Checked

  /** One character of an EBU Latin string: a number, not a UTF-8 octet. */
  type EbuChar = x: int | 0 <= x <= 255

  const TABLE_OFFSET: nat := 1
  const TABLE_ENTRIES: nat := 256 - TABLE_OFFSET
  const EBU_SPACE: EbuChar := 0x20
  const SPACE: seq<Octet> := [0x20]

  /** What stands for NUL in a converted string: U+2047. */
  const UNKNOWN: seq<Octet> := [0xe2, 0x81, 0x87]

  ghost predicate IsTable(table: seq<seq<Octet>>) {
    && |table| == TABLE_ENTRIES
    && (forall i | 0 <= i < TABLE_ENTRIES :: 1 <= |table[i]| <= 4 && IsChar(table[i]))
    && (forall i, j | 0 <= i < j < TABLE_ENTRIES :: table[i] != table[j])
    && table[EBU_SPACE - TABLE_OFFSET] == SPACE
    && UNKNOWN !in table
  }

  /** The code points of the table. */
  function Decoded(table: seq<seq<Octet>>): (t: seq<bv32>)
    requires forall i | 0 <= i < |table| :: 1 <= |table[i]| <= 4
    ensures |t| == |table|
    ensures forall i | 0 <= i < |t| :: t[i] == Payload(table[i])
  {
    seq(|table|, i requires 0 <= i < |table| => Payload(table[i]))
  }

  /** Index of the first entry equal to `cp`, |t| if there is none. */
  function IndexOf(t: seq<bv32>, cp: bv32): (i: nat)
    ensures i <= |t|
    ensures forall k | 0 <= k < i :: t[k] != cp
    ensures i < |t| ==> t[i] == cp
  {
    if t == [] || t[0] == cp then 0 else 1 + IndexOf(t[1..], cp)
  }

  function EbuOf(t: seq<bv32>, cp: bv32): EbuChar
    requires |t| == TABLE_ENTRIES
  {
    var i := IndexOf(t, cp);
    if i < |t| then i + TABLE_OFFSET else EBU_SPACE
  }

  function ToEbu(t: seq<bv32>, cps: seq<bv32>): seq<EbuChar>
    requires |t| == TABLE_ENTRIES
  {
    seq(|cps|, i requires 0 <= i < |cps| => EbuOf(t, cps[i]))
  }

  function StringOf(table: seq<seq<Octet>>, c: EbuChar): seq<Octet>
    requires |table| == TABLE_ENTRIES
  {
    if c >= TABLE_OFFSET then table[c - TABLE_OFFSET] else UNKNOWN
  }

  function FromEbu(table: seq<seq<Octet>>, str: seq<EbuChar>): seq<Octet>
    requires |table| == TABLE_ENTRIES
  {
    if str == [] then [] else StringOf(table, str[0]) + FromEbu(table, str[1..])
  }

  // ------------------------------------------------------------------------- the converter

  class CharsetConverter {
    const utf8Encoded: seq<seq<Octet>>
    var conversionTable: seq<bv32>

    ghost predicate Valid()
      reads this
    {
      IsTable(utf8Encoded) && conversionTable == Decoded(utf8Encoded)
    }

    lemma ValidSize()
      requires Valid()
      ensures |utf8Encoded| == |conversionTable| == TABLE_ENTRIES
    {}

    /** Builds the table of code points: the first character of every entry. */
    constructor (utf8Encoded: seq<seq<Octet>>)
      requires IsTable(utf8Encoded)
      ensures Valid() && this.utf8Encoded == utf8Encoded
    {
      this.utf8Encoded := utf8Encoded;
      conversionTable := [];
      new;
      hide Char1, Char2, Char3, Char4, Bits2, Bits3, Bits4, NextOutcome;
      for i := 0 to TABLE_ENTRIES
        invariant |conversionTable| == i
        invariant forall k | 0 <= k < i :: conversionTable[k] == Payload(utf8Encoded[k])
      {
        var entry := utf8Encoded[i];
        CharReads(entry);
        var r, ignored := Next(entry, 0, |entry|);
        conversionTable := conversionTable + [r.value];
      }
    }

    method Find(cp: bv32) returns (index: nat)
      ensures index == IndexOf(conversionTable, cp)
    {
      index := 0;
      while index < |conversionTable| && conversionTable[index] != cp
        invariant index <= |conversionTable|
        invariant IndexOf(conversionTable, cp) == index + IndexOf(conversionTable[index..], cp)
      {
        index := index + 1;
      }
    }

    /** Up to the first error the valid prefix is converted and nothing is thrown; otherwise
        the call throws exactly when the line is no text. */
    method Utf8ToEbu(line: seq<Octet>, upToFirstError: bool) returns (r: Outcome<seq<EbuChar>>)
      requires Valid()
      ensures upToFirstError || IsText(line) ==> r == Returned(ToEbu(conversionTable, CodePoints(line)))
      ensures !upToFirstError && !IsText(line) ==> r.Thrown? && ReadAll(line) == Failed(r.exc)
    {
      hide IsChar, ReadAll, CodePoints, ValidPrefix, IsText, ToEbu;
      var end;
      if upToFirstError {
        end := FindInvalid(line, 0, |line|);
      } else {
        end := |line|;
      }
      assert line[0..|line|] == line && line[0..end] == line[..end];
      PrefixReads(line, end);
      var c, utf32line := Utf8To32(line, 0, end, []);
      assert utf32line == CodePoints(line);
      if c != Done {
        return Thrown(c.exc);
      }
      var encoded := EncodeLine(utf32line);
      r := Returned(encoded);
    }

    /** The part that tries to convert each code point. */
    method EncodeLine(utf32line: seq<bv32>) returns (encodedLine: seq<EbuChar>)
      requires Valid()
      ensures encodedLine == ToEbu(conversionTable, utf32line)
    {
      hide IsChar, IndexOf;
      var encoded := new EbuChar[|utf32line|](_ => 0x30);
      for i := 0 to |utf32line|
        invariant forall k | 0 <= k < i :: encoded[k] == EbuOf(conversionTable, utf32line[k])
      {
        var index := Find(utf32line[i]);
        if index != |conversionTable| {
          encoded[i] := index + TABLE_OFFSET;
        } else {
          encoded[i] := EBU_SPACE;
        }
      }
      encodedLine := encoded[..];
    }

    method EbuToUtf8(str: seq<EbuChar>) returns (utf8Str: seq<Octet>)
      requires Valid()
      ensures utf8Str == FromEbu(utf8Encoded, str)
    {
      hide Valid, IsTable, Decoded, StringOf, FromEbu, Converted;
      ValidSize();
      utf8Str := [];
      ConversionEnds(utf8Encoded, str, utf8Str);
      for i := 0 to |str|
        invariant Converted(utf8Encoded, str, 0, []) == Converted(utf8Encoded, str, i, utf8Str)
      {
        ConversionStep(utf8Encoded, str, i, utf8Str);
        StringIs(utf8Encoded, str[i]);
        var c := str[i];
        if c >= TABLE_OFFSET {
          utf8Str := utf8Str + utf8Encoded[c - TABLE_OFFSET];
        } else {
          utf8Str := utf8Str + UNKNOWN;
        }
      }
      ConversionEnds(utf8Encoded, str, utf8Str);
    }
  }

  /** The result once the characters from `i` on have been converted behind `done`. */
  function Converted(table: seq<seq<Octet>>, str: seq<EbuChar>, i: nat, done: seq<Octet>): seq<Octet>
    requires |table| == TABLE_ENTRIES && i <= |str|
  {
    done + FromEbu(table, str[i..])
  }

  lemma ConversionEnds(table: seq<seq<Octet>>, str: seq<EbuChar>, done: seq<Octet>)
    requires |table| == TABLE_ENTRIES
    ensures Converted(table, str, 0, []) == FromEbu(table, str) && Converted(table, str, |str|, done) == done
  {
    assert str[0..] == str && str[|str|..] == [];
  }

  lemma ConversionStep(table: seq<seq<Octet>>, str: seq<EbuChar>, i: nat, done: seq<Octet>)
    requires |table| == TABLE_ENTRIES && i < |str|
    ensures Converted(table, str, i, done) == Converted(table, str, i + 1, done + StringOf(table, str[i]))
  {
    hide StringOf;
    assert str[i..][1..] == str[i + 1..];
  }

  lemma StringIs(table: seq<seq<Octet>>, c: EbuChar)
    requires |table| == TABLE_ENTRIES
    ensures StringOf(table, c) == if c >= TABLE_OFFSET then table[c - TABLE_OFFSET] else UNKNOWN
  {}

  lemma CharReads(c: seq<Octet>)
    requires IsChar(c)
    ensures 1 <= |c| <= 4 && c[0..|c|] == c && NextOutcome(c) == Returned(Payload(c))
  {
    hide IsChar, Payload;
    CharIsText(c);
    CharHasLength(c);
  }

  /** The valid prefix and the whole line hold the same code points. */
  lemma PrefixReads(line: seq<Octet>, end: nat)
    requires end <= |line| && (end == ValidPrefix(line) || end == |line|)
    ensures CodePoints(line[..end]) == CodePoints(line)
    ensures end == ValidPrefix(line) ==> ReadAll(line[..end]) == Done
    ensures end == |line| ==> line[..end] == line && (ReadAll(line) == Done <==> IsText(line))
  {
    hide IsText, CodePoints, ValidPrefix, NextException;
    if end == |line| {
      assert line[..end] == line;
    } else {
      EncodeCodePoints(line);
      TextsAreEncodings(line[..end], CodePoints(line));
    }
    TextIffWhole(line);
    TextIffWhole(line[..end]);
    ValidPrefixIsLongest(line, 0);
  }
}
