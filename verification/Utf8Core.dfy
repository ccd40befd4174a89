/** lib/charset/utf8/core.h: sequence lengths, the validating decoder and the scan for the
    first invalid octet.  Iterators are indices into the octets they run over; an iterator
    passed by reference becomes an in-parameter and an out-parameter. */
module Utf8Core {

  import opened Rfc3629

  datatype UtfError =
    | Utf8Ok | NotEnoughRoom | InvalidLead | IncompleteSequence | OverlongSequence | InvalidCodePoint

  const LEAD_SURROGATE_MIN: bv32 := 0xd800
  const LEAD_SURROGATE_MAX: bv32 := 0xdbff
  const TRAIL_SURROGATE_MIN: bv32 := 0xdc00
  const TRAIL_SURROGATE_MAX: bv32 := 0xdfff
  const LEAD_OFFSET: bv32 := LEAD_SURROGATE_MIN - (0x10000 >> 10)
  const SURROGATE_OFFSET: bv32 := 0x10000 - (LEAD_SURROGATE_MIN << 10) - TRAIL_SURROGATE_MIN
  const CODE_POINT_MAX: bv32 := 0x0010ffff
  const BOM: seq<Octet> := [0xef, 0xbb, 0xbf]

  predicate IsTrail(oc: Octet): (r: bool)
    ensures r <==> IsTail(oc)
  {
    (oc >> 6) == 0x2
  }

  predicate IsLeadSurrogate(cp: bv32) {
    LEAD_SURROGATE_MIN <= cp <= LEAD_SURROGATE_MAX
  }

  predicate IsTrailSurrogate(cp: bv32) {
    TRAIL_SURROGATE_MIN <= cp <= TRAIL_SURROGATE_MAX
  }

  predicate IsSurrogate(cp: bv32) {
    LEAD_SURROGATE_MIN <= cp <= TRAIL_SURROGATE_MAX
  }

  predicate IsCodePointValid(cp: bv32): (r: bool)
    ensures r <==> IsScalarValue(cp)
  {
    cp <= CODE_POINT_MAX && !IsSurrogate(cp)
  }

  function SequenceLength(lead: Octet): (n: nat)
    ensures n <= 4
  {
    if lead < 0x80 then 1
    else if (lead >> 5) == 0x6 then 2
    else if (lead >> 4) == 0xe then 3
    else if (lead >> 3) == 0x1e then 4
    else 0
  }

  /** The lengths by the ranges of the lead octet: nothing is announced by a trail octet, nor from
      F8 on. */
  lemma LengthByRange(lead: Octet)
    ensures SequenceLength(lead) == 1 <==> lead <= 0x7F
    ensures SequenceLength(lead) == 2 <==> 0xC0 <= lead <= 0xDF
    ensures SequenceLength(lead) == 3 <==> 0xE0 <= lead <= 0xEF
    ensures SequenceLength(lead) == 4 <==> 0xF0 <= lead <= 0xF7
    ensures SequenceLength(lead) == 0 <==> IsTail(lead) || 0xF8 <= lead
  {}

  predicate IsOverlongSequence(cp: bv32, length: nat) {
    if cp < 0x80 then length != 1
    else if cp < 0x800 then length != 2
    else if cp < 0x10000 then length != 3
    else false
  }

  // ------------------------------------------------------------- what a decoder may find

  /** Number of trail octets at the front of `s`. */
  function TrailRun(s: seq<Octet>): (k: nat)
    ensures k <= |s|
    ensures forall i | 0 <= i < k :: IsTail(s[i])
    ensures k < |s| ==> !IsTail(s[k])
  {
    if s == [] || !IsTail(s[0]) then 0 else 1 + TrailRun(s[1..])
  }

  /** Whether the octet at the front of `s` is followed by the trail octets of a sequence
      of `n` octets, and if not, whether `s` ended or another octet came first. */
  function TrailError(s: seq<Octet>, n: nat): UtfError
    requires s != []
  {
    var k := TrailRun(s[1..]);
    if n <= k + 1 then Utf8Ok else if k + 1 == |s| then NotEnoughRoom else IncompleteSequence
  }

  /** The verdict on the sequence at the front of `s`. */
  function Classify(s: seq<Octet>): UtfError
    requires s != []
  {
    var n := SequenceLength(s[0]);
    if FrontChar(s) > 0 then Utf8Ok
    else if n == 0 then InvalidLead
    else if TrailError(s, n) != Utf8Ok then TrailError(s, n)
    else if IsScalarValue(Payload(s[..n])) then OverlongSequence
    else InvalidCodePoint
  }

  lemma Checks2(a: Octet, b: Octet)
    requires SequenceLength(a) == 2 && IsTail(b)
    ensures Char2(a, b) <==> IsCodePointValid(Bits2(a, b)) && !IsOverlongSequence(Bits2(a, b), 2)
  {}

  lemma Checks3(a: Octet, b: Octet, c: Octet)
    requires SequenceLength(a) == 3 && IsTail(b) && IsTail(c)
    ensures Char3(a, b, c) <==> IsCodePointValid(Bits3(a, b, c)) && !IsOverlongSequence(Bits3(a, b, c), 3)
  {}

  lemma Checks4(a: Octet, b: Octet, c: Octet, d: Octet)
    requires SequenceLength(a) == 4 && IsTail(b) && IsTail(c) && IsTail(d)
    ensures Char4(a, b, c, d) <==> IsCodePointValid(Bits4(a, b, c, d)) && !IsOverlongSequence(Bits4(a, b, c, d), 4)
  {}

  /** The two checks after decoding accept exactly the characters of the grammar: for a
      lead octet of a sequence of `n` octets and `n - 1` trail octets. */
  lemma ChecksAcceptChars(s: seq<Octet>, n: nat)
    requires 1 <= n <= |s| && SequenceLength(s[0]) == n
    requires forall i | 1 <= i < n :: IsTail(s[i])
    ensures IsChar(s[..n]) <==> IsCodePointValid(Payload(s[..n])) && !IsOverlongSequence(Payload(s[..n]), n)
  {
    hide SequenceLength, Bits2, Bits3, Bits4, Char1, Char2, Char3, Char4, IsTail, IsScalarValue, IsCodePointValid, IsOverlongSequence;
    if n == 1 {
      Checks1(s[0]);
    } else if n == 2 {
      Checks2(s[0], s[1]);
    } else if n == 3 {
      Checks3(s[0], s[1], s[2]);
    } else {
      Checks4(s[0], s[1], s[2], s[3]);
    }
  }

  lemma Checks1(a: Octet)
    requires SequenceLength(a) == 1
    ensures Char1(a) && IsCodePointValid(a as bv32) && !IsOverlongSequence(a as bv32, 1)
  {}

  lemma CharHasLength(c: seq<Octet>)
    requires IsChar(c)
    ensures 1 <= |c| <= 4 && SequenceLength(c[0]) == |c|
    ensures forall i | 1 <= i < |c| :: IsTail(c[i])
    ensures !IsTail(c[0])
  {}

  /** The front of `s` is a character exactly when its lead octet announces a length, that
      many octets follow, and they form a character. */
  lemma FrontByLead(s: seq<Octet>)
    requires s != []
    ensures
      var n := SequenceLength(s[0]);
      FrontChar(s) == if n > 0 && TrailError(s, n) == Utf8Ok && IsChar(s[..n]) then n else 0
  {
    hide SequenceLength, IsChar, IsTail;
    var n := SequenceLength(s[0]);
    var m := FrontChar(s);
    if m > 0 {
      CharHasLength(s[..m]);
      assert s[..m][0] == s[0];
      forall i | 0 <= i < m - 1 ensures IsTail(s[1..][i]) {
        assert s[..m][i + 1] == s[1..][i];
      }
    }
  }

  // ------------------------------------------------------------------ the decoder itself

  method IncreaseSafely(s: seq<Octet>, it0: nat, end: nat) returns (err: UtfError, it: nat)
    requires it0 < end <= |s|
    ensures it == it0 + 1
    ensures err == if it == end then NotEnoughRoom else if IsTail(s[it]) then Utf8Ok else IncompleteSequence
  {
    it := it0 + 1;
    if it == end {
      return NotEnoughRoom, it;
    }
    if !IsTrail(s[it]) {
      return IncompleteSequence, it;
    }
    err := Utf8Ok;
  }

  /** What every get_sequence_x promises for its length `n`: the verdict on the trail octets,
      where the iterator stops, and on success the payload of all `n` octets. */
  ghost predicate Gets(s: seq<Octet>, it0: nat, end: nat, n: nat, err: UtfError, it: nat, cp: bv32)
    requires it0 <= end <= |s| && 1 <= n <= 4
  {
    if it0 == end then
      err == NotEnoughRoom && it == it0
    else
      var k := TrailRun(s[it0..end][1..]);
      && err == TrailError(s[it0..end], n)
      && it == it0 + (if n <= k + 1 then n - 1 else k + 1)
      && (err == Utf8Ok ==> it0 + n <= end && cp == Payload(s[it0..it0 + n]))
  }

  method GetSequence1(s: seq<Octet>, it0: nat, end: nat) returns (err: UtfError, it: nat, cp: bv32)
    requires it0 <= end <= |s|
    ensures Gets(s, it0, end, 1, err, it, cp)
  {
    it, cp := it0, 0;
    if it == end {
      return NotEnoughRoom, it, cp;
    }
    cp := s[it] as bv32;
    err := Utf8Ok;
  }

  /** One more trail octet: how the run of trail octets grows. */
  lemma RunStep(s: seq<Octet>, j: nat)
    requires j <= TrailRun(s)
    ensures j < TrailRun(s) <==> j < |s| && IsTail(s[j])
  {}

  method GetSequence2(s: seq<Octet>, it0: nat, end: nat) returns (err: UtfError, it: nat, cp: bv32)
    requires it0 <= end <= |s|
    ensures Gets(s, it0, end, 2, err, it, cp)
  {
    it, cp := it0, 0;
    if it == end {
      return NotEnoughRoom, it, cp;
    }
    ghost var t := s[it0..end];
    cp := s[it] as bv32;
    RunStep(t[1..], 0);
    err, it := IncreaseSafely(s, it, end);
    if err != Utf8Ok {
      return err, it, cp;
    }
    Sum2(s[it0], s[it]);
    cp := ((cp << 6) & 0x7ff) + (s[it] as bv32 & 0x3f);
  }

  lemma Sum2(a: Octet, b: Octet)
    ensures ((a as bv32 << 6) & 0x7ff) + (b as bv32 & 0x3f) == Bits2(a, b)
  {}

  method GetSequence3(s: seq<Octet>, it0: nat, end: nat) returns (err: UtfError, it: nat, cp: bv32)
    requires it0 <= end <= |s|
    ensures Gets(s, it0, end, 3, err, it, cp)
  {
    hide IsTail, Bits3;
    it, cp := it0, 0;
    if it == end {
      return NotEnoughRoom, it, cp;
    }
    ghost var t := s[it0..end];
    cp := s[it] as bv32;
    RunStep(t[1..], 0);
    err, it := IncreaseSafely(s, it, end);
    if err != Utf8Ok {
      return err, it, cp;
    }
    cp := ((cp << 12) & 0xffff) + ((s[it] as bv32 << 6) & 0xfff);
    RunStep(t[1..], 1);
    err, it := IncreaseSafely(s, it, end);
    if err != Utf8Ok {
      return err, it, cp;
    }
    Sum3(s[it0], s[it0 + 1], s[it]);
    cp := cp + (s[it] as bv32 & 0x3f);
  }

  method GetSequence4(s: seq<Octet>, it0: nat, end: nat) returns (err: UtfError, it: nat, cp: bv32)
    requires it0 <= end <= |s|
    ensures Gets(s, it0, end, 4, err, it, cp)
  {
    hide IsTail, Bits4;
    it, cp := it0, 0;
    if it == end {
      return NotEnoughRoom, it, cp;
    }
    ghost var t := s[it0..end];
    cp := s[it] as bv32;
    RunStep(t[1..], 0);
    err, it := IncreaseSafely(s, it, end);
    if err != Utf8Ok {
      return err, it, cp;
    }
    cp := ((cp << 18) & 0x1fffff) + ((s[it] as bv32 << 12) & 0x3ffff);
    RunStep(t[1..], 1);
    err, it := IncreaseSafely(s, it, end);
    if err != Utf8Ok {
      return err, it, cp;
    }
    cp := cp + ((s[it] as bv32 << 6) & 0xfff);
    RunStep(t[1..], 2);
    err, it := IncreaseSafely(s, it, end);
    if err != Utf8Ok {
      return err, it, cp;
    }
    Sum4(s[it0], s[it0 + 1], s[it0 + 2], s[it]);
    cp := cp + (s[it] as bv32 & 0x3f);
  }

  lemma Sum3(a: Octet, b: Octet, c: Octet)
    ensures ((a as bv32 << 12) & 0xffff) + ((b as bv32 << 6) & 0xfff) + (c as bv32 & 0x3f) == Bits3(a, b, c)
  {}

  lemma Sum4(a: Octet, b: Octet, c: Octet, d: Octet)
    ensures
      ((a as bv32 << 18) & 0x1fffff) + ((b as bv32 << 12) & 0x3ffff) + ((c as bv32 << 6) & 0xfff) + (d as bv32 & 0x3f)
      == Bits4(a, b, c, d)
  {}

  /** The verdict in the terms of the decoder's own checks. */
  lemma VerdictByChecks(t: seq<Octet>)
    requires t != []
    ensures
      var n := SequenceLength(t[0]);
      if n == 0 then Classify(t) == InvalidLead
      else if TrailError(t, n) != Utf8Ok then Classify(t) == TrailError(t, n)
      else
        && n <= |t|
        && Classify(t) == (if !IsCodePointValid(Payload(t[..n])) then InvalidCodePoint
                           else if IsOverlongSequence(Payload(t[..n]), n) then OverlongSequence
                           else Utf8Ok)
        && (Classify(t) == Utf8Ok ==> FrontChar(t) == n)
  {
    hide IsTail, IsChar, SequenceLength, Payload, IsCodePointValid, IsOverlongSequence, FrontChar;
    FrontByLead(t);
    var n := SequenceLength(t[0]);
    if n > 0 && TrailError(t, n) == Utf8Ok {
      assert forall i | 1 <= i < n :: t[i] == t[1..][i - 1];
      ChecksAcceptChars(t, n);
    }
  }

  /** Callers guarantee `it0 != end`.  On failure the iterator and `codePoint0` come back
      unchanged; on success the iterator stands behind the one character that starts at
      `it0`.  Success and failure are those of the grammar: see `FrontChar`. */
  method ValidateNext(s: seq<Octet>, it0: nat, end: nat, codePoint0: bv32)
    returns (err: UtfError, it: nat, codePoint: bv32)
    requires it0 < end <= |s|
    ensures err == Classify(s[it0..end])
    ensures err == Utf8Ok ==> it == it0 + FrontChar(s[it0..end]) && codePoint == Payload(s[it0..it])
    ensures err != Utf8Ok ==> it == it0 && codePoint == codePoint0
  {
    hide IsTail, IsChar, SequenceLength, Payload, IsCodePointValid, IsOverlongSequence, FrontChar, Classify, TrailRun;
    it, codePoint := it0, codePoint0;
    var cp: bv32 := 0;
    var length := SequenceLength(s[it]);
    VerdictByChecks(s[it0..end]);
    err := Utf8Ok;
    match length {
      case 0 => return InvalidLead, it, codePoint;
      case 1 => err, it, cp := GetSequence1(s, it, end);
      case 2 => err, it, cp := GetSequence2(s, it, end);
      case 3 => err, it, cp := GetSequence3(s, it, end);
      case _ => err, it, cp := GetSequence4(s, it, end);
    }
    if err == Utf8Ok {
      assert s[it0..end][..length] == s[it0..it0 + length];
      if IsCodePointValid(cp) {
        if !IsOverlongSequence(cp, length) {
          codePoint := cp;
          it := it + 1;
          return Utf8Ok, it, codePoint;
        } else {
          err := OverlongSequence;
        }
      } else {
        err := InvalidCodePoint;
      }
    }
    it := it0;
  }

  /** The scan stops behind the longest prefix that is a text. */
  method FindInvalid(s: seq<Octet>, start: nat, end: nat) returns (result: nat)
    requires start <= end <= |s|
    ensures result == start + ValidPrefix(s[start..end])
    ensures start <= result <= end && IsText(s[start..result])
    ensures forall m | result < m <= end :: !IsText(s[start..m])
  {
    hide FrontChar, Classify;
    result := start;
    while result != end
      invariant start <= result <= end
      invariant ValidPrefix(s[start..end]) == result - start + ValidPrefix(s[result..end])
      decreases end - result
    {
      ghost var t := s[result..end];
      var err, next, ignored := ValidateNext(s, result, end, 0);
      OkIffFront(t);
      if err != Utf8Ok {
        Longest(s, start, end, result);
        return result;
      }
      assert t[FrontChar(t)..] == s[next..end];
      result := next;
    }
    Longest(s, start, end, result);
  }

  lemma OkIffFront(s: seq<Octet>)
    requires s != []
    ensures Classify(s) == Utf8Ok <==> FrontChar(s) > 0
  {}

  lemma Longest(s: seq<Octet>, start: nat, end: nat, result: nat)
    requires start <= result <= end <= |s| && result == start + ValidPrefix(s[start..end])
    ensures IsText(s[start..result])
    ensures forall m | result < m <= end :: !IsText(s[start..m])
  {
    hide IsText, ValidPrefix;
    var t := s[start..end];
    assert s[start..result] == t[..result - start];
    ValidPrefixIsLongest(t, 0);
    forall m | result < m <= end ensures !IsText(s[start..m]) {
      assert s[start..m] == t[..m - start];
      ValidPrefixIsLongest(t, m - start);
    }
  }

  /** Exactly the octets that encode some sequence of scalar values are valid, and that
      sequence is unique. */
  method IsValid(s: seq<Octet>, start: nat, end: nat) returns (valid: bool)
    requires start <= end <= |s|
    ensures valid <==> IsText(s[start..end])
    ensures valid <==> exists cps :: AllScalar(cps) && EncodeAll(cps) == s[start..end]
    ensures forall a, b :: AllScalar(a) && AllScalar(b) && EncodeAll(a) == s[start..end] == EncodeAll(b) ==> a == b
  {
    var invalid := FindInvalid(s, start, end);
    valid := invalid == end;
    ghost var t := s[start..end];
    TextIffWhole(t);
    forall cps | AllScalar(cps) && EncodeAll(cps) == t ensures IsText(t) && cps == CodePoints(t) {
      TextsAreEncodings(t, cps);
    }
    TextsAreEncodings(t, []);
  }

  method StartsWithBom(s: seq<Octet>, it0: nat, end: nat) returns (r: bool)
    requires it0 <= end <= |s|
    ensures r <==> BOM <= s[it0..end]
    ensures r <==> Encode(0xFEFF) <= s[it0..end]
  {
    assert Encode(0xFEFF) == BOM;
    var it := it0;
    r := it != end && s[it] == BOM[0];
    if r {
      it := it + 1;
      r := it != end && s[it] == BOM[1];
    }
    if r {
      it := it + 1;
      r := it != end && s[it] == BOM[2];
    }
  }
}
