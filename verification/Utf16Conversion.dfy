/** lib/charset/utf8/checked.h, utf16to8 and utf8to16. */
module Utf16Conversion {

  import opened Rfc3629
  import opened Rfc2781
  import opened Utf8Core
  import opened Utf8Checked

  function Uint16(x: bv32): Word {
    (x & 0xffff) as bv16
  }

  /** core.h, mask16: a 16-bit word widened. */
  function Mask16(oc: Word): bv32 {
    oc as bv32 & 0xffff
  }

  function Combined(cp: bv32, trailSurrogate: bv32): bv32 {
    (cp << 10) + trailSurrogate + SURROGATE_OFFSET
  }

  /** The offset arithmetic modulo 2^32 combines a surrogate pair as RFC 2781 does. */
  lemma PairByOffset(lead: Word, trail: Word)
    requires IsHigh(lead) && IsLow(trail)
    ensures Combined(Mask16(lead), Mask16(trail)) == PairValue(lead, trail) && IsScalarValue(PairValue(lead, trail))
  {}

  lemma SurrogatesOfWords(w: Word)
    ensures IsLeadSurrogate(Mask16(w)) <==> IsHigh(w)
    ensures IsTrailSurrogate(Mask16(w)) <==> IsLow(w)
    ensures Uint16(Mask16(w)) == w
    ensures !IsHigh(w) && !IsLow(w) ==> IsScalarValue(Mask16(w))
    ensures !(IsHigh(w) && IsLow(w))
  {}

  lemma SplitByOffset(cp: bv32)
    requires IsScalarValue(cp)
    ensures cp > 0xffff ==> Uint16((cp >> 10) + LEAD_OFFSET) == High(cp) && Uint16((cp & 0x3ff) + TRAIL_SURROGATE_MIN) == Low(cp)
    ensures cp <= 0xffff ==> [Uint16(cp)] == Encode16(cp)
  {}

  /** What is thrown when no character starts at the front of `s`: the word behind an unpaired
      lead surrogate, the lead surrogate itself at the end, or the lone trail surrogate. */
  function Exception16(s: seq<Word>): Exception
    requires s != []
  {
    if IsHigh(s[0]) && |s| > 1 then InvalidUtf16Thrown(s[1]) else InvalidUtf16Thrown(s[0])
  }

  function ReadAll16(s: seq<Word>): Completion {
    var p := ValidPrefix16(s);
    if p == |s| then Done else Failed(Exception16(s[p..]))
  }

  /** What is thrown behind the longest prefix that is well-formed. */
  lemma StopsAt16(s: seq<Word>)
    ensures
      var p := ValidPrefix16(s);
      if p == |s| then ReadAll16(s) == Done
      else ReadAll16(s) == Failed(InvalidUtf16Thrown(if IsHigh(s[p]) && p + 1 < |s| then s[p + 1] else s[p]))
  {
    hide IsHigh, ValidPrefix16, FrontUnit;
    var p := ValidPrefix16(s);
    if p < |s| {
      assert s[p..][0] == s[p];
    }
  }

  ghost predicate ReadUpTo16(t: seq<Word>, k: nat, cps: seq<bv32>) {
    k <= |t| && IsText16(t[..k]) && CodePoints16(t[..k]) == cps
  }

  lemma ReadNothing16(t: seq<Word>)
    ensures ReadUpTo16(t, 0, [])
  {
    assert t[..0] == [];
  }

  lemma ReadRest16(t: seq<Word>, k: nat, cps: seq<bv32>)
    requires ReadUpTo16(t, k, cps)
    ensures CodePoints16(t) == cps + CodePoints16(t[k..])
    ensures ReadAll16(t) == ReadAll16(t[k..])
    ensures IsText16(t) <==> IsText16(t[k..])
  {
    hide CodePoints16, ValidPrefix16, IsText16, Exception16;
    assert t == t[..k] + t[k..];
    Text16Then(t[..k], t[k..]);
    var p := ValidPrefix16(t[k..]);
    assert t[k + p..] == t[k..][p..];
  }

  /** Reading ends where no character follows. */
  lemma ReadStop16(t: seq<Word>, k: nat, cps: seq<bv32>)
    requires ReadUpTo16(t, k, cps)
    ensures k == |t| ==> CodePoints16(t) == cps && ReadAll16(t) == Done && IsText16(t)
    ensures k < |t| && FrontUnit(t[k..]) == 0 ==>
              CodePoints16(t) == cps && ReadAll16(t) == Failed(Exception16(t[k..])) && !IsText16(t)
  {
    hide IsText16, FrontUnit, Exception16;
    ReadRest16(t, k, cps);
    var u := t[k..];
    assert u[0..] == u;
    EmptyIsText16();
    if u != [] {
      Text16Front(u);
    }
  }

  lemma EmptyIsText16()
    ensures IsText16([])
  {}

  /** Reading passes a character. */
  lemma ReadOn16(t: seq<Word>, k: nat, cps: seq<bv32>)
    requires ReadUpTo16(t, k, cps) && k < |t| && FrontUnit(t[k..]) > 0
    ensures var n := FrontUnit(t[k..]); ReadUpTo16(t, k + n, cps + [Value16(t[k..][..n])])
  {
    hide IsText16, IsUnit, FrontUnit, Value16;
    var c := t[k..][..FrontUnit(t[k..])];
    UnitIsText16(c);
    assert t[..k + |c|] == t[..k] + c;
    Text16Then(t[..k], c);
  }

  lemma UnitIsText16(c: seq<Word>)
    requires IsUnit(c)
    ensures 1 <= |c| <= 2 && IsText16(c) && CodePoints16(c) == [Value16(c)]
  {
    assert 1 <= |c| <= 2;
    assert c[..|c|] == c && c[|c|..] == [];
    assert IsUnit(c[..|c|]) && IsText16(c[|c|..]);
    assert FrontUnit(c) == |c|;
  }

  /** What stands at the front of `u`, in the terms of the source's tests. */
  lemma Verdict(u: seq<Word>)
    requires u != []
    ensures
      var a := Mask16(u[0]);
      if IsLeadSurrogate(a) then
        if |u| > 1 then
          var b := Mask16(u[1]);
          if IsTrailSurrogate(b) then FrontUnit(u) == 2 && Value16(u[..2]) == Combined(a, b)
          else FrontUnit(u) == 0 && Exception16(u) == InvalidUtf16Thrown(Uint16(b))
        else FrontUnit(u) == 0 && Exception16(u) == InvalidUtf16Thrown(Uint16(a))
      else if IsTrailSurrogate(a) then FrontUnit(u) == 0 && Exception16(u) == InvalidUtf16Thrown(Uint16(a))
      else FrontUnit(u) == 1 && Value16(u[..1]) == a
  {
    hide *;
    SurrogatesOfWords(u[0]);
    Shape(u);
    if |u| > 1 {
      SurrogatesOfWords(u[1]);
      if IsHigh(u[0]) && IsLow(u[1]) {
        PairByOffset(u[0], u[1]);
      }
    }
  }

  lemma Shape(u: seq<Word>)
    requires u != [] && !(IsHigh(u[0]) && IsLow(u[0]))
    ensures
      if IsHigh(u[0]) then
        if |u| > 1 && IsLow(u[1]) then FrontUnit(u) == 2 && Value16(u[..2]) == PairValue(u[0], u[1])
        else FrontUnit(u) == 0 && Exception16(u) == InvalidUtf16Thrown(if |u| > 1 then u[1] else u[0])
      else if IsLow(u[0]) then FrontUnit(u) == 0 && Exception16(u) == InvalidUtf16Thrown(u[0])
      else FrontUnit(u) == 1 && Value16(u[..1]) == Mask16(u[0])
  {
    Masked(u[0]);
    hide IsHigh, IsLow, PairValue, Mask16;
  }

  lemma Masked(w: Word)
    ensures Mask16(w) == w as bv32
  {}

  /** The part of the loop that reads one word or one surrogate pair. */
  method ReadWords(w: seq<Word>, start0: nat, end: nat) returns (c: Completion, cp: bv32, start: nat)
    requires start0 < end <= |w|
    ensures
      var u := w[start0..end];
      var n := FrontUnit(u);
      if n > 0 then c == Done && start == start0 + n && cp == Value16(u[..n])
      else c == Failed(Exception16(u))
  {
    hide *;
    Verdict(w[start0..end]);
    start := start0;
    cp := Mask16(w[start]);
    start := start + 1;
    if IsLeadSurrogate(cp) {
      if start != end {
        var trailSurrogate := Mask16(w[start]);
        start := start + 1;
        if IsTrailSurrogate(trailSurrogate) {
          cp := Combined(cp, trailSurrogate);
        } else {
          return Failed(InvalidUtf16Thrown(Uint16(trailSurrogate))), cp, start;
        }
      } else {
        return Failed(InvalidUtf16Thrown(Uint16(cp))), cp, start;
      }
    } else if IsTrailSurrogate(cp) {
      return Failed(InvalidUtf16Thrown(Uint16(cp))), cp, start;
    }
    c := Done;
  }

  /** The characters in front of the first unpaired surrogate are converted.  The call throws
      exactly when there is one, and never because of append. */
  method Utf16To8(w: seq<Word>, start0: nat, end: nat, result0: seq<Octet>) returns (c: Completion, result: seq<Octet>)
    requires start0 <= end <= |w|
    ensures c == ReadAll16(w[start0..end])
    ensures c == Done <==> IsText16(w[start0..end])
    ensures result == result0 + EncodeAll(CodePoints16(w[start0..end]))
  {
    hide *;
    var start := start0;
    result := result0;
    c := Done;
    ghost var t := w[start0..end];
    ghost var cps: seq<bv32> := [];
    ReadNothing16(t);
    EncodeAllEmpty();
    while start != end
      invariant start0 <= start <= end && c == Done
      invariant ReadUpTo16(t, start - start0, cps)
      invariant result == result0 + EncodeAll(cps)
      decreases end - start
    {
      ghost var u := w[start..end];
      assert u == t[start - start0..];
      ReadStop16(t, start - start0, cps);
      var cp, next;
      c, cp, next := ReadWords(w, start, end);
      if c != Done {
        return;
      }
      ReadOn16(t, start - start0, cps);
      UnitIsEncoding(u[..FrontUnit(u)]);
      c, result := Append(cp, result);
      EncodeAllConcat(cps, [cp]);
      EncodeAllOne(cp);
      cps := cps + [cp];
      start := next;
    }
    ReadStop16(t, end - start0, cps);
  }

  /** The code points of the valid prefix are written; the call throws exactly when the
      octets are no text. */
  method Utf8To16(s: seq<Octet>, start0: nat, end: nat, result0: seq<Word>) returns (c: Completion, result: seq<Word>)
    requires start0 <= end <= |s|
    ensures c == ReadAll(s[start0..end])
    ensures c == Done <==> IsText(s[start0..end])
    ensures result == result0 + EncodeAll16(CodePoints(s[start0..end]))
  {
    hide *;
    var start := start0;
    result := result0;
    ghost var t := s[start0..end];
    ghost var cps: seq<bv32> := [];
    ReadNothing(t);
    Nothing16();
    EncodeAll16Empty();
    while start != end
      invariant start0 <= start <= end
      invariant ReadUpTo(t, start - start0, cps)
      invariant result == result0 + EncodeAll16(cps)
      decreases end - start
    {
      assert s[start..end] == t[start - start0..];
      ReadOn(t, start - start0, cps);
      var r, next := Next(s, start, end);
      if r.Thrown? {
        return Failed(r.exc), result;
      }
      var cp := r.value;
      ReadIsScalar(s[start..end]);
      SplitByOffset(cp);
      EncodeAll16Snoc(cps, cp);
      Split16(cp);
      if cp > 0xffff {
        result := result + [Uint16((cp >> 10) + LEAD_OFFSET)];
        result := result + [Uint16((cp & 0x3ff) + TRAIL_SURROGATE_MIN)];
      } else {
        result := result + [Uint16(cp)];
      }
      cps := cps + [cp];
      start := next;
    }
    ReadDone(t, cps);
    c := Done;
  }

  lemma EncodeAll16Empty()
    ensures EncodeAll16([]) == []
  {}

  lemma Split16(cp: bv32)
    ensures cp > 0xffff ==> Encode16(cp) == [High(cp), Low(cp)]
  {}

  lemma ReadIsScalar(s: seq<Octet>)
    requires s != [] && NextOutcome(s).Returned?
    ensures IsScalarValue(NextOutcome(s).value)
  {
    hide IsScalarValue, Payload, IsChar;
    CharIsEncoding(s[..FrontChar(s)]);
  }

  /** The two conversions undo each other: on well-formed UTF-16 one way, on valid UTF-8 the
      other way, and neither throws on what the other one wrote. */
  lemma Utf16RoundTrips(w: seq<Word>, s: seq<Octet>)
    ensures
      IsText16(w) ==>
        var s' := EncodeAll(CodePoints16(w));
        IsText(s') && EncodeAll16(CodePoints(s')) == w
    ensures
      IsText(s) ==>
        var w' := EncodeAll16(CodePoints(s));
        IsText16(w') && EncodeAll(CodePoints16(w')) == s
  {
    hide *;
    Texts16AreEncodings(w, []);
    if IsText16(w) {
      var cps := CodePoints16(w);
      TextsAreEncodings(EncodeAll(cps), cps);
    }
    TextsAreEncodings(s, []);
    if IsText(s) {
      var cps := CodePoints(s);
      Texts16AreEncodings(EncodeAll16(cps), cps);
    }
  }
}
