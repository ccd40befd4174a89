/** lib/charset/utf8/checked.h: the checked UTF-8 interface.  An exception becomes a value;
    an output iterator that is written through becomes the octets written so far, so that
    what was written before an exception can be stated as well. */
module Utf8Checked {

  import opened Rfc3629
  import opened Utf8Core

  datatype Exception =
    | NotEnoughRoomThrown
    | InvalidUtf8Thrown(octet: Octet)
    | InvalidUtf16Thrown(word: bv16)
    | InvalidCodePointThrown(cp: bv32)

  datatype Outcome<+T> = Returned(value: T) | Thrown(exc: Exception)

  datatype Completion = Done | Failed(exc: Exception)

  function Uint8(x: bv32): Octet {
    (x & 0xff) as bv8
  }

  // ------------------------------------------------------------------------------ append

  lemma Written1(cp: bv32)
    requires cp < 0x80
    ensures Uint8(cp) == Fill(0x00, 0x7f, cp)
  {}

  lemma Written2(cp: bv32)
    requires 0x80 <= cp < 0x800
    ensures Uint8((cp >> 6) | 0xc0) == Fill(0xC0, 0x1f, cp >> 6)
    ensures Uint8((cp & 0x3f) | 0x80) == Fill(0x80, 0x3f, cp)
  {}

  lemma Written3(cp: bv32)
    requires 0x800 <= cp < 0x10000
    ensures Uint8((cp >> 12) | 0xe0) == Fill(0xE0, 0x0f, cp >> 12)
    ensures Uint8(((cp >> 6) & 0x3f) | 0x80) == Fill(0x80, 0x3f, cp >> 6)
    ensures Uint8((cp & 0x3f) | 0x80) == Fill(0x80, 0x3f, cp)
  {}

  lemma Written4(cp: bv32)
    requires 0x10000 <= cp
    ensures cp <= 0x1FFFFF ==> Uint8((cp >> 18) | 0xf0) == Fill(0xF0, 0x07, cp >> 18)
    ensures Uint8(((cp >> 12) & 0x3f) | 0x80) == Fill(0x80, 0x3f, cp >> 12)
    ensures Uint8(((cp >> 6) & 0x3f) | 0x80) == Fill(0x80, 0x3f, cp >> 6)
    ensures Uint8((cp & 0x3f) | 0x80) == Fill(0x80, 0x3f, cp)
  {}

  method Append(cp: bv32, result0: seq<Octet>) returns (c: Completion, result: seq<Octet>)
    ensures c == if IsScalarValue(cp) then Done else Failed(InvalidCodePointThrown(cp))
    ensures result == if IsScalarValue(cp) then result0 + Encode(cp) else result0
  {
    hide Uint8, Fill;
    result := result0;
    if !IsCodePointValid(cp) {
      return Failed(InvalidCodePointThrown(cp)), result;
    }
    if cp < 0x80 {
      Written1(cp);
      result := result + [Uint8(cp)];
    } else if cp < 0x800 {
      Written2(cp);
      result := result + [Uint8((cp >> 6) | 0xc0)];
      result := result + [Uint8((cp & 0x3f) | 0x80)];
    } else if cp < 0x10000 {
      Written3(cp);
      result := result + [Uint8((cp >> 12) | 0xe0)];
      result := result + [Uint8(((cp >> 6) & 0x3f) | 0x80)];
      result := result + [Uint8((cp & 0x3f) | 0x80)];
    } else {
      Written4(cp);
      result := result + [Uint8((cp >> 18) | 0xf0)];
      result := result + [Uint8(((cp >> 12) & 0x3f) | 0x80)];
      result := result + [Uint8(((cp >> 6) & 0x3f) | 0x80)];
      result := result + [Uint8((cp & 0x3f) | 0x80)];
    }
    c := Done;
  }

  // ------------------------------------------------------------------- next, peek_next

  /** What is thrown when no character starts at the front of `s`.  The decoder leaves its
      code point untouched on failure, so the code point reported is the initial 0. */
  function NextException(s: seq<Octet>): Exception
    requires s != []
  {
    match Classify(s)
    case NotEnoughRoom => NotEnoughRoomThrown
    case InvalidCodePoint => InvalidCodePointThrown(0)
    case _ => InvalidUtf8Thrown(s[0])
  }

  /** The result of reading one character from the front of `s`. */
  function NextOutcome(s: seq<Octet>): Outcome<bv32>
    requires s != []
  {
    var n := FrontChar(s);
    if n > 0 then Returned(Payload(s[..n])) else Thrown(NextException(s))
  }

  /** Complete sequences whose value may not be encoded: the surrogates, written in three octets or
      overlong in four, and everything above 10FFFF. */
  predicate ForbiddenThree(a: Octet, b: Octet, c: Octet) {
    a == 0xED && 0xA0 <= b <= 0xBF && IsTail(c)
  }

  predicate ForbiddenFour(a: Octet, b: Octet, c: Octet, d: Octet) {
    && IsTail(b) && IsTail(c) && IsTail(d)
    && ((a == 0xF0 && b == 0x8D && 0xA0 <= c) || (a == 0xF4 && 0x90 <= b) || 0xF5 <= a <= 0xF7)
  }

  predicate StartsForbidden(s: seq<Octet>) {
    || (|s| >= 3 && ForbiddenThree(s[0], s[1], s[2]))
    || (|s| >= 4 && ForbiddenFour(s[0], s[1], s[2], s[3]))
  }

  lemma ForbiddenValues3(a: Octet, b: Octet, c: Octet)
    requires SequenceLength(a) == 3 && IsTail(b) && IsTail(c)
    ensures ForbiddenThree(a, b, c) <==> !IsScalarValue(Bits3(a, b, c))
  {}

  lemma ForbiddenValues4(a: Octet, b: Octet, c: Octet, d: Octet)
    requires SequenceLength(a) == 4 && IsTail(b) && IsTail(c) && IsTail(d)
    ensures ForbiddenFour(a, b, c, d) <==> !IsScalarValue(Bits4(a, b, c, d))
  {}

  lemma ShortValues(a: Octet, b: Octet)
    ensures IsScalarValue(a as bv32) && IsScalarValue(Bits2(a, b))
  {}

  lemma ForbiddenLeads(a: Octet, b: Octet, c: Octet, d: Octet)
    ensures ForbiddenThree(a, b, c) ==> SequenceLength(a) == 3 && IsTail(b) && IsTail(c)
    ensures ForbiddenFour(a, b, c, d) ==> SequenceLength(a) == 4 && IsTail(b) && IsTail(c) && IsTail(d)
  {}

  /** When the sequence at the front is complete: all its trail octets are there. */
  lemma CompleteIff(s: seq<Octet>, n: nat)
    requires s != [] && 1 <= n <= 4
    ensures TrailError(s, n) == Utf8Ok <==> |s| >= n && forall i | 1 <= i < n :: IsTail(s[i])
  {
    hide IsTail;
    var k := TrailRun(s[1..]);
    assert forall i | 0 <= i < |s| - 1 :: s[1..][i] == s[i + 1];
    if n > k + 1 && |s| >= n {
      assert s[1..][k] == s[k + 1];
    }
    assert forall i | 1 <= i < k + 1 :: s[i] == s[1..][i - 1];
  }

  /** A complete sequence stands at the front, and its value may not be encoded. */
  predicate CarriesForbidden(s: seq<Octet>)
    requires s != []
  {
    var n := SequenceLength(s[0]);
    n > 0 && TrailError(s, n) == Utf8Ok && !IsScalarValue(Payload(s[..n]))
  }

  lemma InvalidCodePointMeans(s: seq<Octet>)
    requires s != []
    ensures Classify(s) == InvalidCodePoint <==> CarriesForbidden(s)
  {
    hide SequenceLength, FrontChar, IsScalarValue, Payload, IsChar, TrailRun;
    FrontByLead(s);
    CharsAreScalar(s);
  }

  lemma CarriesIffStarts(s: seq<Octet>)
    requires s != []
    ensures CarriesForbidden(s) <==> StartsForbidden(s)
    ensures StartsForbidden(s) ==> 3 <= SequenceLength(s[0]) <= |s|
  {
    hide SequenceLength, IsScalarValue, Payload, TrailError;
    var n := SequenceLength(s[0]);
    var b, c, d := if |s| > 1 then s[1] else 0, if |s| > 2 then s[2] else 0, if |s| > 3 then s[3] else 0;
    if n > 0 {
      CompleteIff(s, n);
      if n <= |s| {
        PayloadOf(s, n);
      }
    }
    ForbiddenIff(s[0], b, c, d);
  }

  lemma PayloadOf(s: seq<Octet>, n: nat)
    requires 1 <= n <= 4 && n <= |s|
    ensures n <= 2 ==> IsScalarValue(Payload(s[..n]))
    ensures n == 3 ==> Payload(s[..n]) == Bits3(s[0], s[1], s[2])
    ensures n == 4 ==> Payload(s[..n]) == Bits4(s[0], s[1], s[2], s[3])
  {
    hide Bits2, Bits3, Bits4, IsScalarValue;
    ShortValues(s[0], if |s| > 1 then s[1] else 0);
  }

  lemma ForbiddenIff(a: Octet, b: Octet, c: Octet, d: Octet)
    ensures ForbiddenThree(a, b, c)
      <==> SequenceLength(a) == 3 && IsTail(b) && IsTail(c) && !IsScalarValue(Bits3(a, b, c))
    ensures ForbiddenFour(a, b, c, d)
      <==> SequenceLength(a) == 4 && IsTail(b) && IsTail(c) && IsTail(d) && !IsScalarValue(Bits4(a, b, c, d))
  {
    ForbiddenLeads(a, b, c, d);
    hide SequenceLength, IsScalarValue, Bits3, Bits4;
    if SequenceLength(a) == 3 && IsTail(b) && IsTail(c) {
      ForbiddenValues3(a, b, c);
    }
    if SequenceLength(a) == 4 && IsTail(b) && IsTail(c) && IsTail(d) {
      ForbiddenValues4(a, b, c, d);
    }
  }

  /** invalid_code_point is thrown exactly for these, and it never carries the value found in the
      octets: it carries 0, which would be a valid one. */
  lemma InvalidCodePointIff(s: seq<Octet>)
    requires s != []
    ensures Classify(s) == InvalidCodePoint <==> StartsForbidden(s)
    ensures StartsForbidden(s) ==>
      var n := SequenceLength(s[0]);
      && 3 <= n <= |s|
      && !IsScalarValue(Payload(s[..n]))
      && NextOutcome(s) == Thrown(InvalidCodePointThrown(0))
      && Payload(s[..n]) != 0
  {
    hide SequenceLength, FrontChar, Payload, TrailError, ForbiddenThree, ForbiddenFour;
    InvalidCodePointMeans(s);
    CarriesIffStarts(s);
    OkIffFront(s);
  }

  lemma CharsAreScalar(s: seq<Octet>)
    ensures FrontChar(s) > 0 ==> IsScalarValue(Payload(s[..FrontChar(s)]))
  {
    hide FrontChar, Payload, IsScalarValue, IsChar;
    if FrontChar(s) > 0 {
      CharIsEncoding(s[..FrontChar(s)]);
    }
  }

  /** For example the surrogate D800, in three octets and in four. */
  lemma SurrogateThrowsZero()
    ensures NextOutcome([0xED, 0xA0, 0x80]) == Thrown(InvalidCodePointThrown(0)) && Payload([0xED, 0xA0, 0x80]) == 0xD800
    ensures NextOutcome([0xF0, 0x8D, 0xA0, 0x80]) == Thrown(InvalidCodePointThrown(0))
    ensures Payload([0xF0, 0x8D, 0xA0, 0x80]) == 0xD800
  {
    assert Bits3(0xED, 0xA0, 0x80) == 0xD800 && Bits4(0xF0, 0x8D, 0xA0, 0x80) == 0xD800;
    assert StartsForbidden([0xED, 0xA0, 0x80]) && StartsForbidden([0xF0, 0x8D, 0xA0, 0x80]);
    InvalidCodePointIff([0xED, 0xA0, 0x80]);
    InvalidCodePointIff([0xF0, 0x8D, 0xA0, 0x80]);
  }

  /** The lead octet announces more octets than there are, and all that are there belong to it. */
  predicate IsCutShort(s: seq<Octet>)
    requires s != []
  {
    && (if s[0] <= 0x7F || IsTail(s[0]) || s[0] >= 0xF8 then false
        else if s[0] <= 0xDF then |s| < 2
        else if s[0] <= 0xEF then |s| < 3
        else |s| < 4)
    && forall i | 1 <= i < |s| :: IsTail(s[i])
  }

  lemma CutShortIff(s: seq<Octet>)
    requires s != []
    ensures IsCutShort(s) <==> Classify(s) == NotEnoughRoom
    ensures IsCutShort(s) ==> FrontChar(s) == 0
  {
    LengthByRange(s[0]);
    hide SequenceLength, IsTail, IsChar, FrontChar;
    FrontByLead(s);
    var n, k := SequenceLength(s[0]), TrailRun(s[1..]);
    assert forall i | 0 <= i < |s| - 1 :: s[1..][i] == s[i + 1];
    assert forall i | 1 <= i < |s| :: s[i] == s[1..][i - 1];
    if n > |s| && k + 1 < |s| {
      assert !IsTail(s[k + 1]);
    }
  }

  /** What next does with every nonempty range: which of the three exceptions, and what it carries.
      The grammar and these two conditions say it, not the decoder's own checks. */
  lemma NextByGrammar(s: seq<Octet>)
    requires s != []
    ensures forall cp :: NextOutcome(s) == Returned(cp) <==> FrontChar(s) > 0 && cp == Payload(s[..FrontChar(s)])
    ensures NextOutcome(s) == Thrown(NotEnoughRoomThrown) <==> IsCutShort(s)
    ensures forall cp :: NextOutcome(s) == Thrown(InvalidCodePointThrown(cp)) <==> cp == 0 && StartsForbidden(s)
    ensures forall o ::
              (NextOutcome(s) == Thrown(InvalidUtf8Thrown(o))
               <==> o == s[0] && FrontChar(s) == 0 && !IsCutShort(s) && !StartsForbidden(s))
  {
    CutShortIff(s);
    InvalidCodePointIff(s);
    OkIffFront(s);
    hide FrontChar, Payload, StartsForbidden, IsCutShort, Classify;
  }

  /** For example the first two octets of a character of three, and an octet that starts nothing. */
  lemma CutShortThrowsRoom()
    ensures NextOutcome([0xE2, 0x82]) == Thrown(NotEnoughRoomThrown)
    ensures NextOutcome([0xFF]) == Thrown(InvalidUtf8Thrown(0xFF))
  {
    NextByGrammar([0xE2, 0x82]);
    NextByGrammar([0xFF]);
  }

  method Next(s: seq<Octet>, it0: nat, end: nat) returns (r: Outcome<bv32>, it: nat)
    requires it0 < end <= |s|
    ensures r == NextOutcome(s[it0..end])
    ensures it == it0 + FrontChar(s[it0..end])
  {
    hide FrontChar, Payload;
    var err, cp;
    ghost var t := s[it0..end];
    OkIffFront(t);
    err, it, cp := ValidateNext(s, it0, end, 0);
    match err {
      case Utf8Ok =>
        assert s[it0..it] == t[..FrontChar(t)];
        r := Returned(cp);
      case NotEnoughRoom => r := Thrown(NotEnoughRoomThrown);
      case InvalidLead => r := Thrown(InvalidUtf8Thrown(s[it]));
      case IncompleteSequence => r := Thrown(InvalidUtf8Thrown(s[it]));
      case OverlongSequence => r := Thrown(InvalidUtf8Thrown(s[it]));
      case InvalidCodePoint => r := Thrown(InvalidCodePointThrown(cp));
    }
  }

  lemma ReturnedIffFront(s: seq<Octet>)
    requires s != []
    ensures NextOutcome(s).Returned? <==> FrontChar(s) > 0
  {}

  method PeekNext(s: seq<Octet>, it: nat, end: nat) returns (r: Outcome<bv32>)
    requires it < end <= |s|
    ensures r == NextOutcome(s[it..end])
  {
    var ignored;
    r, ignored := Next(s, it, end);
  }

  // ------------------------------------------------------------------------------ prior

  /** Position of the last octet that is no trail octet, -1 if there is none. */
  function LastLead(s: seq<Octet>): (j: int)
    ensures -1 <= j < |s|
    ensures j >= 0 ==> !IsTail(s[j])
    ensures forall i | j < i < |s| :: IsTail(s[i])
  {
    if s == [] then -1
    else if IsTail(s[|s| - 1]) then LastLead(s[..|s| - 1])
    else |s| - 1
  }

  lemma LastLeadIs(s: seq<Octet>, j: int)
    requires -1 <= j < |s| && (j >= 0 ==> !IsTail(s[j]))
    requires forall i | j < i < |s| :: IsTail(s[i])
    ensures LastLead(s) == j
  {}

  /** For every input: the iterator stops at the last non-trail octet before it and the
      character is read from there, or it stops at `start` and an exception is thrown. */
  method Prior(s: seq<Octet>, it0: nat, start: nat) returns (r: Outcome<bv32>, it: nat)
    requires start <= it0 <= |s|
    ensures it0 == start ==> r == Thrown(NotEnoughRoomThrown) && it == it0
    ensures it0 > start ==>
              var j := LastLead(s[start..it0]);
              if j < 0 then r == Thrown(InvalidUtf8Thrown(s[start])) && it == start
              else it == start + j && r == NextOutcome(s[it..it0])
  {
    it := it0;
    if it == start {
      return Thrown(NotEnoughRoomThrown), it;
    }
    var end := it;
    it := it - 1;
    ghost var t := s[start..it0];
    while IsTrail(s[it])
      invariant start <= it < it0
      invariant forall i | it - start < i < |t| :: IsTail(t[i])
      decreases it
    {
      assert t[it - start] == s[it];
      if it == start {
        LastLeadIs(t, -1);
        return Thrown(InvalidUtf8Thrown(s[it])), it;
      }
      it := it - 1;
    }
    LastLeadIs(t, it - start);
    r := PeekNext(s, it, end);
  }

  lemma LastLeadOfChar(u: seq<Octet>, c: seq<Octet>)
    requires IsChar(c)
    ensures LastLead(u + c) == |u|
  {
    hide IsTail, IsChar;
    CharHasLength(c);
    LastLeadIs(u + c, |u|);
  }

  lemma TextsSplit(a: seq<Octet>, b: seq<Octet>)
    requires IsText(a) && IsText(a + b) && b != []
    ensures var n := FrontChar(b); n > 0 && IsText(a + b[..n])
  {
    hide FrontChar, CodePoints, ValidPrefix, IsChar;
    TextThen(a, b);
    TextFront(b);
    var c := b[..FrontChar(b)];
    CharIsText(c);
    TextThen(a, c);
  }

  /** A boundary of a text is followed by a character, and its end is a boundary again. */
  lemma Boundary(s: seq<Octet>, p: nat)
    requires IsText(s) && p < |s| && IsText(s[..p])
    ensures var n := FrontChar(s[p..]); n > 0 && p + n <= |s| && IsText(s[..p + n]) && s[..p + n] == s[..p] + s[p..][..n]
  {
    hide FrontChar, IsChar, IsText;
    var n := FrontChar(s[p..]);
    Slices(s, p, n);
    TextsSplit(s[..p], s[p..]);
    TextFront(s[..p + n]);
  }

  lemma Slices(s: seq<Octet>, p: nat, n: nat)
    requires p + n <= |s|
    ensures s == s[..p] + s[p..] && s[..p + n] == s[..p] + s[p..][..n]
  {}

  lemma CharIsText(c: seq<Octet>)
    requires IsChar(c)
    ensures IsText(c) && FrontChar(c) == |c| && c[..|c|] == c
  {
    hide IsChar, FrontChar;
    CharHasLength(c);
    assert c[..|c|] == c && c[|c|..] == [];
    assert IsChar(c[..|c|]) && IsText(c[|c|..]);
  }

  /** At every boundary of a valid text, stepping forward over a character and stepping back
      again returns to the same position and reads the same code point. */
  lemma {:induction false} PriorUndoesNext(s: seq<Octet>, p: nat)
    requires IsText(s) && p < |s| && IsText(s[..p])
    ensures
      var q := p + FrontChar(s[p..]);
      && p < q <= |s|
      && IsText(s[..q])
      && NextOutcome(s[p..]).Returned?
      && LastLead(s[..q]) == p
      && NextOutcome(s[p..q]) == NextOutcome(s[p..])
  {
    hide FrontChar, Payload, IsChar, IsText, LastLead;
    Boundary(s, p);
    var n := FrontChar(s[p..]);
    var c := s[p..][..n];
    assert c == s[p..p + n];
    CharIsText(c);
    LastLeadOfChar(s[..p], c);
  }

  /** The converse: stepping back from a boundary and forward again. */
  lemma {:induction false} NextUndoesPrior(s: seq<Octet>, q: nat)
    requires IsText(s) && 0 < q <= |s| && IsText(s[..q])
    ensures
      var p := LastLead(s[..q]);
      && 0 <= p
      && IsText(s[..p])
      && p + FrontChar(s[p..]) == q
  {
    hide *;
    var t := s[..q];
    var cps := CodePoints(t);
    TextsAreEncodings(t, cps);
    EncodeAllSnoc(cps);
    EncodeAllEmpty();
    var k := |cps| - 1;
    var u, c := EncodeAll(cps[..k]), Encode(cps[k]);
    LastCodePoint(cps);
    EncodeIsChar(cps[k]);
    TextsAreEncodings(u, cps[..k]);
    LastLeadOfChar(u, c);
    CutAt(s, q, u, c);
    FrontOfEncoding(cps[k], s[q..]);
  }

  lemma CutAt(s: seq<Octet>, q: nat, u: seq<Octet>, c: seq<Octet>)
    requires q <= |s| && s[..q] == u + c
    ensures s[..|u|] == u && s[|u|..] == c + s[q..]
  {
    assert s == s[..q] + s[q..];
  }

  lemma EncodeAllEmpty()
    ensures EncodeAll([]) == []
  {}

  lemma LastCodePoint(cps: seq<bv32>)
    requires cps != [] && AllScalar(cps)
    ensures IsScalarValue(cps[|cps| - 1]) && AllScalar(cps[..|cps| - 1])
  {
    hide IsScalarValue;
  }

  /** Reading a text backwards with prior, from its end to its start. */
  function WalkBack(s: seq<Octet>): Outcome<seq<bv32>> {
    if s == [] then Returned([])
    else
      var j := LastLead(s);
      if j < 0 then Thrown(InvalidUtf8Thrown(s[0]))
      else match NextOutcome(s[j..])
        case Thrown(e) => Thrown(e)
        case Returned(cp) =>
          match WalkBack(s[..j])
          case Thrown(e) => Thrown(e)
          case Returned(rest) => Returned([cp] + rest)
  }

  function Reverse<T>(s: seq<T>): (r: seq<T>)
    ensures |r| == |s| && forall i | 0 <= i < |s| :: r[i] == s[|s| - 1 - i]
  {
    if s == [] then [] else [s[|s| - 1]] + Reverse(s[..|s| - 1])
  }

  /** The backward walk over a valid text never throws and reads the code points of the
      forward walk in reverse. */
  lemma {:induction false} BackwardIsReverse(s: seq<Octet>)
    requires IsText(s)
    ensures WalkBack(s) == Returned(Reverse(CodePoints(s)))
    decreases |s|
  {
    hide IsScalarValue, Encode, FrontChar, IsTail;
    var cps := CodePoints(s);
    TextsAreEncodings(s, cps);
    if s != [] {
      var k := |cps| - 1;
      EncodeAllSnoc(cps);
      var u, c := EncodeAll(cps[..k]), Encode(cps[k]);
      TextsAreEncodings(u, cps[..k]);
      FrontOfEncoding(cps[k], []);
      EncodeIsChar(cps[k]);
      assert c + [] == c;
      LastLeadOfChar(u, c);
      assert (u + c)[|u|..] == c && (u + c)[..|u|] == u && c[..|c|] == c;
      BackwardIsReverse(u);
    }
  }

  lemma {:induction false} EncodeAllSnoc(cps: seq<bv32>)
    ensures cps != [] ==> EncodeAll(cps) == EncodeAll(cps[..|cps| - 1]) + Encode(cps[|cps| - 1])
  {
    hide Encode;
    if |cps| == 1 {
      assert EncodeAll(cps) == Encode(cps[0]) + [];
    } else if |cps| > 1 {
      EncodeAllSnoc(cps[1..]);
      var front := cps[..|cps| - 1];
      assert front[1..] == cps[1..][..|cps| - 2];
    }
  }

  // ----------------------------------------------------------------- whole-range loops

  /** How reading `s` to its end with next completes. */
  function ReadAll(s: seq<Octet>): Completion {
    var p := ValidPrefix(s);
    if p == |s| then Done else Failed(NextException(s[p..]))
  }

  /** It completes for the texts; otherwise it throws what next throws behind the longest prefix that
      is a text. */
  lemma ReadAllStops(s: seq<Octet>)
    ensures ReadAll(s) == Done <==> IsText(s)
    ensures
      var p := ValidPrefix(s);
      && IsText(s[..p]) && (p < |s| ==> !NextOutcome(s[p..]).Returned?)
      && forall e :: ReadAll(s) == Failed(e) <==> p < |s| && NextOutcome(s[p..]) == Thrown(e)
  {
    hide IsText, ValidPrefix, CodePoints, NextException, FrontChar, Payload;
    var p := ValidPrefix(s);
    TextIffWhole(s);
    ValidPrefixIsLongest(s, 0);
    if p < |s| {
      NothingBehindPrefix(s);
      ReturnedIffFront(s[p..]);
    }
  }

  lemma {:induction false} NothingBehindPrefix(s: seq<Octet>)
    ensures FrontChar(s[ValidPrefix(s)..]) == 0
    decreases |s|
  {
    hide FrontChar;
    var n := FrontChar(s);
    if n == 0 {
      assert s[0..] == s;
    } else {
      NothingBehindPrefix(s[n..]);
      assert s[ValidPrefix(s)..] == s[n..][ValidPrefix(s[n..])..];
    }
  }

  /** Reading has passed the first `k` octets of `t` and found the code points `cps`. */
  ghost predicate ReadUpTo(t: seq<Octet>, k: nat, cps: seq<bv32>) {
    k <= |t| && IsText(t[..k]) && CodePoints(t[..k]) == cps
  }

  lemma ReadRest(t: seq<Octet>, k: nat, cps: seq<bv32>)
    requires ReadUpTo(t, k, cps)
    ensures CodePoints(t) == cps + CodePoints(t[k..])
    ensures ValidPrefix(t) == k + ValidPrefix(t[k..])
    ensures ReadAll(t) == ReadAll(t[k..])
    ensures IsText(t) <==> IsText(t[k..])
  {
    hide CodePoints, ValidPrefix, IsText, NextException;
    assert t == t[..k] + t[k..];
    TextThen(t[..k], t[k..]);
    var p := ValidPrefix(t[k..]);
    assert t[k + p..] == t[k..][p..];
  }

  /** One round of a reading loop: either no character follows and reading ends here, or
      reading passes the next character. */
  lemma ReadOn(t: seq<Octet>, k: nat, cps: seq<bv32>)
    requires ReadUpTo(t, k, cps) && k < |t|
    ensures
      var u := t[k..];
      match NextOutcome(u)
      case Thrown(e) => FrontChar(u) == 0 && CodePoints(t) == cps && ValidPrefix(t) == k && ReadAll(t) == Failed(e) && !IsText(t)
      case Returned(cp) => FrontChar(u) > 0 && ReadUpTo(t, k + FrontChar(u), cps + [cp]) && |cps| < |CodePoints(t)|
  {
    hide IsText, IsChar, FrontChar, NextException, Payload, ReadAll, CodePoints, ValidPrefix;
    if FrontChar(t[k..]) > 0 {
      ReadNext(t, k, cps);
    } else {
      ReadStops(t, k, cps);
    }
  }

  lemma ReadNext(t: seq<Octet>, k: nat, cps: seq<bv32>)
    requires ReadUpTo(t, k, cps) && k < |t| && FrontChar(t[k..]) > 0
    ensures var c := t[k..][..FrontChar(t[k..])]; ReadUpTo(t, k + |c|, cps + [Payload(c)]) && |cps| < |CodePoints(t)|
  {
    hide IsText, IsChar, FrontChar, Payload, ValidPrefix, CodePoints;
    var u := t[k..];
    ReadRest(t, k, cps);
    var c := u[..FrontChar(u)];
    OneChar(u);
    CharIsText(c);
    Slices(t, k, |c|);
    TextThen(t[..k], c);
    TextFront(t[..k + |c|]);
  }

  lemma OneChar(u: seq<Octet>)
    requires FrontChar(u) > 0
    ensures CodePoints(u) != [] && CodePoints(u[..FrontChar(u)]) == [Payload(u[..FrontChar(u)])]
  {
    hide IsChar, FrontChar, Payload;
    var c := u[..FrontChar(u)];
    CharIsText(c);
    assert c[|c|..] == [];
    assert FrontChar([]) == 0;
  }

  lemma ReadStops(t: seq<Octet>, k: nat, cps: seq<bv32>)
    requires ReadUpTo(t, k, cps) && k < |t| && FrontChar(t[k..]) == 0
    ensures CodePoints(t) == cps && ValidPrefix(t) == k && ReadAll(t) == Failed(NextException(t[k..])) && !IsText(t)
  {
    hide IsText, IsChar, FrontChar, NextException, Payload;
    var u := t[k..];
    ReadRest(t, k, cps);
    TextFront(u);
    assert u[0..] == u;
  }

  lemma ReadDone(t: seq<Octet>, cps: seq<bv32>)
    requires ReadUpTo(t, |t|, cps)
    ensures IsText(t) && CodePoints(t) == cps && ValidPrefix(t) == |t| && ReadAll(t) == Done
  {
    assert t[..|t|] == t;
    TextIffWhole(t);
  }

  lemma ReadNothing(t: seq<Octet>)
    ensures ReadUpTo(t, 0, [])
  {
    assert t[..0] == [];
  }

  /** The source reads past `end` when a valid range holds fewer than `n` characters. */
  method Advance(s: seq<Octet>, it0: nat, n: int, end: nat) returns (c: Completion, it: nat)
    requires it0 <= end <= |s|
    requires IsText(s[it0..end]) ==> n <= |CodePoints(s[it0..end])|
    ensures it0 <= it <= end
    ensures n <= 0 ==> c == Done && it == it0
    ensures 0 < n <= |CodePoints(s[it0..end])| ==>
              c == Done && IsText(s[it0..it]) && CodePoints(s[it0..it]) == CodePoints(s[it0..end])[..n]
    ensures |CodePoints(s[it0..end])| < n ==>
              c == ReadAll(s[it0..end]) && c != Done && it == it0 + ValidPrefix(s[it0..end])
  {
    hide FrontChar, CodePoints, ValidPrefix, NextOutcome, ReadAll, IsText;
    it := it0;
    ghost var t := s[it0..end];
    ghost var cps: seq<bv32> := [];
    ReadNothing(t);
    var i := 0;
    while i < n
      invariant it0 <= it <= end && 0 <= i <= (if n < 0 then 0 else n) && (i == 0 ==> it == it0)
      invariant ReadUpTo(t, it - it0, cps) && |cps| == i
    {
      if it == end { ReadDone(t, cps); }
      assert s[it..end] == t[it - it0..];
      ReadOn(t, it - it0, cps);
      var r, next := Next(s, it, end);
      if r.Thrown? {
        return Failed(r.exc), it;
      }
      cps := cps + [r.value];
      it := next;
      i := i + 1;
    }
    ReadRest(t, it - it0, cps);
    assert t[..it - it0] == s[it0..it];
    c := Done;
  }

  method Distance(s: seq<Octet>, first0: nat, last: nat) returns (c: Completion, dist: nat)
    requires first0 <= last <= |s|
    ensures c == ReadAll(s[first0..last])
    ensures c == Done <==> IsText(s[first0..last])
    ensures dist == |CodePoints(s[first0..last])|
  {
    hide FrontChar, CodePoints, ValidPrefix, NextOutcome, ReadAll, IsText;
    var first := first0;
    ghost var t := s[first0..last];
    ghost var cps: seq<bv32> := [];
    ReadNothing(t);
    dist := 0;
    while first < last
      invariant first0 <= first <= last
      invariant ReadUpTo(t, first - first0, cps) && |cps| == dist
      decreases last - first
    {
      assert s[first..last] == t[first - first0..];
      ReadOn(t, first - first0, cps);
      var r, next := Next(s, first, last);
      if r.Thrown? {
        return Failed(r.exc), dist;
      }
      cps := cps + [r.value];
      first := next;
      dist := dist + 1;
    }
    ReadDone(t, cps);
    c := Done;
  }

  // ------------------------------------------------------------------ UTF-32 conversions

  /** The code points of the valid prefix are written; the call throws exactly when the
      octets are no text. */
  method Utf8To32(s: seq<Octet>, start0: nat, end: nat, result0: seq<bv32>) returns (c: Completion, result: seq<bv32>)
    requires start0 <= end <= |s|
    ensures c == ReadAll(s[start0..end])
    ensures c == Done <==> IsText(s[start0..end])
    ensures result == result0 + CodePoints(s[start0..end])
  {
    hide FrontChar, CodePoints, ValidPrefix, NextOutcome, ReadAll, IsText;
    var start := start0;
    ghost var t := s[start0..end];
    ghost var cps: seq<bv32> := [];
    ReadNothing(t);
    result := result0;
    while start != end
      invariant start0 <= start <= end
      invariant ReadUpTo(t, start - start0, cps) && result == result0 + cps
      decreases end - start
    {
      assert s[start..end] == t[start - start0..];
      ReadOn(t, start - start0, cps);
      var r, next := Next(s, start, end);
      if r.Thrown? {
        return Failed(r.exc), result;
      }
      cps := cps + [r.value];
      result := result + [r.value];
      start := next;
    }
    ReadDone(t, cps);
    c := Done;
  }

  /** Number of scalar values at the front of `cps`. */
  function ScalarRun(cps: seq<bv32>): (k: nat)
    ensures k <= |cps| && AllScalar(cps[..k])
    ensures k < |cps| ==> !IsScalarValue(cps[k])
  {
    if cps == [] || !IsScalarValue(cps[0]) then 0 else 1 + ScalarRun(cps[1..])
  }

  lemma ScalarRunIs(cps: seq<bv32>, k: nat)
    requires k <= |cps| && AllScalar(cps[..k]) && (k < |cps| ==> !IsScalarValue(cps[k]))
    ensures ScalarRun(cps) == k
  {
    hide IsScalarValue;
    var r := ScalarRun(cps);
    assert forall i | 0 <= i < k :: cps[..k][i] == cps[i];
    assert forall i | 0 <= i < r :: cps[..r][i] == cps[i];
  }

  lemma {:induction false} EncodeAllConcat(a: seq<bv32>, b: seq<bv32>)
    ensures EncodeAll(a + b) == EncodeAll(a) + EncodeAll(b)
  {
    hide Encode;
    if a == [] {
      assert a + b == b;
    } else {
      assert (a + b)[1..] == a[1..] + b;
      EncodeAllConcat(a[1..], b);
    }
  }

  lemma EncodeAllOne(cp: bv32)
    ensures EncodeAll([cp]) == Encode(cp)
  {
    hide Encode;
    assert EncodeAll([cp]) == Encode(cp) + [];
  }

  lemma WriteStep(t: seq<bv32>, k: nat)
    requires k < |t|
    ensures EncodeAll(t[..k + 1]) == EncodeAll(t[..k]) + Encode(t[k])
    ensures AllScalar(t[..k]) && IsScalarValue(t[k]) ==> AllScalar(t[..k + 1])
  {
    hide Encode, IsScalarValue, EncodeAll;
    assert t[..k + 1] == t[..k] + [t[k]];
    EncodeAllConcat(t[..k], [t[k]]);
    EncodeAllOne(t[k]);
  }

  /** Everything in front of the first value that may not be encoded is written. */
  method Utf32To8(cps: seq<bv32>, start0: nat, end: nat, result0: seq<Octet>) returns (c: Completion, result: seq<Octet>)
    requires start0 <= end <= |cps|
    ensures
      var t := cps[start0..end];
      var run := ScalarRun(t);
      && result == result0 + EncodeAll(t[..run])
      && c == (if run == |t| then Done else Failed(InvalidCodePointThrown(t[run])))
      && (c == Done <==> AllScalar(t))
  {
    hide Encode, EncodeAll, IsScalarValue, ScalarRun, AllScalar;
    var start := start0;
    result := result0;
    c := Done;
    ghost var t := cps[start0..end];
    WriteNothing(t);
    while start != end
      invariant start0 <= start <= end && c == Done
      invariant AllScalar(t[..start - start0])
      invariant result == result0 + EncodeAll(t[..start - start0])
      decreases end - start
    {
      WriteStep(t, start - start0);
      c, result := Append(cps[start], result);
      if c != Done {
        break;
      }
      start := start + 1;
    }
    WriteEnd(t, start - start0);
  }

  lemma WriteNothing(t: seq<bv32>)
    ensures AllScalar(t[..0]) && EncodeAll(t[..0]) == []
  {
    assert t[..0] == [];
  }

  lemma WriteEnd(t: seq<bv32>, k: nat)
    requires k <= |t| && AllScalar(t[..k]) && (k < |t| ==> !IsScalarValue(t[k]))
    ensures ScalarRun(t) == k && (AllScalar(t) <==> k == |t|)
  {
    hide IsScalarValue;
    ScalarRunIs(t, k);
    assert t[..|t|] == t;
  }

  /** The two conversions undo each other: on all sequences of scalar values one way, on all
      texts the other way. */
  lemma Utf32RoundTrips(cps: seq<bv32>, s: seq<Octet>)
    ensures AllScalar(cps) ==> CodePoints(EncodeAll(cps)) == cps && ReadAll(EncodeAll(cps)) == Done
    ensures ReadAll(s) == Done ==> EncodeAll(CodePoints(s)) == s && ScalarRun(CodePoints(s)) == |CodePoints(s)|
  {
    hide CodePoints, EncodeAll, IsText, ValidPrefix, IsScalarValue, ScalarRun;
    if AllScalar(cps) {
      TextsAreEncodings(EncodeAll(cps), cps);
      TextIffWhole(EncodeAll(cps));
    }
    TextIffWhole(s);
    TextsAreEncodings(s, []);
    if ReadAll(s) == Done {
      var d := CodePoints(s);
      assert d[..|d|] == d;
      ScalarRunIs(d, |d|);
    }
  }

  /** The same through the two methods. */
  method RoundTrip32(cps: seq<bv32>) returns (c: Completion, back: seq<bv32>)
    requires AllScalar(cps)
    ensures c == Done && back == cps
  {
    var octets;
    assert cps[0..|cps|] == cps;
    c, octets := Utf32To8(cps, 0, |cps|, []);
    ScalarRunIs(cps, |cps|);
    c, back := Utf8To32(octets, 0, |octets|, []);
    assert octets[0..|octets|] == octets;
    Utf32RoundTrips(cps, octets);
  }
}
