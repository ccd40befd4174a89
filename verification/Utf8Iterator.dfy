/** lib/charset/utf8/checked.h, class iterator: a bidirectional iterator over the code points
    of an octet range. */
module Utf8Iterator {

  import opened Rfc3629
  import opened Utf8Checked

  /** How ++ completes at `it`, and where it ends: where next does. */
  function ForwardStep(octets: seq<Octet>, it: nat, end: nat): (Completion, nat)
    requires it < end <= |octets|
  {
    (CompletionOf(NextOutcome(octets[it..end])), it + FrontChar(octets[it..end]))
  }

  /** How -- completes at `it`, and where it ends: where prior does. */
  function BackwardStep(octets: seq<Octet>, start: nat, it: nat): (Completion, nat)
    requires start <= it <= |octets|
  {
    if it == start then (Failed(NotEnoughRoomThrown), it)
    else
      var j := LastLead(octets[start..it]);
      if j < 0 then (Failed(InvalidUtf8Thrown(octets[start])), start)
      else (CompletionOf(NextOutcome(octets[start + j..it])), start + j)
  }

  function CompletionOf(r: Outcome<bv32>): Completion {
    if r.Thrown? then Failed(r.exc) else Done
  }

  predicate OnlyTails(octets: seq<Octet>, from: nat, to: nat)
    requires from <= to <= |octets|
  {
    forall i | from <= i < to :: IsTail(octets[i])
  }

  /** What ++ does for every range: it fails as next fails and stays, or it passes one character. */
  lemma ForwardMeans(octets: seq<Octet>, it: nat, end: nat)
    requires it < end <= |octets|
    ensures
      var (c, q) := ForwardStep(octets, it, end);
      && (forall e :: c == Failed(e) <==> NextOutcome(octets[it..end]) == Thrown(e))
      && (c == Done ==> it < q <= end && IsChar(octets[it..q]))
      && (c != Done ==> q == it)
  {
    hide IsChar, NextOutcome;
    ReturnedIffFront(octets[it..end]);
    var n := FrontChar(octets[it..end]);
    assert octets[it..end][..n] == octets[it..it + n];
  }

  /** And --: it fails at the start, it fails where only trail octets are in front, or it ends at the
      last octet that is none and completes as next does from there. */
  lemma BackwardMeans(octets: seq<Octet>, start: nat, it: nat)
    requires start <= it <= |octets|
    ensures
      var (c, p) := BackwardStep(octets, start, it);
      if it == start then c == Failed(NotEnoughRoomThrown) && p == start
      else if OnlyTails(octets, start, it) then c == Failed(InvalidUtf8Thrown(octets[start])) && p == start
      else
        && start <= p < it && !IsTail(octets[p]) && OnlyTails(octets, p + 1, it)
        && forall e :: c == Failed(e) <==> NextOutcome(octets[p..it]) == Thrown(e)
  {
    hide IsTail, NextOutcome;
    var s := octets[start..it];
    var j := LastLead(s);
    assert forall i | start <= i < it :: octets[i] == s[i - start];
  }

  /** One step forward from a boundary, in the coordinates of the underlying octets. */
  lemma Forward(octets: seq<Octet>, start: nat, it: nat, end: nat)
    requires start <= it < end <= |octets|
    requires IsText(octets[start..end]) && IsText(octets[start..it])
    ensures
      var q := it + FrontChar(octets[it..end]);
      && it < q <= end
      && IsText(octets[start..q])
      && LastLead(octets[start..q]) == it - start
      && FrontChar(octets[it..q]) > 0
  {
    hide *;
    var s, p := octets[start..end], it - start;
    assert s[..p] == octets[start..it] && s[p..] == octets[it..end];
    PriorUndoesNext(s, p);
    var q := p + FrontChar(s[p..]);
    assert s[..q] == octets[start..start + q] && s[p..q] == octets[it..start + q];
    ReturnedIffFront(s[p..q]);
  }

  /** One step backward from a boundary. */
  lemma Backward(octets: seq<Octet>, start: nat, it: nat, end: nat)
    requires start < it <= end <= |octets|
    requires IsText(octets[start..end]) && IsText(octets[start..it])
    ensures
      var j := LastLead(octets[start..it]);
      var p := start + j;
      && j >= 0
      && IsText(octets[start..p])
      && p + FrontChar(octets[p..end]) == it
      && FrontChar(octets[p..it]) > 0
  {
    hide *;
    var s, q := octets[start..end], it - start;
    assert s[..q] == octets[start..it];
    NextUndoesPrior(s, q);
    var p := LastLead(s[..q]);
    assert s[..p] == octets[start..start + p] && s[p..] == octets[start + p..end];
    PriorUndoesNext(s, p);
    assert s[p..q] == octets[start + p..it];
    ReturnedIffFront(s[p..]);
    ReturnedIffFront(s[p..q]);
  }

  /** From a boundary ++ lands on a boundary, and -- would come back. */
  lemma ForwardAndBack(octets: seq<Octet>, start: nat, it: nat, end: nat)
    requires start <= it < end <= |octets|
    requires IsText(octets[start..end]) && IsText(octets[start..it])
    ensures
      var q := it + FrontChar(octets[it..end]);
      && it < q <= end && IsText(octets[start..q])
      && ForwardStep(octets, it, end) == (Done, q) && BackwardStep(octets, start, q) == (Done, it)
  {
    hide FrontChar, IsText, LastLead, NextOutcome;
    Forward(octets, start, it, end);
    ReturnedIffFront(octets[it..end]);
    ReturnedIffFront(octets[it..it + FrontChar(octets[it..end])]);
    Shown(octets[start..it + FrontChar(octets[it..end])]);
  }

  lemma Shown(s: seq<Octet>)
    requires IsText(s) && s != []
    ensures FrontChar(s) > 0 && IsText(s[FrontChar(s)..])
  {
    hide FrontChar;
    TextFront(s);
  }

  /** From a boundary -- lands on a boundary, and ++ would come back. */
  lemma BackAndForward(octets: seq<Octet>, start: nat, it: nat, end: nat)
    requires start < it <= end <= |octets|
    requires IsText(octets[start..end]) && IsText(octets[start..it])
    ensures
      var (c, p) := BackwardStep(octets, start, it);
      && c == Done && start <= p < it && IsText(octets[start..p])
      && ForwardStep(octets, p, end) == (Done, it)
  {
    hide FrontChar, IsText, LastLead, NextOutcome;
    Backward(octets, start, it, end);
    var p := start + LastLead(octets[start..it]);
    ReturnedIffFront(octets[p..it]);
    ReturnedIffFront(octets[p..end]);
    if p > start {
      Shown(octets[start..p]);
    }
  }

  /** The octets an iterator runs over.  Two buffers with equal octets are still two. */
  class Buffer {
    const octets: seq<Octet>

    constructor (octets: seq<Octet>)
      ensures this.octets == octets
    {
      this.octets := octets;
    }
  }

  class CodePointIterator {
    const buffer: Buffer
    const rangeStart: nat
    const rangeEnd: nat
    var it: nat

    ghost predicate Valid()
      reads this
    {
      rangeStart <= it <= rangeEnd <= |buffer.octets|
    }

    /** The iterator stands between two characters of a valid range, or at one of its ends. */
    ghost predicate AtBoundary()
      requires Valid()
      reads this
    {
      IsText(buffer.octets[rangeStart..rangeEnd]) && IsText(buffer.octets[rangeStart..it])
    }

    constructor (buffer: Buffer, octetIt: nat, rangeStart: nat, rangeEnd: nat)
      requires rangeStart <= octetIt <= rangeEnd <= |buffer.octets|
      ensures Valid() && it == octetIt
      ensures this.buffer == buffer && this.rangeStart == rangeStart && this.rangeEnd == rangeEnd
    {
      this.buffer := buffer;
      this.rangeStart := rangeStart;
      this.rangeEnd := rangeEnd;
      it := octetIt;
    }

    /** The constructor as a caller sees it: null stands for std::out_of_range. */
    static method Make(buffer: Buffer, octetIt: int, rangeStart: nat, rangeEnd: nat) returns (iter: CodePointIterator?)
      requires rangeEnd <= |buffer.octets|
      ensures iter == null <==> octetIt < rangeStart || octetIt > rangeEnd
      ensures iter != null ==>
                fresh(iter) && iter.Valid() && iter.it == octetIt && iter.buffer == buffer
                && iter.rangeStart == rangeStart && iter.rangeEnd == rangeEnd
    {
      if octetIt < rangeStart || octetIt > rangeEnd {
        return null;
      }
      iter := new CodePointIterator(buffer, octetIt, rangeStart, rangeEnd);
    }

    method Deref() returns (r: Outcome<bv32>)
      requires Valid() && it < rangeEnd
      ensures r == NextOutcome(buffer.octets[it..rangeEnd])
    {
      var ignored;
      r, ignored := Next(buffer.octets, it, rangeEnd);
    }

    /** Not comparable stands for the std::logic_error about different ranges, in one buffer or
        in two. */
    method Equals(rhs: CodePointIterator) returns (comparable: bool, equal: bool)
      ensures comparable <==> buffer == rhs.buffer && rangeStart == rhs.rangeStart && rangeEnd == rhs.rangeEnd
      ensures comparable ==> (equal <==> it == rhs.it)
    {
      comparable := !(buffer != rhs.buffer || rangeStart != rhs.rangeStart || rangeEnd != rhs.rangeEnd);
      equal := comparable && it == rhs.it;
    }

    /** Prefix ++.  From a boundary it never throws and the next -- comes back to it. */
    method Increment() returns (c: Completion)
      requires Valid() && it < rangeEnd
      modifies this
      ensures Valid()
      ensures (c, it) == ForwardStep(buffer.octets, old(it), rangeEnd)
      ensures forall e :: c == Failed(e) <==> NextOutcome(buffer.octets[old(it)..rangeEnd]) == Thrown(e)
      ensures c == Done ==> old(it) < it <= rangeEnd && IsChar(buffer.octets[old(it)..it])
      ensures c != Done ==> it == old(it)
      ensures old(AtBoundary()) ==>
                c == Done && AtBoundary() && BackwardStep(buffer.octets, rangeStart, it) == (Done, old(it))
    {
      hide FrontChar, NextOutcome, IsText, IsChar, LastLead, OnlyTails;
      ForwardMeans(buffer.octets, it, rangeEnd);
      if AtBoundary() {
        ForwardAndBack(buffer.octets, rangeStart, it, rangeEnd);
      }
      var r, next := Next(buffer.octets, it, rangeEnd);
      it := next;
      c := if r.Thrown? then Failed(r.exc) else Done;
    }

    /** Prefix --.  From a boundary other than the start it never throws and the next ++
        comes back to it. */
    method Decrement() returns (c: Completion)
      requires Valid()
      modifies this
      ensures Valid()
      ensures (c, it) == BackwardStep(buffer.octets, rangeStart, old(it))
      ensures old(it) == rangeStart ==> c == Failed(NotEnoughRoomThrown) && it == rangeStart
      ensures old(it) > rangeStart && OnlyTails(buffer.octets, rangeStart, old(it)) ==>
                c == Failed(InvalidUtf8Thrown(buffer.octets[rangeStart])) && it == rangeStart
      ensures old(it) > rangeStart && !OnlyTails(buffer.octets, rangeStart, old(it)) ==>
                && rangeStart <= it < old(it) && !IsTail(buffer.octets[it]) && OnlyTails(buffer.octets, it + 1, old(it))
                && forall e :: c == Failed(e) <==> NextOutcome(buffer.octets[it..old(it)]) == Thrown(e)
      ensures old(AtBoundary()) && old(it) > rangeStart ==>
                c == Done && AtBoundary() && it < old(it) && ForwardStep(buffer.octets, it, rangeEnd) == (Done, old(it))
    {
      hide FrontChar, NextOutcome, IsText, IsTail, LastLead, OnlyTails;
      BackwardMeans(buffer.octets, rangeStart, it);
      if AtBoundary() && it > rangeStart {
        BackAndForward(buffer.octets, rangeStart, it, rangeEnd);
      }
      var r, next := Prior(buffer.octets, it, rangeStart);
      it := next;
      c := if r.Thrown? then Failed(r.exc) else Done;
    }

    /** Postfix ++ does the same and returns a copy that stayed behind. */
    method PostIncrement() returns (c: Completion, temp: CodePointIterator)
      requires Valid() && it < rangeEnd
      modifies this
      ensures Valid() && fresh(temp) && temp.Valid()
      ensures temp.buffer == buffer && temp.rangeStart == rangeStart && temp.rangeEnd == rangeEnd && temp.it == old(it)
      ensures (c, it) == ForwardStep(buffer.octets, old(it), rangeEnd)
      ensures forall e :: c == Failed(e) <==> NextOutcome(buffer.octets[old(it)..rangeEnd]) == Thrown(e)
      ensures c == Done ==> old(it) < it <= rangeEnd && IsChar(buffer.octets[old(it)..it])
      ensures c != Done ==> it == old(it)
      ensures old(AtBoundary()) ==>
                c == Done && AtBoundary() && BackwardStep(buffer.octets, rangeStart, it) == (Done, old(it))
    {
      hide ForwardStep, BackwardStep, IsText;
      temp := new CodePointIterator(buffer, it, rangeStart, rangeEnd);
      c := Increment();
    }

    /** Postfix --. */
    method PostDecrement() returns (c: Completion, temp: CodePointIterator)
      requires Valid()
      modifies this
      ensures Valid() && fresh(temp) && temp.Valid()
      ensures temp.buffer == buffer && temp.rangeStart == rangeStart && temp.rangeEnd == rangeEnd && temp.it == old(it)
      ensures (c, it) == BackwardStep(buffer.octets, rangeStart, old(it))
      ensures old(it) == rangeStart ==> c == Failed(NotEnoughRoomThrown) && it == rangeStart
      ensures old(it) > rangeStart && OnlyTails(buffer.octets, rangeStart, old(it)) ==>
                c == Failed(InvalidUtf8Thrown(buffer.octets[rangeStart])) && it == rangeStart
      ensures old(it) > rangeStart && !OnlyTails(buffer.octets, rangeStart, old(it)) ==>
                && rangeStart <= it < old(it) && !IsTail(buffer.octets[it]) && OnlyTails(buffer.octets, it + 1, old(it))
                && forall e :: c == Failed(e) <==> NextOutcome(buffer.octets[it..old(it)]) == Thrown(e)
      ensures old(AtBoundary()) && old(it) > rangeStart ==>
                c == Done && AtBoundary() && it < old(it) && ForwardStep(buffer.octets, it, rangeEnd) == (Done, old(it))
    {
      hide ForwardStep, BackwardStep, IsText;
      temp := new CodePointIterator(buffer, it, rangeStart, rangeEnd);
      c := Decrement();
    }
  }
}
