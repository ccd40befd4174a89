/** lib/charset/utf8/unchecked.h, class iterator. */
module Utf8UncheckedIterator {

  import opened Rfc3629
  import opened Utf8Core
  import opened Utf8Checked
  import opened Utf8Iterator
  import Utf8Unchecked

  /** ++ goes by the sequence length alone: it stays where it is on the octets that announce none,
      where next steps over one. */
  lemma StaysWhereNextSteps(lead: Octet)
    ensures SequenceLength(lead) == Utf8Unchecked.Step(lead) <==> !(IsTail(lead) || lead >= 0xF8)
    ensures IsTail(lead) || lead >= 0xF8 ==> SequenceLength(lead) == 0 && Utf8Unchecked.Step(lead) == 1
  {}

  /** The unchecked iterator. */
  class CodePointIterator {
    const buffer: Buffer
    var it: nat

    ghost predicate Valid()
      reads this
    {
      it <= |buffer.octets|
    }

    constructor (buffer: Buffer, octetIt: nat)
      requires octetIt <= |buffer.octets|
      ensures Valid() && this.buffer == buffer && it == octetIt
    {
      this.buffer := buffer;
      it := octetIt;
    }

    /** The payload bits of the octets that the lead octet announces, whatever they are. */
    method Deref() returns (cp: bv32)
      requires Valid() && it < |buffer.octets| && it + Utf8Unchecked.Step(buffer.octets[it]) <= |buffer.octets|
      ensures cp == Payload(buffer.octets[it..it + Utf8Unchecked.Step(buffer.octets[it])])
      ensures FrontChar(buffer.octets[it..]) > 0 ==> Returned(cp) == NextOutcome(buffer.octets[it..])
    {
      hide FrontChar, Payload, NextOutcome;
      ghost var octets := buffer.octets;
      assert octets[it..|octets|] == octets[it..];
      if FrontChar(octets[it..]) > 0 {
        Utf8Unchecked.StepIsFront(octets, it, |octets|);
      }
      var ignored;
      cp, ignored := Utf8Unchecked.Next(buffer.octets, it);
    }

    method Equals(rhs: CodePointIterator) returns (equal: bool)
      ensures equal <==> buffer == rhs.buffer && it == rhs.it
    {
      equal := buffer == rhs.buffer && it == rhs.it;
    }

    method Increment()
      requires Valid() && it < |buffer.octets| && it + SequenceLength(buffer.octets[it]) <= |buffer.octets|
      modifies this
      ensures Valid() && it == old(it) + SequenceLength(buffer.octets[old(it)])
      ensures FrontChar(buffer.octets[old(it)..]) > 0 ==> it == old(it) + FrontChar(buffer.octets[old(it)..])
    {
      hide SequenceLength, IsChar;
      FrontByLead(buffer.octets[it..]);
      it := it + SequenceLength(buffer.octets[it]);
    }

    /** There has to be a lead octet in front, with its sequence in bounds. */
    method Decrement()
      requires Valid() && LastLead(buffer.octets[..it]) >= 0
      requires var j := LastLead(buffer.octets[..it]); j + Utf8Unchecked.Step(buffer.octets[j]) <= |buffer.octets|
      modifies this
      ensures Valid() && it == LastLead(buffer.octets[..old(it)])
      ensures IsText(buffer.octets) && IsText(buffer.octets[..old(it)]) ==>
                IsText(buffer.octets[..it]) && it + FrontChar(buffer.octets[it..]) == old(it)
    {
      hide FrontChar, IsText, LastLead;
      if IsText(buffer.octets) && IsText(buffer.octets[..it]) {
        BackFromBoundary(buffer.octets, it);
      }
      var ignored, back := Utf8Unchecked.Prior(buffer.octets, it);
      it := back;
    }
  }

  /** At a boundary of a text there is such a lead octet, and going back to it ++ would return. */
  lemma BackFromBoundary(octets: seq<Octet>, q: nat)
    requires IsText(octets) && 0 < q <= |octets| && IsText(octets[..q])
    ensures
      var p := LastLead(octets[..q]);
      && p >= 0 && p + Utf8Unchecked.Step(octets[p]) == q
      && IsText(octets[..p]) && p + FrontChar(octets[p..]) == q
  {
    hide FrontChar, IsText, LastLead;
    Utf8Unchecked.PriorIsChecked(octets, q);
    NextUndoesPrior(octets, q);
    var p := LastLead(octets[..q]);
    if p > 0 {
      TextFront(octets[..p]);
    }
  }
}
