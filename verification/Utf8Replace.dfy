/** lib/charset/utf8/checked.h, replace_invalid: copying a text while every invalid sequence
    is exchanged for a replacement mark. */
module Utf8Replace {

  import opened Rfc3629
  import opened Utf8Core
  import opened Utf8Checked

  /** Octets that one mark stands for, when the sequence at the front of `s` is invalid. */
  function Skipped(s: seq<Octet>): (n: nat)
    requires s != []
    ensures 1 <= n <= |s|
  {
    if Classify(s) == InvalidLead then 1 else 1 + TrailRun(s[1..])
  }

  /** What is written for `s` with the octets `mark` as replacement mark. */
  function Replaced(s: seq<Octet>, mark: seq<Octet>): seq<Octet>
    decreases |s|
  {
    if s == [] then []
    else if FrontChar(s) > 0 then s[..FrontChar(s)] + Replaced(s[FrontChar(s)..], mark)
    else if Classify(s) == NotEnoughRoom then []
    else mark + Replaced(s[Skipped(s)..], mark)
  }

  /** The scan runs into an incomplete sequence at the end of `s`. */
  predicate RunsOut(s: seq<Octet>)
    decreases |s|
  {
    if s == [] then false
    else if FrontChar(s) > 0 then RunsOut(s[FrontChar(s)..])
    else if Classify(s) == NotEnoughRoom then true
    else RunsOut(s[Skipped(s)..])
  }

  /** `s` ends inside a sequence: its last non-trail octet announces more octets than are
      left.  Nothing but the last octets of `s` has to be looked at to decide this. */
  predicate TruncatedTail(s: seq<Octet>) {
    var j := LastLead(s);
    j >= 0 && j + SequenceLength(s[j]) > |s|
  }

  lemma LastLeadConcat(a: seq<Octet>, b: seq<Octet>)
    ensures LastLead(a + b) == if LastLead(b) >= 0 then |a| + LastLead(b) else LastLead(a)
  {
    hide IsTail;
    var j := if LastLead(b) >= 0 then |a| + LastLead(b) else LastLead(a);
    LastLeadIs(a + b, j);
  }

  /** A single piece of the scan is not truncated unless the decoder says so. */
  lemma PieceNotTruncated(s: seq<Octet>, n: nat)
    requires s != []
    requires if FrontChar(s) > 0 then n == FrontChar(s) else Classify(s) != NotEnoughRoom && n == Skipped(s)
    ensures n <= |s| && (LastLead(s[..n]) == 0 || LastLead(s[..n]) == -1)
    ensures LastLead(s[..n]) == 0 && Classify(s) == IncompleteSequence ==> n < |s| && LastLead(s[n..]) >= 0
    ensures LastLead(s[..n]) == 0 && Classify(s) != IncompleteSequence ==> SequenceLength(s[0]) <= n
  {
    hide IsTail, SequenceLength;
    if FrontChar(s) > 0 {
      CharHasLength(s[..n]);
      LastLeadIs(s[..n], 0);
    } else {
      assert forall i | 1 <= i < n :: s[..n][i] == s[1..][i - 1];
      LastLeadIs(s[..n], if IsTail(s[0]) then -1 else 0);
      if n < |s| && Classify(s) != InvalidLead {
        assert s[n..][0] == s[1..][n - 1];
      }
    }
  }

  /** replace_invalid throws not_enough_room exactly when its input ends inside a sequence. */
  lemma {:induction false} RunsOutIffTruncated(s: seq<Octet>)
    ensures RunsOut(s) <==> TruncatedTail(s)
    decreases |s|
  {
    hide IsTail, SequenceLength, LastLead, FrontChar, Classify, Skipped;
    if s != [] {
      if FrontChar(s) == 0 && Classify(s) == NotEnoughRoom {
        NotEnoughRoomIsTruncated(s);
      } else {
        var n := if FrontChar(s) > 0 then FrontChar(s) else Skipped(s);
        PieceNotTruncated(s, n);
        RunsOutIffTruncated(s[n..]);
        assert s == s[..n] + s[n..];
        LastLeadConcat(s[..n], s[n..]);
      }
    }
  }

  lemma NotEnoughRoomIsTruncated(s: seq<Octet>)
    requires s != [] && Classify(s) == NotEnoughRoom
    ensures TruncatedTail(s) && LastLead(s) == 0
  {
    hide SequenceLength;
    LeadIsNoTail(s[0]);
    assert forall i | 1 <= i < |s| :: s[i] == s[1..][i - 1];
    LastLeadIs(s, 0);
  }

  lemma LeadIsNoTail(o: Octet)
    ensures SequenceLength(o) > 0 ==> !IsTail(o)
  {}

  /** With a mark that is a text, everything written is a text. */
  lemma {:induction false} ReplacedIsText(s: seq<Octet>, mark: seq<Octet>)
    requires IsText(mark)
    ensures IsText(Replaced(s, mark))
    decreases |s|
  {
    hide IsChar, FrontChar, Classify, Skipped, IsText;
    EmptyIsText();
    if s != [] {
      if FrontChar(s) > 0 {
        var n := FrontChar(s);
        CharIsText(s[..n]);
        ReplacedIsText(s[n..], mark);
        TextThen(s[..n], Replaced(s[n..], mark));
      } else if Classify(s) != NotEnoughRoom {
        ReplacedIsText(s[Skipped(s)..], mark);
        TextThen(mark, Replaced(s[Skipped(s)..], mark));
      }
    }
  }

  lemma EmptyIsText()
    ensures IsText([])
  {}

  /** The valid prefix is copied unchanged. */
  lemma {:induction false} ReplacedKeepsPrefix(s: seq<Octet>, mark: seq<Octet>)
    ensures var p := ValidPrefix(s); Replaced(s, mark) == s[..p] + Replaced(s[p..], mark) && (RunsOut(s) <==> RunsOut(s[p..]))
    decreases |s|
  {
    hide IsChar, FrontChar, Classify, Skipped, IsText;
    var n := FrontChar(s);
    if n == 0 {
      assert s[0..] == s;
    } else {
      var t := s[n..];
      ReplacedKeepsPrefix(t, mark);
      var p := ValidPrefix(t);
      var rest := Replaced(t[p..], mark);
      Regroup(s, n, p, rest);
    }
  }

  lemma Regroup(s: seq<Octet>, n: nat, p: nat, rest: seq<Octet>)
    requires n + p <= |s|
    ensures s[n + p..] == s[n..][p..] && s[..n] + (s[n..][..p] + rest) == s[..n + p] + rest
  {}

  /** A text comes back unchanged, and the scan does not run out. */
  lemma ReplacedOnText(s: seq<Octet>, mark: seq<Octet>)
    requires IsText(s)
    ensures Replaced(s, mark) == s && !TruncatedTail(s)
  {
    hide IsText, ValidPrefix, TruncatedTail;
    ReplacedKeepsPrefix(s, mark);
    TextIffWhole(s);
    RunsOutIffTruncated(s);
    assert s[..|s|] == s && s[|s|..] == [];
  }

  // ------------------------------------------------------ what is kept and what is marked

  /** An invalid piece: no character, but one octet and the trail octets that belong to it. */
  predicate IsBadPiece(p: seq<Octet>) {
    p != [] && FrontChar(p) == 0 && forall i | 1 <= i < |p| :: IsTail(p[i])
  }

  function Flatten(pieces: seq<seq<Octet>>): seq<Octet> {
    if pieces == [] then [] else pieces[0] + Flatten(pieces[1..])
  }

  function Marked(pieces: seq<seq<Octet>>, mark: seq<Octet>): seq<seq<Octet>> {
    seq(|pieces|, i requires 0 <= i < |pieces| => if IsChar(pieces[i]) then pieces[i] else mark)
  }

  /** A piece that one mark stands for: if its first octet announces a sequence it has every trail
      octet that follows, and if not it is that octet alone. */
  predicate IsWholePiece(p: seq<Octet>, behind: seq<Octet>) {
    IsBadPiece(p) && if SequenceLength(p[0]) == 0 then |p| == 1 else behind == [] || !IsTail(behind[0])
  }

  /** The characters and the invalid pieces of `s`, less the incomplete sequence at its end. */
  function Pieces(s: seq<Octet>): seq<seq<Octet>>
    decreases |s|
  {
    if s == [] then []
    else if FrontChar(s) > 0 then [s[..FrontChar(s)]] + Pieces(s[FrontChar(s)..])
    else if Classify(s) == NotEnoughRoom then []
    else [s[..Skipped(s)]] + Pieces(s[Skipped(s)..])
  }

  function PieceBehind(pieces: seq<seq<Octet>>, i: nat): seq<Octet>
    requires i < |pieces|
  {
    if i + 1 < |pieces| then pieces[i + 1] else []
  }

  /** The input splits into characters and whole invalid pieces, up to an incomplete sequence at its
      end; the output consists of the same characters in the same order, with one mark for each
      invalid piece. */
  lemma {:induction false} ReplacedByPieces(s: seq<Octet>, mark: seq<Octet>)
    ensures Flatten(Pieces(s)) == s[..if TruncatedTail(s) then LastLead(s) else |s|]
    ensures
      var ps := Pieces(s);
      forall i | 0 <= i < |ps| :: IsChar(ps[i]) || IsWholePiece(ps[i], PieceBehind(ps, i))
    ensures Replaced(s, mark) == Flatten(Marked(Pieces(s), mark))
  {
    PiecesFlatten(s);
    PiecesAreWhole(s);
    PiecesMarked(s, mark);
  }

  /** Octets in front of the incomplete sequence at the end, if there is one. */
  function Complete(s: seq<Octet>): (n: nat)
    ensures n <= |s|
  {
    if TruncatedTail(s) then LastLead(s) else |s|
  }

  lemma CompleteOn(s: seq<Octet>, n: nat)
    requires s != []
    requires if FrontChar(s) > 0 then n == FrontChar(s) else Classify(s) != NotEnoughRoom && n == Skipped(s)
    ensures n <= |s| && Complete(s) == n + Complete(s[n..])
  {
    hide IsTail, SequenceLength, LastLead, FrontChar, Classify, Skipped;
    PieceNotTruncated(s, n);
    RunsOutIffTruncated(s);
    RunsOutIffTruncated(s[n..]);
    assert s == s[..n] + s[n..];
    LastLeadConcat(s[..n], s[n..]);
  }

  lemma {:induction false} PiecesFlatten(s: seq<Octet>)
    ensures Flatten(Pieces(s)) == s[..Complete(s)]
    decreases |s|
  {
    hide IsChar, FrontChar, Classify, Skipped, Complete;
    if s == [] {
    } else if FrontChar(s) == 0 && Classify(s) == NotEnoughRoom {
      NothingComplete(s);
    } else {
      var n := if FrontChar(s) > 0 then FrontChar(s) else Skipped(s);
      CompleteOn(s, n);
      PiecesFlatten(s[n..]);
      assert s[..n + Complete(s[n..])] == s[..n] + s[n..][..Complete(s[n..])];
    }
  }

  lemma NothingComplete(s: seq<Octet>)
    requires s != [] && Classify(s) == NotEnoughRoom
    ensures Complete(s) == 0
  {
    hide Classify;
    NotEnoughRoomIsTruncated(s);
  }

  lemma {:induction false} PiecesMarked(s: seq<Octet>, mark: seq<Octet>)
    ensures Replaced(s, mark) == Flatten(Marked(Pieces(s), mark))
    decreases |s|
  {
    hide IsChar, IsTail, FrontChar, Classify, Skipped, Marked;
    MarkedNothing(mark);
    if s != [] {
      var n := if FrontChar(s) > 0 then FrontChar(s) else Skipped(s);
      PiecesMarked(s[n..], mark);
      if FrontChar(s) == 0 && Classify(s) != NotEnoughRoom {
        SkippedIsBadPiece(s);
      }
      MarkedCons(s[..n], Pieces(s[n..]), mark);
    }
  }

  lemma FirstPiece(s: seq<Octet>)
    requires Pieces(s) != []
    ensures s != [] && Pieces(s)[0] != [] && Pieces(s)[0][0] == s[0]
  {
    hide IsChar, FrontChar, Classify, Skipped;
  }

  lemma {:induction false} PiecesAreWhole(s: seq<Octet>)
    ensures
      var ps := Pieces(s);
      forall i | 0 <= i < |ps| :: IsChar(ps[i]) || IsWholePiece(ps[i], PieceBehind(ps, i))
    decreases |s|
  {
    hide IsChar, FrontChar, Classify, Skipped, IsWholePiece;
    var ps := Pieces(s);
    if ps != [] {
      var n := if FrontChar(s) > 0 then FrontChar(s) else Skipped(s);
      var rest := s[n..];
      PiecesAreWhole(rest);
      assert ps[1..] == Pieces(rest);
      if Pieces(rest) != [] {
        FirstPiece(rest);
      }
      if FrontChar(s) == 0 {
        SkippedIsWhole(s, PieceBehind(ps, 0));
      }
      forall i | 1 <= i < |ps| ensures IsChar(ps[i]) || IsWholePiece(ps[i], PieceBehind(ps, i)) {
        assert ps[i] == Pieces(rest)[i - 1] && PieceBehind(ps, i) == PieceBehind(Pieces(rest), i - 1);
      }
    }
  }

  lemma SkippedIsWhole(s: seq<Octet>, behind: seq<Octet>)
    requires s != [] && FrontChar(s) == 0 && Classify(s) != NotEnoughRoom
    requires behind != [] ==> Skipped(s) < |s| && behind[0] == s[Skipped(s)]
    ensures IsWholePiece(s[..Skipped(s)], behind)
  {
    hide IsChar, FrontChar, SequenceLength, IsTail, IsBadPiece;
    SkippedIsBadPiece(s);
    var n := Skipped(s);
    if n < |s| && Classify(s) != InvalidLead {
      assert s[n] == s[1..][n - 1];
    }
  }

  lemma MarkedNothing(mark: seq<Octet>)
    ensures Marked([], mark) == []
  {}

  lemma MarkedCons(p: seq<Octet>, rest: seq<seq<Octet>>, mark: seq<Octet>)
    ensures ([p] + rest)[1..] == rest
    ensures Flatten(Marked([p] + rest, mark)) == (if IsChar(p) then p else mark) + Flatten(Marked(rest, mark))
  {
    hide IsChar;
    assert Marked([p] + rest, mark)[1..] == Marked(rest, mark);
  }

  lemma SkippedIsBadPiece(s: seq<Octet>)
    requires s != [] && FrontChar(s) == 0 && Classify(s) != NotEnoughRoom
    ensures IsBadPiece(s[..Skipped(s)]) && !IsChar(s[..Skipped(s)])
  {
    hide IsChar, IsTail, FrontChar, Classify;
    var p := s[..Skipped(s)];
    assert forall i | 1 <= i < |p| :: p[i] == s[1..][i - 1];
    var m := FrontChar(p);
    assert p[..m] == s[..m];
    assert p[..|p|] == p;
  }

  /** How the call completes. */
  function ReplaceCompletion(s: seq<Octet>, replacement: bv32): Completion {
    if IsScalarValue(replacement) then
      if TruncatedTail(s) then Failed(NotEnoughRoomThrown) else Done
    else
      var rest := s[ValidPrefix(s)..];
      if rest == [] then Done
      else if Classify(rest) == NotEnoughRoom then Failed(NotEnoughRoomThrown)
      else Failed(InvalidCodePointThrown(replacement))
  }

  /** What has been written when it completes, normally or by an exception. */
  function ReplaceOutput(s: seq<Octet>, replacement: bv32): seq<Octet> {
    if IsScalarValue(replacement) then Replaced(s, Encode(replacement)) else s[..ValidPrefix(s)]
  }

  /** With a scalar value as replacement a call that returns has written a text, has written
      its input if that was a text already, and a second call changes nothing more. */
  lemma ReplaceProperties(s: seq<Octet>, replacement: bv32)
    requires IsScalarValue(replacement)
    ensures
      var out := ReplaceOutput(s, replacement);
      && IsText(out)
      && (IsText(s) ==> out == s && ReplaceCompletion(s, replacement) == Done)
      && ReplaceOutput(out, replacement) == out
      && ReplaceCompletion(out, replacement) == Done
      && (ReplaceCompletion(s, replacement) == Done && out == s ==> IsText(s))
  {
    hide IsScalarValue, Encode, IsText, Replaced, TruncatedTail;
    var mark := Encode(replacement);
    EncodeIsChar(replacement);
    CharIsText(mark);
    ReplacedIsText(s, mark);
    ReplacedOnText(Replaced(s, mark), mark);
    if IsText(s) {
      ReplacedOnText(s, mark);
    }
  }

  lemma StepOutput(s: seq<Octet>, replacement: bv32)
    requires s != []
    ensures
      if FrontChar(s) > 0 then
        var n := FrontChar(s);
        && ReplaceOutput(s, replacement) == s[..n] + ReplaceOutput(s[n..], replacement)
        && ReplaceCompletion(s, replacement) == ReplaceCompletion(s[n..], replacement)
      else if Classify(s) == NotEnoughRoom then
        ReplaceOutput(s, replacement) == [] && ReplaceCompletion(s, replacement) == Failed(NotEnoughRoomThrown)
      else if IsScalarValue(replacement) then
        && ReplaceOutput(s, replacement) == Encode(replacement) + ReplaceOutput(s[Skipped(s)..], replacement)
        && ReplaceCompletion(s, replacement) == ReplaceCompletion(s[Skipped(s)..], replacement)
      else
        ReplaceOutput(s, replacement) == [] && ReplaceCompletion(s, replacement) == Failed(InvalidCodePointThrown(replacement))
  {
    hide IsScalarValue, Encode, TruncatedTail, Skipped, Classify, FrontChar;
    RunsOutIffTruncated(s);
    var n := if FrontChar(s) > 0 then FrontChar(s) else Skipped(s);
    RunsOutIffTruncated(s[n..]);
    assert s[0..] == s;
    if FrontChar(s) > 0 {
      var p := ValidPrefix(s[n..]);
      assert s[..n + p] == s[..n] + s[n..][..p] && s[n + p..] == s[n..][p..];
    }
  }

  /** How the call will complete and what it will have written, with `s` still to come. */
  function Outlook(out: seq<Octet>, s: seq<Octet>, replacement: bv32): (Completion, seq<Octet>) {
    (ReplaceCompletion(s, replacement), out + ReplaceOutput(s, replacement))
  }

  /** One round of the loop. */
  lemma RoundOutput(out: seq<Octet>, s: seq<Octet>, replacement: bv32)
    requires s != []
    ensures
      Outlook(out, s, replacement) ==
      if FrontChar(s) > 0 then Outlook(out + s[..FrontChar(s)], s[FrontChar(s)..], replacement)
      else if Classify(s) == NotEnoughRoom then (Failed(NotEnoughRoomThrown), out)
      else if IsScalarValue(replacement) then Outlook(out + Encode(replacement), s[Skipped(s)..], replacement)
      else (Failed(InvalidCodePointThrown(replacement)), out)
  {
    hide ReplaceOutput, ReplaceCompletion, IsScalarValue, Encode, Skipped, Classify, FrontChar;
    StepOutput(s, replacement);
    if FrontChar(s) > 0 {
      Associates(out, s[..FrontChar(s)], ReplaceOutput(s[FrontChar(s)..], replacement));
    } else {
      Associates(out, Encode(replacement), ReplaceOutput(s[Skipped(s)..], replacement));
    }
  }

  lemma OutlookIs(out: seq<Octet>, s: seq<Octet>, replacement: bv32)
    ensures Outlook(out, s, replacement) == (ReplaceCompletion(s, replacement), out + ReplaceOutput(s, replacement))
    ensures s == [] ==> Outlook(out, s, replacement) == (Done, out)
  {
    NothingLeft(replacement);
    Associates(out, [], []);
  }

  lemma Associates(a: seq<Octet>, b: seq<Octet>, c: seq<Octet>)
    ensures a + (b + c) == (a + b) + c && a + [] == a
  {}

  lemma SliceParts(s: seq<Octet>, from: nat, to: nat, n: nat)
    requires from + n <= to <= |s|
    ensures s[from..to][..n] == s[from..from + n] && s[from..to][n..] == s[from + n..to]
  {}

  /** The same for a range of octets, by the verdict of the decoder. */
  lemma RoundFrom(out: seq<Octet>, s: seq<Octet>, from: nat, end: nat, replacement: bv32)
    requires from < end <= |s|
    ensures
      var u := s[from..end];
      if Classify(u) == Utf8Ok then
        var next := from + FrontChar(u);
        from < next <= end && Outlook(out, u, replacement) == Outlook(out + s[from..next], s[next..end], replacement)
      else if Classify(u) == NotEnoughRoom then
        Outlook(out, u, replacement) == (Failed(NotEnoughRoomThrown), out)
      else if IsScalarValue(replacement) then
        var next := from + 1 + if Classify(u) == InvalidLead then 0 else TrailRun(s[from + 1..end]);
        next <= end && Outlook(out, u, replacement) == Outlook(out + Encode(replacement), s[next..end], replacement)
      else
        Outlook(out, u, replacement) == (Failed(InvalidCodePointThrown(replacement)), out)
  {
    hide Outlook, FrontChar, Classify, TrailRun, IsScalarValue, Encode;
    var u := s[from..end];
    RoundOutput(out, u, replacement);
    OkIffFront(u);
    SliceParts(s, from, end, 1);
    SliceParts(s, from, end, if FrontChar(u) > 0 then FrontChar(u) else Skipped(u));
  }

  method ReplaceInvalid(s: seq<Octet>, start0: nat, end: nat, out0: seq<Octet>, replacement: bv32)
    returns (c: Completion, out: seq<Octet>)
    requires start0 <= end <= |s|
    ensures c == ReplaceCompletion(s[start0..end], replacement)
    ensures out == out0 + ReplaceOutput(s[start0..end], replacement)
  {
    hide *;
    var start := start0;
    out := out0;
    c := Done;
    ghost var t := s[start0..end];
    OutlookIs(out0, t, replacement);
    while start != end
      invariant start0 <= start <= end && c == Done
      invariant Outlook(out0, t, replacement) == Outlook(out, s[start..end], replacement)
      decreases end - start
    {
      RoundFrom(out, s, start, end, replacement);
      var sequenceStart := start;
      var err, next, ignored := ValidateNext(s, start, end, 0);
      start := next;
      match err {
        case Utf8Ok =>
          out := CopyOctets(s, sequenceStart, start, out);
        case NotEnoughRoom =>
          return Failed(NotEnoughRoomThrown), out;
        case InvalidLead =>
          c, out := Append(replacement, out);
          if c != Done {
            return;
          }
          start := start + 1;
        case _ =>
          c, out := Append(replacement, out);
          if c != Done {
            return;
          }
          start := start + 1;
          start := SkipTrail(s, start, end);
      }
    }
    OutlookIs(out, s[start..end], replacement);
  }

  method CopyOctets(s: seq<Octet>, from: nat, to: nat, out0: seq<Octet>) returns (out: seq<Octet>)
    requires from <= to <= |s|
    ensures out == out0 + s[from..to]
  {
    out := out0;
    for it := from to to
      invariant out == out0 + s[from..it]
    {
      out := out + [s[it]];
    }
  }

  lemma NothingLeft(replacement: bv32)
    ensures ReplaceOutput([], replacement) == [] && ReplaceCompletion([], replacement) == Done
  {}

  /** The loop that leaves just one replacement mark for the sequence. */
  method SkipTrail(s: seq<Octet>, start0: nat, end: nat) returns (start: nat)
    requires start0 <= end <= |s|
    ensures start == start0 + TrailRun(s[start0..end])
  {
    start := start0;
    while start != end && IsTrail(s[start])
      invariant start0 <= start <= end
      invariant TrailRun(s[start0..end]) == start - start0 + TrailRun(s[start..end])
      decreases end - start
    {
      assert s[start..end][1..] == s[start + 1..end];
      start := start + 1;
    }
  }

  /** The default mark. */
  const REPLACEMENT_MARKER: bv32 := 0xfffd & 0xffff

  method ReplaceInvalidDefault(s: seq<Octet>, start: nat, end: nat, out0: seq<Octet>) returns (c: Completion, out: seq<Octet>)
    requires start <= end <= |s|
    ensures c == if TruncatedTail(s[start..end]) then Failed(NotEnoughRoomThrown) else Done
    ensures out == out0 + Replaced(s[start..end], [0xef, 0xbf, 0xbd])
    ensures out0 == [] ==> IsText(out)
  {
    hide *;
    DefaultMark();
    c, out := ReplaceInvalid(s, start, end, out0, REPLACEMENT_MARKER);
    DefaultOutput(s[start..end]);
    assert [] + Replaced(s[start..end], [0xef, 0xbf, 0xbd]) == Replaced(s[start..end], [0xef, 0xbf, 0xbd]);
  }

  lemma DefaultMark()
    ensures IsScalarValue(REPLACEMENT_MARKER) && Encode(REPLACEMENT_MARKER) == [0xef, 0xbf, 0xbd]
  {}

  lemma DefaultOutput(s: seq<Octet>)
    ensures
      && ReplaceCompletion(s, REPLACEMENT_MARKER) == (if TruncatedTail(s) then Failed(NotEnoughRoomThrown) else Done)
      && ReplaceOutput(s, REPLACEMENT_MARKER) == Replaced(s, [0xef, 0xbf, 0xbd])
      && IsText(Replaced(s, [0xef, 0xbf, 0xbd]))
  {
    hide IsText, Replaced, TruncatedTail, IsScalarValue, Encode;
    DefaultMark();
    ReplaceProperties(s, REPLACEMENT_MARKER);
  }
}
