/** src/mpeg.c: reading from a descriptor that may be slow, interrupted or at its end, and the
    search for the start of an MPEG audio header in what comes. */
module MpegSync {

  type Octet = bv8

  /** What the next `read` does: nothing to read yet, an error, or up to `max` octets. */
  datatype Answer = Again | Failure | Octets(max: nat)

  /** Once the list of answers is used up every read gives all it can. */
  function FirstAnswer(answers: seq<Answer>, size: nat): Answer {
    if answers == [] then Octets(size) else answers[0]
  }

  function LaterAnswers(answers: seq<Answer>): seq<Answer> {
    if answers == [] then [] else answers[1..]
  }

  function Min(a: nat, b: nat): nat {
    if a < b then a else b
  }

  /** `buffer` with `piece` written over it from `at` on. */
  function Written(buffer: seq<Octet>, at: nat, piece: seq<Octet>): (r: seq<Octet>)
    requires at + |piece| <= |buffer|
    ensures |r| == |buffer|
  {
    buffer[..at] + piece + buffer[at + |piece|..]
  }

  lemma WrittenTwice(buffer: seq<Octet>, at: nat, stream: seq<Octet>, p: nat, q: nat, r: nat)
    requires p <= q <= r <= |stream| && at + (r - p) <= |buffer|
    ensures Written(Written(buffer, at, stream[p..q]), at + (q - p), stream[q..r]) == Written(buffer, at, stream[p..r])
  {}

  lemma WrittenNothing(buffer: seq<Octet>, at: nat, stream: seq<Octet>, p: nat)
    requires p <= |stream| && at <= |buffer|
    ensures Written(buffer, at, stream[p..p]) == buffer
  {}

  class File {

    const stream: seq<Octet>
    var pos: nat
    var answers: seq<Answer>

    predicate Valid()
      reads this
    {
      pos <= |stream|
    }

    constructor (stream: seq<Octet>, answers: seq<Answer>)
      ensures Valid() && this.stream == stream && pos == 0 && this.answers == answers
    {
      this.stream, pos, this.answers := stream, 0, answers;
    }

    /** read(2): the octets go to the buffer and the position moves on; -1 leaves both alone. */
    method Read(data: array<Octet>, at: nat, size: nat) returns (result: int, again: bool)
      requires Valid() && at + size <= data.Length
      modifies this, data
      ensures Valid() && answers == LaterAnswers(old(answers))
      ensures
        var answer := FirstAnswer(old(answers), size);
        && (answer.Octets? ==> result == Min(answer.max, Min(size, |stream| - old(pos))) && pos == old(pos) + result)
        && (!answer.Octets? ==> result == -1 && again == answer.Again? && pos == old(pos))
      ensures pos - old(pos) <= size && data[..] == Written(old(data[..]), at, stream[old(pos)..pos])
    {
      var answer := FirstAnswer(answers, size);
      answers := LaterAnswers(answers);
      if !answer.Octets? {
        WrittenNothing(data[..], at, stream, pos);
        return -1, answer.Again?;
      }
      var n := Min(answer.max, Min(size, |stream| - pos));
      forall i | 0 <= i < n {
        data[at + i] := stream[pos + i];
      }
      pos := pos + n;
      assert data[..] == Written(old(data[..]), at, stream[old(pos)..pos]);
      result, again := n, false;
    }
  }

  // ------------------------------------------------------------------------------- readData

  /** Result, octets taken from the stream, and answers left. */
  datatype Outcome = Outcome(result: int, taken: nat, rest: seq<Answer>)

  function Reads(answers: seq<Answer>, left: nat, size: nat, tries: nat): (o: Outcome)
    ensures o.taken <= Min(size, left)
    decreases tries
  {
    if size == 0 || tries == 0 then Outcome(0, 0, answers)
    else
      var later := LaterAnswers(answers);
      match FirstAnswer(answers, size)
      case Again => Reads(later, left, size, tries - 1)
      case Failure => Outcome(-1, 0, later)
      case Octets(max) =>
        var n := Min(max, Min(size, left));
        var o := Reads(later, left - n, size - n, tries - 1);
        Outcome(if o.result == -1 then -1 else n + o.result, n + o.taken, o.rest)
  }

  function Amount(a: Answer): nat {
    if a.Octets? then a.max else 0
  }

  predicate GivesNothing(a: Answer) {
    a == Again || a == Octets(0)
  }

  /** A result that is no error counts the octets taken, and an error comes from an answer. */
  lemma {:induction false} ResultCountsOctets(answers: seq<Answer>, left: nat, size: nat, tries: nat)
    ensures
      var o := Reads(answers, left, size, tries);
      (o.result == -1 && Failure in answers && o.taken < size) || o.result == o.taken
    decreases tries
  {
    if size > 0 && tries > 0 {
      var later := LaterAnswers(answers);
      match FirstAnswer(answers, size)
      case Again => ResultCountsOctets(later, left, size, tries - 1);
      case Failure =>
      case Octets(max) =>
        var n := Min(max, Min(size, left));
        ResultCountsOctets(later, left - n, size - n, tries - 1);
    }
  }

  function Total(answers: seq<Answer>): nat {
    if answers == [] then 0 else Amount(answers[0]) + Total(answers[1..])
  }

  /** As many octets are taken as are wanted and there, or as the answers used have given. */
  lemma {:induction false} TakenIsGiven(answers: seq<Answer>, left: nat, size: nat, tries: nat)
    ensures
      var o := Reads(answers, left, size, tries);
      |o.rest| <= |answers| && (o.taken == Min(size, left) || o.taken == Total(answers[..|answers| - |o.rest|]))
    decreases tries
  {
    hide Reads, LastUsed;
    NoRead(answers, left, size, tries);
    if size > 0 && tries > 0 && answers == [] {
      PromptTry(left, size, tries);
    } else if size > 0 && tries > 0 {
      Unfold(answers, left, size, tries);
      var later, n := answers[1..], FirstTake(answers, left, size);
      TakenIsGiven(later, left - n, size - n, tries - 1);
      var used := |later| - |Reads(later, left - n, size - n, tries - 1).rest|;
      assert answers[..1 + used][1..] == later[..used];
      assert answers[..1][1..] == [];
    }
  }

  /** Before the end of the stream zero means that every try came too early. */
  lemma {:induction false} ZeroIffTooEarly(answers: seq<Answer>, left: nat, size: nat, tries: nat)
    requires size > 0 && left > 0
    ensures Reads(answers, left, size, tries).result == 0
      <==> tries <= |answers| && forall i | 0 <= i < tries :: GivesNothing(answers[i])
    decreases tries
  {
    if tries > 0 {
      var later := LaterAnswers(answers);
      var answer := FirstAnswer(answers, size);
      if GivesNothing(answer) {
        assert answers != [] && answers[0] == answer;
        assert forall i | 1 <= i < |answers| :: answers[i] == later[i - 1];
        assert forall i | 0 <= i < |later| :: later[i] == answers[i + 1];
        ZeroIffTooEarly(later, left, size, tries - 1);
      } else if answer.Octets? {
        var n := Min(answer.max, Min(size, left));
        ResultCountsOctets(later, left - n, size - n, tries - 1);
      }
    }
  }

  /** Every read gives all it can, up to the four octets of a header. */
  predicate Prompt(answers: seq<Answer>) {
    forall a | a in answers :: a.Octets? && a.max >= 4
  }

  lemma PromptReads(answers: seq<Answer>, left: nat, size: nat, tries: nat)
    requires Prompt(answers) && size <= 4 && tries == 2
    ensures var o := Reads(answers, left, size, tries); o.result == o.taken == Min(size, left) && Prompt(o.rest)
  {
    var later := LaterAnswers(answers);
    var n := Min(size, left);
    assert Prompt(later);
    assert Reads(later, left - n, size - n, 1).result == 0;
  }

  lemma FirstTry(answers: seq<Answer>, left: nat, size: nat, tries: nat)
    ensures
      var o := Reads(answers, left, size, tries);
      if size == 0 || tries == 0 then o == Outcome(0, 0, answers)
      else
        var later, answer := LaterAnswers(answers), FirstAnswer(answers, size);
        && (answer.Again? ==> o == Reads(later, left, size, tries - 1))
        && (answer.Failure? ==> o == Outcome(-1, 0, later))
        && (answer.Octets? ==>
             var n := Min(answer.max, Min(size, left));
             var rest := Reads(later, left - n, size - n, tries - 1);
             o.taken == n + rest.taken && o.rest == rest.rest && o.result == if rest.result == -1 then -1 else n + rest.result)
  {}

  /** src/mpeg.c: reads until the request is met, trying `tries` times; the buffer gets the next
      octets of the stream in order, and nothing else in it changes. */
  method ReadData(file: File, data: array<Octet>, at: nat, size: nat, tries: nat) returns (result: int)
    requires file.Valid() && at + size <= data.Length
    modifies file, data
    ensures file.Valid()
    ensures
      var o := Reads(old(file.answers), |file.stream| - old(file.pos), size, tries);
      && result == o.result && file.pos == old(file.pos) + o.taken && file.answers == o.rest
      && data[..] == Written(old(data[..]), at, file.stream[old(file.pos)..file.pos])
      && (if result == -1 then o.taken < size else result == o.taken)
    decreases tries
  {
    hide Written, Reads;
    ResultCountsOctets(file.answers, |file.stream| - file.pos, size, tries);
    FirstTry(file.answers, |file.stream| - file.pos, size, tries);
    if size == 0 || tries == 0 {
      WrittenNothing(data[..], at, file.stream, file.pos);
      return 0;
    }
    var again;
    result, again := file.Read(data, at, size);
    if result == -1 {
      WrittenNothing(old(data[..]), at, file.stream, file.pos);
      if again {
        result := ReadData(file, data, at, size, tries - 1);
        return;
      }
      return -1;
    }
    var offset := result;
    ghost var mid := file.pos;
    result := ReadData(file, data, at + offset, size - offset, tries - 1);
    WrittenTwice(old(data[..]), at, file.stream, old(file.pos), mid, file.pos);
    if result == -1 {
      return -1;
    }
    result := result + offset;
  }

  // --------------------------------------------------------------------------- readMpegHeader

  const MPEG_BUFFER_OVERFLOW := -2
  const MPEG_FILE_EMPTY := -3
  const MPEG_FILE_ERROR := -4
  const MPEG_SYNC_NOT_FOUND := -5
  const MPEG_BUFFER_UNDERFLOW := -7
  const FLAG_MAX: nat := 1200

  /** The sync word: eleven ones, an octet of them and the next three bits. */
  predicate IsSync(a: Octet, b: Octet) {
    a == 0xff && b & 0xe0 == 0xe0
  }

  predicate SyncAt(stream: seq<Octet>, k: nat) {
    k + 1 < |stream| && IsSync(stream[k], stream[k + 1])
  }

  predicate NoSyncBefore(stream: seq<Octet>, from: nat, to: nat) {
    forall k: nat | from <= k < to :: !SyncAt(stream, k)
  }

  /** The test on the little-endian word that starts with octets `a` and `b`. */
  predicate PassesMask(a: Octet, b: Octet) {
    ((b as bv16 << 8) | a as bv16) & 0xe0ff == 0xe0ff
  }

  lemma MaskFindsSync(a: Octet, b: Octet)
    ensures PassesMask(a, b) <==> IsSync(a, b)
  {}

  /** The first four octets of the buffer are those of the stream before position `p`. */
  predicate Window(data: seq<Octet>, stream: seq<Octet>, p: nat) {
    4 <= p <= |stream| && |data| >= 4 && FirstFour(data) == stream[p - 4..p]
  }

  function FirstFour(data: seq<Octet>): seq<Octet>
    requires |data| >= 4
  {
    data[..4]
  }

  lemma WindowTest(data: seq<Octet>, stream: seq<Octet>, p: nat)
    requires Window(data, stream, p)
    ensures PassesMask(data[0], data[1]) <==> SyncAt(stream, p - 4)
  {
    hide PassesMask, IsSync;
    assert data[0] == data[..4][0] && data[1] == data[..4][1];
    MaskFindsSync(data[0], data[1]);
  }

  lemma FirstWindow(buffer: seq<Octet>, stream: seq<Octet>, p: nat)
    requires p + 4 <= |stream| && |buffer| >= 4
    ensures Window(Written(buffer, 0, stream[p..p + 4]), stream, p + 4)
  {}

  lemma NextWindow(before: seq<Octet>, shifted: seq<Octet>, stream: seq<Octet>, p: nat)
    requires Window(before, stream, p) && p < |stream| && |shifted| == |before|
    requires shifted[0] == before[1] && shifted[1] == before[2] && shifted[2] == before[3]
    ensures Window(Written(shifted, 3, stream[p..p + 1]), stream, p + 1)
  {
    var w := Written(shifted, 3, stream[p..p + 1]);
    assert before[..4][1] == stream[p - 3] && before[..4][2] == stream[p - 2] && before[..4][3] == stream[p - 1];
    assert w[..4] == [w[0], w[1], w[2], w[3]];
    assert stream[p - 3..p + 1] == [stream[p - 3], stream[p - 2], stream[p - 1], stream[p]];
  }

  // ---------------------------------------------------------- the search, as a function

  /** Result code, octets taken from the stream, and answers left. */
  datatype Found = Found(code: int, taken: nat, rest: seq<Answer>)

  /** The search in what is left of the stream, `s`, with the window at `j`. */
  function Slide(answers: seq<Answer>, s: seq<Octet>, j: nat): (f: Found)
    requires j + 4 <= |s|
    ensures f.taken <= |s|
    decreases |s| - j
  {
    if SyncAt(s, j) then Found(4, j + 4, answers)
    else
      var o := Reads(answers, |s| - (j + 4), 1, 2);
      if o.result == 0 then Found(MPEG_FILE_EMPTY, j + 4 + o.taken, o.rest)
      else if o.result == -1 then Found(MPEG_FILE_ERROR, j + 4 + o.taken, o.rest)
      else if j + 1 > FLAG_MAX || o.taken == 0 then Found(MPEG_SYNC_NOT_FOUND, j + 4 + o.taken, o.rest)
      else Slide(o.rest, s, j + 1)
  }

  function Search(answers: seq<Answer>, s: seq<Octet>): (f: Found)
    ensures f.taken <= |s|
  {
    var o := Reads(answers, |s|, 4, 2);
    if o.result == 0 then Found(MPEG_FILE_EMPTY, o.taken, o.rest)
    else if o.result == -1 then Found(MPEG_FILE_ERROR, o.taken, o.rest)
    else if o.taken < 4 then Found(MPEG_BUFFER_UNDERFLOW, o.taken, o.rest)
    else Slide(o.rest, s, 0)
  }

  /** The first sync word at or after `k`, |s| if there is none. */
  function FirstSync(s: seq<Octet>, k: nat): (r: nat)
    ensures k <= r && (k <= |s| ==> r <= |s|) && NoSyncBefore(s, k, r)
    ensures r < |s| ==> SyncAt(s, r)
    decreases |s| - k
  {
    if k >= |s| || SyncAt(s, k) then k else FirstSync(s, k + 1)
  }

  // ------------------------------------------------------------- where the search ended

  /** What each result says about the stream up to the octets taken. */
  predicate Located(s: seq<Octet>, from: nat, f: Found) {
    match f.code
    case 4 => from + 4 <= f.taken <= 1204 && SyncAt(s, f.taken - 4) && NoSyncBefore(s, from, f.taken - 4)
    case -3 => f.taken == 0 || (4 <= f.taken <= 1204 && NoSyncBefore(s, from, f.taken - 3))
    case -4 => f.taken < 4 || (f.taken <= 1204 && NoSyncBefore(s, from, f.taken - 3))
    case -5 => f.taken == 1205 && NoSyncBefore(s, from, f.taken - 4)
    case -7 => 0 < f.taken < 4
    case _ => false
  }

  lemma OneOctet(answers: seq<Answer>, left: nat)
    ensures
      var o := Reads(answers, left, 1, 2);
      (o.result == -1 || o.result == 0 || o.result == 1) && (o.result <= 0 ==> o.taken == 0) && (o.result == 1 ==> o.taken == 1)
  {
    ResultCountsOctets(answers, left, 1, 2);
  }

  lemma {:induction false} SlideLocates(answers: seq<Answer>, s: seq<Octet>, j: nat, from: nat)
    requires from <= j <= 1200 && j + 4 <= |s| && NoSyncBefore(s, from, j)
    ensures Located(s, from, Slide(answers, s, j)) && Slide(answers, s, j).code != -7
    ensures Slide(answers, s, j).taken >= 4
    decreases |s| - j
  {
    hide Reads, SyncAt;
    if !SyncAt(s, j) {
      OneOctet(answers, |s| - (j + 4));
      var o := Reads(answers, |s| - (j + 4), 1, 2);
      if o.result == 1 && j < FLAG_MAX {
        SlideLocates(o.rest, s, j + 1, from);
      }
    }
  }

  lemma SearchLocates(answers: seq<Answer>, s: seq<Octet>)
    ensures Located(s, 0, Search(answers, s))
  {
    hide Reads, Slide, SyncAt;
    ResultCountsOctets(answers, |s|, 4, 2);
    var o := Reads(answers, |s|, 4, 2);
    if o.result > 0 && o.taken >= 4 {
      SlideLocates(o.rest, s, 0, 0);
    }
  }

  // ------------------------------------------------------------------ why the search ended

  /** Reads consume the list of answers from its front. */
  predicate Used(answers: seq<Answer>, rest: seq<Answer>) {
    |rest| <= |answers| && rest == answers[|answers| - |rest|..]
  }

  function LastUsed(answers: seq<Answer>, rest: seq<Answer>): Answer {
    if |rest| < |answers| then answers[|answers| - |rest| - 1] else Octets(0)
  }

  /** The last answer used was an error. */
  predicate FailedLast(answers: seq<Answer>, rest: seq<Answer>) {
    LastUsed(answers, rest) == Failure
  }

  /** The last two answers used came too early. */
  predicate TooEarly(answers: seq<Answer>, rest: seq<Answer>) {
    |rest| + 2 <= |answers| && GivesNothing(answers[|answers| - |rest| - 1]) && GivesNothing(answers[|answers| - |rest| - 2])
  }

  lemma UsedOn(a: seq<Answer>, b: seq<Answer>, c: seq<Answer>)
    requires Used(a, b) && Used(b, c)
    ensures Used(a, c) && (TooEarly(b, c) ==> TooEarly(a, c))
    ensures FailedLast(a, c) <==> FailedLast(b, c) || (c == b && FailedLast(a, b))
  {
    assert forall i | 0 <= i < |b| :: b[i] == a[|a| - |b| + i];
  }

  lemma OneUsed(answers: seq<Answer>, size: nat)
    ensures Used(answers, LaterAnswers(answers))
    ensures |LaterAnswers(answers)| == if answers == [] then 0 else |answers| - 1
    ensures FirstAnswer(answers, size) == Failure <==> FailedLast(answers, LaterAnswers(answers))
  {}

  /** The octets of the first of several tries. */
  function FirstTake(answers: seq<Answer>, left: nat, size: nat): (n: nat)
    ensures n <= left && n <= size
  {
    Min(Amount(FirstAnswer(answers, size)), Min(size, left))
  }

  lemma NoRead(answers: seq<Answer>, left: nat, size: nat, tries: nat)
    ensures size == 0 || tries == 0 ==> Reads(answers, left, size, tries) == Outcome(0, 0, answers)
    ensures Used(answers, answers) && LastUsed(answers, answers) == Octets(0)
  {}

  lemma Unfold(answers: seq<Answer>, left: nat, size: nat, tries: nat)
    requires size > 0 && tries > 0
    ensures
      var o, later := Reads(answers, left, size, tries), LaterAnswers(answers);
      if FirstAnswer(answers, size).Failure? then o == Outcome(-1, 0, later)
      else
        var n := FirstTake(answers, left, size);
        var rest := Reads(later, left - n, size - n, tries - 1);
        && o == Outcome(if rest.result == -1 then -1 else n + rest.result, n + rest.taken, rest.rest)
        && (rest.result == -1 || rest.result == rest.taken)
  {
    var n := FirstTake(answers, left, size);
    ResultCountsOctets(LaterAnswers(answers), left - n, size - n, tries - 1);
  }

  lemma {:induction false} ReadsUse(answers: seq<Answer>, left: nat, size: nat, tries: nat)
    ensures var o := Reads(answers, left, size, tries); Used(answers, o.rest) && |answers| <= |o.rest| + tries
    decreases tries
  {
    hide Reads, FirstTake, FirstAnswer, LaterAnswers, LastUsed;
    NoRead(answers, left, size, tries);
    if size > 0 && tries > 0 {
      Unfold(answers, left, size, tries);
      OneUsed(answers, size);
      var later, n := LaterAnswers(answers), FirstTake(answers, left, size);
      ReadsUse(later, left - n, size - n, tries - 1);
      UsedOn(answers, later, Reads(later, left - n, size - n, tries - 1).rest);
    }
  }

  lemma {:induction false} ReadsFail(answers: seq<Answer>, left: nat, size: nat, tries: nat)
    ensures var o := Reads(answers, left, size, tries); o.result == -1 <==> FailedLast(answers, o.rest)
    decreases tries
  {
    hide Reads, FirstTake, LastUsed, Used, FirstAnswer, LaterAnswers;
    NoRead(answers, left, size, tries);
    if size > 0 && tries > 0 {
      Unfold(answers, left, size, tries);
      OneUsed(answers, size);
      var later, n := LaterAnswers(answers), FirstTake(answers, left, size);
      ReadsFail(later, left - n, size - n, tries - 1);
      ReadsUse(later, left - n, size - n, tries - 1);
      UsedOn(answers, later, Reads(later, left - n, size - n, tries - 1).rest);
    }
  }

  lemma {:induction false} ReadsShort(answers: seq<Answer>, left: nat, size: nat, tries: nat)
    ensures
      var o := Reads(answers, left, size, tries);
      0 <= o.result < size ==> o.taken == left || |o.rest| + tries <= |answers|
    decreases tries
  {
    hide Reads, FirstTake, LastUsed, Used, FirstAnswer, LaterAnswers;
    NoRead(answers, left, size, tries);
    if size > 0 && tries > 0 {
      if answers == [] {
        PromptTry(left, size, tries);
      } else {
        Unfold(answers, left, size, tries);
        OneUsed(answers, size);
        var later, n := LaterAnswers(answers), FirstTake(answers, left, size);
        ReadsShort(later, left - n, size - n, tries - 1);
      }
    }
  }

  lemma WhyReads(answers: seq<Answer>, left: nat, size: nat, tries: nat)
    ensures
      var o := Reads(answers, left, size, tries);
      && Used(answers, o.rest) && |answers| <= |o.rest| + tries
      && (o.result == -1 <==> FailedLast(answers, o.rest))
      && (0 <= o.result < size ==> o.taken == left || |o.rest| + tries <= |answers|)
  {
    hide Reads;
    ReadsUse(answers, left, size, tries);
    ReadsFail(answers, left, size, tries);
    ReadsShort(answers, left, size, tries);
  }

  lemma WhyNothing(answers: seq<Answer>, left: nat, size: nat)
    requires size > 0
    ensures var o := Reads(answers, left, size, 2); o.result == 0 ==> left == 0 || TooEarly(answers, o.rest)
  {
    hide Reads;
    WhyReads(answers, left, size, 2);
    ResultCountsOctets(answers, left, size, 2);
    if left > 0 {
      ZeroIffTooEarly(answers, left, size, 2);
    }
  }

  /** -3: the stream is at its end, or both last tries came too early.  -4, and nothing else: the last
      answer used was a failure.  -7: the stream ended inside the first four octets, or both tries
      were short. */
  predicate Caused(answers: seq<Answer>, s: seq<Octet>, f: Found) {
    && Used(answers, f.rest)
    && (f.code == -3 ==> f.taken == |s| || TooEarly(answers, f.rest))
    && (f.code == -4 <==> FailedLast(answers, f.rest))
    && (f.code == -7 ==> f.taken == |s| || |f.rest| + 2 <= |answers|)
  }

  lemma {:induction false} SlideCauses(answers: seq<Answer>, s: seq<Octet>, j: nat)
    requires j + 4 <= |s| && j <= 1200
    ensures Caused(answers, s, Slide(answers, s, j))
    decreases |s| - j
  {
    hide Reads, SyncAt, Used, FailedLast, TooEarly;
    NothingUsed(answers);
    if !SyncAt(s, j) {
      var o := Reads(answers, |s| - (j + 4), 1, 2);
      OneOctet(answers, |s| - (j + 4));
      WhyReads(answers, |s| - (j + 4), 1, 2);
      WhyNothing(answers, |s| - (j + 4), 1);
      if o.result == 1 && j < FLAG_MAX {
        SlideLocatesLater(o.rest, s, j + 1);
        SlideCauses(o.rest, s, j + 1);
        UsedOn(answers, o.rest, Slide(o.rest, s, j + 1).rest);
      }
    }
  }

  lemma NothingUsed(answers: seq<Answer>)
    ensures Used(answers, answers) && !FailedLast(answers, answers)
  {}

  lemma SlideLocatesLater(answers: seq<Answer>, s: seq<Octet>, j: nat)
    requires j <= 1200 && j + 4 <= |s|
    ensures Slide(answers, s, j).code != -7
  {
    SlideLocates(answers, s, j, j);
  }

  lemma SearchCauses(answers: seq<Answer>, s: seq<Octet>)
    ensures Caused(answers, s, Search(answers, s))
  {
    hide Reads, Slide, Used, FailedLast, TooEarly;
    ResultCountsOctets(answers, |s|, 4, 2);
    WhyReads(answers, |s|, 4, 2);
    WhyNothing(answers, |s|, 4);
    var o := Reads(answers, |s|, 4, 2);
    if o.result > 0 && o.taken >= 4 {
      SlideLocatesLater(o.rest, s, 0);
      SlideCauses(o.rest, s, 0);
      UsedOn(answers, o.rest, Slide(o.rest, s, 0).rest);
    }
  }

  // -------------------------------------------------------------- when a header is found

  /** Two tries bring the first four octets.  Behind the end of the list every read is prompt. */
  predicate HeaderComes(answers: seq<Answer>) {
    || answers == []
    || Amount(answers[0]) >= 4
    || (!answers[0].Failure?
        && (|answers| == 1 || (answers[1].Octets? && Amount(answers[0]) + answers[1].max >= 4)))
  }

  function AfterHeader(answers: seq<Answer>): seq<Answer> {
    if answers == [] then []
    else if Amount(answers[0]) >= 4 || |answers| == 1 then answers[1..]
    else answers[2..]
  }

  /** Then `k` single octets come, each with the first try or with the second. */
  predicate OctetsCome(answers: seq<Answer>, k: nat)
    decreases k
  {
    || k == 0
    || answers == []
    || (Amount(answers[0]) >= 1 && OctetsCome(answers[1..], k - 1))
    || (GivesNothing(answers[0])
        && (|answers| == 1 || (Amount(answers[1]) >= 1 && OctetsCome(answers[2..], k - 1))))
  }

  /** The first sync word is within reach, and the answers bring the octets up to it. */
  predicate IsFound(answers: seq<Answer>, s: seq<Octet>) {
    var k := FirstSync(s, 0);
    k <= 1200 && k + 4 <= |s| && HeaderComes(answers) && OctetsCome(AfterHeader(answers), k)
  }

  lemma PromptTry(left: nat, size: nat, tries: nat)
    requires tries > 0
    ensures var o := Reads([], left, size, tries); o.result == o.taken == Min(size, left) && o.rest == []
  {
    hide Reads;
    FirstTry([], left, size, tries);
    if size > 0 {
      var n := Min(size, left);
      EndOfStream(left - n, size - n, tries - 1);
    }
  }

  lemma {:induction false} EndOfStream(left: nat, size: nat, tries: nat)
    requires left == 0 || size == 0
    ensures Reads([], left, size, tries) == Outcome(0, 0, [])
    decreases tries
  {
    if size > 0 && tries > 0 {
      EndOfStream(left, size, tries - 1);
    }
  }

  /** What the second try adds. */
  lemma SecondTry(answers: seq<Answer>, left: nat, size: nat)
    ensures
      var o := Reads(answers, left, size, 1);
      if size == 0 then o == Outcome(0, 0, answers)
      else if answers == [] then o == Outcome(Min(size, left), Min(size, left), [])
      else if answers[0].Failure? then o == Outcome(-1, 0, answers[1..])
      else o.result == o.taken == Min(Amount(answers[0]), Min(size, left)) && o.rest == answers[1..]
  {
    if answers == [] {
      PromptTry(left, size, 1);
    }
  }

  lemma HeaderRead(answers: seq<Answer>, left: nat)
    ensures
      var o := Reads(answers, left, 4, 2);
      && (o.result == 4 <==> left >= 4 && HeaderComes(answers))
      && (o.result == 4 ==> o.rest == AfterHeader(answers))
  {
    hide Reads;
    FirstTry(answers, left, 4, 2);
    if answers == [] {
      PromptTry(left, 4, 2);
    } else if !answers[0].Failure? {
      var n := Min(Amount(answers[0]), Min(4, left));
      SecondTry(answers[1..], left - n, 4 - n);
    }
  }

  lemma OctetRead(answers: seq<Answer>, left: nat, k: nat)
    requires k > 0 && left > 0
    ensures var o := Reads(answers, left, 1, 2); OctetsCome(answers, k) <==> o.result == 1 && OctetsCome(o.rest, k - 1)
  {
    hide Reads;
    FirstTry(answers, left, 1, 2);
    if answers == [] {
      PromptTry(left, 1, 2);
    } else if !answers[0].Failure? {
      var n := Min(Amount(answers[0]), 1);
      SecondTry(answers[1..], left - n, 1 - n);
    }
  }

  lemma {:induction false} SlideFindsIff(answers: seq<Answer>, s: seq<Octet>, j: nat)
    requires j <= 1200 && j + 4 <= |s|
    ensures
      var k := FirstSync(s, j);
      Slide(answers, s, j).code == 4 <==> k <= 1200 && k + 4 <= |s| && OctetsCome(answers, k - j)
    decreases |s| - j
  {
    hide Reads, SyncAt, OctetsCome;
    if SyncAt(s, j) {
      NoOctetsCome(answers);
    } else {
      var k, left := FirstSync(s, j), |s| - (j + 4);
      var o := Reads(answers, left, 1, 2);
      OneOctet(answers, left);
      if left > 0 {
        OctetRead(answers, left, k - j);
      }
      if o.result == 1 && j < FLAG_MAX {
        SlideFindsIff(o.rest, s, j + 1);
      }
    }
  }

  lemma NoOctetsCome(answers: seq<Answer>)
    ensures OctetsCome(answers, 0)
  {}

  /** For every list of answers: a header is found exactly when one is in reach and its octets come
      in time. */
  lemma SearchFindsIff(answers: seq<Answer>, s: seq<Octet>)
    ensures Search(answers, s).code == 4 <==> IsFound(answers, s)
  {
    hide Reads, Slide, HeaderComes, AfterHeader, OctetsCome, SyncAt;
    HeaderRead(answers, |s|);
    ResultCountsOctets(answers, |s|, 4, 2);
    var o := Reads(answers, |s|, 4, 2);
    if o.result > 0 && o.taken >= 4 {
      SlideFindsIff(o.rest, s, 0);
    }
  }

  // -------------------------------------------------------------- when no read is short

  lemma {:induction false} PromptComes(answers: seq<Answer>, k: nat)
    requires Prompt(answers)
    ensures OctetsCome(answers, k)
    decreases k
  {
    if k > 0 && answers != [] {
      PromptComes(answers[1..], k - 1);
    }
  }

  lemma PromptHeader(answers: seq<Answer>)
    requires Prompt(answers)
    ensures HeaderComes(answers) && Prompt(AfterHeader(answers))
  {}

  lemma PromptNeverEarly(answers: seq<Answer>, rest: seq<Answer>)
    requires Prompt(answers)
    ensures !TooEarly(answers, rest) && !FailedLast(answers, rest)
  {
    assert |rest| < |answers| ==> answers[|answers| - |rest| - 1] in answers;
  }

  /** Then the stream alone decides: a first sync word is found exactly up to position 1200. */
  lemma PromptDecided(answers: seq<Answer>, s: seq<Octet>)
    requires Prompt(answers)
    ensures
      var k := FirstSync(s, 0);
      Search(answers, s).code == if s == [] then -3
                                 else if |s| < 4 then -7
                                 else if k <= 1200 && k + 4 <= |s| then 4
                                 else if |s| > 1204 then -5
                                 else -3
  {
    hide Search, HeaderComes, AfterHeader, OctetsCome, SyncAt, Prompt, TooEarly, FailedLast, Used;
    var f := Search(answers, s);
    SearchFindsIff(answers, s);
    SearchLocates(answers, s);
    SearchCauses(answers, s);
    PromptHeader(answers);
    PromptComes(AfterHeader(answers), FirstSync(s, 0));
    PromptNeverEarly(answers, f.rest);
    PromptShort(answers, s);
  }

  lemma PromptShort(answers: seq<Answer>, s: seq<Octet>)
    requires Prompt(answers)
    ensures Search(answers, s).code == -7 <==> 0 < |s| < 4
    ensures |s| >= 4 ==> Search(answers, s).taken >= 4
  {
    hide Reads, Slide, SyncAt;
    PromptReads(answers, |s|, 4, 2);
    var o := Reads(answers, |s|, 4, 2);
    if |s| >= 4 {
      SlideLocates(o.rest, s, 0, 0);
    }
  }

  /** An empty stream gives -3, or -4 when one of the two tries fails. */
  lemma EmptyStream(answers: seq<Answer>)
    ensures Search(answers, []).taken == 0
    ensures Search(answers, []).code
      == if (exists i | 0 <= i < |answers| && i < 2 :: answers[i] == Failure) then -4 else -3
  {
    hide Reads, Slide;
    FirstTry(answers, 0, 4, 2);
    ResultCountsOctets(answers, 0, 4, 2);
    SecondTry(LaterAnswers(answers), 0, 4);
  }

  // ---------------------------------------------------------------------- the method

  /** src/mpeg.c: slides a window of four octets over the stream up to the sync word.  The word is
      shifted down one octet at a time; what gets shifted into its fourth octet depends on the
      width of a long, and is overwritten by the next octet read. */
  method ReadMpegHeader(file: File, data: array<Octet>, size: int) returns (r: int)
    requires file.Valid() && (size >= 4 ==> data.Length >= 4)
    modifies file, data
    ensures file.Valid()
    ensures size < 4 ==>
      r == -2 && file.pos == old(file.pos) && file.answers == old(file.answers) && data[..] == old(data[..])
    ensures file.pos >= old(file.pos)
    ensures size >= 4 ==>
      var s, f := file.stream[old(file.pos)..], Found(r, file.pos - old(file.pos), file.answers);
      && f == Search(old(file.answers), s)
      && Located(s, 0, f) && Caused(old(file.answers), s, f)
      && (r == 4 <==> IsFound(old(file.answers), s))
      && (r == 4 ==> Window(data[..], file.stream, file.pos))
  {
    hide Reads, Written, PassesMask, IsSync, SyncAt, FirstFour, Located, Caused, IsFound, Slide, Search;
    if size < 4 {
      return MPEG_BUFFER_OVERFLOW;
    }
    ghost var start, answers, s := file.pos, file.answers, file.stream[file.pos..];
    SearchLocates(answers, s);
    SearchCauses(answers, s);
    SearchFindsIff(answers, s);
    SearchStarts(answers, s);
    var result := ReadData(file, data, 0, 4, 2);
    if result == 0 {
      return MPEG_FILE_EMPTY;
    }
    if result == -1 {
      return MPEG_FILE_ERROR;
    }
    if result < 4 {
      return MPEG_BUFFER_UNDERFLOW;
    }
    FirstWindow(old(data[..]), file.stream, start);
    var flagmax := 0;
    while !PassesMask(data[0], data[1])
      invariant file.Valid() && file.pos == start + 4 + flagmax && 0 <= flagmax <= FLAG_MAX
      invariant Window(data[..], file.stream, file.pos)
      invariant Search(answers, s) == Slide(file.answers, s, flagmax)
      decreases FLAG_MAX - flagmax
    {
      WindowTest(data[..], file.stream, file.pos);
      SyncFrom(file.stream, start, flagmax);
      SlideGoesOn(file.answers, s, flagmax);
      ghost var before, p := data[..], file.pos;
      data[0], data[1], data[2] := data[1], data[2], data[3];
      data[3] := *;
      ghost var shifted := data[..];
      result := ReadData(file, data, 3, 1, 2);
      if result == 0 {
        return MPEG_FILE_EMPTY;
      } else if result == -1 {
        return MPEG_FILE_ERROR;
      }
      NextWindow(before, shifted, file.stream, p);
      flagmax := flagmax + 1;
      if flagmax > FLAG_MAX {
        return MPEG_SYNC_NOT_FOUND;
      }
    }
    WindowTest(data[..], file.stream, file.pos);
    SyncFrom(file.stream, start, flagmax);
    SlideGoesOn(file.answers, s, flagmax);
    r := 4;
  }

  lemma SearchStarts(answers: seq<Answer>, s: seq<Octet>)
    ensures
      var f, o := Search(answers, s), Reads(answers, |s|, 4, 2);
      && (o.result == 0 ==> f == Found(MPEG_FILE_EMPTY, o.taken, o.rest))
      && (o.result == -1 ==> f == Found(MPEG_FILE_ERROR, o.taken, o.rest))
      && (0 < o.result < 4 ==> f == Found(MPEG_BUFFER_UNDERFLOW, o.taken, o.rest))
      && (o.result >= 4 ==> |s| >= 4 && o.taken == 4 && f == Slide(o.rest, s, 0))
  {
    hide Reads, Slide;
    ResultCountsOctets(answers, |s|, 4, 2);
  }

  lemma SlideGoesOn(answers: seq<Answer>, s: seq<Octet>, j: nat)
    requires j + 4 <= |s| && j <= 1200
    ensures
      var f, o := Slide(answers, s, j), Reads(answers, |s| - (j + 4), 1, 2);
      if SyncAt(s, j) then f == Found(4, j + 4, answers)
      else
        && (o.result == 0 ==> o.taken == 0 && f == Found(MPEG_FILE_EMPTY, j + 4, o.rest))
        && (o.result == -1 ==> o.taken == 0 && f == Found(MPEG_FILE_ERROR, j + 4, o.rest))
        && (o.result != 0 && o.result != -1 ==>
             && o.result == o.taken == 1 && j + 5 <= |s|
             && f == if j + 1 > FLAG_MAX then Found(MPEG_SYNC_NOT_FOUND, j + 5, o.rest) else Slide(o.rest, s, j + 1))
  {
    hide Reads, SyncAt;
    OneOctet(answers, |s| - (j + 4));
  }

  lemma SyncFrom(stream: seq<Octet>, start: nat, k: nat)
    requires start <= |stream|
    ensures SyncAt(stream[start..], k) == SyncAt(stream, start + k)
  {
    hide IsSync;
  }
}
