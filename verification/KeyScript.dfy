/**
 The keys a program receives from a script when it has no terminal: reads that
 block, reads that poll, and frames shown on the way.
 */
module KeyScript {
  import opened Options

  datatype Step = Key(c: char) | Wait(polls: nat) | Show

  // --------------------------------------------------------------------------
  // What a script holds
  // --------------------------------------------------------------------------

  /** The polls that the script's waits last. */
  function Units(steps: seq<Step>): nat {
    if steps == [] then 0 else (if steps[0].Wait? then steps[0].polls else 0) + Units(steps[1..])
  }

  function Shows(steps: seq<Step>): nat {
    if steps == [] then 0 else (if steps[0].Show? then 1 else 0) + Shows(steps[1..])
  }

  function Keys(steps: seq<Step>): seq<char> {
    if steps == [] then [] else (if steps[0].Key? then [steps[0].c] else []) + Keys(steps[1..])
  }

  function FirstKey(steps: seq<Step>): Option<char> {
    if Keys(steps) == [] then None else Some(Keys(steps)[0])
  }

  /** The polls that the waits before the first key last. */
  function UnitsBefore(steps: seq<Step>): nat {
    if steps == [] || steps[0].Key? then 0
    else (if steps[0].Wait? then steps[0].polls else 0) + UnitsBefore(steps[1..])
  }

  // --------------------------------------------------------------------------
  // Reads
  // --------------------------------------------------------------------------

  /** A script unrolled: keys, frames to show, and polls that find no key. */
  datatype Event = Pressed(c: char) | Shown | Tick

  function Ticks(n: nat): seq<Event> {
    if n == 0 then [] else [Tick] + Ticks(n - 1)
  }

  function Timeline(steps: seq<Step>): seq<Event> {
    if steps == [] then []
    else match steps[0]
      case Key(c) => [Pressed(c)] + Timeline(steps[1..])
      case Show => [Shown] + Timeline(steps[1..])
      case Wait(n) => Ticks(n) + Timeline(steps[1..])
  }

  function SansTicks(events: seq<Event>): seq<Event> {
    if events == [] then []
    else SansTicks(events[..|events| - 1]) + (if events[|events| - 1].Tick? then [] else [events[|events| - 1]])
  }

  function Frames(n: nat): seq<Event> {
    if n == 0 then [] else Frames(n - 1) + [Shown]
  }

  const NO_KEY := '\0'

  /** What one read answered: the frames shown and the key, if there was one. */
  datatype Answer = Answer(shown: nat, key: Option<char>)

  function Observed(a: Answer): seq<Event> {
    Frames(a.shown) + (if a.key.Some? then [Pressed(a.key.value)] else [])
  }

  datatype Read = Blocking | Poll

  /**
   `segment` is what a read may take from the timeline for its answer. A poll takes
   the frames and then one key or one tick; a blocking read also passes ticks, up to
   the key. Without a key and without a tick, the script has `drained`.
   */
  predicate Takes(read: Read, a: Answer, segment: seq<Event>, drained: bool) {
    match read
    case Poll =>
      if a.key.Some? then segment == Observed(a)
      else segment == Frames(a.shown) + [Tick] || (drained && segment == Frames(a.shown))
    case Blocking =>
      && SansTicks(segment) == Observed(a)
      && (a.key.None? ==> drained)
      && (a.key.Some? ==> segment != [] && segment[|segment| - 1] == Pressed(a.key.value))
  }

  lemma Regroup(a: seq<Event>, b: seq<Event>, c: seq<Event>)
    ensures a + (b + c) == (a + b) + c
  {
  }

  lemma SansTicksSnoc(events: seq<Event>, e: Event)
    ensures SansTicks(events + [e]) == SansTicks(events) + (if e.Tick? then [] else [e])
  {
    assert (events + [e])[..|events|] == events;
  }

  lemma {:induction false} SansTicksOfTicks(events: seq<Event>, n: nat)
    ensures SansTicks(events + Ticks(n)) == SansTicks(events)
    decreases n
  {
    if n == 0 {
      assert events + [] == events;
    } else {
      Regroup(events, [Tick], Ticks(n - 1));
      SansTicksOfTicks(events + [Tick], n - 1);
      SansTicksSnoc(events, Tick);
      assert SansTicks(events) + [] == SansTicks(events);
    }
  }

  class KeyQueue {
    var steps: seq<Step>

    constructor (steps: seq<Step>)
      ensures this.steps == steps
    {
      this.steps := steps;
    }

    /** The next key, past any waits; nothing when the script has run out. */
    method NextBlocking() returns (a: Answer, ghost segment: seq<Event>)
      modifies this
      ensures segment + Timeline(steps) == Timeline(old(steps))
      ensures Takes(Blocking, a, segment, steps == [])
      ensures a.key == FirstKey(old(steps))
    {
      var shown := 0;
      segment := [];
      while steps != []
        invariant segment + Timeline(steps) == Timeline(old(steps))
        invariant SansTicks(segment) == Frames(shown) && FirstKey(steps) == FirstKey(old(steps))
        decreases |steps|
      {
        var step := steps[0];
        steps := steps[1..];
        match step
        case Key(c) =>
          Regroup(segment, [Pressed(c)], Timeline(steps));
          SansTicksSnoc(segment, Pressed(c));
          segment := segment + [Pressed(c)];
          return Answer(shown, Some(c)), segment;
        case Show =>
          Regroup(segment, [Shown], Timeline(steps));
          SansTicksSnoc(segment, Shown);
          segment := segment + [Shown];
          shown := shown + 1;
        case Wait(n) =>
          Regroup(segment, Ticks(n), Timeline(steps));
          SansTicksOfTicks(segment, n);
          segment := segment + Ticks(n);
      }
      assert Frames(shown) + [] == Frames(shown);
      return Answer(shown, None), segment;
    }

    /** The next key if no wait stands before it; else `NO_KEY`, and one poll off the wait. */
    method NextPoll() returns (c: char, a: Answer, ghost segment: seq<Event>)
      modifies this
      ensures c == if a.key.Some? then a.key.value else NO_KEY
      ensures segment + Timeline(steps) == Timeline(old(steps))
      ensures Takes(Poll, a, segment, steps == [])
      ensures a.key == if UnitsBefore(old(steps)) == 0 then FirstKey(old(steps)) else None
      ensures UnitsBefore(old(steps)) > 0 ==>
                UnitsBefore(steps) == UnitsBefore(old(steps)) - 1 && FirstKey(steps) == FirstKey(old(steps))
    {
      var shown := 0;
      while true
        invariant Frames(shown) + Timeline(steps) == Timeline(old(steps))
        invariant UnitsBefore(steps) == UnitsBefore(old(steps)) && FirstKey(steps) == FirstKey(old(steps))
        decreases |steps|
      {
        if steps == [] {
          return NO_KEY, Answer(shown, None), Frames(shown);
        }
        match steps[0]
        case Show =>
          steps := steps[1..];
          Regroup(Frames(shown), [Shown], Timeline(steps));
          shown := shown + 1;
        case Wait(n) =>
          if n == 0 {
            steps := steps[1..];
            assert Ticks(0) + Timeline(steps) == Timeline(steps);
          } else {
            ghost var rest := steps[1..];
            steps := [Wait(n - 1)] + steps[1..];
            assert steps[1..] == rest;
            Regroup([Tick], Ticks(n - 1), Timeline(rest));
            Regroup(Frames(shown), [Tick], Timeline(steps));
            return NO_KEY, Answer(shown, None), Frames(shown) + [Tick];
          }
        case Key(c) =>
          steps := steps[1..];
          Regroup(Frames(shown), [Pressed(c)], Timeline(steps));
          return c, Answer(shown, Some(c)), Observed(Answer(shown, Some(c)));
      }
    }

    /**
     Any interleaving of blocking and polling reads takes the timeline apart from the
     front, each read its own segment, and leaves the rest for later.
     */
    method Run(requests: seq<Read>) returns (answers: seq<Answer>, ghost segments: seq<seq<Event>>)
      modifies this
      ensures |answers| == |segments| == |requests|
      ensures Joined(segments) + Timeline(steps) == Timeline(old(steps))
      ensures AllTaken(requests, answers, segments, Timeline(old(steps)))
      ensures AllObserved(answers) + SansTicks(Timeline(steps)) == SansTicks(Timeline(old(steps)))
      ensures EmptyPolls(requests, answers, segments) + Passed(requests, segments) + Units(steps) == Units(old(steps))
      ensures Delivered(answers) + Keys(steps) == Keys(old(steps))
      ensures FramesShown(answers) + Shows(steps) == Shows(old(steps))
      ensures forall j :: 0 <= j < |requests| && OnlyPolls(requests[..j + 1]) && j <= UnitsBefore(old(steps)) ==>
                answers[j].key == if j < UnitsBefore(old(steps)) then None else FirstKey(old(steps))
    {
      answers, segments := [], [];
      var i := 0;
      while i < |requests|
        invariant 0 <= i <= |requests| && |answers| == |segments| == i
        invariant Joined(segments) + Timeline(steps) == Timeline(old(steps))
        invariant AllTaken(requests[..i], answers, segments, Timeline(old(steps)))
        invariant OnlyPolls(requests[..i]) && i <= UnitsBefore(old(steps)) ==>
                    UnitsBefore(steps) == UnitsBefore(old(steps)) - i && FirstKey(steps) == FirstKey(old(steps))
        invariant forall j :: 0 <= j < i && OnlyPolls(requests[..j + 1]) && j <= UnitsBefore(old(steps)) ==>
                    answers[j].key == if j < UnitsBefore(old(steps)) then None else FirstKey(old(steps))
      {
        var a, segment := Perform(requests[i]);
        Regroup(Joined(segments), segment, Timeline(steps));
        JoinedSnoc(segments, segment);
        assert Joined(segments + [segment]) + [] == Joined(segments + [segment]);
        AllTakenSnoc(requests[..i], answers, segments, Timeline(old(steps)), requests[i], a, segment, steps == []);
        assert requests[..i + 1] == requests[..i] + [requests[i]];
        OnlyPollsSnoc(requests[..i], requests[i]);
        answers := answers + [a];
        segments := segments + [segment];
        i := i + 1;
      }
      assert requests[..|requests|] == requests;
      ObservedIsScript(requests, answers, segments, Timeline(old(steps)));
      SansTicksConcat(Joined(segments), Timeline(steps));
      AllAccounted(requests, answers, segments, old(steps), steps);
    }

    method Perform(read: Read) returns (a: Answer, ghost segment: seq<Event>)
      modifies this
      ensures segment + Timeline(steps) == Timeline(old(steps))
      ensures Takes(read, a, segment, steps == [])
      ensures read.Poll? ==> a.key == if UnitsBefore(old(steps)) == 0 then FirstKey(old(steps)) else None
      ensures read.Poll? && UnitsBefore(old(steps)) > 0 ==>
                UnitsBefore(steps) == UnitsBefore(old(steps)) - 1 && FirstKey(steps) == FirstKey(old(steps))
    {
      match read
      case Blocking =>
        a, segment := NextBlocking();
      case Poll =>
        var c;
        c, a, segment := NextPoll();
    }
  }

  function Joined(segments: seq<seq<Event>>): seq<Event> {
    if segments == [] then [] else Joined(segments[..|segments| - 1]) + segments[|segments| - 1]
  }

  lemma JoinedSnoc(segments: seq<seq<Event>>, segment: seq<Event>)
    ensures Joined(segments + [segment]) == Joined(segments) + segment
  {
    assert (segments + [segment])[..|segments|] == segments;
  }

  // --------------------------------------------------------------------------
  // Keys and frames are conserved
  // --------------------------------------------------------------------------

  function AllObserved(answers: seq<Answer>): seq<Event> {
    if answers == [] then [] else AllObserved(answers[..|answers| - 1]) + Observed(answers[|answers| - 1])
  }

  lemma {:induction false} SansTicksConcat(a: seq<Event>, b: seq<Event>)
    ensures SansTicks(a + b) == SansTicks(a) + SansTicks(b)
    decreases |b|
  {
    if b == [] {
      assert a + b == a;
    } else {
      var front, last := b[..|b| - 1], b[|b| - 1];
      SansTicksConcat(a, front);
      SansTicksSnoc(a + front, last);
      assert a + b == (a + front) + [last];
    }
  }

  lemma {:induction false} FramesHaveNoTicks(n: nat)
    ensures SansTicks(Frames(n)) == Frames(n)
  {
    if n > 0 {
      FramesHaveNoTicks(n - 1);
      SansTicksSnoc(Frames(n - 1), Shown);
    }
  }

  lemma TakenIsObserved(read: Read, a: Answer, segment: seq<Event>, drained: bool)
    requires Takes(read, a, segment, drained)
    ensures SansTicks(segment) == Observed(a)
  {
    if read.Poll? {
      FramesHaveNoTicks(a.shown);
      SansTicksSnoc(Frames(a.shown), if a.key.Some? then Pressed(a.key.value) else Tick);
    }
  }

  /** Read `i` took its segment of `whole`, which had drained if nothing was left behind it. */
  predicate TakenAt(requests: seq<Read>, answers: seq<Answer>, segments: seq<seq<Event>>, whole: seq<Event>, i: nat)
    requires i < |answers| == |segments| == |requests|
  {
    Takes(requests[i], answers[i], segments[i], Joined(segments[..i + 1]) == whole)
  }

  predicate AllTaken(requests: seq<Read>, answers: seq<Answer>, segments: seq<seq<Event>>, whole: seq<Event>)
    requires |answers| == |segments| == |requests|
  {
    forall i :: 0 <= i < |requests| ==> TakenAt(requests, answers, segments, whole, i)
  }

  lemma TakesIfDrained(read: Read, a: Answer, segment: seq<Event>, drained: bool, atEnd: bool)
    requires Takes(read, a, segment, drained) && (drained ==> atEnd)
    ensures Takes(read, a, segment, atEnd)
  {
  }

  lemma AllTakenSnoc(requests: seq<Read>, answers: seq<Answer>, segments: seq<seq<Event>>, whole: seq<Event>,
                     read: Read, a: Answer, segment: seq<Event>, drained: bool)
    requires |answers| == |segments| == |requests| && AllTaken(requests, answers, segments, whole)
    requires Takes(read, a, segment, drained) && (drained ==> Joined(segments + [segment]) == whole)
    ensures AllTaken(requests + [read], answers + [a], segments + [segment], whole)
  {
    var n := |requests|;
    var asked, given, taken := requests + [read], answers + [a], segments + [segment];
    forall i | 0 <= i <= n ensures TakenAt(asked, given, taken, whole, i) {
      if i < n {
        assert TakenAt(requests, answers, segments, whole, i);
        assert taken[..i + 1] == segments[..i + 1];
      } else {
        assert taken[..i + 1] == taken;
        TakesIfDrained(read, a, segment, drained, Joined(taken) == whole);
      }
    }
  }

  lemma AllTakenFront(requests: seq<Read>, answers: seq<Answer>, segments: seq<seq<Event>>, whole: seq<Event>, n: nat)
    requires n < |answers| == |segments| == |requests| && AllTaken(requests, answers, segments, whole)
    ensures AllTaken(requests[..n], answers[..n], segments[..n], whole)
  {
    forall i | 0 <= i < n ensures TakenAt(requests[..n], answers[..n], segments[..n], whole, i) {
      assert TakenAt(requests, answers, segments, whole, i);
      assert segments[..n][..i + 1] == segments[..i + 1];
    }
  }

  /**
   However the reads are interleaved, the frames shown and keys delivered are the
   script's, once each and in order, up to what is still queued.
   */
  lemma {:induction false} ObservedIsScript(requests: seq<Read>, answers: seq<Answer>, segments: seq<seq<Event>>,
                                            whole: seq<Event>)
    requires |answers| == |segments| == |requests| && AllTaken(requests, answers, segments, whole)
    ensures AllObserved(answers) == SansTicks(Joined(segments))
    decreases |requests|
  {
    if requests != [] {
      var n := |requests| - 1;
      AllTakenFront(requests, answers, segments, whole, n);
      ObservedIsScript(requests[..n], answers[..n], segments[..n], whole);
      assert TakenAt(requests, answers, segments, whole, n);
      TakenIsObserved(requests[n], answers[n], segments[n], Joined(segments[..n + 1]) == whole);
      SansTicksConcat(Joined(segments[..n]), segments[n]);
    }
  }

  // --------------------------------------------------------------------------
  // Accounting on the script itself
  // --------------------------------------------------------------------------

  predicate OnlyPolls(requests: seq<Read>) {
    forall i :: 0 <= i < |requests| ==> requests[i].Poll?
  }

  lemma OnlyPollsSnoc(requests: seq<Read>, read: Read)
    ensures OnlyPolls(requests + [read]) <==> OnlyPolls(requests) && read.Poll?
  {
    if OnlyPolls(requests + [read]) {
      assert (requests + [read])[|requests|] == read;
      forall i | 0 <= i < |requests| ensures requests[i].Poll? {
        assert (requests + [read])[i] == requests[i];
      }
    }
  }

  function TickCount(events: seq<Event>): nat {
    if events == [] then 0 else TickCount(events[..|events| - 1]) + (if events[|events| - 1].Tick? then 1 else 0)
  }

  function ShownCount(events: seq<Event>): nat {
    if events == [] then 0 else ShownCount(events[..|events| - 1]) + (if events[|events| - 1].Shown? then 1 else 0)
  }

  function KeysIn(events: seq<Event>): seq<char> {
    if events == [] then []
    else KeysIn(events[..|events| - 1]) + (if events[|events| - 1].Pressed? then [events[|events| - 1].c] else [])
  }

  lemma CountsSnoc(events: seq<Event>, e: Event)
    ensures TickCount(events + [e]) == TickCount(events) + if e.Tick? then 1 else 0
    ensures ShownCount(events + [e]) == ShownCount(events) + if e.Shown? then 1 else 0
    ensures KeysIn(events + [e]) == KeysIn(events) + (if e.Pressed? then [e.c] else [])
  {
    assert (events + [e])[..|events|] == events;
  }

  lemma {:induction false} CountsConcat(a: seq<Event>, b: seq<Event>)
    ensures TickCount(a + b) == TickCount(a) + TickCount(b)
    ensures ShownCount(a + b) == ShownCount(a) + ShownCount(b)
    ensures KeysIn(a + b) == KeysIn(a) + KeysIn(b)
    decreases |b|
  {
    if b == [] {
      assert a + b == a && KeysIn(a) + [] == KeysIn(a);
    } else {
      var front, last := b[..|b| - 1], b[|b| - 1];
      CountsConcat(a, front);
      CountsSnoc(a + front, last);
      assert a + b == (a + front) + [last];
      JoinKeys(KeysIn(a), KeysIn(front), if last.Pressed? then [last.c] else []);
    }
  }

  lemma JoinKeys(a: seq<char>, b: seq<char>, c: seq<char>)
    ensures (a + b) + c == a + (b + c)
  {
  }

  lemma {:induction false} TicksCount(n: nat)
    ensures TickCount(Ticks(n)) == n && ShownCount(Ticks(n)) == 0 && KeysIn(Ticks(n)) == []
  {
    if n > 0 {
      TicksCount(n - 1);
      CountsConcat([Tick], Ticks(n - 1));
      CountsSnoc([], Tick);
      assert [] + [Tick] == [Tick];
    }
  }

  lemma {:induction false} FramesCount(n: nat)
    ensures TickCount(Frames(n)) == 0 && ShownCount(Frames(n)) == n && KeysIn(Frames(n)) == []
  {
    if n > 0 {
      FramesCount(n - 1);
      CountsSnoc(Frames(n - 1), Shown);
    }
  }

  /** The timeline holds the script's units of wait, its frames and its keys. */
  lemma {:induction false} TimelineCounts(steps: seq<Step>)
    ensures TickCount(Timeline(steps)) == Units(steps)
    ensures ShownCount(Timeline(steps)) == Shows(steps)
    ensures KeysIn(Timeline(steps)) == Keys(steps)
  {
    if steps != [] {
      TimelineCounts(steps[1..]);
      var first := match steps[0] case Key(c) => [Pressed(c)] case Show => [Shown] case Wait(n) => Ticks(n);
      CountsConcat(first, Timeline(steps[1..]));
      match steps[0]
      case Key(c) => CountsSnoc([], Pressed(c)); assert [] + [Pressed(c)] == first;
      case Show => CountsSnoc([], Shown); assert [] + [Shown] == first;
      case Wait(n) => TicksCount(n);
    }
  }

  /** A poll that finds no key in a script that goes on costs one unit; one that finds a key costs none. */
  lemma PollCost(a: Answer, segment: seq<Event>, drained: bool)
    requires Takes(Poll, a, segment, drained)
    ensures TickCount(segment) == if a.key.None? && segment != Frames(a.shown) then 1 else 0
  {
    FramesCount(a.shown);
    CountsSnoc(Frames(a.shown), if a.key.Some? then Pressed(a.key.value) else Tick);
    assert Frames(a.shown) + [] == Frames(a.shown);
  }

  /** Polls that found no key although the script had not run out. */
  function EmptyPolls(requests: seq<Read>, answers: seq<Answer>, segments: seq<seq<Event>>): nat
    requires |answers| == |segments| == |requests|
  {
    if requests == [] then 0
    else
      var n := |requests| - 1;
      EmptyPolls(requests[..n], answers[..n], segments[..n])
      + (if requests[n].Poll? && answers[n].key.None? && segments[n] != Frames(answers[n].shown) then 1 else 0)
  }

  /** The units of wait that blocking reads went past. */
  function Passed(requests: seq<Read>, segments: seq<seq<Event>>): nat
    requires |segments| == |requests|
  {
    if requests == [] then 0
    else
      var n := |requests| - 1;
      Passed(requests[..n], segments[..n]) + (if requests[n].Blocking? then TickCount(segments[n]) else 0)
  }

  function Delivered(answers: seq<Answer>): seq<char> {
    if answers == [] then []
    else
      var last := answers[|answers| - 1];
      Delivered(answers[..|answers| - 1]) + (if last.key.Some? then [last.key.value] else [])
  }

  function FramesShown(answers: seq<Answer>): nat {
    if answers == [] then 0 else FramesShown(answers[..|answers| - 1]) + answers[|answers| - 1].shown
  }

  lemma ObservedCounts(a: Answer)
    ensures ShownCount(Observed(a)) == a.shown && KeysIn(Observed(a)) == (if a.key.Some? then [a.key.value] else [])
  {
    FramesCount(a.shown);
    if a.key.Some? {
      CountsSnoc(Frames(a.shown), Pressed(a.key.value));
    } else {
      assert Frames(a.shown) + [] == Frames(a.shown);
    }
  }

  lemma {:induction false} SansTicksCounts(events: seq<Event>)
    ensures ShownCount(SansTicks(events)) == ShownCount(events) && KeysIn(SansTicks(events)) == KeysIn(events)
  {
    if events != [] {
      var front, last := events[..|events| - 1], events[|events| - 1];
      SansTicksCounts(front);
      if last.Tick? {
        assert SansTicks(front) + [] == SansTicks(front) && KeysIn(front) + [] == KeysIn(front);
      } else {
        CountsSnoc(SansTicks(front), last);
      }
    }
  }

  /** What the reads delivered, showed and waited for is what they took. */
  lemma {:induction false} SegmentsAccounted(requests: seq<Read>, answers: seq<Answer>, segments: seq<seq<Event>>,
                                             whole: seq<Event>)
    requires |answers| == |segments| == |requests| && AllTaken(requests, answers, segments, whole)
    ensures TickCount(Joined(segments)) == EmptyPolls(requests, answers, segments) + Passed(requests, segments)
    ensures ShownCount(Joined(segments)) == FramesShown(answers) && KeysIn(Joined(segments)) == Delivered(answers)
    decreases |requests|
  {
    if requests != [] {
      var n := |requests| - 1;
      AllTakenFront(requests, answers, segments, whole, n);
      SegmentsAccounted(requests[..n], answers[..n], segments[..n], whole);
      CountsConcat(Joined(segments[..n]), segments[n]);
      SegmentCounts(requests, answers, segments, whole, n);
    }
  }

  lemma SegmentCounts(requests: seq<Read>, answers: seq<Answer>, segments: seq<seq<Event>>, whole: seq<Event>, n: nat)
    requires n < |answers| == |segments| == |requests| && AllTaken(requests, answers, segments, whole)
    ensures ShownCount(segments[n]) == answers[n].shown
    ensures KeysIn(segments[n]) == (if answers[n].key.Some? then [answers[n].key.value] else [])
    ensures requests[n].Poll? ==>
              TickCount(segments[n]) == if answers[n].key.None? && segments[n] != Frames(answers[n].shown) then 1 else 0
  {
    assert TakenAt(requests, answers, segments, whole, n);
    var drained := Joined(segments[..n + 1]) == whole;
    TakenIsObserved(requests[n], answers[n], segments[n], drained);
    SansTicksCounts(segments[n]);
    ObservedCounts(answers[n]);
    if requests[n].Poll? {
      PollCost(answers[n], segments[n], drained);
    }
  }

  /** Over any run, keys, frames and units of wait are spent or left, and nothing else becomes of them. */
  lemma AllAccounted(requests: seq<Read>, answers: seq<Answer>, segments: seq<seq<Event>>, script: seq<Step>,
                     left: seq<Step>)
    requires |answers| == |segments| == |requests| && AllTaken(requests, answers, segments, Timeline(script))
    requires Joined(segments) + Timeline(left) == Timeline(script)
    ensures EmptyPolls(requests, answers, segments) + Passed(requests, segments) + Units(left) == Units(script)
    ensures Delivered(answers) + Keys(left) == Keys(script)
    ensures FramesShown(answers) + Shows(left) == Shows(script)
  {
    SegmentsAccounted(requests, answers, segments, Timeline(script));
    CountsConcat(Joined(segments), Timeline(left));
    TimelineCounts(left);
    TimelineCounts(script);
  }
}
