// The startup rebuild: every page sent through the worker's bounded channel,
// while the worker runs. Refused sends are ignored.
module Streaming {
  import opened SearchIndex
  import opened Indexer
  import Reindex

  // The jobs a schedule sends, and which of the sends the channel accepts.
  function Sent(schedule: seq<Event>): seq<Job> {
    if schedule == [] then []
    else (if schedule[0].Send? then [schedule[0].job] else []) + Sent(schedule[1..])
  }

  predicate HasRoom(s: State) {
    !s.stopped && !s.closed && |s.queue| < s.capacity
  }

  function StepOrSkip(s: State, e: Event): State {
    if Enabled(s, e) then Next(s, e) else s
  }

  function Flags(s: State, schedule: seq<Event>): (flags: seq<bool>)
    ensures |flags| == |Sent(schedule)|
    decreases |schedule|
  {
    if schedule == [] then []
    else
      (if schedule[0].Send? then [HasRoom(s)] else []) + Flags(StepOrSkip(s, schedule[0]), schedule[1..])
  }

  predicate All(flags: seq<bool>) {
    forall k | 0 <= k < |flags| :: flags[k]
  }

  function KeptJobs(jobs: seq<Job>, flags: seq<bool>): seq<Job>
    requires |jobs| == |flags|
  {
    if jobs == [] then []
    else (if flags[0] then [jobs[0]] else []) + KeptJobs(jobs[1..], flags[1..])
  }

  lemma KeptFirst(j: Job, b: bool, jobs: seq<Job>, flags: seq<bool>)
    requires |jobs| == |flags|
    ensures KeptJobs([j] + jobs, [b] + flags) == (if b then [j] else []) + KeptJobs(jobs, flags)
  {
    assert ([j] + jobs)[1..] == jobs && ([b] + flags)[1..] == flags;
  }

  lemma StepAccepts(s: State, e: Event)
    ensures StepOrSkip(s, e).accepted == s.accepted + if e.Send? && HasRoom(s) then [e.job] else []
  {
    hide CommitAndReset, TakeJob, Commit;
    match e
    case Send(_) =>
    case CloseChannel =>
    case Receive(ok) => TakingAcceptsNothing(s, ok);
    case Drain(ok) => TakingAcceptsNothing(s, ok);
    case EndDrain(ok) => CommittingAcceptsNothing(s.(draining := false), ok);
    case Tick(ok) => CommittingAcceptsNothing(s, ok);
    case Shutdown(ok) => CommittingAcceptsNothing(s, ok);
  }

  // The channel accepts the sends that find room, in order.
  lemma {:induction false} AcceptedAreKept(s: State, schedule: seq<Event>)
    ensures Run(s, schedule).accepted == s.accepted + KeptJobs(Sent(schedule), Flags(s, schedule))
    decreases |schedule|
  {
    hide Enabled, Next, HasRoom, KeptJobs;
    if schedule == [] {
      NothingKept();
      assert s.accepted + [] == s.accepted;
    } else {
      var e, more := schedule[0], schedule[1..];
      var t := StepOrSkip(s, e);
      StepAccepts(s, e);
      AcceptedAreKept(t, more);
      var kept := KeptJobs(Sent(more), Flags(t, more));
      assert Run(s, schedule) == Run(t, more);
      if e.Send? {
        KeptFirst(e.job, HasRoom(s), Sent(more), Flags(t, more));
        var own := if HasRoom(s) then [e.job] else [];
        assert s.accepted + own + kept == s.accepted + (own + kept);
      } else {
        assert [] + Sent(more) == Sent(more) && [] + Flags(t, more) == Flags(t, more);
        assert s.accepted + [] == s.accepted;
      }
    }
  }

  lemma NothingKept()
    ensures KeptJobs([], []) == []
  {
  }

  lemma {:induction false} KeptUpserts(docs: seq<PageDoc>, flags: seq<bool>)
    requires |docs| == |flags|
    ensures |Reindex.Upserts(docs)| == |docs|
    ensures KeptJobs(Reindex.Upserts(docs), flags) == Reindex.Upserts(Reindex.Kept(docs, flags))
  {
    if docs != [] {
      KeptUpserts(docs[1..], flags[1..]);
      assert Reindex.Upserts(docs)[1..] == Reindex.Upserts(docs[1..]);
      var kept := Reindex.Kept(docs[1..], flags[1..]);
      if flags[0] {
        assert ([docs[0]] + kept)[1..] == kept;
      } else {
        assert [] + kept == kept;
      }
    }
  }

  // The job streams of a startup rebuild: first the wipe, then every page.
  predicate Streams(schedule: seq<Event>, docs: seq<PageDoc>) {
    schedule != [] && schedule[0] == Send(Rebuild) && Sent(schedule[1..]) == Reindex.Upserts(docs)
  }

  function PageFlags(batch: nat, capacity: nat, before: seq<PageDoc>, schedule: seq<Event>): seq<bool>
    requires schedule != []
  {
    Flags(StepOrSkip(Start(batch, capacity, false, before), schedule[0]), schedule[1..])
  }

  lemma StreamAccepts(batch: nat, capacity: nat, before: seq<PageDoc>, docs: seq<PageDoc>, schedule: seq<Event>)
    requires capacity >= 1 && Streams(schedule, docs)
    ensures var flags := PageFlags(batch, capacity, before, schedule);
      |flags| == |docs| &&
      After(batch, capacity, false, before, schedule).accepted == [Rebuild] + Reindex.Upserts(Reindex.Kept(docs, flags))
  {
    hide Enabled, Next, KeptJobs, Run;
    var s0 := Start(batch, capacity, false, before);
    var flags := PageFlags(batch, capacity, before, schedule);
    var more := schedule[1..];
    UpsertsCount(docs);
    KeptUpserts(docs, flags);
    AcceptedAreKept(s0, schedule);
    assert Sent(schedule) == [Rebuild] + Sent(more);
    assert Flags(s0, schedule) == [true] + flags;
    KeptFirst(Rebuild, true, Sent(more), flags);
    var jobs := [Rebuild] + Reindex.Upserts(Reindex.Kept(docs, flags));
    assert [] + jobs == jobs;
  }

  lemma {:induction false} UpsertsCount(docs: seq<PageDoc>)
    ensures |Reindex.Upserts(docs)| == |docs|
  {
    if docs != [] {
      UpsertsCount(docs[1..]);
    }
  }

  // Under every schedule in which commits succeed: after the shutdown the index
  // holds exactly the pages whose send was accepted, in order, and it is the
  // index of a full rebuild exactly when no send was refused.
  lemma StreamedIndexIsTheAcceptedPages(batch: nat, capacity: nat, before: seq<PageDoc>, docs: seq<PageDoc>,
                                        schedule: seq<Event>)
    requires batch >= 1 && capacity >= 1 && DistinctIds(docs) && Streams(schedule, docs)
    requires forall e | e in schedule :: Succeeds(e)
    ensures var s := After(batch, capacity, false, before, schedule);
      var flags := PageFlags(batch, capacity, before, schedule);
      |flags| == |docs| &&
      (s.stopped ==>
        && s.committed == Reindex.Kept(docs, flags)
        && (s.committed == Replay(before, [Rebuild] + Reindex.Upserts(docs)) <==> All(flags)))
  {
    hide Run, Replay, Flags, Reindex.Upserts, Reindex.Kept;
    StreamAccepts(batch, capacity, before, docs, schedule);
    CleanShutdownIsComplete(batch, capacity, before, schedule);
    var flags := PageFlags(batch, capacity, before, schedule);
    Reindex.StreamIsCompleteIffNothingWasDropped(before, docs, flags);
  }

  // ---- With other senders on the same channel

  // An accepted send touches this page.
  predicate AcceptedTouch(jobs: seq<Job>, flags: seq<bool>, from: nat, id: PageId)
    requires |jobs| == |flags|
  {
    exists j | from <= j < |jobs| :: flags[j] && Touches(jobs[j], id)
  }

  // The send at `k` wrote `d`, and no accepted send behind it touches the page.
  predicate LastAccepted(jobs: seq<Job>, flags: seq<bool>, k: nat, d: PageDoc)
    requires |jobs| == |flags|
  {
    k < |jobs| && flags[k] && jobs[k] == Upsert(d) && !AcceptedTouch(jobs, flags, k + 1, d.id)
  }

  lemma TouchLater(jobs: seq<Job>, flags: seq<bool>, from: nat, id: PageId)
    requires |jobs| == |flags| && jobs != []
    ensures AcceptedTouch(jobs, flags, from + 1, id) <==> AcceptedTouch(jobs[1..], flags[1..], from, id)
  {
    if j :| from + 1 <= j < |jobs| && flags[j] && Touches(jobs[j], id) {
      assert flags[1..][j - 1] && Touches(jobs[1..][j - 1], id);
    }
    if j :| from <= j < |jobs| - 1 && flags[1..][j] && Touches(jobs[1..][j], id) {
      assert flags[j + 1] && Touches(jobs[j + 1], id);
    }
  }

  lemma TouchFirst(jobs: seq<Job>, flags: seq<bool>, id: PageId)
    requires |jobs| == |flags| && jobs != []
    ensures AcceptedTouch(jobs, flags, 0, id) <==> (flags[0] && Touches(jobs[0], id)) || AcceptedTouch(jobs, flags, 1, id)
  {
  }

  lemma {:induction false} KeptTouch(jobs: seq<Job>, flags: seq<bool>, id: PageId)
    requires |jobs| == |flags|
    ensures Touched(KeptJobs(jobs, flags), id) <==> AcceptedTouch(jobs, flags, 0, id)
  {
    hide Touched, AcceptedTouch, Touches;
    if jobs == [] {
      NoTouch(id);
    } else {
      KeptTouch(jobs[1..], flags[1..], id);
      TouchFirst(jobs, flags, id);
      TouchLater(jobs, flags, 0, id);
      var rest := KeptJobs(jobs[1..], flags[1..]);
      if flags[0] {
        TouchedFirst([jobs[0]] + rest, id);
        assert ([jobs[0]] + rest)[1..] == rest;
      } else {
        assert [] + rest == rest;
      }
    }
  }

  lemma NoTouch(id: PageId)
    ensures !Touched(KeptJobs([], []), id) && !AcceptedTouch([], [], 0, id)
  {
  }

  lemma LastLater(jobs: seq<Job>, flags: seq<bool>, k: nat, d: PageDoc)
    requires |jobs| == |flags| && jobs != []
    ensures LastAccepted(jobs, flags, k + 1, d) <==> LastAccepted(jobs[1..], flags[1..], k, d)
  {
    hide AcceptedTouch;
    TouchLater(jobs, flags, k + 1, d.id);
  }

  predicate SomeLast(jobs: seq<Job>, flags: seq<bool>, d: PageDoc)
    requires |jobs| == |flags|
  {
    exists k :: 0 <= k < |jobs| && LastAccepted(jobs, flags, k, d)
  }

  lemma SomeLastFirst(jobs: seq<Job>, flags: seq<bool>, d: PageDoc)
    requires |jobs| == |flags| && jobs != []
    ensures SomeLast(jobs, flags, d) <==> LastAccepted(jobs, flags, 0, d) || SomeLast(jobs[1..], flags[1..], d)
  {
    hide LastAccepted;
    if k :| 0 <= k < |jobs| && LastAccepted(jobs, flags, k, d) {
      if k > 0 {
        LastLater(jobs, flags, k - 1, d);
      }
    }
    if k :| 0 <= k < |jobs| - 1 && LastAccepted(jobs[1..], flags[1..], k, d) {
      LastLater(jobs, flags, k, d);
      assert LastAccepted(jobs, flags, k + 1, d);
    }
  }

  lemma {:induction false} KeptSurvivors(jobs: seq<Job>, flags: seq<bool>, d: PageDoc)
    requires |jobs| == |flags|
    ensures d in Survivors(KeptJobs(jobs, flags)) <==> SomeLast(jobs, flags, d)
  {
    if jobs != [] {
      KeptSurvivors(jobs[1..], flags[1..], d);
      SomeLastFirst(jobs, flags, d);
      var rest := KeptJobs(jobs[1..], flags[1..]);
      KeptTouch(jobs[1..], flags[1..], d.id);
      TouchLater(jobs, flags, 0, d.id);
      hide Touched, AcceptedTouch, SomeLast;
      if flags[0] {
        assert ([jobs[0]] + rest)[1..] == rest;
      } else {
        assert [] + rest == rest;
      }
    }
  }

  lemma {:induction false} UntouchedMembers(docs: seq<PageDoc>, jobs: seq<Job>, d: PageDoc)
    ensures d in Untouched(docs, jobs) <==> d in docs && !Touched(jobs, d.id)
  {
    hide Touched;
    if docs != [] {
      UntouchedMembers(docs[1..], jobs, d);
    }
  }

  // Whoever sends, and in whatever order, a startup rebuild among them: after the
  // shutdown the index holds the documents it held before that no accepted send
  // touches, and those of the accepted upserts that no accepted send behind them
  // touches, and no others.
  lemma SharedChannelKeepsLastAccepted(batch: nat, capacity: nat, before: seq<PageDoc>, schedule: seq<Event>, d: PageDoc)
    requires batch >= 1 && forall e | e in schedule :: Succeeds(e)
    ensures var s := After(batch, capacity, false, before, schedule);
      var jobs, flags := Sent(schedule), Flags(Start(batch, capacity, false, before), schedule);
      s.stopped ==>
        (d in s.committed <==> (d in before && !AcceptedTouch(jobs, flags, 0, d.id)) || SomeLast(jobs, flags, d))
  {
    hide Run, Replay, Flags, Sent, KeptJobs, AcceptedTouch, SomeLast, Untouched, Survivors, Touched;
    var s0 := Start(batch, capacity, false, before);
    var jobs, flags := Sent(schedule), Flags(s0, schedule);
    var kept := KeptJobs(jobs, flags);
    CleanShutdownIsComplete(batch, capacity, before, schedule);
    AcceptedAreKept(s0, schedule);
    assert [] + kept == kept;
    ReplayIsLastWriterWins(before, kept);
    UntouchedMembers(before, kept, d);
    KeptTouch(jobs, flags, d.id);
    KeptSurvivors(jobs, flags, d);
  }

  // ---- When no send can be refused

  lemma StepKeepsRoom(s: State, e: Event)
    requires !s.closed && !s.stopped && !e.CloseChannel?
    ensures var t := StepOrSkip(s, e);
      !t.closed && !t.stopped && t.capacity == s.capacity && |t.queue| <= |s.queue| + if e.Send? then 1 else 0
  {
    hide CommitAndReset, TakeJob, Commit;
    match e
    case Send(_) =>
    case Receive(ok) => TakingAcceptsNothing(s, ok);
    case Drain(ok) => TakingAcceptsNothing(s, ok);
    case EndDrain(ok) => CommittingAcceptsNothing(s.(draining := false), ok);
    case Tick(ok) => CommittingAcceptsNothing(s, ok);
    case Shutdown(ok) =>
  }

  lemma {:induction false} RoomForAll(s: State, schedule: seq<Event>)
    requires !s.closed && !s.stopped && CloseChannel !in schedule && |s.queue| + |Sent(schedule)| <= s.capacity
    ensures All(Flags(s, schedule))
    decreases |schedule|
  {
    hide Enabled, Next;
    if schedule != [] {
      var e, more := schedule[0], schedule[1..];
      assert e in schedule && forall x | x in more :: x in schedule;
      StepKeepsRoom(s, e);
      RoomForAll(StepOrSkip(s, e), more);
      AllFirst(HasRoom(s), Flags(StepOrSkip(s, e), more));
      assert [] + Flags(StepOrSkip(s, e), more) == Flags(StepOrSkip(s, e), more);
    }
  }

  lemma AllFirst(b: bool, flags: seq<bool>)
    ensures All([b] + flags) <==> b && All(flags)
  {
    assert ([b] + flags)[0] == b;
    forall k | 0 <= k < |flags| ensures ([b] + flags)[k + 1] == flags[k] {
    }
  }

  function Sends(jobs: seq<Job>): seq<Event> {
    if jobs == [] then [] else [Send(jobs[0])] + Sends(jobs[1..])
  }

  lemma {:induction false} SendsSend(jobs: seq<Job>)
    ensures Sent(Sends(jobs)) == jobs && CloseChannel !in Sends(jobs)
  {
    if jobs != [] {
      SendsSend(jobs[1..]);
      assert Sends(jobs)[1..] == Sends(jobs[1..]);
    }
  }

  // Sends in a row, before the worker runs, fill the channel.
  lemma {:induction false} ChannelOverflows(s: State, jobs: seq<Job>)
    requires !s.closed && !s.stopped && |s.queue| + |jobs| > s.capacity >= |s.queue|
    ensures !All(Flags(s, Sends(jobs)))
    decreases |jobs|
  {
    SendsSend(jobs);
    var t := StepOrSkip(s, Send(jobs[0]));
    assert Sends(jobs)[1..] == Sends(jobs[1..]);
    SendFills(s, jobs[0]);
    if |s.queue| < s.capacity {
      ChannelOverflows(t, jobs[1..]);
    }
    AllFirst(HasRoom(s), Flags(t, Sends(jobs[1..])));
  }

  lemma SendFills(s: State, job: Job)
    requires !s.closed && !s.stopped
    ensures var t := StepOrSkip(s, Send(job));
      && !t.closed && !t.stopped && t.capacity == s.capacity
      && |t.queue| == |s.queue| + if |s.queue| < s.capacity then 1 else 0
  {
  }

  // For every page list: no schedule makes the channel refuse a page exactly
  // when the channel holds them all and the wipe besides.
  lemma NothingIsDroppedIffTheyAllFit(batch: nat, capacity: nat, before: seq<PageDoc>, docs: seq<PageDoc>)
    requires capacity >= 1
    ensures (forall schedule | Streams(schedule, docs) && CloseChannel !in schedule ::
               All(PageFlags(batch, capacity, before, schedule)))
       <==> |docs| + 1 <= capacity
  {
    hide Next, Enabled, Flags;
    UpsertsCount(docs);
    var s1 := StepOrSkip(Start(batch, capacity, false, before), Send(Rebuild));
    WipeIsQueued(batch, capacity, before);
    if |docs| + 1 <= capacity {
      forall schedule | Streams(schedule, docs) && CloseChannel !in schedule
        ensures All(PageFlags(batch, capacity, before, schedule))
      {
        RoomForAll(s1, schedule[1..]);
      }
    } else {
      var sends := Sends(Reindex.Upserts(docs));
      SendsSend(Reindex.Upserts(docs));
      var schedule := [Send(Rebuild)] + sends;
      assert schedule[1..] == sends;
      ChannelOverflows(s1, Reindex.Upserts(docs));
      assert Streams(schedule, docs) && CloseChannel !in schedule;
      assert !All(PageFlags(batch, capacity, before, schedule));
    }
  }

  lemma WipeIsQueued(batch: nat, capacity: nat, before: seq<PageDoc>)
    requires capacity >= 1
    ensures var s1 := StepOrSkip(Start(batch, capacity, false, before), Send(Rebuild));
      !s1.closed && !s1.stopped && |s1.queue| == 1 && s1.capacity == capacity
  {
  }
}
