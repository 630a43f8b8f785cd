// The indexer worker: a bounded channel, a batching loop and a commit timer over
// one index writer, as a state machine over its steps.
module Indexer {
  import opened SearchIndex

  // `draining` is the worker's position: inside the batch of one wake-up, or
  // waiting for the channel or the timer. `retryFailed` selects the worker the
  // documentation describes, which retries a failed commit on the next tick; the
  // code is `retryFailed == false`, and zeroes the counter either way.
  //
  // The last four fields record the history and influence nothing: the jobs the
  // channel accepted, the jobs applied so far, how many of those the last
  // successful commit covers, and the log of jobs and commits.
  datatype State = State(
    batch: nat, capacity: nat, retryFailed: bool,
    queue: seq<Job>, closed: bool, stopped: bool, draining: bool,
    working: seq<PageDoc>, committed: seq<PageDoc>, pending: nat,
    accepted: seq<Job>, applied: seq<Job>, durable: nat, log: seq<Entry>)

  // A job was applied; a rebuild's own commit, or the loop's, was attempted.
  datatype Entry = Applied(job: Job) | Wiped(ok: bool) | Committed(ok: bool)

  datatype Event =
    | Send(job: Job)
    | Receive(wipeOk: bool)
    | Drain(wipeOk: bool)
    | EndDrain(commitOk: bool)
    | Tick(commitOk: bool)
    | CloseChannel
    | Shutdown(commitOk: bool)

  predicate Enabled(s: State, e: Event) {
    !s.stopped &&
    match e
    case Send(_) => !s.closed
    case Receive(_) => !s.draining && s.queue != []
    case Drain(_) => s.draining && s.pending < s.batch && s.queue != []
    case EndDrain(_) => s.draining && (s.pending >= s.batch || s.queue == [])
    case Tick(_) => !s.draining
    case CloseChannel => !s.closed
    case Shutdown(_) => !s.draining && s.closed && s.queue == []
  }

  // `try_send`: a full channel drops the job.
  function Enqueue(s: State, job: Job): State {
    if |s.queue| < s.capacity then s.(queue := s.queue + [job], accepted := s.accepted + [job]) else s
  }

  // `apply_job`: a rebuild commits its wipe on the spot.
  function ApplyJob(s: State, job: Job, wipeOk: bool): State {
    var t := s.(working := Apply(s.working, job), applied := s.applied + [job], log := s.log + [Applied(job)]);
    if !job.Rebuild? then t else Save(t, wipeOk, Wiped(wipeOk))
  }

  function Save(s: State, ok: bool, entry: Entry): State {
    var t := s.(log := s.log + [entry]);
    if ok then t.(committed := t.working, durable := |t.applied|) else t
  }

  function Commit(s: State, ok: bool): State {
    Save(s, ok, Committed(ok))
  }

  function TakeJob(s: State, wipeOk: bool): State
    requires s.queue != []
  {
    var t := ApplyJob(s.(queue := s.queue[1..]), s.queue[0], wipeOk);
    t.(pending := t.pending + 1, draining := true)
  }

  function CommitAndReset(s: State, ok: bool): State {
    var t := Commit(s, ok);
    if ok || !s.retryFailed then t.(pending := 0) else t
  }

  function Next(s: State, e: Event): State
    requires Enabled(s, e)
  {
    match e
    case Send(job) => Enqueue(s, job)
    case Receive(wipeOk) => TakeJob(s, wipeOk)
    case Drain(wipeOk) => TakeJob(s, wipeOk)
    case EndDrain(ok) =>
      var t := s.(draining := false);
      if s.pending >= s.batch then CommitAndReset(t, ok) else t
    case Tick(ok) => if s.pending > 0 then CommitAndReset(s, ok) else s
    case CloseChannel => s.(closed := true)
    case Shutdown(ok) =>
      var t := if s.pending > 0 then Commit(s, ok) else s;
      t.(stopped := true)
  }

  // The state after a schedule; steps that are not possible are skipped.
  function Run(s: State, schedule: seq<Event>): State
    decreases |schedule|
  {
    if schedule == [] then s
    else Run(if Enabled(s, schedule[0]) then Next(s, schedule[0]) else s, schedule[1..])
  }

  function Start(batch: nat, capacity: nat, retryFailed: bool, docs: seq<PageDoc>): State {
    State(batch, capacity, retryFailed, [], false, false, false, docs, docs, 0, [], [], 0, [])
  }

  // ---- The worker itself

  class Worker {
    const batch: nat
    const capacity: nat
    var queue: seq<Job>
    var closed: bool
    var stopped: bool
    var draining: bool
    var working: seq<PageDoc>
    var committed: seq<PageDoc>
    var pending: nat
    ghost var accepted: seq<Job>
    ghost var applied: seq<Job>
    ghost var durable: nat
    ghost var log: seq<Entry>

    ghost function View(): State
      reads this
    {
      State(batch, capacity, false, queue, closed, stopped, draining, working, committed, pending,
            accepted, applied, durable, log)
    }

    constructor (batch: nat, capacity: nat, docs: seq<PageDoc>)
      requires batch >= 1
      ensures View() == Start(batch, capacity, false, docs)
    {
      this.batch, this.capacity := batch, capacity;
      queue, closed, stopped, draining := [], false, false, false;
      working, committed, pending := docs, docs, 0;
      accepted, applied, durable, log := [], [], 0, [];
    }

    // The channel refuses a job when it is full or closed.
    method TrySend(job: Job) returns (ok: bool)
      modifies this
      ensures View() == if Enabled(old(View()), Send(job)) then Next(old(View()), Send(job)) else old(View())
      ensures ok <==> !old(closed) && !old(stopped) && old(|queue|) < capacity
      ensures ok <==> accepted == old(accepted) + [job]
    {
      ok := !closed && !stopped && |queue| < capacity;
      if ok {
        queue := queue + [job];
        accepted := accepted + [job];
      }
    }

    method ApplyOne(job: Job, wipeOk: bool)
      modifies this
      ensures View() == ApplyJob(old(View()), job, wipeOk)
      ensures job.Rebuild? ==> working == [] && (wipeOk ==> committed == [] && durable == |applied|)
      ensures !(job.Rebuild? && wipeOk) ==> committed == old(committed) && durable == old(durable)
    {
      match job {
        case Upsert(doc) => working := UpsertOn(working, doc);
        case Delete(id) => working := DeleteOn(working, id);
        case Rebuild => working := [];
      }
      applied := applied + [job];
      log := log + [Applied(job)];
      if job.Rebuild? {
        SaveWriter(wipeOk, Wiped(wipeOk));
      }
    }

    method SaveWriter(ok: bool, ghost entry: Entry)
      modifies this
      ensures View() == Save(old(View()), ok, entry)
    {
      log := log + [entry];
      if ok {
        committed := working;
        durable := |applied|;
      }
    }

    method CommitWriter(ok: bool)
      modifies this
      ensures View() == Commit(old(View()), ok)
      ensures committed == (if ok then working else old(committed)) && working == old(working)
    {
      SaveWriter(ok, Committed(ok));
    }

    method ReceiveOne(wipeOk: bool)
      requires queue != []
      modifies this
      ensures View() == TakeJob(old(View()), wipeOk)
    {
      var job := queue[0];
      queue := queue[1..];
      ApplyOne(job, wipeOk);
      pending := pending + 1;
      draining := true;
    }

    method FinishDrain(commitOk: bool)
      requires Enabled(View(), EndDrain(commitOk))
      modifies this
      ensures View() == Next(old(View()), EndDrain(commitOk))
    {
      draining := false;
      if pending >= batch {
        CommitWriter(commitOk);
        pending := 0;
      }
    }

    method OnTick(commitOk: bool)
      requires Enabled(View(), Tick(commitOk))
      modifies this
      ensures View() == Next(old(View()), Tick(commitOk))
    {
      if pending > 0 {
        CommitWriter(commitOk);
        pending := 0;
      }
    }

    method OnClosed(commitOk: bool)
      requires Enabled(View(), Shutdown(commitOk))
      modifies this
      ensures View() == Next(old(View()), Shutdown(commitOk))
    {
      if pending > 0 {
        CommitWriter(commitOk);
      }
      stopped := true;
    }

    // The worker among its senders and its timer, under any schedule.
    method RunWorker(schedule: seq<Event>)
      modifies this
      ensures View() == Run(old(View()), schedule)
    {
      var k := 0;
      assert schedule[0..] == schedule;
      while k < |schedule|
        invariant 0 <= k <= |schedule| && Run(View(), schedule[k..]) == Run(old(View()), schedule)
      {
        var e := schedule[k];
        assert schedule[k..][0] == e && schedule[k..][1..] == schedule[k + 1..];
        ghost var here := View();
        match e {
          case Send(job) =>
            var ok := TrySend(job);
          case Receive(wipeOk) =>
            if !stopped && !draining && queue != [] {
              ReceiveOne(wipeOk);
            }
          case Drain(wipeOk) =>
            if !stopped && draining && pending < batch && queue != [] {
              ReceiveOne(wipeOk);
            }
          case EndDrain(ok) =>
            if !stopped && draining && (pending >= batch || queue == []) {
              FinishDrain(ok);
            }
          case Tick(ok) =>
            if !stopped && !draining {
              OnTick(ok);
            }
          case CloseChannel =>
            if !stopped && !closed {
              closed := true;
            }
          case Shutdown(ok) =>
            if !stopped && !draining && closed && queue == [] {
              OnClosed(ok);
            }
        }
        assert View() == if Enabled(here, e) then Next(here, e) else here;
        k := k + 1;
      }
      assert schedule[k..] == [];
    }
  }

  // What the HTTP handlers hold: the sending end, or nothing when search is off.
  class IndexerHandle {
    const sender: Worker?

    constructor (sender: Worker?)
      ensures this.sender == sender
    {
      this.sender := sender;
    }

    method TrySend(job: Job) returns (ok: bool)
      modifies if sender == null then {} else {sender}
      ensures ok <==> sender != null && !old(sender.closed) && !old(sender.stopped)
                      && old(|sender.queue|) < sender.capacity
      ensures sender != null ==>
                sender.View() == var s := old(sender.View()); if Enabled(s, Send(job)) then Next(s, Send(job)) else s
    {
      if sender == null {
        return false;
      }
      ok := sender.TrySend(job);
    }
  }

  // ---- What every schedule keeps

  // The channel is a queue; the writer holds the replay of the applied jobs; the
  // committed index is the replay of a prefix of them; the counter stays below
  // the batch size at the head of the loop.
  predicate Inv(s: State, docs: seq<PageDoc>) {
    Replays(s, docs) && Counts(s) && Outstanding(s)
  }

  predicate Replays(s: State, docs: seq<PageDoc>) {
    && s.accepted == s.applied + s.queue && |s.queue| <= s.capacity
    && s.durable <= |s.applied|
    && s.working == Replay(docs, s.applied)
    && s.committed == Replay(docs, s.applied[..s.durable])
  }

  predicate Counts(s: State) {
    && (s.retryFailed || s.pending < s.batch || (s.draining && s.pending == s.batch))
    && (s.draining ==> s.pending >= 1)
    && (s.stopped ==> s.closed && s.queue == [] && !s.draining)
  }

  // Scanning the log back: a job was applied since the last commit that succeeded.
  predicate Unsaved(log: seq<Entry>) {
    log != [] &&
    var front, last := log[..|log| - 1], log[|log| - 1];
    match last
    case Applied(_) => true
    case Wiped(ok) => !ok && Unsaved(front)
    case Committed(ok) => !ok && Unsaved(front)
  }

  // The last thing in the log is an attempt of the loop to commit, or nothing is.
  predicate AtCommit(log: seq<Entry>) {
    log == [] || log[|log| - 1].Committed?
  }

  predicate LastCommitFailed(log: seq<Entry>) {
    log != [] && log[|log| - 1] == Committed(false)
  }

  function JobsOf(log: seq<Entry>): seq<Job> {
    if log == [] then []
    else JobsOf(log[..|log| - 1]) + if log[|log| - 1].Applied? then [log[|log| - 1].job] else []
  }

  // The log names the applied jobs; with the counter it says what is uncommitted.
  predicate Outstanding(s: State) {
    && JobsOf(s.log) == s.applied
    && (s.durable < |s.applied| <==> Unsaved(s.log))
    && (!s.stopped && !s.retryFailed ==> (s.pending == 0 <==> AtCommit(s.log)))
    && (s.pending == 0 && s.retryFailed ==> !Unsaved(s.log))
  }

  lemma LogOneMore(log: seq<Entry>, e: Entry)
    ensures Unsaved(log + [e]) <==> e.Applied? || (!e.ok && Unsaved(log))
    ensures AtCommit(log + [e]) <==> e.Committed?
    ensures JobsOf(log + [e]) == if e.Applied? then JobsOf(log) + [e.job] else JobsOf(log)
    ensures LastCommitFailed(log + [e]) <==> e == Committed(false)
  {
    assert (log + [e])[..|log|] == log;
  }

  lemma AppliedOneMore(docs: seq<PageDoc>, jobs: seq<Job>, job: Job)
    ensures Replay(docs, jobs + [job]) == Apply(Replay(docs, jobs), job)
  {
    ReplayAppend(docs, jobs, [job]);
    assert [job][1..] == [];
  }

  lemma SaveKeeps(s: State, ok: bool, entry: Entry, docs: seq<PageDoc>)
    requires Replays(s, docs)
    ensures Replays(Save(s, ok, entry), docs)
  {
    assert s.applied[..|s.applied|] == s.applied;
  }

  lemma CommitKeeps(s: State, ok: bool, docs: seq<PageDoc>)
    requires Replays(s, docs)
    ensures Replays(Commit(s, ok), docs)
  {
    SaveKeeps(s, ok, Committed(ok), docs);
  }

  lemma ApplyKeeps(s: State, docs: seq<PageDoc>, wipeOk: bool)
    requires Replays(s, docs) && s.queue != []
    ensures Replays(ApplyJob(s.(queue := s.queue[1..]), s.queue[0], wipeOk), docs)
  {
    hide Replay, Apply;
    var job := s.queue[0];
    AppliedOneMore(docs, s.applied, job);
    var applied := s.applied + [job];
    assert applied[..s.durable] == s.applied[..s.durable];
    assert applied + s.queue[1..] == s.applied + s.queue;
    var t := s.(queue := s.queue[1..], working := Apply(s.working, job), applied := applied, log := s.log + [Applied(job)]);
    SaveKeeps(t, wipeOk, Wiped(wipeOk), docs);
  }

  lemma EnqueueKeeps(s: State, job: Job, docs: seq<PageDoc>)
    requires Replays(s, docs)
    ensures Replays(Enqueue(s, job), docs)
  {
  }

  lemma TakeKeeps(s: State, docs: seq<PageDoc>, wipeOk: bool)
    requires Inv(s, docs) && s.queue != [] && !s.stopped && (s.pending < s.batch || s.retryFailed)
    ensures Inv(TakeJob(s, wipeOk), docs)
  {
    TakeReplays(s, docs, wipeOk);
    TakeLogs(s, wipeOk);
    hide Replays, TakeJob, Unsaved, AtCommit, JobsOf;
  }

  lemma TakeReplays(s: State, docs: seq<PageDoc>, wipeOk: bool)
    requires Replays(s, docs) && s.queue != []
    ensures Replays(TakeJob(s, wipeOk), docs)
  {
    hide Replay, Apply, ApplyJob;
    ApplyKeeps(s, docs, wipeOk);
  }

  lemma TakeLogs(s: State, wipeOk: bool)
    requires s.queue != [] && s.durable <= |s.applied| && JobsOf(s.log) == s.applied
    ensures var t := TakeJob(s, wipeOk);
      && t == s.(queue := s.queue[1..], working := t.working, committed := t.committed, applied := t.applied,
                 durable := t.durable, log := t.log, pending := s.pending + 1, draining := true)
      && (t.durable < |t.applied| <==> Unsaved(t.log)) && !AtCommit(t.log) && JobsOf(t.log) == t.applied
  {
    hide Apply, Unsaved, AtCommit, JobsOf, LastCommitFailed;
    var job := s.queue[0];
    LogOneMore(s.log, Applied(job));
    LogOneMore(s.log + [Applied(job)], Wiped(wipeOk));
  }

  lemma StepKeepsInv(s: State, e: Event, docs: seq<PageDoc>)
    requires Inv(s, docs) && s.batch >= 1 && Enabled(s, e)
    ensures Inv(Next(s, e), docs)
  {
    hide Replay, Apply, TakeJob, Enqueue, Commit, Unsaved, AtCommit, JobsOf;
    match e
    case Send(job) =>
      EnqueueKeeps(s, job, docs);
      EnqueueOnly(s, job);
    case Receive(wipeOk) => TakeKeeps(s, docs, wipeOk);
    case Drain(wipeOk) => TakeKeeps(s, docs, wipeOk);
    case EndDrain(ok) =>
      CommitKeeps(s.(draining := false), ok, docs);
      CommitOnly(s.(draining := false), ok);
    case Tick(ok) =>
      CommitKeeps(s, ok, docs);
      CommitOnly(s, ok);
    case CloseChannel =>
    case Shutdown(ok) =>
      CommitKeeps(s, ok, docs);
      CommitOnly(s, ok);
  }

  lemma EnqueueOnly(s: State, job: Job)
    ensures var t := Enqueue(s, job); t == s.(queue := t.queue, accepted := t.accepted)
  {
  }

  lemma CommitOnly(s: State, ok: bool)
    requires Outstanding(s) && s.durable <= |s.applied|
    ensures var t := Commit(s, ok);
      && t == s.(committed := t.committed, durable := t.durable, log := s.log + [Committed(ok)])
      && (ok ==> t.durable == |s.applied|) && (!ok ==> t.durable == s.durable)
      && (t.durable < |t.applied| <==> Unsaved(t.log)) && AtCommit(t.log) && JobsOf(t.log) == t.applied
      && (Unsaved(t.log) ==> LastCommitFailed(t.log))
  {
    LogOneMore(s.log, Committed(ok));
  }

  lemma {:induction false} RunKeepsInv(s: State, schedule: seq<Event>, docs: seq<PageDoc>)
    requires Inv(s, docs) && s.batch >= 1
    ensures Inv(Run(s, schedule), docs)
    ensures var t := Run(s, schedule); t.batch == s.batch && t.capacity == s.capacity && t.retryFailed == s.retryFailed
    decreases |schedule|
  {
    hide Inv, Next, Enabled;
    if schedule != [] {
      if Enabled(s, schedule[0]) {
        StepKeepsInv(s, schedule[0], docs);
        StepKeepsSettings(s, schedule[0]);
        RunKeepsInv(Next(s, schedule[0]), schedule[1..], docs);
      } else {
        RunKeepsInv(s, schedule[1..], docs);
      }
    }
  }

  lemma StepKeepsSettings(s: State, e: Event)
    requires Enabled(s, e)
    ensures var t := Next(s, e); t.batch == s.batch && t.capacity == s.capacity && t.retryFailed == s.retryFailed
  {
    hide Replay, Apply;
  }

  lemma StartsInv(batch: nat, capacity: nat, retryFailed: bool, docs: seq<PageDoc>)
    requires batch >= 1
    ensures Inv(Start(batch, capacity, retryFailed, docs), docs)
  {
  }

  // ---- What readers see

  // The step asks the writer to commit: a rebuild at the head of the queue, a
  // full batch, or a timer or a shutdown with something pending.
  predicate AttemptsCommit(s: State, e: Event)
    requires Enabled(s, e)
  {
    match e
    case Receive(_) => s.queue[0].Rebuild?
    case Drain(_) => s.queue[0].Rebuild?
    case EndDrain(_) => s.pending >= s.batch
    case Tick(_) => s.pending > 0
    case Shutdown(_) => s.pending > 0
    case Send(_) => false
    case CloseChannel => false
  }

  predicate TakesRebuild(s: State, e: Event)
    requires Enabled(s, e)
  {
    (e.Receive? || e.Drain?) && s.queue[0].Rebuild?
  }

  // The index readers see changes in the steps that attempt a commit, when that
  // succeeds, and in no other; it is then all that was applied so far. A
  // rebuild's commit empties it on the spot.
  lemma StepPublishes(s: State, e: Event)
    requires Enabled(s, e)
    ensures var t := Next(s, e);
      && (if AttemptsCommit(s, e) && Succeeds(e) then t.committed == t.working && t.durable == |t.applied|
          else t.committed == s.committed && t.durable == s.durable)
      && (TakesRebuild(s, e) ==> t.working == [] && (Succeeds(e) ==> t.committed == [] && t.durable == |s.applied| + 1))
      && (t.working != s.working ==> e.Receive? || e.Drain?)
  {
    hide UpsertOn, DeleteOn;
  }

  // The counter counts the jobs taken since the loop's last attempt to commit; a
  // wake-up ends with a full batch or an empty queue.
  lemma StepCounts(s: State, e: Event)
    requires Enabled(s, e)
    ensures var t := Next(s, e);
      && (e.Receive? || e.Drain? ==> t.pending == s.pending + 1 && t.queue == s.queue[1..] && t.draining)
      && ((e.EndDrain? || e.Tick?) && AttemptsCommit(s, e) ==>
            t.pending == if Succeeds(e) || !s.retryFailed then 0 else s.pending)
      && (e.EndDrain? ==> !t.draining && (AttemptsCommit(s, e) || t.queue == []))
  {
    hide Apply;
  }

  // A worker that has not stopped can go on: in a batch with exactly one of the
  // next job and the end of the batch, otherwise at least with its timer.
  lemma WorkerGoesOn(s: State, ok: bool)
    requires !s.stopped
    ensures s.draining ==> (Enabled(s, Drain(ok)) <==> !Enabled(s, EndDrain(ok)))
    ensures !s.draining ==> Enabled(s, Tick(ok)) && (Enabled(s, Receive(ok)) <==> s.queue != [])
    ensures !s.draining && s.closed && s.queue == [] ==> Enabled(s, Shutdown(ok))
  {
  }

  // Once the channel is closed, a worker whose commits succeed reaches its end
  // with everything accepted committed, whatever state it is in.
  lemma {:induction false} CanFinish(s: State, docs: seq<PageDoc>) returns (steps: seq<Event>)
    requires Inv(s, docs) && s.batch >= 1 && s.closed && !s.stopped && !s.retryFailed
    ensures forall e | e in steps :: Succeeds(e)
    ensures Run(s, steps).stopped && Run(s, steps).accepted == s.accepted
    decreases |s.queue|, if s.draining then 1 else 0
  {
    hide Inv, Next, Run, AttemptsCommit;
    var e := if s.draining then (if s.queue == [] || s.pending >= s.batch then EndDrain(true) else Drain(true))
             else if s.queue != [] then Receive(true) else Shutdown(true);
    StepKeepsInv(s, e, docs);
    StepKeepsSettings(s, e);
    StepCounts(s, e);
    StepKeepsAccepted(s, e);
    var t := Next(s, e);
    if e.Shutdown? {
      steps := [e] + [];
      Runs(s, e, []);
      NoMore(t);
    } else {
      var more := CanFinish(t, docs);
      steps := [e] + more;
      Runs(s, e, more);
    }
  }

  lemma StepKeepsAccepted(s: State, e: Event)
    requires Enabled(s, e) && !e.Send?
    ensures var t := Next(s, e);
      && t.accepted == s.accepted && (e.CloseChannel? || t.closed == s.closed)
      && (t.stopped <==> e.Shutdown?) && (e.Receive? || e.Drain? || t.queue == s.queue)
  {
    hide CommitAndReset, TakeJob, Commit;
    match e
    case CloseChannel =>
    case Receive(ok) => TakingAcceptsNothing(s, ok);
    case Drain(ok) => TakingAcceptsNothing(s, ok);
    case EndDrain(ok) => CommittingAcceptsNothing(s.(draining := false), ok);
    case Tick(ok) => CommittingAcceptsNothing(s, ok);
    case Shutdown(ok) => CommittingAcceptsNothing(s, ok);
  }

  lemma TakingAcceptsNothing(s: State, ok: bool)
    ensures s.queue != [] ==>
              var t := TakeJob(s, ok);
              t.accepted == s.accepted && t.queue == s.queue[1..] && t.capacity == s.capacity
              && t.closed == s.closed && t.stopped == s.stopped
  {
    hide Apply;
  }

  lemma CommittingAcceptsNothing(s: State, ok: bool)
    ensures var t := Commit(s, ok);
      t.accepted == s.accepted && t.queue == s.queue && t.capacity == s.capacity
      && t.closed == s.closed && t.stopped == s.stopped
    ensures var t := CommitAndReset(s, ok);
      t.accepted == s.accepted && t.queue == s.queue && t.capacity == s.capacity
      && t.closed == s.closed && t.stopped == s.stopped
  {
  }

  // ---- Whole runs

  function After(batch: nat, capacity: nat, retryFailed: bool, docs: seq<PageDoc>, schedule: seq<Event>): State {
    Run(Start(batch, capacity, retryFailed, docs), schedule)
  }

  lemma ReachableInv(batch: nat, capacity: nat, retryFailed: bool, docs: seq<PageDoc>, schedule: seq<Event>)
    requires batch >= 1
    ensures var s := After(batch, capacity, retryFailed, docs, schedule); Inv(s, docs) && s.retryFailed == retryFailed
    ensures After(batch, capacity, retryFailed, docs, schedule).batch == batch
  {
    StartsInv(batch, capacity, retryFailed, docs);
    RunKeepsInv(Start(batch, capacity, retryFailed, docs), schedule, docs);
  }

  // Under every schedule, batch size and outcome of commits: the committed index
  // is the replay of a prefix of the accepted jobs, with one document per page,
  // and the counter is below the batch size whenever the worker waits.
  lemma CommittedIsAPrefix(batch: nat, capacity: nat, docs: seq<PageDoc>, schedule: seq<Event>)
    requires batch >= 1 && DistinctIds(docs)
    ensures var s := After(batch, capacity, false, docs, schedule);
      && s.durable <= |s.accepted| && s.committed == Replay(docs, s.accepted[..s.durable])
      && DistinctIds(s.committed)
      && (!s.draining ==> s.pending < batch)
  {
    hide Replay, Run;
    ReachableInv(batch, capacity, false, docs, schedule);
    var s := After(batch, capacity, false, docs, schedule);
    assert s.accepted[..s.durable] == s.applied[..s.durable];
    ReplayKeepsIdsDistinct(docs, s.accepted[..s.durable]);
  }

  predicate Succeeds(e: Event) {
    match e
    case Receive(ok) => ok
    case Drain(ok) => ok
    case EndDrain(ok) => ok
    case Tick(ok) => ok
    case Shutdown(ok) => ok
    case Send(_) => true
    case CloseChannel => true
  }

  predicate NoFailure(log: seq<Entry>) {
    forall e | e in log :: !e.Applied? ==> e.ok
  }

  lemma StepKeepsGoing(s: State, e: Event)
    requires Enabled(s, e) && Succeeds(e) && NoFailure(s.log)
    ensures NoFailure(Next(s, e).log)
  {
    hide Apply;
  }

  // Without failures, nothing pending means nothing uncommitted.
  lemma NothingPending(s: State)
    requires NoFailure(s.log) && Outstanding(s) && !s.stopped && !s.retryFailed && s.durable <= |s.applied|
    ensures s.pending == 0 ==> s.durable == |s.applied|
  {
    if s.log != [] {
      assert s.log[|s.log| - 1] in s.log;
    }
  }

  predicate Complete(s: State) {
    s.durable == |s.accepted|
  }

  lemma {:induction false} GoodRun(s: State, schedule: seq<Event>, docs: seq<PageDoc>)
    requires Inv(s, docs) && s.batch >= 1 && !s.retryFailed && NoFailure(s.log) && (s.stopped ==> Complete(s))
    requires forall e | e in schedule :: Succeeds(e)
    ensures var t := Run(s, schedule); NoFailure(t.log) && (t.stopped ==> Complete(t))
    decreases |schedule|
  {
    hide Next, Enabled, Replays, Succeeds, NoFailure;
    if schedule != [] {
      var e := schedule[0];
      assert e in schedule;
      if Enabled(s, e) {
        StepKeepsInv(s, e, docs);
        StepKeepsSettings(s, e);
        StepKeepsGoing(s, e);
        StopsComplete(s, e, docs);
        GoodRun(Next(s, e), schedule[1..], docs);
      } else {
        GoodRun(s, schedule[1..], docs);
      }
    }
  }

  lemma StopsComplete(s: State, e: Event, docs: seq<PageDoc>)
    requires Enabled(s, e) && Succeeds(e) && NoFailure(s.log) && Inv(s, docs) && !s.retryFailed
    ensures Next(s, e).stopped ==> Complete(Next(s, e))
  {
    hide Replay, Apply, TakeJob, Unsaved, NoFailure, JobsOf;
    TakeRuns(s);
    NothingPending(s);
  }

  lemma TakeRuns(s: State)
    requires !s.stopped
    ensures forall ok :: s.queue != [] ==> !TakeJob(s, ok).stopped
  {
    hide Apply;
  }

  // When commits succeed: after the channel is closed and drained, the committed
  // index is the replay of all accepted jobs, and whenever nothing is pending,
  // nothing is uncommitted.
  lemma CleanShutdownIsComplete(batch: nat, capacity: nat, docs: seq<PageDoc>, schedule: seq<Event>)
    requires batch >= 1 && forall e | e in schedule :: Succeeds(e)
    ensures var s := After(batch, capacity, false, docs, schedule);
      && (s.stopped ==> s.committed == Replay(docs, s.accepted))
      && (s.pending == 0 ==> s.committed == s.working)
  {
    hide Replay, Run;
    StartsInv(batch, capacity, false, docs);
    GoodRun(Start(batch, capacity, false, docs), schedule, docs);
    ReachableInv(batch, capacity, false, docs, schedule);
    var s := After(batch, capacity, false, docs, schedule);
    assert s.applied[..|s.applied|] == s.applied && s.accepted[..|s.accepted|] == s.accepted;
    if s.stopped {
      assert s.accepted == s.applied;
    } else {
      NothingPending(s);
    }
  }

  lemma {:induction false} RunAppend(s: State, a: seq<Event>, b: seq<Event>)
    ensures Run(s, a + b) == Run(Run(s, a), b)
    decreases |a|
  {
    hide Enabled, Next;
    if a == [] {
      assert a + b == b;
    } else {
      assert (a + b)[1..] == a[1..] + b;
      RunAppend(if Enabled(s, a[0]) then Next(s, a[0]) else s, a[1..], b);
    }
  }

  // Wherever such a run stands, the worker can still go on to a stop at which
  // everything accepted so far is committed.
  lemma EverythingAcceptedCanBeCommitted(batch: nat, capacity: nat, docs: seq<PageDoc>, schedule: seq<Event>)
    requires batch >= 1 && (forall e | e in schedule :: Succeeds(e))
    requires !After(batch, capacity, false, docs, schedule).stopped
    ensures exists steps ::
              var s, t := After(batch, capacity, false, docs, schedule), After(batch, capacity, false, docs, schedule + steps);
              t.stopped && t.accepted == s.accepted && t.committed == Replay(docs, s.accepted)
  {
    hide Run, Next, Inv, Succeeds, Replay;
    ReachableInv(batch, capacity, false, docs, schedule);
    var start := Start(batch, capacity, false, docs);
    var s := Run(start, schedule);
    var close := if s.closed then [] else [CloseChannel];
    CloseOnly(s, docs);
    var steps := CanFinish(s.(closed := true), docs);
    RunAppend(s, close, steps);
    RunAppend(start, schedule, close + steps);
    CloseSucceeds();
    CleanShutdownIsComplete(batch, capacity, docs, schedule + (close + steps));
    assert After(batch, capacity, false, docs, schedule + (close + steps)).stopped;
  }

  lemma CloseSucceeds()
    ensures Succeeds(CloseChannel)
  {
  }

  lemma CloseOnly(s: State, docs: seq<PageDoc>)
    requires Inv(s, docs) && s.batch >= 1 && !s.stopped
    ensures Inv(s.(closed := true), docs)
    ensures Run(s, if s.closed then [] else [CloseChannel]) == s.(closed := true)
  {
    NoMore(s);
    if !s.closed {
      hide Run, Inv;
      StepKeepsInv(s, CloseChannel, docs);
      assert [CloseChannel] == [CloseChannel] + [];
      Runs(s, CloseChannel, []);
      NoMore(s.(closed := true));
    }
  }

  // With failing commits: a shutdown whose own commit would succeed leaves
  // accepted jobs out exactly when the last commit in the log has failed and a
  // job was applied since the last one that succeeded.
  lemma ShutdownIsCompleteIff(batch: nat, capacity: nat, docs: seq<PageDoc>, schedule: seq<Event>)
    requires batch >= 1
    ensures var s := After(batch, capacity, false, docs, schedule);
      Enabled(s, Shutdown(true)) ==>
        (Complete(Next(s, Shutdown(true))) <==> !(LastCommitFailed(s.log) && Unsaved(s.log)))
  {
    hide Run, Replay;
    ReachableInv(batch, capacity, false, docs, schedule);
  }

  // The documented worker, which retries: a tick or shutdown whose commit
  // succeeds covers everything applied, whatever failed before.
  lemma RetryingWorkerLosesNothing(batch: nat, capacity: nat, docs: seq<PageDoc>, schedule: seq<Event>)
    requires batch >= 1
    ensures var s := After(batch, capacity, true, docs, schedule);
      && (Enabled(s, Tick(true)) ==> Next(s, Tick(true)).committed == s.working)
      && (Enabled(s, Shutdown(true)) ==> Next(s, Shutdown(true)).committed == Replay(docs, s.accepted))
  {
    hide Run, Replay;
    ReachableInv(batch, capacity, true, docs, schedule);
    var s := After(batch, capacity, true, docs, schedule);
    assert s.applied[..|s.applied|] == s.applied;
    if Enabled(s, Shutdown(true)) {
      assert s.accepted == s.applied;
    }
  }

  // One upsert, a tick whose commit fails, and a clean shutdown: the code never
  // commits the document, the retrying worker does.
  lemma FailedTickLosesTheBatch(batch: nat, capacity: nat, doc: PageDoc)
    requires batch >= 2 && capacity >= 1
    ensures var schedule := [Send(Upsert(doc)), Receive(true), EndDrain(true), Tick(false), CloseChannel, Shutdown(true)];
      && After(batch, capacity, false, [], schedule).stopped && After(batch, capacity, false, [], schedule).committed == []
      && After(batch, capacity, true, [], schedule).stopped && After(batch, capacity, true, [], schedule).committed == [doc]
  {
    LostBatchRun(batch, capacity, doc, false);
    LostBatchRun(batch, capacity, doc, true);
  }

  lemma LostBatchRun(batch: nat, capacity: nat, doc: PageDoc, retryFailed: bool)
    requires batch >= 2 && capacity >= 1
    ensures var schedule := [Send(Upsert(doc)), Receive(true), EndDrain(true), Tick(false), CloseChannel, Shutdown(true)];
      var s := After(batch, capacity, retryFailed, [], schedule);
      s.stopped && s.committed == if retryFailed then [doc] else []
  {
    hide Run, Next, Enabled;
    var s0 := Start(batch, capacity, retryFailed, []);
    var s1 := s0.(queue := [Upsert(doc)], accepted := [Upsert(doc)]);
    var s2 := s1.(queue := [], working := [doc], applied := [Upsert(doc)], log := [Applied(Upsert(doc))],
                  pending := 1, draining := true);
    var s4 := s2.(draining := false, log := s2.log + [Committed(false)], pending := if retryFailed then 1 else 0);
    var e5 := [Shutdown(true)];
    var e4 := [CloseChannel] + e5;
    var e3 := [Tick(false)] + e4;
    var e2 := [EndDrain(true)] + e3;
    var e1 := [Receive(true)] + e2;
    assert [Send(Upsert(doc)), Receive(true), EndDrain(true), Tick(false), CloseChannel, Shutdown(true)]
        == [Send(Upsert(doc))] + e1;
    SendStep(s0, Upsert(doc));
    Runs(s0, Send(Upsert(doc)), e1);
    ReceiveStep(s1, doc);
    Runs(s1, Receive(true), e2);
    TickSteps(s2, e4);
    CloseSteps(s4);
    assert e4 == [CloseChannel, Shutdown(true)];
  }

  lemma SendStep(s: State, job: Job)
    requires !s.stopped && !s.closed && s.queue == [] && s.accepted == [] && s.capacity >= 1
    ensures Enabled(s, Send(job)) && Next(s, Send(job)) == s.(queue := [job], accepted := [job])
  {
  }

  lemma ReceiveStep(s: State, doc: PageDoc)
    requires !s.stopped && !s.draining && s.queue == [Upsert(doc)] && s.working == []
    requires s.applied == [] && s.log == [] && s.pending == 0
    ensures Enabled(s, Receive(true))
    ensures Next(s, Receive(true)) ==
            s.(queue := [], working := [doc], applied := [Upsert(doc)], log := [Applied(Upsert(doc))],
               pending := 1, draining := true)
  {
    assert s.queue[1..] == [] && DeleteOn([], doc.id) + [doc] == [doc];
  }

  lemma TickSteps(s: State, more: seq<Event>)
    requires !s.stopped && s.draining && s.queue == [] && s.pending == 1 < s.batch && s.durable < |s.applied|
    ensures Run(s, [EndDrain(true)] + ([Tick(false)] + more)) ==
            Run(s.(draining := false, log := s.log + [Committed(false)], pending := if s.retryFailed then 1 else 0), more)
  {
    Runs(s, EndDrain(true), [Tick(false)] + more);
    Runs(s.(draining := false), Tick(false), more);
  }

  lemma CloseSteps(s: State)
    requires !s.stopped && !s.draining && !s.closed && s.queue == []
    ensures Run(s, [CloseChannel, Shutdown(true)]) ==
            (if s.pending > 0 then Commit(s, true) else s).(closed := true, stopped := true)
  {
    hide Run;
    var t := s.(closed := true);
    assert [CloseChannel, Shutdown(true)] == [CloseChannel] + [Shutdown(true)];
    Runs(s, CloseChannel, [Shutdown(true)]);
    assert [Shutdown(true)] == [Shutdown(true)] + [];
    Runs(t, Shutdown(true), []);
    NoMore(Next(t, Shutdown(true)));
  }

  lemma NoMore(s: State)
    ensures Run(s, []) == s
  {
  }

  lemma Runs(s: State, e: Event, more: seq<Event>)
    requires Enabled(s, e)
    ensures Run(s, [e] + more) == Run(Next(s, e), more)
  {
    assert ([e] + more)[1..] == more;
  }

  // A crash drops the channel and the writer. Replaying the accepted jobs on the
  // committed index, from any point up to the last commit, repairs it.
  lemma CrashIsRepaired(batch: nat, capacity: nat, docs: seq<PageDoc>, schedule: seq<Event>, from: nat)
    requires batch >= 1 && from <= After(batch, capacity, false, docs, schedule).durable
    ensures var s := After(batch, capacity, false, docs, schedule);
      from <= |s.accepted| && Replay(s.committed, s.accepted[from..]) == Replay(docs, s.accepted)
  {
    hide Run, Replay;
    ReachableInv(batch, capacity, false, docs, schedule);
    var s := After(batch, capacity, false, docs, schedule);
    assert s.accepted[..s.durable] == s.applied[..s.durable];
    CrashReplay(docs, s.accepted, from, s.durable);
  }
}
