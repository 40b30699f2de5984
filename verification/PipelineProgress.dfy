/** Every run of the pipeline ends, and ends with wg.Wait returning exactly when what nobody receives
    fits into the slots. */
module PipelineProgress {
  import opened Pipeline
  import opened PipelineInvariant
  import opened PipelineOutcomes
  import opened PipelineValues

  // A fanning stage that has received `vals` and sent `out`, of the input `all`.
  lemma FanWithin(h: Hashes, job: Job, ws: seq<Worker>, vals: seq<string>, out: seq<string>, all: seq<string>)
    requires Fans(job) && FanInv(h, job, ws, vals, out) && multiset(vals) <= multiset(all)
    ensures multiset(out) <= multiset(HashAll(h, job, all))
    ensures multiset(vals) == multiset(all) && !Unsent(ws) ==> multiset(out) == multiset(HashAll(h, job, all))
    ensures Unsent(ws) ==> |out| < |HashAll(h, job, all)|
  {
    EmittedWithin(h, job, ws, vals);
    HashAllMonotone(h, job, vals, all);
    if multiset(vals) == multiset(all) {
      HashAllMonotone(h, job, all, vals);
    }
    FanSize(h, job, ws, out, vals, all);
  }

  lemma FanSize(h: Hashes, job: Job, ws: seq<Worker>, out: seq<string>, vals: seq<string>, expected: seq<string>)
    requires Fans(job) && multiset(out) == Emitted(h, job, ws) && |ws| == |vals| && multiset(vals) <= multiset(expected)
    ensures Unsent(ws) ==> |out| < |HashAll(h, job, expected)|
  {
    EmittedSize(h, job, ws);
    SubmultisetSize(vals, expected);
    assert |out| == |multiset(out)|;
  }

  // A sequential job has sent a beginning of what it makes of any input that goes on as its own has.
  lemma ProcSent(h: Hashes, st: Stage, in_: Chan, out: Chan, whole: seq<string>)
    requires in_.Within() && st.job.Proc? && ProcInv(st, in_, out)
    requires st.acc <= whole && (in_.Exhausted() ==> st.acc == whole)
    ensures out.log <= Output(h, st.job, whole)
    ensures st.done ==> out.log == Output(h, st.job, whole)
    ensures Offer(st, in_) != [] ==> |out.log| < |Output(h, st.job, whole)|
    ensures Stopped(st, in_) ==> |Cut(st.job, whole)| == in_.taken
  {
    CutFrom(st.job, st.acc, whole);
    if Stopped(st, in_) {
      var last := st.job.g(st.acc);
      assert last == last[..st.sent] + last[st.sent..];
      assert out.log + st.pending + last[st.sent..] == Output(h, st.job, whole);
    } else {
      StreamPrefix(st.job, st.acc, Cut(st.job, whole));
      assert st.job.g(st.acc)[..0] == [];
      assert out.log + st.pending <= Output(h, st.job, whole);
    }
  }

  lemma FanSent(h: Hashes, st: Stage, in_: Chan, out: Chan, a: seq<string>)
    requires in_.Within() && Fans(st.job) && StageInv(h, st, in_, out)
    requires in_.log <= a && (in_.closed ==> in_.log == a)
    ensures multiset(out.log) <= multiset(HashAll(h, st.job, a))
    ensures st.done ==> multiset(out.log) == multiset(HashAll(h, st.job, a))
    ensures Unsent(st.workers) ==> |out.log| < |HashAll(h, st.job, a)|
  {
    var vals := in_.log[..in_.taken];
    assert vals == a[..in_.taken];
    PrefixMultiset(a, in_.taken);
    assert in_.Exhausted() ==> vals == a;
    FanWithin(h, st.job, st.workers, vals, out.log, a);
    assert AllExited(st.workers) ==> !Unsent(st.workers);
  }

  // A channel carries a: it has carried a beginning of it, and all of it when it is closed.
  predicate Carries(c: Chan, a: seq<string>) { c.log <= a && (c.closed ==> c.log == a) }

  // What a stage has sent when its input carries a: all of the outcome b when it has returned, and not
  // all of it while something is about to be sent.
  lemma StageSends(h: Hashes, st: Stage, in_: Chan, out: Chan, a: seq<string>, b: seq<string>)
    requires in_.Within() && StageInv(h, st, in_, out) && Carries(in_, a) && Outcome(h, st.job, a, b)
    requires Fans(st.job) ==> out.log <= b
    ensures Carries(out, b)
    ensures Offer(st, in_) != [] || Unsent(st.workers) ==> |out.log| < |b|
    ensures Stopped(st, in_) ==> in_.taken == |Cut(st.job, a)|
  {
    if st.job.Proc? {
      ProcSent(h, st, in_, out, a);
    } else {
      FanSent(h, st, in_, out, a);
      SameSize(b, HashAll(h, st.job, a));
      if st.done { SameSize(out.log, b); }
    }
  }

  // The stage has sent a beginning of some outcome.
  lemma SomeOutcome(h: Hashes, st: Stage, in_: Chan, out: Chan, a: seq<string>) returns (b: seq<string>)
    requires in_.Within() && StageInv(h, st, in_, out) && Carries(in_, a)
    ensures Outcome(h, st.job, a, b) && Carries(out, b)
  {
    if st.job.Proc? {
      b := Output(h, st.job, a);
    } else {
      FanSent(h, st, in_, out, a);
      b := Extend(out.log, HashAll(h, st.job, a));
    }
    StageSends(h, st, in_, out, a, b);
  }

  // The channels carry this outcome of the chain.
  predicate Tracks(h: Hashes, jobs: seq<Job>, s: State, w: seq<seq<string>>) {
    && Outcomes(h, jobs, w) && |s.chans| == |w|
    && forall k :: 0 <= k < |w| ==> Carries(s.chans[k], w[k])
  }

  lemma {:induction false} TrackUpTo(h: Hashes, jobs: seq<Job>, s: State, k: nat) returns (w: seq<seq<string>>)
    requires AllStagesInv(h, jobs, s) && k <= |jobs|
    ensures |w| == k + 1 && w[0] == []
    ensures forall i :: 0 <= i < k ==> Outcome(h, jobs[i], w[i], w[i + 1])
    ensures forall i :: 0 <= i <= k ==> Carries(s.chans[i], w[i])
  {
    if k == 0 {
      assert ChanInv(s, 0);
      w := [[]];
    } else {
      var before := TrackUpTo(h, jobs, s, k - 1);
      assert LocalInv(h, jobs, s, k - 1);
      var b := SomeOutcome(h, s.stages[k - 1], s.chans[k - 1], s.chans[k], before[k - 1]);
      w := before + [b];
    }
  }

  // At any moment of any run they carry one.
  lemma SomeTrack(h: Hashes, jobs: seq<Job>, s: State) returns (w: seq<seq<string>>)
    requires Inv(h, jobs, s)
    ensures Tracks(h, jobs, s, w)
  {
    w := TrackUpTo(h, jobs, s, |jobs|);
  }

  lemma TrackedSends(h: Hashes, jobs: seq<Job>, s: State, w: seq<seq<string>>, i: nat)
    requires Inv(h, jobs, s) && Tracks(h, jobs, s, w) && i < |jobs|
    ensures Offer(s.stages[i], s.chans[i]) != [] || Unsent(s.stages[i].workers) ==> |s.chans[i + 1].log| < |w[i + 1]|
    ensures Stopped(s.stages[i], s.chans[i]) ==> s.chans[i].taken == |Cut(jobs[i], w[i])|
  {
    assert LocalInv(h, jobs, s, i) && Carries(s.chans[i], w[i]) && Carries(s.chans[i + 1], w[i + 1]);
    StageSends(h, s.stages[i], s.chans[i], s.chans[i + 1], w[i], w[i + 1]);
  }

  // What the goroutine that holds su does next. Nothing of it waits for anybody.
  function HolderAction(m: Md5): Action
    requires Holds(m)
  {
    match m case Locked => OverheatLock case Hashing => OverheatUnlock case Hashed => SendMd5 case Sent => UnlockSu
  }

  lemma HolderEnabled(h: Hashes, w: Worker, sh: Shared)
    requires w.SingleW? && SingleInv(h, w) && Holds(w.md5)
    ensures WorkerEnabled(w, HolderAction(w.md5), sh, false)
  {
  }

  predicate Emits(l: Label) { l.Work? && l.action.Emit? }

  lemma HolderProgress(h: Hashes, jobs: seq<Job>, s: State) returns (l: Label)
    requires Inv(h, jobs, s) && s.shared.su != []
    ensures Enabled(s, l) && !Emits(l)
  {
    var id := s.shared.su[0];
    assert s.shared.su == [id] && IdInv(s, id);
    assert LocalInv(h, jobs, s, id.0);
    var w := s.stages[id.0].workers[id.1];
    HolderEnabled(h, w, s.shared);
    l := Work(id.0, id.1, HolderAction(w.md5));
  }

  lemma SingleProgress(h: Hashes, jobs: seq<Job>, s: State, i: nat, j: nat) returns (l: Label)
    requires Inv(h, jobs, s) && i < |jobs| && j < |s.stages[i].workers|
    requires s.stages[i].workers[j].SingleW? && !s.stages[i].workers[j].parent.Exited?
    requires s.stages[i].workers[j].parent.Sending? ==> s.chans[i + 1].Room()
    ensures Enabled(s, l) && (Emits(l) ==> l == Work(i, j, Emit))
  {
    assert LocalInv(h, jobs, s, i);
    var w := s.stages[i].workers[j];
    match w.parent
    case AwaitMd5 =>
      if w.second != [] {
        l := Work(i, j, TakeMd5);
      } else if w.md5.WantLock? && s.shared.su == [] {
        l := Work(i, j, LockSu);
      } else {
        assert IdInv(s, (i, j));
        l := HolderProgress(h, jobs, s);
      }
    case AwaitFirst => l := Work(i, j, if w.first != [] then TakeFirst else SendCrc1);
    case AwaitSecond(_) => l := Work(i, j, if w.second != [] then TakeSecond else SendCrc2);
    case Sending(_) => l := Work(i, j, Emit);
    case Closing => l := Work(i, j, Close);
  }

  lemma MultiProgress(h: Hashes, jobs: seq<Job>, s: State, i: nat, j: nat) returns (l: Label)
    requires Inv(h, jobs, s) && i < |jobs| && j < |s.stages[i].workers|
    requires s.stages[i].workers[j].MultiW? && !s.stages[i].workers[j].parent.Exited?
    requires s.stages[i].workers[j].parent.Sending? ==> s.chans[i + 1].Room()
    ensures Enabled(s, l) && (Emits(l) ==> l == Work(i, j, Emit))
  {
    assert LocalInv(h, jobs, s, i);
    var w := s.stages[i].workers[j];
    match w.parent
    case Collecting =>
      if w.queue != [] {
        l := Work(i, j, Collect);
      } else {
        CountTrueBounds(w.sent);
        var th :| 0 <= th < |w.sent| && !w.sent[th];
        l := Work(i, j, SendPiece(th));
      }
    case Sending(_) => l := Work(i, j, Emit);
    case Closing => l := Work(i, j, Close);
  }

  lemma WorkerProgress(h: Hashes, jobs: seq<Job>, s: State, i: nat, j: nat) returns (l: Label)
    requires Inv(h, jobs, s) && i < |jobs| && j < |s.stages[i].workers|
    requires !s.stages[i].workers[j].parent.Exited?
    requires s.stages[i].workers[j].parent.Sending? ==> s.chans[i + 1].Room()
    ensures Enabled(s, l) && (Emits(l) ==> l == Work(i, j, Emit))
  {
    if s.stages[i].workers[j].SingleW? {
      l := SingleProgress(h, jobs, s, i, j);
    } else {
      l := MultiProgress(h, jobs, s, i, j);
    }
  }

  // With nothing to send a job that has not stopped receives what is there, and one that has stopped
  // returns when its workers are over.
  lemma ReceiverProgress(h: Hashes, jobs: seq<Job>, s: State, i: nat)
    requires Inv(h, jobs, s) && i < |jobs| && !s.stages[i].done && Offer(s.stages[i], s.chans[i]) == []
    ensures Stopped(s.stages[i], s.chans[i]) && AllExited(s.stages[i].workers) ==> Enabled(s, Return(i))
    ensures !Stopped(s.stages[i], s.chans[i]) && s.chans[i].HasValue() ==> Enabled(s, Take(i))
  {
    assert LocalInv(h, jobs, s, i);
  }

  // The stage has a send to make that may have to wait.
  predicate Waiting(st: Stage, in_: Chan) {
    if st.job.Proc? then Offer(st, in_) != [] else exists j :: 0 <= j < |st.workers| && st.workers[j].parent.Sending?
  }

  // The step, if it is a send of a worker, sends what comes next in w.
  predicate OnTrack(s: State, w: seq<seq<string>>, l: Label)
    requires Shape(s) && Enabled(s, l) && |w| == |s.chans|
  {
    Emits(l) ==> s.chans[l.stage + 1].log + [s.stages[l.stage].workers[l.worker].parent.value] <= w[l.stage + 1]
  }

  // If all workers with this hash have sent, then it has been sent as often as it is to be.
  lemma {:induction false} EmittedCount(h: Hashes, job: Job, ws: seq<Worker>, vals: seq<string>, v: string)
    requires Fans(job) && |ws| == |vals| && forall j :: 0 <= j < |ws| ==> ws[j].val == vals[j]
    requires forall j :: 0 <= j < |ws| && Hash(h, job, vals[j]) == v ==> HasEmitted(ws[j])
    ensures Emitted(h, job, ws)[v] == multiset(HashAll(h, job, vals))[v]
  {
    if ws != [] {
      HashAllHead(h, job, vals);
      EmittedCount(h, job, ws[1..], vals[1..], v);
    }
  }

  lemma NextCount(a: seq<string>, b: seq<string>)
    requires a <= b && |a| < |b|
    ensures multiset(a)[b[|a|]] < multiset(b)[b[|a|]]
  {
    var v := b[|a|];
    assert b == a + [v] + b[|a| + 1..];
    assert multiset(b)[v] == multiset(a)[v] + multiset([v])[v] + multiset(b[|a| + 1..])[v];
  }

  // When everything has been received, some worker has the value that is to be sent next.
  lemma NextIsThere(h: Hashes, job: Job, ws: seq<Worker>, vals: seq<string>, out: seq<string>, b: seq<string>)
    requires Fans(job) && FanInv(h, job, ws, vals, out)
    requires out <= b && |out| < |b| && multiset(b) == multiset(HashAll(h, job, vals))
    ensures exists j :: 0 <= j < |ws| && !HasEmitted(ws[j]) && Hash(h, job, ws[j].val) == b[|out|]
  {
    NextCount(out, b);
    if forall j :: 0 <= j < |ws| && Hash(h, job, vals[j]) == b[|out|] ==> HasEmitted(ws[j]) {
      EmittedCount(h, job, ws, vals, b[|out|]);
    }
  }

  lemma RightWorker(h: Hashes, jobs: seq<Job>, s: State, w: seq<seq<string>>, i: nat)
    requires Inv(h, jobs, s) && Tracks(h, jobs, s, w) && i < |jobs| && Fans(jobs[i]) && Unsent(s.stages[i].workers)
    requires Stopped(s.stages[i], s.chans[i])
    ensures |s.chans[i + 1].log| < |w[i + 1]|
    ensures exists j :: 0 <= j < |s.stages[i].workers| && !HasEmitted(s.stages[i].workers[j])
                     && Hash(h, jobs[i], s.stages[i].workers[j].val) == w[i + 1][|s.chans[i + 1].log|]
  {
    TrackedSends(h, jobs, s, w, i);
    assert LocalInv(h, jobs, s, i) && Carries(s.chans[i], w[i]) && Carries(s.chans[i + 1], w[i + 1]);
    assert s.chans[i].log[..s.chans[i].taken] == w[i];
    NextIsThere(h, jobs[i], s.stages[i].workers, w[i], s.chans[i + 1].log, w[i + 1]);
  }

  lemma SendsItsHash(h: Hashes, jobs: seq<Job>, s: State, i: nat, j: nat)
    requires Inv(h, jobs, s) && i < |jobs| && j < |s.stages[i].workers|
    ensures Fans(jobs[i]) && s.stages[i].job == jobs[i]
    ensures var w := s.stages[i].workers[j]; w.parent.Sending? ==> w.parent.value == Hash(h, jobs[i], w.val)
  {
    assert LocalInv(h, jobs, s, i);
    assert WorkerInv(h, jobs[i], s.stages[i].workers[j]);
  }

  // A worker that has the next value, or none to send, can go on.
  lemma TrackedWorker(h: Hashes, jobs: seq<Job>, s: State, w: seq<seq<string>>, i: nat, j: nat) returns (l: Label)
    requires Inv(h, jobs, s) && Tracks(h, jobs, s, w) && i < |jobs| && j < |s.stages[i].workers|
    requires !s.stages[i].workers[j].parent.Exited?
    requires s.stages[i].workers[j].parent.Sending? ==>
               && s.chans[i + 1].Room() && Fans(jobs[i]) && |s.chans[i + 1].log| < |w[i + 1]|
               && Hash(h, jobs[i], s.stages[i].workers[j].val) == w[i + 1][|s.chans[i + 1].log|]
    ensures Enabled(s, l) && OnTrack(s, w, l)
  {
    l := WorkerProgress(h, jobs, s, i, j);
    if Emits(l) {
      SendsItsHash(h, jobs, s, i, j);
      assert Carries(s.chans[i + 1], w[i + 1]);
    }
  }

  /** If a stage that is not over has nothing to send or room for it, then it, or the holder of su, or
      some stage before it can step, and towards any outcome that the channels carry. */
  lemma {:induction false} StageProgress(h: Hashes, jobs: seq<Job>, s: State, w: seq<seq<string>>, i: nat)
      returns (l: Label)
    requires Inv(h, jobs, s) && Tracks(h, jobs, s, w) && i < |jobs| && !s.stages[i].done
    requires s.chans[i + 1].Room() || !Waiting(s.stages[i], s.chans[i])
    ensures Enabled(s, l) && OnTrack(s, w, l)
    decreases i, 2
  {
    var st, in_ := s.stages[i], s.chans[i];
    assert LocalInv(h, jobs, s, i);
    if Offer(st, in_) != [] {
      l := Put(i);
    } else if Fans(jobs[i]) && Unsent(st.workers) {
      l := UnsentProgress(h, jobs, s, w, i);
    } else if j :| 0 <= j < |st.workers| && !st.workers[j].parent.Exited? {
      l := TrackedWorker(h, jobs, s, w, i, j);
    } else {
      ReceiverProgress(h, jobs, s, i);
      if Stopped(st, in_) {
        l := Return(i);
      } else {
        l := InputProgress(h, jobs, s, w, i);
      }
    }
  }

  lemma {:induction false} UnsentProgress(h: Hashes, jobs: seq<Job>, s: State, w: seq<seq<string>>, i: nat)
      returns (l: Label)
    requires Inv(h, jobs, s) && Tracks(h, jobs, s, w) && i < |jobs| && !s.stages[i].done && Fans(jobs[i])
    requires Unsent(s.stages[i].workers) && Offer(s.stages[i], s.chans[i]) == []
    requires s.chans[i + 1].Room() || !Waiting(s.stages[i], s.chans[i])
    ensures Enabled(s, l) && OnTrack(s, w, l)
    decreases i, 1
  {
    var ws, n := s.stages[i].workers, |s.chans[i + 1].log|;
    TrackedSends(h, jobs, s, w, i);
    assert LocalInv(h, jobs, s, i);
    if !Waiting(s.stages[i], s.chans[i]) {
      var j :| 0 <= j < |ws| && !HasEmitted(ws[j]);
      l := TrackedWorker(h, jobs, s, w, i, j);
    } else if j :| 0 <= j < |ws| && !HasEmitted(ws[j]) && Hash(h, jobs[i], ws[j].val) == w[i + 1][n] {
      l := TrackedWorker(h, jobs, s, w, i, j);
    } else {
      if Stopped(s.stages[i], s.chans[i]) { RightWorker(h, jobs, s, w, i); }
      ReceiverProgress(h, jobs, s, i);
      l := InputProgress(h, jobs, s, w, i);
    }
  }

  // A job that wants more receives it, or a stage before it steps.
  lemma {:induction false} InputProgress(h: Hashes, jobs: seq<Job>, s: State, w: seq<seq<string>>, i: nat)
      returns (l: Label)
    requires Inv(h, jobs, s) && Tracks(h, jobs, s, w) && i < |jobs| && !s.stages[i].done
    requires Offer(s.stages[i], s.chans[i]) == [] && !Stopped(s.stages[i], s.chans[i])
    ensures Enabled(s, l) && OnTrack(s, w, l)
    decreases i, 0
  {
    ReceiverProgress(h, jobs, s, i);
    if s.chans[i].HasValue() {
      l := Take(i);
    } else {
      WaitsForPrevious(h, jobs, s, i);
      l := StageProgress(h, jobs, s, w, i - 1);
    }
  }

  lemma WaitsForPrevious(h: Hashes, jobs: seq<Job>, s: State, i: nat)
    requires Inv(h, jobs, s) && i < |jobs| && !Stopped(s.stages[i], s.chans[i]) && !s.chans[i].HasValue()
    ensures i > 0 && !s.stages[i - 1].done && s.chans[i].Room()
  {
    assert LocalInv(h, jobs, s, i) && ChanInv(s, i);
    if i > 0 { assert LocalInv(h, jobs, s, i - 1); }
  }

  // A send is missing from what the output is to carry.
  lemma WaitingIsMissing(h: Hashes, jobs: seq<Job>, s: State, w: seq<seq<string>>, i: nat)
    requires Inv(h, jobs, s) && Tracks(h, jobs, s, w) && i < |jobs| && Waiting(s.stages[i], s.chans[i])
    ensures |s.chans[i + 1].log| < |w[i + 1]|
  {
    TrackedSends(h, jobs, s, w, i);
    assert s.stages[i].job == jobs[i] by { assert LocalInv(h, jobs, s, i); }
  }

  lemma DoneHasTaken(h: Hashes, jobs: seq<Job>, s: State, w: seq<seq<string>>, i: nat)
    requires Inv(h, jobs, s) && Tracks(h, jobs, s, w) && i < |jobs| && s.stages[i].done
    ensures s.chans[i].taken == |Cut(jobs[i], w[i])|
  {
    TrackedSends(h, jobs, s, w, i);
    assert LocalInv(h, jobs, s, i);
  }

  // Where nobody receives any more there is room for what is still to be sent.
  lemma OutputLeft(h: Hashes, jobs: seq<Job>, s: State, w: seq<seq<string>>, i: nat)
    requires Inv(h, jobs, s) && Tracks(h, jobs, s, w) && LeavesOne(jobs, w) && i < |jobs|
    requires i + 1 < |jobs| ==> s.stages[i + 1].done
    ensures s.chans[i + 1].Room() || !Waiting(s.stages[i], s.chans[i])
  {
    assert ChanInv(s, i + 1);
    if i + 1 < |jobs| { DoneHasTaken(h, jobs, s, w, i + 1); }
    if Waiting(s.stages[i], s.chans[i]) { WaitingIsMissing(h, jobs, s, w, i); }
  }

  lemma LastActive(s: State) returns (i: nat)
    requires Shape(s) && !AllDone(s)
    ensures i < |s.stages| && !s.stages[i].done && (i + 1 < |s.stages| ==> s.stages[i + 1].done)
  {
    var j :| 0 <= j < |s.stages| && !s.stages[j].done;
    i := j;
    while i + 1 < |s.stages| && !s.stages[i + 1].done
      invariant i < |s.stages| && !s.stages[i].done
    {
      i := i + 1;
    }
  }

  /** No deadlock: as long as some job has not returned, some goroutine can step, if what the channels
      carry leaves no more than a slot holds -- towards that very outcome. */
  lemma NoDeadlock(h: Hashes, jobs: seq<Job>, s: State, w: seq<seq<string>>) returns (l: Label)
    requires Inv(h, jobs, s) && Tracks(h, jobs, s, w) && LeavesOne(jobs, w) && !AllDone(s)
    ensures Enabled(s, l) && OnTrack(s, w, l)
  {
    var i := LastActive(s);
    OutputLeft(h, jobs, s, w, i);
    l := StageProgress(h, jobs, s, w, i);
  }

  // Nothing can step.
  ghost predicate Stuck(s: State)
    requires Shape(s)
  {
    forall l :: !Enabled(s, l)
  }

  // Stage i waits to send, and nobody receives any more.
  predicate Blocked(s: State, i: nat)
    requires Shape(s)
  {
    && i < |s.stages| && !s.stages[i].done && Waiting(s.stages[i], s.chans[i])
    && !s.chans[i + 1].Room() && (i + 1 < |s.stages| ==> s.stages[i + 1].done)
  }

  /** What a deadlock looks like, for any jobs: some job, or a goroutine of it, waits to send on a full
      channel whose receiver has returned or does not exist. */
  lemma StuckMeansUnread(h: Hashes, jobs: seq<Job>, s: State) returns (i: nat)
    requires Inv(h, jobs, s) && !AllDone(s) && Stuck(s)
    ensures Blocked(s, i)
  {
    i := LastActive(s);
    var w := SomeTrack(h, jobs, s);
    if s.chans[i + 1].Room() || !Waiting(s.stages[i], s.chans[i]) {
      var l := StageProgress(h, jobs, s, w, i);
    }
  }

  // When all have returned, nobody has left more than a slot holds.
  lemma DoneLeavesOne(h: Hashes, jobs: seq<Job>, s: State, w: seq<seq<string>>)
    requires Inv(h, jobs, s) && Tracks(h, jobs, s, w) && AllDone(s)
    ensures LeavesOne(jobs, w)
    ensures forall k :: 0 <= k <= |jobs| ==> s.chans[k].log == w[k]
  {
    forall k | 0 <= k <= |jobs|
      ensures s.chans[k].log == w[k] && |w[k]| <= (if k < |jobs| then |Cut(jobs[k], w[k])| else 0) + 1
    {
      DoneLeaves(h, jobs, s, w, k);
    }
  }

  lemma DoneLeaves(h: Hashes, jobs: seq<Job>, s: State, w: seq<seq<string>>, k: nat)
    requires Inv(h, jobs, s) && Tracks(h, jobs, s, w) && AllDone(s) && k <= |jobs|
    ensures s.chans[k].log == w[k] && |w[k]| <= (if k < |jobs| then |Cut(jobs[k], w[k])| else 0) + 1
  {
    assert ChanInv(s, k) && Carries(s.chans[k], w[k]);
    if k > 0 { assert LocalInv(h, jobs, s, k - 1); }
    if k < |jobs| { DoneHasTaken(h, jobs, s, w, k); }
  }

  // No channel carries more than it can in any order of arrival, and less while something is about to
  // be sent.
  lemma StillToSend(h: Hashes, jobs: seq<Job>, s: State, i: nat)
    requires Inv(h, jobs, s) && i < |jobs|
    ensures Offer(s.stages[i], s.chans[i]) != [] || Unsent(s.stages[i].workers) ==>
              |s.chans[i + 1].log| < Most(h, jobs, i + 1)
  {
    var w := SomeTrack(h, jobs, s);
    TrackedSends(h, jobs, s, w, i);
    AtMostMost(h, jobs, w, i + 1);
  }

  lemma LogSize(h: Hashes, jobs: seq<Job>, s: State, k: nat)
    requires Inv(h, jobs, s) && k <= |jobs|
    ensures |s.chans[k].log| <= Most(h, jobs, k)
  {
    var w := SomeTrack(h, jobs, s);
    assert Carries(s.chans[k], w[k]);
    AtMostMost(h, jobs, w, k);
  }

  /* The measure: what is missing on every channel, each value with the steps it costs to receive it
     and to deal with it, and what the workers and jobs still have to do. */
  function Turn(job: Job): nat {
    if job.SingleHash? then 14 else if job.MultiHash? then 15 else 1
  }

  function Missing(total: nat, n: nat): nat { if n <= total then total - n else 0 }

  function CrcCost(c: Crc): nat { if c.Finished? then 0 else 1 }

  function Md5Cost(m: Md5): nat {
    match m
    case WantLock => 5 case Locked => 4 case Hashing => 3 case Hashed => 2 case Sent => 1 case Released => 0
  }

  function ParentCost(p: Parent): nat {
    match p
    case AwaitMd5 => 5 case AwaitFirst => 4 case AwaitSecond(_) => 3
    case Collecting => 2 case Sending(_) => 2 case Closing => 1 case Exited => 0
  }

  function WorkerCost(w: Worker): nat {
    ParentCost(w.parent) +
    match w
    case SingleW(_, _, crc1, md5, crc2, _, _, _) => CrcCost(crc1) + CrcCost(crc2) + Md5Cost(md5)
    case MultiW(_, _, sent, _, got, _, _) =>
      (if CountTrue(sent) <= 6 then 6 - CountTrue(sent) else 0) + (if got <= 6 then 6 - got else 0)
  }

  function WorkersCost(ws: seq<Worker>): nat {
    if ws == [] then 0 else WorkerCost(ws[0]) + WorkersCost(ws[1..])
  }

  lemma {:induction false} WorkersCostUpdate(ws: seq<Worker>, j: nat, w: Worker)
    requires j < |ws|
    ensures WorkersCost(ws[j := w]) + WorkerCost(ws[j]) == WorkersCost(ws) + WorkerCost(w)
  {
    if j == 0 {
      assert ws[0 := w][1..] == ws[1..];
    } else {
      assert ws[j := w][1..] == ws[1..][j - 1 := w];
      WorkersCostUpdate(ws[1..], j - 1, w);
    }
  }

  lemma {:induction false} WorkersCostAppend(ws: seq<Worker>, w: Worker)
    ensures WorkersCost(ws + [w]) == WorkersCost(ws) + WorkerCost(w)
  {
    if ws == [] {
      assert ws + [w] == [w] && [w][1..] == [];
    } else {
      assert (ws + [w])[1..] == ws[1..] + [w];
      WorkersCostAppend(ws[1..], w);
    }
  }

  function Times(n: nat, w: nat): nat { if n == 0 then 0 else w + Times(n - 1, w) }

  // The steps a stage still has in it, when it is to receive and to send so many values in all.
  function CostOf(st: Stage, in_: Chan, out: Chan, receives: nat, sends: nat): nat {
    (if st.done then 0 else 1)
    + Times(Missing(receives, in_.taken), Turn(st.job))
    + WorkersCost(st.workers)
    + Missing(sends, |out.log|)
  }

  ghost function Cost(h: Hashes, jobs: seq<Job>, s: State, k: nat): nat
    requires Shape(s) && k < |s.stages| == |jobs|
  {
    CostOf(s.stages[k], s.chans[k], s.chans[k + 1], Most(h, jobs, k), Most(h, jobs, k + 1))
  }

  function Sum(c: seq<nat>): nat { if c == [] then 0 else c[0] + Sum(c[1..]) }

  lemma {:induction false} SumUpdate(c: seq<nat>, k: nat, v: nat)
    requires k < |c|
    ensures Sum(c[k := v]) + c[k] == Sum(c) + v
  {
    if k == 0 {
      assert c[0 := v][1..] == c[1..];
    } else {
      assert c[k := v][1..] == c[1..][k - 1 := v];
      SumUpdate(c[1..], k - 1, v);
    }
  }

  ghost function Costs(h: Hashes, jobs: seq<Job>, s: State): (c: seq<nat>)
    requires Shape(s) && |s.stages| == |jobs|
    ensures |c| == |s.stages|
    ensures forall k :: 0 <= k < |c| ==> c[k] == Cost(h, jobs, s, k)
  {
    seq(|s.stages|, k requires 0 <= k < |s.stages| => Cost(h, jobs, s, k))
  }

  ghost function Measure(h: Hashes, jobs: seq<Job>, s: State): nat
    requires Shape(s) && |s.stages| == |jobs|
  {
    Sum(Costs(h, jobs, s))
  }

  // A step of stage i changes the cost of no other stage.
  lemma MeasureDrops(h: Hashes, jobs: seq<Job>, s: State, t: State, i: nat)
    requires Shape(s) && |s.stages| == |jobs| && OnlyStage(s, t, i)
    requires Cost(h, jobs, t, i) < Cost(h, jobs, s, i)
    ensures Measure(h, jobs, t) < Measure(h, jobs, s)
  {
    var c, d := Costs(h, jobs, s), Costs(h, jobs, t);
    forall k | 0 <= k < |c| && k != i ensures d[k] == c[k] {
      SameCost(h, jobs, s, t, i, k);
    }
    SumUpdate(c, i, d[i]);
    assert d == c[i := d[i]];
  }

  lemma SameCost(h: Hashes, jobs: seq<Job>, s: State, t: State, i: nat, k: nat)
    requires Shape(s) && |s.stages| == |jobs| && OnlyStage(s, t, i) && k < |jobs| && k != i
    ensures Cost(h, jobs, t, k) == Cost(h, jobs, s, k)
  {
    assert t.chans[k].taken == s.chans[k].taken && t.chans[k + 1].log == s.chans[k + 1].log;
  }

  lemma MultiCostDrops(h: Hashes, w: Worker, a: Action, sh: Shared)
    requires w.MultiW? && MultiInv(h, w) && WorkerEnabled(w, a, sh, true)
    ensures WorkerCost(WorkerNext(h, w, a, sh)) < WorkerCost(w)
  {
    if a.SendPiece? {
      CountTrueSet(w.sent, a.th);
      CountTrueBounds(w.sent[a.th := true]);
    } else if a.Collect? {
      CountTrueBounds(w.sent);
    }
  }

  lemma WorkerCostDrops(h: Hashes, job: Job, w: Worker, a: Action, sh: Shared)
    requires Fans(job) && WorkerInv(h, job, w) && WorkerEnabled(w, a, sh, true)
    requires a.OverheatLock? ==> !sh.overheat
    requires a.OverheatUnlock? ==> sh.overheat
    ensures WorkerCost(WorkerNext(h, w, a, sh)) < WorkerCost(w)
  {
    if job.MultiHash? {
      MultiCostDrops(h, w, a, sh);
    }
  }

  // A compare-and-swap is only ever tried when it succeeds.
  lemma CasSucceeds(s: State, i: nat, j: nat, a: Action)
    requires Shape(s) && SharedInv(s) && Enabled(s, Work(i, j, a))
    ensures a.OverheatLock? ==> !s.shared.overheat
    ensures a.OverheatUnlock? ==> s.shared.overheat
  {
    assert IdInv(s, (i, j));
  }

  lemma WorkCost(h: Hashes, st: Stage, in_: Chan, out: Chan, out': Chan, j: nat, a: Action, sh: Shared,
                 receives: nat, sends: nat)
    requires Fans(st.job) && j < |st.workers| && WorkerInv(h, st.job, st.workers[j])
    requires WorkerEnabled(st.workers[j], a, sh, true) && |out.log| <= |out'.log|
    requires a.OverheatLock? ==> !sh.overheat
    requires a.OverheatUnlock? ==> sh.overheat
    ensures var st' := st.(workers := st.workers[j := WorkerNext(h, st.workers[j], a, sh)]);
            CostOf(st', in_, out', receives, sends) < CostOf(st, in_, out, receives, sends)
  {
    WorkerCostDrops(h, st.job, st.workers[j], a, sh);
    WorkersCostUpdate(st.workers, j, WorkerNext(h, st.workers[j], a, sh));
  }

  lemma WorkDecreases(h: Hashes, jobs: seq<Job>, s: State, i: nat, j: nat, a: Action)
    requires Inv(h, jobs, s) && Enabled(s, Work(i, j, a))
    ensures var t := Next(h, s, Work(i, j, a)); |t.stages| == |jobs| && Measure(h, jobs, t) < Measure(h, jobs, s)
  {
    var st, t := s.stages[i], Next(h, s, Work(i, j, a));
    assert LocalInv(h, jobs, s, i) && ChanInv(s, i) && ChanInv(s, i + 1);
    assert Fans(st.job) && WorkerInv(h, st.job, st.workers[j]);
    CasSucceeds(s, i, j, a);
    WorkKeepsStages(h, jobs, s, i, j, a);
    WorkerStepInStage(h, st, s.chans[i], s.chans[i + 1], j, a, s.shared);
    WorkTouches(h, s, i, j, a);
    WorkCost(h, st, s.chans[i], s.chans[i + 1], t.chans[i + 1], j, a, s.shared, Most(h, jobs, i), Most(h, jobs, i + 1));
    MeasureDrops(h, jobs, s, t, i);
  }

  lemma PutDecreases(h: Hashes, jobs: seq<Job>, s: State, i: nat)
    requires Inv(h, jobs, s) && Enabled(s, Put(i))
    ensures var t := Next(h, s, Put(i)); |t.stages| == |jobs| && Measure(h, jobs, t) < Measure(h, jobs, s)
  {
    PutKeepsStages(h, jobs, s, i);
    StillToSend(h, jobs, s, i);
    MeasureDrops(h, jobs, s, Next(h, s, Put(i)), i);
  }

  lemma ReturnDecreases(h: Hashes, jobs: seq<Job>, s: State, i: nat)
    requires Inv(h, jobs, s) && Enabled(s, Return(i))
    ensures var t := Next(h, s, Return(i)); |t.stages| == |jobs| && Measure(h, jobs, t) < Measure(h, jobs, s)
  {
    ReturnKeepsStages(h, jobs, s, i);
    MeasureDrops(h, jobs, s, Next(h, s, Return(i)), i);
  }

  lemma SpawnCost(job: Job, v: string)
    requires Fans(job)
    ensures WorkerCost(Spawn(job, v)) < Turn(job)
  {
    if job.MultiHash? {
      var none := Spawn(job, v).sent;
      assert none[1..] == [false, false, false, false, false];
      assert none[1..][1..] == [false, false, false, false];
      assert none[1..][1..][1..] == [false, false, false];
    }
  }

  lemma AcceptCost(st: Stage, in_: Chan, out: Chan, receives: nat, sends: nat)
    requires in_.HasValue() && in_.taken < receives
    ensures CostOf(Accept(st, in_.log[in_.taken]), in_.(taken := in_.taken + 1), out, receives, sends)
          < CostOf(st, in_, out, receives, sends)
  {
    assert Missing(receives, in_.taken) == Missing(receives, in_.taken + 1) + 1;
    if Fans(st.job) {
      SpawnCost(st.job, in_.log[in_.taken]);
      WorkersCostAppend(st.workers, Spawn(st.job, in_.log[in_.taken]));
    }
  }

  lemma TakeTouches(h: Hashes, s: State, i: nat)
    requires Shape(s) && Enabled(s, Take(i))
    ensures var t, in_ := Next(h, s, Take(i)), s.chans[i];
            && OnlyStage(s, t, i)
            && t.stages[i] == Accept(s.stages[i], in_.log[in_.taken])
            && t.chans[i] == in_.(taken := in_.taken + 1)
            && t.chans[i + 1] == s.chans[i + 1]
  {
  }

  lemma TakeCost(h: Hashes, jobs: seq<Job>, s: State, i: nat)
    requires Shape(s) && |s.stages| == |jobs| && Enabled(s, Take(i)) && s.chans[i].taken < Most(h, jobs, i)
    ensures var t := Next(h, s, Take(i)); |t.stages| == |jobs| && Measure(h, jobs, t) < Measure(h, jobs, s)
  {
    var t := Next(h, s, Take(i));
    TakeTouches(h, s, i);
    TouchedCost(h, jobs, s, t, i);
    MeasureDrops(h, jobs, s, t, i);
  }

  lemma TouchedCost(h: Hashes, jobs: seq<Job>, s: State, t: State, i: nat)
    requires Shape(s) && Shape(t) && i < |s.stages| == |t.stages| == |jobs|
    requires s.chans[i].HasValue() && s.chans[i].taken < Most(h, jobs, i)
    requires t.stages[i] == Accept(s.stages[i], s.chans[i].log[s.chans[i].taken])
    requires t.chans[i] == s.chans[i].(taken := s.chans[i].taken + 1) && t.chans[i + 1] == s.chans[i + 1]
    ensures Cost(h, jobs, t, i) < Cost(h, jobs, s, i)
  {
    AcceptCost(s.stages[i], s.chans[i], s.chans[i + 1], Most(h, jobs, i), Most(h, jobs, i + 1));
  }

  lemma TakeDecreases(h: Hashes, jobs: seq<Job>, s: State, i: nat)
    requires Inv(h, jobs, s) && Enabled(s, Take(i))
    ensures var t := Next(h, s, Take(i)); |t.stages| == |jobs| && Measure(h, jobs, t) < Measure(h, jobs, s)
  {
    LogSize(h, jobs, s, i);
    TakeCost(h, jobs, s, i);
  }

  lemma StepDecreases(h: Hashes, jobs: seq<Job>, s: State, l: Label)
    requires Inv(h, jobs, s) && Enabled(s, l)
    ensures var t := Next(h, s, l); |t.stages| == |jobs| && Measure(h, jobs, t) < Measure(h, jobs, s)
  {
    match l
    case Put(i) => PutDecreases(h, jobs, s, i);
    case Take(i) => TakeDecreases(h, jobs, s, i);
    case Work(i, j, a) => WorkDecreases(h, jobs, s, i, j, a);
    case Return(i) => ReturnDecreases(h, jobs, s, i);
  }

  lemma {:induction false} RunIsBounded(h: Hashes, jobs: seq<Job>, s: State, ls: seq<Label>, t: State)
    requires Inv(h, jobs, s) && Reaches(h, s, ls, t)
    ensures Shape(t) && |t.stages| == |jobs| && |ls| + Measure(h, jobs, t) <= Measure(h, jobs, s)
    decreases |ls|
  {
    if ls != [] {
      StepDecreases(h, jobs, s, ls[0]);
      StepKeepsInv(h, jobs, s, ls[0]);
      RunIsBounded(h, jobs, Next(h, s, ls[0]), ls[1..], t);
    }
  }

  /** ExecutePipeline returns, for any jobs. No schedule is longer than a number fixed by them, and a run
      that cannot be continued is one in which every job has returned exactly when no outcome that its
      channels carry leaves more behind than a slot holds. */
  lemma EveryRunEnds(h: Hashes, jobs: seq<Job>, ls: seq<Label>, t: State)
    requires Chain(jobs) && Reaches(h, Init(jobs), ls, t)
    ensures Shape(t) && |ls| <= Measure(h, jobs, Init(jobs))
    ensures Stuck(t) ==> (AllDone(t) <==> forall w :: Tracks(h, jobs, t, w) ==> LeavesOne(jobs, w))
  {
    InitInv(h, jobs);
    RunKeepsInv(h, jobs, Init(jobs), ls, t);
    RunIsBounded(h, jobs, Init(jobs), ls, t);
    if AllDone(t) {
      forall w | Tracks(h, jobs, t, w) ensures LeavesOne(jobs, w) {
        DoneLeavesOne(h, jobs, t, w);
      }
    } else {
      var w := SomeTrack(h, jobs, t);
      if LeavesOne(jobs, w) {
        var l := NoDeadlock(h, jobs, t, w);
      }
    }
  }

  lemma StepThen(h: Hashes, s: State, l: Label, rest: seq<Label>, u: State)
    requires Shape(s) && Enabled(s, l) && Reaches(h, Next(h, s, l), rest, u)
    ensures Reaches(h, s, [l] + rest, u)
  {
    assert ([l] + rest)[1..] == rest;
  }

  lemma {:induction false} Complete(h: Hashes, jobs: seq<Job>, s: State) returns (ls: seq<Label>, t: State)
    requires Inv(h, jobs, s) && AllLeaveOne(h, jobs)
    ensures Reaches(h, s, ls, t) && AllDone(t)
    decreases Measure(h, jobs, s)
  {
    if AllDone(s) {
      ls, t := [], s;
    } else {
      var w := SomeTrack(h, jobs, s);
      var l := NoDeadlock(h, jobs, s, w);
      StepDecreases(h, jobs, s, l);
      StepKeepsInv(h, jobs, s, l);
      var rest, u := Complete(h, jobs, Next(h, s, l));
      StepThen(h, s, l, rest, u);
      ls, t := [l] + rest, u;
    }
  }

  /** If no outcome leaves more behind, then from every state a run can reach there is a schedule that
      completes it. */
  lemma CanComplete(h: Hashes, jobs: seq<Job>, ls: seq<Label>, s: State) returns (ms: seq<Label>, t: State)
    requires Chain(jobs) && AllLeaveOne(h, jobs) && Reaches(h, Init(jobs), ls, s)
    ensures Shape(s) && Reaches(h, s, ms, t) && AllDone(t)
  {
    InitInv(h, jobs);
    RunKeepsInv(h, jobs, Init(jobs), ls, s);
    ms, t := Complete(h, jobs, s);
  }
}
