/** The schedules of a pipeline and its outcomes without goroutines are the same thing: what complete
    runs carry are the outcomes that leave no more behind than a slot holds, and every run completes
    exactly when there are no others. */
module PipelineSchedules {
  import opened Pipeline
  import opened PipelineInvariant
  import opened PipelineOutcomes
  import opened PipelineProgress
  import opened PipelineValues

  // What a step of stage i adds to its output, if that is a hashing stage.
  function Added(s: State, l: Label): seq<string>
    requires Shape(s) && Enabled(s, l)
  {
    if Emits(l) then [s.stages[l.stage].workers[l.worker].parent.value] else []
  }

  lemma WorkAdds(h: Hashes, jobs: seq<Job>, s: State, l: Label)
    requires Inv(h, jobs, s) && Enabled(s, l) && l.Work?
    ensures OnlyStage(s, Next(h, s, l), l.stage)
    ensures Next(h, s, l).chans[l.stage + 1].log == s.chans[l.stage + 1].log + Added(s, l)
  {
    WorkKeepsStages(h, jobs, s, l.stage, l.worker, l.action);
    WorkTouches(h, s, l.stage, l.worker, l.action);
  }

  lemma StepTouches(h: Hashes, jobs: seq<Job>, s: State, l: Label)
    requires Inv(h, jobs, s) && Enabled(s, l)
    ensures OnlyStage(s, Next(h, s, l), l.stage)
    ensures Fans(jobs[l.stage]) ==> Next(h, s, l).chans[l.stage + 1].log == s.chans[l.stage + 1].log + Added(s, l)
  {
    var i := l.stage;
    assert LocalInv(h, jobs, s, i);
    match l
    case Put(_) => PutKeepsStages(h, jobs, s, i);
    case Take(_) => TakeTouches(h, s, i);
    case Work(_, _, _) => WorkAdds(h, jobs, s, l);
    case Return(_) => ReturnKeepsStages(h, jobs, s, i);
  }

  // A step on track leaves the channels carrying the same outcome.
  lemma TrackStep(h: Hashes, jobs: seq<Job>, s: State, w: seq<seq<string>>, l: Label)
    requires Inv(h, jobs, s) && Tracks(h, jobs, s, w) && Enabled(s, l) && OnTrack(s, w, l)
    ensures Inv(h, jobs, Next(h, s, l)) && Tracks(h, jobs, Next(h, s, l), w)
  {
    var t, i := Next(h, s, l), l.stage;
    StepKeepsInv(h, jobs, s, l);
    StepTouches(h, jobs, s, l);
    forall k | 0 <= k < |w| ensures Carries(t.chans[k], w[k]) {
      assert Carries(s.chans[k], w[k]);
      if k == i + 1 {
        assert Carries(s.chans[i], w[i]) && LocalInv(h, jobs, t, i);
        StageSends(h, t.stages[i], t.chans[i], t.chans[i + 1], w[i], w[i + 1]);
      }
    }
  }

  // A schedule that follows an outcome as far as that goes.
  lemma {:induction false} Follow(h: Hashes, jobs: seq<Job>, s: State, w: seq<seq<string>>)
      returns (ls: seq<Label>, t: State)
    requires Inv(h, jobs, s) && Tracks(h, jobs, s, w)
    ensures Reaches(h, s, ls, t) && Inv(h, jobs, t) && Tracks(h, jobs, t, w)
    ensures AllDone(t) || exists i: nat :: Blocked(t, i)
    decreases Measure(h, jobs, s)
  {
    if AllDone(s) {
      ls, t := [], s;
    } else {
      var i := LastActive(s);
      if Waiting(s.stages[i], s.chans[i]) && !s.chans[i + 1].Room() {
        ls, t := [], s;
        assert Blocked(t, i);
      } else {
        var l := StageProgress(h, jobs, s, w, i);
        TrackStep(h, jobs, s, w, l);
        StepDecreases(h, jobs, s, l);
        var rest, u := Follow(h, jobs, Next(h, s, l), w);
        StepThen(h, s, l, rest, u);
        ls, t := [l] + rest, u;
      }
    }
  }

  lemma InitTracks(h: Hashes, jobs: seq<Job>, w: seq<seq<string>>)
    requires Outcomes(h, jobs, w)
    ensures Tracks(h, jobs, Init(jobs), w)
  {
  }

  lemma BlockedLeavesMore(h: Hashes, jobs: seq<Job>, s: State, w: seq<seq<string>>, i: nat)
    requires Inv(h, jobs, s) && Tracks(h, jobs, s, w) && Blocked(s, i)
    ensures !LeavesOne(jobs, w)
  {
    if LeavesOne(jobs, w) { OutputLeft(h, jobs, s, w, i); }
  }

  function Logs(s: State): (w: seq<seq<string>>)
    ensures |w| == |s.chans| && forall k :: 0 <= k < |w| ==> w[k] == s.chans[k].log
  {
    seq(|s.chans|, k requires 0 <= k < |s.chans| => s.chans[k].log)
  }

  // What channels can have carried when wg.Wait returns.
  ghost predicate Completed(h: Hashes, jobs: seq<Job>, w: seq<seq<string>>) {
    exists ls, t :: Reaches(h, Init(jobs), ls, t) && Shape(t) && AllDone(t) && Logs(t) == w
  }

  // Every outcome that leaves no more behind is carried by some complete run.
  lemma Realize(h: Hashes, jobs: seq<Job>, w: seq<seq<string>>) returns (ls: seq<Label>, t: State)
    requires Chain(jobs) && Outcomes(h, jobs, w) && LeavesOne(jobs, w)
    ensures Reaches(h, Init(jobs), ls, t) && Shape(t) && AllDone(t) && Logs(t) == w
  {
    InitInv(h, jobs);
    InitTracks(h, jobs, w);
    ls, t := Follow(h, jobs, Init(jobs), w);
    if i: nat :| Blocked(t, i) { BlockedLeavesMore(h, jobs, t, w, i); }
    DoneLeavesOne(h, jobs, t, w);
  }

  /** Complete runs compute, in any order of arrival, exactly what the jobs compute one after the other
      without goroutines and leaving no more behind than a slot holds; for any jobs. */
  lemma CompleteRunsAreOutcomes(h: Hashes, jobs: seq<Job>, w: seq<seq<string>>)
    requires Chain(jobs)
    ensures Completed(h, jobs, w) <==> Outcomes(h, jobs, w) && LeavesOne(jobs, w)
  {
    if ls, t :| Reaches(h, Init(jobs), ls, t) && Shape(t) && AllDone(t) && Logs(t) == w {
      InitInv(h, jobs);
      RunKeepsInv(h, jobs, Init(jobs), ls, t);
      var v := SomeTrack(h, jobs, t);
      DoneLeavesOne(h, jobs, t, v);
      assert v == w;
    }
    if Outcomes(h, jobs, w) && LeavesOne(jobs, w) {
      var ls, t := Realize(h, jobs, w);
    }
  }

  lemma KeepsSending(h: Hashes, job: Job, w: Worker, a: Action, sh: Shared)
    requires Fans(job) && WorkerInv(h, job, w) && w.parent.Sending? && WorkerEnabled(w, a, sh, true) && !a.Emit?
    ensures WorkerNext(h, w, a, sh).parent == w.parent
  {
  }

  // A stage that waits goes on waiting while its output is full.
  lemma WaitingStays(h: Hashes, jobs: seq<Job>, s: State, l: Label)
    requires Inv(h, jobs, s) && Enabled(s, l) && Blocked(s, l.stage)
    ensures var t := Next(h, s, l); Shape(t) && Blocked(t, l.stage)
  {
    var i := l.stage;
    var st, t := s.stages[i], Next(h, s, l);
    assert LocalInv(h, jobs, s, i);
    if Fans(st.job) {
      var j :| 0 <= j < |st.workers| && st.workers[j].parent.Sending?;
      assert l.Take? || l.Work?;
      if l.Work? && l.worker == j { KeepsSending(h, st.job, st.workers[j], l.action, s.shared); }
      assert t.stages[i].workers[j].parent.Sending?;
    }
  }

  // The receiver has returned, and whatever its goroutines still do is not seen.
  lemma ReturnedIsSilent(h: Hashes, jobs: seq<Job>, s: State, l: Label)
    requires Inv(h, jobs, s) && Enabled(s, l) && s.stages[l.stage].done
    ensures Next(h, s, l).chans == s.chans && Next(h, s, l).stages[l.stage].done
  {
    assert LocalInv(h, jobs, s, l.stage);
    var st := s.stages[l.stage];
    assert l.Work? && st.workers[l.worker].parent.Exited?;
    WorkerStep(h, st.job, st.workers[l.worker], l.action, s.shared);
  }

  lemma InputOfWaiting(st: Stage, in_: Chan, in': Chan)
    requires in_.Within() && Waiting(st, in_) && in'.taken == in_.taken && (in_.closed ==> in' == in_)
    ensures Waiting(st, in')
  {
  }

  // A deadlock is for good.
  lemma BlockedStays(h: Hashes, jobs: seq<Job>, s: State, l: Label, i: nat)
    requires Inv(h, jobs, s) && Enabled(s, l) && Blocked(s, i)
    ensures var t := Next(h, s, l); Shape(t) && Blocked(t, i)
  {
    var t := Next(h, s, l);
    StepTouches(h, jobs, s, l);
    if l.stage == i {
      WaitingStays(h, jobs, s, l);
    } else {
      if l.stage == i + 1 { ReturnedIsSilent(h, jobs, s, l); }
      assert ChanInv(s, i);
      InputOfWaiting(s.stages[i], s.chans[i], t.chans[i]);
    }
  }

  lemma {:induction false} BlockedRun(h: Hashes, jobs: seq<Job>, s: State, ls: seq<Label>, t: State, i: nat)
    requires Inv(h, jobs, s) && Blocked(s, i) && Reaches(h, s, ls, t)
    ensures Shape(t) && Blocked(t, i)
    decreases |ls|
  {
    if ls != [] {
      BlockedStays(h, jobs, s, ls[0], i);
      StepKeepsInv(h, jobs, s, ls[0]);
      BlockedRun(h, jobs, Next(h, s, ls[0]), ls[1..], t, i);
    }
  }

  lemma FirstStep(h: Hashes, s: State, ls: seq<Label>, t: State) returns (v: State)
    requires Shape(s) && ls != [] && Reaches(h, s, ls, t)
    ensures Enabled(s, ls[0]) && v == Next(h, s, ls[0]) && Shape(v) && Reaches(h, v, ls[1..], t)
  {
    v := Next(h, s, ls[0]);
  }

  lemma LastSteps(h: Hashes, s: State, a: seq<Label>, v: State, b: seq<Label>, u: State)
    requires Shape(s) && a != [] && Enabled(s, a[0]) && v == Next(h, s, a[0]) && Reaches(h, v, a[1..] + b, u)
    ensures Reaches(h, s, a + b, u)
  {
    assert [a[0]] + (a[1..] + b) == a + b;
    StepThen(h, s, a[0], a[1..] + b, u);
  }

  lemma {:induction false} ReachesOn(h: Hashes, s: State, a: seq<Label>, t: State, b: seq<Label>, u: State)
    requires Shape(s) && Reaches(h, s, a, t) && Shape(t) && Reaches(h, t, b, u)
    ensures Reaches(h, s, a + b, u)
    decreases |a|
  {
    if a == [] {
      assert a + b == b;
    } else {
      var v := FirstStep(h, s, a, t);
      ReachesOn(h, v, a[1..], t, b, u);
      LastSteps(h, s, a, v, b, u);
    }
  }

  // Every run can be continued until nothing can step.
  lemma {:induction false} Finish(h: Hashes, jobs: seq<Job>, s: State) returns (ls: seq<Label>, t: State)
    requires Inv(h, jobs, s)
    ensures Reaches(h, s, ls, t) && Shape(t) && Stuck(t)
    decreases Measure(h, jobs, s)
  {
    if Stuck(s) {
      ls, t := [], s;
    } else {
      var l :| Enabled(s, l);
      StepDecreases(h, jobs, s, l);
      StepKeepsInv(h, jobs, s, l);
      var rest, u := Finish(h, jobs, Next(h, s, l));
      StepThen(h, s, l, rest, u);
      ls, t := [l] + rest, u;
    }
  }

  // A run from the start that cannot go on.
  ghost predicate MaximalRun(h: Hashes, jobs: seq<Job>, ls: seq<Label>, t: State) {
    Reaches(h, Init(jobs), ls, t) && Shape(t) && Stuck(t)
  }

  // An outcome that leaves more behind leads to a deadlock.
  lemma SomeRunDeadlocks(h: Hashes, jobs: seq<Job>, w: seq<seq<string>>) returns (ls: seq<Label>, t: State)
    requires Chain(jobs) && Outcomes(h, jobs, w) && !LeavesOne(jobs, w)
    ensures MaximalRun(h, jobs, ls, t) && !AllDone(t)
  {
    InitInv(h, jobs);
    InitTracks(h, jobs, w);
    var before, s := Follow(h, jobs, Init(jobs), w);
    if AllDone(s) { DoneLeavesOne(h, jobs, s, w); }
    var i: nat :| Blocked(s, i);
    var after, u := Finish(h, jobs, s);
    BlockedRun(h, jobs, s, after, u, i);
    ReachesOn(h, Init(jobs), before, s, after, u);
    ls, t := before + after, u;
  }

  /** Freedom from deadlock, for any jobs: every run that cannot go on is complete, whatever the
      schedule, exactly when no outcome of the jobs leaves more behind than a slot holds. */
  lemma EveryRunCompletesIff(h: Hashes, jobs: seq<Job>)
    requires Chain(jobs)
    ensures (forall ls, t :: MaximalRun(h, jobs, ls, t) ==> AllDone(t)) <==> AllLeaveOne(h, jobs)
  {
    if AllLeaveOne(h, jobs) {
      forall ls, t | MaximalRun(h, jobs, ls, t) ensures AllDone(t) {
        EveryRunEnds(h, jobs, ls, t);
      }
    } else {
      var w :| Outcomes(h, jobs, w) && !LeavesOne(jobs, w);
      var ls, t := SomeRunDeadlocks(h, jobs, w);
    }
  }

  /** In particular when every job behind the first reads its whole input and the last one never sends
      more than one value. */
  lemma ConsumersComplete(h: Hashes, jobs: seq<Job>, ls: seq<Label>, t: State)
    requires Chain(jobs) && Reaches(h, Init(jobs), ls, t)
    requires (forall i :: 0 < i < |jobs| ==> Consumes(jobs[i])) && SendsOne(h, jobs[|jobs| - 1])
    ensures Shape(t) && |ls| <= Measure(h, jobs, Init(jobs)) && (Stuck(t) ==> AllDone(t))
  {
    EveryRunEnds(h, jobs, ls, t);
    ConsumersLeaveOne(h, jobs);
  }
}
