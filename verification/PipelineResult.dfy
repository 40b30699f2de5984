/** What the pipeline computes, whatever the schedule, and what its locks guarantee. */
module PipelineResult {
  import opened Text
  import opened Pipeline
  import opened PipelineInvariant
  import opened PipelineOutcomes
  import opened PipelineProgress
  import opened PipelineSchedules
  import opened PipelineValues

  // A stage that has returned has sent exactly what its job makes of what came into its input; a job
  // that does not fan out has sent it in order.
  lemma StageOutput(h: Hashes, jobs: seq<Job>, s: State, i: nat)
    requires Inv(h, jobs, s) && i < |jobs| && s.stages[i].done
    ensures multiset(s.chans[i + 1].log) == multiset(Output(h, jobs[i], s.chans[i].log))
    ensures jobs[i].Proc? ==> s.chans[i + 1].log == Output(h, jobs[i], s.chans[i].log)
    ensures i > 0 ==> s.stages[i - 1].done || (jobs[i].Proc? && jobs[i].stop(s.stages[i].acc))
  {
    assert LocalInv(h, jobs, s, i);
    DoneStageOutput(h, s.stages[i], s.chans[i], s.chans[i + 1]);
    if i > 0 {
      assert LocalInv(h, jobs, s, i - 1);
    }
  }

  lemma DoneStageOutput(h: Hashes, st: Stage, in_: Chan, out: Chan)
    requires in_.Within() && StageInv(h, st, in_, out) && st.done
    ensures multiset(out.log) == multiset(Output(h, st.job, in_.log))
    ensures st.job.Proc? ==> out.log == Output(h, st.job, in_.log)
  {
    if in_.Exhausted() {
      assert in_.log[..in_.taken] == in_.log;
    }
    if st.job.Proc? {
      ProcSent(h, st, in_, out, in_.log);
    } else {
      assert !Unsent(st.workers) && WorkersInv(h, st.job, st.workers, in_.log);
      EmittedWithin(h, st.job, st.workers, in_.log);
    }
  }

  lemma PrefixIsPart(h: Hashes, jobs: seq<Job>, k: nat, whole: seq<string>, log: seq<string>)
    requires k <= |jobs| && Whole(h, jobs, k, whole) && log <= whole
    ensures Part(h, jobs, k, log)
  {
    PrefixMultiset(whole, |log|);
    assert whole[..|log|] == log;
  }

  /** At any moment of any run a channel has carried part of what the jobs before it, composed
      without goroutines, are expected to send, and all of it when it is closed; in their order, where
      the jobs leave one. */
  lemma LogWithinExpected(h: Hashes, jobs: seq<Job>, s: State, k: nat)
    requires Inv(h, jobs, s) && k <= |jobs| && forall i :: 0 <= i < k ==> Settled(h, jobs, i)
    ensures Part(h, jobs, k, s.chans[k].log)
    ensures s.chans[k].closed ==> Whole(h, jobs, k, s.chans[k].log)
  {
    var w := SomeTrack(h, jobs, s);
    OutcomeIsWhole(h, jobs, w, k);
    assert Carries(s.chans[k], w[k]);
    PrefixIsPart(h, jobs, k, w[k], s.chans[k].log);
  }

  /** What a complete run computes: every channel has carried what the jobs before it, composed
      without goroutines, send -- the same values as often, and in the same order where that is fixed:
      until the values have gone through a hashing job, and again behind CombineResults. */
  lemma CompleteRun(h: Hashes, jobs: seq<Job>, ls: seq<Label>, t: State, k: nat)
    requires Chain(jobs) && Determined(h, jobs) && k <= |jobs|
    requires Reaches(h, Init(jobs), ls, t) && Shape(t) && AllDone(t)
    ensures |t.chans| == |jobs| + 1
    ensures multiset(t.chans[k].log) == multiset(Expected(h, jobs, k))
    ensures Ordered(h, jobs, k) ==> t.chans[k].log == Expected(h, jobs, k)
  {
    InitInv(h, jobs);
    RunKeepsInv(h, jobs, Init(jobs), ls, t);
    LogWithinExpected(h, jobs, t, k);
    if k > 0 {
      assert LocalInv(h, jobs, t, k - 1);
    }
  }

  /** The outcome does not depend on the schedule: two complete runs of the same jobs send the same
      values, with the same multiplicity, on every channel, and the same sequence where CompleteRun
      fixes it. */
  lemma ScheduleIndependence(h: Hashes, jobs: seq<Job>, ls: seq<Label>, s: State, ms: seq<Label>, t: State, k: nat)
    requires Chain(jobs) && Determined(h, jobs) && k <= |jobs|
    requires Reaches(h, Init(jobs), ls, s) && Shape(s) && AllDone(s)
    requires Reaches(h, Init(jobs), ms, t) && Shape(t) && AllDone(t)
    ensures |s.chans| == |t.chans| == |jobs| + 1
    ensures multiset(s.chans[k].log) == multiset(t.chans[k].log)
    ensures Ordered(h, jobs, k) ==> s.chans[k].log == t.chans[k].log
  {
    CompleteRun(h, jobs, ls, s, k);
    CompleteRun(h, jobs, ms, t, k);
  }

  /** Where the order of arrival does not matter, one outcome speaks for all: a run that cannot go on is
      complete exactly when the sequential composition leaves no more behind than a slot holds. */
  lemma DeterminedRunEnds(h: Hashes, jobs: seq<Job>, ls: seq<Label>, t: State)
    requires Chain(jobs) && Determined(h, jobs) && Reaches(h, Init(jobs), ls, t)
    ensures Shape(t) && (Stuck(t) ==> (AllDone(t) <==> LeavesOne(jobs, Sequential(h, jobs))))
  {
    InitInv(h, jobs);
    RunKeepsInv(h, jobs, Init(jobs), ls, t);
    var w := SomeTrack(h, jobs, t);
    DeterminedLeavesOne(h, jobs, w);
    if AllDone(t) {
      DoneLeavesOne(h, jobs, t, w);
    } else if LeavesOne(jobs, w) {
      var l := NoDeadlock(h, jobs, t, w);
    }
  }

  // A job that sends on the first value it receives.
  function OnlyFirst(vals: seq<string>, v: string): seq<string> { if vals == [] then [v] else [] }

  function KeepFirst(): Job { Proc([], Never, OnlyFirst, Nothing) }

  lemma {:induction false} KeepFirstStream(vals: seq<string>)
    requires vals != []
    ensures Stream(KeepFirst(), vals) == [vals[0]]
    decreases |vals|
  {
    var init, v := vals[..|vals| - 1], vals[|vals| - 1];
    assert Stream(KeepFirst(), vals) == Stream(KeepFirst(), init) + OnlyFirst(init, v);
    if init != [] { KeepFirstStream(init); }
  }

  lemma KeepFirstOutput(h: Hashes, vals: seq<string>)
    requires vals != []
    ensures Cut(KeepFirst(), vals) == vals && Output(h, KeepFirst(), vals) == [vals[0]]
  {
    var job := KeepFirst();
    assert forall n :: 0 <= n <= |vals| ==> job.stop(vals[..n]) == Never(vals[..n]);
    NeverTakesAll(job, vals, 0);
    KeepFirstStream(vals);
    assert job.g(vals) == Nothing(vals);
  }

  // Behind SingleHash such a job can send on either of two values.
  lemma KeepFirstOutcome(h: Hashes, a: string, b: string, x: string, y: string) returns (w: seq<seq<string>>)
    requires multiset([x, y]) == multiset([Single(h, a), Single(h, b)])
    ensures var jobs := [Source([a, b]), SingleHash, KeepFirst(), Drain()];
            Outcomes(h, jobs, w) && LeavesOne(jobs, w) && w[3] == [x]
  {
    var jobs := [Source([a, b]), SingleHash, KeepFirst(), Drain()];
    w := [[], [a, b], [x, y], [x], []];
    SourceOutput(h, [a, b], []);
    assert HashAll(h, SingleHash, [a, b]) == [Single(h, a), Single(h, b)];
    KeepFirstOutput(h, [x, y]);
    DrainOutput(h, [x]);
    forall i | 0 <= i < |jobs|
      ensures Outcome(h, jobs[i], w[i], w[i + 1]) && |w[i]| <= |Cut(jobs[i], w[i])| + 1
    {
      assert i == 0 || i == 1 || i == 2 || i == 3;
    }
  }

  lemma KeepFirstCompletes(h: Hashes, jobs: seq<Job>, last: nat)
    requires |jobs| == last + 1 == 4 && jobs[1].SingleHash? && jobs[2] == KeepFirst() && jobs[3] == Drain()
    ensures AllLeaveOne(h, jobs)
  {
    forall i | 0 < i < |jobs| ensures Consumes(jobs[i]) {
      assert i == 1 || i == 2 || i == 3;
      if i > 1 { forall vals ensures !jobs[i].stop(vals) { assert jobs[i].stop(vals) == Never(vals); } }
    }
    forall a, b | Outcome(h, jobs[last], a, b) ensures |b| <= 1 {
      DrainOutput(h, a);
    }
    ConsumersLeaveOne(h, jobs);
  }

  /** That the jobs must not look at an order that is left open is needed: of this chain, which always
      completes, two complete runs carry different values. */
  lemma OrderMatters(h: Hashes, a: string, b: string) returns (ls: seq<Label>, s: State, ms: seq<Label>, t: State)
    requires Single(h, a) != Single(h, b)
    ensures AllLeaveOne(h, [Source([a, b]), SingleHash, KeepFirst(), Drain()])
    ensures var start := Init([Source([a, b]), SingleHash, KeepFirst(), Drain()]);
            && Reaches(h, start, ls, s) && Shape(s) && AllDone(s)
            && Reaches(h, start, ms, t) && Shape(t) && AllDone(t)
            && |s.chans| == |t.chans| == 5 && s.chans[3].log == [Single(h, a)] != [Single(h, b)] == t.chans[3].log
  {
    var jobs := [Source([a, b]), SingleHash, KeepFirst(), Drain()];
    assert jobs[0].stop([]) == AtOnce([]);
    KeepFirstCompletes(h, jobs, 3);
    var v := KeepFirstOutcome(h, a, b, Single(h, a), Single(h, b));
    var w := KeepFirstOutcome(h, a, b, Single(h, b), Single(h, a));
    ls, s := Realize(h, jobs, v);
    ms, t := Realize(h, jobs, w);
  }

  /** The free-flowing chain of the homework: a source, a job that sends something for every value, and
      one that only collects. Every run that cannot go on is complete, and the collector has received
      what was made of the items, in their order. */
  lemma FreeFlow(h: Hashes, items: seq<string>, f: string -> seq<string>, ls: seq<Label>, t: State)
    requires Reaches(h, Init([Source(items), Each(f), Drain()]), ls, t)
    ensures Shape(t) && |t.stages| == 3
    ensures Stuck(t) ==> AllDone(t) && t.chans[2].log == EachAll(f, items)
  {
    var jobs := [Source(items), Each(f), Drain()];
    InitInv(h, jobs);
    RunKeepsInv(h, jobs, Init(jobs), ls, t);
    if Stuck(t) {
      FreeFlowSettled(h, jobs, items, f, 2);
      FreeFlowExpected(h, jobs, items, f, 2);
      DeterminedRunEnds(h, jobs, ls, t);
      CompleteRun(h, jobs, ls, t, 2);
    }
  }

  lemma FreeFlowSettled(h: Hashes, jobs: seq<Job>, items: seq<string>, f: string -> seq<string>, last: nat)
    requires jobs == [Source(items), Each(f), Drain()] && last == 2
    ensures Determined(h, jobs) && Ordered(h, jobs, last)
  {
    OrderedIsSettled(h, jobs, last - 2);
    ProcKeepsOrder(h, jobs, last - 2);
    OrderedIsSettled(h, jobs, last - 1);
    ProcKeepsOrder(h, jobs, last - 1);
    OrderedIsSettled(h, jobs, last);
    forall i | 0 <= i < |jobs| ensures Settled(h, jobs, i) {
      assert i == last - 2 || i == last - 1 || i == last;
    }
  }

  lemma FreeFlowExpected(h: Hashes, jobs: seq<Job>, items: seq<string>, f: string -> seq<string>, last: nat)
    requires jobs == [Source(items), Each(f), Drain()] && last == 2
    ensures Expected(h, jobs, last) == EachAll(f, items) && LeavesOne(jobs, Sequential(h, jobs))
  {
    SourceOutput(h, items, []);
    ExpectedNext(h, jobs, last - 2, []);
    EachOutput(h, f, items);
    ExpectedNext(h, jobs, last - 1, items);
    DrainOutput(h, EachAll(f, items));
    ExpectedNext(h, jobs, last, EachAll(f, items));
    forall i | 0 <= i < |jobs| ensures Total(h, jobs, i) <= |Cut(jobs[i], Expected(h, jobs, i))| + 1 {
      assert i == last - 2 || i == last - 1 || i == last;
    }
  }

  lemma DrainOutput(h: Hashes, vals: seq<string>)
    ensures Cut(Drain(), vals) == vals && Output(h, Drain(), vals) == []
  {
    var job := Drain();
    assert forall n :: 0 <= n <= |vals| ==> job.stop(vals[..n]) == Never(vals[..n]);
    NeverTakesAll(job, vals, 0);
    QuietOutput(h, job, vals);
  }

  lemma ExpectedNext(h: Hashes, jobs: seq<Job>, k: nat, vals: seq<string>)
    requires k < |jobs| && Expected(h, jobs, k) == vals
    ensures Expected(h, jobs, k + 1) == Output(h, jobs[k], vals)
  {
  }

  // The text hw2.md asks for.
  function SignerText(h: Hashes, items: seq<string>): string {
    Join(Sort(HashAll(h, MultiHash, HashAll(h, SingleHash, items))), "_")
  }

  // What it asks for one item, in terms of the two hash functions alone.
  function Signature(h: Hashes, item: string): string {
    var s := h.crc(item) + "~" + h.crc(h.md5(item));
    h.crc("0" + s) + h.crc("1" + s) + h.crc("2" + s) + h.crc("3" + s) + h.crc("4" + s) + h.crc("5" + s)
  }

  function Signatures(h: Hashes, items: seq<string>): (r: seq<string>)
    ensures |r| == |items| && forall k :: 0 <= k < |items| ==> r[k] == Signature(h, items[k])
  {
    seq(|items|, k requires 0 <= k < |items| => Signature(h, items[k]))
  }

  // The signatures of the items, each as often as it occurs, ascending, with underscores between them.
  ghost predicate Signs(h: Hashes, items: seq<string>, text: string) {
    exists parts: seq<string> ::
      && multiset(parts) == multiset(Signatures(h, items))
      && (forall i, j :: 0 <= i < j < |parts| ==> Ascends(parts[i], parts[j]))
      && text == Join(parts, "_")
  }

  lemma PiecesJoined(p: seq<string>)
    requires |p| == 6
    ensures Join(p, "") == p[0] + p[1] + p[2] + p[3] + p[4] + p[5]
  {
    assert p[5..] == [p[5]];
    assert Join(p[5..], "") == p[5];
    assert p[4..][0] == p[4] && p[4..][1..] == p[5..] && Join(p[4..], "") == p[4] + p[5];
    assert p[3..][0] == p[3] && p[3..][1..] == p[4..] && Join(p[3..], "") == p[3] + (p[4] + p[5]);
    assert p[2..][0] == p[2] && p[2..][1..] == p[3..] && Join(p[2..], "") == p[2] + (p[3] + (p[4] + p[5]));
    assert p[1..][0] == p[1] && p[1..][1..] == p[2..];
    assert Join(p[1..], "") == p[1] + (p[2] + (p[3] + (p[4] + p[5])));
  }

  lemma MultiOfSingle(h: Hashes, item: string)
    ensures Hash(h, MultiHash, Hash(h, SingleHash, item)) == Signature(h, item)
  {
    var s := Single(h, item);
    var p := seq(6, th requires 0 <= th < 6 => Piece(h, s, th));
    PiecesJoined(p);
    assert p[0] == h.crc("0" + s) && p[1] == h.crc("1" + s) && p[2] == h.crc("2" + s);
    assert p[3] == h.crc("3" + s) && p[4] == h.crc("4" + s) && p[5] == h.crc("5" + s);
  }

  lemma SignerSigns(h: Hashes, items: seq<string>)
    ensures Signs(h, items, SignerText(h, items))
  {
    var hashes := HashAll(h, MultiHash, HashAll(h, SingleHash, items));
    forall k | 0 <= k < |items| ensures hashes[k] == Signature(h, items[k]) { MultiOfSingle(h, items[k]); }
    assert hashes == Signatures(h, items);
    SortAscends(hashes);
  }

  // The jobs of hw2.md, and possibly more behind them.
  ghost predicate Signer(items: seq<string>, jobs: seq<Job>) {
    |jobs| >= 4 && jobs[0] == Source(items) && jobs[1].SingleHash? && jobs[2].MultiHash? && jobs[3] == CombineResults()
  }

  lemma SignerExpected(h: Hashes, items: seq<string>, jobs: seq<Job>, last: nat)
    requires Signer(items, jobs) && last == 3
    ensures Expected(h, jobs, last + 1) == [SignerText(h, items)]
  {
    var singles := HashAll(h, SingleHash, items);
    var multis := HashAll(h, MultiHash, singles);
    assert Expected(h, jobs, last) == multis by {
      assert Expected(h, jobs, last - 1) == singles by {
        SourceOutput(h, items, []);
        ExpectedNext(h, jobs, last - 3, []);
        ExpectedNext(h, jobs, last - 2, items);
      }
      ExpectedNext(h, jobs, last - 1, singles);
    }
    CombineOutput(h, multis);
    ExpectedNext(h, jobs, last, multis);
  }

  lemma SignerSettled(h: Hashes, items: seq<string>, jobs: seq<Job>, i: nat, last: nat)
    requires Signer(items, jobs) && i <= last == 3
    ensures Settled(h, jobs, i)
  {
    if i == 0 {
      OrderedIsSettled(h, jobs, i);
    } else if i < last {
      assert i == last - 2 || i == last - 1;
      FanIsSettled(h, jobs, i);
    } else {
      CombineIsSettled(h, jobs, i);
    }
  }

  lemma SignerIsChain(items: seq<string>, jobs: seq<Job>)
    requires Signer(items, jobs)
    ensures Chain(jobs)
  {
    assert jobs[0].stop([]) == AtOnce([]);
  }

  /** The signer, whatever jobs follow: in every state of every run CombineResults has sent nothing or the
      expected text, and once it has returned it has sent it. */
  lemma SignerResult(h: Hashes, items: seq<string>, jobs: seq<Job>, ls: seq<Label>, t: State)
    requires Signer(items, jobs) && Reaches(h, Init(jobs), ls, t)
    ensures Shape(t) && |t.stages| == |jobs|
    ensures t.chans[4].log == [] || t.chans[4].log == [SignerText(h, items)]
    ensures t.stages[3].done ==> t.chans[4].log == [SignerText(h, items)]
    ensures Signs(h, items, SignerText(h, items))
  {
    SignerSigns(h, items);
    assert Inv(h, jobs, t) by {
      SignerIsChain(items, jobs);
      InitInv(h, jobs);
      RunKeepsInv(h, jobs, Init(jobs), ls, t);
    }
    SignerSends(h, items, jobs, t, 3);
  }

  lemma SignerSends(h: Hashes, items: seq<string>, jobs: seq<Job>, t: State, last: nat)
    requires Inv(h, jobs, t) && Signer(items, jobs) && last == 3
    ensures t.chans[last + 1].log == [] || t.chans[last + 1].log == [SignerText(h, items)]
    ensures t.stages[last].done ==> t.chans[last + 1].log == [SignerText(h, items)]
  {
    forall i | 0 <= i <= last ensures Settled(h, jobs, i) {
      SignerSettled(h, items, jobs, i, last);
    }
    LogWithinExpected(h, jobs, t, last + 1);
    CombineIsSettled(h, jobs, last);
    SignerExpected(h, items, jobs, last);
    assert LocalInv(h, jobs, t, last);
    PrefixOfOne(t.chans[last + 1].log, SignerText(h, items));
  }

  lemma PrefixOfOne(a: seq<string>, x: string)
    requires a <= [x]
    ensures a == [] || a == [x]
  {
  }

  /** The chain of the homework's test, which ends with a job that receives the one result and returns
      without waiting for more: every run that cannot go on is complete, and that job has the text. */
  lemma SignerCollected(h: Hashes, items: seq<string>, ls: seq<Label>, t: State)
    requires Reaches(h, Init([Source(items), SingleHash, MultiHash, CombineResults(), First(1)]), ls, t)
    ensures Shape(t) && |t.stages| == 5
    ensures Stuck(t) ==> AllDone(t) && |t.stages[4].acc| == 1 && Signs(h, items, t.stages[4].acc[0])
  {
    var jobs := [Source(items), SingleHash, MultiHash, CombineResults(), First(1)];
    assert Inv(h, jobs, t) by {
      SignerIsChain(items, jobs);
      InitInv(h, jobs);
      RunKeepsInv(h, jobs, Init(jobs), ls, t);
    }
    if Stuck(t) {
      SignerIsChain(items, jobs);
      CollectorIsSettled(h, items, jobs, 4);
      CollectorLeavesOne(h, items, jobs, 4);
      DeterminedRunEnds(h, jobs, ls, t);
      SignerResult(h, items, jobs, ls, t);
      CollectorHas(h, jobs, t, 4, SignerText(h, items));
    }
  }

  lemma CollectorIsSettled(h: Hashes, items: seq<string>, jobs: seq<Job>, at: nat)
    requires Signer(items, jobs) && at == 4 && |jobs| == at + 1
    ensures Determined(h, jobs)
  {
    forall i | 0 <= i < |jobs| ensures Settled(h, jobs, i) {
      if i == at {
        CombineIsSettled(h, jobs, at - 1);
        OrderedIsSettled(h, jobs, at);
      } else {
        SignerSettled(h, items, jobs, i, at - 1);
      }
    }
  }

  lemma CollectorLeavesOne(h: Hashes, items: seq<string>, jobs: seq<Job>, at: nat)
    requires Signer(items, jobs) && at == 4 && |jobs| == at + 1 && jobs[at] == First(1)
    ensures LeavesOne(jobs, Sequential(h, jobs))
  {
    var text := [SignerText(h, items)];
    SignerExpected(h, items, jobs, at - 1);
    QuietOutput(h, First(1), text);
    ExpectedNext(h, jobs, at, text);
    CombineOutput(h, Expected(h, jobs, at - 1));
    forall i | 0 <= i < |jobs| ensures Total(h, jobs, i) <= |Cut(jobs[i], Expected(h, jobs, i))| + 1 {
      assert i == at - 4 || i == at - 3 || i == at - 2 || i == at - 1 || i == at;
    }
  }

  lemma CollectorHas(h: Hashes, jobs: seq<Job>, t: State, at: nat, text: string)
    requires Inv(h, jobs, t) && at < |jobs| && jobs[at] == First(1)
    requires t.stages[at].done && t.chans[at].log == [text]
    ensures t.stages[at].acc == [text]
  {
    assert LocalInv(h, jobs, t, at);
    var st := t.stages[at];
    assert st.job.stop(st.acc) <==> |st.acc| >= 1;
    assert t.chans[at].log[..1] == [text];
  }

  /** Exclusion of MD5. In every reachable state nothing has panicked -- in particular nothing was
      sent on a closed channel -- and no compare-and-swap has failed; the flag is up only while its
      setter holds su, at most one goroutine is hashing, and the send made while holding su finds
      its slot empty. */
  lemma Md5Exclusion(h: Hashes, jobs: seq<Job>, ls: seq<Label>, t: State)
    requires Chain(jobs) && Reaches(h, Init(jobs), ls, t)
    ensures Shape(t) && t.shared.panics == 0 && t.shared.failedCas == 0
    ensures t.shared.overheat ==> t.shared.su != [] && Md5Of(t, t.shared.su[0]).Hashing?
    ensures forall a: Id, b: Id :: Holds(Md5Of(t, a)) && Holds(Md5Of(t, b)) ==> a == b
    ensures forall id: Id :: Md5Of(t, id).Hashed? ==> Enabled(t, Work(id.0, id.1, SendMd5))
    ensures forall id: Id :: Md5Of(t, id).Locked? ==> !t.shared.overheat
  {
    InitInv(h, jobs);
    RunKeepsInv(h, jobs, Init(jobs), ls, t);
    forall a: Id, b: Id | Holds(Md5Of(t, a)) && Holds(Md5Of(t, b)) ensures a == b {
      assert IdInv(t, a) && IdInv(t, b);
    }
    forall id: Id | Md5Of(t, id).Hashed? ensures Enabled(t, Work(id.0, id.1, SendMd5)) {
      assert LocalInv(h, jobs, t, id.0);
    }
    forall id: Id | Md5Of(t, id).Locked? ensures !t.shared.overheat {
      assert IdInv(t, id);
    }
  }

  // In a stage that has returned, the values that have locked are those of SingleHash.
  lemma DoneStageMd5(h: Hashes, st: Stage, in_: Chan, out: Chan, j: nat)
    requires in_.Within() && StageInv(h, st, in_, out) && st.done
    ensures st.job.SingleHash? ==> |st.workers| == |in_.log|
    ensures j < |st.workers| ==> Fans(st.job) && st.workers[j].SingleW? == st.job.SingleHash?
    ensures j < |st.workers| && st.workers[j].SingleW? ==> Delivered(st.workers[j].md5)
  {
    if j < |st.workers| {
      assert WorkerInv(h, st.job, st.workers[j]);
    }
  }

  /** Each value that reached a SingleHash was locked for exactly once and unlocked for exactly
      once when ExecutePipeline returns; nothing else ever locked. */
  lemma LockedOncePerInput(h: Hashes, jobs: seq<Job>, ls: seq<Label>, t: State, id: Id)
    requires Chain(jobs) && Reaches(h, Init(jobs), ls, t)
    ensures Shape(t) && |t.stages| == |jobs|
    ensures t.shared.unlocks[id] <= t.shared.locks[id] <= 1
    ensures AllDone(t) ==>
              var input := id.0 < |jobs| && jobs[id.0].SingleHash? && id.1 < |t.chans[id.0].log|;
              t.shared.locks[id] == t.shared.unlocks[id] == if input then 1 else 0
  {
    InitInv(h, jobs);
    RunKeepsInv(h, jobs, Init(jobs), ls, t);
    assert IdInv(t, id);
    if AllDone(t) && id.0 < |jobs| {
      assert LocalInv(h, jobs, t, id.0);
      DoneStageMd5(h, t.stages[id.0], t.chans[id.0], t.chans[id.0 + 1], id.1);
    }
  }
}
