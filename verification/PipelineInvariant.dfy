/** What every step of the pipeline keeps: the conservation of values through every stage, the
    slot discipline of every private channel, and the ownership of su and of the overheat flag. */
module PipelineInvariant {
  import opened Pipeline
  import opened PipelineValues

  // The first job feeds the rest: nothing comes into its input.
  predicate Chain(jobs: seq<Job>) {
    |jobs| > 0 && jobs[0].Proc? && jobs[0].stop([])
  }

  function CountTrue(s: seq<bool>): nat {
    if s == [] then 0 else (if s[0] then 1 else 0) + CountTrue(s[1..])
  }

  lemma {:induction false} CountTrueBounds(s: seq<bool>)
    ensures CountTrue(s) <= |s|
    ensures CountTrue(s) == |s| <==> forall k :: 0 <= k < |s| ==> s[k]
  {
    if s != [] {
      CountTrueBounds(s[1..]);
      assert forall k :: 0 < k < |s| ==> s[k] == s[1..][k - 1];
      if CountTrue(s) == |s| {
        assert forall k :: 0 <= k < |s| ==> s[k];
      }
      if forall k :: 0 <= k < |s| ==> s[k] {
        assert forall k :: 0 <= k < |s| - 1 ==> s[1..][k];
      }
    }
  }

  lemma {:induction false} CountTrueSet(s: seq<bool>, k: nat)
    requires k < |s| && !s[k]
    ensures CountTrue(s[k := true]) == CountTrue(s) + 1
  {
    if k == 0 {
      assert s[0 := true][1..] == s[1..];
    } else {
      assert s[k := true][1..] == s[1..][k - 1 := true];
      CountTrueSet(s[1..], k - 1);
    }
  }

  predicate Delivered(m: Md5) { m.Sent? || m.Released? }

  predicate SingleOver(w: Worker)
    requires w.SingleW?
  {
    w.crc1.Finished? && w.crc2.Finished? && w.first == [] && w.second == [] && Delivered(w.md5)
  }

  predicate FirstSlot(h: Hashes, w: Worker)
    requires w.SingleW?
  {
    w.first == if w.crc1.Finished? then [h.crc(w.val)] else []
  }

  predicate SecondSlot(h: Hashes, w: Worker)
    requires w.SingleW?
  {
    && Delivered(w.md5)
    && (if w.crc2.Finished? then w.second == [h.crc(h.md5(w.val))]
        else w.crc2 == Running(h.md5(w.val)) && w.second == [])
  }

  predicate SingleInv(h: Hashes, w: Worker)
    requires w.SingleW?
  {
    && (w.crc1 == Running(w.val) || w.crc1.Finished?)
    && w.closed == w.parent.Exited?
    && match w.parent
       case AwaitMd5 =>
         w.crc2.Unborn? && FirstSlot(h, w) && w.second == if Delivered(w.md5) then [h.md5(w.val)] else []
       case AwaitFirst => FirstSlot(h, w) && SecondSlot(h, w)
       case AwaitSecond(f) => f == h.crc(w.val) && w.crc1.Finished? && w.first == [] && SecondSlot(h, w)
       case Sending(v) => v == Single(h, w.val) && SingleOver(w)
       case Closing => SingleOver(w)
       case Exited => SingleOver(w)
       case Collecting => false
  }

  predicate InQueue(q: seq<OrderData>, th: nat) {
    exists k :: 0 <= k < |q| && q[k].id == th
  }

  // The six goroutines of a MultiHash value: each result is still to come, in the channel once,
  // or in its own slot, whatever the order of arrival.
  predicate MultiInv(h: Hashes, w: Worker)
    requires w.MultiW?
  {
    && |w.sent| == 6 && |w.result| == 6
    && w.got + |w.queue| == CountTrue(w.sent)
    && (forall k :: 0 <= k < |w.queue| ==>
          && w.queue[k].id < 6
          && w.sent[w.queue[k].id]
          && w.queue[k].data == Piece(h, w.val, w.queue[k].id))
    && (forall k, m :: 0 <= k < m < |w.queue| ==> w.queue[k].id != w.queue[m].id)
    && (forall th :: 0 <= th < 6 && w.sent[th] && !InQueue(w.queue, th) ==>
          w.result[th] == Piece(h, w.val, th))
    && w.closed == w.parent.Exited?
    && match w.parent
       case Collecting => w.got < 6
       case Sending(v) => w.got == 6 && v == Multi(h, w.val)
       case Closing => w.got == 6
       case Exited => w.got == 6
       case _ => false
  }

  predicate WorkerInv(h: Hashes, job: Job, w: Worker)
    requires Fans(job)
  {
    if job.SingleHash? then w.SingleW? && SingleInv(h, w) else w.MultiW? && MultiInv(h, w)
  }

  predicate HasEmitted(w: Worker) { w.parent.Closing? || w.parent.Exited? }

  // What the workers have sent to the output of their stage, in whatever order.
  function Emitted(h: Hashes, job: Job, ws: seq<Worker>): multiset<string>
    requires Fans(job)
  {
    if ws == [] then multiset{}
    else
      EmittedBy(h, job, ws[0]) + Emitted(h, job, ws[1..])
  }

  function EmittedBy(h: Hashes, job: Job, w: Worker): multiset<string>
    requires Fans(job)
  {
    if HasEmitted(w) then multiset{Hash(h, job, w.val)} else multiset{}
  }

  lemma {:induction false} EmittedUpdate(h: Hashes, job: Job, ws: seq<Worker>, j: nat, w: Worker, gain: multiset<string>)
    requires Fans(job) && j < |ws| && EmittedBy(h, job, w) == EmittedBy(h, job, ws[j]) + gain
    ensures Emitted(h, job, ws[j := w]) == Emitted(h, job, ws) + gain
  {
    Reorder(EmittedBy(h, job, ws[0]), Emitted(h, job, ws[1..]), gain);
    if j == 0 {
      assert ws[0 := w][1..] == ws[1..];
    } else {
      assert ws[j := w][1..] == ws[1..][j - 1 := w];
      EmittedUpdate(h, job, ws[1..], j - 1, w, gain);
    }
  }

  lemma {:induction false} EmittedSpawn(h: Hashes, job: Job, ws: seq<Worker>, v: string)
    requires Fans(job)
    ensures Emitted(h, job, ws + [Spawn(job, v)]) == Emitted(h, job, ws)
  {
    if ws == [] {
      var one := [Spawn(job, v)];
      assert ws + one == one && one[1..] == [];
    } else {
      assert (ws + [Spawn(job, v)])[1..] == ws[1..] + [Spawn(job, v)];
      EmittedSpawn(h, job, ws[1..], v);
    }
  }

  // Some worker still has to send.
  predicate Unsent(ws: seq<Worker>) {
    exists j :: 0 <= j < |ws| && !HasEmitted(ws[j])
  }

  // Workers have sent at most the image of their values, and all of it when nothing is missing.
  lemma {:induction false} EmittedWithin(h: Hashes, job: Job, ws: seq<Worker>, vals: seq<string>)
    requires Fans(job) && |ws| == |vals| && forall j :: 0 <= j < |ws| ==> ws[j].val == vals[j]
    ensures Emitted(h, job, ws) <= multiset(HashAll(h, job, vals))
    ensures !Unsent(ws) ==> Emitted(h, job, ws) == multiset(HashAll(h, job, vals))
  {
    if ws != [] {
      HashAllHead(h, job, vals);
      EmittedWithin(h, job, ws[1..], vals[1..]);
      UnsentTail(ws);
      SumWithin(EmittedBy(h, job, ws[0]), Emitted(h, job, ws[1..]),
                multiset{Hash(h, job, vals[0])}, multiset(HashAll(h, job, vals[1..])));
    }
  }

  lemma UnsentTail(ws: seq<Worker>)
    requires ws != []
    ensures Unsent(ws) <==> !HasEmitted(ws[0]) || Unsent(ws[1..])
  {
    assert forall j :: 0 <= j < |ws| - 1 ==> ws[1..][j] == ws[j + 1];
    if Unsent(ws) && HasEmitted(ws[0]) {
      var j :| 0 <= j < |ws| && !HasEmitted(ws[j]);
      assert !HasEmitted(ws[1..][j - 1]);
    }
  }

  lemma SumWithin(a: multiset<string>, b: multiset<string>, c: multiset<string>, d: multiset<string>)
    requires a <= c && b <= d
    ensures a + b <= d + c
    ensures a == c && b == d ==> a + b == d + c
  {
  }

  lemma {:induction false} EmittedSize(h: Hashes, job: Job, ws: seq<Worker>)
    requires Fans(job)
    ensures |Emitted(h, job, ws)| <= |ws|
    ensures Unsent(ws) ==> |Emitted(h, job, ws)| < |ws|
  {
    if ws != [] {
      EmittedSize(h, job, ws[1..]);
      UnsentTail(ws);
    }
  }

  // There is one worker for each value received.
  predicate WorkersInv(h: Hashes, job: Job, ws: seq<Worker>, vals: seq<string>)
    requires Fans(job)
  {
    && |ws| == |vals|
    && forall j :: 0 <= j < |ws| ==> ws[j].val == vals[j] && WorkerInv(h, job, ws[j])
  }

  // And the output has what they have sent.
  predicate FanInv(h: Hashes, job: Job, ws: seq<Worker>, vals: seq<string>, out: seq<string>)
    requires Fans(job)
  {
    WorkersInv(h, job, ws, vals) && multiset(out) == Emitted(h, job, ws)
  }

  // A sequential job: where it is in its code follows from what it has received and sent.
  predicate ProcInv(st: Stage, in_: Chan, out: Chan)
    requires in_.Within() && st.job.Proc?
  {
    && st.workers == []
    && st.acc == in_.log[..in_.taken] && Unstopped(st.job, st.acc)
    && st.sent <= |st.job.g(st.acc)|
    && out.log + st.pending == Stream(st.job, st.acc) + st.job.g(st.acc)[..st.sent]
    && (st.sent > 0 ==> Stopped(st, in_) && st.pending == [])
    && (st.done ==> Stopped(st, in_) && st.pending == [] && st.sent == |st.job.g(st.acc)|)
  }

  // One stage between its two channels.
  predicate StageInv(h: Hashes, st: Stage, in_: Chan, out: Chan)
    requires in_.Within()
  {
    && out.closed == st.done
    && if st.job.Proc? then ProcInv(st, in_, out)
       else
         && st.sent == 0 && st.acc == [] && st.pending == []
         && FanInv(h, st.job, st.workers, in_.log[..in_.taken], out.log)
         && (st.done ==> in_.Exhausted() && AllExited(st.workers))
  }

  predicate ChanInv(s: State, k: nat)
    requires Shape(s) && k < |s.chans|
  {
    && s.chans[k].Within()
    && (k == 0 ==> s.chans[k] == Chan([], 0, false))
    && (k == |s.stages| ==> s.chans[k].taken == 0)
  }

  ghost predicate LocalInv(h: Hashes, jobs: seq<Job>, s: State, i: nat)
    requires Shape(s) && i < |s.stages| == |jobs|
  {
    && s.stages[i].job == jobs[i]
    && s.chans[i].Within()
    && StageInv(h, s.stages[i], s.chans[i], s.chans[i + 1])
  }

  // How far the MD5 goroutine of a value is; no such value counts as not having begun.
  function Md5Of(s: State, id: Id): Md5 {
    if id.0 < |s.stages| && id.1 < |s.stages[id.0].workers| && s.stages[id.0].workers[id.1].SingleW?
    then s.stages[id.0].workers[id.1].md5 else WantLock
  }

  predicate HasLocked(m: Md5) { !m.WantLock? && !m.Locked? }
  predicate HasUnlocked(m: Md5) { HasLocked(m) && !m.Hashing? }

  ghost predicate IdInv(s: State, id: Id) {
    && (Holds(Md5Of(s, id)) <==> s.shared.su == [id])
    && (Md5Of(s, id).Hashing? ==> s.shared.overheat)
    && s.shared.locks[id] == (if HasLocked(Md5Of(s, id)) then 1 else 0)
    && s.shared.unlocks[id] == (if HasUnlocked(Md5Of(s, id)) then 1 else 0)
  }

  ghost predicate SharedInv(s: State) {
    && s.shared.panics == 0
    && s.shared.failedCas == 0
    && |s.shared.su| <= 1
    && (s.shared.overheat ==> s.shared.su != [] && Md5Of(s, s.shared.su[0]).Hashing?)
    && forall id: Id :: IdInv(s, id)
  }

  ghost predicate AllStagesInv(h: Hashes, jobs: seq<Job>, s: State) {
    && Shape(s)
    && |s.stages| == |jobs|
    && (forall k :: 0 <= k < |s.chans| ==> ChanInv(s, k))
    && (forall i :: 0 <= i < |jobs| ==> LocalInv(h, jobs, s, i))
  }

  ghost predicate Inv(h: Hashes, jobs: seq<Job>, s: State) {
    Chain(jobs) && AllStagesInv(h, jobs, s) && SharedInv(s)
  }

  lemma InitInv(h: Hashes, jobs: seq<Job>)
    requires Chain(jobs)
    ensures Inv(h, jobs, Init(jobs))
  {
    var s := Init(jobs);
    forall i | 0 <= i < |jobs| ensures LocalInv(h, jobs, s, i) {
      assert s.chans[i] == Chan([], 0, false) == s.chans[i + 1];
    }
  }

  // A stage looks at its input only up to what it took, and at its end only when it is closed; of
  // its output it does not see what has been received.
  lemma StageInvElsewhere(h: Hashes, st: Stage, in_: Chan, in': Chan, out: Chan, out': Chan)
    requires in_.Within() && in'.Within() && StageInv(h, st, in_, out)
    requires in'.taken == in_.taken && in_.log <= in'.log && (in_.closed ==> in' == in_)
    requires out'.log == out.log && out'.closed == out.closed
    ensures StageInv(h, st, in', out')
  {
    assert in_.log[..in_.taken] == in'.log[..in'.taken];
  }

  // A step of stage i writes at most that stage and its two channels.
  ghost predicate OnlyStage(s: State, t: State, i: nat)
    requires Shape(s)
  {
    && Shape(t) && |t.stages| == |s.stages| && i < |s.stages|
    && (forall k :: 0 <= k < |s.stages| && k != i ==> t.stages[k] == s.stages[k])
    && (forall k :: 0 <= k < |s.chans| && k != i && k != i + 1 ==> t.chans[k] == s.chans[k])
    && t.chans[i].log == s.chans[i].log && t.chans[i].closed == s.chans[i].closed
    && t.chans[i + 1].taken == s.chans[i + 1].taken && s.chans[i + 1].log <= t.chans[i + 1].log
    && (s.chans[i + 1].closed ==> t.chans[i + 1] == s.chans[i + 1])
  }

  // If it keeps the invariant of the stage, the neighbours keep theirs.
  lemma Frame(h: Hashes, jobs: seq<Job>, s: State, t: State, i: nat)
    requires AllStagesInv(h, jobs, s) && OnlyStage(s, t, i)
    requires t.chans[i].Within() && t.chans[i + 1].Within() && (i == 0 ==> t.chans[0] == s.chans[0])
    requires t.stages[i].job == jobs[i] && StageInv(h, t.stages[i], t.chans[i], t.chans[i + 1])
    ensures AllStagesInv(h, jobs, t)
  {
    forall k | 0 <= k < |t.chans| ensures ChanInv(t, k) {
      assert ChanInv(s, k);
    }
    forall k | 0 <= k < |jobs| ensures LocalInv(h, jobs, t, k) {
      assert ChanInv(t, k);
      if k != i {
        FrameAt(h, jobs, s, t, i, k);
      }
    }
  }

  lemma FrameAt(h: Hashes, jobs: seq<Job>, s: State, t: State, i: nat, k: nat)
    requires AllStagesInv(h, jobs, s) && OnlyStage(s, t, i) && k < |jobs| && k != i
    requires t.chans[k].Within()
    ensures LocalInv(h, jobs, t, k)
  {
    assert LocalInv(h, jobs, s, k);
    StageInvElsewhere(h, s.stages[k], s.chans[k], t.chans[k], s.chans[k + 1], t.chans[k + 1]);
  }

  // A step that leaves all workers alone leaves all locks alone.
  lemma SameWorkers(s: State, t: State)
    requires SharedInv(s) && t.shared == s.shared && |t.stages| == |s.stages|
    requires forall k :: 0 <= k < |s.stages| ==> t.stages[k].workers == s.stages[k].workers
    ensures SharedInv(t)
  {
    forall id: Id ensures Md5Of(t, id) == Md5Of(s, id) && IdInv(t, id) {
      assert IdInv(s, id);
    }
  }

  // So does one that starts a worker, which has not locked yet.
  lemma NewWorker(s: State, t: State, i: nat, w: Worker)
    requires SharedInv(s) && t.shared == s.shared && i < |s.stages| == |t.stages|
    requires forall k :: 0 <= k < |s.stages| && k != i ==> t.stages[k] == s.stages[k]
    requires t.stages[i].workers == s.stages[i].workers + [w] && (w.SingleW? ==> w.md5.WantLock?)
    ensures SharedInv(t)
  {
    forall id: Id ensures Md5Of(t, id) == Md5Of(s, id) && IdInv(t, id) {
      assert IdInv(s, id);
    }
  }

  lemma PutStep(h: Hashes, st: Stage, in_: Chan, out: Chan)
    requires in_.Within() && StageInv(h, st, in_, out)
    requires !st.done && Offer(st, in_) != []
    ensures StageInv(h, PutOne(st), in_, Send(out, Offer(st, in_)[0])) && !out.closed
  {
    if st.pending != [] {
      assert out.log + st.pending == (out.log + [st.pending[0]]) + st.pending[1..];
    } else {
      var last := st.job.g(st.acc);
      assert last[..st.sent + 1] == last[..st.sent] + [last[st.sent]];
      assert out.log + [] == out.log;
    }
  }

  lemma PutKeepsStages(h: Hashes, jobs: seq<Job>, s: State, i: nat)
    requires AllStagesInv(h, jobs, s) && Enabled(s, Put(i))
    ensures AllStagesInv(h, jobs, Next(h, s, Put(i))) && !s.chans[i + 1].closed
  {
    var t := Next(h, s, Put(i));
    assert LocalInv(h, jobs, s, i) && ChanInv(s, i) && ChanInv(s, i + 1);
    PutStep(h, s.stages[i], s.chans[i], s.chans[i + 1]);
    Frame(h, jobs, s, t, i);
  }

  lemma PutKeepsInv(h: Hashes, jobs: seq<Job>, s: State, i: nat)
    requires Inv(h, jobs, s) && Enabled(s, Put(i))
    ensures Inv(h, jobs, Next(h, s, Put(i)))
  {
    PutKeepsStages(h, jobs, s, i);
    SameWorkers(s, Next(h, s, Put(i)));
  }

  lemma SpawnInv(h: Hashes, job: Job, v: string)
    requires Fans(job)
    ensures WorkerInv(h, job, Spawn(job, v))
  {
  }

  lemma FanAccepts(h: Hashes, job: Job, ws: seq<Worker>, vals: seq<string>, out: seq<string>, v: string)
    requires Fans(job) && FanInv(h, job, ws, vals, out)
    ensures FanInv(h, job, ws + [Spawn(job, v)], vals + [v], out)
  {
    SpawnInv(h, job, v);
    EmittedSpawn(h, job, ws, v);
  }

  lemma ProcAccepts(st: Stage, in_: Chan, in': Chan, out: Chan, v: string)
    requires in_.Within() && in'.Within() && st.job.Proc? && ProcInv(st, in_, out)
    requires !Stopped(st, in_) && !st.done && st.pending == []
    requires in'.log[..in'.taken] == in_.log[..in_.taken] + [v]
    ensures ProcInv(Accept(st, v), in', out)
  {
    var acc := st.acc + [v];
    StreamSnoc(st.job, st.acc, v);
    assert out.log + [] == out.log;
    assert Stream(st.job, st.acc) + st.job.g(st.acc)[..0] == Stream(st.job, st.acc);
    assert Stream(st.job, acc) + st.job.g(acc)[..0] == Stream(st.job, acc);
    forall k | 0 <= k < |acc| ensures !st.job.stop(acc[..k]) {
      assert acc[..k] == if k < |st.acc| then st.acc[..k] else st.acc;
    }
  }

  lemma AcceptStep(h: Hashes, st: Stage, in_: Chan, in': Chan, out: Chan)
    requires in_.Within() && StageInv(h, st, in_, out) && in_.HasValue()
    requires !Stopped(st, in_) && !st.done && st.pending == []
    requires in' == in_.(taken := in_.taken + 1)
    ensures StageInv(h, Accept(st, in_.log[in_.taken]), in', out)
  {
    var v := in_.log[in_.taken];
    assert in'.log[..in'.taken] == in_.log[..in_.taken] + [v];
    if Fans(st.job) {
      FanAccepts(h, st.job, st.workers, in_.log[..in_.taken], out.log, v);
    } else {
      ProcAccepts(st, in_, in', out, v);
    }
  }

  lemma TakeKeepsInv(h: Hashes, jobs: seq<Job>, s: State, i: nat)
    requires Inv(h, jobs, s) && Enabled(s, Take(i))
    ensures Inv(h, jobs, Next(h, s, Take(i)))
  {
    var t := Next(h, s, Take(i));
    assert LocalInv(h, jobs, s, i) && ChanInv(s, i) && ChanInv(s, i + 1);
    AcceptStep(h, s.stages[i], s.chans[i], t.chans[i], s.chans[i + 1]);
    Frame(h, jobs, s, t, i);
    if Fans(s.stages[i].job) {
      NewWorker(s, t, i, Spawn(s.stages[i].job, s.chans[i].log[s.chans[i].taken]));
    } else {
      SameWorkers(s, t);
    }
  }

  lemma ReturnStep(h: Hashes, st: Stage, in_: Chan, out: Chan)
    requires in_.Within() && StageInv(h, st, in_, out)
    requires !st.done && Offer(st, in_) == [] && Stopped(st, in_)
    requires AllExited(st.workers)
    ensures StageInv(h, st.(done := true), in_, out.(closed := true)) && !out.closed
  {
  }

  lemma ReturnKeepsStages(h: Hashes, jobs: seq<Job>, s: State, i: nat)
    requires AllStagesInv(h, jobs, s) && Enabled(s, Return(i))
    ensures AllStagesInv(h, jobs, Next(h, s, Return(i))) && !s.chans[i + 1].closed
  {
    var t := Next(h, s, Return(i));
    assert LocalInv(h, jobs, s, i) && ChanInv(s, i) && ChanInv(s, i + 1);
    ReturnStep(h, s.stages[i], s.chans[i], s.chans[i + 1]);
    Frame(h, jobs, s, t, i);
  }

  lemma ReturnKeepsInv(h: Hashes, jobs: seq<Job>, s: State, i: nat)
    requires Inv(h, jobs, s) && Enabled(s, Return(i))
    ensures Inv(h, jobs, Next(h, s, Return(i)))
  {
    ReturnKeepsStages(h, jobs, s, i);
    SameWorkers(s, Next(h, s, Return(i)));
  }

  lemma SingleStep(h: Hashes, w: Worker, a: Action, sh: Shared)
    requires w.SingleW? && SingleInv(h, w) && WorkerEnabled(w, a, sh, true)
    ensures var w' := WorkerNext(h, w, a, sh);
            w'.SingleW? && w'.val == w.val && SingleInv(h, w')
    ensures !WorkerPanics(w, a, false)
  {
  }

  lemma InQueueAppend(q: seq<OrderData>, d: OrderData, th: nat)
    ensures InQueue(q + [d], th) <==> InQueue(q, th) || d.id == th
  {
    assert (q + [d])[|q|] == d;
    assert forall k :: 0 <= k < |q| ==> (q + [d])[k] == q[k];
  }

  lemma InQueueHead(q: seq<OrderData>, th: nat)
    requires q != []
    ensures InQueue(q, th) <==> q[0].id == th || InQueue(q[1..], th)
  {
    assert q == [q[0]] + q[1..];
    assert forall k :: 0 < k < |q| ==> q[k] == q[1..][k - 1];
  }

  lemma SendPieceStep(h: Hashes, w: Worker, th: nat, sh: Shared)
    requires w.MultiW? && MultiInv(h, w) && WorkerEnabled(w, SendPiece(th), sh, true)
    ensures MultiInv(h, WorkerNext(h, w, SendPiece(th), sh)) && !w.closed
  {
    var w' := WorkerNext(h, w, SendPiece(th), sh);
    CountTrueSet(w.sent, th);
    CountTrueBounds(w'.sent);
    forall x | 0 <= x < 6 && w'.sent[x] && !InQueue(w'.queue, x)
      ensures w'.result[x] == Piece(h, w.val, x)
    {
      InQueueAppend(w.queue, w'.queue[|w.queue|], x);
    }
  }

  lemma CollectStep(h: Hashes, w: Worker, sh: Shared)
    requires w.MultiW? && MultiInv(h, w) && WorkerEnabled(w, Collect, sh, true)
    ensures MultiInv(h, WorkerNext(h, w, Collect, sh)) && !WorkerPanics(w, Collect, false)
  {
    var w' := WorkerNext(h, w, Collect, sh);
    forall x | 0 <= x < 6 && w.sent[x] && !InQueue(w'.queue, x)
      ensures w'.result[x] == Piece(h, w.val, x)
    {
      InQueueHead(w.queue, x);
    }
    CountTrueBounds(w.sent);
    if w'.got == 6 {
      assert w'.queue == [];
      assert w'.result == seq(6, th requires 0 <= th < 6 => Piece(h, w.val, th));
    }
  }

  lemma WorkerStep(h: Hashes, job: Job, w: Worker, a: Action, sh: Shared)
    requires Fans(job) && WorkerInv(h, job, w) && WorkerEnabled(w, a, sh, true)
    ensures var w' := WorkerNext(h, w, a, sh);
            && w'.val == w.val
            && WorkerInv(h, job, w')
            && (a.Emit? ==> w.parent.value == Hash(h, job, w.val))
            && (HasEmitted(w') <==> HasEmitted(w) || a.Emit?)
            && (w.parent.Exited? ==> a.UnlockSu? && w'.parent.Exited?)
    ensures a.Emit? ==> !HasEmitted(w)
    ensures !WorkerPanics(w, a, false)
  {
    if job.SingleHash? {
      SingleStep(h, w, a, sh);
    } else if a.SendPiece? {
      SendPieceStep(h, w, a.th, sh);
    } else if a.Collect? {
      CollectStep(h, w, sh);
    }
  }

  function Gain(h: Hashes, job: Job, val: string, emits: bool): multiset<string>
    requires Fans(job)
  {
    if emits then multiset{Hash(h, job, val)} else multiset{}
  }

  lemma EmittedByStep(h: Hashes, job: Job, w: Worker, w': Worker, emits: bool)
    requires Fans(job) && w'.val == w.val
    requires (HasEmitted(w') <==> HasEmitted(w) || emits) && (emits ==> !HasEmitted(w))
    ensures EmittedBy(h, job, w') == EmittedBy(h, job, w) + Gain(h, job, w.val, emits)
  {
  }

  // A stage whose worker j moves on sees at most that it sends its hash.
  lemma MovedWorkerSends(h: Hashes, job: Job, ws: seq<Worker>, out: seq<string>, j: nat, w: Worker, emits: bool)
    requires Fans(job) && multiset(out) == Emitted(h, job, ws) && j < |ws| && w.val == ws[j].val
    requires (HasEmitted(w) <==> HasEmitted(ws[j]) || emits) && (emits ==> !HasEmitted(ws[j]))
    ensures multiset(if emits then out + [Hash(h, job, w.val)] else out) == Emitted(h, job, ws[j := w])
  {
    EmittedByStep(h, job, ws[j], w, emits);
    EmittedUpdate(h, job, ws, j, w, Gain(h, job, w.val, emits));
  }

  lemma MovedWorkerKeeps(h: Hashes, job: Job, ws: seq<Worker>, vals: seq<string>, j: nat, w: Worker)
    requires Fans(job) && WorkersInv(h, job, ws, vals) && j < |ws| && w.val == ws[j].val && WorkerInv(h, job, w)
    ensures WorkersInv(h, job, ws[j := w], vals)
  {
  }

  lemma MovedWorker(h: Hashes, job: Job, ws: seq<Worker>, vals: seq<string>, out: seq<string>,
                    j: nat, w: Worker, emits: bool)
    requires Fans(job) && FanInv(h, job, ws, vals, out)
    requires j < |ws| && w.val == ws[j].val && WorkerInv(h, job, w)
    requires (HasEmitted(w) <==> HasEmitted(ws[j]) || emits) && (emits ==> !HasEmitted(ws[j]))
    ensures FanInv(h, job, ws[j := w], vals, if emits then out + [Hash(h, job, w.val)] else out)
  {
    MovedWorkerKeeps(h, job, ws, vals, j, w);
    MovedWorkerSends(h, job, ws, out, j, w, emits);
  }

  // A step of a worker as its stage sees it.
  lemma WorkerStepInStage(h: Hashes, st: Stage, in_: Chan, out: Chan, j: nat, a: Action, sh: Shared)
    requires in_.Within() && out.Within() && StageInv(h, st, in_, out) && j < |st.workers|
    requires WorkerEnabled(st.workers[j], a, sh, CanSend(out))
    ensures Fans(st.job) && !WorkerPanics(st.workers[j], a, out.closed)
    ensures var w := st.workers[j];
            var st' := st.(workers := st.workers[j := WorkerNext(h, w, a, sh)]);
            var out' := if a.Emit? then Send(out, w.parent.value) else out;
            StageInv(h, st', in_, out') && out'.Within() && (out.closed ==> out' == out)
  {
    var w := st.workers[j];
    WorkerStep(h, st.job, w, a, sh);
    MovedWorker(h, st.job, st.workers, in_.log[..in_.taken], out.log, j, WorkerNext(h, w, a, sh), a.Emit?);
  }

  // The lock discipline, seen from the one value whose step it is.
  lemma SharedStep(h: Hashes, s: State, t: State, id: Id, w: Worker, a: Action)
    requires SharedInv(s) && WorkerEnabled(w, a, s.shared, true)
    requires t.shared == SharedNext(s.shared, a, id, false)
    requires w.SingleW? ==> Md5Of(s, id) == w.md5
    requires w.SingleW? ==> Md5Of(t, id) == WorkerNext(h, w, a, s.shared).md5
    requires w.MultiW? ==> Md5Of(t, id) == Md5Of(s, id)
    requires forall o: Id :: o != id ==> Md5Of(t, o) == Md5Of(s, o)
    ensures SharedInv(t)
  {
    assert IdInv(s, id);
    forall o: Id ensures IdInv(t, o) {
      assert IdInv(s, o);
    }
  }

  lemma WorkKeepsLocks(h: Hashes, s: State, i: nat, j: nat, a: Action)
    requires Shape(s) && SharedInv(s) && Enabled(s, Work(i, j, a))
    requires !WorkerPanics(s.stages[i].workers[j], a, s.chans[i + 1].closed)
    ensures SharedInv(Next(h, s, Work(i, j, a)))
  {
    SharedStep(h, s, Next(h, s, Work(i, j, a)), (i, j), s.stages[i].workers[j], a);
  }

  lemma WorkTouches(h: Hashes, s: State, i: nat, j: nat, a: Action)
    requires Shape(s) && Enabled(s, Work(i, j, a)) && (a.Emit? ==> !s.chans[i + 1].closed)
    ensures var t, w := Next(h, s, Work(i, j, a)), s.stages[i].workers[j];
            && OnlyStage(s, t, i)
            && t.stages[i] == s.stages[i].(workers := s.stages[i].workers[j := WorkerNext(h, w, a, s.shared)])
            && t.chans[i] == s.chans[i]
            && t.chans[i + 1] == if a.Emit? then Send(s.chans[i + 1], w.parent.value) else s.chans[i + 1]
  {
  }

  lemma WorkKeepsStages(h: Hashes, jobs: seq<Job>, s: State, i: nat, j: nat, a: Action)
    requires AllStagesInv(h, jobs, s) && Enabled(s, Work(i, j, a))
    ensures AllStagesInv(h, jobs, Next(h, s, Work(i, j, a)))
    ensures !WorkerPanics(s.stages[i].workers[j], a, s.chans[i + 1].closed)
  {
    var t := Next(h, s, Work(i, j, a));
    assert LocalInv(h, jobs, s, i) && ChanInv(s, i) && ChanInv(s, i + 1);
    WorkerStepInStage(h, s.stages[i], s.chans[i], s.chans[i + 1], j, a, s.shared);
    WorkTouches(h, s, i, j, a);
    Frame(h, jobs, s, t, i);
  }

  lemma WorkKeepsInv(h: Hashes, jobs: seq<Job>, s: State, i: nat, j: nat, a: Action)
    requires Inv(h, jobs, s) && Enabled(s, Work(i, j, a))
    ensures Inv(h, jobs, Next(h, s, Work(i, j, a)))
  {
    WorkKeepsStages(h, jobs, s, i, j, a);
    WorkKeepsLocks(h, s, i, j, a);
  }

  // Every step of every goroutine keeps the invariant.
  lemma StepKeepsInv(h: Hashes, jobs: seq<Job>, s: State, l: Label)
    requires Inv(h, jobs, s) && Enabled(s, l)
    ensures Inv(h, jobs, Next(h, s, l))
  {
    match l
    case Put(i) => PutKeepsInv(h, jobs, s, i);
    case Take(i) => TakeKeepsInv(h, jobs, s, i);
    case Work(i, j, a) => WorkKeepsInv(h, jobs, s, i, j, a);
    case Return(i) => ReturnKeepsInv(h, jobs, s, i);
  }

  lemma {:induction false} RunKeepsInv(h: Hashes, jobs: seq<Job>, s: State, ls: seq<Label>, t: State)
    requires Inv(h, jobs, s) && Reaches(h, s, ls, t)
    ensures Inv(h, jobs, t)
    decreases |ls|
  {
    if ls != [] {
      StepKeepsInv(h, jobs, s, ls[0]);
      RunKeepsInv(h, jobs, Next(h, s, ls[0]), ls[1..], t);
    }
  }
}
