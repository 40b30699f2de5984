/** The concurrent hashing pipeline of HW/hw2_signer as a transition system.

    Every step is one communication or one lock operation of one goroutine; what a goroutine does
    between two of them touches nothing shared and is part of the step before. A schedule is a
    sequence of labels, so a lemma about all schedules is a lemma about all interleavings.

    What Go would answer with a panic (a send on a closed channel, closing one twice) and what
    the lock of common.go would answer with a message and a second of sleep (a failed CAS) are
    counted in the state, and proved to stay at zero. */
module Pipeline {
  import opened Text

  // DataSignerMd5 and DataSignerCrc32 without their locking. Nothing is assumed about either.
  datatype Hashes = Hashes(md5: string -> string, crc: string -> string)

  // What hw2.md asks of the two hashing stages.
  function Single(h: Hashes, val: string): string {
    h.crc(val) + "~" + h.crc(h.md5(val))
  }

  function Piece(h: Hashes, val: string, th: nat): string
    requires th < 6
  {
    h.crc([Digit(th)] + val)
  }

  function Multi(h: Hashes, val: string): string {
    Join(seq(6, th requires 0 <= th < 6 => Piece(h, val, th)), "")
  }

  /* A job of ExecutePipeline: one of the two that start goroutines for their values, or any other that
     is sequential and deterministic. Such a job sends `start`, and then receives; after a value it
     sends what f makes of it and of all that was received before; when `stop` says so of what it has
     received, or when its input has ended, it sends what g makes of all of it, and returns. */
  datatype Job =
    | SingleHash | MultiHash
    | Proc(start: seq<string>, stop: seq<string> -> bool, f: (seq<string>, string) -> seq<string>,
           g: seq<string> -> seq<string>)

  predicate AtOnce(vals: seq<string>) { true }

  predicate Never(vals: seq<string>) { false }

  function Silent(vals: seq<string>, v: string): seq<string> { [] }

  function Nothing(vals: seq<string>): seq<string> { [] }

  function Combined(vals: seq<string>): seq<string> { [Join(Sort(vals), "_")] }

  function CombineResults(): Job { Proc([], Never, Silent, Combined) }

  // A job that does not read its input.
  function Source(items: seq<string>): Job { Proc(items, AtOnce, Silent, Nothing) }

  // A job that deals with value after value, one that only reads, and one that reads n values at most.
  function Each(f: string -> seq<string>): Job { Proc([], Never, (vals: seq<string>, v: string) => f(v), Nothing) }

  function Drain(): Job { Proc([], Never, Silent, Nothing) }

  function First(n: nat): Job { Proc([], (vals: seq<string>) => |vals| >= n, Silent, Nothing) }

  predicate Fans(job: Job) { !job.Proc? }

  function Hash(h: Hashes, job: Job, val: string): string
    requires Fans(job)
  {
    if job.SingleHash? then Single(h, val) else Multi(h, val)
  }

  /* A one-slot channel: everything ever sent on it, how much of that has been received, and
     whether it is closed. */
  datatype Chan = Chan(log: seq<string>, taken: nat, closed: bool) {
    predicate Room() { |log| <= taken }
    predicate HasValue() { taken < |log| }
    predicate Exhausted() { closed && taken == |log| }
    predicate Within() { taken <= |log| <= taken + 1 }
  }

  // The goroutine running getCrc32: not yet started, about to send, or over.
  datatype Crc = Unborn | Running(arg: string) | Finished

  // The goroutine running getMd5. From Locked to Sent it holds su.
  datatype Md5 = WantLock | Locked | Hashing | Hashed | Sent | Released

  predicate Holds(m: Md5) { m.Locked? || m.Hashing? || m.Hashed? || m.Sent? }

  // The goroutine SingleHash and MultiHash start for each value.
  datatype Parent =
    | AwaitMd5                     // <-secondRes as the argument of the third goroutine
    | AwaitFirst                   // <-firstRes
    | AwaitSecond(first: string)   // <-secondRes
    | Collecting                   // the loop that fills result
    | Sending(value: string)       // out <- value
    | Closing                      // the close calls after it
    | Exited

  datatype OrderData = OrderData(id: nat, data: string)

  /* What exists for one received value: its goroutine, the ones it started, and its private
     channels. `closed` says that those have been closed. */
  datatype Worker =
    | SingleW(val: string, parent: Parent, crc1: Crc, md5: Md5, crc2: Crc,
              first: seq<string>, second: seq<string>, closed: bool)
    | MultiW(val: string, parent: Parent, sent: seq<bool>, queue: seq<OrderData>, got: nat,
             result: seq<string>, closed: bool)

  function Spawn(job: Job, val: string): Worker
    requires Fans(job)
  {
    if job.SingleHash? then
      SingleW(val, AwaitMd5, Running(val), WantLock, Unborn, [], [], false)
    else
      MultiW(val, Collecting, [false, false, false, false, false, false], [], 0,
             ["", "", "", "", "", ""], false)
  }

  // The running instance of a job. `acc` is what a sequential job has received, `pending` what it still
  // has to send before it receives again, `sent` how much of its last sends it has made.
  datatype Stage = Stage(job: Job, sent: nat, acc: seq<string>, pending: seq<string>,
                         workers: seq<Worker>, done: bool)

  function Begin(job: Job): Stage { Stage(job, 0, [], if job.Proc? then job.start else [], [], false) }

  type Id = (nat, nat) // stage, worker

  /* What all goroutines share: the mutex su, the flag dataSignerOverheat, the record of
     successful lock and unlock CAS operations, and the two counters of trouble. */
  datatype Shared = Shared(su: seq<Id>, overheat: bool, locks: multiset<Id>, unlocks: multiset<Id>,
                           failedCas: nat, panics: nat)

  datatype State = State(stages: seq<Stage>, chans: seq<Chan>, shared: Shared)

  function Init(jobs: seq<Job>): State {
    State(seq(|jobs|, i requires 0 <= i < |jobs| => Begin(jobs[i])),
          seq(|jobs| + 1, i => Chan([], 0, false)),
          Shared([], false, multiset{}, multiset{}, 0, 0))
  }

  // wg.Wait in ExecutePipeline returns.
  predicate AllDone(s: State) {
    forall i :: 0 <= i < |s.stages| ==> s.stages[i].done
  }

  datatype Action =
    | SendCrc1 | LockSu | OverheatLock | OverheatUnlock | SendMd5 | UnlockSu
    | TakeMd5 | SendCrc2 | TakeFirst | TakeSecond
    | SendPiece(th: nat) | Collect | Emit | Close

  datatype Label =
    | Put(stage: nat)                                // the job sends on its output
    | Take(stage: nat)                               // the job receives from its input
    | Work(stage: nat, worker: nat, action: Action)  // a step of a goroutine of a worker
    | Return(stage: nat)                             // the job returns; its output is closed

  /* Steps of one worker. `room` says whether a send on the output of the stage can proceed. */
  predicate WorkerEnabled(w: Worker, a: Action, sh: Shared, room: bool) {
    match a
    case SendCrc1 => w.SingleW? && w.crc1.Running? && w.first == []
    case LockSu => w.SingleW? && w.md5.WantLock? && sh.su == []
    case OverheatLock => w.SingleW? && w.md5.Locked?
    case OverheatUnlock => w.SingleW? && w.md5.Hashing?
    case SendMd5 => w.SingleW? && w.md5.Hashed? && w.second == []
    case UnlockSu => w.SingleW? && w.md5.Sent?
    case TakeMd5 => w.SingleW? && w.parent.AwaitMd5? && w.second != []
    case SendCrc2 => w.SingleW? && w.crc2.Running? && w.second == []
    case TakeFirst => w.SingleW? && w.parent.AwaitFirst? && w.first != []
    case TakeSecond => w.SingleW? && w.parent.AwaitSecond? && w.second != []
    case SendPiece(th) => w.MultiW? && th < 6 && th < |w.sent| && !w.sent[th] && |w.queue| < 6
    case Collect => w.MultiW? && w.parent.Collecting? && w.queue != []
    case Emit => w.parent.Sending? && room
    case Close => w.parent.Closing?
  }

  function WorkerNext(h: Hashes, w: Worker, a: Action, sh: Shared): Worker
    requires WorkerEnabled(w, a, sh, true)
  {
    match a
    case SendCrc1 => w.(first := [h.crc(w.crc1.arg)], crc1 := Finished)
    case LockSu => w.(md5 := Locked)
    case OverheatLock => if sh.overheat then w else w.(md5 := Hashing)
    case OverheatUnlock => if sh.overheat then w.(md5 := Hashed) else w
    case SendMd5 => w.(second := [h.md5(w.val)], md5 := Sent)
    case UnlockSu => w.(md5 := Released)
    case TakeMd5 => w.(second := w.second[1..], crc2 := Running(w.second[0]), parent := AwaitFirst)
    case SendCrc2 => w.(second := [h.crc(w.crc2.arg)], crc2 := Finished)
    case TakeFirst => w.(first := w.first[1..], parent := AwaitSecond(w.first[0]))
    case TakeSecond => w.(second := w.second[1..], parent := Sending(w.parent.first + "~" + w.second[0]))
    case SendPiece(th) =>
      w.(sent := w.sent[th := true], queue := w.queue + [OrderData(th, h.crc([Digit(th)] + w.val))])
    case Collect =>
      var d := w.queue[0];
      var result := if d.id < |w.result| then w.result[d.id := d.data] else w.result;
      w.(queue := w.queue[1..], result := result, got := w.got + 1,
         parent := if w.got + 1 == 6 then Sending(Join(result, "")) else Collecting)
    case Emit => w.(parent := Closing)
    case Close => w.(closed := true, parent := Exited)
  }

  // Whether the step is one that Go answers with a panic.
  predicate WorkerPanics(w: Worker, a: Action, outClosed: bool) {
    match a
    case SendCrc1 => w.closed
    case SendMd5 => w.closed
    case SendCrc2 => w.closed
    case SendPiece(_) => w.closed
    case Collect => w.MultiW? && w.queue != [] && w.queue[0].id >= |w.result|
    case Emit => outClosed
    case Close => w.closed
    case _ => false
  }

  function SharedNext(sh: Shared, a: Action, id: Id, panic: bool): Shared {
    var sh := if panic then sh.(panics := sh.panics + 1) else sh;
    match a
    case LockSu => sh.(su := [id])
    case UnlockSu => sh.(su := [])
    case OverheatLock =>
      if sh.overheat then sh.(failedCas := sh.failedCas + 1)
      else sh.(overheat := true, locks := sh.locks[id := sh.locks[id] + 1])
    case OverheatUnlock =>
      if sh.overheat then sh.(overheat := false, unlocks := sh.unlocks[id := sh.unlocks[id] + 1])
      else sh.(failedCas := sh.failedCas + 1)
    case _ => sh
  }

  // A send on a closed channel does not wait: it panics.
  predicate CanSend(c: Chan) { c.Room() || c.closed }

  function Send(c: Chan, v: string): Chan { c.(log := c.log + [v]) }

  // The receive loop of a job is over. A job that returns early leaves its input as it is.
  predicate Stopped(st: Stage, in_: Chan) {
    in_.Exhausted() || (st.job.Proc? && st.job.stop(st.acc))
  }

  // What the job itself would send next.
  function Offer(st: Stage, in_: Chan): seq<string> {
    if st.pending != [] then st.pending
    else if st.job.Proc? && Stopped(st, in_) && st.sent <= |st.job.g(st.acc)| then st.job.g(st.acc)[st.sent..]
    else []
  }

  // wg.Wait of a job: all goroutines it started for its values are over.
  predicate AllExited(ws: seq<Worker>) {
    forall j :: 0 <= j < |ws| ==> ws[j].parent.Exited?
  }

  predicate Shape(s: State) { |s.chans| == |s.stages| + 1 }

  predicate Enabled(s: State, l: Label)
    requires Shape(s)
  {
    l.stage < |s.stages| &&
    var st, in_, out := s.stages[l.stage], s.chans[l.stage], s.chans[l.stage + 1];
    match l
    case Put(_) => !st.done && Offer(st, in_) != [] && CanSend(out)
    case Take(_) => !st.done && !Stopped(st, in_) && st.pending == [] && in_.HasValue()
    case Work(_, j, a) => j < |st.workers| && WorkerEnabled(st.workers[j], a, s.shared, CanSend(out))
    case Return(_) =>
      && !st.done
      && Offer(st, in_) == []
      && Stopped(st, in_)
      && AllExited(st.workers)
  }

  function Next(h: Hashes, s: State, l: Label): (t: State)
    requires Shape(s) && Enabled(s, l)
    ensures Shape(t)
  {
    var i := l.stage;
    var st, in_, out, sh := s.stages[i], s.chans[i], s.chans[i + 1], s.shared;
    match l
    case Put(_) =>
      State(s.stages[i := PutOne(st)], s.chans[i + 1 := Send(out, Offer(st, in_)[0])],
            if out.closed then sh.(panics := sh.panics + 1) else sh)
    case Take(_) =>
      var v := in_.log[in_.taken];
      State(s.stages[i := Accept(st, v)], s.chans[i := in_.(taken := in_.taken + 1)], sh)
    case Work(_, j, a) =>
      var w := st.workers[j];
      State(s.stages[i := st.(workers := st.workers[j := WorkerNext(h, w, a, sh)])],
            if a.Emit? then s.chans[i + 1 := Send(out, w.parent.value)] else s.chans,
            SharedNext(sh, a, (i, j), WorkerPanics(w, a, out.closed)))
    case Return(_) =>
      State(s.stages[i := st.(done := true)], s.chans[i + 1 := out.(closed := true)],
            if out.closed then sh.(panics := sh.panics + 1) else sh)
  }

  // The job moves on after a send.
  function PutOne(st: Stage): Stage {
    if st.pending != [] then st.(pending := st.pending[1..]) else st.(sent := st.sent + 1)
  }

  // What the receive loop of a job does with one value.
  function Accept(st: Stage, v: string): Stage {
    if Fans(st.job) then st.(workers := st.workers + [Spawn(st.job, v)])
    else st.(acc := st.acc + [v], pending := st.job.f(st.acc, v))
  }

  // The schedule ls leads from s to t.
  ghost predicate Reaches(h: Hashes, s: State, ls: seq<Label>, t: State)
    requires Shape(s)
    decreases |ls|
  {
    if ls == [] then t == s
    else Enabled(s, ls[0]) && Reaches(h, Next(h, s, ls[0]), ls[1..], t)
  }
}
