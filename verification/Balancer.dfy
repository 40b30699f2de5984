/** The batch protocol of lectures/C2W3/microservices/grpc_lb_sd/client-lite/balancer.go: the length
    of a batch travels on the one-slot channel `side`, its updates on the one-slot channel `update`,
    and `readDone` is an unbuffered channel with two possible receivers. */
module Balancer {
  datatype Update = Add(addr: string) | Delete(addr: string)

  type Batch = seq<Update>

  // testWatcher.Next, called again and again.
  datatype Reader =
    | AtSide                                     // <-w.side
    | AtUpdate(n: nat, i: nat, updates: Batch)   // <-w.update, inside the loop
    | AtDone(updates: Batch)                     // w.readDone <- 0

  // One sequential caller of inject; `returned` batches have been injected.
  datatype Injector =
    | Idle
    | SendLength          // w.side <- len(updates)
    | SendUpdate(k: nat)  // w.update <- updates[k]
    | AwaitDone           // <-w.readDone

  datatype State = State(
    side: seq<nat>, update: seq<Update>, helper: bool,
    reader: Reader, results: seq<Batch>,
    injector: Injector, returned: nat)

  // Resolve: the first length and the first update are sent, and a helper waits for the acknowledgement.
  function Resolve(addr: string): State {
    State([1], [Add(addr)], true, AtSide, [], Idle, 0)
  }

  datatype Label =
    | Inject            // the next call of inject begins
    | PutLength
    | PutUpdate
    | ReadLength
    | ReadUpdate
    | AckHelper         // the helper receives from readDone
    | AckInjector       // inject receives from readDone

  predicate Enabled(batches: seq<Batch>, s: State, l: Label) {
    match l
    case Inject => s.injector.Idle? && s.returned < |batches|
    case PutLength => s.injector.SendLength? && s.side == []
    case PutUpdate => s.injector.SendUpdate? && s.update == []
    case ReadLength => s.reader.AtSide? && s.side != [] && s.side[0] > 0 // a length of 0 is an error of Next
    case ReadUpdate => s.reader.AtUpdate? && s.update != []
    case AckHelper => s.reader.AtDone? && s.helper
    case AckInjector => s.reader.AtDone? && s.injector.AwaitDone?
  }

  // Where the injector stands once k updates of its batch are sent.
  function Sending(batch: Batch, k: nat): Injector {
    if k < |batch| then SendUpdate(k) else AwaitDone
  }

  function Reading(n: nat, i: nat, updates: Batch): Reader {
    if i < n then AtUpdate(n, i, updates) else AtDone(updates)
  }

  function Next(batches: seq<Batch>, s: State, l: Label): State
    requires Enabled(batches, s, l)
  {
    match l
    case Inject => s.(injector := SendLength)
    case PutLength =>
      if s.returned < |batches| then
        s.(side := [|batches[s.returned]|], injector := Sending(batches[s.returned], 0))
      else s
    case PutUpdate =>
      if s.returned < |batches| && s.injector.k < |batches[s.returned]| then
        s.(update := [batches[s.returned][s.injector.k]],
           injector := Sending(batches[s.returned], s.injector.k + 1))
      else s
    case ReadLength => s.(side := s.side[1..], reader := Reading(s.side[0], 0, []))
    case ReadUpdate =>
      var AtUpdate(n, i, updates) := s.reader;
      s.(update := s.update[1..], reader := Reading(n, i + 1, updates + [s.update[0]]))
    case AckHelper => s.(helper := false, reader := AtSide, results := s.results + [s.reader.updates])
    case AckInjector =>
      s.(injector := Idle, returned := s.returned + 1, reader := AtSide, results := s.results + [s.reader.updates])
  }

  ghost predicate Reaches(batches: seq<Batch>, s: State, ls: seq<Label>, t: State)
    decreases |ls|
  {
    if ls == [] then t == s
    else Enabled(batches, s, ls[0]) && Reaches(batches, Next(batches, s, ls[0]), ls[1..], t)
  }

  // inject is only called with something to inject (client_lb.go guards both calls).
  predicate NonEmpty(batches: seq<Batch>) {
    forall k :: 0 <= k < |batches| ==> batches[k] != []
  }

  // Everything Next is to return, in order.
  function All(addr: string, batches: seq<Batch>): seq<Batch> {
    [[Add(addr)]] + batches
  }

  /* How many updates of batch number b (in the numbering of All) the injector has sent. Number 0 is
     sent by Resolve; number returned + 1 is the one being injected. */
  predicate LengthSent(s: State, b: nat) {
    b <= s.returned || (b == s.returned + 1 && (s.injector.SendUpdate? || s.injector.AwaitDone?))
  }

  function UpdatesSent(addr: string, batches: seq<Batch>, s: State, b: nat): nat
    requires b <= |batches|
  {
    if b <= s.returned then |All(addr, batches)[b]|
    else if b > s.returned + 1 then 0
    else match s.injector
      case Idle => 0
      case SendLength => 0
      case SendUpdate(k) => k
      case AwaitDone => |All(addr, batches)[b]|
  }

  // How many updates of batch b Next has received.
  function UpdatesRead(addr: string, batches: seq<Batch>, s: State, b: nat): nat
    requires b <= |batches|
  {
    if b < |s.results| then |All(addr, batches)[b]|
    else if b > |s.results| then 0
    else match s.reader
      case AtSide => 0
      case AtUpdate(_, i, _) => i
      case AtDone(_) => |All(addr, batches)[b]|
  }

  predicate LengthRead(s: State, b: nat) {
    b < |s.results| || (b == |s.results| && !s.reader.AtSide?)
  }

  // Who owes an acknowledgement to whom, and what Next has returned.
  predicate Acknowledged(addr: string, batches: seq<Batch>, s: State) {
    && s.returned <= |batches|
    && (!s.injector.Idle? ==> s.returned < |batches|)
    && (s.injector.SendUpdate? ==> s.injector.k < |batches[s.returned]|)
    && |s.results| + (if s.helper then 1 else 0) == s.returned + 1
    && s.results == All(addr, batches)[..|s.results|]
  }

  // Next is inside batch number |results| and holds what it has received of it.
  predicate ReaderInStep(addr: string, batches: seq<Batch>, s: State) {
    var all, r := All(addr, batches), |s.results|;
    match s.reader
    case AtSide => true
    case AtUpdate(n, i, updates) => r <= |batches| && n == |all[r]| && i < n && updates == all[r][..i]
    case AtDone(updates) => r <= |batches| && updates == all[r]
  }

  // The slot of the lengths holds what has been sent and not been received.
  predicate LengthsInStep(addr: string, batches: seq<Batch>, s: State) {
    var all, r := All(addr, batches), |s.results|;
    && (LengthRead(s, r) ==> LengthSent(s, r))
    && s.side == (if r <= |batches| && !LengthRead(s, r) && LengthSent(s, r) then [|all[r]|]
                  else if r + 1 <= |batches| && LengthSent(s, r + 1) then [|all[r + 1]|] else [])
    && (r + 1 <= |batches| && !LengthRead(s, r) ==> !LengthSent(s, r + 1))
  }

  // So does the slot of the updates.
  predicate UpdatesInStep(addr: string, batches: seq<Batch>, s: State) {
    var all, r := All(addr, batches), |s.results|;
    if r > |batches| then s.update == []
    else
      var sent, read := UpdatesSent(addr, batches, s, r), UpdatesRead(addr, batches, s, r);
      var ahead := if r < |batches| then UpdatesSent(addr, batches, s, r + 1) else 0;
      && read <= sent <= read + 1 && sent <= |all[r]|
      && ahead <= 1
      && (ahead > 0 ==> read == sent == |all[r]| && all[r + 1] != [])
      && s.update == (if read < sent then [all[r][read]] else if ahead > 0 then [all[r + 1][0]] else [])
  }

  // The two streams stay in step, whatever the interleaving.
  predicate Inv(addr: string, batches: seq<Batch>, s: State) {
    && NonEmpty(batches)
    && Acknowledged(addr, batches, s)
    && ReaderInStep(addr, batches, s)
    && LengthsInStep(addr, batches, s)
    && UpdatesInStep(addr, batches, s)
  }

  lemma ResolveInv(addr: string, batches: seq<Batch>)
    requires NonEmpty(batches)
    ensures Inv(addr, batches, Resolve(addr))
  {
  }

  lemma StepKeepsAcknowledged(addr: string, batches: seq<Batch>, s: State, l: Label)
    requires Inv(addr, batches, s) && Enabled(batches, s, l)
    ensures Acknowledged(addr, batches, Next(batches, s, l))
  {
  }

  lemma StepKeepsReader(addr: string, batches: seq<Batch>, s: State, l: Label)
    requires Inv(addr, batches, s) && Enabled(batches, s, l)
    ensures ReaderInStep(addr, batches, Next(batches, s, l))
  {
  }

  lemma StepKeepsLengths(addr: string, batches: seq<Batch>, s: State, l: Label)
    requires Inv(addr, batches, s) && Enabled(batches, s, l)
    ensures LengthsInStep(addr, batches, Next(batches, s, l))
  {
  }

  lemma StepKeepsUpdates(addr: string, batches: seq<Batch>, s: State, l: Label)
    requires Inv(addr, batches, s) && Enabled(batches, s, l)
    ensures UpdatesInStep(addr, batches, Next(batches, s, l))
  {
  }

  lemma StepKeepsInv(addr: string, batches: seq<Batch>, s: State, l: Label)
    requires Inv(addr, batches, s) && Enabled(batches, s, l)
    ensures Inv(addr, batches, Next(batches, s, l))
  {
    StepKeepsAcknowledged(addr, batches, s, l);
    StepKeepsReader(addr, batches, s, l);
    StepKeepsLengths(addr, batches, s, l);
    StepKeepsUpdates(addr, batches, s, l);
  }

  lemma {:induction false} RunKeepsInv(addr: string, batches: seq<Batch>, s: State, ls: seq<Label>, t: State)
    requires Inv(addr, batches, s) && Reaches(batches, s, ls, t)
    ensures Inv(addr, batches, t)
    decreases |ls|
  {
    if ls != [] {
      StepKeepsInv(addr, batches, s, ls[0]);
      RunKeepsInv(addr, batches, Next(batches, s, ls[0]), ls[1..], t);
    }
  }

  /** Framing. Whatever the interleaving, the batches Next has returned are the first ones of the
      initial address followed by the injected batches, each whole and in order. */
  lemma Framing(addr: string, batches: seq<Batch>, ls: seq<Label>, t: State)
    requires NonEmpty(batches) && Reaches(batches, Resolve(addr), ls, t)
    ensures t.results <= All(addr, batches)
  {
    ResolveInv(addr, batches);
    RunKeepsInv(addr, batches, Resolve(addr), ls, t);
  }

  /** Acknowledgements. Every completed Next was acknowledged to one inject or to the helper, so the
      injector is at most one batch ahead; and Next never waits on readDone without a receiver. */
  lemma Acknowledgements(addr: string, batches: seq<Batch>, ls: seq<Label>, t: State)
    requires NonEmpty(batches) && Reaches(batches, Resolve(addr), ls, t)
    ensures |t.results| == t.returned + if t.helper then 0 else 1
    ensures forall b: nat :: LengthSent(t, b) ==> b <= |t.results| + 1
    ensures t.reader.AtDone? ==> Enabled(batches, t, AckHelper) || Enabled(batches, t, AckInjector)
  {
    ResolveInv(addr, batches);
    RunKeepsInv(addr, batches, Resolve(addr), ls, t);
  }

  function Steps(batches: seq<Batch>): nat {
    if batches == [] then 0 else Steps(batches[..|batches| - 1]) + |batches[|batches| - 1]| + 2
  }

  lemma StepsTake(batches: seq<Batch>, k: nat)
    requires k < |batches|
    ensures Steps(batches[..k + 1]) == Steps(batches[..k]) + |batches[k]| + 2
  {
    assert batches[..k + 1][..k] == batches[..k];
  }

  lemma {:induction false} StepsMonotone(batches: seq<Batch>, k: nat)
    requires k <= |batches|
    ensures Steps(batches[..k]) <= Steps(batches)
    decreases |batches| - k
  {
    if k < |batches| {
      StepsTake(batches, k);
      StepsMonotone(batches, k + 1);
    } else {
      assert batches[..k] == batches;
    }
  }

  // The steps the injector has made.
  function Injected(batches: seq<Batch>, s: State): nat
    requires s.returned <= |batches| && (s.injector.AwaitDone? ==> s.returned < |batches|)
  {
    Steps(batches[..s.returned])
    + match s.injector
      case Idle => 0 case SendLength => 1 case SendUpdate(k) => 2 + k
      case AwaitDone => 2 + |batches[s.returned]|
  }

  // The steps Next has made.
  function Read(addr: string, batches: seq<Batch>, s: State): nat
    requires |s.results| <= |batches| + 1
  {
    Steps(All(addr, batches)[..|s.results|])
    + match s.reader
      case AtSide => 0 case AtUpdate(_, i, _) => 1 + i case AtDone(updates) => 1 + |updates|
  }

  function Progress(addr: string, batches: seq<Batch>, s: State): nat
    requires Acknowledged(addr, batches, s)
  {
    Injected(batches, s) + Read(addr, batches, s)
  }

  // Every step is one of the injector, one of Next, or the acknowledgement between the two, which
  // the injector does not count.
  lemma StepAdvancesInjector(addr: string, batches: seq<Batch>, s: State, l: Label)
    requires Inv(addr, batches, s) && Enabled(batches, s, l)
    requires Acknowledged(addr, batches, Next(batches, s, l))
    ensures Injected(batches, Next(batches, s, l))
         == Injected(batches, s) + if l.Inject? || l.PutLength? || l.PutUpdate? then 1 else 0
  {
    if s.returned < |batches| { StepsTake(batches, s.returned); }
  }

  lemma StepAdvancesReader(addr: string, batches: seq<Batch>, s: State, l: Label)
    requires Inv(addr, batches, s) && Enabled(batches, s, l)
    requires Acknowledged(addr, batches, Next(batches, s, l))
    ensures Read(addr, batches, Next(batches, s, l))
         == Read(addr, batches, s) + if l.Inject? || l.PutLength? || l.PutUpdate? then 0 else 1
  {
    if |s.results| <= |batches| { StepsTake(All(addr, batches), |s.results|); }
  }

  lemma StepAdvances(addr: string, batches: seq<Batch>, s: State, l: Label)
    requires Inv(addr, batches, s) && Enabled(batches, s, l)
    ensures Inv(addr, batches, Next(batches, s, l))
    ensures Progress(addr, batches, Next(batches, s, l)) == Progress(addr, batches, s) + 1
  {
    StepKeepsInv(addr, batches, s, l);
    StepAdvancesInjector(addr, batches, s, l);
    StepAdvancesReader(addr, batches, s, l);
  }

  lemma InjectedBound(addr: string, batches: seq<Batch>, s: State)
    requires Acknowledged(addr, batches, s)
    ensures Injected(batches, s) <= Steps(batches)
  {
    StepsMonotone(batches, s.returned);
    if s.returned < |batches| {
      StepsTake(batches, s.returned);
      StepsMonotone(batches, s.returned + 1);
    }
  }

  lemma ReadBound(addr: string, batches: seq<Batch>, s: State)
    requires Acknowledged(addr, batches, s) && ReaderInStep(addr, batches, s)
    ensures Read(addr, batches, s) <= Steps(All(addr, batches))
  {
    var all := All(addr, batches);
    StepsMonotone(all, |s.results|);
    if |s.results| <= |batches| {
      StepsTake(all, |s.results|);
      StepsMonotone(all, |s.results| + 1);
    }
  }

  lemma {:induction false} RunIsBounded(addr: string, batches: seq<Batch>, s: State, ls: seq<Label>, t: State)
    requires Inv(addr, batches, s) && Reaches(batches, s, ls, t)
    ensures |ls| + Progress(addr, batches, s) <= Steps(batches) + Steps(All(addr, batches))
    decreases |ls|
  {
    if ls == [] {
      InjectedBound(addr, batches, s);
      ReadBound(addr, batches, s);
    } else {
      StepAdvances(addr, batches, s, ls[0]);
      RunIsBounded(addr, batches, Next(batches, s, ls[0]), ls[1..], t);
    }
  }

  // When nobody can step, the injector and Next wait for more, and the helper is gone.
  lemma QuietMeansDelivered(addr: string, batches: seq<Batch>, s: State)
    requires Inv(addr, batches, s)
    requires forall l :: !Enabled(batches, s, l)
    ensures s.results == All(addr, batches) && s.returned == |batches| && !s.helper
  {
    assert s.injector.Idle? || s.injector.AwaitDone? || s.update != [] || s.side != [] by {
      assert !Enabled(batches, s, PutLength) && !Enabled(batches, s, PutUpdate);
    }
    assert !s.reader.AtDone? by {
      assert !Enabled(batches, s, AckHelper) && !Enabled(batches, s, AckInjector);
    }
    assert s.reader.AtSide? by { assert !Enabled(batches, s, ReadUpdate); }
    assert s.side == [] by { assert !Enabled(batches, s, ReadLength); }
    assert s.injector.Idle?;
    assert !Enabled(batches, s, Inject);
  }

  /** As long as Next is called again, every run ends, and it ends with everything delivered. */
  lemma {:induction false} EverythingIsDelivered(addr: string, batches: seq<Batch>, ls: seq<Label>, t: State)
    requires NonEmpty(batches) && Reaches(batches, Resolve(addr), ls, t)
    ensures |ls| <= Steps(batches) + Steps(All(addr, batches))
    ensures (forall l :: !Enabled(batches, t, l)) ==>
              t.results == All(addr, batches) && t.returned == |batches| && !t.helper
  {
    ResolveInv(addr, batches);
    RunKeepsInv(addr, batches, Resolve(addr), ls, t);
    RunIsBounded(addr, batches, Resolve(addr), ls, t);
    if forall l :: !Enabled(batches, t, l) {
      QuietMeansDelivered(addr, batches, t);
    }
  }
}
