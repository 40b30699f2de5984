/** Total order of the broadcast and conservation of the statistics. */
module MicroserviceProofs {
  import opened Microservice

  predicate Logged(pc: Pc) { pc.Delivering? || pc.Served? || pc.Subscribed? }

  function Events(log: seq<(nat, Event)>): (r: seq<Event>)
    ensures |r| == |log| && forall k :: 0 <= k < |log| ==> r[k] == log[k].1
  {
    seq(|log|, k requires 0 <= k < |log| => log[k].1)
  }

  // Up to where the log has been handed to subscriber j.
  function Delivered(s: State, j: nat): nat {
    if s.holder != [] && s.holder[0] < |s.calls| && s.calls[s.holder[0]].pc.Delivering?
       && s.calls[s.holder[0]].pc.ind <= j && |s.log| > 0
    then |s.log| - 1 else |s.log|
  }

  function Flatten(parts: seq<seq<Event>>): seq<Event> {
    if parts == [] then [] else parts[0] + Flatten(parts[1..])
  }

  predicate StatInv(sub: Sub)
    requires sub.StatSub?
  {
    && |sub.sent| == |sub.intervals|
    && (forall k :: 0 <= k < |sub.sent| ==> sub.sent[k] == CountsOf(sub.intervals[k]))
    && Flatten(sub.intervals) + (sub.evs + sub.hand) == sub.received
    && |sub.hand| <= 1
  }

  predicate SubInv(s: State, j: nat)
    requires j < |s.subs|
  {
    var sub := s.subs[j];
    && sub.start <= Delivered(s, j)
    && sub.received == Events(s.log)[sub.start..Delivered(s, j)]
    && (if sub.StatSub? then StatInv(sub) else sub.events + sub.hand == sub.received && |sub.hand| <= 1)
  }

  // The stream is that of a subscribed call of its own kind, whose own event came before.
  predicate StreamOfCall(s: State, j: nat)
    requires j < |s.subs|
  {
    var c := s.subs[j].call;
    && c < |s.calls| && s.calls[c].pc.Subscribed?
    && (s.subs[j].LogSub? <==> s.calls[c].kind.Logging?)
    && (s.subs[j].StatSub? <==> s.calls[c].kind.Statistics?)
    && s.subs[j].start <= |s.log| && exists k :: 0 <= k < s.subs[j].start && s.log[k].0 == c
  }

  // Every subscribed call has one stream, and the streams are in the order of registration.
  predicate OwnersInv(s: State) {
    && (forall j :: 0 <= j < |s.subs| ==> StreamOfCall(s, j))
    && (forall i, j :: 0 <= i < j < |s.subs| ==> s.subs[i].call != s.subs[j].call && s.subs[i].start <= s.subs[j].start)
    && (forall c :: 0 <= c < |s.calls| && s.calls[c].pc.Subscribed?
                    ==> exists j :: 0 <= j < |s.subs| && s.subs[j].call == c)
  }

  predicate CallInv(m: Matcher, acl: Acl, s: State, c: nat)
    requires c < |s.calls|
  {
    var call := s.calls[c];
    && (!call.pc.Rejected? <==> Authorised(m, acl, call.consumers, call.name))
    && (Logged(call.pc) <==> exists k :: 0 <= k < |s.log| && s.log[k].0 == c)
    && (call.pc.Delivering? <==> s.holder == [c])
    && (call.pc.Delivering? ==> call.pc.ind <= |s.subs| && |s.log| > 0 && s.log[|s.log| - 1].0 == c)
  }

  predicate LogInv(s: State) {
    && (forall k :: 0 <= k < |s.log| ==> s.log[k].0 < |s.calls| && s.log[k].1 == EventOf(s.calls[s.log[k].0]))
    && (forall j, k :: 0 <= j < k < |s.log| ==> s.log[j].0 != s.log[k].0)
  }

  predicate Inv(m: Matcher, acl: Acl, s: State) {
    && s.panics == 0
    && |s.holder| <= 1
    && (s.holder != [] ==> s.holder[0] < |s.calls|)
    && LogInv(s)
    && (forall c :: 0 <= c < |s.calls| ==> CallInv(m, acl, s, c))
    && (forall j :: 0 <= j < |s.subs| ==> SubInv(s, j))
  }

  lemma {:induction false} FlattenAppend(parts: seq<seq<Event>>, p: seq<Event>)
    ensures Flatten(parts + [p]) == Flatten(parts) + p
  {
    if parts == [] {
      assert parts + [p] == [p] && [p][1..] == [];
      assert Flatten([]) == [];
    } else {
      assert (parts + [p])[1..] == parts[1..] + [p];
      FlattenAppend(parts[1..], p);
    }
  }

  lemma ArriveKeepsInv(m: Matcher, acl: Acl, s: State, l: Label)
    requires Inv(m, acl, s) && l.Arrive?
    ensures Inv(m, acl, Next(m, acl, s, l))
  {
    var t := Next(m, acl, s, l);
    forall c | 0 <= c < |t.calls| ensures CallInv(m, acl, t, c) {
      if c < |s.calls| { assert CallInv(m, acl, s, c); }
    }
    forall j | 0 <= j < |t.subs| ensures SubInv(t, j) { assert SubInv(s, j); }
  }

  lemma LockKeepsInv(m: Matcher, acl: Acl, s: State, c: nat)
    requires Inv(m, acl, s) && Enabled(s, Lock(c))
    ensures Inv(m, acl, Next(m, acl, s, Lock(c)))
  {
    var t := Next(m, acl, s, Lock(c));
    assert CallInv(m, acl, s, c);
    assert t.log[|s.log|].0 == c;
    forall d | 0 <= d < |t.calls| ensures CallInv(m, acl, t, d) {
      assert CallInv(m, acl, s, d);
      assert forall k :: 0 <= k < |s.log| ==> t.log[k] == s.log[k];
    }
    assert Events(t.log) == Events(s.log) + [EventOf(s.calls[c])];
    forall j | 0 <= j < |t.subs| ensures SubInv(t, j) { assert SubInv(s, j); }
  }

  // The event is the next of the log for the subscriber that takes it.
  lemma ReceiveStep(sub: Sub, log: seq<(nat, Event)>)
    requires log != [] && Ready(sub) && sub.start < |log|
    requires sub.received == Events(log)[sub.start..|log| - 1]
    requires if sub.StatSub? then StatInv(sub) else sub.events + sub.hand == sub.received
    ensures var got := Receive(sub, log[|log| - 1].1);
            && got.received == Events(log)[sub.start..]
            && (if got.StatSub? then StatInv(got) else got.events + got.hand == got.received)
  {
    var all, n, ev := Events(log), |log| - 1, log[|log| - 1].1;
    assert all[sub.start..] == all[sub.start..n] + [all[n]];
    if sub.StatSub? {
      assert Flatten(sub.intervals) + (sub.evs + [ev]) == Flatten(sub.intervals) + (sub.evs + sub.hand) + [ev];
    }
  }

  lemma DeliverKeepsSub(m: Matcher, acl: Acl, s: State, c: nat, j: nat)
    requires Inv(m, acl, s) && Enabled(s, Deliver(c)) && j < |s.subs|
    ensures SubInv(Next(m, acl, s, Deliver(c)), j)
  {
    assert CallInv(m, acl, s, c) && SubInv(s, j);
    var t := Next(m, acl, s, Deliver(c));
    if j == s.calls[c].pc.ind {
      assert Delivered(s, j) == |s.log| - 1 && Delivered(t, j) == |s.log|;
      ReceiveStep(s.subs[j], s.log);
    } else {
      assert t.subs[j] == s.subs[j] && Delivered(t, j) == Delivered(s, j);
    }
  }

  lemma DeliverKeepsInv(m: Matcher, acl: Acl, s: State, c: nat)
    requires Inv(m, acl, s) && Enabled(s, Deliver(c))
    ensures Inv(m, acl, Next(m, acl, s, Deliver(c)))
  {
    var t := Next(m, acl, s, Deliver(c));
    assert CallInv(m, acl, s, c);
    forall d | 0 <= d < |t.calls| ensures CallInv(m, acl, t, d) { assert CallInv(m, acl, s, d); }
    forall j | 0 <= j < |t.subs| ensures SubInv(t, j) { DeliverKeepsSub(m, acl, s, c, j); }
  }

  lemma UnlockKeepsInv(m: Matcher, acl: Acl, s: State, c: nat)
    requires Inv(m, acl, s) && Enabled(s, Unlock(c))
    ensures Inv(m, acl, Next(m, acl, s, Unlock(c)))
  {
    var t := Next(m, acl, s, Unlock(c));
    assert CallInv(m, acl, s, c);
    forall d | 0 <= d < |t.calls| ensures CallInv(m, acl, t, d) { assert CallInv(m, acl, s, d); }
    forall j | 0 <= j < |t.subs| ensures SubInv(t, j) { assert SubInv(s, j); }
  }

  lemma SubscribeKeepsInv(m: Matcher, acl: Acl, s: State, c: nat)
    requires Inv(m, acl, s) && Enabled(s, Subscribe(c))
    ensures Inv(m, acl, Next(m, acl, s, Subscribe(c)))
  {
    var t := Next(m, acl, s, Subscribe(c));
    assert CallInv(m, acl, s, c);
    forall d | 0 <= d < |t.calls| ensures CallInv(m, acl, t, d) { assert CallInv(m, acl, s, d); }
    forall j | 0 <= j < |t.subs| ensures SubInv(t, j) {
      if j < |s.subs| { assert SubInv(s, j); }
    }
  }

  lemma HandleStep(sub: Sub)
    requires sub.StatSub? && StatInv(sub)
    ensures StatInv(sub.(evs := sub.evs + sub.hand, hand := []))
  {
    assert sub.evs + sub.hand + [] == sub.evs + sub.hand;
  }

  lemma TickStep(sub: Sub)
    requires sub.StatSub? && StatInv(sub)
    ensures StatInv(sub.(sent := sub.sent + [CountsOf(sub.evs)], evs := [], intervals := sub.intervals + [sub.evs]))
  {
    FlattenAppend(sub.intervals, sub.evs);
    assert Flatten(sub.intervals) + (sub.evs + sub.hand) == (Flatten(sub.intervals) + sub.evs) + ([] + sub.hand);
  }

  lemma SubscriberKeepsInv(m: Matcher, acl: Acl, s: State, l: Label)
    requires Inv(m, acl, s) && (l.Handle? || l.Tick?) && Enabled(s, l)
    ensures Inv(m, acl, Next(m, acl, s, l))
  {
    var t, j := Next(m, acl, s, l), l.sub;
    forall d | 0 <= d < |t.calls| ensures CallInv(m, acl, t, d) { assert CallInv(m, acl, s, d); }
    forall k | 0 <= k < |t.subs| ensures SubInv(t, k) {
      assert SubInv(s, k);
      if k == j && s.subs[j].StatSub? {
        if l.Handle? { HandleStep(s.subs[j]); } else { TickStep(s.subs[j]); }
      }
    }
  }

  lemma StepKeepsInv(m: Matcher, acl: Acl, s: State, l: Label)
    requires Inv(m, acl, s) && Enabled(s, l)
    ensures Inv(m, acl, Next(m, acl, s, l))
  {
    match l
    case Arrive(_, _, _, _) => ArriveKeepsInv(m, acl, s, l);
    case Lock(c) => LockKeepsInv(m, acl, s, c);
    case Deliver(c) => DeliverKeepsInv(m, acl, s, c);
    case Unlock(c) => UnlockKeepsInv(m, acl, s, c);
    case Subscribe(c) => SubscribeKeepsInv(m, acl, s, c);
    case _ => SubscriberKeepsInv(m, acl, s, l);
  }

  lemma {:induction false} RunKeepsInv(m: Matcher, acl: Acl, s: State, ls: seq<Label>, t: State)
    requires Inv(m, acl, s) && Reaches(m, acl, s, ls, t)
    ensures Inv(m, acl, t)
    decreases |ls|
  {
    if ls != [] {
      StepKeepsInv(m, acl, s, ls[0]);
      RunKeepsInv(m, acl, Next(m, acl, s, ls[0]), ls[1..], t);
    }
  }

  /** Total-order broadcast. In every run, what a subscriber has received is the contiguous part of
      the one global log that starts where the subscriber registered; it lacks at most the event
      being delivered, and nothing when the mutex is free. */
  lemma TotalOrder(m: Matcher, acl: Acl, ls: seq<Label>, t: State, j: nat)
    requires Reaches(m, acl, Init(), ls, t) && j < |t.subs|
    ensures var start, got := t.subs[j].start, t.subs[j].received;
            && start + |got| <= |t.log|
            && got == Events(t.log)[start..start + |got|]
            && |t.log| <= start + |got| + 1
            && (t.holder == [] ==> start + |got| == |t.log|)
  {
    RunKeepsInv(m, acl, Init(), ls, t);
    assert SubInv(t, j);
  }

  lemma ChangedSub(s: State, t: State, j: nat, sub: Sub)
    requires OwnersInv(s) && j < |s.subs| && t.subs == s.subs[j := sub]
    requires sub.LogSub? == s.subs[j].LogSub? && sub.call == s.subs[j].call && sub.start == s.subs[j].start
    requires t.log == s.log && |t.calls| == |s.calls|
    requires forall c :: 0 <= c < |s.calls| ==>
               t.calls[c].kind == s.calls[c].kind && (t.calls[c].pc.Subscribed? <==> s.calls[c].pc.Subscribed?)
    ensures OwnersInv(t)
  {
    forall i | 0 <= i < |t.subs| ensures StreamOfCall(t, i) { assert StreamOfCall(s, i); }
    forall c | 0 <= c < |t.calls| && t.calls[c].pc.Subscribed?
      ensures exists i :: 0 <= i < |t.subs| && t.subs[i].call == c
    {
      var i :| 0 <= i < |s.subs| && s.subs[i].call == c;
      assert t.subs[i].call == c;
    }
  }

  lemma SubscribeKeepsOwners(m: Matcher, acl: Acl, s: State, c: nat)
    requires Inv(m, acl, s) && OwnersInv(s) && Enabled(s, Subscribe(c))
    ensures OwnersInv(Next(m, acl, s, Subscribe(c)))
  {
    var t := Next(m, acl, s, Subscribe(c));
    assert CallInv(m, acl, s, c);
    forall j | 0 <= j < |t.subs| ensures StreamOfCall(t, j) {
      if j < |s.subs| { assert StreamOfCall(s, j); }
    }
    forall j | 0 <= j < |s.subs|
      ensures s.subs[j].call != c && s.subs[j].start <= |s.log|
    {
      assert StreamOfCall(s, j);
    }
    forall d | 0 <= d < |t.calls| && t.calls[d].pc.Subscribed?
      ensures exists j :: 0 <= j < |t.subs| && t.subs[j].call == d
    {
      if d == c {
        assert t.subs[|s.subs|].call == d;
      } else {
        var j :| 0 <= j < |s.subs| && s.subs[j].call == d;
        assert t.subs[j].call == d;
      }
    }
  }

  lemma CallsKeepOwners(m: Matcher, acl: Acl, s: State, l: Label)
    requires OwnersInv(s) && Enabled(s, l) && (l.Arrive? || l.Lock? || l.Unlock?)
    ensures OwnersInv(Next(m, acl, s, l))
  {
    var t := Next(m, acl, s, l);
    forall j | 0 <= j < |t.subs| ensures StreamOfCall(t, j) {
      assert StreamOfCall(s, j);
      assert forall k :: 0 <= k < |s.log| ==> t.log[k] == s.log[k];
    }
  }

  lemma StepKeepsOwners(m: Matcher, acl: Acl, s: State, l: Label)
    requires Inv(m, acl, s) && OwnersInv(s) && Enabled(s, l)
    ensures OwnersInv(Next(m, acl, s, l))
  {
    var t := Next(m, acl, s, l);
    match l
    case Subscribe(c) => SubscribeKeepsOwners(m, acl, s, c);
    case Deliver(c) => ChangedSub(s, t, s.calls[c].pc.ind, t.subs[s.calls[c].pc.ind]);
    case Handle(j) => ChangedSub(s, t, j, t.subs[j]);
    case Tick(j) => ChangedSub(s, t, j, t.subs[j]);
    case _ => CallsKeepOwners(m, acl, s, l);
  }

  lemma {:induction false} RunKeepsOwners(m: Matcher, acl: Acl, s: State, ls: seq<Label>, t: State)
    requires Inv(m, acl, s) && OwnersInv(s) && Reaches(m, acl, s, ls, t)
    ensures OwnersInv(t)
    decreases |ls|
  {
    if ls != [] {
      StepKeepsInv(m, acl, s, ls[0]);
      StepKeepsOwners(m, acl, s, ls[0]);
      RunKeepsOwners(m, acl, Next(m, acl, s, ls[0]), ls[1..], t);
    }
  }

  /** Who gets what. In every run the streams belong one to one to the calls that have subscribed, a call
      of Logging having a log stream and a call of Statistics one of statistics; they are in the order
      in which they registered, and each registered behind the event of its own call. */
  lemma SubscribersAreCalls(m: Matcher, acl: Acl, ls: seq<Label>, t: State)
    requires Reaches(m, acl, Init(), ls, t)
    ensures forall j :: 0 <= j < |t.subs| ==> StreamOfCall(t, j)
    ensures forall i, j :: 0 <= i < j < |t.subs| ==>
              t.subs[i].call != t.subs[j].call && t.subs[i].start <= t.subs[j].start
    ensures forall c :: 0 <= c < |t.calls| && t.calls[c].pc.Subscribed? ==>
              !t.calls[c].kind.Unary? && exists j :: 0 <= j < |t.subs| && t.subs[j].call == c
  {
    RunKeepsOwners(m, acl, Init(), ls, t);
    forall c | 0 <= c < |t.calls| && t.calls[c].pc.Subscribed?
      ensures !t.calls[c].kind.Unary? && exists j :: 0 <= j < |t.subs| && t.subs[j].call == c
    {
      var j :| 0 <= j < |t.subs| && t.subs[j].call == c;
      assert StreamOfCall(t, j);
    }
  }

  /** A Logging call has sent its client the events of the global log from its registration on, in their
      order, lacking at most the one in its hand and the one being delivered. */
  lemma LogStream(m: Matcher, acl: Acl, ls: seq<Label>, t: State, j: nat)
    requires Reaches(m, acl, Init(), ls, t) && j < |t.subs| && t.subs[j].LogSub?
    ensures var start, got := t.subs[j].start, t.subs[j].events;
            && start + |got| <= |t.log| <= start + |got| + 2
            && got == Events(t.log)[start..start + |got|]
            && (t.holder == [] && Ready(t.subs[j]) ==> start + |got| == |t.log|)
  {
    RunKeepsInv(m, acl, Init(), ls, t);
    assert SubInv(t, j);
    var sub, all := t.subs[j], Events(t.log);
    var n := sub.start + |sub.events|;
    assert |t.log| - 1 <= sub.start + |sub.received| <= |t.log| && n <= sub.start + |sub.received| <= n + 1;
    assert sub.events == sub.received[..|sub.events|] == all[sub.start..n];
  }

  /** The log is made of the authorised calls: an event for every call that got through the mutex,
      one per call, with the consumer that was checked; no rejected call is in it, and the index
      into the consumers was never out of range. */
  lemma LogIsAuthorised(m: Matcher, acl: Acl, ls: seq<Label>, t: State)
    requires Reaches(m, acl, Init(), ls, t)
    ensures t.panics == 0
    ensures forall k :: 0 <= k < |t.log| ==>
              var (c, ev) := t.log[k];
              && c < |t.calls| && Authorised(m, acl, t.calls[c].consumers, t.calls[c].name)
              && t.calls[c].consumers != [] && ev == Event(t.calls[c].now, t.calls[c].consumers[0], t.calls[c].name)
    ensures forall j, k :: 0 <= j < k < |t.log| ==> t.log[j].0 != t.log[k].0
    ensures forall c :: 0 <= c < |t.calls| && Logged(t.calls[c].pc) ==>
              exists k :: 0 <= k < |t.log| && t.log[k].0 == c
  {
    RunKeepsInv(m, acl, Init(), ls, t);
    forall k | 0 <= k < |t.log|
      ensures t.log[k].0 < |t.calls| &&
              Authorised(m, acl, t.calls[t.log[k].0].consumers, t.calls[t.log[k].0].name)
    {
      assert CallInv(m, acl, t, t.log[k].0);
    }
    forall c | 0 <= c < |t.calls| && Logged(t.calls[c].pc)
      ensures exists k :: 0 <= k < |t.log| && t.log[k].0 == c
    {
      assert CallInv(m, acl, t, c);
    }
  }

  /** Whoever holds the mutex gets rid of it: its next delivery can proceed, or the subscriber it
      waits for can. */
  lemma HolderNeverStuck(m: Matcher, acl: Acl, ls: seq<Label>, t: State)
    requires Reaches(m, acl, Init(), ls, t) && t.holder != []
    ensures var c := t.holder[0];
            && c < |t.calls| && t.calls[c].pc.Delivering?
            && (Enabled(t, Deliver(c)) || Enabled(t, Unlock(c)) || Enabled(t, Handle(t.calls[c].pc.ind)))
  {
    RunKeepsInv(m, acl, Init(), ls, t);
    assert CallInv(m, acl, t, t.holder[0]);
  }

  predicate HeldBy(s: State, c: nat) {
    s.holder == [c] && c < |s.calls| && s.calls[c].pc.Delivering? && s.calls[c].pc.ind <= |s.subs|
  }

  function Deliveries(ls: seq<Label>): nat {
    if ls == [] then 0 else (if ls[0].Deliver? then 1 else 0) + Deliveries(ls[1..])
  }

  // While the mutex is held nobody subscribes, and only the holder delivers and unlocks.
  lemma HeldStep(m: Matcher, acl: Acl, s: State, l: Label, c: nat)
    requires Inv(m, acl, s) && HeldBy(s, c) && Enabled(s, l) && l != Unlock(c)
    ensures var t := Next(m, acl, s, l);
            HeldBy(t, c) && |t.subs| == |s.subs|
            && t.calls[c].pc.ind == s.calls[c].pc.ind + if l.Deliver? then 1 else 0
  {
    if l.Unlock? || l.Deliver? {
      assert CallInv(m, acl, s, l.call);
    }
  }

  lemma {:induction false} HeldRun(m: Matcher, acl: Acl, s: State, c: nat, ls: seq<Label>, t: State)
    requires Inv(m, acl, s) && HeldBy(s, c) && Reaches(m, acl, s, ls, t) && Unlock(c) !in ls
    ensures HeldBy(t, c) && |t.subs| == |s.subs|
    ensures s.calls[c].pc.ind + Deliveries(ls) == t.calls[c].pc.ind <= |s.subs|
    decreases |ls|
  {
    if ls != [] {
      HeldStep(m, acl, s, ls[0], c);
      StepKeepsInv(m, acl, s, ls[0]);
      HeldRun(m, acl, Next(m, acl, s, ls[0]), c, ls[1..], t);
    }
  }

  lemma {:induction false} FinishHeld(m: Matcher, acl: Acl, s: State, c: nat) returns (ls: seq<Label>, t: State)
    requires Inv(m, acl, s) && HeldBy(s, c)
    ensures Reaches(m, acl, s, ls, t) && t.holder == []
    ensures |ls| <= 2 * (|s.subs| - s.calls[c].pc.ind) + 1
    ensures s.calls[c].pc.ind < |s.subs| && Ready(s.subs[s.calls[c].pc.ind]) ==>
              |ls| <= 2 * (|s.subs| - s.calls[c].pc.ind)
    ensures |t.calls| == |s.calls| && t.log == s.log && t.calls[c] == s.calls[c].(pc := Served)
    ensures forall d :: 0 <= d < |s.calls| && d != c ==> t.calls[d] == s.calls[d]
    decreases |s.subs| - s.calls[c].pc.ind, s.calls[c].pc.ind < |s.subs| && !Ready(s.subs[s.calls[c].pc.ind])
  {
    var ind := s.calls[c].pc.ind;
    if ind == |s.subs| {
      t := Next(m, acl, s, Unlock(c));
      ls := [Unlock(c)];
      assert ls[1..] == [];
    } else {
      var l := if Ready(s.subs[ind]) then Deliver(c) else Handle(ind);
      HeldStep(m, acl, s, l, c);
      StepKeepsInv(m, acl, s, l);
      var rest, u := FinishHeld(m, acl, Next(m, acl, s, l), c);
      ls, t := [l] + rest, u;
      assert ls[1..] == rest;
    }
  }

  /** A delivery takes a bounded number of steps: until the holder unlocks, whatever else happens, it
      delivers once to each subscriber there was when it locked. */
  lemma DeliveriesAreBounded(m: Matcher, acl: Acl, past: seq<Label>, s: State, ls: seq<Label>, t: State)
    requires Reaches(m, acl, Init(), past, s) && s.holder != []
    requires Reaches(m, acl, s, ls, t) && Unlock(s.holder[0]) !in ls
    ensures var c := s.holder[0];
            && HeldBy(s, c) && HeldBy(t, c) && |t.subs| == |s.subs|
            && s.calls[c].pc.ind + Deliveries(ls) == t.calls[c].pc.ind <= |s.subs|
  {
    RunKeepsInv(m, acl, Init(), past, s);
    assert CallInv(m, acl, s, s.holder[0]);
    HeldRun(m, acl, s, s.holder[0], ls, t);
  }

  /** And it can always be finished: a schedule of at most two steps for every subscriber still to be
      served -- its handler becoming ready, and the delivery -- frees the mutex. */
  lemma DeliveryFinishes(m: Matcher, acl: Acl, past: seq<Label>, s: State) returns (ls: seq<Label>, t: State)
    requires Reaches(m, acl, Init(), past, s) && s.holder != []
    ensures HeldBy(s, s.holder[0])
    ensures Reaches(m, acl, s, ls, t) && t.holder == []
    ensures |ls| <= 2 * (|s.subs| - s.calls[s.holder[0]].pc.ind) + 1
  {
    RunKeepsInv(m, acl, Init(), past, s);
    assert CallInv(m, acl, s, s.holder[0]);
    ls, t := FinishHeld(m, acl, s, s.holder[0]);
  }

  // The calls that have come in, in their order.
  function Arrivals(ls: seq<Label>): seq<Label> {
    if ls == [] then [] else (if ls[0].Arrive? then [ls[0]] else []) + Arrivals(ls[1..])
  }

  predicate CallOf(c: Call, l: Label) {
    l.Arrive? && c.consumers == l.consumers && c.name == l.name && c.now == l.now && c.kind == l.kind
  }

  lemma {:induction false} CallsOfRun(m: Matcher, acl: Acl, s: State, ls: seq<Label>, t: State)
    requires Reaches(m, acl, s, ls, t)
    ensures |t.calls| == |s.calls| + |Arrivals(ls)|
    ensures forall k :: 0 <= k < |s.calls| ==>
              && t.calls[k].consumers == s.calls[k].consumers && t.calls[k].name == s.calls[k].name
              && t.calls[k].now == s.calls[k].now && t.calls[k].kind == s.calls[k].kind
    ensures forall k :: 0 <= k < |Arrivals(ls)| ==> CallOf(t.calls[|s.calls| + k], Arrivals(ls)[k])
    decreases |ls|
  {
    if ls != [] {
      var v := Next(m, acl, s, ls[0]);
      CallsOfRun(m, acl, v, ls[1..], t);
      if ls[0].Arrive? {
        forall k | 0 < k < |Arrivals(ls)| ensures CallOf(t.calls[|s.calls| + k], Arrivals(ls)[k]) {
          assert CallOf(t.calls[|v.calls| + (k - 1)], Arrivals(ls[1..])[k - 1]);
        }
      }
    }
  }

  /** Nothing is lost: the calls of a run are, one for one and in order, those that came in. */
  lemma CallsAreArrivals(m: Matcher, acl: Acl, ls: seq<Label>, t: State)
    requires Reaches(m, acl, Init(), ls, t)
    ensures |t.calls| == |Arrivals(ls)| && forall k :: 0 <= k < |t.calls| ==> CallOf(t.calls[k], Arrivals(ls)[k])
  {
    CallsOfRun(m, acl, Init(), ls, t);
  }

  lemma {:induction false} ReachesOn(m: Matcher, acl: Acl, s: State, a: seq<Label>, t: State, b: seq<Label>, u: State)
    requires Reaches(m, acl, s, a, t) && Reaches(m, acl, t, b, u)
    ensures Reaches(m, acl, s, a + b, u)
    decreases |a|
  {
    if a == [] {
      assert a + b == b;
    } else {
      assert (a + b)[1..] == a[1..] + b;
      ReachesOn(m, acl, Next(m, acl, s, a[0]), a[1..], t, b, u);
    }
  }

  // A schedule that frees the mutex and leaves the other calls where they are.
  lemma Release(m: Matcher, acl: Acl, s: State) returns (ls: seq<Label>, t: State)
    requires Inv(m, acl, s)
    ensures Reaches(m, acl, s, ls, t) && Inv(m, acl, t) && t.holder == [] && |t.calls| == |s.calls| && t.log == s.log
    ensures forall c :: 0 <= c < |s.calls| && !s.calls[c].pc.Delivering? ==> t.calls[c] == s.calls[c]
    ensures forall c :: 0 <= c < |s.calls| && s.calls[c].pc.Delivering? ==> t.calls[c] == s.calls[c].(pc := Served)
  {
    forall c | 0 <= c < |s.calls| && s.calls[c].pc.Delivering? ensures s.holder == [c] { assert CallInv(m, acl, s, c); }
    if s.holder == [] {
      ls, t := [], s;
    } else {
      assert CallInv(m, acl, s, s.holder[0]);
      ls, t := FinishHeld(m, acl, s, s.holder[0]);
      RunKeepsInv(m, acl, s, ls, t);
    }
  }

  /** An authorised call is answered: from every state in which one waits some schedule logs its event
      last, hands it to everybody, and returns; and a streaming call can then subscribe. */
  lemma WaitingIsServed(m: Matcher, acl: Acl, past: seq<Label>, s: State, c: nat) returns (ls: seq<Label>, t: State)
    requires Reaches(m, acl, Init(), past, s) && c < |s.calls| && s.calls[c].pc.Waiting?
    ensures Reaches(m, acl, s, ls, t) && c < |t.calls|
    ensures t.log == s.log + [(c, EventOf(s.calls[c]))] && t.holder == []
    ensures t.calls[c] == s.calls[c].(pc := if s.calls[c].kind.Unary? then Served else Subscribed)
  {
    RunKeepsInv(m, acl, Init(), past, s);
    var a, v := Release(m, acl, s);
    var w := Next(m, acl, v, Lock(c));
    LockKeepsInv(m, acl, v, c);
    OneStep(m, acl, v, Lock(c));
    var b, x := Release(m, acl, w);
    ReachesOn(m, acl, s, a, v, [Lock(c)], w);
    ReachesOn(m, acl, s, a + [Lock(c)], w, b, x);
    ls, t := a + [Lock(c)] + b, x;
    if !s.calls[c].kind.Unary? {
      OneStep(m, acl, x, Subscribe(c));
      ReachesOn(m, acl, s, ls, x, [Subscribe(c)], Next(m, acl, x, Subscribe(c)));
      ls, t := ls + [Subscribe(c)], Next(m, acl, x, Subscribe(c));
    }
  }

  lemma OneStep(m: Matcher, acl: Acl, s: State, l: Label)
    requires Enabled(s, l)
    ensures Reaches(m, acl, s, [l], Next(m, acl, s, l))
  {
    assert [l][1..] == [];
  }

  function At(counts: map<string, nat>, n: string): nat { if n in counts then counts[n] else 0 }

  function SentMethod(sent: seq<Stat>, n: string): nat {
    if sent == [] then 0 else At(sent[0].byMethod, n) + SentMethod(sent[1..], n)
  }

  function SentConsumer(sent: seq<Stat>, n: string): nat {
    if sent == [] then 0 else At(sent[0].byConsumer, n) + SentConsumer(sent[1..], n)
  }

  function MethodCount(evs: seq<Event>, n: string): nat { multiset(Methods(evs))[n] }
  function ConsumerCount(evs: seq<Event>, n: string): nat { multiset(Consumers(evs))[n] }

  lemma CountConcat(a: seq<Event>, b: seq<Event>, n: string)
    ensures MethodCount(a + b, n) == MethodCount(a, n) + MethodCount(b, n)
    ensures ConsumerCount(a + b, n) == ConsumerCount(a, n) + ConsumerCount(b, n)
  {
    assert Methods(a + b) == Methods(a) + Methods(b);
    assert Consumers(a + b) == Consumers(a) + Consumers(b);
  }

  lemma {:induction false} SentCounts(sent: seq<Stat>, intervals: seq<seq<Event>>, n: string)
    requires |sent| == |intervals| && forall k :: 0 <= k < |sent| ==> sent[k] == CountsOf(intervals[k])
    ensures SentMethod(sent, n) == MethodCount(Flatten(intervals), n)
    ensures SentConsumer(sent, n) == ConsumerCount(Flatten(intervals), n)
  {
    if sent != [] {
      SentCounts(sent[1..], intervals[1..], n);
      CountConcat(intervals[0], Flatten(intervals[1..]), n);
    }
  }

  lemma SubscriberConserves(sub: Sub, n: string)
    requires sub.StatSub? && StatInv(sub)
    ensures SentMethod(sub.sent, n) + MethodCount(sub.evs + sub.hand, n) == MethodCount(sub.received, n)
    ensures SentConsumer(sub.sent, n) + ConsumerCount(sub.evs + sub.hand, n) == ConsumerCount(sub.received, n)
  {
    SentCounts(sub.sent, sub.intervals, n);
    CountConcat(Flatten(sub.intervals), sub.evs + sub.hand, n);
  }

  /** Conservation: for every name, what all statistics sent so far say about it, plus what is still
      pending, is its number of occurrences in the part of the global log the subscriber received. */
  lemma StatisticsConserve(m: Matcher, acl: Acl, ls: seq<Label>, t: State, j: nat, n: string)
    requires Reaches(m, acl, Init(), ls, t) && j < |t.subs| && t.subs[j].StatSub?
    ensures var sub := t.subs[j];
            var got := Events(t.log)[..Delivered(t, j)];
            && sub.start <= |got|
            && SentMethod(sub.sent, n) + MethodCount(sub.evs + sub.hand, n) == MethodCount(got[sub.start..], n)
            && SentConsumer(sub.sent, n) + ConsumerCount(sub.evs + sub.hand, n) == ConsumerCount(got[sub.start..], n)
  {
    RunKeepsInv(m, acl, Init(), ls, t);
    assert SubInv(t, j);
    SubscriberConserves(t.subs[j], n);
    var sub := t.subs[j];
    assert Events(t.log)[..Delivered(t, j)][sub.start..] == Events(t.log)[sub.start..Delivered(t, j)];
  }

  ghost function Total(counts: map<string, nat>): nat
    decreases |counts|
  {
    if counts == map[] then 0
    else
      var n :| n in counts;
      assert |counts - {n}| < |counts| by { CardinalityRemove(counts, n); }
      counts[n] + Total(counts - {n})
  }

  lemma CardinalityRemove(counts: map<string, nat>, n: string)
    requires n in counts
    ensures |counts - {n}| == |counts| - 1
  {
    assert (counts - {n}).Keys == counts.Keys - {n};
    assert |counts| == |counts.Keys| && |counts - {n}| == |(counts - {n}).Keys|;
  }

  lemma {:induction false} TotalRemove(counts: map<string, nat>, n: string)
    requires n in counts
    ensures Total(counts) == counts[n] + Total(counts - {n})
    decreases |counts|
  {
    var x :| x in counts && Total(counts) == counts[x] + Total(counts - {x});
    if x != n {
      CardinalityRemove(counts, x);
      CardinalityRemove(counts, n);
      TotalRemove(counts - {x}, n);
      TotalRemove(counts - {n}, x);
      assert counts - {x} - {n} == counts - {n} - {x};
    }
  }

  lemma {:induction false} TallyTotal(names: seq<string>)
    ensures Total(Tally(names)) == |names|
  {
    if names != [] {
      var rest, n := names[..|names| - 1], names[|names| - 1];
      assert names == rest + [n];
      TallyTotal(rest);
      TallyAppend(rest, n);
      TotalRemove(Tally(names), n);
      if n in Tally(rest) {
        TotalRemove(Tally(rest), n);
      } else {
        assert Tally(rest) - {n} == Tally(rest);
      }
      assert Tally(names) - {n} == Tally(rest) - {n};
    } else {
      assert Tally(names) == map[];
    }
  }

  /** In every statistic a Statistics call has sent, the methods and the consumers both add up to the
      number of events of its interval, and the intervals follow each other without gap or overlap. */
  lemma StatisticsBalance(m: Matcher, acl: Acl, ls: seq<Label>, t: State, j: nat, k: nat)
    requires Reaches(m, acl, Init(), ls, t) && j < |t.subs| && t.subs[j].StatSub? && k < |t.subs[j].sent|
    ensures var sub := t.subs[j];
            && |sub.intervals| == |sub.sent|
            && Total(sub.sent[k].byMethod) == Total(sub.sent[k].byConsumer) == |sub.intervals[k]|
            && Flatten(sub.intervals) <= sub.received
  {
    RunKeepsInv(m, acl, Init(), ls, t);
    assert SubInv(t, j);
    var interval := t.subs[j].intervals[k];
    TallyTotal(Methods(interval));
    TallyTotal(Consumers(interval));
  }
}
