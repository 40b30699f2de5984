/** HW/hw7_microservice: access control, the broadcast of events to the subscribers of the admin
    service, and the statistics of an interval.

    The mutex shared by Interceptor and AdminServerImpl orders everything: an intercepted call holds
    it while it hands its event to one subscriber after the other, and a subscriber registers under
    it. Every step is one operation on that mutex or one rendezvous on the channel of a subscriber. */
module Microservice {
  type Acl = map<string, seq<string>>

  // Whether regexp.Match(pattern, method) answers true without an error.
  type Matcher = (string, string) -> bool

  predicate Allowed(m: Matcher, patterns: seq<string>, name: string) {
    exists k :: 0 <= k < |patterns| && m(patterns[k], name)
  }

  // `consumers` is md.Get("consumer").
  predicate Authorised(m: Matcher, acl: Acl, consumers: seq<string>, name: string) {
    consumers != [] && consumers[0] in acl && Allowed(m, acl[consumers[0]], name)
  }

  method Contains(m: Matcher, s: seq<string>, e: string) returns (found: bool)
    ensures found <==> Allowed(m, s, e)
  {
    for k := 0 to |s|
      invariant forall i :: 0 <= i < k ==> !m(s[i], e)
    {
      if m(s[k], e) { return true; }
    }
    return false;
  }

  method CheckAuth(m: Matcher, acl: Acl, consumers: seq<string>, name: string) returns (ok: bool)
    ensures ok <==> Authorised(m, acl, consumers, name)
    ensures ok <==> consumers != [] && consumers[0] in acl
                    && exists k :: 0 <= k < |acl[consumers[0]]| && m(acl[consumers[0]][k], name)
  {
    if |consumers| > 0 {
      if consumers[0] in acl {
        ok := Contains(m, acl[consumers[0]], name);
        return;
      }
    }
    return false;
  }

  datatype Event = Event(timestamp: int, consumer: string, name: string)

  datatype Stat = Stat(byMethod: map<string, nat>, byConsumer: map<string, nat>)

  function Methods(evs: seq<Event>): (r: seq<string>)
    ensures |r| == |evs| && forall k :: 0 <= k < |evs| ==> r[k] == evs[k].name
  {
    seq(|evs|, k requires 0 <= k < |evs| => evs[k].name)
  }

  function Consumers(evs: seq<Event>): (r: seq<string>)
    ensures |r| == |evs| && forall k :: 0 <= k < |evs| ==> r[k] == evs[k].consumer
  {
    seq(|evs|, k requires 0 <= k < |evs| => evs[k].consumer)
  }

  // How often each name occurs.
  function Tally(names: seq<string>): map<string, nat> {
    map n | n in names :: multiset(names)[n]
  }

  function CountsOf(evs: seq<Event>): Stat { Stat(Tally(Methods(evs)), Tally(Consumers(evs))) }

  lemma TallyAppend(names: seq<string>, n: string)
    ensures Tally(names + [n]) == Tally(names)[n := if n in Tally(names) then Tally(names)[n] + 1 else 1]
  {
    assert multiset(names + [n]) == multiset(names) + multiset{n};
    assert forall x :: x in names + [n] <==> x in names || x == n;
  }

  method CountStatistic(evs: seq<Event>) returns (stat: Stat)
    ensures stat == CountsOf(evs)
  {
    var byMethod: map<string, nat>, byConsumer: map<string, nat> := map[], map[];
    for k := 0 to |evs|
      invariant byMethod == Tally(Methods(evs[..k])) && byConsumer == Tally(Consumers(evs[..k]))
    {
      var ev := evs[k];
      assert evs[..k + 1] == evs[..k] + [ev];
      assert Methods(evs[..k + 1]) == Methods(evs[..k]) + [ev.name];
      assert Consumers(evs[..k + 1]) == Consumers(evs[..k]) + [ev.consumer];
      TallyAppend(Methods(evs[..k]), ev.name);
      TallyAppend(Consumers(evs[..k]), ev.consumer);
      byMethod := byMethod[ev.name := if ev.name in byMethod then byMethod[ev.name] + 1 else 1];
      byConsumer := byConsumer[ev.consumer := if ev.consumer in byConsumer then byConsumer[ev.consumer] + 1 else 1];
    }
    assert evs[..|evs|] == evs;
    stat := Stat(byMethod, byConsumer);
  }

  // A unary call, or one of the two streaming calls of the admin service.
  datatype Kind = Unary | Logging | Statistics

  datatype Pc =
    | Rejected
    | Waiting              // before mu.Lock
    | Delivering(ind: nat) // inside notifyStreams, at stream number ind
    | Served               // intercept has returned
    | Subscribed           // the handler of a streaming call has registered its stream

  datatype Call = Call(consumers: seq<string>, name: string, now: int, kind: Kind, pc: Pc)

  /* The registered stream of a call. `start` is the length of the global log at registration, `received`
     all that came through the channel. A Logging handler has an event in its hand until it has sent it
     to its client, the goroutine of a Statistics handler until it has appended it to evs. `intervals`
     remembers which events each sent statistic was counted from. */
  datatype Sub =
    | LogSub(call: nat, start: nat, received: seq<Event>, hand: seq<Event>, events: seq<Event>)
    | StatSub(call: nat, start: nat, received: seq<Event>, hand: seq<Event>, evs: seq<Event>,
              intervals: seq<seq<Event>>, sent: seq<Stat>)

  // The log names the call behind each event; `panics` counts an index out of range in intercept.
  datatype State = State(calls: seq<Call>, holder: seq<nat>, subs: seq<Sub>,
                         log: seq<(nat, Event)>, panics: nat)

  datatype Label =
    | Arrive(consumers: seq<string>, name: string, now: int, kind: Kind)
    | Lock(call: nat)
    | Deliver(call: nat)
    | Unlock(call: nat)
    | Subscribe(call: nat)
    | Handle(sub: nat)
    | Tick(sub: nat)

  function Init(): State { State([], [], [], [], 0) }

  predicate Ready(sub: Sub) { sub.hand == [] }

  predicate Enabled(s: State, l: Label) {
    match l
    case Arrive(_, _, _, _) => true
    case Lock(c) => c < |s.calls| && s.calls[c].pc.Waiting? && s.holder == []
    case Deliver(c) =>
      c < |s.calls| && s.calls[c].pc.Delivering? && s.calls[c].pc.ind < |s.subs| && Ready(s.subs[s.calls[c].pc.ind])
    case Unlock(c) => c < |s.calls| && s.calls[c].pc.Delivering? && s.calls[c].pc.ind >= |s.subs|
    case Subscribe(c) => c < |s.calls| && s.calls[c].pc.Served? && !s.calls[c].kind.Unary? && s.holder == []
    case Handle(j) => j < |s.subs| && !Ready(s.subs[j])
    case Tick(j) => j < |s.subs| && s.subs[j].StatSub?
  }

  function EventOf(c: Call): Event {
    Event(c.now, if c.consumers != [] then c.consumers[0] else "", c.name)
  }

  function Receive(sub: Sub, ev: Event): Sub {
    sub.(received := sub.received + [ev], hand := [ev])
  }

  function Next(m: Matcher, acl: Acl, s: State, l: Label): State
    requires Enabled(s, l)
  {
    match l
    case Arrive(consumers, name, now, kind) =>
      var pc := if Authorised(m, acl, consumers, name) then Waiting else Rejected;
      s.(calls := s.calls + [Call(consumers, name, now, kind, pc)])
    case Lock(c) =>
      s.(calls := s.calls[c := s.calls[c].(pc := Delivering(0))], holder := [c],
         log := s.log + [(c, EventOf(s.calls[c]))],
         panics := if s.calls[c].consumers == [] then s.panics + 1 else s.panics)
    case Deliver(c) =>
      var ind := s.calls[c].pc.ind;
      s.(calls := s.calls[c := s.calls[c].(pc := Delivering(ind + 1))],
         subs := s.subs[ind := Receive(s.subs[ind], EventOf(s.calls[c]))])
    case Unlock(c) => s.(calls := s.calls[c := s.calls[c].(pc := Served)], holder := [])
    case Subscribe(c) =>
      var start := |s.log|;
      s.(calls := s.calls[c := s.calls[c].(pc := Subscribed)],
         subs := s.subs + [if s.calls[c].kind.Logging? then LogSub(c, start, [], [], [])
                           else StatSub(c, start, [], [], [], [], [])])
    case Handle(j) =>
      var sub := s.subs[j];
      s.(subs := s.subs[j := if sub.LogSub? then sub.(events := sub.events + sub.hand, hand := [])
                             else sub.(evs := sub.evs + sub.hand, hand := [])])
    case Tick(j) =>
      var sub := s.subs[j];
      s.(subs := s.subs[j := sub.(sent := sub.sent + [CountsOf(sub.evs)], evs := [],
                                  intervals := sub.intervals + [sub.evs])])
  }

  ghost predicate Reaches(m: Matcher, acl: Acl, s: State, ls: seq<Label>, t: State)
    decreases |ls|
  {
    if ls == [] then t == s
    else Enabled(s, ls[0]) && Reaches(m, acl, Next(m, acl, s, ls[0]), ls[1..], t)
  }
}
