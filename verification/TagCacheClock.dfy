/** When versions of a tag are not reused: a tag is created with the time of the clock, so it must not
    be lost before the clock has gone past its version. */
module TagCacheClock {
  import opened TagCache
  import opened TagCacheCoherence

  // The version of a number is behind the clock when it is lost.
  predicate Paced(w: World, e: Event) {
    match e
    case Expire(key) => key in w.mem && w.mem[key].Number? ==> w.mem[key].n < w.now
    case _ => true
  }

  predicate PacedStep(w: World, e: Event, v: World) {
    Possible(w, e) && v == Apply(w, e) && Namespaces(v.src) && Paced(w, e)
  }

  ghost predicate PacedRun(w: World, es: seq<Event>, ws: seq<World>)
    decreases |es|
  {
    |ws| == |es| + 1 && ws[0] == w && (es != [] ==> PacedStep(w, es[0], ws[1]) && PacedRun(ws[1], es[1..], ws[1..]))
  }

  // Of a tag that is there the present version is the newest, of one that is not there all versions
  // are older than the clock.
  predicate TagAge(w: World, t: string, n: int) {
    (t, n) in w.used ==>
      if t in w.mem && w.mem[t].Number? then n <= w.mem[t].n else n < w.now
  }

  ghost predicate Aged(w: World) {
    forall t: string, n: int :: TagAge(w, t, n)
  }

  // Every number in memory has been recorded.
  predicate Recorded(w: World) { Live(w.mem) <= w.used }

  // The lock of a rebuild is gone when the rebuild is.
  predicate Unlocked(w: World) {
    forall k :: k in w.src ==> LockKey(k) !in w.mem
  }

  ghost predicate PaceInv(w: World) { Kept(w) && Aged(w) && Recorded(w) && Unlocked(w) }

  // A call creates tags with the time of the clock and leaves all other numbers as they are.
  lemma CallChanges(w: World, k: string, t: string)
    requires Kept(w) && Unlocked(w) && k in w.src
    ensures var m := Apply(w, Call(k)).mem;
            && (t in w.mem && w.mem[t].Number? ==> t in m && m[t] == w.mem[t])
            && (t in m && m[t].Number? && t in w.mem ==> m[t] == w.mem[t])
            && (t in m && m[t].Number? && t !in w.mem ==> m[t] == Number(w.now))
            && LockKey(k) !in m
            && (t in m && t !in w.mem ==> t == k || TagName(w.src.Keys, t))
  {
    TagsReady(w, k);
    RebuildStores(w.mem, w.now, k, Callback(w, k));
    assert KeyShape(w, k) && KeyShape(w, t);
  }

  lemma CallIsFresh(w: World, k: string, v: World)
    requires PaceInv(w) && PacedStep(w, Call(k), v)
    ensures FreshVersions(w, v) && Unlocked(v)
  {
    forall t | t in v.mem && v.mem[t].Number? && !(t in w.mem && w.mem[t] == v.mem[t])
      ensures (t, v.mem[t].n) !in w.used
    {
      CallChanges(w, k, t);
      assert TagAge(w, t, v.mem[t].n);
    }
    forall m | m in v.src ensures LockKey(m) !in v.mem {
      CallChanges(w, k, LockKey(m));
      assert m in w.src.Keys;
    }
  }

  lemma OtherIsFresh(w: World, e: Event, v: World)
    requires PaceInv(w) && PacedStep(w, e, v) && !e.Call?
    ensures FreshVersions(w, v) && Unlocked(v)
  {
    if e.Increment? && e.tag in w.mem && w.mem[e.tag].Number? {
      assert TagAge(w, e.tag, w.mem[e.tag].n + 1);
    }
    forall m | m in v.src ensures LockKey(m) !in v.mem {
      assert m in w.src;
    }
  }

  lemma AgeAfterCall(w: World, k: string, v: World, t: string, n: int)
    requires PaceInv(w) && PacedStep(w, Call(k), v)
    ensures TagAge(v, t, n)
  {
    CallChanges(w, k, t);
    assert TagAge(w, t, n);
    if t in w.mem && w.mem[t].Number? { assert TagAge(w, t, w.mem[t].n) by { LiveIsUsed(w, t); } }
  }

  lemma AgeAfterOther(w: World, e: Event, v: World, t: string, n: int)
    requires PaceInv(w) && PacedStep(w, e, v) && !e.Call?
    ensures TagAge(v, t, n)
  {
    assert TagAge(w, t, n);
    if t in w.mem && w.mem[t].Number? {
      LiveIsUsed(w, t);
      assert TagAge(w, t, w.mem[t].n);
    }
  }

  /** A paced step uses no version twice. */
  lemma PacedIsFresh(w: World, e: Event, v: World)
    requires PaceInv(w) && PacedStep(w, e, v)
    ensures Step(w, e, v) && PaceInv(v)
  {
    if e.Call? { CallIsFresh(w, e.mkey, v); } else { OtherIsFresh(w, e, v); }
    StepKeepsKept(w, e, v);
    forall t: string, n: int ensures TagAge(v, t, n) {
      if e.Call? { AgeAfterCall(w, e.mkey, v, t, n); } else { AgeAfterOther(w, e, v, t, n); }
    }
  }

  lemma {:induction false} PacedRunIsRun(w: World, es: seq<Event>, ws: seq<World>)
    requires PaceInv(w) && PacedRun(w, es, ws)
    ensures Run(w, es, ws)
    decreases |es|
  {
    if es != [] {
      PacedIsFresh(w, es[0], ws[1]);
      PacedRunIsRun(ws[1], es[1..], ws[1..]);
    }
  }

  /** Coherence, with nothing assumed of versions but that no tag is lost before the clock has gone past
      its version. */
  lemma CoherenceByClock(w: World, es: seq<Event>, ws: seq<World>, k: string)
    requires Start(w) && PacedRun(w, es, ws) && k in ws[|es|].src
    ensures Answer(ws[|es|], k) == Ok(ws[|es|].src[k].data)
  {
    PacedRunIsRun(w, es, ws);
    Coherence(w, es, ws, k);
  }

  // After the loss of a tag no item of a source that has it is valid.
  lemma NoHitWithout(w: World, v: World, m: string, t: string)
    requires Inv(w) && m in w.src && t in w.src[m].tags && v.mem == w.mem - {t}
    ensures !IsHit(v.mem, m)
  {
    assert t in Tags(w.src[m]) && TagName(w.src.Keys, t);
    if m in w.mem {
      assert KeyInv(w, m);
      var tags := w.mem[m].tags;
      var x :| x in tags && (x == t || !(x in w.mem && w.mem[x] == Number(tags[x])));
      DeadSnapshot(v.mem, m, x);
    }
  }

  lemma DeadSnapshot(mem: Mem, m: string, x: string)
    requires m in mem && mem[m].Item? && x in mem[m].tags && !(x in mem && mem[x] == Number(mem[m].tags[x]))
    ensures !IsHit(mem, m)
  {
    if x in mem && AllNumbers(mem, mem[m].tags.Keys) {
      assert x in Versions(mem, mem[m].tags.Keys) && Versions(mem, mem[m].tags.Keys)[x] == mem[x].n;
    }
  }

  // So a call rebuilds it, and creates the tag with the time of the clock.
  lemma RecreatesTag(w: World, v: World, m: string, t: string)
    requires Inv(w) && m in w.src && t in w.src[m].tags
    requires v.mem == w.mem - {t} && v.src.Keys == w.src.Keys && v.src[m] == w.src[m]
    ensures var mem := Apply(v, Call(m)).mem;
            && t in mem && mem[t] == Number(v.now)
            && forall j :: j in v.mem && j != m && j != LockKey(m) ==> j in mem && mem[j] == v.mem[j]
  {
    NoHitWithout(w, v, m, t);
    InvIsKept(w);
    TagsReady(w, m);
    assert AllNumbers(v.mem, set x | x in v.src[m].tags);
    RebuildStores(v.mem, v.now, m, Callback(v, m));
    if m in v.mem {
      assert KeyShape(w, m);
      forall x | x in v.mem[m].tags && x in v.mem ensures v.mem[x].Number? { assert KeyShape(w, x); }
    }
  }

  // But for the tag t the item of k is valid, and the clock has not gone past the version it has of t,
  // be that the present one or a former one.
  predicate Revivable(w: World, k: string, t: string) {
    && k in w.mem && w.mem[k].Item? && t in w.mem[k].tags && w.now <= w.mem[k].tags[t]
    && forall x :: x in w.mem[k].tags && x != t ==> x in w.mem && w.mem[x] == Number(w.mem[k].tags[x])
  }

  lemma HitIsRevivable(w: World, k: string, t: string)
    requires IsHit(w.mem, k) && t in w.mem[k].tags && !Paced(w, Expire(t))
    ensures Revivable(w, k, t)
  {
    forall x | x in w.mem[k].tags ensures x in w.mem && w.mem[x] == Number(w.mem[k].tags[x]) {
      HitMeansLive(w.mem, k, x);
    }
  }

  // As long as the pace has been kept t is there, and it is its loss that would not be paced.
  lemma RevivableIsUnpaced(w: World, k: string, t: string)
    requires PaceInv(w) && k in w.src && Revivable(w, k, t)
    ensures t in w.mem && w.mem[t].Number? && !Paced(w, Expire(t))
  {
    assert KeyShape(w, k) && TagAge(w, t, w.mem[k].tags[t]);
  }

  /** Nor can the condition be weakened. When a tag is lost before the clock has gone past the version an
      item has of it, the item being valid in its other tags, and another source has the tag, there is a
      continuation, itself paced, that makes the cache answer what the source no longer says: the source
      changes while the tag is missing, the clock comes to that version, and a call for the other source
      creates the tag anew. */
  lemma UnpacedLossIsStale(w: World, k: string, t: string, m: string, data: string)
      returns (w1: World, w2: World, w3: World, w4: World)
    requires Inv(w) && k in w.src && m in w.src && m != k && Revivable(w, k, t) && t in w.src[m].tags
    requires data != w.mem[k].data && (t in w.src[k].tags || w.src[k].data == data)
    ensures Possible(w, Expire(t)) && w1 == Apply(w, Expire(t))
    ensures PacedStep(w1, Increment(t, w2.src), w2) && w2.src == w.src[k := w.src[k].(data := data)]
    ensures PacedStep(w2, Tick(w.mem[k].tags[t] - w.now), w3) && PacedStep(w3, Call(m), w4)
    ensures w4.src == w2.src && w4.src[k].data == data && Answer(w4, k) == Ok(w.mem[k].data) != Ok(data)
  {
    w1 := Apply(w, Expire(t));
    var src := w.src[k := w.src[k].(data := data)];
    SameNamespaces(w.src, src);
    w2 := Apply(w1, Increment(t, src));
    w3 := Apply(w2, Tick(w.mem[k].tags[t] - w.now));
    w4 := Apply(w3, Call(m));
    assert w3.mem == w.mem - {t} && w3.now == w.mem[k].tags[t];
    RecreatesTag(w, w3, m, t);
    HitAgain(w, w3, w4, k, t, m);
    HitAnswers(w4, k);
  }

  lemma HitAgain(w: World, w3: World, w4: World, k: string, t: string, m: string)
    requires Inv(w) && k in w.src && m in w.src && m != k && Revivable(w, k, t)
    requires w3.mem == w.mem - {t} && t in w4.mem && w4.mem[t] == Number(w.mem[k].tags[t])
    requires forall j :: j in w3.mem && j != m && j != LockKey(m) ==> j in w4.mem && w4.mem[j] == w3.mem[j]
    ensures IsHit(w4.mem, k) && w4.mem[k] == w.mem[k]
  {
    assert KeyInv(w, k);
    assert k != t && k != LockKey(m);
    forall x | x in w.mem[k].tags ensures x in w4.mem && w4.mem[x] == Number(w.mem[k].tags[x]) {
      assert TagName(w.src.Keys, x) && m in w.src.Keys;
    }
    NewSnapshotIsHit(w4.mem, k);
  }

  // A miss on a source with one tag that does not exist.
  lemma MissCreates(w: World, k: string, t: string)
    requires k in w.src && w.src[k].tags == [t] && k !in w.mem && t !in w.mem && LockKey(k) !in w.mem
    requires k != t && LockKey(k) != t && LockKey(k) != k
    ensures Apply(w, Call(k)).mem == w.mem[t := Number(w.now)][k := Item(w.src[k].data, map[t := w.now])]
  {
    var locked := Locked(w.mem, k);
    var created := locked[t := Number(w.now)];
    assert TagLoop(created, locked, [t], 1, w.now, map[][t := w.now]) == (created, true, map[t := w.now]);
    assert TagLoop(locked, locked, [t], 0, w.now, map[]) == (created, true, map[t := w.now]);
  }

  // Two sources with one tag in common.
  function TwoSources(data: string): map<string, Source> {
    map["k" := Source(data, ["t"]), "m" := Source("other", ["t"])]
  }

  lemma NamesApart(data: string)
    ensures Namespaces(TwoSources(data))
    ensures LockKey("k") !in {"k", "m", "t"} && LockKey("m") !in {"k", "m", "t"}
  {
    assert forall m :: |LockKey(m)| >= 5;
  }

  /** Without it coherence fails: a tag that is lost in the second it was created in, a change of the
      source while the tag is missing, and the tag created anew by another key in that same second make
      an old item valid again. */
  lemma ReuseBreaksCoherence(now: int) returns (w0: World, w1: World, w2: World, w3: World, w4: World)
    ensures Start(w0) && w0.now == now && w0.src.Keys == {"k", "m"}
    ensures PacedStep(w0, Call("k"), w1)
    ensures Possible(w1, Expire("t")) && w2 == Apply(w1, Expire("t")) && !Paced(w1, Expire("t"))
    ensures PacedStep(w2, Increment("t", w3.src), w3) && w3.src["k"].data == "new"
    ensures PacedStep(w3, Call("m"), w4) && w4.now == now
    ensures w4.src["k"].data == "new" && Answer(w4, "k") == Ok("old")
  {
    NamesApart("old");
    NamesApart("new");
    w0 := World(map[], now, TwoSources("old"), {});
    w1 := Apply(w0, Call("k"));
    MissCreates(w0, "k", "t");
    w2 := Apply(w1, Expire("t"));
    assert w2.mem == map["k" := Item("old", map["t" := now])];
    w3 := Apply(w2, Increment("t", TwoSources("new")));
    assert w3.mem == w2.mem;
    w4 := Apply(w3, Call("m"));
    MissCreates(w3, "m", "t");
    NewSnapshotIsHit(w4.mem, "k");
    HitAnswers(w4, "k");
  }
}
