/** rebuild reads the tags after the callback has returned. What comes between the two can make the
    cache serve data that the source no longer says. */
module TagCacheLate {
  import opened TagCache
  import opened TagCacheCoherence

  /* The tags are read and the item is stored in w, the callback having returned `read` earlier. The
     lock is of no consequence: whether it was taken is not looked at, and no key but its own changes. */
  function LateStore(w: World, k: string, read: Source): World {
    var mem := RebuildSpec(w.mem, w.now, k, Rebuilt(read.data, read.tags, true)).1;
    w.(mem := mem, used := w.used + Live(mem))
  }

  predicate NamesTags(w: World, read: Source) {
    forall t :: t in read.tags ==> TagName(w.src.Keys, t)
  }

  lemma LateIsHit(w: World, k: string, read: Source)
    requires Kept(w) && k in w.src && NamesTags(w, read)
    ensures var v := LateStore(w, k, read);
            && Kept(v) && IsHit(v.mem, k) && v.mem[k].data == read.data && v.mem[k].tags.Keys == Tags(read)
            && Answer(v, k) == Ok(read.data)
  {
    var v := LateStore(w, k, read);
    forall t | t in read.tags ensures t in w.mem ==> w.mem[t].Number? {
      assert TagName(w.src.Keys, t) && KeyShape(w, t);
    }
    assert k in w.src.Keys;
    RebuildStores(w.mem, w.now, k, Rebuilt(read.data, read.tags, true));
    NewSnapshotIsHit(v.mem, k);
    HitAnswers(v, k);
    LateIsKept(w, k, read);
  }

  lemma LateIsKept(w: World, k: string, read: Source)
    requires Kept(w) && k in w.src && NamesTags(w, read)
    requires AllNumbers(w.mem, set t | t in read.tags) && k !in read.tags && LockKey(k) !in read.tags
    ensures Kept(LateStore(w, k, read))
  {
    var v := LateStore(w, k, read);
    RebuildStores(w.mem, w.now, k, Rebuilt(read.data, read.tags, true));
    forall j: string ensures KeyShape(v, j) {
      assert KeyShape(w, j);
      if j in v.mem && j == k {
        forall t | t in v.mem[k].tags ensures (t, v.mem[k].tags[t]) in v.used && TagName(v.src.Keys, t) {
          LiveIsUsed(v, t);
        }
      } else if j in v.mem && j !in v.src {
        LiveIsUsed(v, j);
      }
    }
  }

  // All tags were there when the callback read the source and have the same versions now.
  predicate SameVersions(w0: World, w: World, tags: seq<string>) {
    forall t :: t in tags ==> t in w0.mem && t in w.mem && w.mem[t] == w0.mem[t]
  }

  // The versions of the tags when the callback read the source.
  function VersionsAt(w: World, s: Source): map<string, int>
    requires AllNumbers(w.mem, Tags(s))
  {
    Versions(w.mem, Tags(s))
  }

  // A source that changes leaves the snapshot behind, for good.
  lemma {:induction false} ChangedIsOutdated(w: World, es: seq<Event>, ws: seq<World>, k: string,
                                             read: Source, snap: map<string, int>)
    requires Run(w, es, ws) && k in w.src && Tags(read) <= snap.Keys
    requires forall t :: t in snap ==> (t, snap[t]) in w.used
    requires w.src[k] == read || Outdated(w, snap)
    ensures k in ws[|es|].src && (ws[|es|].src[k] == read || Outdated(ws[|es|], snap))
    decreases |es|
  {
    if es != [] {
      var v := ws[1];
      if Outdated(w, snap) {
        OutdatedStays(w, v, snap);
      } else if v.src[k] != read {
        assert es[0].tag in Tags(read);
        assert !(es[0].tag in v.mem && v.mem[es[0].tag] == Number(snap[es[0].tag]));
      }
      ChangedIsOutdated(v, es[1..], ws[1..], k, read, snap);
    }
  }

  /** A late store is coherent whenever the tags can vouch for it: if every tag of the source was there
      when the callback returned and has the same version when the tags are read, then the source has
      not changed in between, whatever happened, and the next TGet returns what it says. */
  lemma LateIsCoherent(w0: World, es: seq<Event>, ws: seq<World>, k: string)
    requires Inv(w0) && Run(w0, es, ws) && k in w0.src
    requires SameVersions(w0, ws[|es|], w0.src[k].tags)
    ensures var v := LateStore(ws[|es|], k, w0.src[k]);
            k in v.src && v.src[k] == w0.src[k] && Answer(v, k) == Ok(v.src[k].data)
  {
    var read, w := w0.src[k], ws[|es|];
    InvIsKept(w0);
    TagsReady(w0, k);
    var snap := VersionsAt(w0, read);
    forall t | t in snap ensures (t, snap[t]) in w0.used { assert TagName(w0.src.Keys, t) && KeyShape(w0, t); }
    ChangedIsOutdated(w0, es, ws, k, read, snap);
    assert !Outdated(w, snap);
    RunKeepsInv(w0, es, ws);
    InvIsKept(w);
    LateIsHit(w, k, read);
  }

  /* What happens in a run with late stores: an event, or the end of a rebuild whose callback returned
     in the world with the number `start`. */
  datatype Act = Ordinary(e: Event) | Finish(k: string, start: nat)

  // A store is late, but its tags can vouch for it.
  predicate LateStep(a: Act, ws: seq<World>, i: nat)
    requires i + 1 < |ws|
  {
    match a
    case Ordinary(e) => Step(ws[i], e, ws[i + 1])
    case Finish(k, start) =>
      && start <= i && k in ws[start].src
      && SameVersions(ws[start], ws[i], ws[start].src[k].tags)
      && ws[i + 1] == LateStore(ws[i], k, ws[start].src[k])
  }

  predicate LateRun(acts: seq<Act>, ws: seq<World>) {
    |ws| == |acts| + 1 && forall i :: 0 <= i < |acts| ==> LateStep(acts[i], ws, i)
  }

  // Up to a world of the run, invariant and keys are kept.
  ghost predicate InvUpTo(ws: seq<World>, i: nat)
    requires i < |ws|
  {
    forall j :: 0 <= j <= i ==> InvAt(ws, j)
  }

  ghost predicate InvAt(ws: seq<World>, j: nat)
    requires j < |ws|
  {
    Inv(ws[j]) && ws[j].src.Keys == ws[0].src.Keys
  }

  // A store vouched for by its tags creates none.
  lemma LateIsFresh(w0: World, w: World, k: string, read: Source)
    requires Kept(w) && k in w.src && NamesTags(w, read) && SameVersions(w0, w, read.tags)
    ensures FreshVersions(w, LateStore(w, k, read))
  {
    forall t | t in read.tags ensures t in w.mem && w.mem[t].Number? {
      assert TagName(w.src.Keys, t) && KeyShape(w, t);
    }
    assert k in w.src.Keys;
    RebuildStores(w.mem, w.now, k, Rebuilt(read.data, read.tags, true));
  }

  // And leaves memory in order if the source still says what was read.
  lemma LateKeepsInv(w0: World, w: World, k: string, read: Source)
    requires Inv(w) && k in w.src && NamesTags(w, read) && SameVersions(w0, w, read.tags) && w.src[k] == read
    ensures Inv(LateStore(w, k, read))
  {
    var v := LateStore(w, k, read);
    InvIsKept(w);
    LateIsHit(w, k, read);
    LateIsFresh(w0, w, k, read);
    forall t | t in read.tags ensures t in w.mem ==> w.mem[t].Number? {
      assert TagName(w.src.Keys, t) && KeyShape(w, t);
    }
    assert k in w.src.Keys;
    RebuildStores(w.mem, w.now, k, Rebuilt(read.data, read.tags, true));
    forall j: string ensures KeyInv(v, j) {
      assert KeyInv(w, j) && KeyShape(v, j);
      if j in v.mem && j in v.src && j != k {
        ItemStays(w, v, j);
      }
    }
  }

  // What a step does to the source, the versions and their record.
  lemma LateStepChanges(a: Act, ws: seq<World>, i: nat, k: string, read: Source, snap: map<string, int>)
    requires i + 1 < |ws| && LateStep(a, ws, i) && InvUpTo(ws, i)
    requires k in ws[i].src && Tags(read) <= snap.Keys
    requires forall t :: t in snap ==> (t, snap[t]) in ws[i].used
    requires ws[i].src[k] == read || Outdated(ws[i], snap)
    ensures ws[i + 1].src.Keys == ws[i].src.Keys && ws[i].used <= ws[i + 1].used
    ensures ws[i + 1].src[k] == read || Outdated(ws[i + 1], snap)
  {
    var w, v := ws[i], ws[i + 1];
    if a.Finish? {
      assert InvAt(ws, a.start) && InvAt(ws, i);
      FinishNames(a.k, ws, a.start, i);
      InvIsKept(w);
      LateIsFresh(ws[a.start], w, a.k, ws[a.start].src[a.k]);
    }
    if Outdated(w, snap) {
      OutdatedStays(w, v, snap);
    } else if v.src[k] != read {
      assert a.e.tag in Tags(read);
      assert !(a.e.tag in v.mem && v.mem[a.e.tag] == Number(snap[a.e.tag]));
    }
  }

  lemma FinishNames(k: string, ws: seq<World>, start: nat, i: nat)
    requires start <= i < |ws| && Inv(ws[start]) && ws[start].src.Keys == ws[i].src.Keys && k in ws[start].src
    ensures k in ws[i].src && NamesTags(ws[i], ws[start].src[k])
  {
  }

  lemma Included(a: set<(string, int)>, b: set<(string, int)>, c: set<(string, int)>)
    requires a <= b && b <= c
    ensures a <= c
  {
  }

  // From the world where the source was read to a later one.
  lemma {:induction false} UnchangedUnlessOutdated(acts: seq<Act>, ws: seq<World>, k: string, start: nat, i: nat,
                                                   snap: map<string, int>)
    requires LateRun(acts, ws) && start <= i < |ws| && k in ws[start].src
    requires InvUpTo(ws, i)
    requires Tags(ws[start].src[k]) <= snap.Keys && forall t :: t in snap ==> (t, snap[t]) in ws[start].used
    ensures ws[start].used <= ws[i].used && k in ws[i].src
    ensures ws[i].src[k] == ws[start].src[k] || Outdated(ws[i], snap)
    decreases i - start
  {
    if start < i {
      UnchangedUnlessOutdated(acts, ws, k, start, i - 1, snap);
      LateStepChanges(acts[i - 1], ws, i - 1, k, ws[start].src[k], snap);
      Included(ws[start].used, ws[i - 1].used, ws[i].used);
    }
  }

  // So the source has not changed when the tags vouch for it.
  lemma VouchedIsUnchanged(acts: seq<Act>, ws: seq<World>, k: string, start: nat, i: nat)
    requires LateRun(acts, ws) && start <= i < |ws| && k in ws[start].src
    requires InvUpTo(ws, i)
    requires SameVersions(ws[start], ws[i], ws[start].src[k].tags)
    ensures k in ws[i].src && ws[i].src[k] == ws[start].src[k]
  {
    var w0, read := ws[start], ws[start].src[k];
    assert InvAt(ws, start);
    InvIsKept(w0);
    TagsReady(w0, k);
    var snap := VersionsAt(w0, read);
    forall t | t in snap ensures (t, snap[t]) in w0.used { assert TagName(w0.src.Keys, t) && KeyShape(w0, t); }
    UnchangedUnlessOutdated(acts, ws, k, start, i, snap);
    assert !Outdated(ws[i], snap);
  }

  lemma LateStepKeepsInv(acts: seq<Act>, ws: seq<World>, i: nat)
    requires LateRun(acts, ws) && i < |acts|
    requires InvUpTo(ws, i)
    ensures Inv(ws[i + 1]) && ws[i + 1].src.Keys == ws[0].src.Keys
  {
    assert LateStep(acts[i], ws, i) && InvAt(ws, i);
    match acts[i]
    case Ordinary(e) => StepKeepsInv(ws[i], e, ws[i + 1]);
    case Finish(k, start) =>
      assert InvAt(ws, start);
      VouchedIsUnchanged(acts, ws, k, start, i);
      FinishNames(k, ws, start, i);
      LateKeepsInv(ws[start], ws[i], k, ws[start].src[k]);
  }

  lemma {:induction false} LateRunKeepsInv(acts: seq<Act>, ws: seq<World>, n: nat)
    requires LateRun(acts, ws) && Inv(ws[0]) && n < |ws|
    ensures InvUpTo(ws, n)
  {
    if n > 0 {
      LateRunKeepsInv(acts, ws, n - 1);
      LateStepKeepsInv(acts, ws, n - 1);
    }
  }

  /** Coherence with rebuilds that overlap anything: in a run from an empty cache, in which any number of
      items are stored late and each of them is vouched for by its tags, TGet returns what the callback
      would return now. */
  lemma LateRunIsCoherent(acts: seq<Act>, ws: seq<World>, k: string)
    requires LateRun(acts, ws) && Start(ws[0]) && k in ws[|acts|].src
    ensures Answer(ws[|acts|], k) == Ok(ws[|acts|].src[k].data)
  {
    LateRunKeepsInv(acts, ws, |acts|);
    assert InvAt(ws, |acts|);
    AnswerIsCurrent(ws[|acts|], k);
  }

  /** No tag can be left out of that condition. If one tag was missing, or is incremented in between,
      all others being as they were, then some change of the source makes the late store stale. */
  lemma EveryTagIsNeeded(w0: World, k: string, tag: string, data: string) returns (e: Event, w: World)
    requires Inv(w0) && k in w0.src && tag in w0.src[k].tags && data != w0.src[k].data
    requires tag in w0.mem && w0.mem[tag].Number? ==> (tag, w0.mem[tag].n + 1) !in w0.used
    ensures Step(w0, e, w) && k in w.src && w.src[k].data == data
    ensures forall t :: t != tag ==> (t in w.mem <==> t in w0.mem) && (t in w.mem ==> w.mem[t] == w0.mem[t])
    ensures tag in w0.mem <==> tag in w.mem
    ensures !SameVersions(w0, w, w0.src[k].tags)
    ensures Answer(LateStore(w, k, w0.src[k]), k) == Ok(w0.src[k].data) != Ok(data)
  {
    var read := w0.src[k];
    var src := w0.src[k := Source(data, read.tags)];
    e := Increment(tag, src);
    w := Apply(w0, e);
    InvIsKept(w0);
    assert src.Keys == w0.src.Keys;
    assert KeyShape(w0, tag) && TagName(w0.src.Keys, tag);
    SameNamespaces(w0.src, src);
    StepKeepsInv(w0, e, w);
    InvIsKept(w);
    LateIsHit(w, k, read);
  }

  /** What a late store has put there stays: as long as the item and its tags do not expire and no tag
      is incremented, TGet keeps serving it, whatever the source says. */
  lemma LateIsServed(w: World, k: string, read: Source, es: seq<Event>, ws: seq<World>)
    requires Kept(w) && k in w.src && NamesTags(w, read)
    requires Run(LateStore(w, k, read), es, ws)
    requires forall e :: e in es ==> Spares(e, k, Tags(read))
    ensures k in ws[|es|].src && Answer(ws[|es|], k) == Ok(read.data)
  {
    LateIsHit(w, k, read);
    SparedRunStaysHit(LateStore(w, k, read), es, ws, k);
    HitAnswers(ws[|es|], k);
  }

  /** A run in which it happens: an empty cache misses, the callback returns "old", the source changes
      to "new" with an increment of its tag, which does not exist yet, and the item is stored. TGet
      answers "old", now and after any time that passes. */
  lemma StaleRun(seconds: nat) returns (w0: World, e: Event, w: World, late: World)
    ensures Start(w0) && "k" in w0.src && w0.src["k"].data == "old" && !IsHit(w0.mem, "k")
    ensures Step(w0, e, w) && "k" in w.src && w.src["k"].data == "new"
    ensures late == LateStore(w, "k", w0.src["k"]) && Answer(late, "k") == Ok("old")
    ensures var later := Apply(late, Tick(seconds)); "k" in later.src && Answer(later, "k") == Ok("old")
  {
    w0 := World(map[], 0, map["k" := Source("old", ["t"])], {});
    assert LockKey("k") != "t" && LockKey("k") != "k" by { assert LockKey("k")[0] == 'l'; }
    assert Inv(w0);
    e, w := EveryTagIsNeeded(w0, "k", "t", "new");
    late := LateStore(w, "k", w0.src["k"]);
    var later := Apply(late, Tick(seconds));
    InvIsKept(w0);
    StepKeepsKept(w0, e, w);
    assert w.src.Keys == w0.src.Keys;
    LateIsHit(w, "k", w0.src["k"]);
    HitAnswers(later, "k");
  }
}
