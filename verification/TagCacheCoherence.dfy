/** Runs of the cache beside the source it speeds up. */
module TagCacheCoherence {
  import opened TagCache

  // What the callback of a key reads from: the data and the tags it belongs to.
  datatype Source = Source(data: string, tags: seq<string>)

  /* `used` records every version every tag has ever had. */
  datatype World = World(mem: Mem, now: int, src: map<string, Source>, used: set<(string, int)>)

  datatype Event =
    | Call(mkey: string)                                  // TGet, start to end
    | Fail(mkey: string, read: Rebuilt)                   // TGet whose callback returns another type
    | Increment(tag: string, src: map<string, Source>)    // together with a change of the source
    | Expire(key: string)                                 // expiry, eviction or deletion
    | Tick(seconds: nat)

  function Callback(w: World, mkey: string): Rebuilt
    requires mkey in w.src
  {
    Rebuilt(w.src[mkey].data, w.src[mkey].tags, true)
  }

  function Tags(s: Source): set<string> { set t | t in s.tags }

  function Incremented(mem: Mem, tag: string): Mem {
    if tag in mem && mem[tag].Number? then mem[tag := Number(mem[tag].n + 1)] else mem
  }

  predicate Possible(w: World, e: Event) {
    match e
    case Call(k) => k in w.src
    case Fail(k, read) => k in w.src && !read.sameType
    case Increment(tag, src) =>
      && src.Keys == w.src.Keys
      && forall k :: k in src && src[k] != w.src[k] ==> tag in w.src[k].tags
    case _ => true
  }

  function Answer(w: World, mkey: string): Outcome
    requires mkey in w.src
  {
    GetSpec(w.mem, w.now, mkey, Callback(w, mkey)).0
  }

  function Live(mem: Mem): set<(string, int)> {
    set t | t in mem && mem[t].Number? :: (t, mem[t].n)
  }

  function Apply(w: World, e: Event): World
    requires Possible(w, e)
  {
    var v := match e
      case Call(k) => w.(mem := GetSpec(w.mem, w.now, k, Callback(w, k)).1)
      case Fail(k, read) => w.(mem := GetSpec(w.mem, w.now, k, read).1)
      case Increment(tag, src) => w.(mem := Incremented(w.mem, tag), src := src)
      case Expire(key) => w.(mem := w.mem - {key})
      case Tick(d) => w.(now := w.now + d);
    v.(used := w.used + Live(v.mem))
  }

  // A number that appears under a key was never there before.
  predicate FreshVersions(w: World, v: World) {
    forall t :: t in v.mem && v.mem[t].Number? && !(t in w.mem && w.mem[t] == v.mem[t]) ==>
      (t, v.mem[t].n) !in w.used
  }

  // Cache keys, tags and locks do not share names.
  predicate TagName(keys: set<string>, t: string) {
    t !in keys && forall m {:trigger LockKey(m)} :: m in keys ==> t != LockKey(m)
  }

  predicate Namespaces(src: map<string, Source>) {
    && (forall k, t :: k in src && t in src[k].tags ==> TagName(src.Keys, t))
    && (forall k, m :: k in src && m in src ==> LockKey(m) != k)
  }

  lemma SameNamespaces(src: map<string, Source>, src': map<string, Source>)
    requires Namespaces(src) && src'.Keys == src.Keys
    requires forall k :: k in src ==> src'[k].tags == src[k].tags
    ensures Namespaces(src')
  {
  }

  predicate Step(w: World, e: Event, v: World) {
    && Possible(w, e) && v == Apply(w, e)
    && FreshVersions(w, v)
    && Namespaces(v.src)
  }

  ghost predicate Run(w: World, es: seq<Event>, ws: seq<World>)
    decreases |es|
  {
    |ws| == |es| + 1 && ws[0] == w && (es != [] ==> Step(w, es[0], ws[1]) && Run(ws[1], es[1..], ws[1..]))
  }

  // An empty cache.
  predicate Start(w: World) { w.mem == map[] && w.used == {} && Namespaces(w.src) }

  predicate Current(w: World, k: string, data: string, tags: map<string, int>)
    requires k in w.src
  {
    data == w.src[k].data && tags.Keys == Tags(w.src[k])
  }

  // Some tag has left the version of the snapshot, and versions do not come back.
  predicate Outdated(w: World, tags: map<string, int>) {
    exists t :: t in tags && !(t in w.mem && w.mem[t] == Number(tags[t]))
  }

  // Under the key of a source there is an item whose snapshot names tags that have existed.
  predicate ItemShape(w: World, k: string)
    requires k in w.mem
  {
    w.mem[k].Item? && forall t :: t in w.mem[k].tags ==> (t, w.mem[k].tags[t]) in w.used && TagName(w.src.Keys, t)
  }

  predicate ItemInv(w: World, k: string)
    requires k in w.src && k in w.mem
  {
    ItemShape(w, k) && (Current(w, k, w.mem[k].data, w.mem[k].tags) || Outdated(w, w.mem[k].tags))
  }

  predicate NumberShape(w: World, k: string)
    requires k in w.mem
  {
    w.mem[k].Number? && (k, w.mem[k].n) in w.used
  }

  predicate KeyShape(w: World, k: string) {
    k in w.mem ==> if k in w.src then ItemShape(w, k) else NumberShape(w, k)
  }

  predicate KeyInv(w: World, k: string) {
    k in w.mem ==> if k in w.src then ItemInv(w, k) else NumberShape(w, k)
  }

  // Memory is well kept, current or not.
  ghost predicate Kept(w: World) {
    Namespaces(w.src) && forall k: string :: KeyShape(w, k)
  }

  ghost predicate Inv(w: World) {
    Namespaces(w.src) && forall k: string :: KeyInv(w, k)
  }

  lemma InvIsKept(w: World)
    requires Inv(w)
    ensures Kept(w)
  {
    forall k: string ensures KeyShape(w, k) { assert KeyInv(w, k); }
  }

  // The loop of getCurrentItemTags leaves a version under every tag and returns exactly those.
  lemma {:induction false} TagLoopSnapshots(mem: Mem, curr: Mem, tags: seq<string>, i: nat, now: int,
                                            acc: map<string, int>)
    requires i <= |tags| && AllNumbers(curr, set t | t in tags)
    requires forall k :: k in curr ==> k in mem && mem[k] == curr[k]
    requires forall k :: k in mem && k !in curr ==> k in tags && mem[k] == Number(now)
    requires acc.Keys == set t | t in tags[..i]
    requires forall t :: t in acc ==> t in mem && mem[t] == Number(acc[t])
    ensures var (m, ok, snap) := TagLoop(mem, curr, tags, i, now, acc);
            && ok && snap.Keys == (set t | t in tags)
            && (forall t :: t in snap ==> t in m && m[t] == Number(snap[t]))
            && (forall k :: k in curr ==> k in m && m[k] == curr[k])
            && (forall k :: k in m && k !in curr ==> k in tags && m[k] == Number(now))
    decreases |tags| - i
  {
    if i == |tags| {
      assert tags[..i] == tags;
    } else {
      var t := tags[i];
      assert t in set x | x in tags;
      assert tags[..i + 1] == tags[..i] + [t];
      if t !in curr {
        TagLoopSnapshots(mem[t := Number(now)], curr, tags, i + 1, now, acc[t := now]);
      } else {
        TagLoopSnapshots(mem, curr, tags, i + 1, now, acc[t := curr[t].n]);
      }
    }
  }

  // A value that is no number ends the loop; what was there stays, and the tags created are of now.
  lemma {:induction false} TagLoopFails(mem: Mem, curr: Mem, tags: seq<string>, i: nat, now: int,
                                        acc: map<string, int>, j: nat)
    requires i <= j < |tags| && tags[j] in curr && !curr[tags[j]].Number?
    requires forall k :: k in curr ==> k in mem && mem[k] == curr[k]
    requires forall k :: k in mem && k !in curr ==> k in tags && mem[k] == Number(now)
    ensures var (m, ok, snap) := TagLoop(mem, curr, tags, i, now, acc);
            && !ok
            && (forall k :: k in curr ==> k in m && m[k] == curr[k])
            && (forall k :: k in m && k !in curr ==> k in tags && m[k] == Number(now))
    decreases |tags| - i
  {
    if tags[i] !in curr {
      TagLoopFails(mem[tags[i] := Number(now)], curr, tags, i + 1, now, acc[tags[i] := now], j);
    } else if curr[tags[i]].Number? {
      TagLoopFails(mem, curr, tags, i + 1, now, acc[tags[i] := curr[tags[i]].n], j);
    }
  }

  /** A rebuild that comes upon a tag that is no number stores nothing but missing tags. */
  lemma BadTagStoresNothing(mem: Mem, now: int, mkey: string, cb: Rebuilt, j: nat)
    requires cb.sameType && j < |cb.tags| && cb.tags[j] != LockKey(mkey)
    requires cb.tags[j] in mem && !mem[cb.tags[j]].Number?
    ensures var (r, m) := RebuildSpec(mem, now, mkey, cb);
            && r == BadTag && LockKey(mkey) !in m
            && (forall k :: k in mem && k != LockKey(mkey) ==> k in m && m[k] == mem[k])
            && (forall k :: k in m && k !in mem ==> k in cb.tags && m[k] == Number(now))
  {
    TagLoopFails(Locked(mem, mkey), Locked(mem, mkey), cb.tags, 0, now, map[], j);
  }

  // What a rebuild leaves in memory when all tags hold numbers.
  lemma RebuildStores(mem: Mem, now: int, mkey: string, cb: Rebuilt)
    requires cb.sameType && AllNumbers(mem, set t | t in cb.tags)
    requires mkey !in cb.tags && LockKey(mkey) !in cb.tags
    ensures var (r, m) := RebuildSpec(mem, now, mkey, cb);
            && r == Ok(cb.data)
            && mkey in m && m[mkey].Item? && m[mkey].data == cb.data
            && m[mkey].tags.Keys == (set t | t in cb.tags)
            && (forall t :: t in cb.tags ==> t in m && m[t] == Number(m[mkey].tags[t]))
            && (forall k :: k in mem && k != mkey && k != LockKey(mkey) ==> k in m && m[k] == mem[k])
            && (forall k :: k in m && k != mkey && k !in mem ==> k in cb.tags && m[k] == Number(now))
            && LockKey(mkey) !in m
  {
    var locked := Locked(mem, mkey);
    TagLoopSnapshots(locked, locked, cb.tags, 0, now, map[]);
    var (m, ok, snap) := TagLoop(locked, locked, cb.tags, 0, now, map[]);
    assert snap.Keys == set t | t in cb.tags;
    assert RebuildSpec(mem, now, mkey, cb).1 == m[mkey := Item(cb.data, snap)] - {LockKey(mkey)};
  }

  lemma NewSnapshotIsHit(mem: Mem, mkey: string)
    requires mkey in mem && mem[mkey].Item?
    requires forall t :: t in mem[mkey].tags ==> t in mem && mem[t] == Number(mem[mkey].tags[t])
    ensures IsHit(mem, mkey)
  {
  }

  // A hit and a live snapshot are the same thing.
  lemma HitMeansLive(mem: Mem, mkey: string, t: string)
    requires IsHit(mem, mkey) && t in mem[mkey].tags
    ensures t in mem && mem[t] == Number(mem[mkey].tags[t])
  {
    assert t in Versions(mem, mem[mkey].tags.Keys);
  }

  lemma HitIsNotOutdated(w: World, k: string)
    requires IsHit(w.mem, k)
    ensures !Outdated(w, w.mem[k].tags)
  {
    forall t | t in w.mem[k].tags ensures t in w.mem && w.mem[t] == Number(w.mem[k].tags[t]) {
      HitMeansLive(w.mem, k, t);
    }
  }

  // The tags of a source are ready for a rebuild.
  lemma TagsReady(w: World, k: string)
    requires Kept(w) && k in w.src
    ensures AllNumbers(w.mem, set t | t in w.src[k].tags)
    ensures k !in w.src[k].tags && LockKey(k) !in w.src[k].tags
  {
    forall t | t in w.src[k].tags ensures TagName(w.src.Keys, t) && (t in w.mem ==> w.mem[t].Number?) {
      assert KeyShape(w, t);
    }
    assert k in w.src.Keys;
  }

  /** In a world that keeps the invariant TGet answers with what the callback would return now. */
  lemma AnswerIsCurrent(w: World, k: string)
    requires Inv(w) && k in w.src
    ensures Answer(w, k) == Ok(w.src[k].data)
    ensures IsHit(Apply(w, Call(k)).mem, k)
  {
    InvIsKept(w);
    assert KeyInv(w, k);
    TagsReady(w, k);
    RebuildStores(w.mem, w.now, k, Callback(w, k));
    var v := Apply(w, Call(k));
    if k in w.mem {
      var tags := w.mem[k].tags;
      forall t | t in tags && t in w.mem ensures w.mem[t].Number? { assert KeyInv(w, t); }
      if IsHit(w.mem, k) {
        HitIsNotOutdated(w, k);
      } else {
        NewSnapshotIsHit(v.mem, k);
      }
    } else {
      NewSnapshotIsHit(v.mem, k);
    }
  }

  lemma LiveIsUsed(v: World, k: string)
    requires k in v.mem && v.mem[k].Number? && Live(v.mem) <= v.used
    ensures (k, v.mem[k].n) in v.used
  {
    assert (k, v.mem[k].n) in Live(v.mem);
  }

  // A snapshot that is out of date stays out of date.
  lemma OutdatedStays(w: World, v: World, tags: map<string, int>)
    requires FreshVersions(w, v) && Outdated(w, tags)
    requires forall t :: t in tags ==> (t, tags[t]) in w.used
    ensures Outdated(v, tags)
  {
    var t :| t in tags && !(t in w.mem && w.mem[t] == Number(tags[t]));
    assert !(t in v.mem && v.mem[t] == Number(tags[t]));
  }

  // An item nobody wrote to keeps its shape, and stays current or outdated.
  lemma ItemStays(w: World, v: World, k: string)
    requires k in w.src && v.src.Keys == w.src.Keys && k in w.mem && k in v.mem && v.mem[k] == w.mem[k]
    requires ItemShape(w, k) && FreshVersions(w, v) && w.used <= v.used
    ensures ItemShape(v, k)
    ensures ItemInv(w, k) && (v.src[k] == w.src[k] || Outdated(v, w.mem[k].tags)) ==> ItemInv(v, k)
  {
    if Outdated(w, w.mem[k].tags) {
      OutdatedStays(w, v, w.mem[k].tags);
    }
  }

  lemma CallKeepsKept(w: World, m: string, v: World)
    requires Kept(w) && Step(w, Call(m), v)
    ensures Kept(v)
  {
    TagsReady(w, m);
    RebuildStores(w.mem, w.now, m, Callback(w, m));
    forall t | t in w.src[m].tags ensures t !in w.src { assert TagName(w.src.Keys, t); }
    forall k: string ensures KeyShape(v, k) {
      assert KeyShape(w, k);
      if k in v.mem && k !in v.src {
        if v.mem != w.mem && k !in w.mem {
          assert k in w.src[m].tags;
        }
        LiveIsUsed(v, k);
      } else if k in v.mem {
        if v.mem == w.mem || k != m {
          ItemStays(w, v, k);
        } else {
          RebuiltItem(w, m, v);
        }
      }
    }
  }

  lemma CallKeepsInv(w: World, m: string, v: World)
    requires Inv(w) && Step(w, Call(m), v)
    ensures Inv(v)
  {
    InvIsKept(w);
    CallKeepsKept(w, m, v);
    TagsReady(w, m);
    RebuildStores(w.mem, w.now, m, Callback(w, m));
    forall t | t in w.src[m].tags ensures t !in w.src { assert TagName(w.src.Keys, t); }
    forall k: string ensures KeyInv(v, k) {
      assert KeyInv(w, k) && KeyShape(v, k);
      if k in v.mem && k in v.src {
        if v.mem == w.mem || k != m {
          ItemStays(w, v, k);
        } else {
          RebuiltItem(w, m, v);
        }
      }
    }
  }

  lemma RebuiltItem(w: World, m: string, v: World)
    requires m in w.src && Namespaces(w.src) && v.src == w.src && Live(v.mem) <= v.used
    requires m in v.mem && v.mem[m].Item? && v.mem[m].data == w.src[m].data
    requires v.mem[m].tags.Keys == Tags(w.src[m])
    requires forall t :: t in w.src[m].tags ==> t in v.mem && v.mem[t] == Number(v.mem[m].tags[t])
    ensures ItemInv(v, m)
  {
    forall t | t in v.mem[m].tags ensures (t, v.mem[m].tags[t]) in v.used && TagName(v.src.Keys, t) {
      assert t in Tags(w.src[m]);
      LiveIsUsed(v, t);
    }
  }

  /** When the callback gives another type, TGet answers from a valid item; if there is none it answers
      with the mismatch, and but for the lock, which is gone, leaves everything as it is. */
  lemma FailedCall(w: World, k: string, read: Rebuilt)
    requires Kept(w) && Possible(w, Fail(k, read))
    ensures var (r, m) := GetSpec(w.mem, w.now, k, read);
            && Apply(w, Fail(k, read)).mem == m && m == (if IsHit(w.mem, k) then w.mem else w.mem - {LockKey(k)})
            && r == if IsHit(w.mem, k) then Ok(w.mem[k].data) else TypeMismatch
    ensures LockKey(k) !in w.src && forall t :: TagName(w.src.Keys, t) ==> t != LockKey(k)
  {
    assert KeyShape(w, k);
    if k in w.mem {
      forall t | t in w.mem[k].tags && t in w.mem ensures w.mem[t].Number? { assert KeyShape(w, t); }
    }
    if !IsHit(w.mem, k) {
      assert Locked(w.mem, k) - {LockKey(k)} == w.mem - {LockKey(k)};
    }
    assert k in w.src.Keys;
  }

  // Events other than calls write no items.
  lemma OtherKeepsKept(w: World, e: Event, v: World)
    requires Kept(w) && Step(w, e, v) && !e.Call?
    ensures Kept(v)
  {
    if e.Fail? { FailedCall(w, e.mkey, e.read); }
    forall k: string ensures KeyShape(v, k) {
      assert KeyShape(w, k);
      if k in v.mem && k !in v.src {
        LiveIsUsed(v, k);
      } else if k in v.mem {
        ItemStays(w, v, k);
      }
    }
  }

  lemma IncrementOutdates(w: World, tag: string, src: map<string, Source>, v: World, k: string)
    requires Step(w, Increment(tag, src), v) && k in w.src && k in w.mem && ItemShape(w, k)
    requires v.src[k] != w.src[k] && Current(w, k, w.mem[k].data, w.mem[k].tags)
    ensures Outdated(v, w.mem[k].tags)
  {
    var tags := w.mem[k].tags;
    assert tag in Tags(w.src[k]);
    // the new version was never used, the one of the snapshot was
    assert !(tag in v.mem && v.mem[tag] == Number(tags[tag]));
  }

  lemma OtherKeepsInv(w: World, e: Event, v: World)
    requires Inv(w) && Step(w, e, v) && !e.Call?
    ensures Inv(v)
  {
    InvIsKept(w);
    if e.Fail? { FailedCall(w, e.mkey, e.read); }
    OtherKeepsKept(w, e, v);
    forall k: string ensures KeyInv(v, k) {
      assert KeyInv(w, k) && KeyShape(v, k);
      if k in v.mem && k in v.src {
        if v.src[k] != w.src[k] {
          if Outdated(w, w.mem[k].tags) {
            OutdatedStays(w, v, w.mem[k].tags);
          } else {
            IncrementOutdates(w, e.tag, e.src, v, k);
          }
        }
        ItemStays(w, v, k);
      }
    }
  }

  lemma StepKeepsKept(w: World, e: Event, v: World)
    requires Kept(w) && Step(w, e, v)
    ensures Kept(v)
  {
    if e.Call? { CallKeepsKept(w, e.mkey, v); } else { OtherKeepsKept(w, e, v); }
  }

  lemma StepKeepsInv(w: World, e: Event, v: World)
    requires Inv(w) && Step(w, e, v)
    ensures Inv(v)
  {
    if e.Call? { CallKeepsInv(w, e.mkey, v); } else { OtherKeepsInv(w, e, v); }
  }

  lemma {:induction false} RunKeepsInv(w: World, es: seq<Event>, ws: seq<World>)
    requires Inv(w) && Run(w, es, ws)
    ensures Inv(ws[|es|])
    decreases |es|
  {
    if es != [] {
      StepKeepsInv(w, es[0], ws[1]);
      RunKeepsInv(ws[1], es[1..], ws[1..]);
    }
  }

  /** Coherence: after any run of TGet calls, failing ones among them, increments with changes of the
      source, expiries and clock ticks, TGet returns what the rebuild callback would return now. */
  lemma Coherence(w: World, es: seq<Event>, ws: seq<World>, k: string)
    requires Start(w) && Run(w, es, ws) && k in ws[|es|].src
    ensures Answer(ws[|es|], k) == Ok(ws[|es|].src[k].data)
  {
    RunKeepsInv(w, es, ws);
    AnswerIsCurrent(ws[|es|], k);
  }

  // The event leaves the item of k and its tags alone.
  predicate Spares(e: Event, k: string, tags: set<string>) {
    match e
    case Increment(tag, _) => tag !in tags
    case Expire(key) => key != k && key !in tags
    case _ => true
  }

  lemma SparedByCall(w: World, m: string, k: string)
    requires Kept(w) && k in w.src && m in w.src && IsHit(w.mem, k)
    ensures var mem := Apply(w, Call(m)).mem;
            && k in mem && mem[k] == w.mem[k]
            && forall t :: t in w.mem[k].tags ==> t in mem && mem[t] == w.mem[t]
  {
    assert KeyShape(w, k);
    if Apply(w, Call(m)).mem != w.mem {
      TagsReady(w, m);
      RebuildStores(w.mem, w.now, m, Callback(w, m));
      assert LockKey(m) != k;
      forall t | t in w.mem[k].tags ensures t in w.mem && t != m && t != LockKey(m) {
        HitMeansLive(w.mem, k, t);
        assert TagName(w.src.Keys, t) && m in w.src.Keys;
      }
    }
  }

  lemma SparedByFail(w: World, m: string, read: Rebuilt, k: string)
    requires Kept(w) && k in w.src && Possible(w, Fail(m, read)) && IsHit(w.mem, k)
    ensures var mem := Apply(w, Fail(m, read)).mem;
            && k in mem && mem[k] == w.mem[k]
            && forall t :: t in w.mem[k].tags ==> t in mem && mem[t] == w.mem[t]
  {
    assert KeyShape(w, k);
    FailedCall(w, m, read);
    forall t | t in w.mem[k].tags ensures t in w.mem { HitMeansLive(w.mem, k, t); }
  }

  lemma SparedStaysHit(w: World, e: Event, v: World, k: string)
    requires Kept(w) && k in w.src && Step(w, e, v) && IsHit(w.mem, k) && Spares(e, k, w.mem[k].tags.Keys)
    ensures k in v.src && IsHit(v.mem, k) && v.mem[k] == w.mem[k]
  {
    if e.Call? {
      SparedByCall(w, e.mkey, k);
    } else if e.Fail? {
      SparedByFail(w, e.mkey, e.read, k);
    }
    forall t | t in w.mem[k].tags ensures t in v.mem && v.mem[t] == Number(w.mem[k].tags[t]) {
      HitMeansLive(w.mem, k, t);
    }
    NewSnapshotIsHit(v.mem, k);
  }

  lemma {:induction false} SparedRunStaysHit(w: World, es: seq<Event>, ws: seq<World>, k: string)
    requires Kept(w) && k in w.src && Run(w, es, ws) && IsHit(w.mem, k)
    requires forall e :: e in es ==> Spares(e, k, w.mem[k].tags.Keys)
    ensures k in ws[|es|].src && IsHit(ws[|es|].mem, k)
    ensures ws[|es|].mem[k] == w.mem[k]
    decreases |es|
  {
    if es != [] {
      SparedStaysHit(w, es[0], ws[1], k);
      StepKeepsKept(w, es[0], ws[1]);
      SparedRunStaysHit(ws[1], es[1..], ws[1..], k);
    }
  }

  /** The cache does cache: once TGet was called for k, and as long as no event takes away its item
      or one of its tags or increments one, the next TGet is a hit, which changes nothing. */
  lemma {:induction false} UntouchedIsHit(past: seq<Event>, before: seq<World>, k: string, es: seq<Event>, ws: seq<World>)
    requires |before| > 0 && Start(before[0]) && Run(before[0], past, before)
    requires |ws| > 0 && Step(before[|past|], Call(k), ws[0]) && Run(ws[0], es, ws)
    requires k in ws[0].mem && ws[0].mem[k].Item? ==> forall e :: e in es ==> Spares(e, k, ws[0].mem[k].tags.Keys)
    ensures var v := ws[|es|];
            && k in v.src && IsHit(v.mem, k)
            && Apply(v, Call(k)).mem == v.mem
            && Answer(v, k) == Answer(before[|past|], k)
  {
    RunKeepsInv(before[0], past, before);
    HitAfterCall(before[|past|], k, es, ws);
  }

  lemma HitAfterCall(w: World, k: string, es: seq<Event>, ws: seq<World>)
    requires Inv(w) && |ws| > 0 && Step(w, Call(k), ws[0]) && Run(ws[0], es, ws)
    requires k in ws[0].mem && ws[0].mem[k].Item? ==> forall e :: e in es ==> Spares(e, k, ws[0].mem[k].tags.Keys)
    ensures var v := ws[|es|];
            && k in v.src && IsHit(v.mem, k)
            && Apply(v, Call(k)).mem == v.mem
            && Answer(v, k) == Answer(w, k)
  {
    AnswerIsCurrent(w, k);
    CalledItem(w, k);
    StepKeepsInv(w, Call(k), ws[0]);
    InvIsKept(ws[0]);
    SparedRunStaysHit(ws[0], es, ws, k);
    HitAnswers(ws[|es|], k);
  }

  lemma HitAnswers(v: World, k: string)
    requires k in v.src && IsHit(v.mem, k)
    ensures Apply(v, Call(k)).mem == v.mem && Answer(v, k) == Ok(v.mem[k].data)
  {
  }

  lemma CalledItem(w: World, k: string)
    requires Inv(w) && k in w.src
    ensures IsHit(Apply(w, Call(k)).mem, k) && Apply(w, Call(k)).mem[k].data == w.src[k].data
  {
    AnswerIsCurrent(w, k);
    if !IsHit(w.mem, k) {
      InvIsKept(w);
      assert KeyInv(w, k);
      TagsReady(w, k);
      RebuildStores(w.mem, w.now, k, Callback(w, k));
    }
  }
}
