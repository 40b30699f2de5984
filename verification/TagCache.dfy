/** The tag-invalidated cache of lectures/C2W2/database/tcache/cache.go.

    memcached is a map with atomic operations. A key that has expired or was evicted is a key that
    is not there. The data of an item is an opaque string: encoding it as JSON and back is taken
    to be the identity. */
module TagCache {
  // The bytes under a key: an encoded CacheItemStore, a decimal number, or anything else.
  datatype Value = Item(data: string, tags: map<string, int>) | Number(n: int) | Garbage

  type Mem = map<string, Value>

  // What the rebuild callback returns. `sameType` is the outcome of the comparison of types.
  datatype Rebuilt = Rebuilt(data: string, tags: seq<string>, sameType: bool)

  datatype Outcome = Ok(data: string) | TypeMismatch | BadItem | BadTag

  function LockKey(mkey: string): string { "lock_" + mkey }

  // GetMulti followed by Atoi on what came back.
  predicate AllNumbers(mem: Mem, tags: set<string>) {
    forall t :: t in tags && t in mem ==> mem[t].Number?
  }

  function Versions(mem: Mem, tags: set<string>): map<string, int>
    requires AllNumbers(mem, tags)
  {
    map t | t in tags && t in mem :: mem[t].n
  }

  /* getCurrentItemTags from position i on: a tag that was missing in `curr` is created with the
     current time as its version; a value that is no number ends the loop, with the tags created
     so far left behind. */
  function TagLoop(mem: Mem, curr: Mem, tags: seq<string>, i: nat, now: int, acc: map<string, int>)
    : (Mem, bool, map<string, int>)
    requires i <= |tags|
    decreases |tags| - i
  {
    if i == |tags| then (mem, true, acc)
    else if tags[i] !in curr then
      TagLoop(mem[tags[i] := Number(now)], curr, tags, i + 1, now, acc[tags[i] := now])
    else if curr[tags[i]].Number? then TagLoop(mem, curr, tags, i + 1, now, acc[tags[i] := curr[tags[i]].n])
    else (mem, false, acc)
  }

  function Locked(mem: Mem, mkey: string): Mem {
    if LockKey(mkey) in mem then mem else mem[LockKey(mkey) := Number(1)]
  }

  // rebuild: the result of taking the lock is not looked at, and the lock is always deleted.
  function RebuildSpec(mem: Mem, now: int, mkey: string, cb: Rebuilt): (Outcome, Mem) {
    var mem := Locked(mem, mkey);
    if !cb.sameType then (TypeMismatch, mem - {LockKey(mkey)})
    else
      var (mem, ok, tags) := TagLoop(mem, mem, cb.tags, 0, now, map[]);
      if !ok then (BadTag, mem - {LockKey(mkey)})
      else (Ok(cb.data), mem[mkey := Item(cb.data, tags)] - {LockKey(mkey)})
  }

  predicate IsHit(mem: Mem, mkey: string) {
    && mkey in mem && mem[mkey].Item?
    && AllNumbers(mem, mem[mkey].tags.Keys)
    && Versions(mem, mem[mkey].tags.Keys) == mem[mkey].tags
  }

  function GetSpec(mem: Mem, now: int, mkey: string, cb: Rebuilt): (Outcome, Mem) {
    if mkey !in mem then RebuildSpec(mem, now, mkey, cb)
    else if !mem[mkey].Item? then (BadItem, mem)
    else if !AllNumbers(mem, mem[mkey].tags.Keys) then (BadTag, mem)
    else if IsHit(mem, mkey) then (Ok(mem[mkey].data), mem)
    else RebuildSpec(mem, now, mkey, cb)
  }

  // TGet has to rebuild: there is no item, or one whose tags are numbers but not those of its snapshot.
  predicate Rebuilds(mem: Mem, mkey: string) {
    mkey !in mem || (mem[mkey].Item? && AllNumbers(mem, mem[mkey].tags.Keys) && !IsHit(mem, mkey))
  }

  class TCache {
    var mem: Mem
    var now: int

    // Waits for the lock at most four times and goes on in any case.
    method CheckLock(mkey: string) returns (waits: nat)
      ensures waits == if LockKey(mkey) in mem then 4 else 0
    {
      waits := 0;
      for i := 0 to 4
        invariant waits == i && (i > 0 ==> LockKey(mkey) in mem)
      {
        if LockKey(mkey) !in mem { return; }
        waits := waits + 1;
      }
    }

    method IsTagsValid(itemTags: map<string, int>) returns (valid: bool, err: bool)
      ensures err <==> !AllNumbers(mem, itemTags.Keys)
      ensures !err ==> (valid <==> Versions(mem, itemTags.Keys) == itemTags)
    {
      var curr := map t | t in itemTags && t in mem :: mem[t];
      var left, current: map<string, int> := curr.Keys, map[];
      while left != {}
        invariant left <= curr.Keys && current.Keys == curr.Keys - left
        invariant forall t :: t in current ==> curr[t] == Number(current[t])
        decreases left
      {
        var t :| t in left;
        if !curr[t].Number? {
          assert !AllNumbers(mem, itemTags.Keys) by { assert t in itemTags.Keys && t in mem; }
          return false, true;
        }
        current := current[t := curr[t].n];
        left := left - {t};
      }
      assert AllNumbers(mem, itemTags.Keys) by {
        forall t | t in itemTags.Keys && t in mem ensures mem[t].Number? { assert t in curr.Keys; }
      }
      assert current == Versions(mem, itemTags.Keys);
      return itemTags == current, false;
    }

    method GetCurrentItemTags(tags: seq<string>) returns (ok: bool, result: map<string, int>)
      modifies this`mem
      ensures (mem, ok, result) == TagLoop(old(mem), old(mem), tags, 0, now, map[])
    {
      var curr := mem;
      result := map[];
      var i := 0;
      while i < |tags|
        invariant i <= |tags|
        invariant TagLoop(mem, curr, tags, i, now, result) == TagLoop(old(mem), old(mem), tags, 0, now, map[])
      {
        var t := tags[i];
        if t !in curr {
          mem := mem[t := Number(now)];
          result := result[t := now];
        } else if curr[t].Number? {
          result := result[t := curr[t].n];
        } else {
          return false, result;
        }
        i := i + 1;
      }
      ok := true;
    }

    method LockRebuild(mkey: string) returns (acquired: bool)
      modifies this`mem
      ensures mem == Locked(old(mem), mkey)
      ensures LockKey(mkey) in mem && forall k :: k in old(mem) ==> k in mem && mem[k] == old(mem)[k]
      ensures acquired <==> LockKey(mkey) !in old(mem)
    {
      acquired := false;
      for i := 0 to 4
        invariant !acquired && mem == old(mem)
        invariant i > 0 ==> LockKey(mkey) in mem
      {
        if LockKey(mkey) !in mem { // Add stores
          mem := mem[LockKey(mkey) := Number(1)];
          acquired := true;
          break;
        }
      }
    }

    method Rebuild(mkey: string, cb: Rebuilt) returns (r: Outcome)
      modifies this`mem
      ensures (r, mem) == RebuildSpec(old(mem), now, mkey, cb)
    {
      var _ := LockRebuild(mkey);
      if !cb.sameType {
        r := TypeMismatch;
      } else {
        var ok, tags := GetCurrentItemTags(cb.tags);
        if ok {
          mem := mem[mkey := Item(cb.data, tags)];
          r := Ok(cb.data);
        } else {
          r := BadTag;
        }
      }
      mem := mem - {LockKey(mkey)};
    }

    method TGet(mkey: string, cb: Rebuilt) returns (r: Outcome)
      modifies this`mem
      ensures (r, mem) == GetSpec(old(mem), now, mkey, cb)
      ensures IsHit(old(mem), mkey) ==> r == Ok(old(mem)[mkey].data) && mem == old(mem)
      ensures Rebuilds(old(mem), mkey) && !cb.sameType ==> r == TypeMismatch && mem == old(mem) - {LockKey(mkey)}
      ensures mkey in old(mem) && !old(mem)[mkey].Item? ==> r == BadItem && mem == old(mem)
      ensures mkey in old(mem) && old(mem)[mkey].Item?
              && (exists t :: t in old(mem)[mkey].tags && t in old(mem) && !old(mem)[t].Number?) ==>
                r == BadTag && mem == old(mem)
    {
      var _ := CheckLock(mkey);
      if mkey !in mem {
        r := Rebuild(mkey, cb);
        return;
      }
      match mem[mkey]
      case Item(data, tags) =>
        var valid, err := IsTagsValid(tags);
        if err {
          r := BadTag;
        } else if valid {
          r := Ok(data);
        } else {
          r := Rebuild(mkey, cb);
        }
      case _ => r := BadItem;
    }
  }
}
