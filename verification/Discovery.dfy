/** The service-discovery loop of client_lb.go, and what it makes the balancer believe when its
    updates travel through the protocol of Balancer. */
module Discovery {
  import opened Balancer
  import opened Text

  function Addresses(health: seq<string>): set<string> { set a | a in health }

  // Taking updates one after the other, none of them idle.
  predicate Legal(s: set<string>, updates: Batch)
    decreases |updates|
  {
    updates == [] ||
    match updates[0]
    case Add(a) => a !in s && Legal(s + {a}, updates[1..])
    case Delete(a) => a in s && Legal(s - {a}, updates[1..])
  }

  function After(s: set<string>, updates: Batch): set<string>
    decreases |updates|
  {
    if updates == [] then s
    else match updates[0]
      case Add(a) => After(s + {a}, updates[1..])
      case Delete(a) => After(s - {a}, updates[1..])
  }

  function AfterAll(s: set<string>, batches: seq<Batch>): set<string>
    decreases |batches|
  {
    if batches == [] then s else AfterAll(After(s, batches[0]), batches[1..])
  }

  predicate LegalAll(s: set<string>, batches: seq<Batch>)
    decreases |batches|
  {
    batches == [] || (Legal(s, batches[0]) && LegalAll(After(s, batches[0]), batches[1..]))
  }

  lemma {:induction false} AfterAppend(s: set<string>, updates: Batch, u: Update)
    ensures After(s, updates + [u]) == After(After(s, updates), [u])
    ensures Legal(s, updates + [u]) <==> Legal(s, updates) && Legal(After(s, updates), [u])
    decreases |updates|
  {
    if updates == [] {
      assert updates + [u] == [u];
    } else {
      assert (updates + [u])[1..] == updates[1..] + [u];
      AfterAppend(match updates[0] case Add(a) => s + {a} case Delete(a) => s - {a}, updates[1..], u);
    }
  }

  lemma {:induction false} AfterAllAppend(s: set<string>, batches: seq<Batch>, b: Batch)
    ensures AfterAll(s, batches + [b]) == After(AfterAll(s, batches), b)
    ensures LegalAll(s, batches + [b]) <==> LegalAll(s, batches) && Legal(AfterAll(s, batches), b)
    decreases |batches|
  {
    if batches == [] {
      assert batches + [b] == [b] && [b][1..] == [];
    } else {
      assert (batches + [b])[1..] == batches[1..] + [b];
      AfterAllAppend(After(s, batches[0]), batches[1..], b);
    }
  }

  lemma {:induction false} AfterConcat(s: set<string>, a: Batch, b: Batch)
    ensures After(s, a + b) == After(After(s, a), b)
    ensures Legal(s, a + b) <==> Legal(s, a) && Legal(After(s, a), b)
    decreases |a|
  {
    if a == [] {
      assert a + b == b;
    } else {
      assert (a + b)[1..] == a[1..] + b;
      AfterConcat(match a[0] case Add(x) => s + {x} case Delete(x) => s - {x}, a[1..], b);
    }
  }

  function Deletes(addrs: set<string>): set<Update> { set a | a in addrs :: Delete(a) }
  function Adds(addrs: set<string>): set<Update> { set a | a in addrs :: Add(a) }

  function AsDeletes(addrs: seq<string>): (r: Batch)
    ensures |r| == |addrs| && forall i :: 0 <= i < |addrs| ==> r[i] == Delete(addrs[i])
  {
    seq(|addrs|, i requires 0 <= i < |addrs| => Delete(addrs[i]))
  }

  function AsAdds(addrs: seq<string>): (r: Batch)
    ensures |r| == |addrs| && forall i :: 0 <= i < |addrs| ==> r[i] == Add(addrs[i])
  {
    seq(|addrs|, i requires 0 <= i < |addrs| => Add(addrs[i]))
  }

  lemma AddressesHead(addrs: seq<string>)
    requires addrs != []
    ensures Addresses(addrs) == {addrs[0]} + Addresses(addrs[1..])
    ensures Distinct(addrs) ==> addrs[0] !in Addresses(addrs[1..])
  {
    assert addrs == [addrs[0]] + addrs[1..];
  }

  lemma {:induction false} DeletesAreLegal(s: set<string>, addrs: seq<string>)
    requires Distinct(addrs) && Addresses(addrs) <= s
    ensures Legal(s, AsDeletes(addrs)) && After(s, AsDeletes(addrs)) == s - Addresses(addrs)
    decreases |addrs|
  {
    if addrs != [] {
      AddressesHead(addrs);
      DeletesAreLegal(s - {addrs[0]}, addrs[1..]);
      assert AsDeletes(addrs)[1..] == AsDeletes(addrs[1..]);
    }
  }

  lemma {:induction false} DeletesAreDistinct(addrs: seq<string>)
    requires Distinct(addrs)
    ensures Enumerates(AsDeletes(addrs), Deletes(Addresses(addrs)))
    decreases |addrs|
  {
    if addrs == [] {
      assert Deletes(Addresses(addrs)) == {};
    } else {
      AddressesHead(addrs);
      DeletesAreDistinct(addrs[1..]);
      assert AsDeletes(addrs) == [Delete(addrs[0])] + AsDeletes(addrs[1..]);
      assert Deletes(Addresses(addrs)) == {Delete(addrs[0])} + Deletes(Addresses(addrs[1..]));
      EnumeratesConcat([Delete(addrs[0])], AsDeletes(addrs[1..]), {Delete(addrs[0])}, Deletes(Addresses(addrs[1..])));
    }
  }

  lemma {:induction false} AddsAreLegal(s: set<string>, addrs: seq<string>)
    requires Distinct(addrs) && Addresses(addrs) !! s
    ensures Legal(s, AsAdds(addrs)) && After(s, AsAdds(addrs)) == s + Addresses(addrs)
    decreases |addrs|
  {
    if addrs != [] {
      AddressesHead(addrs);
      AddsAreLegal(s + {addrs[0]}, addrs[1..]);
      assert AsAdds(addrs)[1..] == AsAdds(addrs[1..]);
    }
  }

  lemma {:induction false} AddsAreDistinct(addrs: seq<string>)
    requires Distinct(addrs)
    ensures Enumerates(AsAdds(addrs), Adds(Addresses(addrs)))
    decreases |addrs|
  {
    if addrs == [] {
      assert Adds(Addresses(addrs)) == {};
    } else {
      AddressesHead(addrs);
      AddsAreDistinct(addrs[1..]);
      assert AsAdds(addrs) == [Add(addrs[0])] + AsAdds(addrs[1..]);
      assert Adds(Addresses(addrs)) == {Add(addrs[0])} + Adds(Addresses(addrs[1..]));
      EnumeratesConcat([Add(addrs[0])], AsAdds(addrs[1..]), {Add(addrs[0])}, Adds(Addresses(addrs[1..])));
    }
  }

  lemma AddressesAppend(addrs: seq<string>, a: string)
    ensures Addresses(addrs + [a]) == Addresses(addrs) + {a}
  {
    assert forall x :: x in addrs + [a] <==> x in addrs || x == a;
  }

  // The updates are those of the set, each exactly once.
  ghost predicate Enumerates(updates: Batch, all: set<Update>) {
    |updates| == |all| && forall u :: u in updates <==> u in all
  }

  lemma EnumeratesConcat(a: Batch, b: Batch, s: set<Update>, t: set<Update>)
    requires Enumerates(a, s) && Enumerates(b, t) && s !! t
    ensures Enumerates(a + b, s + t)
  {
  }

  // The updates that separate two snapshots.
  function Difference(from: set<string>, to: set<string>): set<Update> {
    Deletes(from - to) + Adds(to - from)
  }

  // An address is deleted exactly if it is no longer there, and added exactly if it was not there before.
  ghost predicate Separates(updates: Batch, from: set<string>, health: seq<string>) {
    && (forall a :: Delete(a) in updates <==> a in from && a !in health)
    && (forall a :: Add(a) in updates <==> a in health && a !in from)
  }

  lemma DifferenceSeparates(updates: Batch, from: set<string>, health: seq<string>)
    requires Enumerates(updates, Difference(from, Addresses(health)))
    ensures Separates(updates, from, health)
  {
    var all := Difference(from, Addresses(health));
    forall a ensures Delete(a) in all <==> a in from && a !in health { }
    forall a ensures Add(a) in all <==> a in health && a !in from { }
  }

  // The two halves of a tick together.
  lemma TickCombines(before: set<string>, health: seq<string>, gone: Batch, added: Batch)
    requires Legal(before, gone) && After(before, gone) == before * Addresses(health)
    requires Enumerates(gone, Deletes(before - Addresses(health)))
    requires var kept := before * Addresses(health);
             && Legal(kept, added) && After(kept, added) == kept + Addresses(health)
             && Enumerates(added, Adds(Addresses(health) - kept))
    ensures Legal(before, gone + added) && After(before, gone + added) == Addresses(health)
    ensures Enumerates(gone + added, Difference(before, Addresses(health)))
    ensures Separates(gone + added, before, health)
  {
    var addrs := Addresses(health);
    AfterConcat(before, gone, added);
    assert before * addrs + addrs == addrs;
    assert Enumerates(gone + added, Difference(before, addrs)) by {
      assert addrs - before * addrs == addrs - before;
      EnumeratesConcat(gone, added, Deletes(before - addrs), Adds(addrs - before));
    }
    DifferenceSeparates(gone + added, before, health);
  }

  class ServiceDiscovery {
    var currAddrs: set<string>

    constructor (servers: seq<string>)
      ensures currAddrs == Addresses(servers)
    {
      currAddrs := Addresses(servers);
    }

    /* Go ranges over a map in an order of its own choosing, so `:|` picks any address that is
       left; deleting from the map ranged over does not disturb the range. */
    method RemoveGone(newAddrs: set<string>) returns (updates: Batch)
      modifies this
      ensures currAddrs == old(currAddrs) * newAddrs
      ensures Legal(old(currAddrs), updates) && After(old(currAddrs), updates) == currAddrs
      ensures Enumerates(updates, Deletes(old(currAddrs) - newAddrs))
    {
      ghost var before := currAddrs;
      updates := [];
      var left := currAddrs;
      ghost var gone: seq<string> := [];
      while left != {}
        invariant left <= before && Distinct(gone) && Addresses(gone) !! left
        invariant Addresses(gone) <= before - newAddrs <= Addresses(gone) + left
        invariant currAddrs == before - Addresses(gone) && updates == AsDeletes(gone)
        decreases left
      {
        var addr :| addr in left;
        if addr !in newAddrs {
          AddressesAppend(gone, addr);
          updates := updates + [Delete(addr)];
          currAddrs := currAddrs - {addr};
          gone := gone + [addr];
        }
        left := left - {addr};
      }
      assert Addresses(gone) == before - newAddrs && currAddrs == before * newAddrs;
      assert Legal(before, updates) && After(before, updates) == currAddrs by { DeletesAreLegal(before, gone); }
      assert Enumerates(updates, Deletes(before - newAddrs)) by { DeletesAreDistinct(gone); }
    }

    method AddNew(newAddrs: set<string>) returns (updates: Batch)
      modifies this
      ensures currAddrs == old(currAddrs) + newAddrs
      ensures Legal(old(currAddrs), updates) && After(old(currAddrs), updates) == currAddrs
      ensures Enumerates(updates, Adds(newAddrs - old(currAddrs)))
    {
      ghost var before := currAddrs;
      updates := [];
      var left := newAddrs;
      ghost var added: seq<string> := [];
      while left != {}
        invariant left <= newAddrs && Distinct(added) && Addresses(added) !! left
        invariant Addresses(added) <= newAddrs - before <= Addresses(added) + left
        invariant currAddrs == before + Addresses(added) && updates == AsAdds(added)
        decreases left
      {
        var addr :| addr in left;
        if addr !in currAddrs {
          AddressesAppend(added, addr);
          updates := updates + [Add(addr)];
          currAddrs := currAddrs + {addr};
          added := added + [addr];
        }
        left := left - {addr};
      }
      assert Addresses(added) == newAddrs - before && currAddrs == before + newAddrs;
      assert Legal(before, updates) && After(before, updates) == currAddrs by { AddsAreLegal(before, added); }
      assert Enumerates(updates, Adds(newAddrs - before)) by { AddsAreDistinct(added); }
    }

    // One tick: first what was removed, then what was added.
    method Tick(health: seq<string>) returns (updates: Batch)
      modifies this
      ensures currAddrs == Addresses(health)
      ensures Legal(old(currAddrs), updates) && After(old(currAddrs), updates) == currAddrs
      ensures Enumerates(updates, Difference(old(currAddrs), currAddrs))
      ensures Separates(updates, old(currAddrs), health)
    {
      var newAddrs := Addresses(health);
      var gone := RemoveGone(newAddrs);
      var added := AddNew(newAddrs);
      TickCombines(old(currAddrs), health, gone, added);
      updates := gone + added;
    }

    /* The loop over the ticker: what is injected, for a given sequence of snapshots. */
    method Run(snapshots: seq<seq<string>>) returns (injected: seq<Batch>)
      modifies this
      ensures currAddrs == if snapshots == [] then old(currAddrs) else Addresses(snapshots[|snapshots| - 1])
      ensures LegalAll(old(currAddrs), injected) && AfterAll(old(currAddrs), injected) == currAddrs
      ensures NonEmpty(injected) && |injected| <= |snapshots|
    {
      injected := [];
      for t := 0 to |snapshots|
        invariant currAddrs == if t == 0 then old(currAddrs) else Addresses(snapshots[t - 1])
        invariant LegalAll(old(currAddrs), injected) && AfterAll(old(currAddrs), injected) == currAddrs
        invariant NonEmpty(injected) && |injected| <= t
      {
        ghost var before := currAddrs;
        var updates := Tick(snapshots[t]);
        assert Legal(before, updates) && After(before, updates) == currAddrs;
        if |updates| > 0 {
          assert LegalAll(old(currAddrs), injected + [updates])
                 && AfterAll(old(currAddrs), injected + [updates]) == currAddrs by {
            AfterAllAppend(old(currAddrs), injected, updates);
          }
          injected := injected + [updates];
        }
      }
    }
  }

  /* main: the first server goes through Resolve, the others are injected as one batch if there are any. */
  function InitialBatches(servers: seq<string>): seq<Batch>
    requires servers != []
  {
    if |servers| > 1 then [seq(|servers| - 1, i requires 0 <= i < |servers| - 1 => Add(servers[i + 1]))] else []
  }

  lemma {:induction false} AfterAdds(s: set<string>, addrs: seq<string>, updates: Batch)
    requires |updates| == |addrs| && forall i :: 0 <= i < |addrs| ==> updates[i] == Add(addrs[i])
    ensures After(s, updates) == s + Addresses(addrs)
    decreases |addrs|
  {
    if addrs != [] {
      AfterAdds(s + {addrs[0]}, addrs[1..], updates[1..]);
      assert addrs == [addrs[0]] + addrs[1..];
    }
  }

  lemma {:induction false} AfterAllConcat(s: set<string>, a: seq<Batch>, b: seq<Batch>)
    ensures AfterAll(s, a + b) == AfterAll(AfterAll(s, a), b)
    decreases |a|
  {
    if a == [] {
      assert a + b == b;
    } else {
      assert (a + b)[1..] == a[1..] + b;
      AfterAllConcat(After(s, a[0]), a[1..], b);
    }
  }

  lemma InitialServers(servers: seq<string>)
    requires servers != []
    ensures AfterAll({}, [[Add(servers[0])]] + InitialBatches(servers)) == Addresses(servers)
    ensures NonEmpty(InitialBatches(servers))
  {
    var first, rest := [[Add(servers[0])]], InitialBatches(servers);
    AfterAllConcat({}, first, rest);
    AfterAdds({}, [servers[0]], [Add(servers[0])]);
    assert first[1..] == [];
    assert AfterAll({}, first) == {servers[0]};
    assert servers == [servers[0]] + servers[1..];
    assert Addresses(servers) == {servers[0]} + Addresses(servers[1..]);
    if |servers| > 1 {
      AfterAdds({servers[0]}, servers[1..], rest[0]);
      assert rest[1..] == [];
      assert AfterAll({servers[0]}, rest) == After({servers[0]}, rest[0]);
    } else {
      assert Addresses(servers[1..]) == {};
    }
  }

  /** End to end: main starts with `servers`, the loop injects what Run returned for the snapshots,
      and the balancer applies what Next returns. Once no step is left, the balancer knows exactly
      the addresses of the latest snapshot. `last` is what the contract of Run gives. */
  lemma BalancerSeesLatest(servers: seq<string>, injected: seq<Batch>, last: set<string>, ls: seq<Label>, t: State)
    requires servers != []
    requires NonEmpty(injected) && AfterAll(Addresses(servers), injected) == last
    requires Reaches(InitialBatches(servers) + injected, Resolve(servers[0]), ls, t)
    requires forall l :: !Enabled(InitialBatches(servers) + injected, t, l)
    ensures AfterAll({}, t.results) == last
  {
    var batches := InitialBatches(servers) + injected;
    InitialServers(servers);
    assert NonEmpty(batches);
    EverythingIsDelivered(servers[0], batches, ls, t);
    var first := [[Add(servers[0])]];
    assert All(servers[0], batches) == (first + InitialBatches(servers)) + injected;
    AfterAllConcat({}, first + InitialBatches(servers), injected);
  }

  function Latest(servers: seq<string>, snapshots: seq<seq<string>>): set<string> {
    Addresses(if snapshots == [] then servers else snapshots[|snapshots| - 1])
  }

  /** main from end to end: started with `servers`, the discovery loop sees the snapshots, and whatever
      the interleaving of its injections with Resolve and Next, a balancer that has read everything
      knows exactly the addresses of the latest snapshot. */
  method Serve(servers: seq<string>, snapshots: seq<seq<string>>) returns (injected: seq<Batch>)
    requires servers != []
    ensures NonEmpty(injected)
    ensures forall ls, t :: Reaches(InitialBatches(servers) + injected, Resolve(servers[0]), ls, t)
                            && (forall l :: !Enabled(InitialBatches(servers) + injected, t, l)) ==>
              AfterAll({}, t.results) == Latest(servers, snapshots)
  {
    var discovery := new ServiceDiscovery(servers);
    injected := discovery.Run(snapshots);
    forall ls, t | Reaches(InitialBatches(servers) + injected, Resolve(servers[0]), ls, t)
                   && (forall l :: !Enabled(InitialBatches(servers) + injected, t, l))
      ensures AfterAll({}, t.results) == Latest(servers, snapshots)
    {
      BalancerSeesLatest(servers, injected, Latest(servers, snapshots), ls, t);
    }
  }
}
