/** What the jobs of a pipeline compute, without goroutines: what each of them is expected to send, and
    when the order of arrival does not matter. */
module PipelineValues {
  import opened Text
  import opened Pipeline

  // What a hashing job sends for all it receives.
  function HashAll(h: Hashes, job: Job, vals: seq<string>): (r: seq<string>)
    requires Fans(job)
    ensures |r| == |vals|
    ensures forall k :: 0 <= k < |vals| ==> r[k] == Hash(h, job, vals[k])
  {
    seq(|vals|, k requires 0 <= k < |vals| => Hash(h, job, vals[k]))
  }

  // What a sequential job has sent when it has received vals.
  function Stream(job: Job, vals: seq<string>): seq<string>
    requires job.Proc?
  {
    if vals == [] then job.start
    else Stream(job, vals[..|vals| - 1]) + job.f(vals[..|vals| - 1], vals[|vals| - 1])
  }

  // How many of these values it takes, the first k at least.
  function Taken(job: Job, vals: seq<string>, k: nat): (n: nat)
    requires job.Proc? && k <= |vals|
    ensures k <= n <= |vals|
    decreases |vals| - k
  {
    if k == |vals| || job.stop(vals[..k]) then k else Taken(job, vals, k + 1)
  }

  // What a job takes of its input.
  function Cut(job: Job, vals: seq<string>): seq<string> {
    if job.Proc? then vals[..Taken(job, vals, 0)] else vals
  }

  // What a job sends for its input.
  function Output(h: Hashes, job: Job, vals: seq<string>): seq<string> {
    if job.Proc? then Stream(job, Cut(job, vals)) + job.g(Cut(job, vals)) else HashAll(h, job, vals)
  }

  // What the sequential composition of the first k jobs sends.
  function Expected(h: Hashes, jobs: seq<Job>, k: nat): seq<string>
    requires k <= |jobs|
  {
    if k == 0 then [] else Output(h, jobs[k - 1], Expected(h, jobs, k - 1))
  }

  // How many values are sent on channel k in a complete run.
  function Total(h: Hashes, jobs: seq<Job>, k: nat): nat
    requires k <= |jobs|
  {
    |Expected(h, jobs, k)|
  }

  // Whether channel k carries its values in a fixed order: the hashing jobs send as they finish, and
  // after them only a job that does not look at the order restores one.
  ghost predicate Ordered(h: Hashes, jobs: seq<Job>, k: nat)
    requires k <= |jobs|
    decreases k, 0
  {
    k == 0 ||
    (jobs[k - 1].Proc? &&
     forall a {:trigger Whole(h, jobs, k - 1, a)} ::
       Whole(h, jobs, k - 1, a) ==> Output(h, jobs[k - 1], a) == Expected(h, jobs, k))
  }

  // What channel k can have carried when it is closed, and at some moment before.
  ghost predicate Whole(h: Hashes, jobs: seq<Job>, k: nat, log: seq<string>)
    requires k <= |jobs|
    decreases k, 1
  {
    multiset(log) == multiset(Expected(h, jobs, k)) && (Ordered(h, jobs, k) ==> log == Expected(h, jobs, k))
  }

  ghost predicate Part(h: Hashes, jobs: seq<Job>, k: nat, log: seq<string>)
    requires k <= |jobs|
  {
    multiset(log) <= multiset(Expected(h, jobs, k)) && (Ordered(h, jobs, k) ==> log <= Expected(h, jobs, k))
  }

  // What a job takes and sends does not depend on an order of arrival that is left open, but for the
  // order in which it sends.
  ghost predicate Settled(h: Hashes, jobs: seq<Job>, i: nat)
    requires i < |jobs|
  {
    forall a :: SettledFor(h, jobs, i, a)
  }

  ghost predicate SettledFor(h: Hashes, jobs: seq<Job>, i: nat, a: seq<string>)
    requires i < |jobs|
  {
    Whole(h, jobs, i, a) ==>
      && multiset(Output(h, jobs[i], a)) == multiset(Expected(h, jobs, i + 1))
      && |Cut(jobs[i], a)| == |Cut(jobs[i], Expected(h, jobs, i))|
  }

  ghost predicate Determined(h: Hashes, jobs: seq<Job>) {
    forall i :: 0 <= i < |jobs| ==> Settled(h, jobs, i)
  }

  lemma OrderedWhole(h: Hashes, jobs: seq<Job>, i: nat, a: seq<string>)
    requires i < |jobs| && Ordered(h, jobs, i) && Whole(h, jobs, i, a)
    ensures a == Expected(h, jobs, i) && Output(h, jobs[i], a) == Expected(h, jobs, i + 1)
  {
  }

  // Where the order is fixed every job is settled, and a sequential one keeps the order.
  lemma OrderedIsSettled(h: Hashes, jobs: seq<Job>, i: nat)
    requires i < |jobs| && Ordered(h, jobs, i)
    ensures Settled(h, jobs, i)
  {
    forall a ensures SettledFor(h, jobs, i, a) {
      if Whole(h, jobs, i, a) { OrderedWhole(h, jobs, i, a); }
    }
  }

  lemma ProcKeepsOrder(h: Hashes, jobs: seq<Job>, i: nat)
    requires i < |jobs| && Ordered(h, jobs, i) && jobs[i].Proc?
    ensures Ordered(h, jobs, i + 1)
  {
    forall a | Whole(h, jobs, i, a) ensures Output(h, jobs[i], a) == Expected(h, jobs, i + 1) {
      OrderedWhole(h, jobs, i, a);
    }
  }

  // The hashing jobs are settled in any case.
  lemma FanIsSettled(h: Hashes, jobs: seq<Job>, i: nat)
    requires i < |jobs| && Fans(jobs[i])
    ensures Settled(h, jobs, i)
  {
    forall a ensures SettledFor(h, jobs, i, a) {
      if Whole(h, jobs, i, a) {
        HashAllMonotone(h, jobs[i], a, Expected(h, jobs, i));
        HashAllMonotone(h, jobs[i], Expected(h, jobs, i), a);
        SameSize(a, Expected(h, jobs, i));
      }
    }
  }

  function Without(s: seq<string>, k: nat): (r: seq<string>)
    requires k < |s|
    ensures |r| == |s| - 1
  {
    s[..k] + s[k + 1..]
  }

  lemma WithoutMultiset(s: seq<string>, k: nat)
    requires k < |s|
    ensures multiset(s) == multiset{s[k]} + multiset(Without(s, k))
  {
    assert s == s[..k] + [s[k]] + s[k + 1..];
  }

  lemma WithoutInit(s: seq<string>, k: nat)
    requires k + 1 < |s|
    ensures Without(s, k) == Without(s[..|s| - 1], k) + [s[|s| - 1]]
  {
  }

  lemma PrefixMultiset(s: seq<string>, k: nat)
    requires k <= |s|
    ensures multiset(s[..k]) <= multiset(s)
  {
    assert s == s[..k] + s[k..];
  }

  lemma SubmultisetSize(a: seq<string>, b: seq<string>)
    requires multiset(a) <= multiset(b)
    ensures |a| <= |b|
    ensures |a| == |b| ==> multiset(a) == multiset(b)
  {
    var rest := multiset(b) - multiset(a);
    assert multiset(b) == multiset(a) + rest;
    assert |multiset(a)| == |a| && |multiset(b)| == |b|;
    assert |multiset(b)| == |multiset(a)| + |rest|;
  }

  lemma SameSize(a: seq<string>, b: seq<string>)
    requires multiset(a) == multiset(b)
    ensures |a| == |b|
  {
    assert |multiset(a)| == |a| && |multiset(b)| == |b|;
  }

  lemma Reorder(a: multiset<string>, b: multiset<string>, c: multiset<string>)
    ensures (a + b) + c == a + (b + c) == (a + c) + b
  {
  }

  lemma WithoutHash(h: Hashes, job: Job, vals: seq<string>, k: nat)
    requires Fans(job) && k < |vals|
    ensures HashAll(h, job, Without(vals, k)) == Without(HashAll(h, job, vals), k)
  {
  }

  lemma {:induction false} HashAllMonotone(h: Hashes, job: Job, a: seq<string>, b: seq<string>)
    requires Fans(job) && multiset(a) <= multiset(b)
    ensures multiset(HashAll(h, job, a)) <= multiset(HashAll(h, job, b))
    decreases |a|
  {
    if a != [] {
      var k := Locate(a, b);
      HashAllMonotone(h, job, a[..|a| - 1], Without(b, k));
      WithoutHash(h, job, b, k);
      WithoutMultiset(HashAll(h, job, b), k);
      WithoutHash(h, job, a, |a| - 1);
      WithoutMultiset(HashAll(h, job, a), |a| - 1);
      assert Without(a, |a| - 1) == a[..|a| - 1];
    }
  }

  // The last value of a occurs in b, and without it a is still within b.
  lemma Locate(a: seq<string>, b: seq<string>) returns (k: nat)
    requires a != [] && multiset(a) <= multiset(b)
    ensures k < |b| && b[k] == a[|a| - 1]
    ensures multiset(a[..|a| - 1]) <= multiset(Without(b, k))
  {
    var last := a[|a| - 1];
    assert a == a[..|a| - 1] + [last];
    assert multiset(a) == multiset(a[..|a| - 1]) + multiset{last};
    assert last in multiset(b);
    k :| 0 <= k < |b| && b[k] == last;
    WithoutMultiset(b, k);
    Cancel(multiset(a[..|a| - 1]), multiset(Without(b, k)), last);
  }

  lemma Cancel(a: multiset<string>, b: multiset<string>, x: string)
    requires a + multiset{x} <= multiset{x} + b
    ensures a <= b
  {
    forall y ensures a[y] <= b[y] {
      assert (a + multiset{x})[y] <= (multiset{x} + b)[y];
    }
  }

  lemma {:induction false} Extend(a: seq<string>, e: seq<string>) returns (whole: seq<string>)
    requires multiset(a) <= multiset(e)
    ensures a <= whole && multiset(whole) == multiset(e)
    decreases |e| - |a|
  {
    SubmultisetSize(a, e);
    if |a| == |e| {
      whole := a;
    } else {
      var x := OneMore(a, e);
      whole := Extend(a + [x], e);
    }
  }

  lemma OneMore(a: seq<string>, e: seq<string>) returns (x: string)
    requires multiset(a) <= multiset(e) && |a| < |e|
    ensures multiset(a + [x]) <= multiset(e)
  {
    var rest := multiset(e) - multiset(a);
    assert multiset(e) == multiset(a) + rest;
    assert |multiset(a)| == |a| && |multiset(e)| == |e|;
    assert |rest| > 0;
    x :| x in rest;
  }

  // The job would not have stopped before.
  predicate Unstopped(job: Job, acc: seq<string>)
    requires job.Proc?
  {
    forall k :: 0 <= k < |acc| ==> !job.stop(acc[..k])
  }

  // What has been received is a beginning of what is taken of the whole, and all of it for a job that
  // stops there.
  lemma {:induction false} TakenFrom(job: Job, acc: seq<string>, whole: seq<string>, k: nat)
    requires job.Proc? && acc <= whole && k <= |acc| && Unstopped(job, acc)
    ensures Taken(job, whole, k) >= |acc|
    ensures acc == whole || job.stop(acc) ==> Taken(job, whole, k) == |acc|
    decreases |acc| - k
  {
    if k < |acc| {
      assert whole[..k] == acc[..k];
      TakenFrom(job, acc, whole, k + 1);
    } else {
      assert whole[..k] == acc;
    }
  }

  lemma CutFrom(job: Job, acc: seq<string>, whole: seq<string>)
    requires job.Proc? && acc <= whole && Unstopped(job, acc)
    ensures acc <= Cut(job, whole)
    ensures acc == whole || job.stop(acc) ==> Cut(job, whole) == acc
  {
    TakenFrom(job, acc, whole, 0);
    assert Cut(job, whole)[..|acc|] == acc;
  }

  lemma {:induction false} StreamPrefix(job: Job, a: seq<string>, b: seq<string>)
    requires job.Proc? && a <= b
    ensures Stream(job, a) <= Stream(job, b)
    decreases |b|
  {
    if a == b {
    } else {
      StreamPrefix(job, a, b[..|b| - 1]);
    }
  }

  lemma StreamSnoc(job: Job, vals: seq<string>, v: string)
    requires job.Proc?
    ensures Stream(job, vals + [v]) == Stream(job, vals) + job.f(vals, v)
  {
    assert (vals + [v])[..|vals|] == vals;
  }

  lemma HashAllHead(h: Hashes, job: Job, vals: seq<string>)
    requires Fans(job) && vals != []
    ensures multiset(HashAll(h, job, vals))
         == multiset(HashAll(h, job, vals[1..])) + multiset{Hash(h, job, vals[0])}
  {
    WithoutHash(h, job, vals, 0);
    WithoutMultiset(HashAll(h, job, vals), 0);
    assert Without(vals, 0) == vals[1..];
  }

  lemma {:induction false} NeverTakesAll(job: Job, vals: seq<string>, k: nat)
    requires job.Proc? && k <= |vals| && forall n :: 0 <= n <= |vals| ==> !job.stop(vals[..n])
    ensures Taken(job, vals, k) == |vals|
    decreases |vals| - k
  {
    if k < |vals| { NeverTakesAll(job, vals, k + 1); }
  }

  lemma {:induction false} SilentStream(job: Job, vals: seq<string>)
    requires job.Proc? && job.f == Silent
    ensures Stream(job, vals) == job.start
  {
    if vals != [] {
      SilentStream(job, vals[..|vals| - 1]);
      assert Silent(vals[..|vals| - 1], vals[|vals| - 1]) == [];
    }
  }

  lemma CombineOutput(h: Hashes, vals: seq<string>)
    ensures Cut(CombineResults(), vals) == vals && Output(h, CombineResults(), vals) == Combined(vals)
  {
    var job := CombineResults();
    assert forall n :: 0 <= n <= |vals| ==> job.stop(vals[..n]) == Never(vals[..n]);
    NeverTakesAll(job, vals, 0);
    SilentStream(job, vals);
    assert [] + Combined(vals) == Combined(vals);
  }

  // CombineResults is settled wherever it stands, and what it sends is in order.
  lemma CombineIsSettled(h: Hashes, jobs: seq<Job>, i: nat)
    requires i < |jobs| && jobs[i] == CombineResults()
    ensures Settled(h, jobs, i) && Ordered(h, jobs, i + 1)
  {
    var e := Expected(h, jobs, i);
    CombineOutput(h, e);
    forall a | Whole(h, jobs, i, a)
      ensures Output(h, jobs[i], a) == Expected(h, jobs, i + 1) && SettledFor(h, jobs, i, a)
    {
      CombineOutput(h, a);
      SortDependsOnMultiset(a, e);
      SameSize(a, e);
    }
    assert forall a :: SettledFor(h, jobs, i, a);
  }

  // What a job that deals with value after value sends.
  function EachAll(f: string -> seq<string>, vals: seq<string>): seq<string> {
    if vals == [] then [] else EachAll(f, vals[..|vals| - 1]) + f(vals[|vals| - 1])
  }

  lemma {:induction false} EachStream(f: string -> seq<string>, vals: seq<string>)
    ensures Stream(Each(f), vals) == EachAll(f, vals)
  {
    if vals != [] {
      EachStream(f, vals[..|vals| - 1]);
    }
  }

  lemma EachOutput(h: Hashes, f: string -> seq<string>, vals: seq<string>)
    ensures Cut(Each(f), vals) == vals && Output(h, Each(f), vals) == EachAll(f, vals)
  {
    var job := Each(f);
    assert forall n :: 0 <= n <= |vals| ==> job.stop(vals[..n]) == Never(vals[..n]);
    NeverTakesAll(job, vals, 0);
    EachStream(f, vals);
    assert job.g(vals) == Nothing(vals);
    assert EachAll(f, vals) + [] == EachAll(f, vals);
  }

  lemma EachAllSnoc(f: string -> seq<string>, vals: seq<string>, v: string)
    ensures EachAll(f, vals + [v]) == EachAll(f, vals) + f(v)
  {
    assert (vals + [v])[..|vals|] == vals;
  }

  lemma {:induction false} EachAllWithout(f: string -> seq<string>, vals: seq<string>, k: nat)
    requires k < |vals|
    ensures multiset(EachAll(f, vals)) == multiset(EachAll(f, Without(vals, k))) + multiset(f(vals[k]))
    decreases |vals|
  {
    var init, last := vals[..|vals| - 1], vals[|vals| - 1];
    if k == |vals| - 1 {
      assert Without(vals, k) == init;
    } else {
      EachAllWithout(f, init, k);
      WithoutInit(vals, k);
      EachAllSnoc(f, Without(init, k), last);
      Reorder(multiset(EachAll(f, Without(init, k))), multiset(f(vals[k])), multiset(f(last)));
    }
  }

  lemma {:induction false} EachAllMonotone(f: string -> seq<string>, a: seq<string>, b: seq<string>)
    requires multiset(a) <= multiset(b)
    ensures multiset(EachAll(f, a)) <= multiset(EachAll(f, b))
    decreases |a|
  {
    if a != [] {
      var k := Locate(a, b);
      EachAllMonotone(f, a[..|a| - 1], Without(b, k));
      EachAllWithout(f, b, k);
    }
  }

  // A job that deals with value after value is settled wherever it stands.
  lemma EachIsSettled(h: Hashes, jobs: seq<Job>, i: nat, f: string -> seq<string>)
    requires i < |jobs| && jobs[i] == Each(f)
    ensures Settled(h, jobs, i)
  {
    var e := Expected(h, jobs, i);
    EachOutput(h, f, e);
    forall a ensures SettledFor(h, jobs, i, a) {
      if Whole(h, jobs, i, a) {
        EachOutput(h, f, a);
        EachAllMonotone(f, a, e);
        EachAllMonotone(f, e, a);
        SameSize(a, e);
      }
    }
  }

  lemma SourceOutput(h: Hashes, items: seq<string>, vals: seq<string>)
    ensures Cut(Source(items), vals) == [] && Output(h, Source(items), vals) == items
  {
    var job := Source(items);
    assert job.stop(vals[..0]) == AtOnce(vals[..0]);
    assert vals[..0] == [];
    assert job.g([]) == Nothing([]);
    assert items + [] == items;
  }

  // A job that only reads sends nothing.
  lemma QuietOutput(h: Hashes, job: Job, vals: seq<string>)
    requires job.Proc? && job.start == [] && job.f == Silent && job.g == Nothing
    ensures Output(h, job, vals) == []
  {
    SilentStream(job, Cut(job, vals));
    assert Nothing(Cut(job, vals)) == [];
  }
}
