/** What a pipeline can compute, without goroutines: the jobs one after the other, the hashing ones
    sending their results in any order. */
module PipelineOutcomes {
  import opened Pipeline
  import opened PipelineValues

  // Job by job, what can be sent for a whole input.
  predicate Outcome(h: Hashes, job: Job, a: seq<string>, b: seq<string>) {
    if job.Proc? then b == Output(h, job, a) else multiset(b) == multiset(HashAll(h, job, a))
  }

  // What can come through all the channels.
  predicate Outcomes(h: Hashes, jobs: seq<Job>, w: seq<seq<string>>) {
    |w| == |jobs| + 1 && w[0] == [] && forall i :: 0 <= i < |jobs| ==> Outcome(h, jobs[i], w[i], w[i + 1])
  }

  // Every job leaves behind no more than a slot holds, and so does the chain as a whole, nobody reading
  // what it sends.
  predicate LeavesOne(jobs: seq<Job>, w: seq<seq<string>>)
    requires |w| == |jobs| + 1
  {
    |w[|jobs|]| <= 1 && forall i :: 0 <= i < |jobs| ==> |w[i]| <= |Cut(jobs[i], w[i])| + 1
  }

  ghost predicate AllLeaveOne(h: Hashes, jobs: seq<Job>) {
    forall w :: Outcomes(h, jobs, w) ==> LeavesOne(jobs, w)
  }

  // A job that always reads on until its input ends.
  ghost predicate Consumes(job: Job) {
    job.Proc? ==> forall vals :: !job.stop(vals)
  }

  // A job that sends one value at most, whatever it receives.
  ghost predicate SendsOne(h: Hashes, job: Job) {
    forall a, b :: Outcome(h, job, a, b) ==> |b| <= 1
  }

  lemma ConsumersLeaveOne(h: Hashes, jobs: seq<Job>)
    requires |jobs| > 0 && (forall i :: 0 < i < |jobs| ==> Consumes(jobs[i])) && SendsOne(h, jobs[|jobs| - 1])
    ensures AllLeaveOne(h, jobs)
  {
    forall w | Outcomes(h, jobs, w) ensures LeavesOne(jobs, w) {
      var last := |jobs| - 1;
      assert Outcome(h, jobs[last], w[last], w[last + 1]);
      forall i | 0 <= i < |jobs| ensures |w[i]| <= |Cut(jobs[i], w[i])| + 1 {
        if i > 0 { ConsumerTakesAll(jobs[i], w[i]); }
      }
    }
  }

  lemma ConsumerTakesAll(job: Job, vals: seq<string>)
    requires Consumes(job)
    ensures Cut(job, vals) == vals
  {
    if job.Proc? { NeverTakesAll(job, vals, 0); }
  }

  // The sequences with the values of s: finitely many.
  function Permutations(s: seq<string>): set<seq<string>> {
    if s == [] then {[]}
    else set p, i | p in Permutations(s[1..]) && 0 <= i <= |p| :: p[..i] + [s[0]] + p[i..]
  }

  lemma SameRest(s: seq<string>, b: seq<string>, i: nat)
    requires s != [] && multiset(b) == multiset(s) && i < |b| && b[i] == s[0]
    ensures multiset(Without(b, i)) == multiset(s[1..])
    ensures b == Without(b, i)[..i] + [s[0]] + Without(b, i)[i..]
  {
    WithoutMultiset(b, i);
    WithoutMultiset(s, 0);
    assert Without(s, 0) == s[1..];
    Cancel(multiset(Without(b, i)), multiset(s[1..]), s[0]);
    Cancel(multiset(s[1..]), multiset(Without(b, i)), s[0]);
  }

  lemma {:induction false} InPermutations(s: seq<string>, b: seq<string>)
    requires multiset(b) == multiset(s)
    ensures b in Permutations(s)
    decreases |s|
  {
    SameSize(b, s);
    if s != [] {
      var i := FirstPlace(s, b);
      SameRest(s, b, i);
      InPermutations(s[1..], Without(b, i));
      Inserted(s, Without(b, i), i);
    }
  }

  lemma FirstPlace(s: seq<string>, b: seq<string>) returns (i: nat)
    requires s != [] && multiset(b) == multiset(s)
    ensures i < |b| && b[i] == s[0]
  {
    assert s[0] in multiset(b);
    i :| 0 <= i < |b| && b[i] == s[0];
  }

  lemma Inserted(s: seq<string>, p: seq<string>, i: nat)
    requires s != [] && p in Permutations(s[1..]) && i <= |p|
    ensures p[..i] + [s[0]] + p[i..] in Permutations(s)
  {
  }

  // What can come through channel k in all.
  function Results(h: Hashes, jobs: seq<Job>, k: nat): set<seq<string>>
    requires k <= |jobs|
  {
    if k == 0 then {[]}
    else
      var job := jobs[k - 1];
      if job.Proc? then set a | a in Results(h, jobs, k - 1) :: Output(h, job, a)
      else set a, b | a in Results(h, jobs, k - 1) && b in Permutations(HashAll(h, job, a)) :: b
  }

  lemma {:induction false} InResults(h: Hashes, jobs: seq<Job>, w: seq<seq<string>>, k: nat)
    requires Outcomes(h, jobs, w) && k <= |jobs|
    ensures w[k] in Results(h, jobs, k)
  {
    if k > 0 {
      InResults(h, jobs, w, k - 1);
      assert Outcome(h, jobs[k - 1], w[k - 1], w[k]);
      if Fans(jobs[k - 1]) {
        InPermutations(HashAll(h, jobs[k - 1], w[k - 1]), w[k]);
      }
    }
  }

  ghost function Longest(all: set<seq<string>>): (n: nat)
    ensures forall a :: a in all ==> |a| <= n
  {
    if all == {} then 0
    else
      var a :| a in all;
      var rest := Longest(all - {a});
      if |a| <= rest then rest else |a|
  }

  // A bound on what comes through channel k, in whatever order values arrive.
  ghost function Most(h: Hashes, jobs: seq<Job>, k: nat): nat
    requires k <= |jobs|
  {
    Longest(Results(h, jobs, k))
  }

  lemma AtMostMost(h: Hashes, jobs: seq<Job>, w: seq<seq<string>>, k: nat)
    requires Outcomes(h, jobs, w) && k <= |jobs|
    ensures |w[k]| <= Most(h, jobs, k)
  {
    InResults(h, jobs, w, k);
  }

  // The outcome in which the hashing jobs send in the order in which they receive.
  function Sequential(h: Hashes, jobs: seq<Job>): (w: seq<seq<string>>)
    ensures |w| == |jobs| + 1 && forall k :: 0 <= k <= |jobs| ==> w[k] == Expected(h, jobs, k)
  {
    seq(|jobs| + 1, k requires 0 <= k <= |jobs| => Expected(h, jobs, k))
  }

  // Where all jobs before are settled, every outcome is one that Whole allows.
  lemma {:induction false} OutcomeIsWhole(h: Hashes, jobs: seq<Job>, w: seq<seq<string>>, k: nat)
    requires Outcomes(h, jobs, w) && k <= |jobs| && forall i :: 0 <= i < k ==> Settled(h, jobs, i)
    ensures Whole(h, jobs, k, w[k])
  {
    if k == 0 {
      NothingIsWhole(h, jobs);
    } else {
      var i := k - 1;
      assert Outcome(h, jobs[i], w[i], w[i + 1]) && Settled(h, jobs, i);
      OutcomeIsWhole(h, jobs, w, i);
      NextIsWhole(h, jobs, i, w[i], w[i + 1]);
    }
  }

  lemma NothingIsWhole(h: Hashes, jobs: seq<Job>)
    ensures Whole(h, jobs, 0, [])
  {
  }

  lemma NextIsWhole(h: Hashes, jobs: seq<Job>, i: nat, a: seq<string>, b: seq<string>)
    requires i < |jobs| && Whole(h, jobs, i, a) && Settled(h, jobs, i) && Outcome(h, jobs[i], a, b)
    ensures Whole(h, jobs, i + 1, b)
  {
    assert SettledFor(h, jobs, i, a);
  }

  // So all outcomes of a determined chain leave the same number of values behind.
  lemma DeterminedLeavesOne(h: Hashes, jobs: seq<Job>, w: seq<seq<string>>)
    requires Determined(h, jobs) && Outcomes(h, jobs, w)
    ensures LeavesOne(jobs, w) <==> LeavesOne(jobs, Sequential(h, jobs))
  {
    forall k | 0 <= k <= |jobs|
      ensures |w[k]| == Total(h, jobs, k)
      ensures k < |jobs| ==> |Cut(jobs[k], w[k])| == |Cut(jobs[k], Expected(h, jobs, k))|
    {
      SizesFixed(h, jobs, w, k);
    }
  }

  lemma SizesFixed(h: Hashes, jobs: seq<Job>, w: seq<seq<string>>, k: nat)
    requires Determined(h, jobs) && Outcomes(h, jobs, w) && k <= |jobs|
    ensures |w[k]| == Total(h, jobs, k)
    ensures k < |jobs| ==> |Cut(jobs[k], w[k])| == |Cut(jobs[k], Expected(h, jobs, k))|
  {
    OutcomeIsWhole(h, jobs, w, k);
    SameSize(w[k], Expected(h, jobs, k));
    if k < |jobs| {
      assert Settled(h, jobs, k) && SettledFor(h, jobs, k, w[k]);
    }
  }
}
