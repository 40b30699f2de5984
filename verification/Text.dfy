// Strings as the programs of the repository use them: joining, decimal numerals and the order
// of sort.Strings.
module Text {
  lemma Associative<T>(a: seq<T>, b: seq<T>, c: seq<T>)
    ensures (a + b) + c == a + (b + c)
  {
  }

  lemma Regroup<T>(a: seq<T>, b: seq<T>, c: seq<T>, d: seq<T>)
    ensures a + b + c + d == a + b + (c + d) == a + (b + c) + d == a + (b + (c + d))
  {
  }

  // strings.Join
  function Join(parts: seq<string>, sep: string): string {
    if |parts| == 0 then ""
    else if |parts| == 1 then parts[0]
    else parts[0] + sep + Join(parts[1..], sep)
  }

  // One text, and parts on both sides of a separator: this leaves no choice for Join.
  lemma JoinOne(part: string, sep: string)
    ensures Join([part], sep) == part && Join([], sep) == ""
  {
  }

  lemma {:induction false} JoinConcat(a: seq<string>, b: seq<string>, sep: string)
    requires a != [] && b != []
    ensures Join(a + b, sep) == Join(a, sep) + sep + Join(b, sep)
    decreases |a|
  {
    assert (a + b)[0] == a[0] && (a + b)[1..] == a[1..] + b;
    if |a| > 1 {
      JoinConcat(a[1..], b, sep);
      Regroup(a[0] + sep, Join(a[1..], sep), sep, Join(b, sep));
    }
  }

  // strings.Contains, and what a regular expression without metacharacters matches.
  predicate Occurs(key: string, s: string)
    decreases |s|
  {
    |key| <= |s| && (key <= s || (s != "" && Occurs(key, s[1..])))
  }

  // The word stands in the text at position i.
  predicate StandsAt(key: string, s: string, i: nat) {
    i + |key| <= |s| && s[i..i + |key|] == key
  }

  lemma {:induction false} OccursSomewhere(key: string, s: string)
    ensures Occurs(key, s) <==> exists i: nat :: StandsAt(key, s, i)
    decreases |s|
  {
    if |key| <= |s| {
      if key <= s { assert StandsAt(key, s, 0); }
      if s != "" {
        OccursSomewhere(key, s[1..]);
        forall i: nat ensures StandsAt(key, s[1..], i) <==> StandsAt(key, s, i + 1) { }
        if i: nat :| StandsAt(key, s, i) {
          if i > 0 { assert StandsAt(key, s[1..], i - 1); }
        }
      }
    }
  }

  function Digit(d: nat): char
    requires d < 10
  {
    "0123456789"[d]
  }

  // The %d verb on a number that is not negative.
  function Itoa(n: nat): string {
    if n < 10 then [Digit(n)] else Itoa(n / 10) + [Digit(n % 10)]
  }

  // What a decimal numeral says.
  predicate Numeral(s: string) { s != "" && forall c :: c in s ==> '0' <= c <= '9' }

  function NumberOf(s: string): int {
    if s == "" then 0 else 10 * NumberOf(s[..|s| - 1]) + (s[|s| - 1] as int - '0' as int)
  }

  lemma DigitSays(d: nat)
    requires d < 10
    ensures '0' <= Digit(d) <= '9' && Digit(d) as int - '0' as int == d
  {
  }

  lemma NumberAppend(s: string, c: char)
    ensures NumberOf(s + [c]) == 10 * NumberOf(s) + (c as int - '0' as int)
  {
    assert (s + [c])[..|s|] == s;
  }

  // Itoa writes the number, without a zero in front.
  lemma {:induction false} ItoaSays(n: nat)
    ensures Numeral(Itoa(n)) && NumberOf(Itoa(n)) == n && (Itoa(n)[0] == '0' ==> n == 0)
  {
    DigitSays(n % 10);
    if n < 10 {
      NumberAppend("", Digit(n));
      assert "" + [Digit(n)] == Itoa(n);
    } else {
      ItoaSays(n / 10);
      NumberAppend(Itoa(n / 10), Digit(n % 10));
      NumeralAppend(Itoa(n / 10), Digit(n % 10));
    }
  }

  lemma NumeralAppend(s: string, c: char)
    requires Numeral(s) && '0' <= c <= '9'
    ensures Numeral(s + [c]) && (s + [c])[0] == s[0]
  {
  }

  // The order of Go's strings: lexicographic.
  predicate Leq(a: string, b: string) {
    a == [] || (b != [] && (a[0] < b[0] || (a[0] == b[0] && Leq(a[1..], b[1..]))))
  }

  // The one is a beginning of the other, or at the first place where they differ has the smaller character.
  predicate Ascends(a: string, b: string) {
    a <= b || exists k :: 0 <= k < |a| && k < |b| && a[..k] == b[..k] && a[k] < b[k]
  }

  lemma {:induction false} LeqAscends(a: string, b: string)
    ensures Leq(a, b) <==> Ascends(a, b)
  {
    if a != [] && b != [] {
      LeqAscends(a[1..], b[1..]);
      if a[0] < b[0] {
        assert a[..0] == b[..0];
      } else if a[0] == b[0] {
        AscendsHead(a, b);
      } else {
        forall k | 0 <= k < |a| && k < |b| && a[..k] == b[..k] ensures a[k] >= b[k] {
          if k > 0 { SameFirst(a, b, k); }
        }
      }
    }
  }

  lemma SameFirst(a: string, b: string, k: nat)
    requires 0 < k <= |a| && k <= |b| && a[..k] == b[..k]
    ensures a[0] == b[0]
  {
    assert a[..k][0] == a[0];
  }

  lemma AscendsHead(a: string, b: string)
    requires a != [] && b != [] && a[0] == b[0]
    ensures Ascends(a, b) <==> Ascends(a[1..], b[1..])
  {
    assert a == [a[0]] + a[1..] && b == [b[0]] + b[1..];
    assert a <= b <==> a[1..] <= b[1..];
    assert a[..0] == b[..0];
    if k :| 0 <= k < |a| && k < |b| && a[..k] == b[..k] && a[k] < b[k] {
      assert k > 0 && a[1..][..k - 1] == a[..k][1..] && b[1..][..k - 1] == b[..k][1..];
      assert a[1..][k - 1] < b[1..][k - 1];
    }
    if k :| 0 <= k < |a| - 1 && k < |b| - 1 && a[1..][..k] == b[1..][..k] && a[1..][k] < b[1..][k] {
      assert a[..k + 1] == [a[0]] + a[1..][..k] && b[..k + 1] == [b[0]] + b[1..][..k];
      assert a[k + 1] < b[k + 1];
    }
  }

  lemma {:induction false} LeqTotal(a: string, b: string)
    ensures Leq(a, b) || Leq(b, a)
  {
    if a != [] && b != [] && a[0] == b[0] {
      LeqTotal(a[1..], b[1..]);
    }
  }

  lemma {:induction false} LeqAntisymmetric(a: string, b: string)
    requires Leq(a, b) && Leq(b, a)
    ensures a == b
  {
    if a != [] {
      LeqAntisymmetric(a[1..], b[1..]);
      assert a == [a[0]] + a[1..] && b == [b[0]] + b[1..];
    }
  }

  lemma {:induction false} LeqTransitive(a: string, b: string, c: string)
    requires Leq(a, b) && Leq(b, c)
    ensures Leq(a, c)
  {
    if a != [] && a[0] == b[0] && b[0] == c[0] {
      LeqTransitive(a[1..], b[1..], c[1..]);
    }
  }

  // No string occurs twice.
  predicate Distinct(s: seq<string>) {
    forall i, j :: 0 <= i < j < |s| ==> s[i] != s[j]
  }

  predicate Sorted(s: seq<string>) {
    forall i, j :: 0 <= i < j < |s| ==> Leq(s[i], s[j])
  }

  // What sort.Strings leaves in its argument. SortedIsUnique shows that being sorted and a
  // permutation leaves no choice, so that the algorithm behind it does not matter.
  function Sort(s: seq<string>): (r: seq<string>)
    ensures Sorted(r)
    ensures multiset(r) == multiset(s)
  {
    if s == [] then []
    else
      assert s == [s[0]] + s[1..];
      Insert(s[0], Sort(s[1..]))
  }

  function Insert(x: string, s: seq<string>): (r: seq<string>)
    requires Sorted(s)
    ensures Sorted(r)
    ensures multiset(r) == multiset([x]) + multiset(s)
  {
    if s == [] then [x]
    else if Leq(x, s[0]) then
      assert forall j :: 0 <= j < |s| ==> Leq(x, s[j]) by {
        forall j | 0 <= j < |s| ensures Leq(x, s[j]) {
          if j > 0 { LeqTransitive(x, s[0], s[j]); }
        }
      }
      [x] + s
    else
      var t := Insert(x, s[1..]);
      assert s == [s[0]] + s[1..];
      assert forall y :: y in t ==> Leq(s[0], y) by {
        LeqTotal(x, s[0]);
        forall y | y in t ensures Leq(s[0], y) {
          assert y in multiset(t);
        }
      }
      [s[0]] + t
  }

  lemma HeadIsLeast(s: seq<string>, x: string)
    requires Sorted(s) && s != [] && x in multiset(s)
    ensures Leq(s[0], x)
  {
    var i :| 0 <= i < |s| && s[i] == x;
    if i == 0 { LeqReflexive(x); }
  }

  lemma SameHead(s: seq<string>, t: seq<string>)
    requires Sorted(s) && Sorted(t) && multiset(s) == multiset(t) && s != [] && t != []
    ensures s[0] == t[0]
  {
    assert s[0] in multiset(s) && t[0] in multiset(t);
    HeadIsLeast(s, t[0]);
    HeadIsLeast(t, s[0]);
    LeqAntisymmetric(s[0], t[0]);
  }

  lemma MultisetTail(s: seq<string>)
    requires s != []
    ensures multiset(s[1..]) == multiset(s) - multiset{s[0]}
  {
    assert s == [s[0]] + s[1..];
  }

  lemma {:induction false} SortedIsUnique(s: seq<string>, t: seq<string>)
    requires Sorted(s) && Sorted(t) && multiset(s) == multiset(t)
    ensures s == t
  {
    assert |multiset(s)| == |multiset(t)|;
    if s != [] {
      SameHead(s, t);
      MultisetTail(s);
      MultisetTail(t);
      SortedIsUnique(s[1..], t[1..]);
      assert s == [s[0]] + s[1..] && t == [t[0]] + t[1..];
    }
  }

  lemma {:induction false} LeqReflexive(a: string)
    ensures Leq(a, a)
  {
    if a != [] { LeqReflexive(a[1..]); }
  }

  // What Sort leaves, said without Leq.
  lemma SortAscends(s: seq<string>)
    ensures multiset(Sort(s)) == multiset(s)
    ensures forall i, j :: 0 <= i < j < |Sort(s)| ==> Ascends(Sort(s)[i], Sort(s)[j])
  {
    var r := Sort(s);
    forall i, j | 0 <= i < j < |r| ensures Ascends(r[i], r[j]) { LeqAscends(r[i], r[j]); }
  }

  lemma SortDependsOnMultiset(s: seq<string>, t: seq<string>)
    requires multiset(s) == multiset(t)
    ensures Sort(s) == Sort(t)
  {
    SortedIsUnique(Sort(s), Sort(t));
  }
}
