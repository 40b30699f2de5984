/** HW/hw3_bench: the reference search over the users (SlowSearch) and the one-pass form that is to
    replace it (FastSearch). Both start from parsed users whose browsers are strings. */
module Search {
  import opened Text

  datatype User = User(browsers: seq<string>, email: string, name: string)

  predicate Android(b: string) { Occurs("Android", b) }
  predicate Msie(b: string) { Occurs("MSIE", b) }

  predicate HasAndroid(u: User) { exists k :: 0 <= k < |u.browsers| && Android(u.browsers[k]) }
  predicate HasMsie(u: User) { exists k :: 0 <= k < |u.browsers| && Msie(u.browsers[k]) }
  predicate HasPureMsie(u: User) {
    exists k :: 0 <= k < |u.browsers| && Msie(u.browsers[k]) && !Android(u.browsers[k])
  }

  // Whom the two programs report.
  predicate SlowReports(u: User) { HasAndroid(u) && HasMsie(u) }
  predicate FastReports(u: User) { HasAndroid(u) && HasPureMsie(u) }

  // strings.Replace and ReplaceAllString alike.
  function At(email: string): string {
    if email == "" then ""
    else (if email[0] == '@' then " [at] " else [email[0]]) + At(email[1..])
  }

  function Line(i: nat, u: User): string {
    "[" + Itoa(i) + "] " + u.name + " <" + At(u.email) + ">\n"
  }

  // The lines for the first n users, for either way of choosing.
  function Lines(users: seq<User>, n: nat, reports: User -> bool): string
    requires n <= |users|
  {
    if n == 0 then ""
    else Lines(users, n - 1, reports) + if reports(users[n - 1]) then Line(n - 1, users[n - 1]) else ""
  }

  function Browsers(u: User): set<string> {
    set k | 0 <= k < |u.browsers| && (Android(u.browsers[k]) || Msie(u.browsers[k])) :: u.browsers[k]
  }

  // The browsers that count, among the first n users.
  function Seen(users: seq<User>, n: nat): set<string>
    requires n <= |users|
  {
    if n == 0 then {} else Seen(users, n - 1) + Browsers(users[n - 1])
  }

  function Output(users: seq<User>, reports: User -> bool): string {
    "found users:\n" + Lines(users, |users|, reports) + "\n"
    + "Total unique browsers " + Itoa(|Seen(users, |users|)|) + "\n"
  }

  function Elements(s: seq<string>): set<string> { set x | x in s }

  lemma {:induction false} DistinctSize(s: seq<string>)
    requires Distinct(s)
    ensures |Elements(s)| == |s|
  {
    if s != [] {
      var init, x := s[..|s| - 1], s[|s| - 1];
      assert s == init + [x];
      DistinctSize(init);
      assert Elements(s) == Elements(init) + {x} && x !in Elements(init);
    }
  }

  // The browsers one pass of the slow form picks up from the first k of a user.
  function Picked(u: User, k: nat, msie: bool): set<string>
    requires k <= |u.browsers|
  {
    if k == 0 then {}
    else
      var b := u.browsers[k - 1];
      Picked(u, k - 1, msie) + if (if msie then Msie(b) else Android(b)) then {b} else {}
  }

  lemma {:induction false} PickedIs(u: User, k: nat, msie: bool)
    requires k <= |u.browsers|
    ensures forall b :: b in Picked(u, k, msie) <==>
              exists i :: 0 <= i < k && u.browsers[i] == b && (if msie then Msie(b) else Android(b))
  {
    if k > 0 { PickedIs(u, k - 1, msie); }
  }

  lemma PickedTogether(u: User)
    ensures Picked(u, |u.browsers|, false) + Picked(u, |u.browsers|, true) == Browsers(u)
  {
    PickedIs(u, |u.browsers|, false);
    PickedIs(u, |u.browsers|, true);
  }

  // The linear scan for a browser, and the append if it is new.
  method Remember(seen: seq<string>, browser: string) returns (seen': seq<string>)
    requires Distinct(seen)
    ensures Distinct(seen') && Elements(seen') == Elements(seen) + {browser}
  {
    var notSeenBefore := true;
    for i := 0 to |seen|
      invariant notSeenBefore <==> browser !in seen[..i]
    {
      if seen[i] == browser { notSeenBefore := false; }
    }
    assert seen[..|seen|] == seen;
    seen' := seen;
    if notSeenBefore {
      seen' := seen + [browser];
      assert forall x :: x in seen' <==> x in seen || x == browser;
    }
  }

  // One of the two passes over the browsers of a user.
  method Pass(u: User, msie: bool, seen: seq<string>) returns (found: bool, seen': seq<string>)
    requires Distinct(seen)
    ensures found <==> if msie then HasMsie(u) else HasAndroid(u)
    ensures Distinct(seen') && Elements(seen') == Elements(seen) + Picked(u, |u.browsers|, msie)
  {
    found, seen' := false, seen;
    for k := 0 to |u.browsers|
      invariant found <==> exists i :: 0 <= i < k && (if msie then Msie(u.browsers[i]) else Android(u.browsers[i]))
      invariant Distinct(seen') && Elements(seen') == Elements(seen) + Picked(u, k, msie)
    {
      var browser := u.browsers[k];
      if (if msie then Msie(browser) else Android(browser)) {
        found := true;
        seen' := Remember(seen', browser);
      }
    }
  }

  method SlowSearch(users: seq<User>) returns (out: string)
    ensures out == Output(users, SlowReports)
  {
    var seenBrowsers: seq<string>, foundUsers := [], "";
    for i := 0 to |users|
      invariant Distinct(seenBrowsers) && Elements(seenBrowsers) == Seen(users, i)
      invariant foundUsers == Lines(users, i, SlowReports)
    {
      var isAndroid, isMSIE;
      isAndroid, seenBrowsers := Pass(users[i], false, seenBrowsers);
      isMSIE, seenBrowsers := Pass(users[i], true, seenBrowsers);
      PickedTogether(users[i]);
      if !(isAndroid && isMSIE) { continue; }
      foundUsers := foundUsers + Line(i, users[i]);
    }
    DistinctSize(seenBrowsers);
    out := "found users:\n" + foundUsers + "\n" + "Total unique browsers " + Itoa(|seenBrowsers|) + "\n";
  }

  method ProcessUser(u: User, i: nat, seen: set<string>, out: string) returns (seen': set<string>, out': string)
    ensures seen' == seen + Browsers(u)
    ensures out' == out + if FastReports(u) then Line(i, u) else ""
  {
    var isAndroid, isMSIE := false, false;
    seen', out' := seen, out;
    for k := 0 to |u.browsers|
      invariant isAndroid <==> exists j :: 0 <= j < k && Android(u.browsers[j])
      invariant isMSIE <==> exists j :: 0 <= j < k && Msie(u.browsers[j]) && !Android(u.browsers[j])
      invariant seen' == seen + (Picked(u, k, false) + Picked(u, k, true))
    {
      var browser := u.browsers[k];
      if Android(browser) {
        isAndroid := true;
        seen' := seen' + {browser};
      } else if Msie(browser) {
        isMSIE := true;
        seen' := seen' + {browser};
      }
    }
    PickedTogether(u);
    if isAndroid && isMSIE {
      out' := out + Line(i, u);
    }
  }

  lemma LinesNext(users: seq<User>, i: nat, reports: User -> bool)
    requires i < |users|
    ensures "found users:\n" + Lines(users, i + 1, reports) ==
            "found users:\n" + Lines(users, i, reports) + if reports(users[i]) then Line(i, users[i]) else ""
  {
  }

  method FastSearch(users: seq<User>) returns (out: string)
    ensures out == Output(users, FastReports)
  {
    out := "found users:\n";
    var seenBrowsers: set<string> := {};
    for i := 0 to |users|
      invariant seenBrowsers == Seen(users, i)
      invariant out == "found users:\n" + Lines(users, i, FastReports)
    {
      LinesNext(users, i, FastReports);
      seenBrowsers, out := ProcessUser(users[i], i, seenBrowsers, out);
    }
    out := out + "\n";
    out := out + "Total unique browsers " + Itoa(|seenBrowsers|) + "\n";
  }

  // The numbers of the reported users.
  function Reported(users: seq<User>, n: nat, reports: User -> bool): seq<nat>
    requires n <= |users|
  {
    if n == 0 then []
    else Reported(users, n - 1, reports) + if reports(users[n - 1]) then [n - 1] else []
  }

  function Keep(users: seq<User>, idx: seq<nat>, reports: User -> bool): seq<nat>
    requires forall k :: 0 <= k < |idx| ==> idx[k] < |users|
  {
    if idx == [] then []
    else Keep(users, idx[..|idx| - 1], reports)
         + if reports(users[idx[|idx| - 1]]) then [idx[|idx| - 1]] else []
  }

  lemma FastImpliesSlow(u: User)
    requires FastReports(u)
    ensures SlowReports(u)
  {
  }

  lemma {:induction false} ReportedInRange(users: seq<User>, n: nat, reports: User -> bool)
    requires n <= |users|
    ensures forall k :: 0 <= k < |Reported(users, n, reports)| ==> Reported(users, n, reports)[k] < n
  {
    if n > 0 { ReportedInRange(users, n - 1, reports); }
  }

  /** The fast form reports a subsequence of what the slow form reports: in the same order, those among
      the slow form's users that satisfy its own, narrower condition. */
  lemma {:induction false} FastIsSubsequence(users: seq<User>, n: nat)
    requires n <= |users|
    ensures forall k :: 0 <= k < |Reported(users, n, SlowReports)| ==> Reported(users, n, SlowReports)[k] < |users|
    ensures Keep(users, Reported(users, n, SlowReports), FastReports) == Reported(users, n, FastReports)
  {
    ReportedInRange(users, n, SlowReports);
    if n > 0 {
      FastIsSubsequence(users, n - 1);
      var slow := Reported(users, n - 1, SlowReports);
      assert (slow + [n - 1])[..|slow|] == slow && slow + [] == slow;
      if FastReports(users[n - 1]) {
        FastImpliesSlow(users[n - 1]);
      }
    }
  }

  // Reported by the slow form only: every browser of the user that contains MSIE contains Android too.
  predicate Missed(u: User) {
    HasAndroid(u) && HasMsie(u) && forall k :: 0 <= k < |u.browsers| && Msie(u.browsers[k]) ==> Android(u.browsers[k])
  }

  lemma {:induction false} LinesCompare(users: seq<User>, n: nat)
    requires n <= |users|
    ensures |Lines(users, n, FastReports)| <= |Lines(users, n, SlowReports)|
    ensures (forall i :: 0 <= i < n ==> !Missed(users[i])) ==>
              Lines(users, n, FastReports) == Lines(users, n, SlowReports)
    ensures (exists i :: 0 <= i < n && Missed(users[i])) ==>
              |Lines(users, n, FastReports)| < |Lines(users, n, SlowReports)|
  {
    if n > 0 {
      LinesCompare(users, n - 1);
      var u := users[n - 1];
      assert SlowReports(u) && !FastReports(u) <==> Missed(u);
      assert |Line(n - 1, u)| > 0;
    }
  }

  /** The fast form refines the slow one. The counts always agree; the outputs are equal exactly when
      no user is missed -- one with a browser that contains both names and no other with MSIE. */
  lemma SameOutputIff(users: seq<User>)
    ensures Output(users, FastReports) == Output(users, SlowReports) <==>
            forall i :: 0 <= i < |users| ==> !Missed(users[i])
  {
    LinesCompare(users, |users|);
    var count := Itoa(|Seen(users, |users|)|);
    var fast, slow := Output(users, FastReports), Output(users, SlowReports);
    assert |fast| - |Lines(users, |users|, FastReports)| == |slow| - |Lines(users, |users|, SlowReports)|;
  }

  /** In particular they are equal when no browser contains both names. */
  lemma SameOutputWithoutBoth(users: seq<User>)
    requires forall i, k :: 0 <= i < |users| && 0 <= k < |users[i].browsers| ==>
               !(Android(users[i].browsers[k]) && Msie(users[i].browsers[k]))
    ensures Output(users, FastReports) == Output(users, SlowReports)
  {
    forall i | 0 <= i < |users| ensures !Missed(users[i]) {
      if HasMsie(users[i]) {
        var k :| 0 <= k < |users[i].browsers| && Msie(users[i].browsers[k]);
        assert !Android(users[i].browsers[k]);
      }
    }
    SameOutputIff(users);
  }

  // The name of a browser has this word in it.
  ghost predicate Contains(b: string, word: string) { exists i: nat :: StandsAt(word, b, i) }

  lemma NamesOf(b: string)
    ensures Android(b) <==> Contains(b, "Android")
    ensures Msie(b) <==> Contains(b, "MSIE")
  {
    OccursSomewhere("Android", b);
    OccursSomewhere("MSIE", b);
  }

  /** Whom the two forms report, by the words in the names of browsers. */
  lemma WhoIsReported(u: User)
    ensures SlowReports(u) <==>
            && (exists k :: 0 <= k < |u.browsers| && Contains(u.browsers[k], "Android"))
            && (exists k :: 0 <= k < |u.browsers| && Contains(u.browsers[k], "MSIE"))
    ensures FastReports(u) <==>
            && (exists k :: 0 <= k < |u.browsers| && Contains(u.browsers[k], "Android"))
            && (exists k :: 0 <= k < |u.browsers| && Contains(u.browsers[k], "MSIE")
                            && !Contains(u.browsers[k], "Android"))
  {
    forall k | 0 <= k < |u.browsers|
      ensures Android(u.browsers[k]) <==> Contains(u.browsers[k], "Android")
      ensures Msie(u.browsers[k]) <==> Contains(u.browsers[k], "MSIE")
    {
      NamesOf(u.browsers[k]);
    }
  }

  lemma {:induction false} AtConcat(a: string, b: string)
    ensures At(a + b) == At(a) + At(b)
    decreases |a|
  {
    if a == "" {
      assert a + b == b;
    } else {
      assert (a + b)[1..] == a[1..] + b;
      AtConcat(a[1..], b);
    }
  }

  lemma {:induction false} AtKeeps(a: string)
    requires '@' !in a
    ensures At(a) == a
  {
    if a != "" { AtKeeps(a[1..]); }
  }

  /** The line of a user: number, name and address, whose at sign is written as a word. */
  lemma LineSays(i: nat, u: User, local: string, domain: string)
    requires u.email == local + "@" + domain && '@' !in local && '@' !in domain
    ensures Numeral(Itoa(i)) && NumberOf(Itoa(i)) == i
    ensures Line(i, u) == "[" + Itoa(i) + "] " + u.name + " <" + (local + " [at] " + domain) + ">\n"
  {
    ItoaSays(i);
    AddressSays(local, domain);
  }

  lemma AddressSays(local: string, domain: string)
    requires '@' !in local && '@' !in domain
    ensures At(local + "@" + domain) == local + " [at] " + domain
  {
    AtConcat(local + "@", domain);
    AtConcat(local, "@");
    AtKeeps(local);
    AtKeeps(domain);
    assert At("@") == " [at] " + At("@"[1..]) && At("@"[1..]) == "";
  }

  lemma {:induction false} ReportedAre(users: seq<User>, n: nat, reports: User -> bool)
    requires n <= |users|
    ensures forall i :: i in Reported(users, n, reports) <==> 0 <= i < n && reports(users[i])
    ensures forall j, k :: 0 <= j < k < |Reported(users, n, reports)| ==>
              Reported(users, n, reports)[j] < Reported(users, n, reports)[k]
  {
    if n > 0 {
      ReportedAre(users, n - 1, reports);
      var before := Reported(users, n - 1, reports);
      forall k | 0 <= k < |before| ensures before[k] < n - 1 { assert before[k] in before; }
    }
  }

  function LinesOf(users: seq<User>, idx: seq<nat>): string
    requires forall k :: 0 <= k < |idx| ==> idx[k] < |users|
  {
    if idx == [] then ""
    else LinesOf(users, idx[..|idx| - 1]) + Line(idx[|idx| - 1], users[idx[|idx| - 1]])
  }

  lemma {:induction false} LinesAreOf(users: seq<User>, n: nat, reports: User -> bool)
    requires n <= |users|
    ensures forall k :: 0 <= k < |Reported(users, n, reports)| ==> Reported(users, n, reports)[k] < |users|
    ensures Lines(users, n, reports) == LinesOf(users, Reported(users, n, reports))
  {
    ReportedInRange(users, n, reports);
    if n > 0 {
      LinesAreOf(users, n - 1, reports);
      var idx := Reported(users, n - 1, reports);
      assert (idx + [n - 1])[..|idx|] == idx && idx + [] == idx;
    }
  }

  lemma {:induction false} SeenAre(users: seq<User>, n: nat)
    requires n <= |users|
    ensures forall b :: b in Seen(users, n) <==>
              exists i, k :: 0 <= i < n && 0 <= k < |users[i].browsers| && users[i].browsers[k] == b
                             && (Android(b) || Msie(b))
  {
    if n > 0 {
      SeenAre(users, n - 1);
      forall b ensures b in Seen(users, n) <==>
                       exists i, k :: 0 <= i < n && 0 <= k < |users[i].browsers| && users[i].browsers[k] == b
                                      && (Android(b) || Msie(b))
      {
        if b in Browsers(users[n - 1]) {
          var k :| 0 <= k < |users[n - 1].browsers| && users[n - 1].browsers[k] == b;
        }
      }
    }
  }

  /** The whole output: under its heading the lines of the reported users in their order, and the number of
      different browsers of all users whose names have one of the two words. */
  lemma OutputSays(users: seq<User>, reports: User -> bool) returns (idx: seq<nat>, seen: set<string>)
    ensures forall i :: i in idx <==> 0 <= i < |users| && reports(users[i])
    ensures forall j, k :: 0 <= j < k < |idx| ==> idx[j] < idx[k]
    ensures forall b :: b in seen <==>
              exists i, k :: 0 <= i < |users| && 0 <= k < |users[i].browsers| && users[i].browsers[k] == b
                             && (Contains(b, "Android") || Contains(b, "MSIE"))
    ensures forall k :: 0 <= k < |idx| ==> idx[k] < |users|
    ensures Output(users, reports) ==
            "found users:\n" + LinesOf(users, idx) + "\n" + "Total unique browsers " + Itoa(|seen|) + "\n"
    ensures Numeral(Itoa(|seen|)) && NumberOf(Itoa(|seen|)) == |seen|
  {
    idx, seen := Reported(users, |users|, reports), Seen(users, |users|);
    ReportedAre(users, |users|, reports);
    LinesAreOf(users, |users|, reports);
    SeenAre(users, |users|);
    forall b ensures Android(b) <==> Contains(b, "Android") { NamesOf(b); }
    forall b ensures Msie(b) <==> Contains(b, "MSIE") { NamesOf(b); }
    ItoaSays(|seen|);
  }
}
