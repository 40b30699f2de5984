/** What the emitted validators accept and refuse. */
module ValidatorAcceptance {
  import opened TagClauses
  import opened Validator
  import opened ValidatorProofs

  // A clause counts unless a later one of its kind follows.
  predicate Counts(cs: seq<Clause>, k: nat)
    requires k < |cs|
  {
    forall j :: k < j < |cs| ==> Rank(cs[j]) != Rank(cs[k])
  }

  // What one clause demands of the value of its field: of a number itself, of a text its length; the
  // maximum itself is not allowed.
  predicate ClauseHolds(go: Go, kind: Kind, c: Clause, v: Val) {
    match c
    case Required => v != (if kind.IntField? then VInt(0) else VStr(""))
    case Enum(options) => exists i :: 0 <= i < |options| && v == Plain(go, kind, options[i])
    case Max(m) => (match v case VInt(n) => n < Bound(go, m) case VStr(t) => |t| < Bound(go, m))
    case Min(m) => (match v case VInt(n) => Bound(go, m) <= n case VStr(t) => Bound(go, m) <= |t|)
    case _ => true
  }

  predicate Demands(go: Go, s: Spec, v: Val) {
    forall k :: 0 <= k < |s.clauses| && Counts(s.clauses, k) ==> ClauseHolds(go, s.kind, s.clauses[k], v)
  }

  // The value of a field in a form, its default included; None if it is no number.
  function ValueIn(go: Go, lower: string -> string, form: Form, s: Spec): Option<Val> {
    var p := ParamOf(lower, s);
    match Parse(go, s.kind, if p in form then form[p] else "")
    case None => None
    case Some(raw) => Some(WithDefaultValue(go, s, raw))
  }

  predicate Meets(go: Go, lower: string -> string, form: Form, s: Spec) {
    var v := ValueIn(go, lower, form, s);
    v.Some? && Demands(go, s, v.value)
  }

  lemma {:induction false} LastCounts(cs: seq<Clause>, rank: nat)
    ensures Last(cs, rank).Some? ==>
              exists k :: 0 <= k < |cs| && Counts(cs, k) && cs[k] == Last(cs, rank).value && Rank(cs[k]) == rank
    ensures forall k :: 0 <= k < |cs| && Counts(cs, k) && Rank(cs[k]) == rank ==> Last(cs, rank) == Some(cs[k])
    decreases |cs|
  {
    if cs != [] {
      var n := |cs| - 1;
      var init := cs[..n];
      LastCounts(init, rank);
      if Rank(cs[n]) == rank {
        assert Counts(cs, n);
      } else {
        forall k | 0 <= k < n && Rank(cs[k]) == rank ensures Counts(cs, k) <==> Counts(init, k) {
          if Counts(cs, k) {
            forall j | k < j < n ensures Rank(init[j]) != Rank(init[k]) { assert cs[j] == init[j]; }
          }
        }
      }
    }
  }

  lemma ClausesDemand(go: Go, s: Spec, v: Val)
    ensures Demands(go, s, v) <==>
            && (Last(s.clauses, 2).Some? ==> v != ZeroVal(s.kind))
            && InEnum(go, s.kind, Last(s.clauses, 3), v)
            && (Last(s.clauses, 4).Some? ==> ClauseHolds(go, s.kind, Last(s.clauses, 4).value, v))
            && (Last(s.clauses, 5).Some? ==> ClauseHolds(go, s.kind, Last(s.clauses, 5).value, v))
  {
    var cs := s.clauses;
    LastCounts(cs, 2); LastCounts(cs, 3); LastCounts(cs, 4); LastCounts(cs, 5);
    forall k | 0 <= k < |cs| && Counts(cs, k) && 2 <= Rank(cs[k]) <= 5
      ensures Last(cs, Rank(cs[k])) == Some(cs[k])
    {
      assert Rank(cs[k]) == 2 || Rank(cs[k]) == 3 || Rank(cs[k]) == 4 || Rank(cs[k]) == 5;
    }
  }

  lemma PassesIffMeets(go: Go, lower: string -> string, form: Form, s: Spec)
    ensures Meets(go, lower, form, s) ==> Check(go, lower, form, s) == Pass(ValueIn(go, lower, form, s).value)
    ensures !Meets(go, lower, form, s) ==> Check(go, lower, form, s).Fail?
  {
    var p := ParamOf(lower, s);
    var raw := Parse(go, s.kind, if p in form then form[p] else "");
    if raw.Some? {
      ClausesDemand(go, s, WithDefaultValue(go, s, raw.value));
      LastIn(s.clauses, 4);
      LastIn(s.clauses, 5);
    }
  }

  predicate DistinctNames(specs: seq<Spec>) {
    forall i, j :: 0 <= i < j < |specs| ==> specs[i].name != specs[j].name
  }

  lemma {:induction false} AcceptsIffAllMeet(go: Go, lower: string -> string, form: Form, specs: seq<Spec>,
                                             params: map<string, Val>)
    ensures CheckAll(go, lower, form, specs, params).Accepted? <==>
            forall i :: 0 <= i < |specs| ==> Meets(go, lower, form, specs[i])
    decreases |specs|
  {
    if specs != [] {
      PassesIffMeets(go, lower, form, specs[0]);
      assert forall i :: 0 < i < |specs| ==> specs[i] == specs[1..][i - 1];
      var v := Check(go, lower, form, specs[0]);
      if v.Pass? {
        AcceptsIffAllMeet(go, lower, form, specs[1..], params[specs[0].name := v.v]);
      }
    }
  }

  // An accepted form leaves its values in the fields and nothing else.
  lemma {:induction false} AcceptedValues(go: Go, lower: string -> string, form: Form, specs: seq<Spec>,
                                          params: map<string, Val>, n: string)
    requires DistinctNames(specs) && CheckAll(go, lower, form, specs, params).Accepted?
    ensures var res := CheckAll(go, lower, form, specs, params).params;
            && (forall i :: 0 <= i < |specs| && specs[i].name == n ==>
                  n in res && ValueIn(go, lower, form, specs[i]) == Some(res[n]))
            && ((forall i :: 0 <= i < |specs| ==> specs[i].name != n) ==>
                  (n in res <==> n in params) && (n in res ==> res[n] == params[n]))
    decreases |specs|
  {
    if specs != [] {
      PassesIffMeets(go, lower, form, specs[0]);
      assert forall i :: 0 < i < |specs| ==> specs[i] == specs[1..][i - 1];
      AcceptedValues(go, lower, form, specs[1..], params[specs[0].name := Check(go, lower, form, specs[0]).v], n);
    }
  }

  // A refusal is that of the first field, in the order of the structure, that does not meet its clauses.
  lemma {:induction false} RefusedByFirst(go: Go, lower: string -> string, form: Form, specs: seq<Spec>,
                                          params: map<string, Val>, k: nat)
    requires k < |specs| && !Meets(go, lower, form, specs[k])
    requires forall i :: 0 <= i < k ==> Meets(go, lower, form, specs[i])
    ensures Check(go, lower, form, specs[k]).Fail?
    ensures CheckAll(go, lower, form, specs, params) == Refused(Check(go, lower, form, specs[k]).msg)
    decreases |specs|
  {
    PassesIffMeets(go, lower, form, specs[0]);
    if k > 0 {
      assert forall i :: 0 < i < |specs| ==> specs[i] == specs[1..][i - 1];
      RefusedByFirst(go, lower, form, specs[1..], params[specs[0].name := Check(go, lower, form, specs[0]).v], k - 1);
    }
  }

  /** What the emitted program accepts: exactly the forms in which every field is a number if it should
      be, and its value, default included, is not empty if required, one of the options, at least min
      and below max. The accepted parameters are those values. */
  lemma EmittedAccepts(go: Go, lower: string -> string, form: Form, specs: seq<Spec>, m: Machine)
    requires Sane(go) && !m.err && (m.parsed || StringFirst(specs)) && DistinctNames(specs)
    ensures var o := Exec(go, form, EmitAll(Templates(lower, specs)), m);
            && (o.Continue? <==> forall i :: 0 <= i < |specs| ==> Meets(go, lower, form, specs[i]))
            && (o.Continue? ==>
                  forall i :: 0 <= i < |specs| ==>
                    specs[i].name in o.m.params
                    && ValueIn(go, lower, form, specs[i]) == Some(o.m.params[specs[i].name]))
            && (o.Continue? ==>
                  forall n :: n in o.m.params ==>
                    (n in m.params && o.m.params[n] == m.params[n]) || exists i :: 0 <= i < |specs| && specs[i].name == n)
  {
    GeneratedMeansClauses(go, lower, form, specs, m);
    AcceptsIffAllMeet(go, lower, form, specs, m.params);
    var o := Exec(go, form, EmitAll(Templates(lower, specs)), m);
    if o.Continue? {
      forall i | 0 <= i < |specs|
        ensures specs[i].name in o.m.params
        ensures ValueIn(go, lower, form, specs[i]) == Some(o.m.params[specs[i].name])
      {
        AcceptedValues(go, lower, form, specs, m.params, specs[i].name);
      }
      forall n | n in o.m.params
        ensures (n in m.params && o.m.params[n] == m.params[n]) || exists i :: 0 <= i < |specs| && specs[i].name == n
      {
        AcceptedValues(go, lower, form, specs, m.params, n);
      }
    }
  }

  /** What the emitted program refuses, and with which message. */
  lemma EmittedRefuses(go: Go, lower: string -> string, form: Form, specs: seq<Spec>, m: Machine, k: nat)
    requires Sane(go) && !m.err && (m.parsed || StringFirst(specs))
    requires k < |specs| && !Meets(go, lower, form, specs[k])
    requires forall i :: 0 <= i < k ==> Meets(go, lower, form, specs[i])
    ensures Check(go, lower, form, specs[k]).Fail?
    ensures Exec(go, form, EmitAll(Templates(lower, specs)), m) == Return(Check(go, lower, form, specs[k]).msg)
  {
    GeneratedMeansClauses(go, lower, form, specs, m);
    RefusedByFirst(go, lower, form, specs, m.params, k);
  }

  /** A refusal is that of the first field, in the order of the structure, whose check fails. */
  lemma FirstFailureCounts(go: Go, lower: string -> string, form: Form, specs: seq<Spec>,
                           m: Machine, msg: string) returns (k: nat)
    requires Sane(go) && !m.err && (m.parsed || StringFirst(specs))
    requires Exec(go, form, EmitAll(Templates(lower, specs)), m) == Return(msg)
    ensures k < |specs| && Check(go, lower, form, specs[k]) == Fail(msg)
    ensures forall i :: 0 <= i < k ==> Meets(go, lower, form, specs[i])
  {
    GeneratedMeansClauses(go, lower, form, specs, m);
    AcceptsIffAllMeet(go, lower, form, specs, m.params);
    k := FirstThatFails(go, lower, form, specs);
    RefusedByFirst(go, lower, form, specs, m.params, k);
  }

  lemma FirstThatFails(go: Go, lower: string -> string, form: Form, specs: seq<Spec>) returns (k: nat)
    requires exists i :: 0 <= i < |specs| && !Meets(go, lower, form, specs[i])
    ensures k < |specs| && !Meets(go, lower, form, specs[k])
    ensures forall i :: 0 <= i < k ==> Meets(go, lower, form, specs[i])
  {
    k := 0;
    while Meets(go, lower, form, specs[k])
      invariant k < |specs| && forall i :: 0 <= i < k ==> Meets(go, lower, form, specs[i])
      invariant exists i :: k <= i < |specs| && !Meets(go, lower, form, specs[i])
      decreases |specs| - k
    {
      k := k + 1;
    }
  }

  // A clause of the field that counts.
  predicate Has(s: Spec, c: Clause) {
    exists k :: 0 <= k < |s.clauses| && s.clauses[k] == c && Counts(s.clauses, k)
  }

  predicate HasDefault(s: Spec) { exists k :: 0 <= k < |s.clauses| && s.clauses[k].Default? }

  lemma DefaultCounts(s: Spec)
    ensures Last(s.clauses, 1).Some? <==> HasDefault(s)
    ensures forall d :: Has(s, Default(d)) <==> Last(s.clauses, 1) == Some(Default(d))
  {
    LastCounts(s.clauses, 1);
    if k :| 0 <= k < |s.clauses| && s.clauses[k].Default? { LastOf(s.clauses, k); }
  }

  lemma {:induction false} LastOf(cs: seq<Clause>, k: nat)
    requires k < |cs|
    ensures Last(cs, Rank(cs[k])).Some?
    decreases |cs|
  {
    if k < |cs| - 1 && Rank(cs[|cs| - 1]) != Rank(cs[k]) { LastOf(cs[..|cs| - 1], k); }
  }

  // The value a text field has in a form: what was sent, or its default when nothing or nothing but
  // an empty text was.
  predicate TextInForm(lower: string -> string, form: Form, s: Spec, t: string) {
    var p := ParamOf(lower, s);
    if p in form && form[p] != "" then t == form[p]
    else Has(s, Default(t)) || (!HasDefault(s) && t == "")
  }

  lemma TextIsValue(go: Go, lower: string -> string, form: Form, s: Spec, t: string)
    requires s.kind.StringField?
    ensures TextInForm(lower, form, s, t) <==> ValueIn(go, lower, form, s) == Some(VStr(t))
  {
    DefaultCounts(s);
    LastIn(s.clauses, 1);
  }

  /** What the emitted program makes of text fields: each accepted one has the text that was sent, or its
      default if none was; and one that is required and comes out empty is refused with the message that
      says so, all fields before it meeting their clauses. */
  lemma EmittedTexts(go: Go, lower: string -> string, form: Form, specs: seq<Spec>, m: Machine, k: nat)
    requires Sane(go) && !m.err && (m.parsed || StringFirst(specs)) && DistinctNames(specs)
    requires k < |specs| && specs[k].kind.StringField?
    ensures var o, s := Exec(go, form, EmitAll(Templates(lower, specs)), m), specs[k];
            && (o.Continue? ==> s.name in o.m.params && o.m.params[s.name].VStr?
                                && TextInForm(lower, form, s, o.m.params[s.name].s))
            && (TextInForm(lower, form, s, "") && Has(s, Required)
                && (forall i :: 0 <= i < k ==> Meets(go, lower, form, specs[i])) ==>
                  o == Return(ParamOf(lower, s) + " must me not empty"))
  {
    var o, s := Exec(go, form, EmitAll(Templates(lower, specs)), m), specs[k];
    EmittedAccepts(go, lower, form, specs, m);
    if o.Continue? {
      TextOnly(go, lower, form, s);
      TextIsValue(go, lower, form, s, o.m.params[s.name].s);
    }
    if TextInForm(lower, form, s, "") && Has(s, Required) && forall i :: 0 <= i < k ==> Meets(go, lower, form, specs[i]) {
      EmptyIsRefused(go, lower, form, s);
      PassesIffMeets(go, lower, form, s);
      EmittedRefuses(go, lower, form, specs, m, k);
    }
  }

  lemma TextOnly(go: Go, lower: string -> string, form: Form, s: Spec)
    requires s.kind.StringField?
    ensures ValueIn(go, lower, form, s).Some? && ValueIn(go, lower, form, s).value.VStr?
  {
  }

  lemma EmptyIsRefused(go: Go, lower: string -> string, form: Form, s: Spec)
    requires s.kind.StringField? && TextInForm(lower, form, s, "") && Has(s, Required)
    ensures Check(go, lower, form, s) == Fail(ParamOf(lower, s) + " must me not empty")
  {
    TextIsValue(go, lower, form, s, "");
    LastCounts(s.clauses, 2);
  }

  /** The maximum is exclusive, whatever its message says: a value that reaches it, having passed what
      comes before, is refused by the emitted program with that message. */
  lemma MaximumIsRefused(go: Go, lower: string -> string, form: Form, specs: seq<Spec>, m: Machine, k: nat, i: nat)
    requires Sane(go) && !m.err && (m.parsed || StringFirst(specs)) && k < |specs|
    requires forall j :: 0 <= j < k ==> Meets(go, lower, form, specs[j])
    requires var cs, v := specs[k].clauses, ValueIn(go, lower, form, specs[k]);
             && i < |cs| && cs[i].Max? && Counts(cs, i)
             && v.Some? && (match v.value case VInt(n) => Bound(go, cs[i].text) <= n
                                         case VStr(t) => Bound(go, cs[i].text) <= |t|)
             && forall j :: 0 <= j < |cs| && Counts(cs, j) && Rank(cs[j]) < 4 ==>
                  ClauseHolds(go, specs[k].kind, cs[j], v.value)
    ensures var s := specs[k];
            Exec(go, form, EmitAll(Templates(lower, specs)), m)
            == Return(ParamOf(lower, s) + (if s.kind.IntField? then " " else " len ") + "must be <= " + s.clauses[i].text)
  {
    MaximumFails(go, lower, form, specs[k], i);
    PassesIffMeets(go, lower, form, specs[k]);
    EmittedRefuses(go, lower, form, specs, m, k);
  }

  lemma MaximumFails(go: Go, lower: string -> string, form: Form, s: Spec, i: nat)
    requires var cs, v := s.clauses, ValueIn(go, lower, form, s);
             && i < |cs| && cs[i].Max? && Counts(cs, i)
             && v.Some? && (match v.value case VInt(n) => Bound(go, cs[i].text) <= n
                                         case VStr(t) => Bound(go, cs[i].text) <= |t|)
             && forall j :: 0 <= j < |cs| && Counts(cs, j) && Rank(cs[j]) < 4 ==> ClauseHolds(go, s.kind, cs[j], v.value)
    ensures Check(go, lower, form, s)
         == Fail(ParamOf(lower, s) + (if s.kind.IntField? then " " else " len ") + "must be <= " + s.clauses[i].text)
  {
    LastCounts(s.clauses, 2);
    LastCounts(s.clauses, 3);
    LastCounts(s.clauses, 4);
  }

  // No two different clauses of one kind.
  predicate DistinctClauses(cs: seq<Clause>) {
    forall c, d :: c in cs && d in cs && Rank(c) == Rank(d) && Rank(c) < 6 ==> c == d
  }

  lemma {:induction false} LastIsTheOne(cs: seq<Clause>, rank: nat)
    requires DistinctClauses(cs) && rank < 6
    ensures Last(cs, rank).Some? ==> Last(cs, rank).value in cs && Rank(Last(cs, rank).value) == rank
    ensures forall c :: c in cs && Rank(c) == rank ==> Last(cs, rank) == Some(c)
    decreases |cs|
  {
    if cs != [] {
      var init := cs[..|cs| - 1];
      assert forall c :: c in init ==> c in cs;
      assert forall c :: c in cs ==> c in init || c == cs[|cs| - 1];
      LastIsTheOne(init, rank);
    }
  }

  lemma LastUnderPermutation(cs: seq<Clause>, ds: seq<Clause>, rank: nat)
    requires DistinctClauses(cs) && DistinctClauses(ds) && (forall c :: c in cs <==> c in ds) && rank < 6
    ensures Last(cs, rank) == Last(ds, rank)
  {
    LastIsTheOne(cs, rank);
    LastIsTheOne(ds, rank);
  }

  // The same fields with their clauses in another order, none of them saying anything twice.
  predicate Permuted(specs: seq<Spec>, others: seq<Spec>) {
    |specs| == |others| && forall k :: 0 <= k < |specs| ==> PermutedField(specs[k], others[k])
  }

  predicate PermutedField(s: Spec, t: Spec) {
    t.name == s.name && t.kind == s.kind && multiset(t.clauses) == multiset(s.clauses) && DistinctClauses(s.clauses)
  }

  // The template data are then the same, but for what becomes of the enum error.
  predicate SameButEnumError(f: FieldTpl, g: FieldTpl) {
    && g.name == f.name && g.kind == f.kind && g.paramName == f.paramName && g.required == f.required
    && g.isDefault == f.isDefault && (f.isDefault ==> g.defaultValue == f.defaultValue)
    && g.isEnum == f.isEnum && (f.isEnum ==> g.enums == f.enums)
    && g.isMax == f.isMax && (f.isMax ==> g.max == f.max)
    && g.isMin == f.isMin && (f.isMin ==> g.min == f.min)
  }

  lemma PermutedTemplates(lower: string -> string, s: Spec, t: Spec, f: FieldTpl, g: FieldTpl)
    requires PermutedField(s, t)
    requires Describes(f, s.name, s.kind, s.clauses, lower) && Describes(g, t.name, t.kind, t.clauses, lower)
    ensures SameButEnumError(f, g)
  {
    var cs, ds := s.clauses, t.clauses;
    forall c ensures c in cs <==> c in ds { assert c in cs <==> c in multiset(cs); }
    LastUnderPermutation(cs, ds, 0); LastUnderPermutation(cs, ds, 1); LastUnderPermutation(cs, ds, 2);
    LastUnderPermutation(cs, ds, 3); LastUnderPermutation(cs, ds, 4); LastUnderPermutation(cs, ds, 5);
  }

  lemma PermutedVerdicts(go: Go, f: FieldTpl, g: FieldTpl, v: Val)
    requires SameButEnumError(f, g)
    ensures Verdicts(go, f, v) == Verdicts(go, g, v) ||
            (f.isEnum && Verdicts(go, f, v) == Fail(f.enumError) && Verdicts(go, g, v) == Fail(g.enumError))
  {
  }

  lemma PermutedEmit(go: Go, form: Form, f: FieldTpl, g: FieldTpl, m: Machine)
    requires Sane(go) && !m.err && SameButEnumError(f, g)
    ensures var a, b := Exec(go, form, Emit(f), m), Exec(go, form, Emit(g), m);
            a == b || (f.isEnum && a == Return(f.enumError) && b == Return(g.enumError))
  {
    EmitDoes(go, form, f, m);
    EmitDoes(go, form, g, m);
    var raw := Raw(go, form, m.parsed, f);
    if raw.Some? {
      PermutedVerdicts(go, f, g, Defaulted(go, f, raw.value));
    }
  }

  // Both are the enum error of field k, each with the parameter name known when the clause was read.
  predicate BothEnumErrors(lower: string -> string, s: Spec, t: Spec, a: Outcome, b: Outcome) {
    match Last(s.clauses, 3)
    case Some(Enum(options)) =>
      && a == Return(EnumError(EnumParam(s.name, s.clauses, lower), options))
      && b == Return(EnumError(EnumParam(t.name, t.clauses, lower), options))
    case _ => false
  }

  predicate SameOutcome(lower: string -> string, specs: seq<Spec>, others: seq<Spec>, a: Outcome, b: Outcome)
    requires |specs| == |others|
  {
    a == b || exists k :: 0 <= k < |specs| && BothEnumErrors(lower, specs[k], others[k], a, b)
  }

  /** Permuting the clauses of any of the fields, none of them saying anything twice, changes nothing of
      what the emitted program does, on any form and from any state -- but the text of an enum error,
      which names the parameter as it was known when the enum clause was read. */
  lemma {:induction false} OrderOfClauses(go: Go, lower: string -> string, form: Form, specs: seq<Spec>,
                                          others: seq<Spec>, m: Machine)
    requires Sane(go) && !m.err && Permuted(specs, others)
    ensures SameOutcome(lower, specs, others, Exec(go, form, EmitAll(Templates(lower, specs)), m),
                        Exec(go, form, EmitAll(Templates(lower, others)), m))
    decreases |specs|, 1
  {
    if specs != [] {
      var a, b := FirstField(go, lower, form, specs, m), FirstField(go, lower, form, others, m);
      FieldByField(go, lower, form, specs, m);
      FieldByField(go, lower, form, others, m);
      FirstFieldOrder(go, lower, form, specs, others, m);
      if a != b {
        assert BothEnumErrors(lower, specs[0], others[0], a, b);
      } else if a.Continue? {
        LaterFields(go, lower, form, specs, others, a.m);
      }
    }
  }

  // What the statements of the first field do, and how those of the others go on from there.
  function FirstField(go: Go, lower: string -> string, form: Form, specs: seq<Spec>, m: Machine): Outcome
    requires specs != []
  {
    Exec(go, form, Emit(Templates(lower, specs)[0]), m)
  }

  lemma FieldByField(go: Go, lower: string -> string, form: Form, specs: seq<Spec>, m: Machine)
    requires Sane(go) && !m.err && specs != []
    ensures Exec(go, form, EmitAll(Templates(lower, specs)), m) ==
            match FirstField(go, lower, form, specs, m)
            case Return(msg) => Return(msg)
            case Continue(m') => Exec(go, form, EmitAll(Templates(lower, specs[1..])), m')
    ensures FirstField(go, lower, form, specs, m).Continue? ==> !FirstField(go, lower, form, specs, m).m.err
  {
    var fs := Templates(lower, specs);
    assert fs[1..] == Templates(lower, specs[1..]);
    ExecConcat(go, form, Emit(fs[0]), EmitAll(fs[1..]), m);
    EmitDoes(go, form, fs[0], m);
  }

  lemma {:induction false} LaterFields(go: Go, lower: string -> string, form: Form, specs: seq<Spec>, others: seq<Spec>,
                                       m: Machine)
    requires Sane(go) && !m.err && Permuted(specs, others) && specs != []
    ensures SameOutcome(lower, specs, others, Exec(go, form, EmitAll(Templates(lower, specs[1..])), m),
                        Exec(go, form, EmitAll(Templates(lower, others[1..])), m))
    decreases |specs|, 0
  {
    OrderOfClauses(go, lower, form, specs[1..], others[1..], m);
    LaterOutcome(lower, specs, others, Exec(go, form, EmitAll(Templates(lower, specs[1..])), m),
                 Exec(go, form, EmitAll(Templates(lower, others[1..])), m));
  }

  lemma LaterOutcome(lower: string -> string, specs: seq<Spec>, others: seq<Spec>, a: Outcome, b: Outcome)
    requires |specs| == |others| > 0 && SameOutcome(lower, specs[1..], others[1..], a, b)
    ensures SameOutcome(lower, specs, others, a, b)
  {
    if a != b {
      var k :| 0 <= k < |specs| - 1 && BothEnumErrors(lower, specs[1..][k], others[1..][k], a, b);
      assert BothEnumErrors(lower, specs[k + 1], others[k + 1], a, b);
    }
  }

  lemma FirstFieldOrder(go: Go, lower: string -> string, form: Form, specs: seq<Spec>, others: seq<Spec>, m: Machine)
    requires Sane(go) && !m.err && Permuted(specs, others) && specs != []
    ensures var a, b := FirstField(go, lower, form, specs, m), FirstField(go, lower, form, others, m);
            a == b || (a.Return? && b.Return? && BothEnumErrors(lower, specs[0], others[0], a, b))
  {
    var s, t, f, g := specs[0], others[0], Templates(lower, specs)[0], Templates(lower, others)[0];
    TemplateDescribes(s.name, s.kind, s.clauses, lower);
    TemplateDescribes(t.name, t.kind, t.clauses, lower);
    PermutedTemplates(lower, s, t, f, g);
    PermutedEmit(go, form, f, g, m);
  }

  // How often the emitted function declares the variable `valid`.
  function Declarations(prog: seq<Stmt>): nat {
    if prog == [] then 0 else (if prog[0].DeclareValid? then 1 else 0) + Declarations(prog[1..])
  }

  lemma {:induction false} DeclarationsConcat(a: seq<Stmt>, b: seq<Stmt>)
    ensures Declarations(a + b) == Declarations(a) + Declarations(b)
  {
    if a == [] {
      assert a + b == b;
    } else {
      assert (a + b)[1..] == a[1..] + b;
      DeclarationsConcat(a[1..], b);
    }
  }

  function EnumFields(fs: seq<FieldTpl>): nat {
    if fs == [] then 0 else (if fs[0].isEnum then 1 else 0) + EnumFields(fs[1..])
  }

  lemma FewDeclarations(s: Stmt, r: Stmt)
    ensures Declarations([s]) == if s.DeclareValid? then 1 else 0
    ensures Declarations([s, r]) == Declarations([s]) + Declarations([r])
  {
    assert [s][1..] == [] && [s, r][1..] == [r] && [r][1..] == [];
  }

  // A part without a declaration of `valid`, and the one with it.
  lemma ReadDeclares(f: FieldTpl)
    ensures Declarations(ReadPart(f)) == 0
  {
    if f.kind.IntField? {
      FewDeclarations(ReadPart(f)[0], ReadPart(f)[1]);
      FewDeclarations(ReadPart(f)[1], ReadPart(f)[1]);
    } else {
      FewDeclarations(ReadPart(f)[0], ReadPart(f)[0]);
    }
  }

  lemma EnumDeclares(f: FieldTpl)
    ensures Declarations(EnumPart(f)) == if f.isEnum then 1 else 0
  {
    if f.isEnum {
      FewDeclarations(EnumPart(f)[0], EnumPart(f)[1]);
      FewDeclarations(EnumPart(f)[1], EnumPart(f)[1]);
    }
  }

  lemma ShortPartDeclares(part: seq<Stmt>)
    requires part == [] || (|part| == 1 && !part[0].DeclareValid?)
    ensures Declarations(part) == 0
  {
    if part != [] {
      FewDeclarations(part[0], part[0]);
      assert part == [part[0]];
    }
  }

  lemma TailDeclares(f: FieldTpl)
    ensures Declarations(Tail(f)) == if f.isEnum then 1 else 0
  {
    DeclarationsConcat(RequiredPart(f) + EnumPart(f) + MaxPart(f), MinPart(f));
    DeclarationsConcat(RequiredPart(f) + EnumPart(f), MaxPart(f));
    DeclarationsConcat(RequiredPart(f), EnumPart(f));
    EnumDeclares(f);
    ShortPartDeclares(RequiredPart(f));
    ShortPartDeclares(MaxPart(f));
    ShortPartDeclares(MinPart(f));
  }

  lemma PartDeclarations(f: FieldTpl)
    ensures Declarations(Emit(f)) == if f.isEnum then 1 else 0
  {
    EmitShape(f);
    DeclarationsConcat(ReadPart(f), DefaultPart(f) + Tail(f));
    DeclarationsConcat(DefaultPart(f), Tail(f));
    ReadDeclares(f);
    ShortPartDeclares(DefaultPart(f));
    TailDeclares(f);
  }

  /** `valid` is declared with := once for every field with an enum, all in the scope of one
      function, where Go allows it once: the generated code is well formed in this respect exactly
      when at most one field of the structure has an enum clause. */
  lemma {:induction false} ValidDeclaredOnce(fs: seq<FieldTpl>)
    ensures Declarations(EmitAll(fs)) == EnumFields(fs)
    ensures Declarations(EmitAll(fs)) <= 1 <==>
              forall i, j :: 0 <= i < j < |fs| ==> !(fs[i].isEnum && fs[j].isEnum)
  {
    if fs != [] {
      PartDeclarations(fs[0]);
      DeclarationsConcat(Emit(fs[0]), EmitAll(fs[1..]));
      ValidDeclaredOnce(fs[1..]);
      NoEnumFields(fs[1..]);
      assert forall i :: 0 < i < |fs| ==> fs[i] == fs[1..][i - 1];
    }
  }

  lemma {:induction false} NoEnumFields(fs: seq<FieldTpl>)
    ensures EnumFields(fs) == 0 <==> forall i :: 0 <= i < |fs| ==> !fs[i].isEnum
  {
    if fs != [] {
      NoEnumFields(fs[1..]);
      assert forall i :: 0 < i < |fs| ==> fs[i] == fs[1..][i - 1];
    }
  }
}
