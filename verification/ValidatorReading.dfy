/** When the form can be read: r.Form.Get sees nothing until an r.FormValue has filled the form. */
module ValidatorReading {
  import Text
  import opened TagClauses
  import opened Validator
  import opened ValidatorProofs

  /** A number that is read before r.Form has been filled is read as empty: whatever the form says,
      the emitted function refuses it. */
  lemma LeadingNumberIsRefused(go: Go, lower: string -> string, form: Form, specs: seq<Spec>, m: Machine)
    requires Sane(go) && !m.err && !m.parsed && !StringFirst(specs) && go.atoi("").None?
    ensures Exec(go, form, EmitAll(Templates(lower, specs)), m)
         == Return(ParamOf(lower, specs[0]) + " must be int")
  {
    var fs := Templates(lower, specs);
    ExecConcat(go, form, Emit(fs[0]), EmitAll(fs[1..]), m);
    EmitDoes(go, form, fs[0], m);
    TemplateDescribes(specs[0].name, specs[0].kind, specs[0].clauses, lower);
  }

  // How a handler calls the emitted function.
  function Start(): Machine { Machine(map[], false, false, false) }

  predicate Suffix(s: string, t: string) { |s| <= |t| && t[|t| - |s|..] == s }

  // A bound is not a text that makes its message read like that of a failed conversion.
  predicate PlainBounds(cs: seq<Clause>) {
    forall c :: c in cs && (c.Max? || c.Min?) ==> !Suffix("must be int", c.text)
  }

  // The message of a failed conversion is no other message: they end differently.
  lemma NoSuffix(want: string, t: string, i: nat)
    requires i < |want| && (|want| <= |t| ==> want[i] != t[|t| - |want| + i])
    ensures !Suffix(want, t)
  {
    if |want| <= |t| {
      assert t[|t| - |want|..][i] == t[|t| - |want| + i];
    }
  }

  lemma WhereDifferent(want: string, t: string) returns (i: nat)
    requires |want| <= |t| && !Suffix(want, t)
    ensures i < |want| && want[i] != t[|t| - |want| + i]
  {
    i :| 0 <= i < |want| && want[i] != t[|t| - |want|..][i];
  }

  lemma SuffixOfBound(head: string, bound: string)
    requires !Suffix("must be int", bound)
    ensures !Suffix(" must be int", head + "= " + bound)
  {
    var t, want, tail := head + "= " + bound, " must be int", "must be int";
    if |bound| >= |tail| {
      var i := WhereDifferent(tail, bound);
      NoSuffix(want, t, i + 1);
    } else {
      assert t[|head|] == '=';
      NoSuffix(want, t, |want| - |bound| - 2);
    }
  }

  lemma OtherMessages(p: string, text: string)
    ensures !Suffix(" must be int", p + " must me not empty")
    ensures !Suffix(" must be int", p + " must be one of [" + text + "]")
    ensures Suffix(" must be int", p + " must be int")
  {
    var a, b := p + " must me not empty", p + " must be one of [" + text + "]";
    assert a[|a| - 1] == 'y' && b[|b| - 1] == ']';
    NoSuffix(" must be int", a, 11);
    NoSuffix(" must be int", b, 11);
    assert (p + " must be int")[|p|..] == " must be int";
  }

  lemma BoundMessage(head: string, m: string)
    requires !Suffix("must be int", m)
    ensures !Suffix(" must be int", head + "must be <= " + m) && !Suffix(" must be int", head + "must be >= " + m)
  {
    SuffixOfBound(head + "must be <", m);
    SuffixOfBound(head + "must be >", m);
    assert head + "must be <= " + m == (head + "must be <") + "= " + m;
    assert head + "must be >= " + m == (head + "must be >") + "= " + m;
  }

  lemma MinFailure(go: Go, s: Spec, p: string, v: Val)
    requires PlainBounds(s.clauses)
    ensures var r := CheckMin(go, s, p, v); r.Fail? ==> !Suffix(" must be int", r.msg)
  {
    LastIn(s.clauses, 5);
    if Last(s.clauses, 5).Some? {
      BoundMessage(p + Len(s.kind), Last(s.clauses, 5).value.text);
    }
  }

  lemma MaxFailure(s: Spec, p: string)
    requires PlainBounds(s.clauses) && Last(s.clauses, 4).Some?
    ensures Last(s.clauses, 4).value.Max?
    ensures !Suffix(" must be int", p + Len(s.kind) + "must be <= " + Last(s.clauses, 4).value.text)
  {
    LastIn(s.clauses, 4);
    BoundMessage(p + Len(s.kind), Last(s.clauses, 4).value.text);
  }

  lemma EnumFailure(p: string, options: seq<string>)
    ensures !Suffix(" must be int", EnumError(p, options))
  {
    OtherMessages(p, Text.Join(options, ", "));
  }

  lemma OtherFailure(go: Go, lower: string -> string, s: Spec, p: string, raw: Val)
    requires PlainBounds(s.clauses)
    ensures var r := CheckValue(go, lower, s, p, raw); r.Fail? ==> !Suffix(" must be int", r.msg)
  {
    var cs, v := s.clauses, WithDefaultValue(go, s, raw);
    OtherMessages(p, "");
    if Last(cs, 3).Some? && Last(cs, 3).value.Enum? {
      EnumFailure(EnumParam(s.name, cs, lower), Last(cs, 3).value.options);
    }
    if Last(cs, 4).Some? {
      MaxFailure(s, p);
    }
    MinFailure(go, s, p, v);
  }

  // A form that answers 1 to everything that is asked.
  function Asked(lower: string -> string, specs: seq<Spec>): set<string> { set s | s in specs :: ParamOf(lower, s) }

  function Ones(lower: string -> string, specs: seq<Spec>): Form { map p | p in Asked(lower, specs) :: "1" }

  lemma {:induction false} NoConversionFails(go: Go, lower: string -> string, form: Form, specs: seq<Spec>,
                                             params: map<string, Val>)
    requires go.atoi("1").Some?
    requires forall i :: 0 <= i < |specs| ==> Get(form, ParamOf(lower, specs[i])) == "1"
    requires forall i :: 0 <= i < |specs| ==> PlainBounds(specs[i].clauses)
    ensures var a := CheckAll(go, lower, form, specs, params); a.Refused? ==> !Suffix(" must be int", a.msg)
    decreases |specs|
  {
    if specs != [] {
      OtherFailure(go, lower, specs[0], ParamOf(lower, specs[0]), Parse(go, specs[0].kind, "1").value);
      var v := Check(go, lower, form, specs[0]);
      if v.Pass? {
        NoConversionFails(go, lower, form, specs[1..], params[specs[0].name := v.v]);
      }
    }
  }

  /** When the emitted function means what the clauses say: called as a handler calls it, on every form,
      exactly when the structure does not begin with a number. */
  lemma MeansClausesIffStringFirst(go: Go, lower: string -> string, specs: seq<Spec>)
    requires Sane(go) && go.atoi("").None? && go.atoi("1").Some?
    requires forall i :: 0 <= i < |specs| ==> PlainBounds(specs[i].clauses)
    ensures (forall form: Form ::
               AnswerOf(Exec(go, form, EmitAll(Templates(lower, specs)), Start()))
               == CheckAll(go, lower, form, specs, map[]))
            <==> StringFirst(specs)
  {
    if StringFirst(specs) {
      forall form: Form
        ensures AnswerOf(Exec(go, form, EmitAll(Templates(lower, specs)), Start()))
             == CheckAll(go, lower, form, specs, map[])
      {
        GeneratedMeansClauses(go, lower, form, specs, Start());
      }
    } else {
      var form := Ones(lower, specs);
      LeadingNumberIsRefused(go, lower, form, specs, Start());
      NoConversionFails(go, lower, form, specs, map[]);
      OtherMessages(ParamOf(lower, specs[0]), "");
    }
  }

  /** A field is read from a filled form exactly when the form was filled before or a string field
      comes before it: this is what the fields before it leave behind. */
  lemma {:induction false} ReadableAfter(go: Go, form: Form, fs: seq<FieldTpl>, m: Machine)
    requires Sane(go) && !m.err
    ensures match Exec(go, form, EmitAll(fs), m)
            case Return(_) => true
            case Continue(m') => m'.parsed <==> m.parsed || exists j :: 0 <= j < |fs| && fs[j].kind.StringField?
    decreases |fs|
  {
    if fs != [] {
      ExecConcat(go, form, Emit(fs[0]), EmitAll(fs[1..]), m);
      EmitDoes(go, form, fs[0], m);
      match Exec(go, form, Emit(fs[0]), m)
      case Return(_) =>
      case Continue(m') =>
        ReadableAfter(go, form, fs[1..], m');
        assert forall j :: 0 < j < |fs| ==> fs[j] == fs[1..][j - 1];
    }
  }
}
