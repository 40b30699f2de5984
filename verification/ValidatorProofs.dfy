/** The generated validators do what the clauses say. */
module ValidatorProofs {
  import opened TagClauses
  import opened TagRecognition
  import opened Text
  import opened Validator

  lemma {:induction false} ExecConcat(go: Go, form: Form, a: seq<Stmt>, b: seq<Stmt>, m: Machine)
    ensures Exec(go, form, a + b, m) ==
            match Exec(go, form, a, m) case Return(msg) => Return(msg) case Continue(m') => Exec(go, form, b, m')
    decreases |a|
  {
    if a == [] {
      assert a + b == b;
    } else {
      assert (a + b)[1..] == a[1..] + b;
      match Step(go, form, a[0], m)
      case Return(_) =>
      case Continue(m') => ExecConcat(go, form, a[1..], b, m');
    }
  }

  lemma {:induction false} FoldSnoc(t: FieldTpl, cs: seq<Clause>, c: Clause)
    ensures Fold(t, cs + [c]) == StepClause(Fold(t, cs), c)
    decreases |cs|
  {
    if cs == [] {
      assert cs + [c] == [c] && [c][1..] == [];
    } else {
      assert (cs + [c])[1..] == cs[1..] + [c];
      FoldSnoc(StepClause(t, cs[0]), cs[1..], c);
    }
  }

  // The template data, clause kind by clause kind.
  predicate Describes(f: FieldTpl, name: string, kind: Kind, cs: seq<Clause>, lower: string -> string) {
    && f.name == name && f.kind == kind
    && f.paramName == Param(name, cs, lower)
    && f.isDefault == Last(cs, 1).Some? && (f.isDefault ==> Last(cs, 1).value == Default(f.defaultValue))
    && f.required == Last(cs, 2).Some?
    && f.isEnum == Last(cs, 3).Some?
    && (f.isEnum ==> Last(cs, 3).value == Enum(f.enums) && f.enumError == EnumError(EnumParam(name, cs, lower), f.enums))
    && f.isMax == Last(cs, 4).Some? && (f.isMax ==> Last(cs, 4).value == Max(f.max))
    && f.isMin == Last(cs, 5).Some? && (f.isMin ==> Last(cs, 5).value == Min(f.min))
  }

  lemma LastSnoc(cs: seq<Clause>, c: Clause, rank: nat)
    ensures Last(cs + [c], rank) == if Rank(c) == rank then Some(c) else Last(cs, rank)
  {
    assert (cs + [c])[..|cs|] == cs;
  }

  lemma EnumParamSnoc(name: string, cs: seq<Clause>, c: Clause, lower: string -> string)
    ensures EnumParam(name, cs + [c], lower) == if c.Enum? then Param(name, cs, lower) else EnumParam(name, cs, lower)
  {
    assert (cs + [c])[..|cs|] == cs;
    LastSnoc(cs, c, 0);
  }

  lemma DescribesSnoc(t: FieldTpl, name: string, kind: Kind, cs: seq<Clause>, c: Clause, lower: string -> string)
    requires Describes(t, name, kind, cs, lower)
    ensures Describes(StepClause(t, c), name, kind, cs + [c], lower)
  {
    LastSnoc(cs, c, 0); LastSnoc(cs, c, 1); LastSnoc(cs, c, 2);
    LastSnoc(cs, c, 3); LastSnoc(cs, c, 4); LastSnoc(cs, c, 5);
    EnumParamSnoc(name, cs, c, lower);
  }

  lemma {:induction false} TemplateDescribes(name: string, kind: Kind, cs: seq<Clause>, lower: string -> string)
    ensures Describes(Fold(NewTpl(name, kind, lower), cs), name, kind, cs, lower)
    decreases |cs|
  {
    if cs != [] {
      var init, c := cs[..|cs| - 1], cs[|cs| - 1];
      assert cs == init + [c];
      TemplateDescribes(name, kind, init, lower);
      FoldSnoc(NewTpl(name, kind, lower), init, c);
      DescribesSnoc(Fold(NewTpl(name, kind, lower), init), name, kind, init, c, lower);
    }
  }

  lemma ExecOne(go: Go, form: Form, s: Stmt, m: Machine)
    ensures Exec(go, form, [s], m) == Step(go, form, s, m)
  {
    assert [s][1..] == [];
  }

  lemma ExecTwo(go: Go, form: Form, s: Stmt, r: Stmt, m: Machine)
    ensures Exec(go, form, [s, r], m) ==
            match Step(go, form, s, m) case Return(msg) => Return(msg) case Continue(m') => Step(go, form, r, m')
  {
    assert [s, r] == [s] + [r];
    ExecConcat(go, form, [s], [r], m);
    ExecOne(go, form, s, m);
    match Step(go, form, s, m)
    case Return(_) =>
    case Continue(m') => ExecOne(go, form, r, m');
  }

  // The literal 0 is the number 0.
  predicate Sane(go: Go) { go.literal("0") == Some(0) }

  // What the parts of one field do, in terms of the value the field has at that point.
  lemma ReadDoes(go: Go, form: Form, f: FieldTpl, m: Machine)
    ensures var n := go.atoi(if m.parsed then Get(form, f.paramName) else "");
            Exec(go, form, ReadPart(f), m) ==
            if f.kind.StringField? then
              Continue(m.(params := m.params[f.name := VStr(Get(form, f.paramName))], parsed := true))
            else if n.None? then Return(f.paramName + " must be int")
            else Continue(m.(params := m.params[f.name := VInt(n.value)], err := false))
  {
    if f.kind.IntField? {
      ExecTwo(go, form, ReadInt(f.name, f.paramName), IfReturn(ErrNotNil, f.paramName + " must be int"), m);
    } else {
      ExecOne(go, form, ReadForm(f.name, f.paramName), m);
    }
  }

  function Defaulted(go: Go, f: FieldTpl, v: Val): Val {
    if f.isDefault && v == ZeroVal(f.kind) then Plain(go, f.kind, f.defaultValue) else v
  }

  lemma DefaultDoes(go: Go, form: Form, f: FieldTpl, m: Machine)
    requires Sane(go) && f.name in m.params
    ensures Exec(go, form, DefaultPart(f), m) ==
            Continue(m.(params := m.params[f.name := Defaulted(go, f, m.params[f.name])]))
  {
    assert m.params[f.name := m.params[f.name]] == m.params;
    if f.isDefault {
      ExecOne(go, form, DefaultPart(f)[0], m);
    }
  }

  lemma RequiredDoes(go: Go, form: Form, f: FieldTpl, m: Machine)
    requires Sane(go) && f.name in m.params
    ensures Exec(go, form, RequiredPart(f), m) ==
            if f.required && m.params[f.name] == ZeroVal(f.kind)
            then Return(f.paramName + " must me not empty") else Continue(m)
  {
    if f.required { ExecOne(go, form, RequiredPart(f)[0], m); }
  }

  predicate Among(go: Go, f: FieldTpl, v: Val) {
    exists i :: 0 <= i < |f.enums| && v == Plain(go, f.kind, f.enums[i])
  }

  lemma AmongLiterals(go: Go, f: FieldTpl, v: Val)
    ensures Among(go, f, v) <==>
            exists i :: 0 <= i < |Lits(f.kind, f.enums)| && v == ValueOf(go, Lits(f.kind, f.enums)[i])
  {
    var lits := Lits(f.kind, f.enums);
    assert forall i :: 0 <= i < |lits| ==> ValueOf(go, lits[i]) == Plain(go, f.kind, f.enums[i]);
  }

  lemma EnumDoes(go: Go, form: Form, f: FieldTpl, m: Machine)
    requires f.name in m.params
    ensures Exec(go, form, EnumPart(f), m) ==
            if !f.isEnum then Continue(m)
            else if Among(go, f, m.params[f.name]) then Continue(m.(valid := true))
            else Return(f.enumError)
  {
    if f.isEnum {
      AmongLiterals(go, f, m.params[f.name]);
      ExecTwo(go, form, EnumPart(f)[0], EnumPart(f)[1], m);
    }
  }

  lemma MaxDoes(go: Go, form: Form, f: FieldTpl, m: Machine)
    requires f.name in m.params
    ensures Exec(go, form, MaxPart(f), m) ==
            if f.isMax && Bound(go, f.max) <= Measure(m.params[f.name])
            then Return(f.paramName + Len(f.kind) + "must be <= " + f.max) else Continue(m)
  {
    if f.isMax { ExecOne(go, form, MaxPart(f)[0], m); }
  }

  lemma MinDoes(go: Go, form: Form, f: FieldTpl, m: Machine)
    requires f.name in m.params
    ensures Exec(go, form, MinPart(f), m) ==
            if f.isMin && Bound(go, f.min) > Measure(m.params[f.name])
            then Return(f.paramName + Len(f.kind) + "must be >= " + f.min) else Continue(m)
  {
    if f.isMin { ExecOne(go, form, MinPart(f)[0], m); }
  }

  // The checks after the value has been read and defaulted.
  function Tail(f: FieldTpl): seq<Stmt> { RequiredPart(f) + EnumPart(f) + MaxPart(f) + MinPart(f) }

  function Verdicts(go: Go, f: FieldTpl, v: Val): Verdict {
    if f.required && v == ZeroVal(f.kind) then Fail(f.paramName + " must me not empty")
    else if f.isEnum && !Among(go, f, v) then Fail(f.enumError)
    else if f.isMax && Bound(go, f.max) <= Measure(v) then Fail(f.paramName + Len(f.kind) + "must be <= " + f.max)
    else if f.isMin && Bound(go, f.min) > Measure(v) then Fail(f.paramName + Len(f.kind) + "must be >= " + f.min)
    else Pass(v)
  }

  lemma TailDoes(go: Go, form: Form, f: FieldTpl, m: Machine)
    requires Sane(go) && f.name in m.params
    ensures Exec(go, form, Tail(f), m) ==
            match Verdicts(go, f, m.params[f.name])
            case Fail(msg) => Return(msg)
            case Pass(_) => Continue(if f.isEnum then m.(valid := true) else m)
  {
    var m' := if f.isEnum then m.(valid := true) else m;
    ExecConcat(go, form, RequiredPart(f) + EnumPart(f) + MaxPart(f), MinPart(f), m);
    ExecConcat(go, form, RequiredPart(f) + EnumPart(f), MaxPart(f), m);
    ExecConcat(go, form, RequiredPart(f), EnumPart(f), m);
    RequiredDoes(go, form, f, m);
    EnumDoes(go, form, f, m);
    MaxDoes(go, form, f, m');
    MinDoes(go, form, f, m');
  }

  // The value a field has after reading, or the failure to parse it.
  function Raw(go: Go, form: Form, parsed: bool, f: FieldTpl): Option<Val> {
    Parse(go, f.kind, if parsed || f.kind.StringField? then Get(form, f.paramName) else "")
  }

  lemma EmitShape(f: FieldTpl)
    ensures Emit(f) == ReadPart(f) + (DefaultPart(f) + Tail(f))
  {
    var checks := RequiredPart(f) + EnumPart(f);
    Regroup(ReadPart(f), DefaultPart(f), RequiredPart(f), EnumPart(f));
    Regroup(ReadPart(f), DefaultPart(f), checks, MaxPart(f));
    Regroup(ReadPart(f), DefaultPart(f), checks + MaxPart(f), MinPart(f));
  }

  lemma ChecksDo(go: Go, form: Form, f: FieldTpl, m: Machine)
    requires Sane(go) && f.name in m.params
    ensures Exec(go, form, DefaultPart(f) + Tail(f), m) ==
            match Verdicts(go, f, Defaulted(go, f, m.params[f.name]))
            case Fail(msg) => Return(msg)
            case Pass(v) => Continue(m.(params := m.params[f.name := v], valid := m.valid || f.isEnum))
  {
    var m' := m.(params := m.params[f.name := Defaulted(go, f, m.params[f.name])]);
    ExecConcat(go, form, DefaultPart(f), Tail(f), m);
    DefaultDoes(go, form, f, m);
    TailDoes(go, form, f, m');
  }

  lemma EmitDoes(go: Go, form: Form, f: FieldTpl, m: Machine)
    requires Sane(go) && !m.err
    ensures Exec(go, form, Emit(f), m) ==
            match Raw(go, form, m.parsed, f)
            case None => Return(f.paramName + " must be int")
            case Some(raw) =>
              match Verdicts(go, f, Defaulted(go, f, raw))
              case Fail(msg) => Return(msg)
              case Pass(v) =>
                Continue(Machine(m.params[f.name := v], false, m.valid || f.isEnum, m.parsed || f.kind.StringField?))
  {
    EmitShape(f);
    ExecConcat(go, form, ReadPart(f), DefaultPart(f) + Tail(f), m);
    ReadDoes(go, form, f, m);
    var raw := Raw(go, form, m.parsed, f);
    if raw.Some? {
      var m' := m.(params := m.params[f.name := raw.value], err := false, parsed := m.parsed || f.kind.StringField?);
      ChecksDo(go, form, f, m');
      var v := Defaulted(go, f, raw.value);
      assert m'.params[f.name := v] == m.params[f.name := v];
    }
  }

  // The template data mean what the clauses mean.
  lemma MinMeans(go: Go, lower: string -> string, s: Spec, f: FieldTpl, v: Val)
    requires Describes(f, s.name, s.kind, s.clauses, lower)
    ensures CheckMin(go, s, f.paramName, v) ==
            if f.isMin && Bound(go, f.min) > Measure(v)
            then Fail(f.paramName + Len(f.kind) + "must be >= " + f.min) else Pass(v)
  {
  }

  lemma EnumMeans(go: Go, lower: string -> string, s: Spec, f: FieldTpl, v: Val)
    requires Describes(f, s.name, s.kind, s.clauses, lower)
    ensures InEnum(go, s.kind, Last(s.clauses, 3), v) <==> !f.isEnum || Among(go, f, v)
  {
  }

  lemma DefaultMeans(go: Go, lower: string -> string, s: Spec, f: FieldTpl, raw: Val)
    requires Describes(f, s.name, s.kind, s.clauses, lower)
    ensures Defaulted(go, f, raw) == WithDefaultValue(go, s, raw)
  {
  }

  lemma ValueMeans(go: Go, lower: string -> string, s: Spec, f: FieldTpl, raw: Val)
    requires Describes(f, s.name, s.kind, s.clauses, lower)
    ensures CheckValue(go, lower, s, f.paramName, raw) == Verdicts(go, f, Defaulted(go, f, raw))
  {
    var v := Defaulted(go, f, raw);
    DefaultMeans(go, lower, s, f, raw);
    EnumMeans(go, lower, s, f, v);
    MinMeans(go, lower, s, f, v);
  }

  lemma VerdictsAreChecks(go: Go, lower: string -> string, form: Form, s: Spec, f: FieldTpl)
    requires Describes(f, s.name, s.kind, s.clauses, lower)
    ensures Check(go, lower, form, s) ==
            match Parse(go, f.kind, Get(form, f.paramName))
            case None => Fail(f.paramName + " must be int")
            case Some(raw) => Verdicts(go, f, Defaulted(go, f, raw))
  {
    var raw := Parse(go, f.kind, Get(form, f.paramName));
    if raw.Some? {
      ValueMeans(go, lower, s, f, raw.value);
    }
  }

  // The first read is one that fills r.Form.
  predicate StringFirst(specs: seq<Spec>) { specs == [] || specs[0].kind.StringField? }

  // What an outcome of the emitted function tells its caller.
  function AnswerOf(o: Outcome): Answer {
    match o case Return(msg) => Refused(msg) case Continue(m) => Accepted(m.params)
  }

  /** Generation preserves meaning: for any form, running the emitted statements refuses with the
      message, or accepts with the parameters, that the clauses say -- if r.Form has been filled
      before the first number is read. */
  lemma {:induction false} GeneratedMeansClauses(go: Go, lower: string -> string, form: Form, specs: seq<Spec>,
                                                 m: Machine)
    requires Sane(go) && !m.err && (m.parsed || StringFirst(specs))
    ensures AnswerOf(Exec(go, form, EmitAll(Templates(lower, specs)), m)) == CheckAll(go, lower, form, specs, m.params)
    decreases |specs|
  {
    if specs != [] {
      var fs := Templates(lower, specs);
      var f := fs[0];
      assert fs[1..] == Templates(lower, specs[1..]);
      ExecConcat(go, form, Emit(f), EmitAll(fs[1..]), m);
      EmitDoes(go, form, f, m);
      TemplateDescribes(specs[0].name, specs[0].kind, specs[0].clauses, lower);
      VerdictsAreChecks(go, lower, form, specs[0], f);
      match Exec(go, form, Emit(f), m)
      case Return(_) =>
      case Continue(m') => GeneratedMeansClauses(go, lower, form, specs[1..], m');
    }
  }

  lemma {:induction false} LastIn(cs: seq<Clause>, rank: nat)
    ensures Last(cs, rank).Some? ==> Last(cs, rank).value in cs && Rank(Last(cs, rank).value) == rank
    decreases |cs|
  {
    if cs != [] {
      LastIn(cs[..|cs| - 1], rank);
      assert forall c :: c in cs[..|cs| - 1] ==> c in cs;
    }
  }
}
