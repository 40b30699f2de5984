/** The second half of codegen.go: the code the template emits for the fields of a structure, as a
    program in a small imperative language, and the meaning of the clauses themselves. */
module Validator {
  import Text
  import opened TagClauses
  import opened TagRecognition

  datatype Val = VInt(n: int) | VStr(s: string)

  // strconv.Atoi on what a client sends, and the value of a Go expression pasted from a tag.
  datatype Go = Go(atoi: string -> Option<int>, literal: string -> Option<int>)

  type Form = map<string, string>

  function Get(form: Form, p: string): string { if p in form then form[p] else "" }

  function Measure(v: Val): int { if v.VInt? then v.n else |v.s| }

  // The emitted language.
  datatype Literal = IntText(text: string) | Quoted(text: string)

  datatype Cond =
    | ErrNotNil
    | Equals(field: string, lit: Literal)
    | NotValid
    | AtLeast(field: string, bound: string) // bound <= params.F, or its length in runes
    | Below(field: string, bound: string)   // bound > params.F, or its length in runes

  datatype Stmt =
    | ReadInt(field: string, param: string)  // params.F, err = strconv.Atoi(r.Form.Get(param))
    | ReadForm(field: string, param: string) // params.F = r.FormValue(param)
    | IfSet(cond: Cond, field: string, lit: Literal)
    | IfReturn(cond: Cond, msg: string)
    | DeclareValid(field: string, options: seq<Literal>) // valid := ...

  /* `parsed` is whether r.Form has been filled: r.Form.Get reads it as it is, r.FormValue fills it
     first. */
  datatype Machine = Machine(params: map<string, Val>, err: bool, valid: bool, parsed: bool)

  datatype Outcome = Return(msg: string) | Continue(m: Machine)

  function ValueOf(go: Go, lit: Literal): Val {
    match lit
    case IntText(t) => VInt(match go.literal(t) case Some(n) => n case None => 0)
    case Quoted(t) => VStr(t)
  }

  function Bound(go: Go, t: string): int { match go.literal(t) case Some(n) => n case None => 0 }

  predicate Holds(go: Go, c: Cond, m: Machine) {
    match c
    case ErrNotNil => m.err
    case Equals(f, lit) => f in m.params && m.params[f] == ValueOf(go, lit)
    case NotValid => !m.valid
    case AtLeast(f, b) => f in m.params && Bound(go, b) <= Measure(m.params[f])
    case Below(f, b) => f in m.params && Bound(go, b) > Measure(m.params[f])
  }

  function Step(go: Go, form: Form, s: Stmt, m: Machine): Outcome {
    match s
    case ReadInt(f, p) =>
      var n := go.atoi(if m.parsed then Get(form, p) else "");
      Continue(m.(params := m.params[f := VInt(if n.Some? then n.value else 0)], err := n.None?))
    case ReadForm(f, p) => Continue(m.(params := m.params[f := VStr(Get(form, p))], parsed := true))
    case IfSet(c, f, lit) =>
      if Holds(go, c, m) then Continue(m.(params := m.params[f := ValueOf(go, lit)])) else Continue(m)
    case IfReturn(c, msg) => if Holds(go, c, m) then Return(msg) else Continue(m)
    case DeclareValid(f, options) =>
      Continue(m.(valid := f in m.params && exists i :: 0 <= i < |options| && m.params[f] == ValueOf(go, options[i])))
  }

  function Exec(go: Go, form: Form, prog: seq<Stmt>, m: Machine): Outcome
    decreases |prog|
  {
    if prog == [] then Continue(m)
    else match Step(go, form, prog[0], m)
      case Return(msg) => Return(msg)
      case Continue(m') => Exec(go, form, prog[1..], m')
  }

  // The template, one pipeline action after the other.
  function Lit(kind: Kind, text: string): Literal { if kind.IntField? then IntText(text) else Quoted(text) }

  function Zero(kind: Kind): Literal { if kind.IntField? then IntText("0") else Quoted("") }

  function Len(kind: Kind): string { if kind.IntField? then " " else " len " }

  function ReadPart(f: FieldTpl): seq<Stmt> {
    if f.kind.IntField? then [ReadInt(f.name, f.paramName), IfReturn(ErrNotNil, f.paramName + " must be int")]
    else [ReadForm(f.name, f.paramName)]
  }

  function DefaultPart(f: FieldTpl): seq<Stmt> {
    if f.isDefault then [IfSet(Equals(f.name, Zero(f.kind)), f.name, Lit(f.kind, f.defaultValue))] else []
  }

  function RequiredPart(f: FieldTpl): seq<Stmt> {
    if f.required then [IfReturn(Equals(f.name, Zero(f.kind)), f.paramName + " must me not empty")] else []
  }

  function Lits(kind: Kind, texts: seq<string>): (r: seq<Literal>)
    ensures |r| == |texts| && forall i :: 0 <= i < |texts| ==> r[i] == Lit(kind, texts[i])
  {
    seq(|texts|, i requires 0 <= i < |texts| => Lit(kind, texts[i]))
  }

  function EnumPart(f: FieldTpl): seq<Stmt> {
    if f.isEnum then [DeclareValid(f.name, Lits(f.kind, f.enums)), IfReturn(NotValid, f.enumError)] else []
  }

  function MaxPart(f: FieldTpl): seq<Stmt> {
    if f.isMax then [IfReturn(AtLeast(f.name, f.max), f.paramName + Len(f.kind) + "must be <= " + f.max)] else []
  }

  function MinPart(f: FieldTpl): seq<Stmt> {
    if f.isMin then [IfReturn(Below(f.name, f.min), f.paramName + Len(f.kind) + "must be >= " + f.min)] else []
  }

  function Emit(f: FieldTpl): seq<Stmt> {
    ReadPart(f) + DefaultPart(f) + RequiredPart(f) + EnumPart(f) + MaxPart(f) + MinPart(f)
  }

  function EmitAll(fs: seq<FieldTpl>): seq<Stmt> {
    if fs == [] then [] else Emit(fs[0]) + EmitAll(fs[1..])
  }

  /* What the clauses mean, said without templates: of several clauses of one kind the last counts. */
  datatype Spec = Spec(name: string, kind: Kind, clauses: seq<Clause>)

  function Rank(c: Clause): nat {
    match c
    case ParamName(_) => 0 case Default(_) => 1 case Required => 2
    case Enum(_) => 3 case Max(_) => 4 case Min(_) => 5 case Other(_) => 6
  }

  function Last(cs: seq<Clause>, rank: nat): Option<Clause>
    decreases |cs|
  {
    if cs == [] then None
    else if Rank(cs[|cs| - 1]) == rank then Some(cs[|cs| - 1])
    else Last(cs[..|cs| - 1], rank)
  }

  function Param(name: string, cs: seq<Clause>, lower: string -> string): string {
    match Last(cs, 0) case Some(ParamName(p)) => p case _ => lower(name)
  }

  function ParamOf(lower: string -> string, s: Spec): string { Param(s.name, s.clauses, lower) }

  // The parameter name the error of the enum clause speaks of: the one known when it was read.
  function EnumParam(name: string, cs: seq<Clause>, lower: string -> string): string
    decreases |cs|
  {
    if cs == [] then lower(name)
    else if cs[|cs| - 1].Enum? then Param(name, cs, lower)
    else EnumParam(name, cs[..|cs| - 1], lower)
  }

  datatype Verdict = Fail(msg: string) | Pass(v: Val)

  function ZeroVal(kind: Kind): Val { if kind.IntField? then VInt(0) else VStr("") }

  function Plain(go: Go, kind: Kind, text: string): Val {
    if kind.IntField? then VInt(Bound(go, text)) else VStr(text)
  }

  // Parse, default, required, enum, max, min -- in this order, the first failure counts. A parameter
  // that is missing reads as empty.
  function Check(go: Go, lower: string -> string, form: Form, s: Spec): Verdict {
    var p := ParamOf(lower, s);
    match Parse(go, s.kind, if p in form then form[p] else "")
    case None => Fail(p + " must be int")
    case Some(raw) => CheckValue(go, lower, s, p, raw)
  }

  function Parse(go: Go, kind: Kind, text: string): Option<Val> {
    if kind.StringField? then Some(VStr(text))
    else match go.atoi(text) case Some(n) => Some(VInt(n)) case None => None
  }

  function WithDefaultValue(go: Go, s: Spec, raw: Val): Val {
    match Last(s.clauses, 1)
    case Some(Default(d)) => if raw == ZeroVal(s.kind) then Plain(go, s.kind, d) else raw
    case _ => raw
  }

  function CheckValue(go: Go, lower: string -> string, s: Spec, p: string, raw: Val): Verdict {
    var cs := s.clauses;
    var v := WithDefaultValue(go, s, raw);
    if Last(cs, 2).Some? && v == ZeroVal(s.kind) then Fail(p + " must me not empty")
    else if !InEnum(go, s.kind, Last(cs, 3), v) then
      Fail(EnumParam(s.name, cs, lower) + " must be one of [" + Text.Join(Last(cs, 3).value.options, ", ") + "]")
    else match Last(cs, 4)
      case Some(Max(m)) =>
        var size := match v case VInt(n) => n case VStr(t) => |t|;
        if Bound(go, m) <= size then Fail(p + (if s.kind.IntField? then " " else " len ") + "must be <= " + m)
        else CheckMin(go, s, p, v)
      case _ => CheckMin(go, s, p, v)
  }

  predicate InEnum(go: Go, kind: Kind, e: Option<Clause>, v: Val)
    ensures !InEnum(go, kind, e, v) ==> e.Some? && e.value.Enum?
  {
    match e
    case Some(Enum(options)) => exists i :: 0 <= i < |options| && v == Plain(go, kind, options[i])
    case _ => true
  }

  function CheckMin(go: Go, s: Spec, p: string, v: Val): Verdict {
    match Last(s.clauses, 5)
    case Some(Min(m)) =>
      var size := match v case VInt(n) => n case VStr(t) => |t|;
      if Bound(go, m) > size then Fail(p + (if s.kind.IntField? then " " else " len ") + "must be >= " + m)
      else Pass(v)
    case _ => Pass(v)
  }

  datatype Answer = Refused(msg: string) | Accepted(params: map<string, Val>)

  function CheckAll(go: Go, lower: string -> string, form: Form, specs: seq<Spec>, params: map<string, Val>): Answer
    decreases |specs|
  {
    if specs == [] then Accepted(params)
    else match Check(go, lower, form, specs[0])
      case Fail(msg) => Refused(msg)
      case Pass(v) => CheckAll(go, lower, form, specs[1..], params[specs[0].name := v])
  }

  // A field as the generator finds it: the tag is any text.
  datatype Tagged = Tagged(name: string, kind: Kind, tag: string)

  function TaggedTemplate(lower: string -> string, f: Tagged): FieldTpl {
    StepValues(NewTpl(f.name, f.kind, lower), Split(f.tag, ','))
  }

  function TaggedTemplates(lower: string -> string, fs: seq<Tagged>): (r: seq<FieldTpl>)
    ensures |r| == |fs| && forall i :: 0 <= i < |fs| ==> r[i] == TaggedTemplate(lower, fs[i])
  {
    seq(|fs|, i requires 0 <= i < |fs| => TaggedTemplate(lower, fs[i]))
  }

  // The generator reads the tag of each field in turn.
  method ReadTags(lower: string -> string, tagged: seq<Tagged>) returns (fields: seq<FieldTpl>)
    ensures fields == TaggedTemplates(lower, tagged)
  {
    fields := [];
    for i := 0 to |tagged|
      invariant |fields| == i && forall k :: 0 <= k < i ==> fields[k] == TaggedTemplate(lower, tagged[k])
    {
      var f := ParseTag(tagged[i].name, tagged[i].kind, lower, tagged[i].tag);
      fields := fields + [f];
    }
  }

  // Then it appends what the template makes of each.
  method Generate(lower: string -> string, tagged: seq<Tagged>) returns (prog: seq<Stmt>)
    ensures prog == EmitAll(TaggedTemplates(lower, tagged))
  {
    var fields := ReadTags(lower, tagged);
    prog := [];
    for i := 0 to |fields|
      invariant prog == EmitAll(fields[..i])
    {
      prog := prog + Emit(fields[i]);
      assert fields[..i + 1] == fields[..i] + [fields[i]];
      EmitAllSnoc(fields[..i], fields[i]);
    }
    assert fields[..|fields|] == fields;
  }

  lemma {:induction false} EmitAllSnoc(fs: seq<FieldTpl>, f: FieldTpl)
    ensures EmitAll(fs + [f]) == EmitAll(fs) + Emit(f)
  {
    if fs == [] {
      assert fs + [f] == [f] && [f][1..] == [];
      assert EmitAll([f]) == Emit(f) + [];
    } else {
      assert (fs + [f])[1..] == fs[1..] + [f];
      EmitAllSnoc(fs[1..], f);
    }
  }

  function Template(lower: string -> string, s: Spec): FieldTpl {
    Fold(NewTpl(s.name, s.kind, lower), s.clauses)
  }

  function Templates(lower: string -> string, specs: seq<Spec>): (r: seq<FieldTpl>)
    ensures |r| == |specs| && forall i :: 0 <= i < |specs| ==> r[i] == Template(lower, specs[i])
  {
    seq(|specs|, i requires 0 <= i < |specs| => Template(lower, specs[i]))
  }

  // The fields as their author writes them down.
  function Write(specs: seq<Spec>): (r: seq<Tagged>)
    ensures |r| == |specs|
    ensures forall i :: 0 <= i < |specs| ==>
              r[i] == Tagged(specs[i].name, specs[i].kind, Text.Join(Texts(specs[i].clauses), ","))
  {
    seq(|specs|, i requires 0 <= i < |specs| =>
      Tagged(specs[i].name, specs[i].kind, Text.Join(Texts(specs[i].clauses), ",")))
  }

  /** Written down, well-formed clauses reach the templates as they were meant. */
  lemma WrittenTemplates(lower: string -> string, specs: seq<Spec>)
    requires forall i :: 0 <= i < |specs| ==> AllWellFormed(specs[i].clauses)
    ensures TaggedTemplates(lower, Write(specs)) == Templates(lower, specs)
  {
    forall i | 0 <= i < |specs| ensures TaggedTemplate(lower, Write(specs)[i]) == Template(lower, specs[i]) {
      TagRecognised(specs[i].name, specs[i].kind, lower, specs[i].clauses);
    }
  }
}
