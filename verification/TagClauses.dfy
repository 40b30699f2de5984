/** The first half of HW/hw5_codegen/handlers_gen/codegen.go: from the apivalidator tag of a field to
    the template data of that field. Clauses are recognised by unanchored regular expressions. */
module TagClauses {
  import opened Text

  datatype Option<T> = None | Some(value: T)

  datatype Kind = IntField | StringField

  // A clause as its author means it.
  datatype Clause =
    | ParamName(text: string) | Default(text: string) | Required
    | Enum(options: seq<string>) | Max(text: string) | Min(text: string) | Other(text: string)

  const REQUIRED := "required"
  const MIN := "min="
  const MAX := "max="
  const PARAM_NAME := "paramname="
  const DEFAULT := "default="
  const ENUM := "enum="

  // The submatch of key(.+): what follows the leftmost occurrence that something follows.
  function Find(key: string, s: string): Option<string>
    decreases |s|
  {
    if |s| <= |key| then None
    else if key <= s then Some(s[|key|..])
    else Find(key, s[1..])
  }

  function Split(s: string, sep: char): (r: seq<string>)
    ensures r != []
    decreases |s|
  {
    if s == "" then [""]
    else if s[0] == sep then [""] + Split(s[1..], sep)
    else var rest := Split(s[1..], sep); [[s[0]] + rest[0]] + rest[1..]
  }

  // fieldTpl. Quoting is left to the template: `defaultValue` and `enums` are the bare texts.
  datatype FieldTpl = FieldTpl(
    name: string, kind: Kind, paramName: string, required: bool,
    isEnum: bool, enums: seq<string>, enumError: string,
    isDefault: bool, defaultValue: string, isMax: bool, max: string, isMin: bool, min: string)

  function EnumError(param: string, options: seq<string>): string {
    param + " must be one of [" + Join(options, ", ") + "]"
  }

  // strings.ToLower is a parameter.
  function NewTpl(name: string, kind: Kind, lower: string -> string): FieldTpl {
    FieldTpl(name, kind, lower(name), false, false, [], "", false, "", false, "", false, "")
  }

  // The six tests of one turn of the loop over tagValues, each with what it changes.
  function WithParamName(t: FieldTpl, p: Option<string>): FieldTpl {
    if p.Some? then t.(paramName := p.value) else t
  }

  function WithDefault(t: FieldTpl, d: Option<string>): FieldTpl {
    if d.Some? then t.(isDefault := true, defaultValue := d.value) else t
  }

  function WithRequired(t: FieldTpl, r: bool): FieldTpl { if r then t.(required := true) else t }

  function WithEnum(t: FieldTpl, e: Option<string>): FieldTpl {
    if e.Some? then
      t.(isEnum := true, enums := Split(e.value, '|'), enumError := EnumError(t.paramName, Split(e.value, '|')))
    else t
  }

  function WithMax(t: FieldTpl, m: Option<string>): FieldTpl {
    if m.Some? then t.(isMax := true, max := m.value) else t
  }

  function WithMin(t: FieldTpl, m: Option<string>): FieldTpl {
    if m.Some? then t.(isMin := true, min := m.value) else t
  }

  function StepValue(t: FieldTpl, value: string): FieldTpl {
    var t := WithParamName(t, Find(PARAM_NAME, value));
    var t := WithDefault(t, Find(DEFAULT, value));
    var t := WithRequired(t, Occurs(REQUIRED, value));
    var t := WithEnum(t, Find(ENUM, value));
    var t := WithMax(t, Find(MAX, value));
    WithMin(t, Find(MIN, value))
  }

  function StepValues(t: FieldTpl, values: seq<string>): FieldTpl
    decreases |values|
  {
    if values == [] then t else StepValues(StepValue(t, values[0]), values[1..])
  }

  lemma {:induction false} StepValuesSnoc(t: FieldTpl, values: seq<string>, v: string)
    ensures StepValues(t, values + [v]) == StepValue(StepValues(t, values), v)
    decreases |values|
  {
    if values == [] {
      assert values + [v] == [v] && [v][1..] == [];
    } else {
      assert (values + [v])[1..] == values[1..] + [v];
      StepValuesSnoc(StepValue(t, values[0]), values[1..], v);
    }
  }

  // The body of the loop over tagValues.
  method ReadClause(t: FieldTpl, value: string) returns (f: FieldTpl)
    ensures f == StepValue(t, value)
  {
    f := t;
    var paramArray := Find(PARAM_NAME, value);
    if paramArray.Some? { f := f.(paramName := paramArray.value); }
    ghost var t1 := WithParamName(t, paramArray);
    assert f == t1;
    var defaultArray := Find(DEFAULT, value);
    if defaultArray.Some? { f := f.(isDefault := true, defaultValue := defaultArray.value); }
    ghost var t2 := WithDefault(t1, defaultArray);
    assert f == t2;
    var required := Occurs(REQUIRED, value);
    if required { f := f.(required := true); }
    ghost var t3 := WithRequired(t2, required);
    assert f == t3;
    var enumArray := Find(ENUM, value);
    if enumArray.Some? {
      var options := Split(enumArray.value, '|');
      f := f.(isEnum := true, enums := options, enumError := EnumError(f.paramName, options));
    }
    ghost var t4 := WithEnum(t3, enumArray);
    assert f == t4;
    var maxArray := Find(MAX, value);
    if maxArray.Some? { f := f.(isMax := true, max := maxArray.value); }
    ghost var t5 := WithMax(t4, maxArray);
    assert f == t5;
    var minArray := Find(MIN, value);
    if minArray.Some? { f := f.(isMin := true, min := minArray.value); }
    assert f == WithMin(t5, minArray);
  }

  method ParseTag(name: string, kind: Kind, lower: string -> string, tagValue: string) returns (f: FieldTpl)
    ensures f == StepValues(NewTpl(name, kind, lower), Split(tagValue, ','))
  {
    f := NewTpl(name, kind, lower);
    var values := Split(tagValue, ',');
    for i := 0 to |values|
      invariant f == StepValues(NewTpl(name, kind, lower), values[..i])
    {
      f := ReadClause(f, values[i]);
      assert values[..i + 1] == values[..i] + [values[i]];
      StepValuesSnoc(NewTpl(name, kind, lower), values[..i], values[i]);
    }
    assert values[..|values|] == values;
  }

  // How a clause is written, and what the loop is meant to do with it.
  function Written(c: Clause): string {
    match c
    case ParamName(t) => "paramname=" + t
    case Default(t) => "default=" + t
    case Required => "required"
    case Enum(options) => "enum=" + Join(options, "|")
    case Max(t) => "max=" + t
    case Min(t) => "min=" + t
    case Other(t) => t
  }

  function StepClause(t: FieldTpl, c: Clause): FieldTpl {
    match c
    case ParamName(p) => t.(paramName := p)
    case Default(d) => t.(isDefault := true, defaultValue := d)
    case Required => t.(required := true)
    case Enum(options) => t.(isEnum := true, enums := options, enumError := EnumError(t.paramName, options))
    case Max(m) => t.(isMax := true, max := m)
    case Min(m) => t.(isMin := true, min := m)
    case Other(_) => t
  }

  predicate NoKeyword(s: string) {
    && !Occurs(REQUIRED, s) && !Occurs(MIN, s) && !Occurs(MAX, s)
    && !Occurs(PARAM_NAME, s) && !Occurs(DEFAULT, s) && !Occurs(ENUM, s)
  }

  // A payload is not empty, contains no clause keyword, and no separator.
  predicate WellFormed(c: Clause) {
    match c
    case Required => true
    case Other(t) => NoKeyword(t) && ',' !in t
    case Enum(options) =>
      && options != []
      && (forall o :: o in options ==> '|' !in o)
      && Join(options, "|") != "" && NoKeyword(Join(options, "|")) && ',' !in Join(options, "|")
    case _ => c.text != "" && NoKeyword(c.text) && ',' !in c.text
  }
}
