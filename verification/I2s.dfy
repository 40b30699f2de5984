/** HW/hw8_i2s: filling a typed value from untyped JSON data, by recursion over both.

    A type refers to the element type of a slice by name, so that a structure can contain slices of
    itself. A JSON number is the real value of the float64 it was read into. */
module I2s {
  datatype Json =
    | Null | Num(r: real) | Str(s: string) | Bool(b: bool)
    | Object(members: map<string, Json>) | Array(elems: seq<Json>)

  datatype Type =
    | IntT(defined: bool) // int, or a type defined over it: the switch goes by the kind
    | StringT | BoolT | StructT(fields: seq<Field>) | SliceT(elem: string)
    | OtherT(zero: Json) // any kind the switch does not name, with the JSON of its zero value

  // The json tag of a field: "-", or a key, empty for the name of the field, and perhaps omitempty.
  datatype Tag = Hidden | Tag(key: string, omitEmpty: bool)

  datatype Field = Field(name: string, typ: Type, exported: bool, tag: Tag)

  type Env = map<string, Type>

  // Of a value of another kind only the JSON that Marshal makes of it is known, and whether omitempty
  // drops it.
  datatype Value =
    | IntV(n: int) | StringV(s: string) | BoolV(b: bool) | StructV(fields: seq<Value>)
    | SliceV(elems: seq<Value>) | NilSlice | OtherV(image: Json, empty: bool)

  function Elem(env: Env, name: string): Type { if name in env then env[name] else OtherT(Null) }

  predicate HasType(env: Env, t: Type, v: Value)
    decreases v
  {
    match t
    case IntT(_) => v.IntV?
    case StringT => v.StringV?
    case BoolT => v.BoolV?
    case StructT(fields) =>
      v.StructV? && |v.fields| == |fields| && forall i :: 0 <= i < |fields| ==> HasType(env, fields[i].typ, v.fields[i])
    case SliceT(elem) =>
      v.NilSlice? || (v.SliceV? && forall i :: 0 <= i < |v.elems| ==> HasType(env, Elem(env, elem), v.elems[i]))
    case OtherT(_) => v.OtherV?
  }

  // What reflect.MakeSlice puts into every element.
  function Zero(t: Type): Value {
    match t
    case IntT(_) => IntV(0)
    case StringT => StringV("")
    case BoolT => BoolV(false)
    case StructT(fields) => StructV(seq(|fields|, i requires 0 <= i < |fields| => Zero(fields[i].typ)))
    case SliceT(_) => NilSlice
    case OtherT(image) => OtherV(image, true)
  }

  lemma {:induction false} ZeroHasType(env: Env, t: Type)
    ensures HasType(env, t, Zero(t))
  {
    if t.StructT? {
      forall i | 0 <= i < |t.fields| ensures HasType(env, t.fields[i].typ, Zero(t.fields[i].typ)) {
        ZeroHasType(env, t.fields[i].typ);
      }
    }
  }

  // The conversion from float64 to int.
  function Trunc(r: real): int { if r >= 0.0 then r.Floor else -(-r).Floor }

  // A map lookup in Go: nil when the key is missing.
  function Lookup(members: map<string, Json>, name: string): Json {
    if name in members then members[name] else Null
  }

  predicate Fits(t: Type, v: Value) {
    t.StructT? ==> v.StructV? && |v.fields| == |t.fields|
  }

  // nil, an error, or a panic of package reflect.
  datatype Outcome = Filled | Refused | Panicked

  // What reflect.Value.Set and its like take: Set a value of the very type of the field, and none of
  // them an unexported field.
  predicate Settable(f: Field) { f.exported && !(f.typ.IntT? && f.typ.defined) }

  // i2s as a function: what it leaves in `out`, and how it ends.
  function Decode(env: Env, t: Type, data: Json, out: Value): (Value, Outcome)
    decreases !data.Null?, data, 2, 0
  {
    match t
    case StructT(fields) =>
      if !data.Object? || !Fits(t, out) then (out, Refused)
      else var (vals, o) := DecodeFields(env, fields, data, 0, out.fields); (StructV(vals), o)
    case SliceT(elem) =>
      if !data.Array? then (out, Refused)
      else
        var zeros := seq(|data.elems|, _ => Zero(Elem(env, elem)));
        var (vals, o) := DecodeElems(env, Elem(env, elem), data, 0, zeros); (SliceV(vals), o)
    case _ => (out, Refused)
  }

  // An assignment by reflection.
  function Assign(f: Field, v: Value, old_: Value): (Value, Outcome) {
    if Settable(f) then (v, Filled) else (old_, Panicked)
  }

  // The inner switch, on the kind of one field. Addr().Interface() of an unexported field panics.
  function DecodeField(env: Env, f: Field, val: Json, old_: Value): (Value, Outcome)
    decreases !val.Null?, val, 3, 0
  {
    match f.typ
    case IntT(_) => if val.Num? then Assign(f, IntV(Trunc(val.r)), old_) else (old_, Refused)
    case StringT => if val.Str? then Assign(f, StringV(val.s), old_) else (old_, Refused)
    case BoolT => if val.Bool? then Assign(f, BoolV(val.b), old_) else (old_, Refused)
    case OtherT(_) => (old_, Refused)
    case _ => if f.exported then Decode(env, f.typ, val, old_) else (old_, Panicked)
  }

  function DecodeFields(env: Env, fields: seq<Field>, data: Json, i: nat, vals: seq<Value>): (r: (seq<Value>, Outcome))
    requires data.Object? && i <= |fields| == |vals|
    ensures |r.0| == |vals|
    decreases !data.Null?, data, 1, |fields| - i
  {
    if i == |fields| then (vals, Filled)
    else
      var (v, o) := DecodeField(env, fields[i], Lookup(data.members, fields[i].name), vals[i]);
      if o.Filled? then DecodeFields(env, fields, data, i + 1, vals[i := v]) else (vals[i := v], o)
  }

  function DecodeElems(env: Env, t: Type, data: Json, i: nat, vals: seq<Value>): (r: (seq<Value>, Outcome))
    requires data.Array? && i <= |data.elems| == |vals|
    ensures |r.0| == |vals|
    decreases !data.Null?, data, 1, |vals| - i
  {
    if i == |vals| then (vals, Filled)
    else
      var (v, o) := Decode(env, t, data.elems[i], vals[i]);
      if o.Filled? then DecodeElems(env, t, data, i + 1, vals[i := v]) else (vals[i := v], o)
  }

  /* The program itself. `out` is written in place; here the written value is returned. */
  method Fill(env: Env, t: Type, data: Json, out: Value) returns (res: Value, o: Outcome)
    requires Fits(t, out)
    ensures (res, o) == Decode(env, t, data, out)
    decreases !data.Null?, data, 2, 0
  {
    res, o := out, Filled;
    match t
    case StructT(fields) =>
      if !data.Object? { return res, Refused; }
      var vals := out.fields;
      for i := 0 to |fields|
        invariant |vals| == |fields|
        invariant DecodeFields(env, fields, data, i, vals) == DecodeFields(env, fields, data, 0, out.fields)
      {
        var v, fieldEnd := FillField(env, fields[i], Lookup(data.members, fields[i].name), vals[i]);
        vals := vals[i := v];
        if !fieldEnd.Filled? { return StructV(vals), fieldEnd; }
      }
      res := StructV(vals);
    case SliceT(elem) =>
      if !data.Array? { return res, Refused; }
      var elemType := Elem(env, elem);
      ghost var zeros := seq(|data.elems|, _ => Zero(elemType));
      var vals := seq(|data.elems|, _ => Zero(elemType));
      for i := 0 to |data.elems|
        invariant |vals| == |data.elems|
        invariant forall k :: i <= k < |vals| ==> vals[k] == Zero(elemType)
        invariant DecodeElems(env, elemType, data, i, vals) == DecodeElems(env, elemType, data, 0, zeros)
      {
        var v, elemEnd := Fill(env, elemType, data.elems[i], vals[i]);
        vals := vals[i := v];
        if !elemEnd.Filled? { return SliceV(vals), elemEnd; }
      }
      res := SliceV(vals);
    case _ => o := Refused;
  }

  method FillField(env: Env, f: Field, val: Json, old_: Value) returns (res: Value, o: Outcome)
    ensures (res, o) == DecodeField(env, f, val, old_)
    decreases !val.Null?, val, 3, 0
  {
    res, o := old_, Refused;
    match f.typ
    case IntT(_) =>
      if val.Num? {
        if !Settable(f) { return res, Panicked; }
        res, o := IntV(Trunc(val.r)), Filled;
      }
    case StringT =>
      if val.Str? {
        if !Settable(f) { return res, Panicked; }
        res, o := StringV(val.s), Filled;
      }
    case BoolT =>
      if val.Bool? {
        if !Settable(f) { return res, Panicked; }
        res, o := BoolV(val.b), Filled;
      }
    case OtherT(_) =>
    case _ =>
      if !f.exported {
        o := Panicked;
      } else if Fits(f.typ, old_) {
        res, o := Fill(env, f.typ, val, old_);
      }
  }
}
