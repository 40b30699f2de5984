/** When i2s succeeds, refuses or panics, what it writes in each case, and that it undoes json.Marshal. */
module I2sProofs {
  import opened Binary64
  import opened I2s

  predicate Scalar(t: Type) { !t.StructT? && !t.SliceT? }

  // Data that fits the type. Members the structure does not have do not matter; a member that is
  // missing counts as null; the elements of a slice have to be structures or slices themselves.
  predicate Conforms(env: Env, t: Type, data: Json)
    decreases !data.Null?, data, 1
  {
    match t
    case StructT(fields) =>
      data.Object? &&
      forall i :: 0 <= i < |fields| ==> FieldConforms(env, fields[i].typ, Lookup(data.members, fields[i].name))
    case SliceT(elem) =>
      data.Array? && forall i :: 0 <= i < |data.elems| ==> Conforms(env, Elem(env, elem), data.elems[i])
    case _ => false
  }

  predicate FieldConforms(env: Env, t: Type, val: Json)
    decreases !val.Null?, val, 2
  {
    match t
    case IntT(_) => val.Num?
    case StringT => val.Str?
    case BoolT => val.Bool?
    case OtherT(_) => false
    case _ => Conforms(env, t, val)
  }

  // Every field that the data leads to can be set.
  predicate AllSettable(env: Env, t: Type, data: Json)
    decreases !data.Null?, data, 1
  {
    match t
    case StructT(fields) =>
      data.Object? ==>
        forall i :: 0 <= i < |fields| ==> FieldSettable(env, fields[i], Lookup(data.members, fields[i].name))
    case SliceT(elem) =>
      data.Array? ==> forall i :: 0 <= i < |data.elems| ==> AllSettable(env, Elem(env, elem), data.elems[i])
    case _ => true
  }

  predicate FieldSettable(env: Env, f: Field, val: Json)
    decreases !val.Null?, val, 2
  {
    Settable(f) && (!Scalar(f.typ) ==> AllSettable(env, f.typ, val))
  }

  predicate Fills(env: Env, t: Type, data: Json) { Conforms(env, t, data) && AllSettable(env, t, data) }

  predicate FieldFills(env: Env, f: Field, val: Json) { FieldConforms(env, f.typ, val) && FieldSettable(env, f, val) }

  predicate FieldsFill(env: Env, fields: seq<Field>, data: Json, lo: nat, hi: nat)
    requires data.Object? && hi <= |fields|
  {
    forall k :: lo <= k < hi ==> FieldFills(env, fields[k], Lookup(data.members, fields[k].name))
  }

  predicate ElemsFill(env: Env, t: Type, data: Json, lo: nat, hi: nat)
    requires data.Array? && hi <= |data.elems|
  {
    forall k :: lo <= k < hi ==> Fills(env, t, data.elems[k])
  }

  // The first part of the data that is not taken is one that fits but cannot be set, or belongs to an
  // unexported field with a structure or a slice, whatever the data has for it.
  predicate Panics(env: Env, t: Type, data: Json)
    decreases !data.Null?, data, 1
  {
    match t
    case StructT(fields) =>
      data.Object? &&
      exists k :: 0 <= k < |fields| && FirstField(env, fields, data, 0, k)
               && FieldPanics(env, fields[k], Lookup(data.members, fields[k].name))
    case SliceT(elem) =>
      data.Array? &&
      exists k :: 0 <= k < |data.elems| && FirstElem(env, Elem(env, elem), data, 0, k)
               && Panics(env, Elem(env, elem), data.elems[k])
    case _ => false
  }

  predicate FieldPanics(env: Env, f: Field, val: Json)
    decreases !val.Null?, val, 2
  {
    if Scalar(f.typ) then FieldConforms(env, f.typ, val) && !Settable(f)
    else !f.exported || Panics(env, f.typ, val)
  }

  // The first from lo on that is not taken.
  predicate FirstField(env: Env, fields: seq<Field>, data: Json, lo: nat, k: nat)
    requires data.Object? && k < |fields|
  {
    FieldsFill(env, fields, data, lo, k) && !FieldFills(env, fields[k], Lookup(data.members, fields[k].name))
  }

  predicate FirstElem(env: Env, t: Type, data: Json, lo: nat, k: nat)
    requires data.Array? && k < |data.elems|
  {
    ElemsFill(env, t, data, lo, k) && !Fills(env, t, data.elems[k])
  }

  predicate FieldsPanic(env: Env, fields: seq<Field>, data: Json, lo: nat)
    requires data.Object?
  {
    exists k :: lo <= k < |fields| && FirstField(env, fields, data, lo, k)
             && FieldPanics(env, fields[k], Lookup(data.members, fields[k].name))
  }

  predicate ElemsPanic(env: Env, t: Type, data: Json, lo: nat)
    requires data.Array?
  {
    exists k :: lo <= k < |data.elems| && FirstElem(env, t, data, lo, k) && Panics(env, t, data.elems[k])
  }

  predicate FieldsHaveType(env: Env, fields: seq<Field>, vals: seq<Value>) {
    |vals| == |fields| && forall k :: 0 <= k < |fields| ==> HasType(env, fields[k].typ, vals[k])
  }

  predicate ElemsHaveType(env: Env, t: Type, vals: seq<Value>) {
    forall k :: 0 <= k < |vals| ==> HasType(env, t, vals[k])
  }

  // The outcome that belongs to the two conditions.
  function Ending(fills: bool, panics: bool): Outcome {
    if fills then Filled else if panics then Panicked else Refused
  }

  /** i2s succeeds exactly on the data that conforms to the type and leads only to fields that can be
      set, and panics exactly when the first part it does not take is one that reflect cannot set, for
      data of any shape and types that contain themselves; whatever it does, the written value keeps
      its type. */
  lemma {:induction false} SucceedsIffConforms(env: Env, t: Type, data: Json, out: Value)
    requires HasType(env, t, out)
    ensures Decode(env, t, data, out).1 ==
            Ending(Conforms(env, t, data) && AllSettable(env, t, data), Panics(env, t, data))
    ensures HasType(env, t, Decode(env, t, data, out).0)
    decreases !data.Null?, data, 2, 0
  {
    if t.StructT? && data.Object? {
      FieldsSucceed(env, t.fields, data, 0, out.fields);
      assert Fills(env, t, data) <==> FieldsFill(env, t.fields, data, 0, |t.fields|);
      assert Panics(env, t, data) <==> FieldsPanic(env, t.fields, data, 0);
    } else if t.SliceT? && data.Array? {
      var e := Elem(env, t.elem);
      var zeros := seq(|data.elems|, _ => Zero(e));
      ZeroHasType(env, e);
      ElemsSucceed(env, e, data, 0, zeros);
      assert Fills(env, t, data) <==> ElemsFill(env, e, data, 0, |data.elems|);
      assert Panics(env, t, data) <==> ElemsPanic(env, e, data, 0);
    }
  }

  lemma {:induction false} FieldSucceeds(env: Env, f: Field, val: Json, old_: Value)
    requires HasType(env, f.typ, old_)
    ensures DecodeField(env, f, val, old_).1 == Ending(FieldFills(env, f, val), FieldPanics(env, f, val))
    ensures HasType(env, f.typ, DecodeField(env, f, val, old_).0)
    decreases !val.Null?, val, 3, 0
  {
    if !Scalar(f.typ) {
      SucceedsIffConforms(env, f.typ, val, old_);
    }
  }

  lemma {:induction false} FieldsSucceed(env: Env, fields: seq<Field>, data: Json, i: nat, vals: seq<Value>)
    requires data.Object? && i <= |fields| && FieldsHaveType(env, fields, vals)
    ensures DecodeFields(env, fields, data, i, vals).1
         == Ending(FieldsFill(env, fields, data, i, |fields|), FieldsPanic(env, fields, data, i))
    ensures FieldsHaveType(env, fields, DecodeFields(env, fields, data, i, vals).0)
    decreases !data.Null?, data, 1, |fields| - i
  {
    if i < |fields| {
      var val := Lookup(data.members, fields[i].name);
      FieldSucceeds(env, fields[i], val, vals[i]);
      PanicAtField(env, fields, data, i);
      var (v, o) := DecodeField(env, fields[i], val, vals[i]);
      if o.Filled? {
        FieldsSucceed(env, fields, data, i + 1, vals[i := v]);
      }
    }
  }

  // Which field is the first that is not taken, one step at a time.
  lemma PanicAtField(env: Env, fields: seq<Field>, data: Json, i: nat)
    requires data.Object? && i < |fields|
    ensures var val := Lookup(data.members, fields[i].name);
            FieldsPanic(env, fields, data, i) <==>
            if FieldFills(env, fields[i], val) then FieldsPanic(env, fields, data, i + 1)
            else FieldPanics(env, fields[i], val)
  {
    if !FieldFills(env, fields[i], Lookup(data.members, fields[i].name)) {
      assert FirstField(env, fields, data, i, i);
      assert forall k :: i < k < |fields| ==> !FirstField(env, fields, data, i, k);
    } else {
      forall k | i < k < |fields|
        ensures FirstField(env, fields, data, i, k) <==> FirstField(env, fields, data, i + 1, k)
      {
      }
    }
  }

  lemma PanicAtElem(env: Env, t: Type, data: Json, i: nat)
    requires data.Array? && i < |data.elems|
    ensures ElemsPanic(env, t, data, i) <==>
            if Fills(env, t, data.elems[i]) then ElemsPanic(env, t, data, i + 1) else Panics(env, t, data.elems[i])
  {
    if !Fills(env, t, data.elems[i]) {
      assert FirstElem(env, t, data, i, i);
      assert forall k :: i < k < |data.elems| ==> !FirstElem(env, t, data, i, k);
    } else {
      forall k | i < k < |data.elems|
        ensures FirstElem(env, t, data, i, k) <==> FirstElem(env, t, data, i + 1, k)
      {
      }
    }
  }

  lemma {:induction false} ElemsSucceed(env: Env, t: Type, data: Json, i: nat, vals: seq<Value>)
    requires data.Array? && i <= |data.elems| == |vals| && ElemsHaveType(env, t, vals)
    ensures DecodeElems(env, t, data, i, vals).1
         == Ending(ElemsFill(env, t, data, i, |vals|), ElemsPanic(env, t, data, i))
    ensures ElemsHaveType(env, t, DecodeElems(env, t, data, i, vals).0)
    decreases !data.Null?, data, 1, |vals| - i
  {
    if i < |vals| {
      SucceedsIffConforms(env, t, data.elems[i], vals[i]);
      PanicAtElem(env, t, data, i);
      var (v, o) := Decode(env, t, data.elems[i], vals[i]);
      if o.Filled? {
        ElemsSucceed(env, t, data, i + 1, vals[i := v]);
      }
    }
  }

  // Some field is not taken; the first of them.
  lemma FirstOf(env: Env, fields: seq<Field>, data: Json) returns (k: nat)
    requires data.Object? && !FieldsFill(env, fields, data, 0, |fields|)
    ensures k < |fields| && FirstField(env, fields, data, 0, k)
  {
    k := 0;
    while FieldFills(env, fields[k], Lookup(data.members, fields[k].name))
      invariant k < |fields| && FieldsFill(env, fields, data, 0, k)
      decreases |fields| - k
    {
      k := k + 1;
    }
  }

  lemma FirstElemOf(env: Env, t: Type, data: Json) returns (k: nat)
    requires data.Array? && !ElemsFill(env, t, data, 0, |data.elems|)
    ensures k < |data.elems| && FirstElem(env, t, data, 0, k)
  {
    k := 0;
    while Fills(env, t, data.elems[k])
      invariant k < |data.elems| && ElemsFill(env, t, data, 0, k)
      decreases |data.elems| - k
    {
      k := k + 1;
    }
  }

  /** So no data makes i2s panic where every field can be set; and data that conforms makes it panic
      exactly where one cannot. */
  lemma {:induction false} PanicsIffNotSettable(env: Env, t: Type, data: Json)
    ensures AllSettable(env, t, data) ==> !Panics(env, t, data)
    ensures Conforms(env, t, data) ==> (Panics(env, t, data) <==> !AllSettable(env, t, data))
    decreases !data.Null?, data, 1
  {
    if t.StructT? && data.Object? {
      forall k | 0 <= k < |t.fields|
        ensures var f, val := t.fields[k], Lookup(data.members, t.fields[k].name);
                && (FieldSettable(env, f, val) ==> !FieldPanics(env, f, val))
                && (FieldConforms(env, f.typ, val) && !FieldSettable(env, f, val) ==> FieldPanics(env, f, val))
      {
        FieldPanicsIffNotSettable(env, t.fields[k], Lookup(data.members, t.fields[k].name));
      }
      if Conforms(env, t, data) && !AllSettable(env, t, data) {
        var k := FirstOf(env, t.fields, data);
        assert FieldPanics(env, t.fields[k], Lookup(data.members, t.fields[k].name));
      }
    } else if t.SliceT? && data.Array? {
      var e := Elem(env, t.elem);
      forall k | 0 <= k < |data.elems|
        ensures AllSettable(env, e, data.elems[k]) ==> !Panics(env, e, data.elems[k])
        ensures Conforms(env, e, data.elems[k]) && !AllSettable(env, e, data.elems[k]) ==> Panics(env, e, data.elems[k])
      {
        PanicsIffNotSettable(env, e, data.elems[k]);
      }
      if Conforms(env, t, data) && !AllSettable(env, t, data) {
        var k := FirstElemOf(env, e, data);
        assert Panics(env, e, data.elems[k]);
      }
    }
  }

  lemma {:induction false} FieldPanicsIffNotSettable(env: Env, f: Field, val: Json)
    ensures FieldSettable(env, f, val) ==> !FieldPanics(env, f, val)
    ensures FieldConforms(env, f.typ, val) && !FieldSettable(env, f, val) ==> FieldPanics(env, f, val)
    decreases !val.Null?, val, 2
  {
    if !Scalar(f.typ) {
      PanicsIffNotSettable(env, f.typ, val);
    }
  }

  // A slice of scalars is accepted only when it is empty.
  lemma ScalarSlices(env: Env, elem: string, data: Json)
    requires Scalar(Elem(env, elem))
    ensures Conforms(env, SliceT(elem), data) <==> data == Array([])
  {
    if data.Array? && data.elems != [] {
      assert !Conforms(env, Elem(env, elem), data.elems[0]);
    }
  }

  lemma {:induction false} FieldsWritten(env: Env, fields: seq<Field>, data: Json, i: nat, vals: seq<Value>, k: nat)
    requires data.Object? && i <= |fields| && FieldsHaveType(env, fields, vals) && k < |fields|
    ensures DecodeFields(env, fields, data, i, vals).0[k] ==
            if i <= k && FieldsFill(env, fields, data, i, k)
            then DecodeField(env, fields[k], Lookup(data.members, fields[k].name), vals[k]).0
            else vals[k]
    decreases |fields| - i
  {
    if i < |fields| {
      var val := Lookup(data.members, fields[i].name);
      FieldSucceeds(env, fields[i], val, vals[i]);
      var (v, o) := DecodeField(env, fields[i], val, vals[i]);
      if o.Filled? {
        FieldsWritten(env, fields, data, i + 1, vals[i := v], k);
      }
    }
  }

  lemma {:induction false} ElemsWritten(env: Env, t: Type, data: Json, i: nat, vals: seq<Value>, k: nat)
    requires data.Array? && i <= |data.elems| == |vals| && ElemsHaveType(env, t, vals) && k < |vals|
    ensures DecodeElems(env, t, data, i, vals).0[k] ==
            if i <= k && ElemsFill(env, t, data, i, k) then Decode(env, t, data.elems[k], vals[k]).0 else vals[k]
    decreases |vals| - i
  {
    if i < |vals| {
      SucceedsIffConforms(env, t, data.elems[i], vals[i]);
      var (v, o) := Decode(env, t, data.elems[i], vals[i]);
      if o.Filled? {
        ElemsWritten(env, t, data, i + 1, vals[i := v], k);
      }
    }
  }

  /** What a structure holds afterwards, however i2s ends: a field is written exactly when all fields
      before it were taken. So everything behind the first that is not is as it was, and that one itself
      is as it was if it is a scalar. */
  lemma StructWrites(env: Env, fields: seq<Field>, data: Json, out: Value, k: nat)
    requires HasType(env, StructT(fields), out) && k < |fields|
    ensures var res := Decode(env, StructT(fields), data, out).0;
            var val := if data.Object? then Lookup(data.members, fields[k].name) else Null;
            && res.StructV? && |res.fields| == |fields|
            && res.fields[k] ==
               (if data.Object? && FieldsFill(env, fields, data, 0, k)
                then DecodeField(env, fields[k], val, out.fields[k]).0
                else out.fields[k])
            && (Scalar(fields[k].typ) && !FieldFills(env, fields[k], val) ==> res.fields[k] == out.fields[k])
  {
    if data.Object? {
      FieldsWritten(env, fields, data, 0, out.fields, k);
    }
  }

  // The zero value of Go, down to the last field.
  predicate IsZero(v: Value) {
    match v
    case IntV(n) => n == 0
    case StringV(s) => s == ""
    case BoolV(b) => !b
    case StructV(fields) => forall i :: 0 <= i < |fields| ==> IsZero(fields[i])
    case SliceV(_) => false
    case NilSlice => true
    case OtherV(_, empty) => empty
  }

  lemma {:induction false} ZeroIsZero(t: Type)
    ensures IsZero(Zero(t))
  {
    if t.StructT? {
      forall i | 0 <= i < |t.fields| ensures IsZero(Zero(t.fields[i].typ)) { ZeroIsZero(t.fields[i].typ); }
    }
  }

  // Data that is no array leaves a slice as it is, and data for anything but a structure or a slice what
  // it is for.
  lemma RefusedAtOnce(env: Env, t: Type, data: Json, out: Value)
    requires (t.SliceT? && !data.Array?) || (t.StructT? && !data.Object?) || Scalar(t)
    ensures Decode(env, t, data, out) == (out, Refused)
  {
  }

  /** The same for a slice: a new one of the length of the data, whose elements behind the first
      that is not taken are still zero. */
  lemma SliceWrites(env: Env, elem: string, data: Json, out: Value, k: nat)
    requires HasType(env, SliceT(elem), out) && data.Array? && k < |data.elems|
    ensures var res, e := Decode(env, SliceT(elem), data, out).0, Elem(env, elem);
            && res.SliceV? && |res.elems| == |data.elems|
            && res.elems[k] ==
               (if ElemsFill(env, e, data, 0, k) then Decode(env, e, data.elems[k], Zero(e)).0 else Zero(e))
            && (!ElemsFill(env, e, data, 0, k) || Scalar(e) ==> IsZero(res.elems[k]))
  {
    var e := Elem(env, elem);
    ZeroHasType(env, e);
    ZeroIsZero(e);
    ElemsWritten(env, e, data, 0, seq(|data.elems|, _ => Zero(e)), k);
  }

  // What int(x) of Go gives for a number: between it and 0, and less than 1 away from it.
  predicate IsIntegerPart(r: real, n: int) {
    if r >= 0.0 then 0 <= n && n as real <= r < n as real + 1.0
    else n <= 0 && n as real - 1.0 < r <= n as real
  }

  lemma TruncIsIntegerPart(r: real, n: int)
    ensures IsIntegerPart(r, n) <==> n == Trunc(r)
  {
    if r >= 0.0 {
      assert r.Floor as real <= r < r.Floor as real + 1.0;
    } else {
      assert (-r).Floor as real <= -r < (-r).Floor as real + 1.0;
    }
  }

  /* What the data says a value is, without regard to any order or to what was there before: every
     field that i2s fills has the value of the member with its name, every element that of its index. */
  predicate Reads(env: Env, t: Type, data: Json, v: Value)
    decreases !data.Null?, data, 1
  {
    match t
    case StructT(fields) =>
      data.Object? && v.StructV? && |v.fields| == |fields| &&
      forall i :: 0 <= i < |fields| ==> FieldReads(env, fields[i], Lookup(data.members, fields[i].name), v.fields[i])
    case SliceT(elem) =>
      data.Array? && v.SliceV? && |v.elems| == |data.elems| &&
      forall i :: 0 <= i < |data.elems| ==> Reads(env, Elem(env, elem), data.elems[i], v.elems[i])
    case _ => false
  }

  predicate FieldReads(env: Env, f: Field, val: Json, v: Value)
    decreases !val.Null?, val, 3
  {
    Settable(f) && TypeReads(env, f.typ, val, v)
  }

  predicate TypeReads(env: Env, t: Type, val: Json, v: Value)
    decreases !val.Null?, val, 2
  {
    match t
    case IntT(_) => val.Num? && v.IntV? && IsIntegerPart(val.r, v.n)
    case StringT => val.Str? && v == StringV(val.s)
    case BoolT => val.Bool? && v == BoolV(val.b)
    case OtherT(_) => false
    case _ => Reads(env, t, val, v)
  }

  /** i2s succeeds with a value exactly when that is what the data says: in particular nothing of the
      previous content is left. */
  lemma {:induction false} SuccessReads(env: Env, t: Type, data: Json, out: Value, v: Value)
    requires HasType(env, t, out)
    ensures Decode(env, t, data, out) == (v, Filled) <==> Reads(env, t, data, v)
    decreases !data.Null?, data, 2, 0
  {
    if t.StructT? && data.Object? {
      if v.StructV? && |v.fields| == |t.fields| {
        FieldsRead(env, t.fields, data, 0, out.fields, v.fields);
      }
    } else if t.SliceT? && data.Array? {
      var e := Elem(env, t.elem);
      ZeroHasType(env, e);
      if v.SliceV? && |v.elems| == |data.elems| {
        ElemsRead(env, e, data, 0, seq(|data.elems|, _ => Zero(e)), v.elems);
      }
    }
  }

  lemma SamePrefix(vals: seq<Value>, w: seq<Value>, i: nat, v: Value)
    requires i < |vals| == |w|
    ensures vals[i := v][..i + 1] == w[..i + 1] <==> vals[..i] == w[..i] && v == w[i]
  {
    assert vals[i := v][..i + 1] == vals[..i] + [v] && w[..i + 1] == w[..i] + [w[i]];
  }

  lemma IntIsRead(env: Env, f: Field, val: Json, old_: Value, v: Value)
    requires f.typ.IntT?
    ensures DecodeField(env, f, val, old_) == (v, Filled) <==> FieldReads(env, f, val, v)
  {
    if val.Num? && v.IntV? { TruncIsIntegerPart(val.r, v.n); }
  }

  lemma ScalarIsRead(env: Env, f: Field, val: Json, old_: Value, v: Value)
    requires Scalar(f.typ) && !f.typ.IntT?
    ensures DecodeField(env, f, val, old_) == (v, Filled) <==> FieldReads(env, f, val, v)
  {
  }

  lemma {:induction false} FieldIsRead(env: Env, f: Field, val: Json, old_: Value, v: Value)
    requires HasType(env, f.typ, old_)
    ensures DecodeField(env, f, val, old_) == (v, Filled) <==> FieldReads(env, f, val, v)
    decreases !val.Null?, val, 3, 0
  {
    if f.typ.IntT? {
      IntIsRead(env, f, val, old_, v);
    } else if !Scalar(f.typ) {
      SuccessReads(env, f.typ, val, old_, v);
    } else {
      ScalarIsRead(env, f, val, old_, v);
    }
  }

  lemma {:induction false} FieldsRead(env: Env, fields: seq<Field>, data: Json, i: nat, vals: seq<Value>,
                                      w: seq<Value>)
    requires data.Object? && i <= |fields| && FieldsHaveType(env, fields, vals) && |w| == |fields|
    ensures DecodeFields(env, fields, data, i, vals) == (w, Filled) <==>
            vals[..i] == w[..i] &&
            forall k :: i <= k < |fields| ==> FieldReads(env, fields[k], Lookup(data.members, fields[k].name), w[k])
    decreases !data.Null?, data, 1, |fields| - i
  {
    if i == |fields| {
      assert vals == vals[..i] && w == w[..i];
    } else {
      var val := Lookup(data.members, fields[i].name);
      var (v, o) := DecodeField(env, fields[i], val, vals[i]);
      FieldSucceeds(env, fields[i], val, vals[i]);
      FieldIsRead(env, fields[i], val, vals[i], w[i]);
      if o.Filled? {
        FieldsRead(env, fields, data, i + 1, vals[i := v], w);
        SamePrefix(vals, w, i, v);
      }
    }
  }

  lemma {:induction false} ElemsRead(env: Env, t: Type, data: Json, i: nat, vals: seq<Value>, w: seq<Value>)
    requires data.Array? && i <= |data.elems| == |vals| == |w| && ElemsHaveType(env, t, vals)
    ensures DecodeElems(env, t, data, i, vals) == (w, Filled) <==>
            vals[..i] == w[..i] && forall k :: i <= k < |vals| ==> Reads(env, t, data.elems[k], w[k])
    decreases !data.Null?, data, 1, |vals| - i
  {
    if i == |vals| {
      assert vals == vals[..i] && w == w[..i];
    } else {
      var (v, o) := Decode(env, t, data.elems[i], vals[i]);
      SucceedsIffConforms(env, t, data.elems[i], vals[i]);
      SuccessReads(env, t, data.elems[i], vals[i], w[i]);
      if o.Filled? {
        ElemsRead(env, t, data, i + 1, vals[i := v], w);
        SamePrefix(vals, w, i, v);
      }
    }
  }

  lemma SuccessOverwrites(env: Env, t: Type, data: Json, a: Value, b: Value)
    requires HasType(env, t, a) && HasType(env, t, b) && Fills(env, t, data)
    ensures Decode(env, t, data, a) == Decode(env, t, data, b)
  {
    SucceedsIffConforms(env, t, data, a);
    SuccessReads(env, t, data, a, Decode(env, t, data, a).0);
    SuccessReads(env, t, data, b, Decode(env, t, data, a).0);
  }

  // The key under which json.Marshal writes a field, and which fields it writes: the exported ones
  // without the tag "-"; of those with one key the only one that has it from its tag, and none if two
  // have; and of these those that omitempty does not drop.
  function Key(f: Field): string
    requires f.tag.Tag?
  {
    if f.tag.key == "" then f.name else f.tag.key
  }

  predicate Listed(f: Field) { f.exported && f.tag.Tag? }

  predicate Dominant(fields: seq<Field>, i: nat)
    requires i < |fields|
  {
    Listed(fields[i]) &&
    forall j :: 0 <= j < |fields| && j != i && Listed(fields[j]) && Key(fields[j]) == Key(fields[i]) ==>
      fields[i].tag.key != "" && fields[j].tag.key == ""
  }

  predicate Empty(v: Value) {
    match v
    case IntV(n) => n == 0
    case StringV(s) => s == ""
    case BoolV(b) => !b
    case StructV(_) => false
    case SliceV(elems) => elems == []
    case NilSlice => true
    case OtherV(_, empty) => empty
  }

  predicate Writes(fields: seq<Field>, vals: seq<Value>, i: nat)
    requires i < |fields| == |vals|
  {
    Dominant(fields, i) && !(fields[i].tag.omitEmpty && Empty(vals[i]))
  }

  // What json.Marshal and json.Unmarshal into an empty interface make of a value: an integer becomes
  // the float64 nearest to it.
  function Image(env: Env, t: Type, v: Value): Json
    requires HasType(env, t, v)
    decreases v, 1, 0
  {
    match v
    case IntV(n) => Num(Round(n) as real)
    case StringV(s) => Str(s)
    case BoolV(b) => Bool(b)
    case StructV(vals) => Object(Members(env, t.fields, v, 0))
    case SliceV(elems) =>
      Array(seq(|elems|, i requires 0 <= i < |elems| => Image(env, Elem(env, t.elem), elems[i])))
    case NilSlice => Null
    case OtherV(image, _) => image
  }

  function Members(env: Env, fields: seq<Field>, v: Value, i: nat): map<string, Json>
    requires HasType(env, StructT(fields), v) && i <= |fields|
    decreases v, 0, |fields| - i
  {
    if i == |fields| then map[]
    else
      var rest := Members(env, fields, v, i + 1);
      if Writes(fields, v.fields, i) then rest[Key(fields[i]) := Image(env, fields[i].typ, v.fields[i])] else rest
  }

  // No key is written for two fields.
  lemma KeysDiffer(fields: seq<Field>, i: nat, j: nat)
    requires i < |fields| && j < |fields| && i != j && Dominant(fields, i) && Dominant(fields, j)
    ensures Key(fields[i]) != Key(fields[j])
  {
  }

  // Field j is written under this name.
  predicate WrittenAs(fields: seq<Field>, vals: seq<Value>, j: nat, name: string)
    requires j < |fields| == |vals|
  {
    Writes(fields, vals, j) && Key(fields[j]) == name
  }

  lemma OneWriter(fields: seq<Field>, vals: seq<Value>, i: nat, j: nat)
    requires i < |fields| == |vals| && j < |fields| && Writes(fields, vals, i) && Writes(fields, vals, j)
    requires Key(fields[i]) == Key(fields[j])
    ensures i == j
  {
  }

  lemma {:induction false} MembersLookup(env: Env, fields: seq<Field>, v: Value, i: nat, name: string)
    requires HasType(env, StructT(fields), v) && i <= |fields|
    ensures forall j :: i <= j < |fields| && WrittenAs(fields, v.fields, j, name) ==>
              Lookup(Members(env, fields, v, i), name) == Image(env, fields[j].typ, v.fields[j])
    ensures (forall j :: i <= j < |fields| ==> !WrittenAs(fields, v.fields, j, name)) ==>
              Lookup(Members(env, fields, v, i), name) == Null
    decreases |fields| - i
  {
    if i < |fields| {
      MembersLookup(env, fields, v, i + 1, name);
      if WrittenAs(fields, v.fields, i, name) {
        forall j | i < j < |fields| ensures !WrittenAs(fields, v.fields, j, name) {
          if Dominant(fields, j) { KeysDiffer(fields, i, j); }
        }
      } else {
        assert Lookup(Members(env, fields, v, i), name) == Lookup(Members(env, fields, v, i + 1), name);
      }
    }
  }

  /* Two values, possibly of different types, of which the first is written as something that says the
     second: numbers up to rounding, texts and truth values of their own kind, structures field by field
     under the names they are written with, slices element by element. A value of a kind that is not
     looked into says what its image says. */
  predicate Says(env: Env, s: Type, u: Value, t: Type, v: Value)
    requires HasType(env, s, u)
    decreases u, 2
  {
    if u.OtherV? then TypeReads(env, t, u.image, v)
    else match t
      case IntT(_) => u.IntV? && v == IntV(Round(u.n))
      case StringT => u.StringV? && v == u
      case BoolT => u.BoolV? && v == u
      case StructT(fields) =>
        u.StructV? && v.StructV? && |v.fields| == |fields| &&
        forall k :: 0 <= k < |fields| ==> Settable(fields[k]) && FieldSays(env, s.fields, u, fields[k], v.fields[k])
      case SliceT(elem) =>
        var e := Elem(env, elem);
        u.SliceV? && v.SliceV? && |v.elems| == |u.elems| && (u.elems != [] ==> !Scalar(e)) &&
        forall i :: 0 <= i < |u.elems| ==> Says(env, Elem(env, s.elem), u.elems[i], e, v.elems[i])
      case OtherT(_) => false
  }

  // Some field is written under the name of f and says x.
  predicate FieldSays(env: Env, fields: seq<Field>, u: Value, f: Field, x: Value)
    requires HasType(env, StructT(fields), u)
    decreases u, 1
  {
    exists j :: 0 <= j < |fields| && WrittenAs(fields, u.fields, j, f.name)
             && Says(env, fields[j].typ, u.fields[j], f.typ, x)
  }

  lemma {:induction false} ImageSays(env: Env, s: Type, u: Value, t: Type, v: Value)
    requires HasType(env, s, u)
    ensures TypeReads(env, t, Image(env, s, u), v) <==> Says(env, s, u, t, v)
    decreases u, 2
  {
    if t.IntT? && u.IntV? {
      if v.IntV? { IntegerIsItsPart(Round(u.n), v.n); }
    } else if t.StructT? && u.StructV? && v.StructV? && |v.fields| == |t.fields| {
      forall k | 0 <= k < |t.fields|
        ensures FieldReads(env, t.fields[k], Lookup(Members(env, s.fields, u, 0), t.fields[k].name), v.fields[k])
           <==> Settable(t.fields[k]) && FieldSays(env, s.fields, u, t.fields[k], v.fields[k])
      {
        FieldImageSays(env, s.fields, u, t.fields[k], v.fields[k]);
      }
    } else if t.SliceT? && u.SliceV? && v.SliceV? && |v.elems| == |u.elems| {
      var d, e := Elem(env, s.elem), Elem(env, t.elem);
      forall i | 0 <= i < |u.elems|
        ensures !Scalar(e) ==>
                  (Reads(env, e, Image(env, d, u.elems[i]), v.elems[i]) <==> Says(env, d, u.elems[i], e, v.elems[i]))
      {
        ImageSays(env, d, u.elems[i], e, v.elems[i]);
      }
      if u.elems != [] && Scalar(e) {
        assert !Reads(env, e, Image(env, d, u.elems[0]), v.elems[0]);
      }
    }
  }

  lemma {:induction false} FieldImageSays(env: Env, fields: seq<Field>, u: Value, f: Field, x: Value)
    requires HasType(env, StructT(fields), u)
    ensures TypeReads(env, f.typ, Lookup(Members(env, fields, u, 0), f.name), x) <==> FieldSays(env, fields, u, f, x)
    decreases u, 1
  {
    MembersLookup(env, fields, u, 0, f.name);
    if j :| 0 <= j < |fields| && WrittenAs(fields, u.fields, j, f.name) {
      ImageSays(env, fields[j].typ, u.fields[j], f.typ, x);
      forall i | 0 <= i < |fields| && WrittenAs(fields, u.fields, i, f.name) ensures i == j {
        OneWriter(fields, u.fields, i, j);
      }
    } else {
      assert Lookup(Members(env, fields, u, 0), f.name) == Null;
    }
  }

  // The values that survive: built of structures and slices that are not nil, with scalars only as
  // fields of structures, and with integers of at most 53 significant bits; in structures whose fields
  // can be set, each of them written under its own name -- or another one under that name, whose value
  // says the same.
  ghost predicate Supported(env: Env, t: Type, v: Value)
    requires HasType(env, t, v)
    decreases v, 1
  {
    match t
    case StructT(fields) =>
      forall k :: 0 <= k < |fields| ==> Settable(fields[k]) && NamedSupported(env, fields, v, k)
    case SliceT(elem) =>
      v.SliceV? && forall i :: 0 <= i < |v.elems| ==> Supported(env, Elem(env, elem), v.elems[i])
    case _ => false
  }

  ghost predicate NamedSupported(env: Env, fields: seq<Field>, v: Value, k: nat)
    requires HasType(env, StructT(fields), v) && k < |fields|
    decreases v, 0
  {
    exists j :: 0 <= j < |fields| && WrittenAs(fields, v.fields, j, fields[k].name) &&
      if j == k then FieldSupported(env, fields[k].typ, v.fields[k])
      else Says(env, fields[j].typ, v.fields[j], fields[k].typ, v.fields[k])
  }

  ghost predicate FieldSupported(env: Env, t: Type, v: Value)
    requires HasType(env, t, v)
    decreases v, 2
  {
    if t.StructT? || t.SliceT? then Supported(env, t, v)
    else !t.OtherT? && (v.IntV? ==> Exact(v.n))
  }

  lemma IntegerIsItsPart(n: int, x: int)
    ensures IsIntegerPart(n as real, x) <==> x == n
  {
  }

  lemma {:induction false} ImageReads(env: Env, t: Type, v: Value)
    requires HasType(env, t, v)
    ensures Reads(env, t, Image(env, t, v), v) <==> Supported(env, t, v)
    decreases v, 1
  {
    if t.StructT? {
      forall k | 0 <= k < |t.fields|
        ensures FieldReads(env, t.fields[k], Lookup(Members(env, t.fields, v, 0), t.fields[k].name), v.fields[k])
           <==> Settable(t.fields[k]) && NamedSupported(env, t.fields, v, k)
      {
        NamedImageReads(env, t.fields, v, k);
      }
    } else if t.SliceT? && v.SliceV? {
      forall k | 0 <= k < |v.elems|
        ensures var e, w := Elem(env, t.elem), v.elems[k]; Reads(env, e, Image(env, e, w), w) <==> Supported(env, e, w)
      {
        ImageReads(env, Elem(env, t.elem), v.elems[k]);
      }
    }
  }

  lemma {:induction false} NamedImageReads(env: Env, fields: seq<Field>, v: Value, k: nat)
    requires HasType(env, StructT(fields), v) && k < |fields|
    ensures FieldReads(env, fields[k], Lookup(Members(env, fields, v, 0), fields[k].name), v.fields[k])
       <==> Settable(fields[k]) && NamedSupported(env, fields, v, k)
    decreases v, 0
  {
    var name := fields[k].name;
    MembersLookup(env, fields, v, 0, name);
    FieldImageReads(env, fields[k], v.fields[k]);
    if j :| 0 <= j < |fields| && WrittenAs(fields, v.fields, j, name) {
      ImageSays(env, fields[j].typ, v.fields[j], fields[k].typ, v.fields[k]);
      forall i | 0 <= i < |fields| && WrittenAs(fields, v.fields, i, name) ensures i == j {
        OneWriter(fields, v.fields, i, j);
      }
    } else {
      assert Lookup(Members(env, fields, v, 0), name) == Null;
    }
  }

  lemma {:induction false} FieldImageReads(env: Env, f: Field, v: Value)
    requires HasType(env, f.typ, v)
    ensures FieldReads(env, f, Image(env, f.typ, v), v) <==> Settable(f) && FieldSupported(env, f.typ, v)
    decreases v, 2
  {
    if f.typ.IntT? {
      IntegerIsItsPart(Round(v.n), v.n);
      RoundsToItselfIffExact(v.n);
    } else if !Scalar(f.typ) {
      ImageReads(env, f.typ, v);
    }
  }

  /** Round trip: i2s gives a value back from its image exactly when the value is supported. */
  lemma RoundTrip(env: Env, t: Type, v: Value, out: Value)
    requires HasType(env, t, v) && HasType(env, t, out)
    ensures Decode(env, t, Image(env, t, v), out) == (v, Filled) <==> Supported(env, t, v)
  {
    SuccessReads(env, t, Image(env, t, v), out, v);
    ImageReads(env, t, v);
  }

  // A structure as Go code mostly has it: exported fields of different names without tags.
  predicate Untagged(fields: seq<Field>) {
    && (forall i :: 0 <= i < |fields| ==> fields[i].exported && fields[i].tag == Tag("", false))
    && (forall i, j :: 0 <= i < j < |fields| ==> fields[i].name != fields[j].name)
  }

  // There the names do not matter.
  lemma UntaggedSupported(env: Env, fields: seq<Field>, v: Value)
    requires HasType(env, StructT(fields), v) && Untagged(fields)
    ensures Supported(env, StructT(fields), v) <==>
            forall k :: 0 <= k < |fields| ==> Settable(fields[k]) && FieldSupported(env, fields[k].typ, v.fields[k])
  {
    forall k | 0 <= k < |fields|
      ensures NamedSupported(env, fields, v, k) <==> FieldSupported(env, fields[k].typ, v.fields[k])
    {
      assert WrittenAs(fields, v.fields, k, fields[k].name);
      assert forall j :: 0 <= j < |fields| && j != k ==> !WrittenAs(fields, v.fields, j, fields[k].name);
    }
  }

  /** 2^53 + 1 is the first integer that does not survive: it comes back as 2^53, without an error. */
  lemma FirstLostInteger(env: Env, name: string, out: int)
    ensures var t := StructT([Field(name, IntT(false), true, Tag("", false))]);
            Decode(env, t, Image(env, t, StructV([IntV(SIGNIFICAND + 1)])), StructV([IntV(out)]))
            == (StructV([IntV(SIGNIFICAND)]), Filled)
  {
    var fields, v := [Field(name, IntT(false), true, Tag("", false))], StructV([IntV(SIGNIFICAND + 1)]);
    FirstInexact();
    IntegerIsItsPart(SIGNIFICAND, SIGNIFICAND);
    MembersLookup(env, fields, v, 0, name);
    assert WrittenAs(fields, v.fields, 0, name);
    assert FieldReads(env, fields[0], Lookup(Members(env, fields, v, 0), name), IntV(SIGNIFICAND));
    SuccessReads(env, StructT(fields), Image(env, StructT(fields), v), StructV([IntV(out)]),
                 StructV([IntV(SIGNIFICAND)]));
  }

  /** A field that its tag renames is looked for under its own name, and refused. */
  lemma RenamedIsRefused(env: Env, name: string, key: string, n: int, out: int)
    requires key != "" && key != name
    ensures var t := StructT([Field(name, IntT(false), true, Tag(key, false))]);
            Decode(env, t, Image(env, t, StructV([IntV(n)])), StructV([IntV(out)])) == (StructV([IntV(out)]), Refused)
  {
    var fields, v, old_ := [Field(name, IntT(false), true, Tag(key, false))], StructV([IntV(n)]), StructV([IntV(out)]);
    var t := StructT(fields);
    MembersLookup(env, fields, v, 0, name);
    SucceedsIffConforms(env, t, Image(env, t, v), old_);
    StructWrites(env, fields, Image(env, t, v), old_, 0);
    PanicsIffNotSettable(env, t, Image(env, t, v));
    assert Decode(env, t, Image(env, t, v), old_).0.fields == [IntV(out)];
  }
}
