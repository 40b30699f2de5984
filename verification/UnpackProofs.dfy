/** Generated code, reflection and packing agree. */
module UnpackProofs {
  import opened Text
  import opened Unpack

  lemma {:induction false} ExecConcat(a: seq<Stmt>, b: seq<Stmt>, data: seq<byte>, m: Machine)
    requires m.pos <= |data|
    ensures Exec(a + b, data, m) == Exec(b, data, Exec(a, data, m))
    decreases |a|
  {
    if a == [] {
      assert a + b == b;
    } else {
      assert (a + b)[1..] == a[1..] + b;
      ExecConcat(a[1..], b, data, Step(a[0], data, m));
    }
  }

  lemma ExecFirst(s: Stmt, rest: seq<Stmt>, data: seq<byte>, m: Machine)
    requires m.pos <= |data|
    ensures Exec([s] + rest, data, m) == Exec(rest, data, Step(s, data, m))
  {
    assert ([s] + rest)[1..] == rest;
  }

  // Declaring a number and reading it.
  lemma ExecVar(x: string, rest: seq<Stmt>, data: seq<byte>, m: Machine) returns (m': Machine)
    requires m.pos <= |data|
    ensures m'.pos == AfterRead(data, m.pos, 4) && m'.u == m.u && NumberIn(m', x) == ReadU32(data, m.pos)
    ensures Exec([Var(x), ReadVar(x)] + rest, data, m) == Exec(rest, data, m')
  {
    var m1 := Step(Var(x), data, m);
    m' := Step(ReadVar(x), data, m1);
    assert [Var(x), ReadVar(x)] + rest == [Var(x)] + ([ReadVar(x)] + rest);
    ExecFirst(Var(x), [ReadVar(x)] + rest, data, m);
    ExecFirst(ReadVar(x), rest, data, m1);
  }

  lemma ExecInt(f: string, data: seq<byte>, m: Machine)
    requires m.pos <= |data|
    ensures var m' := Exec(IntTpl(f), data, m);
            m'.u == m.u[f := VInt(ReadU32(data, m.pos))] && m'.pos == AfterRead(data, m.pos, 4)
  {
    var x := f + "Raw";
    assert IntTpl(f) == [Var(x), ReadVar(x)] + [SetInt(f, x)];
    var m1 := ExecVar(x, [SetInt(f, x)], data, m);
    assert [SetInt(f, x)] + [] == [SetInt(f, x)];
    ExecFirst(SetInt(f, x), [], data, m1);
  }

  // Making a slice of that length, reading into it and assigning it.
  lemma ExecSlice(f: string, l: string, x: string, data: seq<byte>, m: Machine)
    requires m.pos <= |data|
    ensures var m' := Exec([Make(x, l), ReadSlice(x), SetString(f, x)], data, m);
            var n := NumberIn(m, l);
            m'.u == m.u[f := VString(ReadBytes(data, m.pos, n))] && m'.pos == AfterRead(data, m.pos, n)
  {
    var m1 := Step(Make(x, l), data, m);
    var m2 := Step(ReadSlice(x), data, m1);
    var last := [SetString(f, x)];
    assert [Make(x, l), ReadSlice(x), SetString(f, x)] == [Make(x, l)] + ([ReadSlice(x)] + (last + []));
    ExecFirst(Make(x, l), [ReadSlice(x)] + (last + []), data, m);
    ExecFirst(ReadSlice(x), last + [], data, m1);
    ExecFirst(SetString(f, x), [], data, m2);
  }

  lemma ExecString(f: string, data: seq<byte>, m: Machine)
    requires m.pos <= |data|
    ensures var m' := Exec(StrTpl(f), data, m);
            var n, p := ReadU32(data, m.pos), AfterRead(data, m.pos, 4);
            m'.u == m.u[f := VString(ReadBytes(data, p, n))] && m'.pos == AfterRead(data, p, n)
  {
    var l, x := f + "LenRaw", f + "Raw";
    var rest := [Make(x, l), ReadSlice(x), SetString(f, x)];
    assert StrTpl(f) == [Var(l), ReadVar(l)] + rest;
    var m1 := ExecVar(l, rest, data, m);
    ExecSlice(f, l, x, data, m1);
  }

  // A field at which UnpackReflect ends, with the error or with a panic.
  predicate Stops(f: Field) {
    !f.unpackSkip && (f.kind.OtherK? || !f.exported || (f.kind.IntK? && f.spelling.Defined?))
  }

  predicate Unpackable(fields: seq<Field>) {
    forall i :: 0 <= i < |fields| ==> !Stops(fields[i])
  }

  predicate TagsAgree(fields: seq<Field>) {
    forall i :: 0 <= i < |fields| ==> fields[i].unpackSkip == (fields[i].cgenSkip || !fields[i].leads)
  }

  /** Generated equals reflective: for every list of supported fields that the same tags hide from both
      programs, none of the others being one that reflect cannot set, and for every input, a truncated
      one included, the generated statements leave the structure and the reader as UnpackReflect does. */
  lemma {:induction false} GeneratedEqualsReflect(fields: seq<Field>, data: seq<byte>, m: Machine)
    requires Supported(fields) && TagsAgree(fields) && Unpackable(fields) && m.pos <= |data|
    ensures var m' := Exec(Generated(fields), data, m);
            Reflect(fields, m.u, data, m.pos) == Result(m'.u, m'.pos, Done)
    decreases |fields|
  {
    if fields != [] {
      var f := fields[0];
      ExecConcat(Template(f), Generated(fields[1..]), data, m);
      if !Hidden(f) {
        assert !Stops(f);
        if f.kind.IntK? { ExecInt(f.name, data, m); } else { ExecString(f.name, data, m); }
      }
      GeneratedEqualsReflect(fields[1..], data, Exec(Template(f), data, m));
    }
  }

  // The same fields, exported, and with what hides them from the generator for both programs.
  function AsGenerated(fields: seq<Field>): (r: seq<Field>)
    ensures |r| == |fields|
    ensures forall i :: 0 <= i < |fields| ==> r[i] == fields[i].(exported := true, unpackSkip := Hidden(fields[i]))
  {
    seq(|fields|, i requires 0 <= i < |fields| => fields[i].(exported := true, unpackSkip := Hidden(fields[i])))
  }

  lemma {:induction false} SameCode(fields: seq<Field>)
    ensures Generated(AsGenerated(fields)) == Generated(fields)
  {
    if fields != [] {
      SameCode(fields[1..]);
      assert AsGenerated(fields)[1..] == AsGenerated(fields[1..]);
    }
  }

  // The value that comes out of an empty input.
  function Nothing(k: Kind): Val { if k.IntK? then VInt(0) else VString([]) }

  lemma {:induction false} EmptyInput(fields: seq<Field>, u: Struct, n: string)
    requires Unpackable(fields)
    ensures var r := Reflect(fields, u, [], 0);
            && r.ending.Done? && r.pos == 0
            && ((forall i :: 0 <= i < |fields| ==> fields[i].name != n || fields[i].unpackSkip) ==>
                  (n in r.u <==> n in u) && (n in u ==> r.u[n] == u[n]))
            && ((exists i :: 0 <= i < |fields| && fields[i].name == n && !fields[i].unpackSkip) ==> n in r.u)
            && (forall i :: 0 <= i < |fields| && fields[i].name == n && !fields[i].unpackSkip && DistinctFields(fields) ==>
                  r.u[n] == Nothing(fields[i].kind))
    decreases |fields|
  {
    if fields != [] {
      var f, rest := fields[0], fields[1..];
      assert forall i :: 0 < i < |fields| ==> fields[i] == rest[i - 1];
      EmptyInput(rest, if f.unpackSkip then u else u[f.name := Nothing(f.kind)], n);
    }
  }

  // A value that an empty input does not give.
  function Something(k: Kind): Val { if k.IntK? then VInt(1) else VString([0]) }

  // On this input the generated statements leave what UnpackReflect leaves, and that returns nil.
  predicate SameResult(fields: seq<Field>, data: seq<byte>, m: Machine)
    requires m.pos <= |data|
  {
    var m' := Exec(Generated(fields), data, m);
    Reflect(fields, m.u, data, m.pos) == Result(m'.u, m'.pos, Done)
  }

  /** The two programs agree exactly when every field is hidden from both of them or from neither, and
      every other one is exported: if not, they differ on the empty input already. */
  lemma AgreeIffTagsAgree(fields: seq<Field>)
    requires Supported(fields) && DistinctFields(fields)
    ensures (forall data: seq<byte>, m: Machine :: m.pos <= |data| ==> SameResult(fields, data, m))
            <==> TagsAgree(fields) && forall i :: 0 <= i < |fields| && !fields[i].unpackSkip ==> fields[i].exported
  {
    if TagsAgree(fields) && forall i :: 0 <= i < |fields| && !fields[i].unpackSkip ==> fields[i].exported {
      forall data: seq<byte>, m: Machine | m.pos <= |data| ensures SameResult(fields, data, m) {
        GeneratedEqualsReflect(fields, data, m);
      }
    } else {
      var i := DifferentField(fields);
      DifferOnEmptyInput(fields, i);
      assert !SameResult(fields, [], Machine(map[], map[fields[i].name := Something(fields[i].kind)], 0));
    }
  }

  // The two programs treat the field differently.
  predicate Differs(f: Field) { f.unpackSkip != (f.cgenSkip || !f.leads) || (!f.unpackSkip && !f.exported) }

  lemma DifferentField(fields: seq<Field>) returns (i: nat)
    requires !(TagsAgree(fields) && forall i :: 0 <= i < |fields| && !fields[i].unpackSkip ==> fields[i].exported)
    ensures i < |fields| && Differs(fields[i])
  {
    i :| 0 <= i < |fields| && Differs(fields[i]);
  }

  lemma {:induction false} DifferOnEmptyInput(fields: seq<Field>, i: nat)
    requires Supported(fields) && DistinctFields(fields) && i < |fields|
    requires Differs(fields[i])
    ensures !SameResult(fields, [], Machine(map[], map[fields[i].name := Something(fields[i].kind)], 0))
  {
    var m := Machine(map[], map[fields[i].name := Something(fields[i].kind)], 0);
    ReflectDone(fields, m.u, [], 0);
    if Unpackable(fields) {
      assert !Stops(fields[i]);
      SameCode(fields);
      GeneratedEqualsReflect(AsGenerated(fields), [], m);
      FieldAfterNothing(AsGenerated(fields), m.u, i);
      FieldAfterNothing(fields, m.u, i);
    }
  }

  // An empty input leaves a field as it was or empties it, depending on the tag.
  lemma {:induction false} FieldAfterNothing(fields: seq<Field>, u: Struct, i: nat)
    requires Unpackable(fields) && DistinctFields(fields) && i < |fields| && fields[i].name in u
    ensures var r, f := Reflect(fields, u, [], 0).u, fields[i];
            f.name in r && r[f.name] == if f.unpackSkip then u[f.name] else Nothing(f.kind)
  {
    EmptyInput(fields, u, fields[i].name);
    assert forall j :: 0 <= j < |fields| && j != i ==> fields[j].name != fields[i].name;
  }

  predicate FirstStop(fields: seq<Field>, i: nat) {
    i < |fields| && Stops(fields[i]) && forall j :: 0 <= j < i ==> !Stops(fields[j])
  }

  /** UnpackReflect returns nil exactly when every field it looks at has a type it supports and can be
      set. */
  lemma {:induction false} ReflectDone(fields: seq<Field>, u: Struct, data: seq<byte>, pos: nat)
    requires pos <= |data|
    ensures Reflect(fields, u, data, pos).ending.Done? <==> Unpackable(fields)
    decreases |fields|
  {
    if fields != [] {
      var f, rest := fields[0], fields[1..];
      assert Unpackable(fields) <==> !Stops(f) && Unpackable(rest) by {
        assert forall i :: 0 < i < |fields| ==> fields[i] == rest[i - 1];
      }
      if f.unpackSkip {
        ReflectDone(rest, u, data, pos);
      } else if f.kind.IntK? && Settable(f) {
        ReflectDone(rest, u[f.name := VInt(ReadU32(data, pos))], data, AfterRead(data, pos, 4));
      } else if f.kind.StringK? && Settable(f) {
        var n, p := ReadU32(data, pos), AfterRead(data, pos, 4);
        ReflectDone(rest, u[f.name := VString(ReadBytes(data, p, n))], data, AfterRead(data, p, n));
      }
    }
  }

  /** Otherwise, whatever the input, the first that has not decides: the error if its type is not
      supported, a panic if it cannot be set; the fields before it are filled, and nothing else is. */
  lemma {:induction false} ReflectStops(fields: seq<Field>, i: nat, u: Struct, data: seq<byte>, pos: nat)
    requires pos <= |data| && FirstStop(fields, i)
    ensures Reflect(fields, u, data, pos).ending == if fields[i].kind.OtherK? then BadType else Panicked
    ensures Reflect(fields, u, data, pos).u == Reflect(fields[..i], u, data, pos).u
    decreases i
  {
    if i > 0 {
      var f, rest := fields[0], fields[1..];
      assert fields[..i][1..] == rest[..i - 1] && fields[..i][0] == f && !Stops(f);
      assert FirstStop(rest, i - 1) by {
        assert forall j :: 0 <= j < i ==> rest[j] == fields[j + 1];
      }
      if f.unpackSkip {
        ReflectStops(rest, i - 1, u, data, pos);
      } else if f.kind.IntK? {
        ReflectStops(rest, i - 1, u[f.name := VInt(ReadU32(data, pos))], data, AfterRead(data, pos, 4));
      } else {
        var n, p := ReadU32(data, pos), AfterRead(data, pos, 4);
        ReflectStops(rest, i - 1, u[f.name := VString(ReadBytes(data, p, n))], data, AfterRead(data, p, n));
      }
    }
  }

  /** What a truncated input leaves in a field that it breaks off in: a number becomes 0, a text gets as many
      zero bytes as its length said, or none if that is cut off itself; and the rest finds nothing more. */
  lemma TruncatedField(f: Field, rest: seq<Field>, u: Struct, data: seq<byte>, pos: nat) returns (zeros: seq<byte>)
    requires pos <= |data| && !f.unpackSkip && Settable(f) && !f.kind.OtherK?
    ensures forall k :: 0 <= k < |zeros| ==> zeros[k] == 0
    ensures f.kind.IntK? && |data| < pos + 4 ==>
              Reflect([f] + rest, u, data, pos) == Reflect(rest, u[f.name := VInt(0)], data, |data|)
    ensures f.kind.StringK? && |data| < pos + 4 ==>
              zeros == [] && Reflect([f] + rest, u, data, pos) == Reflect(rest, u[f.name := VString(zeros)], data, |data|)
    ensures f.kind.StringK? && pos + 4 <= |data| < pos + 4 + LittleEndian(data[pos..pos + 4]) ==>
              && |zeros| == LittleEndian(data[pos..pos + 4])
              && Reflect([f] + rest, u, data, pos) == Reflect(rest, u[f.name := VString(zeros)], data, |data|)
  {
    zeros := Zeros(if pos + 4 <= |data| then LittleEndian(data[pos..pos + 4]) else 0);
    assert ([f] + rest)[1..] == rest;
    if |data| < pos + 4 { assert zeros == [] == ReadBytes(data, |data|, 0); }
  }

  // Packing, as in the comment at the end of reflect_2.go: length-prefixed and little-endian.
  function Bytes4(n: nat): (r: seq<byte>)
    requires n < 0x1_0000_0000
    ensures |r| == 4
  {
    var n1 := n / 256;
    var n2 := n1 / 256;
    [n % 256, n1 % 256, n2 % 256, n2 / 256]
  }

  lemma Bytes4Value(n: nat)
    requires n < 0x1_0000_0000
    ensures LittleEndian(Bytes4(n)) == n
  {
  }

  predicate Packable(fields: seq<Field>, u: Struct) {
    forall i :: 0 <= i < |fields| && !fields[i].unpackSkip ==>
      fields[i].name in u && Settable(fields[i]) &&
      match fields[i].kind
      case IntK => u[fields[i].name].VInt? && 0 <= u[fields[i].name].n < 0x1_0000_0000
      case StringK => u[fields[i].name].VString? && |u[fields[i].name].bytes| < 0x1_0000_0000
      case OtherK => false
  }

  function Pack(fields: seq<Field>, u: Struct): seq<byte>
    requires Packable(fields, u)
  {
    if fields == [] then []
    else
      var rest := Pack(fields[1..], u);
      if fields[0].unpackSkip then rest
      else match u[fields[0].name]
        case VInt(n) => Bytes4(n) + rest
        case VString(b) => Bytes4(|b|) + b + rest
  }

  // u with the fields that are not skipped taken from v.
  function Filled(fields: seq<Field>, u: Struct, v: Struct): Struct
    requires Packable(fields, v)
    decreases |fields|
  {
    if fields == [] then u
    else Filled(fields[1..], if fields[0].unpackSkip then u else u[fields[0].name := v[fields[0].name]], v)
  }

  lemma ReadBack(before: seq<byte>, n: nat, after: seq<byte>)
    requires n < 0x1_0000_0000
    ensures ReadU32(before + Bytes4(n) + after, |before|) == n
    ensures AfterRead(before + Bytes4(n) + after, |before|, 4) == |before + Bytes4(n)|
  {
    assert (before + Bytes4(n) + after)[|before|..|before| + 4] == Bytes4(n);
    Bytes4Value(n);
  }

  lemma ReadBackBytes(before: seq<byte>, b: seq<byte>, after: seq<byte>)
    ensures ReadBytes(before + b + after, |before|, |b|) == b
    ensures AfterRead(before + b + after, |before|, |b|) == |before + b|
  {
  }

  /** Unpacking undoes packing: the fields get their values back, skipped fields keep what they had, and
      the reader stands exactly behind the packed bytes. */
  lemma {:induction false} UnpackPacked(fields: seq<Field>, u: Struct, v: Struct, before: seq<byte>, after: seq<byte>)
    requires Packable(fields, v)
    ensures Reflect(fields, u, before + Pack(fields, v) + after, |before|)
         == Result(Filled(fields, u, v), |before| + |Pack(fields, v)|, Done)
    decreases |fields|
  {
    if fields != [] {
      var f, rest := fields[0], Pack(fields[1..], v);
      if f.unpackSkip {
        UnpackPacked(fields[1..], u, v, before, after);
      } else if f.kind.IntK? {
        var b := Bytes4(v[f.name].n);
        Regroup(before, b, rest, after);
        ReadBack(before, v[f.name].n, rest + after);
        UnpackPacked(fields[1..], u[f.name := v[f.name]], v, before + b, after);
      } else {
        var s := v[f.name].bytes;
        var b := Bytes4(|s|);
        assert Pack(fields, v) == b + (s + rest);
        Regroup(before, b, s + rest, after);
        Regroup(before + b, s, rest, after);
        ReadBack(before, |s|, s + rest + after);
        ReadBackBytes(before + b, s, rest + after);
        UnpackPacked(fields[1..], u[f.name := v[f.name]], v, before + b + s, after);
      }
    }
  }

  /** So does the generated code. */
  lemma GeneratedUnpacksPacked(fields: seq<Field>, locals: map<string, Local>, u: Struct, v: Struct,
                               before: seq<byte>, after: seq<byte>)
    requires Supported(fields) && TagsAgree(fields) && Packable(fields, v)
    ensures var m := Exec(Generated(fields), before + Pack(fields, v) + after, Machine(locals, u, |before|));
            m.u == Filled(fields, u, v) && m.pos == |before| + |Pack(fields, v)|
  {
    GeneratedEqualsReflect(fields, before + Pack(fields, v) + after, Machine(locals, u, |before|));
    UnpackPacked(fields, u, v, before, after);
  }

  lemma {:induction false} FilledLookup(fields: seq<Field>, u: Struct, v: Struct, n: string)
    requires Packable(fields, v)
    ensures (exists i :: 0 <= i < |fields| && fields[i].name == n && !fields[i].unpackSkip) ==>
              n in v && n in Filled(fields, u, v) && Filled(fields, u, v)[n] == v[n]
    ensures (forall i :: 0 <= i < |fields| && fields[i].name == n ==> fields[i].unpackSkip) ==>
              (n in Filled(fields, u, v) <==> n in u) && (n in u ==> Filled(fields, u, v)[n] == u[n])
    decreases |fields|
  {
    if fields != [] {
      var f := fields[0];
      var next := if f.unpackSkip then u else u[f.name := v[f.name]];
      assert forall i :: 0 < i < |fields| ==> fields[i] == fields[1..][i - 1];
      FilledLookup(fields[1..], next, v, n);
      var later := exists i :: 0 <= i < |fields| - 1 && fields[1..][i].name == n && !fields[1..][i].unpackSkip;
      if f.name == n && !f.unpackSkip && !later {
        assert n in next && next[n] == v[n];
      }
    }
  }

  // The local variables the generated function declares.
  function Declared(prog: seq<Stmt>): seq<string> {
    if prog == [] then []
    else DeclaredBy(prog[0]) + Declared(prog[1..])
  }

  // A string field A beside a field ALen: both declare ALenRaw.
  predicate Clash(a: Field, b: Field) {
    !Hidden(a) && !Hidden(b) && a.kind.StringK? && b.name == a.name + "Len"
  }

  function Names(f: Field): seq<string> {
    if Hidden(f) || !Written(f) then []
    else if f.kind.IntK? then [f.name + "Raw"]
    else [f.name + "LenRaw", f.name + "Raw"]
  }

  function AllNames(fields: seq<Field>): seq<string> {
    if fields == [] then [] else Names(fields[0]) + AllNames(fields[1..])
  }

  function DeclaredBy(s: Stmt): seq<string> { if s.Var? || s.Make? then [s.x] else [] }

  lemma {:induction false} DeclaredConcat(a: seq<Stmt>, b: seq<Stmt>)
    ensures Declared(a + b) == Declared(a) + Declared(b)
  {
    if a == [] {
      assert a + b == b;
    } else {
      assert (a + b)[1..] == a[1..] + b && (a + b)[0] == a[0];
      DeclaredConcat(a[1..], b);
      assert DeclaredBy(a[0]) + (Declared(a[1..]) + Declared(b)) == (DeclaredBy(a[0]) + Declared(a[1..])) + Declared(b);
    }
  }

  lemma DeclaredFirst(s: Stmt, rest: seq<Stmt>)
    ensures Declared([s] + rest) == DeclaredBy(s) + Declared(rest)
  {
    assert ([s] + rest)[1..] == rest;
  }

  lemma IntDeclares(f: string, x: string)
    ensures Declared([Var(x), ReadVar(x), SetInt(f, x)]) == [x]
  {
    var last := [SetInt(f, x)];
    assert [Var(x), ReadVar(x), SetInt(f, x)] == [Var(x)] + ([ReadVar(x)] + (last + []));
    DeclaredFirst(SetInt(f, x), []);
    DeclaredFirst(ReadVar(x), last + []);
    DeclaredFirst(Var(x), [ReadVar(x)] + (last + []));
  }

  lemma SliceDeclares(f: string, l: string, x: string)
    ensures Declared([Make(x, l), ReadSlice(x), SetString(f, x)]) == [x]
  {
    var last := [SetString(f, x)];
    assert [Make(x, l), ReadSlice(x), SetString(f, x)] == [Make(x, l)] + ([ReadSlice(x)] + (last + []));
    DeclaredFirst(SetString(f, x), []);
    DeclaredFirst(ReadSlice(x), last + []);
    DeclaredFirst(Make(x, l), [ReadSlice(x)] + (last + []));
  }

  lemma StringDeclares(f: string, l: string, x: string)
    ensures Declared([Var(l), ReadVar(l), Make(x, l), ReadSlice(x), SetString(f, x)]) == [l, x]
  {
    var rest := [Make(x, l), ReadSlice(x), SetString(f, x)];
    assert [Var(l), ReadVar(l), Make(x, l), ReadSlice(x), SetString(f, x)] == [Var(l)] + ([ReadVar(l)] + rest);
    SliceDeclares(f, l, x);
    DeclaredFirst(ReadVar(l), rest);
    DeclaredFirst(Var(l), [ReadVar(l)] + rest);
  }

  lemma TemplateDeclares(f: Field)
    ensures Declared(Template(f)) == Names(f)
  {
    if f.kind.IntK? {
      IntDeclares(f.name, f.name + "Raw");
    } else if f.kind.StringK? {
      StringDeclares(f.name, f.name + "LenRaw", f.name + "Raw");
    }
  }

  lemma {:induction false} GeneratedDeclares(fields: seq<Field>)
    ensures Declared(Generated(fields)) == AllNames(fields)
  {
    if fields != [] {
      DeclaredConcat(Template(fields[0]), Generated(fields[1..]));
      TemplateDeclares(fields[0]);
      GeneratedDeclares(fields[1..]);
    }
  }

  lemma DistinctConcat(a: seq<string>, b: seq<string>)
    ensures Distinct(a + b) <==> Distinct(a) && Distinct(b) && forall n :: n in a ==> n !in b
  {
    var c := a + b;
    assert forall i :: 0 <= i < |a| ==> c[i] == a[i];
    assert forall i :: 0 <= i < |b| ==> c[|a| + i] == b[i];
    if Distinct(c) {
      forall i, j | 0 <= i < |a| && 0 <= j < |b| ensures a[i] != b[j] {
        assert c[i] != c[|a| + j];
      }
      forall i, j | 0 <= i < j < |b| ensures b[i] != b[j] {
        assert c[|a| + i] != c[|a| + j];
      }
      forall i, j | 0 <= i < j < |a| ensures a[i] != a[j] {
        assert c[i] != c[j];
      }
    } else {
      var i, j :| 0 <= i < j < |c| && c[i] == c[j];
      assert i < |a| <= j ==> a[i] in a && c[i] in b;
      assert i >= |a| ==> b[i - |a|] == b[j - |a|];
    }
  }

  // Two fields of different names share a local variable exactly when they clash.
  lemma SharedNames(a: Field, b: Field)
    requires a.name != b.name && Written(a) && Written(b)
    ensures (exists n :: n in Names(a) && n in Names(b)) <==> Clash(a, b) || Clash(b, a)
  {
    SuffixInjective(a.name, b.name, "Raw");
    SuffixInjective(a.name, b.name, "LenRaw");
    SuffixInjective(a.name + "Len", b.name, "Raw");
    SuffixInjective(b.name + "Len", a.name, "Raw");
    assert a.name + "LenRaw" == (a.name + "Len") + "Raw";
    assert b.name + "LenRaw" == (b.name + "Len") + "Raw";
    if Clash(a, b) {
      assert a.name + "LenRaw" in Names(a) && a.name + "LenRaw" in Names(b);
    } else if Clash(b, a) {
      assert b.name + "LenRaw" in Names(a) && b.name + "LenRaw" in Names(b);
    }
  }

  lemma SuffixInjective(a: string, b: string, s: string)
    ensures a + s == b + s <==> a == b
  {
    if a + s == b + s {
      assert |a| == |b| && (a + s)[..|a|] == a && (b + s)[..|b|] == b;
    }
  }

  lemma {:induction false} InAllNames(fields: seq<Field>, n: string)
    ensures n in AllNames(fields) <==> exists i :: 0 <= i < |fields| && n in Names(fields[i])
  {
    if fields != [] {
      InAllNames(fields[1..], n);
      assert forall i :: 0 < i < |fields| ==> fields[i] == fields[1..][i - 1];
    }
  }

  predicate NoClash(fields: seq<Field>) {
    forall i, j :: 0 <= i < |fields| && 0 <= j < |fields| ==> !Clash(fields[i], fields[j])
  }

  predicate DistinctFields(fields: seq<Field>) {
    forall i, j :: 0 <= i < j < |fields| ==> fields[i].name != fields[j].name
  }

  /** The generated function declares no local variable twice -- without which it would not compile --
      exactly when no string field A stands beside a field ALen. */
  lemma DeclaredOnceIffNoClash(fields: seq<Field>)
    requires Supported(fields) && DistinctFields(fields)
    ensures Distinct(Declared(Generated(fields))) <==> NoClash(fields)
  {
    GeneratedDeclares(fields);
    NamesOnceIffNoClash(fields);
  }

  lemma NamesDistinct(f: Field)
    ensures Distinct(Names(f))
  {
    assert |f.name + "LenRaw"| != |f.name + "Raw"|;
  }

  lemma {:induction false} NamesOnceIffNoClash(fields: seq<Field>)
    requires Supported(fields) && DistinctFields(fields)
    ensures Distinct(AllNames(fields)) <==> NoClash(fields)
  {
    if fields != [] {
      var f, rest := fields[0], fields[1..];
      assert fields == [f] + rest;
      NamesOnceIffNoClash(rest);
      DistinctConcat(Names(f), AllNames(rest));
      assert f == fields[0] && forall i :: 0 <= i < |rest| ==> rest[i] == fields[i + 1];
      HeadShares(f, rest);
      NamesDistinct(f);
      NoClashHead(f, rest);
    }
  }

  lemma NoClashHead(f: Field, rest: seq<Field>)
    ensures NoClash([f] + rest) <==>
            NoClash(rest) && forall i :: 0 <= i < |rest| ==> !Clash(f, rest[i]) && !Clash(rest[i], f)
  {
    var fields := [f] + rest;
    assert forall i :: 0 <= i < |rest| ==> fields[i + 1] == rest[i];
    assert !Clash(f, f) by { assert |f.name + "Len"| != |f.name|; }
    if NoClash(fields) {
      forall i | 0 <= i < |rest| ensures !Clash(f, rest[i]) && !Clash(rest[i], f) {
        assert !Clash(fields[0], fields[i + 1]) && !Clash(fields[i + 1], fields[0]);
      }
      forall i, j | 0 <= i < |rest| && 0 <= j < |rest| ensures !Clash(rest[i], rest[j]) {
        assert !Clash(fields[i + 1], fields[j + 1]);
      }
    } else {
      var i, j :| 0 <= i < |fields| && 0 <= j < |fields| && Clash(fields[i], fields[j]);
      assert i > 0 ==> fields[i] == rest[i - 1];
      assert j > 0 ==> fields[j] == rest[j - 1];
    }
  }

  lemma SharedNamesOrSkipped(a: Field, b: Field)
    requires a.name != b.name && (Hidden(a) || Written(a)) && (Hidden(b) || Written(b))
    ensures (exists n :: n in Names(a) && n in Names(b)) <==> Clash(a, b) || Clash(b, a)
  {
    if !Hidden(a) && !Hidden(b) {
      SharedNames(a, b);
    }
  }

  lemma HeadShares(f: Field, rest: seq<Field>)
    requires Hidden(f) || Written(f)
    requires Supported(rest) && forall i :: 0 <= i < |rest| ==> rest[i].name != f.name
    ensures (forall n :: n in Names(f) ==> n !in AllNames(rest)) <==>
            forall i :: 0 <= i < |rest| ==> !Clash(f, rest[i]) && !Clash(rest[i], f)
  {
    if forall i :: 0 <= i < |rest| ==> !Clash(f, rest[i]) && !Clash(rest[i], f) {
      forall n | n in Names(f) ensures n !in AllNames(rest) {
        InAllNames(rest, n);
        forall i | 0 <= i < |rest| ensures n !in Names(rest[i]) { SharedNamesOrSkipped(f, rest[i]); }
      }
    } else {
      var i :| 0 <= i < |rest| && (Clash(f, rest[i]) || Clash(rest[i], f));
      SharedNamesOrSkipped(f, rest[i]);
      var n :| n in Names(f) && n in Names(rest[i]);
      InAllNames(rest, n);
    }
  }
}
