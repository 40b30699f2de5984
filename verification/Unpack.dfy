/** Binary unpacking twice: by reflection (lectures/C1/reflect/reflect_2.go) and by code generated for
    one structure (lectures/C1/codegen/gen/codegen.go). */
module Unpack {
  type byte = n: nat | n < 256

  // The kind reflect sees behind the type of a field.
  datatype Kind = IntK | StringK | OtherK

  // How the type is written: as int or string, by an alias, or as a type defined over it.
  datatype Spelling = Plain | Alias | Defined

  /* Two tags, one for each program: unpack:"-" hides a field from the reflective one, cgen:"-" from
     the generator. `leads` says that the field has the first name of its declaration: of a declaration
     like A, B int the generator looks at A only. */
  datatype Field = Field(name: string, exported: bool, kind: Kind, spelling: Spelling, leads: bool,
                         unpackSkip: bool, cgenSkip: bool)

  datatype Val = VInt(n: int) | VString(bytes: seq<byte>)

  // The structure that is filled, by field name.
  type Struct = map<string, Val>

  function LittleEndian(b: seq<byte>): nat
    requires |b| == 4
  {
    (b[0] as int) + 256 * (b[1] as int) + 65536 * (b[2] as int) + 16777216 * (b[3] as int)
  }

  function Zeros(n: nat): (r: seq<byte>)
    ensures |r| == n
  {
    seq(n, _ => 0)
  }

  /* binary.Read into size bytes: io.ReadFull takes what is left even if that is too little, and then
     the variable keeps its zero value; the error is not looked at. */
  function AfterRead(data: seq<byte>, pos: nat, size: nat): (p: nat)
    requires pos <= |data|
    ensures p <= |data|
  {
    if pos + size <= |data| then pos + size else |data|
  }

  function ReadU32(data: seq<byte>, pos: nat): nat
    requires pos <= |data|
  {
    if pos + 4 <= |data| then LittleEndian(data[pos..pos + 4]) else 0
  }

  function ReadBytes(data: seq<byte>, pos: nat, size: nat): seq<byte>
    requires pos <= |data|
  {
    if pos + size <= |data| then data[pos..pos + size] else Zeros(size)
  }

  class Reader {
    const data: seq<byte>
    var pos: nat

    ghost predicate Valid() reads this { pos <= |data| }

    constructor (data: seq<byte>)
      ensures Valid() && this.data == data && pos == 0
    {
      this.data := data;
      pos := 0;
    }

    method Uint32() returns (value: nat)
      requires Valid()
      modifies this
      ensures Valid() && value == ReadU32(data, old(pos)) && pos == AfterRead(data, old(pos), 4)
    {
      value := 0;
      if pos + 4 <= |data| {
        value := LittleEndian(data[pos..pos + 4]);
        pos := pos + 4;
      } else {
        pos := |data|;
      }
    }

    method Bytes(size: nat) returns (value: seq<byte>)
      requires Valid()
      modifies this
      ensures Valid() && value == ReadBytes(data, old(pos), size) && pos == AfterRead(data, old(pos), size)
    {
      value := Zeros(size);
      if pos + size <= |data| {
        value := data[pos..pos + size];
        pos := pos + size;
      } else {
        pos := |data|;
      }
    }
  }

  // nil, the error for a type that is not supported, or a panic of package reflect.
  datatype Ending = Done | BadType | Panicked

  // What is left behind: the structure, the position of the reader, and how the function ended.
  datatype Result = Result(u: Struct, pos: nat, ending: Ending)

  // Set takes a value of the very type of the field, SetString any field of kind string; neither an
  // unexported one.
  predicate Settable(f: Field) {
    f.exported && (f.kind.IntK? ==> !f.spelling.Defined?)
  }

  function Reflect(fields: seq<Field>, u: Struct, data: seq<byte>, pos: nat): (r: Result)
    requires pos <= |data|
    ensures r.pos <= |data|
    decreases |fields|
  {
    if fields == [] then Result(u, pos, Done)
    else
      var f := fields[0];
      if f.unpackSkip then Reflect(fields[1..], u, data, pos)
      else match f.kind
        case IntK =>
          var p := AfterRead(data, pos, 4);
          if Settable(f) then Reflect(fields[1..], u[f.name := VInt(ReadU32(data, pos))], data, p)
          else Result(u, p, Panicked)
        case StringK =>
          var n, p := ReadU32(data, pos), AfterRead(data, pos, 4);
          var q := AfterRead(data, p, n);
          if Settable(f) then Reflect(fields[1..], u[f.name := VString(ReadBytes(data, p, n))], data, q)
          else Result(u, q, Panicked)
        case OtherK => Result(u, pos, BadType)
  }

  method UnpackReflect(fields: seq<Field>, u: Struct, data: seq<byte>) returns (u': Struct, pos: nat, ending: Ending)
    ensures Result(u', pos, ending) == Reflect(fields, u, data, 0)
  {
    var r := new Reader(data);
    u' := u;
    for i := 0 to |fields|
      invariant r.Valid() && r.data == data
      invariant Reflect(fields[i..], u', data, r.pos) == Reflect(fields, u, data, 0)
    {
      var f := fields[i];
      assert fields[i..][1..] == fields[i + 1..];
      if f.unpackSkip { continue; }
      match f.kind
      case IntK =>
        var value := r.Uint32();
        if !Settable(f) { return u', r.pos, Panicked; }
        u' := u'[f.name := VInt(value)];
      case StringK =>
        var lenRaw := r.Uint32();
        var dataRaw := r.Bytes(lenRaw);
        if !Settable(f) { return u', r.pos, Panicked; }
        u' := u'[f.name := VString(dataRaw)];
      case OtherK => return u', r.pos, BadType;
    }
    return u', r.pos, Done;
  }

  // The statements of intTpl and strTpl.
  datatype Stmt =
    | Var(x: string)                    // var x uint32
    | ReadVar(x: string)                // binary.Read(r, binary.LittleEndian, &x), x a uint32
    | SetInt(field: string, x: string)  // in.field = int(x)
    | Make(x: string, len: string)      // x := make([]byte, len)
    | ReadSlice(x: string)              // binary.Read(r, binary.LittleEndian, &x), x a []byte
    | SetString(field: string, x: string)

  datatype Local = U32(n: nat) | Slice(bytes: seq<byte>)

  datatype Machine = Machine(locals: map<string, Local>, u: Struct, pos: nat)

  function NumberIn(m: Machine, x: string): nat { if x in m.locals && m.locals[x].U32? then m.locals[x].n else 0 }

  function SliceIn(m: Machine, x: string): seq<byte> {
    if x in m.locals && m.locals[x].Slice? then m.locals[x].bytes else []
  }

  function Step(s: Stmt, data: seq<byte>, m: Machine): (m': Machine)
    requires m.pos <= |data|
    ensures m'.pos <= |data|
  {
    match s
    case Var(x) => m.(locals := m.locals[x := U32(0)])
    case ReadVar(x) =>
      m.(locals := if m.pos + 4 <= |data| then m.locals[x := U32(ReadU32(data, m.pos))] else m.locals,
         pos := AfterRead(data, m.pos, 4))
    case SetInt(f, x) => m.(u := m.u[f := VInt(NumberIn(m, x))])
    case Make(x, len) => m.(locals := m.locals[x := Slice(Zeros(NumberIn(m, len)))])
    case ReadSlice(x) =>
      var size := |SliceIn(m, x)|;
      m.(locals := if m.pos + size <= |data| then m.locals[x := Slice(ReadBytes(data, m.pos, size))] else m.locals,
         pos := AfterRead(data, m.pos, size))
    case SetString(f, x) => m.(u := m.u[f := VString(SliceIn(m, x))])
  }

  function Exec(prog: seq<Stmt>, data: seq<byte>, m: Machine): (m': Machine)
    requires m.pos <= |data|
    ensures m'.pos <= |data|
    decreases |prog|
  {
    if prog == [] then m else Exec(prog[1..], data, Step(prog[0], data, m))
  }

  function IntTpl(f: string): seq<Stmt> { [Var(f + "Raw"), ReadVar(f + "Raw"), SetInt(f, f + "Raw")] }

  function StrTpl(f: string): seq<Stmt> {
    [Var(f + "LenRaw"), ReadVar(f + "LenRaw"), Make(f + "Raw", f + "LenRaw"), ReadSlice(f + "Raw"),
     SetString(f, f + "Raw")]
  }

  predicate Hidden(f: Field) { f.cgenSkip || !f.leads }

  // The generator goes by the word the type is written with, and stops at any but int and string.
  predicate Written(f: Field) { f.spelling.Plain? && !f.kind.OtherK? }

  predicate Supported(fields: seq<Field>) {
    forall i :: 0 <= i < |fields| && !Hidden(fields[i]) ==> Written(fields[i])
  }

  function Template(f: Field): seq<Stmt> {
    if Hidden(f) || !Written(f) then []
    else match f.kind
      case IntK => IntTpl(f.name)
      case StringK => StrTpl(f.name)
      case OtherK => []
  }

  function Generated(fields: seq<Field>): seq<Stmt> {
    if fields == [] then [] else Template(fields[0]) + Generated(fields[1..])
  }

  method Generate(fields: seq<Field>) returns (out: seq<Stmt>, fatal: bool)
    ensures fatal <==> !Supported(fields)
    ensures fatal <==> exists i :: 0 <= i < |fields| && !fields[i].cgenSkip && fields[i].leads
                                   && (!fields[i].spelling.Plain? || fields[i].kind.OtherK?)
    ensures !fatal ==> out == Generated(fields)
  {
    out := [];
    for i := 0 to |fields|
      invariant Supported(fields[..i]) && out == Generated(fields[..i])
    {
      var f := fields[i];
      assert fields[..i + 1] == fields[..i] + [f];
      GeneratedSnoc(fields[..i], f);
      if Hidden(f) { continue; }
      if !f.spelling.Plain? { return out, true; }
      match f.kind
      case IntK => out := out + IntTpl(f.name);
      case StringK => out := out + StrTpl(f.name);
      case OtherK => return out, true;
    }
    assert fields[..|fields|] == fields;
    fatal := false;
  }

  lemma {:induction false} GeneratedSnoc(fields: seq<Field>, f: Field)
    ensures Generated(fields + [f]) == Generated(fields) + Template(f)
  {
    if fields == [] {
      assert fields + [f] == [f] && [f][1..] == [];
      assert Generated([f]) == Template(f) + [];
    } else {
      assert (fields + [f])[1..] == fields[1..] + [f];
      GeneratedSnoc(fields[1..], f);
    }
  }
}
