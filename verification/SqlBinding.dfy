/** HW/hw6_db_explorer: how the PUT and POST branches of HandleRowById bind the members of a JSON body
    to the placeholders of a statement. Go ranges over a map in any order: `:|` picks any key left. */
module SqlBinding {
  import opened Text

  datatype Json = Null | Str(s: string) | Num(n: int) | Composite(text: string)

  type Body = map<string, Json>

  /* The type of a column, as far as NewDbExplorer looks at it: by substrings, in this order. */
  datatype ColType = TextType | NumberType | Unchecked

  function ReadType(typ: string): ColType {
    if Occurs("varchar", typ) || Occurs("text", typ) then TextType
    else if Occurs("int", typ) || Occurs("float", typ) then NumberType
    else Unchecked
  }

  // A row of SHOW FULL COLUMNS; `notNull` is Null == "NO", `primary` is Key == "PRI".
  datatype Column = Column(field: string, typ: string, notNull: bool, primary: bool) {
    function Kind(): ColType { ReadType(typ) }
  }

  // Column names are unique in a table.
  predicate Schema(cols: seq<Column>) {
    forall i, j :: 0 <= i < j < |cols| ==> cols[i].field != cols[j].field
  }

  // What NewDbExplorer prepares for a table. `fields` are the columns of InsertStm in order;
  // ValidMap says "string" or "int", here TextType or NumberType.
  datatype Table = Table(cols: seq<Column>, fields: seq<string>, keyNumber: map<string, nat>,
                         validMap: map<string, ColType>, columnsMap: map<string, Column>)

  function ColumnsMap(cols: seq<Column>): map<string, Column> {
    if cols == [] then map[]
    else ColumnsMap(cols[..|cols| - 1])[cols[|cols| - 1].field := cols[|cols| - 1]]
  }

  function ValidMap(cols: seq<Column>): map<string, ColType> {
    if cols == [] then map[]
    else
      var c := cols[|cols| - 1];
      if c.Kind().Unchecked? then ValidMap(cols[..|cols| - 1]) else ValidMap(cols[..|cols| - 1])[c.field := c.Kind()]
  }

  function NonKey(cols: seq<Column>): seq<string> {
    if cols == [] then []
    else
      var c := cols[|cols| - 1];
      NonKey(cols[..|cols| - 1]) + if c.primary then [] else [c.field]
  }

  function Numbering(fields: seq<string>): map<string, nat> {
    if fields == [] then map[]
    else Numbering(fields[..|fields| - 1])[fields[|fields| - 1] := |fields| - 1]
  }

  function TableOf(cols: seq<Column>): Table {
    Table(cols, NonKey(cols), Numbering(NonKey(cols)), ValidMap(cols), ColumnsMap(cols))
  }

  lemma NextColumn(cols: seq<Column>, ind: nat)
    requires ind < |cols|
    ensures var before, c := cols[..ind], cols[ind];
            && ColumnsMap(cols[..ind + 1]) == ColumnsMap(before)[c.field := c]
            && ValidMap(cols[..ind + 1])
               == (if c.Kind().Unchecked? then ValidMap(before) else ValidMap(before)[c.field := c.Kind()])
            && NonKey(cols[..ind + 1]) == NonKey(before) + if c.primary then [] else [c.field]
  {
    assert cols[..ind + 1][..ind] == cols[..ind];
  }

  lemma NextNumber(fields: seq<string>, f: string)
    ensures Numbering(fields + [f]) == Numbering(fields)[f := |fields|]
  {
    assert (fields + [f])[..|fields|] == fields;
  }

  method NewColumnsMap(cols: seq<Column>) returns (columnsMap: map<string, Column>)
    ensures columnsMap == ColumnsMap(cols)
  {
    columnsMap := map[];
    for i := 0 to |cols|
      invariant columnsMap == ColumnsMap(cols[..i])
    {
      NextColumn(cols, i);
      columnsMap := columnsMap[cols[i].field := cols[i]];
    }
    assert cols[..|cols|] == cols;
  }

  method NewTable(cols: seq<Column>) returns (t: Table)
    ensures t == TableOf(cols)
  {
    var columnsMap := NewColumnsMap(cols);
    var validMap: map<string, ColType>, fields: seq<string>, keyNumber: map<string, nat> := map[], [], map[];
    for ind := 0 to |cols|
      invariant validMap == ValidMap(cols[..ind])
      invariant fields == NonKey(cols[..ind])
      invariant keyNumber == Numbering(fields)
    {
      NextColumn(cols, ind);
      var c := cols[ind];
      match c.Kind() {
        case TextType => validMap := validMap[c.field := TextType];
        case NumberType => validMap := validMap[c.field := NumberType];
        case Unchecked =>
      }
      if !c.primary {
        NextNumber(fields, c.field);
        fields := fields + [c.field];
        keyNumber := keyNumber[c.field := |fields| - 1];
      }
    }
    assert cols[..|cols|] == cols;
    t := Table(cols, fields, keyNumber, validMap, columnsMap);
  }

  // keyNumber inverts fields.
  predicate Inverse(fields: seq<string>, keyNumber: map<string, nat>) {
    && (forall k :: k in keyNumber ==> keyNumber[k] < |fields| && fields[keyNumber[k]] == k)
    && (forall j :: 0 <= j < |fields| ==> fields[j] in keyNumber && keyNumber[fields[j]] == j)
  }

  lemma {:induction false} NumberingInverts(fields: seq<string>)
    requires Distinct(fields)
    ensures Inverse(fields, Numbering(fields))
  {
    if fields != [] {
      NumberingInverts(fields[..|fields| - 1]);
    }
  }

  lemma {:induction false} NonKeyNames(cols: seq<Column>, n: string)
    ensures n in NonKey(cols) <==> exists i :: 0 <= i < |cols| && cols[i].field == n && !cols[i].primary
    decreases |cols|
  {
    if cols != [] {
      var before, last := cols[..|cols| - 1], cols[|cols| - 1];
      NonKeyNames(before, n);
      assert NonKey(cols) == NonKey(before) + if last.primary then [] else [last.field];
      assert n in NonKey(cols) <==> n in NonKey(before) || (n == last.field && !last.primary);
      assert forall i :: 0 <= i < |before| ==> before[i] == cols[i];
    }
  }

  lemma {:induction false} NonKeyDistinct(cols: seq<Column>)
    requires Schema(cols)
    ensures Distinct(NonKey(cols))
    decreases |cols|
  {
    if cols != [] {
      NonKeyDistinct(cols[..|cols| - 1]);
      NonKeyNames(cols[..|cols| - 1], cols[|cols| - 1].field);
    }
  }

  lemma {:induction false} ValidMapOf(cols: seq<Column>, n: string)
    requires Schema(cols)
    ensures n in ValidMap(cols) <==> exists i :: 0 <= i < |cols| && cols[i].field == n && !cols[i].Kind().Unchecked?
    ensures forall i :: 0 <= i < |cols| && cols[i].field == n && n in ValidMap(cols)
                        ==> ValidMap(cols)[n] == cols[i].Kind()
    decreases |cols|
  {
    if cols != [] {
      ValidMapOf(cols[..|cols| - 1], n);
      assert forall i :: 0 <= i < |cols| - 1 ==> cols[..|cols| - 1][i] == cols[i];
    }
  }

  // The type switch of both branches.
  predicate BadType(t: Table, k: string, v: Json) {
    k in t.validMap && ((v.Str? && t.validMap[k] != TextType) || (v.Num? && t.validMap[k] != NumberType))
  }

  method TypeSwitch(t: Table, k: string, v: Json) returns (bad: bool)
    ensures bad <==> BadType(t, k, v)
  {
    bad := false;
    match v {
      case Str(_) => if k in t.validMap { bad := t.validMap[k] != TextType; }
      case Num(_) => if k in t.validMap { bad := t.validMap[k] != NumberType; }
      case _ =>
    }
  }

  ghost predicate Mentions(typ: string, word: string) { exists i: nat :: StandsAt(word, typ, i) }

  lemma ReadTypeOf(typ: string)
    ensures ReadType(typ).TextType? <==> Mentions(typ, "varchar") || Mentions(typ, "text")
    ensures ReadType(typ).NumberType? <==>
            !ReadType(typ).TextType? && (Mentions(typ, "int") || Mentions(typ, "float"))
  {
    OccursSomewhere("varchar", typ);
    OccursSomewhere("text", typ);
    OccursSomewhere("int", typ);
    OccursSomewhere("float", typ);
  }

  /** What fits into a column, for PUT and POST: no number into one whose type mentions varchar or text, no
      text into another one whose type mentions int or float; and anything else into any. */
  lemma WhatFits(cols: seq<Column>, k: string, v: Json)
    requires Schema(cols)
    ensures forall i :: 0 <= i < |cols| && cols[i].field == k ==>
              var text := Mentions(cols[i].typ, "varchar") || Mentions(cols[i].typ, "text");
              var number := Mentions(cols[i].typ, "int") || Mentions(cols[i].typ, "float");
              BadType(TableOf(cols), k, v) <==> (text && v.Num?) || (!text && number && v.Str?)
    ensures (forall i :: 0 <= i < |cols| ==> cols[i].field != k) ==> !BadType(TableOf(cols), k, v)
  {
    ValidMapOf(cols, k);
    forall i | 0 <= i < |cols| && cols[i].field == k
      ensures var text := Mentions(cols[i].typ, "varchar") || Mentions(cols[i].typ, "text");
              var number := Mentions(cols[i].typ, "int") || Mentions(cols[i].typ, "float");
              BadType(TableOf(cols), k, v) <==> (text && v.Num?) || (!text && number && v.Str?)
    {
      ReadTypeOf(cols[i].typ);
      OnlyColumn(cols, i);
    }
  }

  lemma OnlyColumn(cols: seq<Column>, i: nat)
    requires Schema(cols) && i < |cols|
    ensures cols[i].field in ValidMap(cols) <==> !cols[i].Kind().Unchecked?
    ensures cols[i].field in ValidMap(cols) ==> ValidMap(cols)[cols[i].field] == cols[i].Kind()
  {
    ValidMapOf(cols, cols[i].field);
    forall j | 0 <= j < |cols| && cols[j].field == cols[i].field ensures j == i { }
  }

  // Columns that a PUT fills with "" when the body does not name them.
  predicate NeedsFiller(c: Column, body: Body) { c.notNull && !c.primary && c.field !in body }

  function Filled(cols: seq<Column>, body: Body): Body
    decreases |cols|
  {
    if cols == [] then body
    else
      var rest := Filled(cols[..|cols| - 1], body);
      var c := cols[|cols| - 1];
      if NeedsFiller(c, rest) then rest[c.field := Str("")] else rest
  }

  method FillDefaults(cols: seq<Column>, body: Body) returns (data: Body)
    ensures data == Filled(cols, body)
  {
    data := body;
    for i := 0 to |cols|
      invariant data == Filled(cols[..i], body)
    {
      assert cols[..i + 1][..i] == cols[..i];
      var v := cols[i];
      if v.notNull && v.field !in data && !v.primary {
        data := data[v.field := Str("")];
      }
    }
    assert cols[..|cols|] == cols;
  }

  datatype PutResult = PutRejected(field: string) | Insert(values: seq<Json>)

  // Placeholder j gets the member named like its column.
  predicate BoundByName(fields: seq<string>, data: Body, values: seq<Json>) {
    |values| == |fields| &&
    forall j :: 0 <= j < |fields| ==> values[j] == if fields[j] in data then data[fields[j]] else Null
  }

  predicate AllFit(t: Table, data: Body) { forall k :: k in data ==> !BadType(t, k, data[k]) }

  method Bind(t: Table, data: Body) returns (r: PutResult)
    requires Inverse(t.fields, t.keyNumber)
    ensures r.Insert? <==> AllFit(t, data)
    ensures r.PutRejected? ==> r.field in data && BadType(t, r.field, data[r.field])
    ensures r.Insert? ==> BoundByName(t.fields, data, r.values)
  {
    var values := seq(|t.fields|, _ => Null);
    var left := data.Keys;
    while left != {}
      invariant left <= data.Keys && |values| == |t.fields|
      invariant forall k :: k in data && k !in left ==> !BadType(t, k, data[k])
      invariant forall j :: 0 <= j < |t.fields| ==>
        values[j] == if t.fields[j] in data && t.fields[j] !in left then data[t.fields[j]] else Null
      decreases left
    {
      var k :| k in left;
      var bad := TypeSwitch(t, k, data[k]);
      if bad { return PutRejected(k); }
      if k in t.keyNumber {
        values := values[t.keyNumber[k] := data[k]];
      }
      left := left - {k};
    }
    r := Insert(values);
  }

  method Put(t: Table, body: Body) returns (r: PutResult)
    requires Schema(t.cols) && t == TableOf(t.cols)
    ensures r.Insert? <==> AllFit(t, Filled(t.cols, body))
    ensures r.PutRejected? ==> r.field in Filled(t.cols, body) && BadType(t, r.field, Filled(t.cols, body)[r.field])
    ensures r.Insert? ==> BoundByName(t.fields, Filled(t.cols, body), r.values)
  {
    var data := FillDefaults(t.cols, body);
    NonKeyDistinct(t.cols);
    NumberingInverts(t.fields);
    r := Bind(t, data);
  }

  // INSERT INTO t (fields) VALUES (?, ...): what it gives to the columns it names.
  function Inserted(fields: seq<string>, values: seq<Json>): Body
    requires |fields| == |values|
  {
    if fields == [] then map[]
    else Inserted(fields[..|fields| - 1], values[..|fields| - 1])[fields[|fields| - 1] := values[|fields| - 1]]
  }

  lemma {:induction false} InsertedLookup(fields: seq<string>, values: seq<Json>, j: nat)
    requires |fields| == |values| && j < |fields|
    requires Distinct(fields)
    ensures fields[j] in Inserted(fields, values) && Inserted(fields, values)[fields[j]] == values[j]
  {
    if j < |fields| - 1 {
      InsertedLookup(fields[..|fields| - 1], values[..|fields| - 1], j);
    }
  }

  lemma {:induction false} InsertedKeys(fields: seq<string>, values: seq<Json>, n: string)
    requires |fields| == |values|
    ensures n in Inserted(fields, values) <==> n in fields
  {
    if fields != [] {
      InsertedKeys(fields[..|fields| - 1], values[..|fields| - 1], n);
      assert fields == fields[..|fields| - 1] + [fields[|fields| - 1]];
    }
  }

  lemma {:induction false} FilledLookup(cols: seq<Column>, body: Body, k: string)
    requires Schema(cols)
    ensures k in body ==> k in Filled(cols, body) && Filled(cols, body)[k] == body[k]
    ensures k !in body ==>
              (k in Filled(cols, body) <==>
                exists i :: 0 <= i < |cols| && cols[i].field == k && cols[i].notNull && !cols[i].primary)
    ensures k !in body && k in Filled(cols, body) ==> Filled(cols, body)[k] == Str("")
    decreases |cols|
  {
    if cols != [] {
      FilledLookup(cols[..|cols| - 1], body, k);
    }
  }

  lemma KeyIsNoField(cols: seq<Column>, i: nat)
    requires Schema(cols) && i < |cols| && cols[i].primary
    ensures cols[i].field !in NonKey(cols)
  {
    NonKeyNames(cols, cols[i].field);
  }

  // What a PUT has for a column once the defaults are in.
  lemma FillerOf(cols: seq<Column>, body: Body, i: nat)
    requires Schema(cols) && i < |cols| && !cols[i].primary
    ensures var c, data := cols[i], Filled(cols, body);
            (if c.field in data then data[c.field] else Null)
            == if c.field in body then body[c.field] else if c.notNull then Str("") else Null
  {
    FilledLookup(cols, body, cols[i].field);
  }

  /** An accepted PUT. The new row gets, in each column that is not the key, the member of the body of
      that name, and for a missing one "" or NULL as the column demands; it says nothing about the key.
      `values` is any answer of Put -- its contract leaves one, whatever the order of the map. */
  lemma PutBindsByName(t: Table, body: Body, values: seq<Json>, i: nat)
    requires Schema(t.cols) && t == TableOf(t.cols) && i < |t.cols|
    requires BoundByName(t.fields, Filled(t.cols, body), values)
    ensures var c, row := t.cols[i], Inserted(t.fields, values);
            if c.primary then c.field !in row
            else c.field in row && row[c.field] ==
                 if c.field in body then body[c.field] else if c.notNull then Str("") else Null
  {
    var c := t.cols[i];
    InsertedKeys(t.fields, values, c.field);
    if !c.primary {
      NonKeyDistinct(t.cols);
      assert c.field in t.fields by { NonKeyNames(t.cols, c.field); }
      var j :| 0 <= j < |t.fields| && t.fields[j] == c.field;
      InsertedLookup(t.fields, values, j);
      FillerOf(t.cols, body, i);
    } else {
      KeyIsNoField(t.cols, i);
    }
  }

  /** When a PUT is refused, in terms of the body: some member has the wrong type for its column, or a
      numeric column that must not be null is missing -- its filler "" is no number. */
  lemma PutRefusals(t: Table, body: Body)
    requires Schema(t.cols) && t == TableOf(t.cols)
    ensures !AllFit(t, Filled(t.cols, body)) <==>
            || (exists k :: k in body && BadType(t, k, body[k]))
            || (exists i :: 0 <= i < |t.cols| && NeedsFiller(t.cols[i], body) && t.cols[i].Kind().NumberType?)
  {
    var data := Filled(t.cols, body);
    if k :| k in data && BadType(t, k, data[k]) {
      FilledLookup(t.cols, body, k);
      if k !in body {
        var i :| 0 <= i < |t.cols| && t.cols[i].field == k && t.cols[i].notNull && !t.cols[i].primary;
        ValidMapOf(t.cols, k);
        assert NeedsFiller(t.cols[i], body) && t.cols[i].Kind().NumberType?;
      }
    }
    if k :| k in body && BadType(t, k, body[k]) {
      FilledLookup(t.cols, body, k);
      assert BadType(t, k, data[k]);
    }
    if i :| 0 <= i < |t.cols| && NeedsFiller(t.cols[i], body) && t.cols[i].Kind().NumberType? {
      FilledLookup(t.cols, body, t.cols[i].field);
      ValidMapOf(t.cols, t.cols[i].field);
      assert BadType(t, t.cols[i].field, data[t.cols[i].field]);
    }
  }

  // The loop that looks for the key column; "" if there is none.
  function KeyOf(cols: seq<Column>): string {
    if cols == [] then "" else if cols[0].primary then cols[0].field else KeyOf(cols[1..])
  }

  method KeyName(cols: seq<Column>) returns (keyName: string)
    ensures keyName == KeyOf(cols)
  {
    keyName := "";
    for i := 0 to |cols|
      invariant KeyOf(cols) == KeyOf(cols[i..]) && keyName == ""
    {
      if cols[i].primary { return cols[i].field; }
      assert cols[i..][1..] == cols[i + 1..];
    }
  }

  datatype PostResult =
    | PostRejected(field: string)
    | NilDereference(field: string) // ColumnsMap has no such column
    | Update(placeHolders: seq<string>, values: seq<Json>)

  // What a member of the body meets in the loop: a null for a column that does not exist follows the
  // nil pointer that ColumnsMap gives for it.
  datatype MemberCheck = Fine | WrongType | NilColumn

  function CheckMember(t: Table, k: string, v: Json): MemberCheck {
    if BadType(t, k, v) then WrongType
    else if !v.Null? then Fine
    else if k !in t.columnsMap then NilColumn
    else if t.columnsMap[k].notNull then WrongType else Fine
  }

  /** A null fits where the column may be null, and is refused where it may not; without a column there is
      nothing to look at. */
  lemma WhereNullFits(cols: seq<Column>, k: string)
    requires Schema(cols)
    ensures forall i :: 0 <= i < |cols| && cols[i].field == k ==>
              CheckMember(TableOf(cols), k, Null) == if cols[i].notNull then WrongType else Fine
    ensures (forall i :: 0 <= i < |cols| ==> cols[i].field != k) ==> CheckMember(TableOf(cols), k, Null) == NilColumn
  {
    ColumnsMapOf(cols, k);
  }

  lemma {:induction false} ColumnsMapOf(cols: seq<Column>, n: string)
    requires Schema(cols)
    ensures n in ColumnsMap(cols) <==> exists i :: 0 <= i < |cols| && cols[i].field == n
    ensures forall i :: 0 <= i < |cols| && cols[i].field == n && n in ColumnsMap(cols)
                        ==> ColumnsMap(cols)[n] == cols[i]
    decreases |cols|
  {
    if cols != [] {
      ColumnsMapOf(cols[..|cols| - 1], n);
      assert forall i :: 0 <= i < |cols| - 1 ==> cols[..|cols| - 1][i] == cols[i];
    }
  }

  predicate PostAccepts(t: Table, body: Body) {
    KeyOf(t.cols) !in body && forall k :: k in body ==> CheckMember(t, k, body[k]).Fine?
  }

  // An order in which Go may range over the body.
  predicate Ranges(order: seq<string>, body: Body) {
    Distinct(order) && (forall k :: k in body ==> k in order) && forall k :: k in order ==> k in body
  }

  // The first member that is not fine is met at position j, and is of this kind.
  predicate StopsAt(t: Table, body: Body, order: seq<string>, j: nat, c: MemberCheck)
    requires Ranges(order, body)
  {
    && j < |order| && !c.Fine? && CheckMember(t, order[j], body[order[j]]) == c
    && forall i :: 0 <= i < j ==> CheckMember(t, order[i], body[order[i]]).Fine?
  }

  ghost predicate DereferencesNil(t: Table, body: Body, order: seq<string>)
    requires Ranges(order, body)
  {
    KeyOf(t.cols) !in body && exists j: nat :: StopsAt(t, body, order, j, NilColumn)
  }

  // The placeholders name the members of the body, each with its value, in some order.
  predicate Assigns(placeHolders: seq<string>, values: seq<Json>, body: Body) {
    && |values| >= |placeHolders|
    && (forall i :: 0 <= i < |placeHolders| ==> placeHolders[i] in body && values[i] == body[placeHolders[i]])
    && (forall k :: k in body ==> k in placeHolders)
  }

  method Post(t: Table, id: string, body: Body, order: seq<string>) returns (r: PostResult)
    requires Ranges(order, body)
    ensures r.Update? <==> PostAccepts(t, body)
    ensures r.Update? <==> KeyOf(t.cols) !in body && forall k :: k in body ==> CheckMember(t, k, body[k]).Fine?
    ensures r.NilDereference? <==> DereferencesNil(t, body, order)
    ensures r.NilDereference? ==> exists j: nat :: StopsAt(t, body, order, j, NilColumn) && order[j] == r.field
    ensures r.PostRejected? ==>
              || (KeyOf(t.cols) in body && r.field == KeyOf(t.cols))
              || (KeyOf(t.cols) !in body
                  && exists j: nat :: StopsAt(t, body, order, j, WrongType) && order[j] == r.field)
    ensures r.Update? ==>
              && r.placeHolders == order
              && |r.values| == |order| + 1 && r.values[|order|] == Str(id)
              && Assigns(r.placeHolders, r.values, body)
  {
    var keyName := KeyName(t.cols);
    if keyName in body { return PostRejected(keyName); }
    var placeHolders: seq<string>, values: seq<Json> := [], [];
    for j := 0 to |order|
      invariant placeHolders == order[..j] && |values| == j
      invariant forall i :: 0 <= i < j ==> CheckMember(t, order[i], body[order[i]]).Fine?
      invariant forall i :: 0 <= i < j ==> values[i] == body[order[i]]
    {
      var k := order[j];
      assert k in body;
      var bad := TypeSwitch(t, k, body[k]);
      if bad {
        StopsOnce(t, body, order, j);
        return PostRejected(k);
      }
      if body[k].Null? {
        if k !in t.columnsMap {
          assert StopsAt(t, body, order, j, NilColumn);
          return NilDereference(k);
        }
        if t.columnsMap[k].notNull {
          StopsOnce(t, body, order, j);
          return PostRejected(k);
        }
      }
      placeHolders := placeHolders + [k];
      values := values + [body[k]];
    }
    r := Update(placeHolders, values + [Str(id)]);
  }

  // A range that stops at a member of the wrong type does not get to a nil pointer.
  lemma StopsOnce(t: Table, body: Body, order: seq<string>, j: nat)
    requires Ranges(order, body) && StopsAt(t, body, order, j, WrongType)
    ensures forall i: nat :: !StopsAt(t, body, order, i, NilColumn)
  {
  }

  lemma {:induction false} OrderOf(keys: set<string>) returns (order: seq<string>)
    ensures Distinct(order) && forall k :: k in keys <==> k in order
    decreases |keys|
  {
    if keys == {} {
      order := [];
    } else {
      var k :| k in keys;
      var rest := OrderOf(keys - {k});
      order := [k] + rest;
    }
  }

  lemma OrderFrom(body: Body, k: string) returns (order: seq<string>)
    requires k in body
    ensures Ranges(order, body) && order != [] && order[0] == k
  {
    var rest := OrderOf(body.Keys - {k});
    order := [k] + rest;
  }

  /** When a POST can dereference nil: in some order of the map exactly if the key is not in the body
      and some member is a null for a column that does not exist. */
  lemma SomeOrderDereferencesNil(t: Table, body: Body)
    ensures (exists order :: Ranges(order, body) && DereferencesNil(t, body, order))
        <==> KeyOf(t.cols) !in body && exists k :: k in body && CheckMember(t, k, body[k]).NilColumn?
  {
    if KeyOf(t.cols) !in body && exists k :: k in body && CheckMember(t, k, body[k]).NilColumn? {
      var k :| k in body && CheckMember(t, k, body[k]).NilColumn?;
      var order := OrderFrom(body, k);
      assert StopsAt(t, body, order, 0, NilColumn);
      assert Ranges(order, body) && DereferencesNil(t, body, order);
    }
    if order :| Ranges(order, body) && DereferencesNil(t, body, order) {
      var j: nat :| StopsAt(t, body, order, j, NilColumn);
      assert order[j] in body;
    }
  }

  /** And in every order exactly if, in addition, all other members fit. */
  lemma EveryOrderDereferencesNil(t: Table, body: Body)
    ensures (forall order :: Ranges(order, body) ==> DereferencesNil(t, body, order))
        <==> && KeyOf(t.cols) !in body
             && (exists k :: k in body && CheckMember(t, k, body[k]).NilColumn?)
             && (forall k :: k in body ==> !CheckMember(t, k, body[k]).WrongType?)
  {
    if forall order :: Ranges(order, body) ==> DereferencesNil(t, body, order) {
      var order := OrderOf(body.Keys);
      assert DereferencesNil(t, body, order);
      var j: nat :| StopsAt(t, body, order, j, NilColumn);
      assert order[j] in body;
      forall k | k in body ensures !CheckMember(t, k, body[k]).WrongType? {
        var from := OrderFrom(body, k);
        assert DereferencesNil(t, body, from);
        var i: nat :| StopsAt(t, body, from, i, NilColumn);
      }
    } else {
      var order :| Ranges(order, body) && !DereferencesNil(t, body, order);
      if KeyOf(t.cols) !in body && forall k :: k in body ==> !CheckMember(t, k, body[k]).WrongType? {
        NothingStops(t, body, order, |order|);
        forall k | k in body ensures !CheckMember(t, k, body[k]).NilColumn? {
          var i :| 0 <= i < |order| && order[i] == k;
        }
      }
    }
  }

  lemma {:induction false} NothingStops(t: Table, body: Body, order: seq<string>, n: nat)
    requires Ranges(order, body) && n <= |order|
    requires forall j: nat :: !StopsAt(t, body, order, j, NilColumn)
    requires forall k :: k in body ==> !CheckMember(t, k, body[k]).WrongType?
    ensures forall i :: 0 <= i < n ==> order[i] in body && CheckMember(t, order[i], body[order[i]]).Fine?
  {
    if n > 0 {
      NothingStops(t, body, order, n - 1);
      assert order[n - 1] in body;
      assert !StopsAt(t, body, order, n - 1, NilColumn);
    }
  }

  /** The smallest case: a body with nothing but a null for a column the table does not have. */
  lemma NullForUnknownColumn(t: Table, k: string, order: seq<string>)
    requires k !in t.columnsMap && k != KeyOf(t.cols)
    requires Ranges(order, map[k := Null])
    ensures DereferencesNil(t, map[k := Null], order)
  {
    var body: Body := map[k := Null];
    assert k in body && CheckMember(t, k, body[k]).NilColumn?;
    EveryOrderDereferencesNil(t, body);
  }
}
