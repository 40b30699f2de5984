/** HW/hw6_db_explorer: which rows the UPDATE statement of a POST changes, and how. */
module SqlUpdate {
  import opened SqlBinding

  /* What the database decides: whether the value of a column and the text of an id compare as equal,
     whether a value can be sent at all, whether a column takes it, and what is stored for it then. */
  datatype Database = Database(same: (Json, string) -> bool, sends: Json -> bool,
                               takes: (string, Json) -> bool, stored: (string, Json) -> Json)

  predicate HasKey(cols: seq<Column>) { exists i :: 0 <= i < |cols| && cols[i].primary }

  // The condition `key=?` of the statement, for the key that KeyOf found.
  predicate Addressed(db: Database, cols: seq<Column>, row: Body, id: string) {
    KeyOf(cols) in row && db.same(row[KeyOf(cols)], id)
  }

  predicate SomeAddressed(db: Database, cols: seq<Column>, rows: seq<Body>, id: string) {
    exists i :: 0 <= i < |rows| && Addressed(db, cols, rows[i], id)
  }

  // The assignments of the statement, from left to right.
  function Assign(db: Database, row: Body, placeHolders: seq<string>, values: seq<Json>): Body
    requires |values| >= |placeHolders|
    decreases |placeHolders|
  {
    if placeHolders == [] then row
    else
      var last := |placeHolders| - 1;
      Assign(db, row, placeHolders[..last], values)[placeHolders[last] := db.stored(placeHolders[last], values[last])]
  }

  datatype SqlResult = SqlError | Updated(rows: seq<Body>)

  /* update t set p1=?,... where key=?, for columns of the table. Without a column to set, or with the
     empty name that KeyOf returns when there is no key, the text is not SQL; a value that a column does
     not take is met only where a row is written. */
  function ExecUpdate(db: Database, cols: seq<Column>, rows: seq<Body>, placeHolders: seq<string>,
                      values: seq<Json>, id: string): SqlResult
    requires |values| >= |placeHolders|
  {
    if placeHolders == [] || !HasKey(cols)
       || (exists j :: 0 <= j < |placeHolders| && !db.sends(values[j]))
       || (SomeAddressed(db, cols, rows, id)
           && exists j :: 0 <= j < |placeHolders| && !db.takes(placeHolders[j], values[j]))
    then SqlError
    else Updated(seq(|rows|, i requires 0 <= i < |rows| =>
      if Addressed(db, cols, rows[i], id) then Assign(db, rows[i], placeHolders, values) else rows[i]))
  }

  // What the members of the body become.
  function Written(db: Database, body: Body): Body { map k | k in body :: db.stored(k, body[k]) }

  lemma {:induction false} AssignLookup(db: Database, row: Body, placeHolders: seq<string>, values: seq<Json>,
                                        body: Body, n: string)
    requires |values| >= |placeHolders|
    requires forall i :: 0 <= i < |placeHolders| ==> placeHolders[i] in body && values[i] == body[placeHolders[i]]
    ensures var r := Assign(db, row, placeHolders, values);
            if n in placeHolders then n in r && r[n] == db.stored(n, body[n])
            else (n in r <==> n in row) && (n in row ==> r[n] == row[n])
    decreases |placeHolders|
  {
    if placeHolders != [] {
      var last := |placeHolders| - 1;
      assert placeHolders == placeHolders[..last] + [placeHolders[last]];
      AssignLookup(db, row, placeHolders[..last], values, body, n);
    }
  }

  lemma AssignedRow(db: Database, row: Body, placeHolders: seq<string>, values: seq<Json>, body: Body)
    requires Assigns(placeHolders, values, body)
    ensures Assign(db, row, placeHolders, values) == row + Written(db, body)
  {
    var r := Assign(db, row, placeHolders, values);
    forall n: string
      ensures n in r <==> n in row + Written(db, body)
      ensures n in r ==> r[n] == (row + Written(db, body))[n]
    {
      AssignLookup(db, row, placeHolders, values, body, n);
      assert n in body <==> n in placeHolders;
    }
  }

  // The body names columns of the table, none of them part of the primary key.
  predicate NamesColumns(cols: seq<Column>, body: Body) { forall k :: k in body ==> k in NonKey(cols) }

  // When the statement is an error.
  predicate Fails(db: Database, cols: seq<Column>, rows: seq<Body>, id: string, body: Body) {
    || body == map[] || !HasKey(cols)
    || (exists k :: k in body && !db.sends(body[k]))
    || (SomeAddressed(db, cols, rows, id) && exists k :: k in body && !db.takes(k, body[k]))
  }

  lemma SameErrors(db: Database, placeHolders: seq<string>, values: seq<Json>, body: Body)
    requires Assigns(placeHolders, values, body)
    ensures body == map[] <==> placeHolders == []
    ensures (exists j :: 0 <= j < |placeHolders| && !db.sends(values[j])) <==> exists k :: k in body && !db.sends(body[k])
    ensures (exists j :: 0 <= j < |placeHolders| && !db.takes(placeHolders[j], values[j])) <==>
            exists k :: k in body && !db.takes(k, body[k])
  {
    forall k | k in body ensures exists j :: 0 <= j < |placeHolders| && placeHolders[j] == k && values[j] == body[k] {
      var j :| 0 <= j < |placeHolders| && placeHolders[j] == k;
    }
    if placeHolders != [] {
      assert placeHolders[0] in body;
    }
    if body != map[] {
      var k :| k in body;
    }
    if j :| 0 <= j < |placeHolders| && !db.sends(values[j]) {
      assert placeHolders[j] in body;
    }
    if j :| 0 <= j < |placeHolders| && !db.takes(placeHolders[j], values[j]) {
      assert placeHolders[j] in body;
    }
  }

  /** An accepted POST over columns that are not part of a key. It is an error of SQL exactly for an empty
      body, a table without a key, or a value that is not taken; otherwise it changes every row whose
      value in the first key column compares as equal to the id, in exactly the members of the body, and
      no other row, whatever the order in which the map gave them. */
  lemma PostChangesBodyColumns(db: Database, cols: seq<Column>, rows: seq<Body>, id: string, body: Body,
                               placeHolders: seq<string>, values: seq<Json>)
    requires NamesColumns(cols, body) && Assigns(placeHolders, values, body)
    ensures var r := ExecUpdate(db, cols, rows, placeHolders, values, id);
            && (r.SqlError? <==> Fails(db, cols, rows, id, body))
            && (r.Updated? ==> |r.rows| == |rows|)
            && (r.Updated? ==> forall i :: 0 <= i < |rows| ==>
                  r.rows[i] == if Addressed(db, cols, rows[i], id) then rows[i] + Written(db, body) else rows[i])
  {
    SameErrors(db, placeHolders, values, body);
    forall i | 0 <= i < |rows| ensures Assign(db, rows[i], placeHolders, values) == rows[i] + Written(db, body) {
      AssignedRow(db, rows[i], placeHolders, values, body);
    }
  }

  // What a database keeps: every row has every column, and no two agree in the whole primary key.
  predicate Complete(cols: seq<Column>, rows: seq<Body>) {
    forall r, i :: 0 <= r < |rows| && 0 <= i < |cols| ==> cols[i].field in rows[r]
  }

  predicate Differ(cols: seq<Column>, a: Body, b: Body) {
    exists i :: 0 <= i < |cols| && cols[i].primary && cols[i].field in a && cols[i].field in b
             && a[cols[i].field] != b[cols[i].field]
  }

  predicate Indexed(cols: seq<Column>, rows: seq<Body>) {
    Complete(cols, rows) && forall i, j :: 0 <= i < j < |rows| ==> Differ(cols, rows[i], rows[j])
  }

  // The database does not take different values of the key that are in the table for equal to the id.
  predicate Separates(db: Database, cols: seq<Column>, rows: seq<Body>, id: string) {
    forall i, j :: 0 <= i < j < |rows| && Addressed(db, cols, rows[i], id) && Addressed(db, cols, rows[j], id) ==>
      rows[i][KeyOf(cols)] == rows[j][KeyOf(cols)]
  }

  predicate OneKeyColumn(cols: seq<Column>) {
    HasKey(cols) && forall i, j :: 0 <= i < j < |cols| ==> !(cols[i].primary && cols[j].primary)
  }

  lemma {:induction false} KeyIsFirst(cols: seq<Column>) returns (i: nat)
    requires HasKey(cols)
    ensures i < |cols| && cols[i].primary && KeyOf(cols) == cols[i].field
    ensures forall j :: 0 <= j < i ==> !cols[j].primary
    decreases |cols|
  {
    if cols[0].primary {
      i := 0;
    } else {
      assert HasKey(cols[1..]) by {
        var k :| 0 <= k < |cols| && cols[k].primary;
        assert cols[1..][k - 1] == cols[k];
      }
      var k := KeyIsFirst(cols[1..]);
      i := k + 1;
    }
  }

  lemma AtMostOneAddressed(db: Database, cols: seq<Column>, rows: seq<Body>, id: string, i: nat, j: nat)
    requires OneKeyColumn(cols) && Indexed(cols, rows) && Separates(db, cols, rows, id) && i < j < |rows|
    ensures !(Addressed(db, cols, rows[i], id) && Addressed(db, cols, rows[j], id))
  {
    var k := KeyIsFirst(cols);
    var c :| 0 <= c < |cols| && cols[c].primary && rows[i][cols[c].field] != rows[j][cols[c].field];
    assert c == k;
  }

  /** With one key column, then, exactly the addressed row changes, and nothing when there is none. */
  lemma PostChangesOneRow(db: Database, cols: seq<Column>, rows: seq<Body>, id: string, body: Body,
                          placeHolders: seq<string>, values: seq<Json>, i: nat)
    requires NamesColumns(cols, body) && Assigns(placeHolders, values, body) && !Fails(db, cols, rows, id, body)
    requires OneKeyColumn(cols) && Indexed(cols, rows) && Separates(db, cols, rows, id) && i < |rows|
    ensures var r := ExecUpdate(db, cols, rows, placeHolders, values, id);
            && (Addressed(db, cols, rows[i], id) ==> r == Updated(rows[i := rows[i] + Written(db, body)]))
            && (!SomeAddressed(db, cols, rows, id) ==> r == Updated(rows))
  {
    PostChangesBodyColumns(db, cols, rows, id, body, placeHolders, values);
    var r := ExecUpdate(db, cols, rows, placeHolders, values, id);
    if Addressed(db, cols, rows[i], id) {
      forall j | 0 <= j < |rows| && j != i ensures !Addressed(db, cols, rows[j], id) {
        if i < j { AtMostOneAddressed(db, cols, rows, id, i, j); } else { AtMostOneAddressed(db, cols, rows, id, j, i); }
      }
      assert r.rows == rows[i := rows[i] + Written(db, body)];
    } else if !SomeAddressed(db, cols, rows, id) {
      assert r.rows == rows;
    }
  }

  // An id addresses no more than one row, whatever rows the primary key allows whose values of the first
  // key column the database tells apart.
  ghost predicate AddressesOne(db: Database, cols: seq<Column>, id: string) {
    forall rows: seq<Body>, i: nat, j: nat ::
      Indexed(cols, rows) && Separates(db, cols, rows, id) && i < j < |rows| ==>
      !(Addressed(db, cols, rows[i], id) && Addressed(db, cols, rows[j], id))
  }

  // A row with the same value everywhere but in one column.
  function RowOf(cols: seq<Column>, v: Json, c: nat, w: Json): Body
    requires c < |cols|
  {
    (map i | 0 <= i < |cols| :: cols[i].field := v)[cols[c].field := w]
  }

  /** That is so exactly with one key column: with several the code looks at the first of them only, and
      an id that is a value of it addresses rows that differ in the others. */
  lemma AddressesOneIffOneKeyColumn(db: Database, cols: seq<Column>, id: string, v: Json)
    requires Schema(cols) && HasKey(cols) && db.same(v, id)
    ensures AddressesOne(db, cols, id) <==> OneKeyColumn(cols)
  {
    if OneKeyColumn(cols) {
      forall rows: seq<Body>, i: nat, j: nat |
        Indexed(cols, rows) && Separates(db, cols, rows, id) && i < j < |rows|
        ensures !(Addressed(db, cols, rows[i], id) && Addressed(db, cols, rows[j], id))
      {
        AtMostOneAddressed(db, cols, rows, id, i, j);
      }
    } else {
      var rows := TwoAddressed(db, cols, id, v);
      assert Indexed(cols, rows) && Separates(db, cols, rows, id);
      assert Addressed(db, cols, rows[0], id) && Addressed(db, cols, rows[1], id);
    }
  }

  lemma TwoAddressed(db: Database, cols: seq<Column>, id: string, v: Json) returns (rows: seq<Body>)
    requires Schema(cols) && HasKey(cols) && !OneKeyColumn(cols) && db.same(v, id)
    ensures |rows| == 2 && Indexed(cols, rows) && Separates(db, cols, rows, id)
    ensures Addressed(db, cols, rows[0], id) && Addressed(db, cols, rows[1], id)
  {
    var k := KeyIsFirst(cols);
    var c := OtherKey(cols, k);
    rows := [RowOf(cols, v, c, Str("a")), RowOf(cols, v, c, Str("b"))];
    TwoRows(cols, v, c);
  }

  lemma OtherKey(cols: seq<Column>, k: nat) returns (c: nat)
    requires HasKey(cols) && !OneKeyColumn(cols) && k < |cols|
    ensures c < |cols| && cols[c].primary && c != k
  {
    var i, j :| 0 <= i < j < |cols| && cols[i].primary && cols[j].primary;
    c := if i == k then j else i;
  }

  lemma TwoRows(cols: seq<Column>, v: Json, c: nat)
    requires Schema(cols) && c < |cols| && cols[c].primary
    ensures Indexed(cols, [RowOf(cols, v, c, Str("a")), RowOf(cols, v, c, Str("b"))])
    ensures forall i, w :: 0 <= i < |cols| && i != c ==>
              cols[i].field in RowOf(cols, v, c, w) && RowOf(cols, v, c, w)[cols[i].field] == v
  {
    var a, b := RowOf(cols, v, c, Str("a")), RowOf(cols, v, c, Str("b"));
    assert a[cols[c].field] != b[cols[c].field];
    assert Differ(cols, a, b);
  }
}
