/** What an introspection leaves in a schema besides the columns: foreign keys, row counts and sample values, stated
    on the fields of the rows the database answered with. */
module KeyLaws {
  import opened Introspection
  import opened SchemaModel
  import opened Wrappers

  /** The row a foreign key of a table comes from. */
  function KeyRow(table: string, k: ForeignKey): FkRow {
    FkRow(table, k.column, k.refTable, k.refColumn)
  }

  /** The rows of one table, in stream order. */
  function Only(rows: seq<FkRow>, table: string): seq<FkRow> {
    if rows == [] then []
    else
      var n := |rows| - 1;
      Only(rows[..n], table) + if rows[n].table == table then [rows[n]] else []
  }

  /** The rows the foreign keys of a table come from. */
  function KeyRows(t: Table): (r: seq<FkRow>)
    ensures |r| == |t.foreignKeys| && forall i :: 0 <= i < |r| ==> r[i] == KeyRow(t.name, t.foreignKeys[i])
  {
    seq(|t.foreignKeys|, i requires 0 <= i < |t.foreignKeys| => KeyRow(t.name, t.foreignKeys[i]))
  }

  lemma {:induction false} KeysAreRows(rows: seq<FkRow>, table: string)
    ensures var keys := ForeignKeysOf(rows, table);
            |keys| == |Only(rows, table)|
            && forall i :: 0 <= i < |keys| ==> Only(rows, table)[i] == KeyRow(table, keys[i])
  {
    if rows != [] { KeysAreRows(rows[..|rows| - 1], table); }
  }

  /** The foreign keys of each table are the rows of the stream that name it, in stream order, field by field. */
  lemma TableKeysExact(tables: seq<Table>, rows: seq<FkRow>, i: nat)
    requires i < |tables| && tables[i].foreignKeys == []
    ensures KeyRows(WithForeignKeys(tables, rows)[i]) == Only(rows, tables[i].name)
  {
    var t := WithForeignKeys(tables, rows)[i];
    KeysAreRows(rows, tables[i].name);
    assert t.foreignKeys == ForeignKeysOf(rows, tables[i].name);
    assert t.name == tables[i].name;
  }

  lemma OnlyStep(rows: seq<FkRow>, table: string)
    requires rows != []
    ensures var n := |rows| - 1;
            Only(rows, table) == if rows[n].table == table then Only(rows[..n], table) + [rows[n]] else Only(rows[..n], table)
  {}

  lemma CountStep(all: seq<FkRow>, only: seq<FkRow>, x: FkRow, table: string, r: FkRow)
    requires multiset(only)[r] == if r.table == table then multiset(all)[r] else 0
    ensures multiset(if x.table == table then only + [x] else only)[r]
            == if r.table == table then multiset(all + [x])[r] else 0
  {}

  lemma {:induction false} OnlyCounts(rows: seq<FkRow>, table: string, r: FkRow)
    ensures multiset(Only(rows, table))[r] == if r.table == table then multiset(rows)[r] else 0
  {
    if rows != [] {
      hide Only;
      var n := |rows| - 1;
      OnlyStep(rows, table);
      OnlyCounts(rows[..n], table, r);
      CountStep(rows[..n], Only(rows[..n], table), rows[n], table, r);
      assert rows[..n] + [rows[n]] == rows;
    }
  }

  lemma {:induction false} KeyCounts(table: string, keys: seq<ForeignKey>, rows: seq<FkRow>, k: ForeignKey)
    requires |keys| == |rows| && forall i :: 0 <= i < |keys| ==> rows[i] == KeyRow(table, keys[i])
    ensures multiset(keys)[k] == multiset(rows)[KeyRow(table, k)]
  {
    if keys != [] {
      var n := |keys| - 1;
      KeyCounts(table, keys[..n], rows[..n], k);
      assert keys == keys[..n] + [keys[n]] && rows == rows[..n] + [rows[n]];
    }
  }

  /** A key is in a table's list as often as the stream has its row for that table. */
  lemma KeysCounted(tables: seq<Table>, rows: seq<FkRow>, i: nat, column: string, refTable: string, refColumn: string)
    requires i < |tables| && tables[i].foreignKeys == []
    ensures multiset(WithForeignKeys(tables, rows)[i].foreignKeys)[ForeignKey(column, refTable, refColumn)]
            == multiset(rows)[FkRow(tables[i].name, column, refTable, refColumn)]
  {
    var t := WithForeignKeys(tables, rows)[i];
    var k := ForeignKey(column, refTable, refColumn);
    TableKeysExact(tables, rows, i);
    assert t.name == tables[i].name;
    KeyCounts(t.name, t.foreignKeys, KeyRows(t), k);
    OnlyCounts(rows, t.name, KeyRow(t.name, k));
  }

  // ---- Flattening the keys gives back the stream ----

  function FlattenKeys(tables: seq<Table>): seq<FkRow> {
    if tables == [] then [] else FlattenKeys(tables[..|tables| - 1]) + KeyRows(tables[|tables| - 1])
  }

  /** The stream, table by table. */
  function ByTable(rows: seq<FkRow>, names: seq<string>): seq<FkRow> {
    if names == [] then [] else ByTable(rows, names[..|names| - 1]) + Only(rows, names[|names| - 1])
  }

  lemma {:induction false} FlattenIsByTable(tables: seq<Table>, rows: seq<FkRow>)
    requires forall t :: t in tables ==> t.foreignKeys == []
    ensures FlattenKeys(WithForeignKeys(tables, rows)) == ByTable(rows, Names(tables))
  {
    if tables != [] {
      var n := |tables| - 1;
      var out := WithForeignKeys(tables, rows);
      FlattenIsByTable(tables[..n], rows);
      assert out[..n] == WithForeignKeys(tables[..n], rows);
      assert Names(tables)[..n] == Names(tables[..n]);
      TableKeysExact(tables, rows, n);
    }
  }

  /** The place of a table in the list of names. */
  predicate StandsAt(names: seq<string>, i: int, name: string) {
    0 <= i < |names| && names[i] == name
  }

  /** The rows stand together in the order of the tables, and each is of one of them. */
  ghost predicate InTableOrder(rows: seq<FkRow>, names: seq<string>) {
    (forall p :: 0 <= p < |rows| ==> rows[p].table in names)
    && forall p, q, i, j :: 0 <= p < q < |rows| && StandsAt(names, i, rows[p].table) && StandsAt(names, j, rows[q].table)
         ==> i <= j
  }

  lemma {:induction false} OnlyOf(rows: seq<FkRow>, table: string)
    ensures forall r :: r in Only(rows, table) <==> r in rows && r.table == table
  {
    if rows != [] {
      OnlyOf(rows[..|rows| - 1], table);
      assert rows == rows[..|rows| - 1] + [rows[|rows| - 1]];
    }
  }

  lemma {:induction false} ByTableRows(rows: seq<FkRow>, names: seq<string>)
    ensures forall r :: r in ByTable(rows, names) ==> r.table in names
  {
    if names != [] {
      var n := |names| - 1;
      ByTableRows(rows, names[..n]);
      OnlyOf(rows, names[n]);
      assert names == names[..n] + [names[n]];
    }
  }

  /** What is put together table by table is in table order. */
  lemma {:induction false} ByTableOrdered(rows: seq<FkRow>, names: seq<string>)
    requires Distinct(names)
    ensures InTableOrder(ByTable(rows, names), names)
  {
    if names != [] {
      var n := |names| - 1;
      var a, b := ByTable(rows, names[..n]), Only(rows, names[n]);
      ByTableOrdered(rows, names[..n]);
      ByTableRows(rows, names);
      ByTableRows(rows, names[..n]);
      OnlyOf(rows, names[n]);
      var all := ByTable(rows, names);
      assert all == a + b;
      forall p | 0 <= p < |all| ensures all[p].table in names { assert all[p] in all; }
      forall p, q, i, j | 0 <= p < q < |all| && StandsAt(names, i, all[p].table) && StandsAt(names, j, all[q].table)
        ensures i <= j
      {
        if q < |a| {
          assert a[p] in a && a[q] in a;
          BeforeLast(names, i, a[p].table);
          BeforeLast(names, j, a[q].table);
        } else {
          assert all[q] in b;
          assert j == n;
        }
      }
    }
  }

  lemma BeforeLast(names: seq<string>, i: int, name: string)
    requires Distinct(names) && StandsAt(names, i, name) && name in names[..|names| - 1]
    ensures StandsAt(names[..|names| - 1], i, name)
  {
    var k :| 0 <= k < |names| - 1 && names[k] == name;
    assert k == i;
  }

  /** A stream with no row of a table contributes nothing for it. */
  lemma NoneOnly(rows: seq<FkRow>, table: string)
    requires forall r :: r in rows ==> r.table != table
    ensures Only(rows, table) == []
  {
    OnlyOf(rows, table);
    if Only(rows, table) != [] { assert Only(rows, table)[0] in Only(rows, table); }
  }

  lemma Regroup(a: seq<FkRow>, b: seq<FkRow>, r: FkRow)
    ensures a + (b + [r]) == (a + b) + [r]
  {}

  lemma {:induction false} OnlyAppend(a: seq<FkRow>, b: seq<FkRow>, table: string)
    ensures Only(a + b, table) == Only(a, table) + Only(b, table)
  {
    if b == [] {
      assert a + b == a;
    } else {
      hide Only;
      var n := |b| - 1;
      OnlyAppend(a, b[..n], table);
      OnlyStep(b, table);
      OnlyStep(a + b, table);
      assert (a + b)[..|a| + n] == a + b[..n] && (a + b)[|a| + n] == b[n];
      Regroup(Only(a, table), Only(b[..n], table), b[n]);
    }
  }

  lemma {:induction false} OnlyAll(rows: seq<FkRow>, table: string)
    requires forall r :: r in rows ==> r.table == table
    ensures Only(rows, table) == rows
  {
    if rows != [] {
      hide Only;
      var n := |rows| - 1;
      assert rows[n] in rows;
      forall r | r in rows[..n] ensures r.table == table { assert r in rows; }
      OnlyAll(rows[..n], table);
      OnlyStep(rows, table);
      assert rows == rows[..n] + [rows[n]];
    }
  }

  /** Rows of other tables after it do not change what is put together for the names. */
  lemma {:induction false} ByTableLocal(a: seq<FkRow>, b: seq<FkRow>, names: seq<string>)
    requires forall r :: r in b ==> r.table !in names
    ensures ByTable(a + b, names) == ByTable(a, names)
  {
    if names != [] {
      var n := |names| - 1;
      ByTableLocal(a, b, names[..n]);
      OnlyAppend(a, b, names[n]);
      NoneOnly(b, names[n]);
    }
  }

  /** Where the rows of the last table start in an ordered stream. */
  lemma {:induction false} LastTableStarts(rows: seq<FkRow>, names: seq<string>) returns (k: nat)
    requires names != [] && Distinct(names) && InTableOrder(rows, names)
    ensures k <= |rows|
    ensures forall r :: r in rows[..k] ==> r.table in names[..|names| - 1]
    ensures forall r :: r in rows[k..] ==> r.table == names[|names| - 1]
    decreases |rows|
  {
    var n := |names| - 1;
    if rows == [] || rows[|rows| - 1].table != names[n] {
      k := |rows|;
      forall p | 0 <= p < |rows| ensures rows[p].table in names[..n] { NotLast(rows, names, p); }
    } else {
      var m := |rows| - 1;
      PrefixOrdered(rows, names);
      k := LastTableStarts(rows[..m], names);
      assert rows[..m][..k] == rows[..k];
      assert rows[k..] == rows[..m][k..] + [rows[m]];
    }
  }

  lemma PrefixOrdered(rows: seq<FkRow>, names: seq<string>)
    requires rows != [] && InTableOrder(rows, names)
    ensures InTableOrder(rows[..|rows| - 1], names)
  {}

  /** If the last row is not of the last table, no row is. */
  lemma NotLast(rows: seq<FkRow>, names: seq<string>, p: nat)
    requires names != [] && p < |rows| && InTableOrder(rows, names)
    requires rows[|rows| - 1].table != names[|names| - 1]
    ensures rows[p].table in names[..|names| - 1]
  {
    var n, m := |names| - 1, |rows| - 1;
    var j :| 0 <= j < |names| && names[j] == rows[m].table;
    assert StandsAt(names, j, rows[m].table);
    if p < m { assert StandsAt(names, n, names[n]); }
    var i :| 0 <= i < |names| && names[i] == rows[p].table;
    assert names[..n][i] == rows[p].table;
  }

  lemma {:induction false} OrderedIsByTable(rows: seq<FkRow>, names: seq<string>)
    requires Distinct(names) && InTableOrder(rows, names)
    ensures ByTable(rows, names) == rows
    decreases |names|
  {
    hide InTableOrder, Only;
    if names != [] {
      var n := |names| - 1;
      var k := LastTableStarts(rows, names);
      var a, b := rows[..k], rows[k..];
      assert rows == a + b;
      OrderedPrefix(rows, names, k);
      OrderedIsByTable(a, names[..n]);
      ByTableLocal(a, b, names[..n]);
      OnlyAppend(a, b, names[n]);
      NoneOnly(a, names[n]);
      OnlyAll(b, names[n]);
    } else if rows != [] {
      SomeTable(rows, names);
    }
  }

  lemma SomeTable(rows: seq<FkRow>, names: seq<string>)
    requires rows != [] && InTableOrder(rows, names)
    ensures names != []
  {
    assert rows[0].table in names;
  }

  lemma OrderedPrefix(rows: seq<FkRow>, names: seq<string>, k: nat)
    requires names != [] && k <= |rows| && InTableOrder(rows, names)
    requires forall r :: r in rows[..k] ==> r.table in names[..|names| - 1]
    ensures InTableOrder(rows[..k], names[..|names| - 1])
  {
    var a, front := rows[..k], names[..|names| - 1];
    forall p | 0 <= p < |a| ensures a[p].table in front { assert a[p] in a; }
    forall p, q, i, j | 0 <= p < q < |a| && StandsAt(front, i, a[p].table) && StandsAt(front, j, a[q].table)
      ensures i <= j
    {
      assert StandsAt(names, i, rows[p].table) && StandsAt(names, j, rows[q].table);
    }
  }

  /** Flattening the keys of the tables gives back the stream exactly when its rows stand together in the order of the
      tables, and each is of one of them. */
  lemma KeyRoundTripExact(tables: seq<Table>, rows: seq<FkRow>)
    requires Distinct(Names(tables)) && forall t :: t in tables ==> t.foreignKeys == []
    ensures FlattenKeys(WithForeignKeys(tables, rows)) == rows <==> InTableOrder(rows, Names(tables))
  {
    FlattenIsByTable(tables, rows);
    if InTableOrder(rows, Names(tables)) {
      OrderedIsByTable(rows, Names(tables));
    } else {
      ByTableOrdered(rows, Names(tables));
    }
  }

  // ---- Row counts and sample values ----

  /** A table the database answered for: its name, keys and columns stay, its row count is the count, and each column
      keeps the values its probe returned: none of more than fifty, else the first five. */
  lemma CompletedExact(t: Table, count: string -> Result<int, Failure>, sample: (string, string) -> Stream<string>)
    requires TableAnswers(t, count, sample)
    ensures var u := CompletedTable(t, count, sample);
            u.name == t.name && u.foreignKeys == t.foreignKeys && count(t.name) == Ok(u.rowCount)
            && |u.columns| == |t.columns|
            && forall j :: 0 <= j < |t.columns| ==>
                 var c, d := t.columns[j], u.columns[j];
                 var vals := sample(t.name, c.name).rows;
                 d.name == c.name && d.dataType == c.dataType && d.nullable == c.nullable
                 && (|vals| > 50 ==> d.sampleValues == [])
                 && (5 < |vals| <= 50 ==> d.sampleValues == vals[..5])
                 && (|vals| <= 5 ==> d.sampleValues == vals)
  {
    forall j | 0 <= j < |t.columns| ensures ColumnAnswers(t.name, t.columns[j], sample) {}
  }

  /** A finished introspection, row by row: the tables are those of the column stream; each has its own rows as columns,
      its own rows of the key stream as keys, its row count, and its sample values. */
  lemma IntrospectedExactly(columns: seq<ColumnRow>, fks: seq<FkRow>, count: string -> Result<int, Failure>,
                            sample: (string, string) -> Stream<string>, i: nat)
    requires i < |Grouped(columns).tables|
    requires forall t :: t in Grouped(columns).tables ==> TableAnswers(t, count, sample)
    ensures var t := Grouped(columns).tables[i];
            var u := Completed(WithForeignKeys(Grouped(columns).tables, fks), count, sample)[i];
            u.name == t.name && KeyRows(u) == Only(fks, t.name) && count(t.name) == Ok(u.rowCount)
            && |u.columns| == |t.columns|
            && forall j :: 0 <= j < |t.columns| ==>
                 u.columns[j].name == t.columns[j].name && u.columns[j].dataType == t.columns[j].dataType
                 && u.columns[j].nullable == t.columns[j].nullable
  {
    hide CompletedTable, TableAnswers, Grouped, WithForeignKeys, ForeignKeysOf;
    var base := Grouped(columns).tables;
    GroupedColumns(columns);
    FkPassKeepsRest(base, fks);
    TableKeysExact(base, fks, i);
    var linked := WithForeignKeys(base, fks)[i];
    SameAnswers(base[i], linked, count, sample);
    assert base[i] in base;
    CompletedExact(linked, count, sample);
  }
}
