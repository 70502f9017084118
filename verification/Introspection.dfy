/** internal/connector/postgres/postgres.go: from the row streams of the catalog queries to a schema.
    The database is represented by the streams it answers with. */
module Introspection {
  import opened SchemaModel
  import opened Wrappers

  const SAMPLE_CARDINALITY_MAX: nat := 50
  const SAMPLE_LIMIT: nat := 5

  datatype ColumnRow = ColumnRow(table: string, column: string, dataType: string, nullable: bool)

  datatype FkRow = FkRow(table: string, column: string, refTable: string, refColumn: string)

  /** How a row stream ends: drained, a row that does not scan, or an error of the iteration. */
  datatype End = Drained | ScanFailed | Broken

  datatype Stream<+T> = QueryFailed | Rows(rows: seq<T>, end: End)

  datatype Failure = Failed(what: string)

  // ---- Grouping rows under an index map ----

  datatype Grouping = Grouping(tables: seq<Table>, idx: map<string, nat>)

  /** The map and the list agree: a name is mapped to a position exactly when the table there has that name. */
  ghost predicate Agree(g: Grouping) {
    (forall n :: n in g.idx ==> g.idx[n] < |g.tables| && g.tables[g.idx[n]].name == n)
    && (forall i :: 0 <= i < |g.tables| ==> g.tables[i].name in g.idx && g.idx[g.tables[i].name] == i)
  }

  function ColumnOf(r: ColumnRow): Column {
    Column(r.column, r.dataType, r.nullable, [])
  }

  function AddColumn(t: Table, c: Column): Table {
    t.(columns := t.columns + [c])
  }

  /** One iteration of the column loop. */
  function AddRow(g: Grouping, r: ColumnRow): (h: Grouping)
    requires Agree(g)
    ensures Agree(h)
  {
    if r.table in g.idx then
      var ti := g.idx[r.table];
      Grouping(g.tables[ti := AddColumn(g.tables[ti], ColumnOf(r))], g.idx)
    else
      Grouping(g.tables + [Table(r.table, [ColumnOf(r)], 0, [])], g.idx[r.table := |g.tables|])
  }

  function Grouped(rows: seq<ColumnRow>): (g: Grouping)
    ensures Agree(g)
  {
    if rows == [] then Grouping([], map[])
    else AddRow(Grouped(rows[..|rows| - 1]), rows[|rows| - 1])
  }

  /** The schema under construction. */
  class Draft {
    var databaseName: string
    var tables: seq<Table>

    constructor ()
      ensures databaseName == "" && tables == []
    {
      databaseName := "";
      tables := [];
    }

    method IntrospectColumns(stream: Stream<ColumnRow>) returns (r: Result<map<string, nat>, Failure>)
      requires tables == []
      modifies `tables
      ensures r.Ok? <==> stream.Rows? && stream.end == Drained
      ensures stream.Rows? ==> tables == Grouped(stream.rows).tables
      ensures stream.QueryFailed? ==> tables == []
      ensures r.Ok? ==> r.value == Grouped(stream.rows).idx
    {
      if stream.QueryFailed? {
        return Err(Failed("query columns"));
      }
      var idx: map<string, nat> := map[];
      for i := 0 to |stream.rows|
        invariant Grouping(tables, idx) == Grouped(stream.rows[..i])
      {
        var row := stream.rows[i];
        assert stream.rows[..i + 1][..i] == stream.rows[..i];
        var ti;
        if row.table in idx {
          ti := idx[row.table];
        } else {
          ti := |tables|;
          idx := idx[row.table := ti];
          tables := tables + [Table(row.table, [], 0, [])];
        }
        tables := tables[ti := AddColumn(tables[ti], ColumnOf(row))];
        assert [] + [ColumnOf(row)] == [ColumnOf(row)];
        ghost var before := Grouped(stream.rows[..i]);
        if row.table !in before.idx {
          assert tables == before.tables + [Table(row.table, [ColumnOf(row)], 0, [])];
        }
      }
      assert stream.rows[..|stream.rows|] == stream.rows;
      match stream.end
      case ScanFailed => return Err(Failed("scan column"));
      case Broken => return Err(Failed("iterate columns"));
      case Drained => return Ok(idx);
    }

    method IntrospectForeignKeys(stream: Stream<FkRow>, idx: map<string, nat>) returns (r: Result<(), Failure>)
      requires Agree(Grouping(tables, idx))
      modifies `tables
      ensures r.Ok? <==> stream.Rows? && stream.end == Drained
      ensures tables == if stream.Rows? then WithForeignKeys(old(tables), stream.rows) else old(tables)
    {
      if stream.QueryFailed? {
        return Err(Failed("query foreign keys"));
      }
      NoForeignKeys(tables);
      for i := 0 to |stream.rows|
        invariant tables == WithForeignKeys(old(tables), stream.rows[..i])
      {
        var row := stream.rows[i];
        assert stream.rows[..i + 1][..i] == stream.rows[..i];
        ForeignKeyStep(old(tables), stream.rows[..i], row);
        assert stream.rows[..i + 1] == stream.rows[..i] + [row];
        if row.table in idx {
          var ti := idx[row.table];
          tables := tables[ti := tables[ti].(foreignKeys := tables[ti].foreignKeys + [ForeignKeyOf(row)])];
        }
        assert tables == WithForeignKeys(old(tables), stream.rows[..i + 1]);
      }
      assert stream.rows[..|stream.rows|] == stream.rows;
      match stream.end
      case ScanFailed => return Err(Failed("scan fk"));
      case Broken => return Err(Failed("iterate fks"));
      case Drained => return Ok(());
    }

    /** The whole introspection: columns, foreign keys, then a row count for each table and samples for each column. */
    method Introspect(database: Result<string, Failure>, columns: Stream<ColumnRow>, fks: Stream<FkRow>,
                      count: string -> Result<int, Failure>, sample: (string, string) -> Stream<string>)
      returns (r: Result<(), Failure>)
      requires tables == []
      modifies this
      ensures r.Ok? <==>
        database.Ok? && columns.Rows? && fks.Rows? && columns.end == fks.end == Drained
        && forall t :: t in Grouped(columns.rows).tables ==> TableAnswers(t, count, sample)
      ensures r.Ok? ==>
        database == Ok(databaseName)
        && tables == Completed(WithForeignKeys(Grouped(columns.rows).tables, fks.rows), count, sample)
    {
      hide Grouped, CompletedTable, TableAnswers, WithForeignKeys;
      if database.Err? {
        return Err(database.error);
      }
      databaseName := database.value;
      var idx := IntrospectColumns(columns);
      if idx.Err? {
        return Err(idx.error);
      }
      var linked := IntrospectForeignKeys(fks, idx.value);
      if linked.Err? {
        return Err(linked.error);
      }
      ghost var base := tables;
      ghost var grouped := Grouped(columns.rows).tables;
      FkPassKeepsRest(grouped, fks.rows);
      for i := 0 to |tables|
        invariant databaseName == database.value && |tables| == |base|
        invariant forall k :: 0 <= k < i ==> tables[k] == CompletedTable(base[k], count, sample)
        invariant forall k :: i <= k < |tables| ==> tables[k] == base[k]
        invariant forall k :: 0 <= k < i ==> TableAnswers(grouped[k], count, sample)
      {
        SameAnswers(grouped[i], base[i], count, sample);
        var filled := FillTable(i, count, sample);
        if filled.Err? {
          return Err(filled.error);
        }
      }
      assert tables == Completed(base, count, sample);
      return Ok(());
    }

    /** The row count of one table, then the sample values of its columns. */
    method FillTable(i: nat, count: string -> Result<int, Failure>, sample: (string, string) -> Stream<string>)
      returns (r: Result<(), Failure>)
      requires i < |tables|
      modifies `tables
      ensures r.Ok? <==> TableAnswers(old(tables)[i], count, sample)
      ensures r.Ok? ==> tables == old(tables)[i := CompletedTable(old(tables)[i], count, sample)]
    {
      ghost var t := tables[i];
      var name := tables[i].name;
      var n := count(name);
      if n.Err? {
        return Err(n.error);
      }
      tables := tables[i := tables[i].(rowCount := n.value)];
      for j := 0 to |tables[i].columns|
        invariant |tables| == |old(tables)| && forall k :: 0 <= k < |tables| && k != i ==> tables[k] == old(tables)[k]
        invariant tables[i] == Table(name, tables[i].columns, n.value, t.foreignKeys)
        invariant |tables[i].columns| == |t.columns|
        invariant forall k :: 0 <= k < j ==> tables[i].columns[k] == CompletedColumn(name, t.columns[k], sample)
        invariant forall k :: j <= k < |t.columns| ==> tables[i].columns[k] == t.columns[k]
        invariant forall k :: 0 <= k < j ==> ColumnAnswers(name, t.columns[k], sample)
      {
        var column := tables[i].columns[j];
        var vals := SampleValues(sample(name, column.name));
        if vals.Err? {
          assert !ColumnAnswers(name, t.columns[j], sample);
          return Err(vals.error);
        }
        tables := tables[i := tables[i].(columns := tables[i].columns[j := column.(sampleValues := vals.value)])];
      }
      assert tables[i] == CompletedTable(t, count, sample);
      return Ok(());
    }
  }

  lemma SameAnswers(t: Table, u: Table, count: string -> Result<int, Failure>,
                    sample: (string, string) -> Stream<string>)
    requires t.name == u.name && t.columns == u.columns
    ensures TableAnswers(t, count, sample) == TableAnswers(u, count, sample)
  {}

  // ---- Sample values ----

  /** What a column keeps of the values a probe returned. */
  function Samples(vals: seq<string>): seq<string> {
    if |vals| > SAMPLE_CARDINALITY_MAX then []
    else if |vals| > SAMPLE_LIMIT then vals[..SAMPLE_LIMIT]
    else vals
  }

  method SampleValues(stream: Stream<string>) returns (r: Result<seq<string>, Failure>)
    ensures r.Ok? <==> stream.Rows? && stream.end == Drained
    ensures r.Ok? ==> r.value == Samples(stream.rows)
  {
    if stream.QueryFailed? {
      return Err(Failed("sample"));
    }
    var vals: seq<string> := [];
    for i := 0 to |stream.rows|
      invariant vals == stream.rows[..i]
    {
      vals := vals + [stream.rows[i]];
    }
    if stream.end != Drained {
      return Err(Failed("scan sample"));
    }
    if |vals| > SAMPLE_CARDINALITY_MAX {
      return Ok([]);
    }
    if |vals| > SAMPLE_LIMIT {
      vals := vals[..SAMPLE_LIMIT];
    }
    return Ok(vals);
  }

  /** The distinct values of a column that a probe with a row bound returns. */
  function Probe(distinct: seq<string>, bound: nat): seq<string> {
    if |distinct| <= bound then distinct else distinct[..bound]
  }

  /** A bounded probe decides as if it had seen every distinct value of the column exactly when its bound exceeds the
      cardinality bound; the probe asks for one value more. */
  lemma ProbeBoundExact(bound: nat)
    ensures (forall distinct :: Samples(Probe(distinct, bound)) == Samples(distinct)) <==> bound > SAMPLE_CARDINALITY_MAX
  {
    if bound <= SAMPLE_CARDINALITY_MAX {
      var n := if bound == 0 then 1 else SAMPLE_CARDINALITY_MAX + 1;
      var distinct := seq(n, i => "");
      assert Samples(Probe(distinct, bound)) != Samples(distinct);
    }
  }

  function SampleOf(stream: Stream<string>): seq<string> {
    if stream.Rows? then Samples(stream.rows) else []
  }

  function CompletedColumn(table: string, c: Column, sample: (string, string) -> Stream<string>): Column {
    c.(sampleValues := SampleOf(sample(table, c.name)))
  }

  function CompletedTable(t: Table, count: string -> Result<int, Failure>,
                          sample: (string, string) -> Stream<string>): (r: Table)
  {
    Table(t.name,
          seq(|t.columns|, j requires 0 <= j < |t.columns| => CompletedColumn(t.name, t.columns[j], sample)),
          match count(t.name) case Ok(n) => n case Err(_) => 0,
          t.foreignKeys)
  }

  function Completed(tables: seq<Table>, count: string -> Result<int, Failure>,
                     sample: (string, string) -> Stream<string>): (r: seq<Table>)
    ensures |r| == |tables| && forall i :: 0 <= i < |r| ==> r[i] == CompletedTable(tables[i], count, sample)
  {
    seq(|tables|, i requires 0 <= i < |tables| => CompletedTable(tables[i], count, sample))
  }

  predicate ColumnAnswers(table: string, c: Column, sample: (string, string) -> Stream<string>) {
    var s := sample(table, c.name);
    s.Rows? && s.end == Drained
  }

  /** The database answers the count and every sample probe of the table. */
  ghost predicate TableAnswers(t: Table, count: string -> Result<int, Failure>,
                               sample: (string, string) -> Stream<string>)
  {
    count(t.name).Ok?
    && forall j :: 0 <= j < |t.columns| ==> ColumnAnswers(t.name, t.columns[j], sample)
  }

  // ---- Foreign keys ----

  function ForeignKeyOf(r: FkRow): ForeignKey {
    ForeignKey(r.column, r.refTable, r.refColumn)
  }

  /** The foreign keys of one table, in stream order. */
  function ForeignKeysOf(rows: seq<FkRow>, table: string): seq<ForeignKey> {
    if rows == [] then []
    else
      var n := |rows| - 1;
      ForeignKeysOf(rows[..n], table) + if rows[n].table == table then [ForeignKeyOf(rows[n])] else []
  }

  /** Every table with the foreign keys of the stream that are its own. */
  function WithForeignKeys(tables: seq<Table>, rows: seq<FkRow>): (r: seq<Table>)
    ensures |r| == |tables|
  {
    seq(|tables|, i requires 0 <= i < |tables| =>
      tables[i].(foreignKeys := tables[i].foreignKeys + ForeignKeysOf(rows, tables[i].name)))
  }

  lemma NoForeignKeys(tables: seq<Table>)
    ensures WithForeignKeys(tables, []) == tables
  {
    forall i | 0 <= i < |tables| ensures WithForeignKeys(tables, [])[i] == tables[i] {
      assert tables[i].foreignKeys + [] == tables[i].foreignKeys;
    }
  }

  lemma ForeignKeyStep(tables: seq<Table>, rows: seq<FkRow>, r: FkRow)
    ensures var a, b := WithForeignKeys(tables, rows), WithForeignKeys(tables, rows + [r]);
            forall i :: 0 <= i < |tables| ==>
              b[i] == if tables[i].name == r.table then a[i].(foreignKeys := a[i].foreignKeys + [ForeignKeyOf(r)]) else a[i]
  {
    assert (rows + [r])[..|rows|] == rows;
    forall i | 0 <= i < |tables|
      ensures ForeignKeysOf(rows + [r], tables[i].name)
              == ForeignKeysOf(rows, tables[i].name) + if tables[i].name == r.table then [ForeignKeyOf(r)] else []
    {}
    forall i | 0 <= i < |tables|
      ensures var f, k := tables[i].foreignKeys, ForeignKeysOf(rows, tables[i].name);
              f + (k + [ForeignKeyOf(r)]) == (f + k) + [ForeignKeyOf(r)] && k + [] == k
    {}
  }

  /** The foreign-key pass leaves names, columns and counts alone. */
  lemma FkPassKeepsRest(tables: seq<Table>, rows: seq<FkRow>)
    ensures var out := WithForeignKeys(tables, rows);
            forall i :: 0 <= i < |tables| ==>
              out[i].name == tables[i].name && out[i].columns == tables[i].columns && out[i].rowCount == tables[i].rowCount
  {}

  // ---- What the grouping means ----

  /** The columns of one table, in stream order. */
  function ColumnsOf(rows: seq<ColumnRow>, table: string): seq<Column> {
    if rows == [] then []
    else
      var n := |rows| - 1;
      ColumnsOf(rows[..n], table) + if rows[n].table == table then [ColumnOf(rows[n])] else []
  }

  function TableNames(rows: seq<ColumnRow>): (r: seq<string>)
    ensures |r| == |rows| && forall i :: 0 <= i < |r| ==> r[i] == rows[i].table
  {
    seq(|rows|, i requires 0 <= i < |rows| => rows[i].table)
  }

  lemma {:induction false} NoColumns(rows: seq<ColumnRow>, table: string)
    requires table !in TableNames(rows)
    ensures ColumnsOf(rows, table) == []
  {
    if rows != [] {
      var n := |rows| - 1;
      assert TableNames(rows)[n] == rows[n].table;
      assert TableNames(rows) == TableNames(rows[..n]) + [rows[n].table];
      NoColumns(rows[..n], table);
    }
  }

  /** The tables are the distinct names of the stream in order of first appearance; the map and the list agree. */
  lemma {:induction false} GroupedNames(rows: seq<ColumnRow>)
    ensures var g := Grouped(rows);
            Agree(g) && Names(g.tables) == FirstOccurrences(TableNames(rows)) && Distinct(Names(g.tables))
  {
    hide AddRow;
    if rows != [] {
      var n := |rows| - 1;
      var r := rows[n];
      GroupedNames(rows[..n]);
      assert TableNames(rows) == TableNames(rows[..n]) + [r.table];
      assert TableNames(rows)[..n] == TableNames(rows[..n]);
      FirstOccurrencesKeeps(TableNames(rows[..n]));
      FirstOccurrencesKeeps(TableNames(rows));
      AddRowNames(Grouped(rows[..n]), r);
    }
  }

  lemma AddRowNames(g: Grouping, r: ColumnRow)
    requires Agree(g)
    ensures var names := Names(g.tables);
            Names(AddRow(g, r).tables) == names + if r.table in names then [] else [r.table]
  {
    if r.table in g.idx {
      assert Names(g.tables)[g.idx[r.table]] == r.table;
      assert Names(AddRow(g, r).tables) == Names(g.tables);
    } else {
      assert forall i :: 0 <= i < |g.tables| ==> Names(g.tables)[i] in g.idx;
      assert Names(AddRow(g, r).tables) == Names(g.tables) + [r.table];
    }
  }

  /** Each table has exactly its own rows as columns, in stream order, and nothing else filled in. */
  lemma {:induction false} GroupedColumns(rows: seq<ColumnRow>)
    ensures forall i :: 0 <= i < |Grouped(rows).tables| ==>
              var t := Grouped(rows).tables[i];
              t == Table(t.name, ColumnsOf(rows, t.name), 0, [])
  {
    if rows != [] {
      var n := |rows| - 1;
      var r := rows[n];
      GroupedColumns(rows[..n]);
      var g, h := Grouped(rows[..n]), Grouped(rows);
      forall i | 0 <= i < |h.tables|
        ensures h.tables[i] == Table(h.tables[i].name, ColumnsOf(rows, h.tables[i].name), 0, [])
      {
        if r.table !in g.idx && i == |g.tables| {
          GroupedNames(rows[..n]);
          FirstOccurrencesKeeps(TableNames(rows[..n]));
          assert r.table !in Names(g.tables);
          NoColumns(rows[..n], r.table);
        } else {
          assert h.tables[i].name == g.tables[i].name;
        }
      }
    }
  }

  // ---- Grouping a contiguous stream loses nothing ----

  function RowOf(table: string, c: Column): ColumnRow {
    ColumnRow(table, c.name, c.dataType, c.nullable)
  }

  function RowsOf(t: Table): (r: seq<ColumnRow>)
    ensures |r| == |t.columns| && forall i :: 0 <= i < |r| ==> r[i] == RowOf(t.name, t.columns[i])
  {
    seq(|t.columns|, i requires 0 <= i < |t.columns| => RowOf(t.name, t.columns[i]))
  }

  function Flatten(tables: seq<Table>): seq<ColumnRow> {
    if tables == [] then []
    else Flatten(tables[..|tables| - 1]) + RowsOf(tables[|tables| - 1])
  }

  /** The rows of a table stand together. */
  ghost predicate Contiguous(rows: seq<ColumnRow>) {
    forall i, j, k :: 0 <= i < j < k < |rows| && rows[i].table == rows[k].table ==> rows[j].table == rows[i].table
  }

  /** In a contiguous stream, a table that was seen before is the table of the row before. */
  lemma SeenJustBefore(rows: seq<ColumnRow>, i: nat)
    requires Contiguous(rows) && i < |rows| - 1 && rows[i].table == rows[|rows| - 1].table
    ensures rows[|rows| - 2].table == rows[|rows| - 1].table
  {
    if i < |rows| - 2 { assert rows[|rows| - 2].table == rows[i].table; }
  }

  lemma {:induction false} LastTable(rows: seq<ColumnRow>)
    requires rows != [] && Contiguous(rows)
    ensures var g := Grouped(rows);
            g.tables != [] && g.tables[|g.tables| - 1].name == rows[|rows| - 1].table
  {
    hide Contiguous;
    var n := |rows| - 1;
    var prev := rows[..n];
    if rows[n].table in Grouped(prev).idx {
      var i := SeenBefore(prev, rows[n].table);
      assert prev[i] == rows[i];
      SeenJustBefore(rows, i);
      assert prev[n - 1] == rows[n - 1];
      PrefixContiguous(rows);
      LastTable(prev);
    }
  }

  lemma {:induction false} SeenBefore(rows: seq<ColumnRow>, table: string) returns (i: nat)
    requires table in Grouped(rows).idx
    ensures i < |rows| && rows[i].table == table
  {
    GroupedNames(rows);
    FirstOccurrencesKeeps(TableNames(rows));
    var g := Grouped(rows);
    assert Names(g.tables)[g.idx[table]] == table;
    assert table in TableNames(rows);
    i :| i < |rows| && TableNames(rows)[i] == table;
  }

  lemma FlattenAppend(tables: seq<Table>, t: Table)
    ensures Flatten(tables + [t]) == Flatten(tables) + RowsOf(t)
  {
    assert (tables + [t])[..|tables|] == tables;
  }

  /** A row of a new table, or of the last one, is appended to the flattened rows. */
  lemma FlattenStep(g: Grouping, r: ColumnRow)
    requires Agree(g) && (r.table in g.idx ==> g.idx[r.table] == |g.tables| - 1)
    ensures Flatten(AddRow(g, r).tables) == Flatten(g.tables) + [r]
  {
    hide Flatten;
    if r.table in g.idx {
      var last := |g.tables| - 1;
      var front, u := g.tables[..last], g.tables[last];
      var t := AddColumn(u, ColumnOf(r));
      assert g.tables == front + [u] && AddRow(g, r).tables == front + [t];
      FlattenAppend(front, u);
      FlattenAppend(front, t);
      assert RowsOf(t) == RowsOf(u) + [r];
    } else {
      var t := Table(r.table, [ColumnOf(r)], 0, []);
      FlattenAppend(g.tables, t);
      assert RowsOf(t) == [r];
    }
  }

  /** In a contiguous stream the last row is of a new table, or of the last one. */
  lemma LastTableStays(rows: seq<ColumnRow>)
    requires rows != [] && Contiguous(rows)
    ensures var g := Grouped(rows[..|rows| - 1]);
            rows[|rows| - 1].table in g.idx ==> g.idx[rows[|rows| - 1].table] == |g.tables| - 1
  {
    hide Contiguous;
    LastTable(rows);
  }

  lemma {:induction false} ContiguousFlattens(rows: seq<ColumnRow>)
    requires Contiguous(rows)
    ensures Flatten(Grouped(rows).tables) == rows
  {
    hide Contiguous, AddRow;
    if rows != [] {
      var n := |rows| - 1;
      PrefixContiguous(rows);
      ContiguousFlattens(rows[..n]);
      LastTableStays(rows);
      FlattenStep(Grouped(rows[..n]), rows[n]);
      assert rows == rows[..n] + [rows[n]];
    }
  }

  lemma PrefixContiguous(rows: seq<ColumnRow>)
    requires rows != [] && Contiguous(rows)
    ensures Contiguous(rows[..|rows| - 1])
  {}

  lemma {:induction false} FlattenNames(tables: seq<Table>)
    ensures forall i :: 0 <= i < |Flatten(tables)| ==> Flatten(tables)[i].table in Names(tables)
  {
    if tables != [] {
      var n := |tables| - 1;
      FlattenNames(tables[..n]);
      assert Names(tables) == Names(tables[..n]) + [tables[n].name];
      var a, b := Flatten(tables[..n]), RowsOf(tables[n]);
      forall i | 0 <= i < |Flatten(tables)| ensures Flatten(tables)[i].table in Names(tables) {
        assert Flatten(tables)[i] == if i < |a| then a[i] else b[i - |a|];
      }
    }
  }

  lemma {:induction false} FlattenIsContiguous(tables: seq<Table>)
    requires Distinct(Names(tables))
    ensures Contiguous(Flatten(tables))
  {
    if tables != [] {
      var n := |tables| - 1;
      var rest := tables[..n];
      assert forall i :: 0 <= i < n ==> Names(rest)[i] == Names(tables)[i];
      FlattenIsContiguous(rest);
      FlattenNames(rest);
      var a, b := Flatten(rest), RowsOf(tables[n]);
      var all := a + b;
      assert Flatten(tables) == all;
      assert tables[n].name !in Names(rest);
      forall i, j, k | 0 <= i < j < k < |all| && all[i].table == all[k].table ensures all[j].table == all[i].table {
        if k >= |a| {
          assert all[k].table == tables[n].name;
          assert i >= |a|;
        }
      }
    }
  }

  /** Flattening the grouped tables gives back the stream exactly when the rows of each table stand together. */
  lemma RoundTripExact(rows: seq<ColumnRow>)
    ensures Flatten(Grouped(rows).tables) == rows <==> Contiguous(rows)
  {
    GroupedNames(rows);
    if Contiguous(rows) {
      ContiguousFlattens(rows);
    } else {
      FlattenIsContiguous(Grouped(rows).tables);
    }
  }

  /** The tables a successful introspection leaves have distinct names. */
  lemma IntrospectedNamesDistinct(rows: seq<ColumnRow>, fks: seq<FkRow>, count: string -> Result<int, Failure>,
                                  sample: (string, string) -> Stream<string>)
    ensures var out := Completed(WithForeignKeys(Grouped(rows).tables, fks), count, sample);
            Distinct(Names(out)) && Names(out) == FirstOccurrences(TableNames(rows))
  {
    GroupedNames(rows);
    var base := Grouped(rows).tables;
    FkPassKeepsRest(base, fks);
    var out := Completed(WithForeignKeys(base, fks), count, sample);
    assert Names(out) == Names(base);
  }
}
