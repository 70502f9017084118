/** internal/schema/schema.go: the dialect-neutral description of a database. */
module SchemaModel {
  datatype Column = Column(name: string, dataType: string, nullable: bool, sampleValues: seq<string>)

  datatype ForeignKey = ForeignKey(column: string, refTable: string, refColumn: string)

  datatype Table = Table(name: string, columns: seq<Column>, rowCount: int, foreignKeys: seq<ForeignKey>)

  datatype Schema = Schema(databaseName: string, tables: seq<Table>)

  /** The names of the tables, in order. */
  function Names(tables: seq<Table>): (r: seq<string>)
    ensures |r| == |tables| && forall i :: 0 <= i < |r| ==> r[i] == tables[i].name
  {
    seq(|tables|, i requires 0 <= i < |tables| => tables[i].name)
  }

  /** No two elements are equal. */
  ghost predicate Distinct<T>(xs: seq<T>) {
    forall i, j :: 0 <= i < j < |xs| ==> xs[i] != xs[j]
  }

  /** Only the first occurrence of each element. */
  function FirstOccurrences(xs: seq<string>): seq<string> {
    if xs == [] then []
    else
      var n := |xs| - 1;
      FirstOccurrences(xs[..n]) + if xs[n] in xs[..n] then [] else [xs[n]]
  }

  lemma {:induction false} FirstOccurrencesKeeps(xs: seq<string>)
    ensures Distinct(FirstOccurrences(xs))
    ensures forall x :: x in FirstOccurrences(xs) <==> x in xs
  {
    if xs != [] {
      var n := |xs| - 1;
      FirstOccurrencesKeeps(xs[..n]);
      assert xs == xs[..n] + [xs[n]];
    }
  }

  lemma {:induction false} FirstOccurrencesOfDistinct(xs: seq<string>)
    requires Distinct(xs)
    ensures FirstOccurrences(xs) == xs
  {
    if xs != [] {
      var n := |xs| - 1;
      FirstOccurrencesOfDistinct(xs[..n]);
      assert xs == xs[..n] + [xs[n]];
    }
  }
}
