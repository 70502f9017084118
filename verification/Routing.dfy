/** internal/rag/llmrouter.go and `Subset` of internal/prompt/schema.go: from a model's table list to a sub-schema. */
module Routing {
  import opened Ascii
  import opened JsonList
  import opened SchemaModel
  import opened Wrappers

  // ---- filterKnown ----

  /** The lower-cased names and what they stand for; a later table wins over an earlier one. */
  function KnownMap(tables: seq<Table>): map<string, string> {
    if tables == [] then map[]
    else
      var last := tables[|tables| - 1];
      KnownMap(tables[..|tables| - 1])[ToLower(last.name) := last.name]
  }

  /** The table a returned name stands for, if any. */
  function Lookup(tables: seq<Table>, n: string): Option<string> {
    var key := ToLower(TrimSpace(n));
    if key in KnownMap(tables) then Some(KnownMap(tables)[key]) else None
  }

  /** The tables the returned names stand for, unknown names dropped. */
  function Resolved(tables: seq<Table>, names: seq<string>): seq<string> {
    if names == [] then []
    else
      var n := |names| - 1;
      Resolved(tables, names[..n]) + match Lookup(tables, names[n]) case None => [] case Some(c) => [c]
  }

  function Filtered(names: seq<string>, s: Schema): seq<string> {
    FirstOccurrences(Resolved(s.tables, names))
  }

  method FilterKnown(names: seq<string>, s: Schema) returns (out: seq<string>)
    ensures out == Filtered(names, s)
  {
    hide ToLower, TrimSpace;
    var known: map<string, string> := map[];
    for i := 0 to |s.tables|
      invariant known == KnownMap(s.tables[..i])
    {
      known := known[ToLower(s.tables[i].name) := s.tables[i].name];
      assert s.tables[..i + 1][..i] == s.tables[..i];
    }
    assert s.tables[..|s.tables|] == s.tables;
    out := [];
    var seen: set<string> := {};
    for i := 0 to |names|
      invariant out == FirstOccurrences(Resolved(s.tables, names[..i]))
      invariant forall c :: c in seen <==> c in Resolved(s.tables, names[..i])
    {
      ghost var before := Resolved(s.tables, names[..i]);
      assert names[..i + 1][..i] == names[..i];
      var key := ToLower(TrimSpace(names[i]));
      if key in known {
        var canon := known[key];
        assert Resolved(s.tables, names[..i + 1]) == before + [canon];
        assert (before + [canon])[..|before|] == before;
        if canon !in seen {
          out := out + [canon];
          seen := seen + {canon};
        }
      } else {
        assert Resolved(s.tables, names[..i + 1]) == before + [] == before;
      }
    }
    assert names[..|names|] == names;
  }

  /** The table at `i` is the last one whose lower-cased name is `key`. */
  ghost predicate LastNamed(tables: seq<Table>, i: int, key: string) {
    0 <= i < |tables| && ToLower(tables[i].name) == key
    && forall j :: i < j < |tables| ==> ToLower(tables[j].name) != key
  }

  /** The map holds, for every lower-cased table name, the last table with that name. */
  lemma {:induction false} KnownMapExact(tables: seq<Table>)
    ensures forall t :: t in tables ==> ToLower(t.name) in KnownMap(tables)
    ensures forall k :: k in KnownMap(tables) ==>
              exists i :: LastNamed(tables, i, k) && tables[i].name == KnownMap(tables)[k]
  {
    hide ToLower;
    if tables != [] {
      var n := |tables| - 1;
      var last := tables[n];
      KnownMapExact(tables[..n]);
      var m := KnownMap(tables);
      assert tables == tables[..n] + [last];
      forall k | k in m ensures exists i :: LastNamed(tables, i, k) && tables[i].name == m[k] {
        if k == ToLower(last.name) {
          assert LastNamed(tables, n, k);
        } else {
          var i :| LastNamed(tables[..n], i, k) && tables[..n][i].name == m[k];
          assert LastNamed(tables, i, k);
        }
      }
    }
  }

  lemma LookupExact(tables: seq<Table>, n: string)
    ensures var key := ToLower(TrimSpace(n));
            match Lookup(tables, n)
            case None => forall t :: t in tables ==> ToLower(t.name) != key
            case Some(c) => c in Names(tables) && ToLower(c) == key
  {
    hide ToLower, TrimSpace;
    KnownMapExact(tables);
  }

  lemma {:induction false} ResolvedExact(tables: seq<Table>, names: seq<string>)
    ensures forall c :: c in Resolved(tables, names) <==> exists n :: n in names && Lookup(tables, n) == Some(c)
  {
    hide Lookup;
    if names != [] {
      var k := |names| - 1;
      ResolvedExact(tables, names[..k]);
      assert names == names[..k] + [names[k]];
    }
  }

  /** The filter keeps exactly the tables some returned name stands for, once each, all from the schema. */
  lemma FilteredExact(names: seq<string>, s: Schema)
    ensures Distinct(Filtered(names, s))
    ensures forall c :: c in Filtered(names, s) <==> exists n :: n in names && Lookup(s.tables, n) == Some(c)
    ensures forall c :: c in Filtered(names, s) ==> c in Names(s.tables)
  {
    hide Lookup;
    FirstOccurrencesKeeps(Resolved(s.tables, names));
    ResolvedExact(s.tables, names);
    forall c | c in Filtered(names, s) ensures c in Names(s.tables) {
      var n :| n in names && Lookup(s.tables, n) == Some(c);
      LookupExact(s.tables, n);
    }
  }

  /** A kept name stands for itself, even if its own spelling has blanks at an end. */
  lemma KeptResolvesToItself(tables: seq<Table>, n: string)
    requires Lookup(tables, n).Some?
    ensures Lookup(tables, Lookup(tables, n).value) == Lookup(tables, n)
  {
    var c := Lookup(tables, n).value;
    var k := TrimSpace(n);
    LookupExact(tables, n);
    LowerKeepsSpace(c);
    LowerKeepsSpace(k);
    assert Trimmed(k);
    assert |c| == |ToLower(c)| == |k|;
    assert Trimmed(c);
    TrimOfTrimmed(c);
  }

  lemma LowerKeepsSpace(s: string)
    ensures forall i :: 0 <= i < |s| ==> IsSpace(ToLower(s)[i]) == IsSpace(s[i])
  {}

  lemma {:induction false} ResolvedFixed(tables: seq<Table>, names: seq<string>)
    requires forall n :: n in names ==> Lookup(tables, n) == Some(n)
    ensures Resolved(tables, names) == names
  {
    hide Lookup;
    if names != [] {
      var k := |names| - 1;
      ResolvedFixed(tables, names[..k]);
      assert names == names[..k] + [names[k]];
    }
  }

  /** Filtering what was filtered changes nothing. */
  lemma FilteredIdempotent(names: seq<string>, s: Schema)
    ensures Filtered(Filtered(names, s), s) == Filtered(names, s)
  {
    hide Lookup, Resolved;
    var out := Filtered(names, s);
    FilteredExact(names, s);
    forall c | c in out ensures Lookup(s.tables, c) == Some(c) {
      var n :| n in names && Lookup(s.tables, n) == Some(c);
      KeptResolvesToItself(s.tables, n);
    }
    ResolvedFixed(s.tables, out);
    FirstOccurrencesOfDistinct(out);
  }

  // ---- Route ----

  datatype RouteError =
    | NoTables
    | LlmFailed(text: string)
    | BadList(why: ListError)

  method AllTableNames(s: Schema) returns (out: seq<string>)
    ensures out == Names(s.tables)
  {
    out := [];
    for i := 0 to |s.tables|
      invariant out == Names(s.tables)[..i]
    {
      out := out + [s.tables[i].name];
    }
    assert Names(s.tables)[..|s.tables|] == Names(s.tables);
  }

  /** The routing result for what the model answered, or for its failure. */
  function Routed(reply: Result<string, string>, s: Schema): Result<seq<string>, RouteError> {
    if s.tables == [] then Err(NoTables)
    else
      match reply
      case Err(text) => Err(LlmFailed(text))
      case Ok(resp) =>
        match ParseTableList(resp)
        case Err(why) => Err(BadList(why))
        case Ok(names) => Ok(if Filtered(names, s) == [] then Names(s.tables) else Filtered(names, s))
  }

  method Route(reply: Result<string, string>, s: Schema) returns (r: Result<seq<string>, RouteError>)
    ensures r == Routed(reply, s)
  {
    hide Filtered, ParseTableList;
    if |s.tables| == 0 {
      return Err(NoTables);
    }
    if reply.Err? {
      return Err(LlmFailed(reply.error));
    }
    var names := ParseTableList(reply.value);
    if names.Err? {
      return Err(BadList(names.error));
    }
    var valid := FilterKnown(names.value, s);
    if |valid| == 0 {
      var all := AllTableNames(s);
      return Ok(all);
    }
    return Ok(valid);
  }

  // ---- Subset ----

  /** The tables whose name is kept, in schema order. */
  function Kept(tables: seq<Table>, keep: set<string>): seq<Table> {
    if tables == [] then []
    else
      var n := |tables| - 1;
      Kept(tables[..n], keep) + if tables[n].name in keep then [tables[n]] else []
  }

  function NameSet(names: seq<string>): set<string> {
    set n | n in names
  }

  function SubsetOf(s: Schema, names: seq<string>): Schema {
    Schema(s.databaseName, Kept(s.tables, NameSet(names)))
  }

  method Subset(s: Schema, names: seq<string>) returns (out: Schema)
    ensures out == SubsetOf(s, names)
  {
    var keep: set<string> := {};
    for i := 0 to |names|
      invariant keep == NameSet(names[..i])
    {
      keep := keep + {names[i]};
      assert names[..i + 1] == names[..i] + [names[i]];
    }
    assert names[..|names|] == names;
    var tables: seq<Table> := [];
    for i := 0 to |s.tables|
      invariant tables == Kept(s.tables[..i], keep)
    {
      assert s.tables[..i + 1][..i] == s.tables[..i];
      if s.tables[i].name in keep {
        tables := tables + [s.tables[i]];
      }
    }
    assert s.tables[..|s.tables|] == s.tables;
    out := Schema(s.databaseName, tables);
  }

  /** `xs` is `ys` with elements left out. */
  predicate Subsequence<T(==)>(xs: seq<T>, ys: seq<T>) {
    xs == []
    || (ys != [] && (Subsequence(xs, ys[..|ys| - 1])
                     || (xs[|xs| - 1] == ys[|ys| - 1] && Subsequence(xs[..|xs| - 1], ys[..|ys| - 1]))))
  }

  lemma {:induction false} KeptInOrder(tables: seq<Table>, keep: set<string>)
    ensures Subsequence(Kept(tables, keep), tables)
  {
    if tables != [] {
      var n := |tables| - 1;
      KeptInOrder(tables[..n], keep);
      var k := Kept(tables[..n], keep);
      assert (k + [tables[n]])[..|k|] == k;
      assert k + [] == k;
    }
  }

  /** A sub-schema holds every occurrence of a table whose name is kept, and nothing else. */
  lemma {:induction false} KeptExact(tables: seq<Table>, keep: set<string>)
    ensures forall t :: multiset(Kept(tables, keep))[t] == if t.name in keep then multiset(tables)[t] else 0
  {
    if tables != [] {
      var n := |tables| - 1;
      KeptExact(tables[..n], keep);
      var k := Kept(tables[..n], keep);
      assert multiset(tables) == multiset(tables[..n]) + multiset{tables[n]} by {
        assert tables == tables[..n] + [tables[n]];
      }
      if tables[n].name in keep {
        assert multiset(k + [tables[n]]) == multiset(k) + multiset{tables[n]};
      } else {
        assert k + [] == k;
      }
    }
  }

  lemma {:induction false} KeptAll(tables: seq<Table>, keep: set<string>)
    requires forall t :: t in tables ==> t.name in keep
    ensures Kept(tables, keep) == tables
  {
    if tables != [] {
      var n := |tables| - 1;
      assert tables == tables[..n] + [tables[n]];
      forall t | t in tables[..n] ensures t.name in keep { assert t in tables; }
      assert tables[n] in tables;
      KeptAll(tables[..n], keep);
    }
  }

  lemma {:induction false} KeptNames(tables: seq<Table>, keep: set<string>)
    requires Distinct(Names(tables))
    ensures Distinct(Names(Kept(tables, keep)))
    ensures forall n :: n in Names(Kept(tables, keep)) <==> n in keep && n in Names(tables)
  {
    if tables != [] {
      var n := |tables| - 1;
      var rest := tables[..n];
      assert forall i :: 0 <= i < n ==> Names(rest)[i] == Names(tables)[i];
      KeptNames(rest, keep);
      assert Names(tables) == Names(rest) + [tables[n].name];
      var k := Kept(rest, keep);
      assert tables[n].name !in Names(rest);
      if tables[n].name in keep { assert Names(k + [tables[n]]) == Names(k) + [tables[n].name]; }
      else { assert k + [] == k; }
    }
  }

  lemma {:induction false} DistinctLength(xs: seq<string>)
    requires Distinct(xs)
    ensures |NameSet(xs)| == |xs|
  {
    if xs != [] {
      var n := |xs| - 1;
      DistinctLength(xs[..n]);
      assert xs == xs[..n] + [xs[n]];
      assert NameSet(xs) == NameSet(xs[..n]) + {xs[n]};
    }
  }

  lemma KeptSome(tables: seq<Table>, names: seq<string>)
    requires names != [] && names[0] in Names(tables)
    ensures Kept(tables, NameSet(names)) != []
  {
    hide Kept;
    var i :| 0 <= i < |tables| && tables[i].name == names[0];
    KeptExact(tables, NameSet(names));
    assert tables[i] in multiset(tables);
    assert multiset(Kept(tables, NameSet(names)))[tables[i]] > 0;
  }

  /** Whenever routing succeeds, the sub-schema is a non-empty part of the schema, in its order; under the
      fallback it is all of it; and with distinct table names it has one table for each routed name. */
  lemma RoutedSubschema(reply: Result<string, string>, s: Schema)
    requires Routed(reply, s).Ok?
    ensures var names := Routed(reply, s).value;
            var sub := SubsetOf(s, names);
            sub.tables != [] && Subsequence(sub.tables, s.tables)
            && (Filtered(ParseTableList(reply.value).value, s) == [] ==> sub == s)
            && (Distinct(Names(s.tables)) ==> |sub.tables| == |names| && NameSet(Names(sub.tables)) == NameSet(names))
  {
    hide Filtered, ParseTableList, Subsequence, Kept;
    var listed := ParseTableList(reply.value).value;
    var names := Routed(reply, s).value;
    FilteredExact(listed, s);
    KeptInOrder(s.tables, NameSet(names));
    KeptSome(s.tables, names);
    var kept := Kept(s.tables, NameSet(names));
    if Filtered(listed, s) == [] {
      assert forall t :: t in s.tables ==> t.name in Names(s.tables);
      KeptAll(s.tables, NameSet(names));
    }
    if Distinct(Names(s.tables)) {
      KeptNames(s.tables, NameSet(names));
      assert NameSet(Names(kept)) == NameSet(names);
      DistinctLength(Names(kept));
      DistinctLength(names);
    }
  }

  // ---- Routing returns what the model named ----

  /** The returned name is the table name, up to case and outer blanks. */
  predicate Says(n: string, name: string) {
    ToLower(TrimSpace(n)) == ToLower(name)
  }

  /** Of the tables whose names are equal up to case, the last one has this name. */
  ghost predicate LastOfItsName(tables: seq<Table>, name: string) {
    exists i :: LastNamed(tables, i, ToLower(name)) && tables[i].name == name
  }

  lemma LookupIffSaid(tables: seq<Table>, n: string, name: string)
    ensures Lookup(tables, n) == Some(name) <==> Says(n, name) && LastOfItsName(tables, name)
  {
    hide ToLower, TrimSpace, KnownMap;
    LookupExact(tables, n);
    KnownMapExact(tables);
    var key := ToLower(TrimSpace(n));
    if Lookup(tables, n) == Some(name) {
      var i :| LastNamed(tables, i, key) && tables[i].name == KnownMap(tables)[key];
      assert LastNamed(tables, i, ToLower(name)) && tables[i].name == name;
    }
    if Says(n, name) && LastOfItsName(tables, name) {
      var i :| LastNamed(tables, i, ToLower(name)) && tables[i].name == name;
      assert tables[i] in tables;
      var j :| LastNamed(tables, j, key) && tables[j].name == KnownMap(tables)[key];
    }
  }

  /** A name stands in the list of names before any mention of the other. */
  ghost predicate MentionedBefore(listed: seq<string>, a: string, b: string) {
    exists k :: 0 <= k < |listed| && Says(listed[k], a) && forall j :: 0 <= j <= k ==> !Says(listed[j], b)
  }

  ghost predicate InOrderOfMention(listed: seq<string>, names: seq<string>) {
    forall p, q :: 0 <= p < q < |names| ==> MentionedBefore(listed, names[p], names[q])
  }

  lemma FilteredStep(names: seq<string>, s: Schema)
    requires names != []
    ensures var n := |names| - 1;
            Filtered(names, s) == Filtered(names[..n], s)
              + match Lookup(s.tables, names[n])
                case None => []
                case Some(c) => if c in Resolved(s.tables, names[..n]) then [] else [c]
  {
    hide Lookup;
    var n := |names| - 1;
    var before := Resolved(s.tables, names[..n]);
    match Lookup(s.tables, names[n])
    case None => assert before + [] == before;
    case Some(c) => assert (before + [c])[..|before|] == before;
  }

  lemma StillBefore(listed: seq<string>, n: nat, a: string, b: string)
    requires n <= |listed| && MentionedBefore(listed[..n], a, b)
    ensures MentionedBefore(listed, a, b)
  {
    hide Says;
    var k :| 0 <= k < n && Says(listed[..n][k], a) && forall j :: 0 <= j <= k ==> !Says(listed[..n][j], b);
    assert listed[..n][k] == listed[k];
    forall j | 0 <= j <= k ensures !Says(listed[j], b) { assert listed[..n][j] == listed[j]; }
  }

  lemma {:induction false} FilteredInOrder(names: seq<string>, s: Schema)
    ensures InOrderOfMention(names, Filtered(names, s))
  {
    hide Lookup, Says, Resolved, FirstOccurrences, MentionedBefore;
    if names == [] {
      NothingFiltered(s);
    } else {
      var n := |names| - 1;
      FilteredInOrder(names[..n], s);
      FilteredStep(names, s);
      var earlier, r := Filtered(names[..n], s), Filtered(names, s);
      forall p, q | 0 <= p < q < |r| ensures MentionedBefore(names, r[p], r[q]) {
        if q < |earlier| {
          StillBefore(names, n, earlier[p], earlier[q]);
        } else {
          NewIsLater(names, s, earlier[p], r[q]);
        }
      }
    }
  }

  lemma NothingFiltered(s: Schema)
    ensures Filtered([], s) == []
  {}

  /** A table named for the first time now comes after those named before. */
  lemma NewIsLater(names: seq<string>, s: Schema, a: string, b: string)
    requires names != [] && a in Filtered(names[..|names| - 1], s)
    requires b !in Resolved(s.tables, names[..|names| - 1]) && Lookup(s.tables, names[|names| - 1]) == Some(b)
    ensures MentionedBefore(names, a, b)
  {
    hide Lookup, Says, Resolved, Filtered, LastOfItsName;
    var n := |names| - 1;
    FilteredExact(names[..n], s);
    ResolvedExact(s.tables, names[..n]);
    var m :| m in names[..n] && Lookup(s.tables, m) == Some(a);
    var k :| 0 <= k < n && names[..n][k] == m;
    LookupIffSaid(s.tables, m, a);
    LookupIffSaid(s.tables, names[n], b);
    assert names[k] == m;
    forall j | 0 <= j <= k ensures !Says(names[j], b) {
      assert names[..n][j] == names[j];
      LookupIffSaid(s.tables, names[j], b);
    }
  }

  /** The routing result for a parsed list: if some listed name is a table, exactly the tables so named, once each, in
      the order of their first mention; of tables whose names differ only in case, the last. Otherwise all names. */
  ghost predicate AsNamed(listed: seq<string>, tables: seq<Table>, r: seq<string>) {
    if exists n, t :: n in listed && t in tables && Says(n, t.name) then
      Distinct(r) && InOrderOfMention(listed, r)
      && forall c :: c in r <==> LastOfItsName(tables, c) && exists n :: n in listed && Says(n, c)
    else r == Names(tables)
  }

  lemma FilteredEmpty(listed: seq<string>, s: Schema)
    ensures Filtered(listed, s) == [] <==> !exists n, t :: n in listed && t in s.tables && Says(n, t.name)
  {
    hide Lookup, Filtered;
    FilteredExact(listed, s);
    if n, t :| n in listed && t in s.tables && Says(n, t.name) {
      LookupExact(s.tables, n);
      assert Lookup(s.tables, n).value in Filtered(listed, s);
    }
    if Filtered(listed, s) != [] {
      var c := Filtered(listed, s)[0];
      var n :| n in listed && Lookup(s.tables, n) == Some(c);
      LookupExact(s.tables, n);
      var i :| 0 <= i < |s.tables| && Names(s.tables)[i] == c;
      assert s.tables[i] in s.tables && Says(n, s.tables[i].name);
    }
  }

  /** What routing returns for every answer of the model: the schema without tables, the failed call and the
      unreadable list are errors, and a list is followed as `AsNamed` says. */
  lemma RouteExactly(reply: Result<string, string>, s: Schema)
    ensures var r := Routed(reply, s);
            if s.tables == [] then r == Err(NoTables)
            else
              match reply
              case Err(text) => r == Err(LlmFailed(text))
              case Ok(resp) =>
                match ParseTableList(resp)
                case Err(why) => r == Err(BadList(why))
                case Ok(listed) => r.Ok? && AsNamed(listed, s.tables, r.value)
  {
    hide ParseTableList, Filtered, Lookup, Says, LastOfItsName, InOrderOfMention;
    if s.tables != [] && reply.Ok? && ParseTableList(reply.value).Ok? {
      var listed := ParseTableList(reply.value).value;
      FilteredEmpty(listed, s);
      FilteredExact(listed, s);
      FilteredInOrder(listed, s);
      forall c
        ensures c in Filtered(listed, s) <==> LastOfItsName(s.tables, c) && exists n :: n in listed && Says(n, c)
      {
        forall n ensures Lookup(s.tables, n) == Some(c) <==> Says(n, c) && LastOfItsName(s.tables, c) {
          LookupIffSaid(s.tables, n, c);
        }
      }
    }
  }

  /** No two tables have names that differ only in case. */
  ghost predicate FoldDistinct(tables: seq<Table>) {
    forall i, j :: 0 <= i < j < |tables| ==> ToLower(tables[i].name) != ToLower(tables[j].name)
  }

  /** The sub-schema of a routing: with names that are distinct up to case, exactly the tables that some listed name
      names; all of the schema if there is none. */
  lemma RoutedTablesExact(resp: string, listed: seq<string>, s: Schema)
    requires s.tables != [] && ParseTableList(resp) == Ok(listed) && FoldDistinct(s.tables)
    ensures Routed(Ok(resp), s).Ok?
    ensures var sub := SubsetOf(s, Routed(Ok(resp), s).value);
            if exists n, t :: n in listed && t in s.tables && Says(n, t.name) then
              forall t :: t in sub.tables <==> t in s.tables && exists n :: n in listed && Says(n, t.name)
            else sub == s
  {
    hide ParseTableList, Routed, Says, InOrderOfMention, Kept;
    RouteExactly(Ok(resp), s);
    var r := Routed(Ok(resp), s).value;
    if exists n, t :: n in listed && t in s.tables && Says(n, t.name) {
      forall t ensures t in SubsetOf(s, r).tables <==> t in s.tables && t.name in r { KeptMember(s.tables, r, t); }
      forall t | t in s.tables ensures LastOfItsName(s.tables, t.name) { AloneIsLast(s.tables, t); }
    } else {
      assert forall t :: t in s.tables ==> t.name in Names(s.tables);
      KeptAll(s.tables, NameSet(r));
    }
  }

  lemma KeptMember(tables: seq<Table>, names: seq<string>, t: Table)
    ensures t in Kept(tables, NameSet(names)) <==> t in tables && t.name in names
  {
    hide Kept;
    KeptExact(tables, NameSet(names));
    assert t in Kept(tables, NameSet(names)) <==> multiset(Kept(tables, NameSet(names)))[t] > 0;
    assert t in tables <==> multiset(tables)[t] > 0;
  }

  lemma AloneIsLast(tables: seq<Table>, t: Table)
    requires t in tables && FoldDistinct(tables)
    ensures LastOfItsName(tables, t.name)
  {
    hide ToLower;
    var i :| 0 <= i < |tables| && tables[i] == t;
    assert LastNamed(tables, i, ToLower(t.name));
  }
}
