/** internal/agent/sql/validate.go: the check that referenced tables exist. */
module TableCheck {
  import opened Ascii
  import opened Regex
  import opened SchemaModel
  import opened TableScan
  import opened Wrappers

  // ---- Normalising a reference ----

  function SkipQuotes(s: string, i: nat): (r: nat)
    requires i <= |s|
    ensures i <= r <= |s|
    ensures forall j :: i <= j < r ==> s[j] == '\"'
    ensures r < |s| ==> s[r] != '\"'
    decreases |s| - i
  {
    if i < |s| && s[i] == '\"' then SkipQuotes(s, i + 1) else i
  }

  function DropQuotes(s: string, lo: nat, i: nat): (r: nat)
    requires lo <= i <= |s|
    ensures lo <= r <= i
    ensures forall j :: r <= j < i ==> s[j] == '\"'
    ensures r > lo ==> s[r - 1] != '\"'
  {
    if i > lo && s[i - 1] == '\"' then DropQuotes(s, lo, i - 1) else i
  }

  /** `strings.Trim(s, "\"")`. */
  function TrimQuotes(s: string): string {
    var a := SkipQuotes(s, 0);
    s[a..DropQuotes(s, a, |s|)]
  }

  function NormalizeTableRef(ref: string): string {
    var r := TrimQuotes(ref);
    var i := LastIndexOf(r, '.');
    TrimQuotes(if i >= 0 then r[i + 1..] else r)
  }

  // ---- The check ----

  function Captured(query: string, h: Hit): string
    requires h.from <= h.to <= |query|
  {
    query[h.from..h.to]
  }

  /** The span of the capture group lies inside the query. */
  predicate Within(query: string, h: Hit) {
    h.from <= h.to <= |query|
  }

  function RefHits(query: string): seq<Hit> {
    PatternsConsume();
    FindAll(FromJoinRe(), query, 0)
  }

  function CteHits(query: string): seq<Hit> {
    PatternsConsume();
    FindAll(CteRe(), query, 0)
  }

  /** The name a reported reference stands for, lower-cased; empty when the check skips it. */
  function RefName(query: string, h: Hit): string {
    if Within(query, h) then ToLower(NormalizeTableRef(Captured(query, h))) else ""
  }

  /** What a reference may name: a table of the schema, or a CTE the query defines. */
  function SchemaNames(s: Schema): set<string> {
    set t | t in s.tables :: ToLower(t.name)
  }

  function HitNames(query: string, hits: seq<Hit>): set<string> {
    set h | h in hits && Within(query, h) :: ToLower(Captured(query, h))
  }

  function CteNames(query: string): set<string> {
    HitNames(query, CteHits(query))
  }

  function Known(query: string, s: Schema): set<string> {
    SchemaNames(s) + CteNames(query)
  }

  /** The first reported reference with a name that is not known. */
  function FirstUnknown(query: string, hits: seq<Hit>, known: set<string>): Option<Hit> {
    if hits == [] then None
    else if RefName(query, hits[0]) != "" && RefName(query, hits[0]) !in known then Some(hits[0])
    else FirstUnknown(query, hits[1..], known)
  }

  function UnknownRef(query: string, s: Schema): Option<Hit> {
    FirstUnknown(query, RefHits(query), Known(query, s))
  }

  // ---- The error text ----

  /** The byte order of Go strings. */
  predicate StringLe(a: string, b: string) {
    a == "" || (b != "" && (a[0] < b[0] || (a[0] == b[0] && StringLe(a[1..], b[1..]))))
  }

  function Insert(x: string, xs: seq<string>): seq<string> {
    if xs == [] || StringLe(x, xs[0]) then [x] + xs else [xs[0]] + Insert(x, xs[1..])
  }

  /** `sort.Strings`. */
  function Sorted(xs: seq<string>): seq<string> {
    if xs == [] then [] else Insert(xs[0], Sorted(xs[1..]))
  }

  /** `strings.Join(xs, ", ")`. */
  function Join(xs: seq<string>): string {
    if xs == [] then "" else if |xs| == 1 then xs[0] else xs[0] + ", " + Join(xs[1..])
  }

  /** The name is quoted with `%q`, which adds only the quotes: see `SkippedExactly`. */
  function UnknownTableText(name: string, s: Schema): string {
    "table \"" + name + "\" does not exist; known tables: " + Join(Sorted(Names(s.tables)))
  }

  /** The verdict: nothing, or the error text that is fed back to the model. */
  function TableError(query: string, s: Schema): Option<string> {
    match UnknownRef(query, s)
    case None => None
    case Some(h) =>
      if Within(query, h) then Some(UnknownTableText(NormalizeTableRef(Captured(query, h)), s)) else None
  }

  method KnownList(s: Schema) returns (text: string)
    ensures text == Join(Sorted(Names(s.tables)))
  {
    var names: seq<string> := [];
    for i := 0 to |s.tables|
      invariant names == Names(s.tables)[..i]
    {
      names := names + [s.tables[i].name];
    }
    assert names == Names(s.tables);
    text := Join(Sorted(names));
  }

  method KnownTables(query: string, s: Schema) returns (known: set<string>)
    ensures known == Known(query, s)
  {
    hide ToLower, CteHits, HitNames;
    known := {};
    for i := 0 to |s.tables|
      invariant known == set t | t in s.tables[..i] :: ToLower(t.name)
    {
      known := known + {ToLower(s.tables[i].name)};
      assert s.tables[..i + 1] == s.tables[..i] + [s.tables[i]];
    }
    assert s.tables[..|s.tables|] == s.tables;
    assert known == SchemaNames(s);
    var ctes := ScanCtes(query);
    CteHitsAre(query, ctes);
    NoHitNames(query);
    for i := 0 to |ctes|
      invariant known == SchemaNames(s) + HitNames(query, ctes[..i])
    {
      var h := ctes[i];
      CteCaptured(query, h);
      OneMoreHit(query, ctes, i);
      known := known + {ToLower(query[h.from..h.to])};
    }
    assert ctes[..|ctes|] == ctes;
  }

  lemma NoHitNames(query: string)
    ensures HitNames(query, []) == {}
  {}

  lemma OneMoreHit(query: string, hits: seq<Hit>, i: nat)
    requires i < |hits| && Within(query, hits[i])
    ensures HitNames(query, hits[..i + 1]) == HitNames(query, hits[..i]) + {ToLower(Captured(query, hits[i]))}
  {
    hide ToLower;
    assert hits[..i + 1] == hits[..i] + [hits[i]];
  }

  lemma CteHitsAre(query: string, hits: seq<Hit>)
    requires Consuming(CteRe()) && hits == FindAll(CteRe(), query, 0)
    ensures hits == CteHits(query)
  {}

  method ValidateTables(query: string, s: Schema) returns (err: Option<string>)
    ensures err == TableError(query, s)
  {
    hide ToLower, NormalizeTableRef, FromJoinRe, Known;
    var known := KnownTables(query, s);
    var refs := ScanRefs(query);
    for i := 0 to |refs|
      invariant UnknownRef(query, s) == FirstUnknown(query, refs[i..], known)
    {
      var h := refs[i];
      ghost var a, body, b := RefCaptured(query, h);
      var ref := query[h.from..h.to];
      assert refs[i..][1..] == refs[i + 1..];
      if "(" <= ref {
        continue;
      }
      var name := NormalizeTableRef(ref);
      if name == "" {
        continue;
      }
      if ToLower(name) !in known {
        var list := KnownList(s);
        return Some("table \"" + name + "\" does not exist; known tables: " + list);
      }
    }
    return None;
  }

  // ---- What a capture looks like ----

  predicate IsRun(body: string) {
    body != "" && forall i :: 0 <= i < |body| ==> In(body[i], WordOrDot)
  }

  predicate OptQuote(a: string) {
    a == "" || a == "\""
  }

  /** The capture of a reported reference is an optionally quoted run of word characters and dots.
      In particular it never starts with a parenthesis. */
  lemma RefCaptured(query: string, h: Hit) returns (a: string, body: string, b: string)
    requires h in RefHits(query)
    ensures Within(query, h) && Captured(query, h) == a + body + b
    ensures OptQuote(a) && IsRun(body) && OptQuote(b)
    ensures !("(" <= Captured(query, h))
  {
    hide RefAt, FromJoinRe, Matches;
    PatternsConsume();
    FindAllSound(FromJoinRe(), query, 0);
    FromJoinRefines(query, h.start);
    a, body, b := RefParts(query, h.start);
    RefNoParen(a, body, b);
  }

  lemma RefNoParen(a: string, body: string, b: string)
    requires OptQuote(a) && IsRun(body)
    ensures !("(" <= a + body + b)
  {
    assert (a + body + b)[0] == if a == "" then body[0] else '\"';
    assert In(body[0], WordOrDot);
  }

  lemma RefParts(query: string, i: nat) returns (a: string, body: string, b: string)
    requires i <= |query| && RefAt(query, i).Some?
    ensures var h := RefAt(query, i).value;
            Within(query, h) && Captured(query, h) == a + body + b
    ensures OptQuote(a) && IsRun(body) && OptQuote(b)
    ensures var m := Past(query, Span(Space, query, i + 4), '\"'); body == query[m..Span(WordOrDot, query, m)]
  {
    var w := Span(Space, query, i + 4);
    var m := Past(query, w, '\"');
    var e := Span(WordOrDot, query, m);
    var f := Past(query, e, '\"');
    a, body, b := query[w..m], query[m..e], query[e..f];
    assert query[w..f] == a + body + b;
    QuotePart(query, w);
    QuotePart(query, e);
  }

  lemma QuotePart(query: string, i: nat)
    requires i <= |query|
    ensures OptQuote(query[i..Past(query, i, '\"')])
  {
    if i < |query| && query[i] == '\"' { assert query[i..i + 1] == "\""; }
  }

  lemma CteCaptured(query: string, h: Hit)
    requires h in CteHits(query)
    ensures Within(query, h)
  {
    PatternsConsume();
    FindAllSound(CteRe(), query, 0);
    CteRefines(query, h.start);
  }

  lemma TrimQuotesIs(a: string, m: string, b: string)
    requires (forall i :: 0 <= i < |a| ==> a[i] == '\"') && (forall i :: 0 <= i < |b| ==> b[i] == '\"')
    requires m == "" || (m[0] != '\"' && m[|m| - 1] != '\"')
    ensures TrimQuotes(a + m + b) == m
  {
    var s := a + m + b;
    if m == "" {
      assert SkipQuotes(s, 0) == |s|;
    } else {
      assert s[|a|] == m[0] && s[|a| + |m| - 1] == m[|m| - 1];
      assert SkipQuotes(s, 0) == |a|;
      assert DropQuotes(s, |a|, |s|) == |a| + |m|;
    }
  }

  /** The part of a run after its last dot. */
  function LastPart(body: string): string {
    body[LastIndexOf(body, '.') + 1..]
  }

  lemma LastPartIsWord(body: string)
    requires IsRun(body)
    ensures forall i :: 0 <= i < |LastPart(body)| ==> IsWord(LastPart(body)[i])
  {
    forall i | LastIndexOf(body, '.') < i < |body| ensures IsWord(body[i]) { assert In(body[i], WordOrDot); }
  }

  lemma WordTrims(w: string)
    requires forall i :: 0 <= i < |w| ==> IsWord(w[i])
    ensures TrimQuotes(w) == w
  {
    TrimQuotesIs("", w, "");
    assert "" + w + "" == w;
  }

  predicate Quotes(s: string) {
    forall i :: 0 <= i < |s| ==> s[i] == '\"'
  }

  /** Whatever stands before the last dot, and whatever quotes stand around the name, the name is what is left. */
  lemma NormalizesToName(before: string, open: string, name: string, close: string)
    requires Quotes(open) && Quotes(close) && '.' !in name && '\"' !in name
    ensures NormalizeTableRef(before + "." + (open + name + close)) == name
    ensures NormalizeTableRef(open + name + close) == name
  {
    hide TrimQuotes, LastIndexOf, Quotes;
    NoQuotes();
    QuotedTrims(open, name, close);
    QuotedTrims("", name, "");
    assert "" + name + "" == name;
    assert LastIndexOf(name, '.') == -1;
    var front := before[SkipQuotes(before, 0)..];
    var after := if name == "" then "" else open + name;
    OuterQuotes(before, open, name, close);
    NoDot(open, name);
    LastDot(front, after);
    assert (front + "." + after)[|front| + 1..] == after;
    QuotedTrims(open, name, "");
    assert open + name + "" == open + name;
  }

  lemma NoQuotes()
    ensures Quotes("")
  {}

  lemma NoDot(open: string, name: string)
    requires Quotes(open) && '.' !in name
    ensures '.' !in open + name
  {}

  lemma QuotedTrims(open: string, name: string, close: string)
    requires Quotes(open) && Quotes(close) && '\"' !in name
    ensures TrimQuotes(open + name + close) == name
  {
    TrimQuotesIs(open, name, close);
  }

  /** What the first trimming leaves of a qualified reference. */
  lemma OuterQuotes(before: string, open: string, name: string, close: string)
    requires Quotes(open) && Quotes(close) && '\"' !in name
    ensures TrimQuotes(before + "." + (open + name + close))
            == before[SkipQuotes(before, 0)..] + "." + if name == "" then "" else open + name
  {
    hide TrimQuotes;
    var n := SkipQuotes(before, 0);
    var front := before[n..];
    var quoted := open + name + close;
    var after := if name == "" then "" else open + name;
    var rest := if name == "" then open + close else close;
    assert quoted == after + rest;
    assert before + "." + quoted == before[..n] + (front + "." + after) + rest;
    TrimDotted(before[..n], front, after, rest);
  }

  lemma TrimDotted(open: string, front: string, after: string, close: string)
    requires Quotes(open) && Quotes(close) && (front == "" || front[0] != '\"')
    requires after == "" || after[|after| - 1] != '\"'
    ensures TrimQuotes(open + (front + "." + after) + close) == front + "." + after
  {
    hide TrimQuotes;
    var m := front + "." + after;
    assert m[0] == if front == "" then '.' else front[0];
    assert m[|m| - 1] == if after == "" then '.' else after[|after| - 1];
    TrimQuotesIs(open, m, close);
  }

  lemma LastDot(front: string, after: string)
    requires '.' !in after
    ensures LastIndexOf(front + "." + after, '.') == |front|
  {
    hide LastIndexOf;
    var s := front + "." + after;
    assert s[|front|] == '.' && s[|front| + 1..] == after;
    LastIndexIs(s, '.', |front|);
  }

  lemma LastIndexIs(s: string, c: char, i: nat)
    requires i < |s| && s[i] == c && c !in s[i + 1..]
    ensures LastIndexOf(s, c) == i
  {
    hide LastIndexOf;
    forall j | i < j < |s| ensures s[j] != c { assert s[i + 1..][j - i - 1] == s[j]; }
  }

  /** A captured reference stands for the part of its run after the last dot: quotes and qualifiers go. */
  lemma NameExact(a: string, body: string, b: string)
    requires OptQuote(a) && IsRun(body) && OptQuote(b)
    ensures NormalizeTableRef(a + body + b) == LastPart(body)
  {
    hide TrimQuotes;
    assert In(body[0], WordOrDot) && In(body[|body| - 1], WordOrDot);
    TrimQuotesIs(a, body, b);
    LastPartIsWord(body);
    WordTrims(LastPart(body));
    assert body[0..] == body;
  }

  /** A captured reference is skipped exactly when its run ends in a dot; otherwise its name is a plain word. */
  lemma SkippedExactly(a: string, body: string, b: string)
    requires OptQuote(a) && IsRun(body) && OptQuote(b)
    ensures var name := NormalizeTableRef(a + body + b);
            (name == "" <==> body[|body| - 1] == '.') && forall i :: 0 <= i < |name| ==> IsWord(name[i])
  {
    hide NormalizeTableRef;
    NameExact(a, body, b);
    LastPartIsWord(body);
  }

  // ---- Soundness of the check ----

  lemma {:induction false} FirstUnknownNone(query: string, hits: seq<Hit>, known: set<string>)
    ensures var r := FirstUnknown(query, hits, known);
            (r.None? <==> forall h :: h in hits ==> RefName(query, h) == "" || RefName(query, h) in known)
            && (r.Some? ==> r.value in hits && RefName(query, r.value) != "" && RefName(query, r.value) !in known)
  {
    if hits != [] { FirstUnknownNone(query, hits[1..], known); }
  }

  /** The check accepts exactly when every reported reference is skipped or known; and then every place where
      the pattern occurs at all is a reported reference of that kind, or lies inside an earlier one. */
  lemma AcceptsExactly(query: string, s: Schema)
    ensures TableError(query, s) == None <==>
            forall h :: h in RefHits(query) ==> RefName(query, h) == "" || RefName(query, h) in Known(query, s)
    ensures TableError(query, s) == None ==>
            forall i: nat :: i <= |query| && Occurs(FromJoinRe(), query, i) ==>
              exists h :: h in RefHits(query) && h.start <= i < h.end
                          && (RefName(query, h) == "" || RefName(query, h) in Known(query, s))
  {
    FirstUnknownNone(query, RefHits(query), Known(query, s));
    match UnknownRef(query, s) {
      case None =>
        forall i: nat | i <= |query| && Occurs(FromJoinRe(), query, i)
          ensures exists h :: h in RefHits(query) && h.start <= i < h.end
                              && (RefName(query, h) == "" || RefName(query, h) in Known(query, s))
        {
          PatternsConsume();
          FindAllCovers(FromJoinRe(), query, 0, i);
        }
      case Some(h) => var a, body, b := RefCaptured(query, h);
    }
  }

  /** A rejection names a captured table that is neither in the schema nor a CTE of the query. */
  lemma RejectionNamesUnknown(query: string, s: Schema)
    requires TableError(query, s).Some?
    ensures exists h :: h in RefHits(query) && Within(query, h)
              && var name := NormalizeTableRef(Captured(query, h));
                 name != "" && ToLower(name) !in Known(query, s)
                 && TableError(query, s) == Some(UnknownTableText(name, s))
  {
    FirstUnknownNone(query, RefHits(query), Known(query, s));
    var h := UnknownRef(query, s).value;
    var a, body, b := RefCaptured(query, h);
  }

  /** Enlarging the schema never turns acceptance into rejection. */
  lemma Monotone(query: string, s: Schema, bigger: Schema)
    requires SchemaNames(s) <= SchemaNames(bigger)
    requires TableError(query, s) == None
    ensures TableError(query, bigger) == None
  {
    AcceptsExactly(query, s);
    AcceptsExactly(query, bigger);
  }

  // ---- Letter case ----

  lemma LowerSlice(s: string, t: string, a: nat, b: nat)
    requires SameFold(s, t) && a <= b <= |s|
    ensures SameFold(s[a..b], t[a..b])
  {}

  lemma AfterDotSameFold(a: string, b: string)
    requires SameFold(a, b)
    ensures LastIndexOf(a, '.') == LastIndexOf(b, '.')
  {
    forall i | 0 <= i < |a| ensures a[i] == '.' <==> b[i] == '.' {
      assert LowerChar(a[i]) == LowerChar(b[i]);
    }
  }

  lemma NormalizeSameFold(s: string, t: string)
    requires SameFold(s, t)
    ensures SameFold(NormalizeTableRef(s), NormalizeTableRef(t))
  {
    hide TrimQuotes;
    TrimQuotesSameFold(s, t);
    var a, b := TrimQuotes(s), TrimQuotes(t);
    AfterDotSameFold(a, b);
    var i := LastIndexOf(a, '.');
    if i >= 0 {
      LowerSlice(a, b, i + 1, |a|);
      assert a[i + 1..|a|] == a[i + 1..] && b[i + 1..|a|] == b[i + 1..];
      TrimQuotesSameFold(a[i + 1..], b[i + 1..]);
    } else {
      TrimQuotesSameFold(a, b);
    }
  }

  lemma TrimQuotesSameFold(s: string, t: string)
    requires SameFold(s, t)
    ensures SameFold(TrimQuotes(s), TrimQuotes(t))
  {
    forall i | 0 <= i < |s| ensures s[i] == '\"' <==> t[i] == '\"' {
      assert LowerChar(s[i]) == LowerChar(t[i]);
    }
    var a := SkipQuotes(s, 0);
    assert a == SkipQuotes(t, 0);
    assert DropQuotes(s, a, |s|) == DropQuotes(t, a, |t|);
  }

  lemma RefNameSameFold(q: string, q': string, h: Hit)
    requires SameFold(q, q')
    ensures RefName(q, h) == RefName(q', h)
  {
    if Within(q, h) {
      LowerSlice(q, q', h.from, h.to);
      NormalizeSameFold(Captured(q, h), Captured(q', h));
      UpperOfSameFold(NormalizeTableRef(Captured(q, h)), NormalizeTableRef(Captured(q', h)));
    }
  }

  /** The spans both expressions report, and the decision, do not depend on the case of letters. */
  lemma CheckSameFold(q: string, q': string, s: Schema)
    requires SameFold(q, q')
    ensures RefHits(q) == RefHits(q') && CteHits(q) == CteHits(q')
    ensures TableError(q, s).None? == TableError(q', s).None?
  {
    PatternsConsume();
    FindAllSameFold(FromJoinRe(), q, q', 0);
    FindAllSameFold(CteRe(), q, q', 0);
    forall h | h in CteHits(q) && Within(q, h) ensures ToLower(Captured(q, h)) == ToLower(Captured(q', h)) {
      LowerSlice(q, q', h.from, h.to);
      UpperOfSameFold(Captured(q, h), Captured(q', h));
    }
    assert CteNames(q) == CteNames(q');
    forall h | h in RefHits(q) ensures RefName(q, h) == RefName(q', h) { RefNameSameFold(q, q', h); }
    AcceptsExactly(q, s);
    AcceptsExactly(q', s);
  }

  // ---- The known list ----

  predicate Ascending(xs: seq<string>) {
    |xs| <= 1 || (StringLe(xs[0], xs[1]) && Ascending(xs[1..]))
  }

  lemma {:induction false} StringLeTotal(a: string, b: string)
    ensures StringLe(a, b) || StringLe(b, a)
  {
    if a != "" && b != "" { StringLeTotal(a[1..], b[1..]); }
  }

  lemma {:induction false} InsertKeepsOrder(x: string, xs: seq<string>)
    requires Ascending(xs)
    ensures Ascending(Insert(x, xs)) && multiset(Insert(x, xs)) == multiset(xs) + multiset{x}
    ensures Insert(x, xs)[0] == x || (xs != [] && Insert(x, xs)[0] == xs[0])
  {
    if xs == [] || StringLe(x, xs[0]) {
    } else {
      StringLeTotal(x, xs[0]);
      InsertKeepsOrder(x, xs[1..]);
      assert xs == [xs[0]] + xs[1..];
      assert ([xs[0]] + Insert(x, xs[1..]))[1..] == Insert(x, xs[1..]);
    }
  }

  /** The list in the error text holds every table name of the schema, as often as there, in byte order. */
  lemma {:induction false} SortedIsSorted(xs: seq<string>)
    ensures Ascending(Sorted(xs)) && multiset(Sorted(xs)) == multiset(xs)
  {
    if xs != [] {
      SortedIsSorted(xs[1..]);
      InsertKeepsOrder(xs[0], Sorted(xs[1..]));
      assert xs == [xs[0]] + xs[1..];
    }
  }

  // ---- Where the check falls short of "every referenced table exists" ----

  /** A reference is never looked up exactly when its run, up to `e`, ends in a dot: so it is for a
      schema-qualified quoted name, whose quote ends the run. */
  lemma NeverLookedUp(query: string, i: nat, e: nat)
    requires i <= |query| && RefAt(query, i).Some?
    requires e == Span(WordOrDot, query, Past(query, Span(Space, query, i + 4), '\"'))
    ensures RefName(query, RefAt(query, i).value) == "" <==> query[e - 1] == '.'
  {
    hide NormalizeTableRef, RefAt, IsRun, OptQuote, ToLower, Past;
    var h := RefAt(query, i).value;
    var a, body, b := RefParts(query, i);
    SkippedExactly(a, body, b);
    RunNotEmpty(body);
  }

  lemma RunNotEmpty(body: string)
    requires IsRun(body)
    ensures body != ""
  {}

  /** The name looked up for a reference: the part after the last dot of its run. The run starts after the white
      space and at most one quote, and ends at the first character that is no word character and no dot; so a quoted
      name is cut at its first blank. */
  lemma LooksUpRun(query: string, i: nat)
    requires i <= |query| && RefAt(query, i).Some?
    ensures var m := Past(query, Span(Space, query, i + 4), '\"');
            RefName(query, RefAt(query, i).value) == ToLower(LastPart(query[m..Span(WordOrDot, query, m)]))
  {
    hide NormalizeTableRef, RefAt, IsRun, OptQuote, ToLower, Past, LastPart;
    var a, body, b := RefParts(query, i);
    NameExact(a, body, b);
  }

  /** The run of the reference ends in a dot. */
  predicate RunEndsInDot(query: string, h: Hit) {
    h.from <= |query|
    && var m := Past(query, h.from, '\"');
       var e := Span(WordOrDot, query, m);
       e > m && query[e - 1] == '.'
  }

  lemma SkippedHit(query: string, h: Hit)
    requires h in RefHits(query)
    ensures RefName(query, h) == "" <==> RunEndsInDot(query, h)
  {
    hide RefAt, RefName, RefHits, Past;
    HitIsAt(query, h);
    RefSpans(query, h.start);
    var m := Past(query, h.from, '\"');
    NeverLookedUp(query, h.start, Span(WordOrDot, query, m));
  }

  lemma HitIsAt(query: string, h: Hit)
    requires h in RefHits(query)
    ensures h.start <= |query| && RefAt(query, h.start) == Some(h)
  {
    hide RefAt, FromJoinRe, Matches;
    PatternsConsume();
    FindAllSound(FromJoinRe(), query, 0);
    FromJoinRefines(query, h.start);
  }

  lemma RefSpans(query: string, i: nat)
    requires i <= |query| && RefAt(query, i).Some?
    ensures var h := RefAt(query, i).value;
            i + 4 <= |query| && h.from == Span(Space, query, i + 4)
            && var m := Past(query, h.from, '\"'); m <= |query| && Span(WordOrDot, query, m) > m
  {}

  /** A query passes with every schema exactly when each of its reported references has a run that ends in a dot, or
      names a CTE. */
  lemma PassesAnySchema(query: string)
    ensures (forall s: Schema :: TableError(query, s) == None) <==>
            forall h :: h in RefHits(query) ==> RunEndsInDot(query, h) || RefName(query, h) in CteNames(query)
  {
    hide TableError, RefName, RunEndsInDot, CteNames, RefHits;
    forall h | h in RefHits(query) ensures RefName(query, h) == "" <==> RunEndsInDot(query, h) { SkippedHit(query, h); }
    var none := Schema("", []);
    assert SchemaNames(none) == {};
    AcceptsExactly(query, none);
    forall s: Schema
      ensures (forall h :: h in RefHits(query) ==> RunEndsInDot(query, h) || RefName(query, h) in CteNames(query))
              ==> TableError(query, s) == None
    {
      AcceptsExactly(query, s);
    }
  }

  lemma StartsWith(query: string, i: nat)
    requires FoldAt(query, i, "with")
    ensures i < |query| && LowerChar(query[i]) == 'w'
  {
    assert LowerChar(query[i + 0]) == "with"[0];
  }

  /** `recursive` is read as the name. */
  lemma RecursiveIsName(query: string, i: nat, w: nat)
    requires FoldAt(query, w, "recursive") && Span(Word, query, w + 1) == w + 9
    ensures var x := Span(Space, query, w + 9);
            HeaderFrom(query, i, w).Some? <==>
              x > w + 9 && FoldAt(query, x, "as") && var y := Span(Space, query, x + 2); y < |query| && query[y] == '('
  {
    var word := "recursive";
    assert LowerChar(query[w + 0]) == word[0];
    assert In(query[w], IdentStart);
  }

  /** Where `WITH RECURSIVE` stands, the expression reads `recursive` as the name: it finds a CTE header there
      exactly when the next word is `as` with its parenthesis, whatever the text means. */
  lemma RecursiveExact(query: string, i: nat)
    requires i <= |query| && FoldAt(query, i, "with")
    requires var w := Span(Space, query, i + 4);
             w > i + 4 && FoldAt(query, w, "recursive") && Span(Word, query, w + 1) == w + 9
    ensures var x := Span(Space, query, Span(Space, query, i + 4) + 9);
            Occurs(CteRe(), query, i) <==>
              Boundary(query, i) && x > Span(Space, query, i + 4) + 9 && FoldAt(query, x, "as")
              && var y := Span(Space, query, x + 2); y < |query| && query[y] == '('
  {
    hide CteRe, Matches, FoldAt;
    var w := Span(Space, query, i + 4);
    FoldFits(query, i, "with");
    FoldFits(query, w, "recursive");
    StartsWith(query, i);
    assert In(query[i + 4], Space) && !IsWord(query[i + 4]);
    EndsInLetter(query, i);
    assert Boundary(query, i + 4);
    RecursiveIsName(query, i, w);
    CteRefines(query, i);
    OccursIffHit(CteRe(), query, i);
  }

  lemma EndsInLetter(query: string, i: nat)
    requires FoldAt(query, i, "with")
    ensures i + 4 <= |query| && IsWord(query[i + 3])
  {
    assert LowerChar(query[i + 3]) == "with"[3];
  }

  // ---- What the error text shows ----

  lemma ContainsAround(a: string, s: string, b: string, pat: string)
    requires Contains(s, pat)
    ensures Contains(a + s + b, pat)
  {
    var i :| HasAt(s, pat, i);
    var whole := a + s + b;
    assert whole[|a| + i..|a| + i + |pat|] == s[i..i + |pat|];
    assert HasAt(whole, pat, |a| + i);
  }

  lemma ContainsItself(s: string)
    ensures Contains(s, s)
  {
    assert s[0..|s|] == s;
    assert HasAt(s, s, 0);
  }

  /** A joined list shows each of its members. */
  lemma {:induction false} JoinShows(xs: seq<string>, x: string)
    requires x in xs
    ensures Contains(Join(xs), x)
  {
    hide Contains;
    ContainsItself(x);
    if |xs| == 1 {
      assert xs == [x];
    } else if x == xs[0] {
      ContainsAround("", x, ", " + Join(xs[1..]), x);
      assert "" + x + (", " + Join(xs[1..])) == Join(xs);
    } else {
      JoinShows(xs[1..], x);
      ContainsAround(xs[0] + ", ", Join(xs[1..]), "", x);
      assert xs[0] + ", " + Join(xs[1..]) + "" == Join(xs);
    }
  }

  /** The text that is fed back shows the unknown name and every table of the schema. */
  lemma ErrorShowsTables(name: string, s: Schema, t: Table)
    requires t in s.tables
    ensures Contains(UnknownTableText(name, s), t.name)
    ensures "table \"" + name + "\" does not exist; known tables: " <= UnknownTableText(name, s)
  {
    hide Contains, Join, Sorted;
    var names := Names(s.tables);
    var i :| 0 <= i < |s.tables| && s.tables[i] == t;
    assert names[i] == t.name;
    SortedIsSorted(names);
    assert t.name in multiset(names);
    assert t.name in multiset(Sorted(names));
    JoinShows(Sorted(names), t.name);
    var head := "table \"" + name + "\" does not exist; known tables: ";
    ContainsAround(head, Join(Sorted(names)), "", t.name);
    assert head + Join(Sorted(names)) + "" == UnknownTableText(name, s);
  }

  /** Where two texts part. */
  predicate PartAt(a: string, b: string, k: int) {
    0 <= k <= |a| && k <= |b| && a[..k] == b[..k] && (k == |a| || (k < |b| && a[k] < b[k]))
  }

  /** The order of the list is that of the first character in which two texts differ; a prefix comes first. */
  lemma {:induction false} OrderExact(a: string, b: string)
    ensures StringLe(a, b) <==> exists k :: PartAt(a, b, k)
  {
    if a == "" {
      assert PartAt(a, b, 0);
    } else if b != "" && a[0] == b[0] {
      OrderExact(a[1..], b[1..]);
      if k :| PartAt(a[1..], b[1..], k) {
        assert a[..k + 1] == [a[0]] + a[1..][..k] && b[..k + 1] == [b[0]] + b[1..][..k];
        assert PartAt(a, b, k + 1);
      }
      if k :| PartAt(a, b, k) {
        assert k > 0;
        assert a[1..][..k - 1] == a[..k][1..] && b[1..][..k - 1] == b[..k][1..];
        assert PartAt(a[1..], b[1..], k - 1);
      }
    } else {
      if StringLe(a, b) { assert PartAt(a, b, 0); }
      forall k | PartAt(a, b, k) ensures StringLe(a, b) {
        if k > 0 { assert a[..k][0] == b[..k][0]; }
      }
    }
  }
}
