/** The inputs at which the code falls short of what its comments promise. The exact conditions are in the modules
    of the code concerned. */
module Findings {
  import opened Ascii
  import opened Gate
  import opened Guard
  import opened References
  import opened Regex
  import opened SchemaModel
  import opened TableCheck
  import opened TableScan
  import opened Wrappers

  // ---- A query with one reported reference ----

  lemma OnlyHit(query: string, p: nat, h: Hit)
    requires p <= |query| && RefAt(query, p) == Some(h)
    requires forall i: nat :: i <= |query| && i != p ==> RefAt(query, i).None?
    ensures forall g :: g in RefHits(query) <==> g == h
  {
    hide RefAt, FromJoinRe, Matches;
    forall g | g in RefHits(query) ensures g == h { HitIsAt(query, g); }
    PatternsConsume();
    FromJoinRefines(query, p);
    OccursIffHit(FromJoinRe(), query, p);
    FindAllCovers(FromJoinRe(), query, 0, p);
  }

  /** Such a query passes exactly when its reference is skipped or known. */
  lemma OneReference(query: string, p: nat, h: Hit, s: Schema)
    requires p <= |query| && RefAt(query, p) == Some(h)
    requires forall i: nat :: i <= |query| && i != p ==> RefAt(query, i).None?
    ensures TableError(query, s) == None <==> RefName(query, h) == "" || RefName(query, h) in Known(query, s)
  {
    hide RefAt, TableError, RefHits, RefName, Known;
    OnlyHit(query, p, h);
    AcceptsExactly(query, s);
  }

  lemma NoCtes(query: string)
    requires forall i: nat :: i <= |query| ==> CteAt(query, i).None?
    ensures CteNames(query) == {}
  {
    hide CteAt, CteRe, Matches;
    PatternsConsume();
    FindAllSound(CteRe(), query, 0);
    forall h | h in CteHits(query) ensures false { CteRefines(query, h.start); }
  }

  /** None of the letters stands in the text, in either case. */
  predicate Avoids(s: string, letters: set<char>) {
    forall j :: 0 <= j < |s| ==> LowerChar(s[j]) !in letters
  }

  lemma AvoidsBoth(a: string, b: string, letters: set<char>)
    requires Avoids(a, letters) && Avoids(b, letters)
    ensures Avoids(a + b, letters)
  {
    forall j | 0 <= j < |a + b| ensures LowerChar((a + b)[j]) !in letters {
      assert (a + b)[j] == if j < |a| then a[j] else b[j - |a|];
    }
  }

  /** A word is found only where its first letter stands. */
  lemma FoldNeedsFirst(s: string, i: nat, w: string)
    requires w != "" && i <= |s| && (i == |s| || LowerChar(s[i]) != w[0])
    ensures !FoldAt(s, i, w)
  {
    if i < |s| { assert LowerChar(s[i + 0]) != w[0]; }
  }

  /** Where neither word starts nor a comma stands, neither expression matches. */
  lemma NothingAt(s: string, i: nat)
    requires i <= |s|
    ensures i == |s| || LowerChar(s[i]) !in {'f', 'j'} ==> RefAt(s, i).None?
    ensures i == |s| || LowerChar(s[i]) !in {'w', ','} ==> CteAt(s, i).None?
  {
    hide RefFrom, CteFrom, FoldAt;
    if i == |s| || LowerChar(s[i]) !in {'f', 'j'} {
      FoldNeedsFirst(s, i, "from");
      FoldNeedsFirst(s, i, "join");
    }
    if i == |s| || LowerChar(s[i]) !in {'w', ','} { FoldNeedsFirst(s, i, "with"); }
  }

  /** The run of a reference: where it starts, and where it ends. */
  function RunFrom(ref: string): nat {
    Past(ref, 0, '\"')
  }

  function RunTo(ref: string): nat {
    Span(WordOrDot, ref, RunFrom(ref))
  }

  /** The text `ref` stands after `from` and one blank. */
  predicate SoleFrom(front: string, ref: string) {
    Avoids(front, {'f', 'j'}) && Avoids(ref, {'f', 'j'})
    && (front == "" || !IsWord(front[|front| - 1]))
    && ref != "" && !In(ref[0], Space) && RunTo(ref) > RunFrom(ref)
  }

  function Query(front: string, ref: string): string {
    front + ("from " + ref)
  }

  lemma QueryParts(front: string, ref: string)
    ensures var q := Query(front, ref);
            var n := |front|;
            |q| == n + 5 + |ref| && q[..n] == front && q[n + 5..] == ref
            && q[n] == 'f' && q[n + 1] == 'r' && q[n + 2] == 'o' && q[n + 3] == 'm' && q[n + 4] == ' '
  {
    var q := Query(front, ref);
    var n := |front|;
    var word := "from ";
    assert q[n..n + 5] == word;
    assert q[n] == word[0] && q[n + 1] == word[1] && q[n + 2] == word[2] && q[n + 3] == word[3] && q[n + 4] == word[4];
  }

  lemma FromSpans(front: string, ref: string)
    requires ref != "" && !In(ref[0], Space)
    ensures var q := Query(front, ref);
            var p := |front| + 5;
            |q| == p + |ref| && Span(Space, q, |front| + 4) == p
            && Past(q, p, '\"') == p + RunFrom(ref)
            && Span(WordOrDot, q, p + RunFrom(ref)) == p + RunTo(ref)
            && Past(q, p + RunTo(ref), '\"') == p + Past(ref, RunTo(ref), '\"')
  {
    hide Query;
    QueryParts(front, ref);
    var q := Query(front, ref);
    var p := |front| + 5;
    assert q[p..][0] == q[p];
    assert Span(Space, q, p) == p;
    assert RunTo(ref) < |ref| ==> q[p..][RunTo(ref)] == q[p + RunTo(ref)];
    SpanShift(WordOrDot, q, p, p + RunFrom(ref));
  }

  lemma FromAt(front: string, ref: string)
    requires SoleFrom(front, ref)
    ensures var q := Query(front, ref);
            var end := |front| + 5 + Past(ref, RunTo(ref), '\"');
            RefAt(q, |front|) == Some(Hit(|front|, end, |front| + 5, end))
  {
    hide Query, Past, RunFrom, RunTo, Span;
    QueryParts(front, ref);
    FromSpans(front, ref);
    var q := Query(front, ref);
    var word := "from";
    assert word[0] == 'f' && word[1] == 'r' && word[2] == 'o' && word[3] == 'm';
    assert FoldAt(q, |front|, word);
    assert front != "" ==> q[..|front|][|front| - 1] == q[|front| - 1];
    assert Boundary(q, |front|);
  }

  lemma FromOnlyAt(front: string, ref: string, i: nat)
    requires SoleFrom(front, ref) && i <= |Query(front, ref)| && i != |front|
    ensures RefAt(Query(front, ref), i).None?
  {
    hide RefAt;
    var q := Query(front, ref);
    var rest := "rom ";
    assert Avoids(rest, {'f', 'j'});
    if i < |q| {
      assert "from " == ['f'] + rest;
      assert q[i] == if i < |front| then front[i] else if i < |front| + 5 then rest[i - |front| - 1] else ref[i - |front| - 5];
    }
    NothingAt(q, i);
  }

  lemma SliceShift(s: string, p: nat, a: nat, b: nat)
    requires p <= |s| && a <= b <= |s| - p
    ensures s[p + a..p + b] == s[p..][a..b]
  {}

  /** The verdict on a query with one `from`: its reference is skipped or known. */
  lemma FromVerdict(front: string, ref: string, s: Schema)
    requires SoleFrom(front, ref)
    ensures var name := ToLower(LastPart(ref[RunFrom(ref)..RunTo(ref)]));
            TableError(Query(front, ref), s) == None <==> name == "" || name in Known(Query(front, ref), s)
  {
    hide RefAt, TableError, RefName, Known, LastPart, ToLower, RunFrom, RunTo, Avoids;
    var q := Query(front, ref);
    FromAt(front, ref);
    FromSpans(front, ref);
    forall i: nat | i <= |q| && i != |front| ensures RefAt(q, i).None? { FromOnlyAt(front, ref, i); }
    LooksUpRun(q, |front|);
    var p := |front| + 5;
    QueryParts(front, ref);
    SliceShift(q, p, RunFrom(ref), RunTo(ref));
    OneReference(q, |front|, RefAt(q, |front|).value, s);
  }

  /** The guard lets through a text with one statement and an allowed first word. */
  lemma Passes(u: string)
    requires u != "" && Trimmed(u) && OneStatement(u) && Allowed(ToUpper(u[..NextSpace(u, 0)]))
    ensures InLanguage(u)
  {
    hide FirstKeyword, ToUpper;
    KeywordIs(u);
  }

  lemma PlainPasses(u: string)
    requires u != "" && Trimmed(u) && ';' !in u && Allowed(ToUpper(u[..NextSpace(u, 0)]))
    ensures Verdicts(u) == Accept
  {
    hide InLanguage, Strip, ToUpper;
    StripOfSolid(u);
    Passes(u);
    CheckLanguage(u);
  }

  /** A text that starts with `select` and a blank. */
  lemma SelectFirst(q: string)
    requires "select " <= q
    ensures q[..NextSpace(q, 0)] == "select" && ToUpper("select") == "SELECT" && !IsSpace(q[0])
  {
    var w := "select ";
    assert forall j :: 0 <= j < 7 ==> q[j] == w[j];
    assert forall j :: 0 <= j < 6 ==> !IsSpace(w[j]);
    assert IsSpace(q[6]) by { assert w[6] == ' '; }
    assert NextSpace(q, 0) == 6;
    assert q[..6] == w[..6] == "select";
    UpperSelect();
  }

  lemma UpperSelect()
    ensures ToUpper("select") == "SELECT" && ToUpper("with") == "WITH" && ToUpper("SELECT") == "SELECT"
  {
    assert forall j :: 0 <= j < 6 ==> UpperChar("select"[j]) == "SELECT"[j] && UpperChar("SELECT"[j]) == "SELECT"[j];
    assert forall j :: 0 <= j < 4 ==> UpperChar("with"[j]) == "WITH"[j];
  }

  // ---- Quoted names ----

  const SELECT_ALL: string := "select * "

  lemma SelectAllAvoids()
    ensures Avoids(SELECT_ALL, {'f', 'j'}) && Avoids(SELECT_ALL, {'w', ','}) && Avoids("from ", {'w', ','})
    ensures |SELECT_ALL| == 9 && SELECT_ALL[8] == ' ' && "select " <= SELECT_ALL && ';' !in SELECT_ALL
  {}

  lemma SelectAllPasses(ref: string)
    requires ref != "" && !IsSpace(ref[|ref| - 1]) && ';' !in ref
    ensures Verdicts(Query(SELECT_ALL, ref)) == Accept
  {
    hide Verdicts;
    SelectAllAvoids();
    var q := Query(SELECT_ALL, ref);
    var word := "from ";
    assert ';' !in word;
    assert ';' !in word + ref;
    assert q[..7] == SELECT_ALL[..7] == "select ";
    SelectFirst(q);
    assert q[|q| - 1] == ref[|ref| - 1];
    PlainPasses(q);
  }

  lemma SelectAllDefinesNothing(ref: string)
    requires Avoids(ref, {'w', ','})
    ensures CteNames(Query(SELECT_ALL, ref)) == {}
  {
    hide CteAt, CteNames;
    SelectAllAvoids();
    var q := Query(SELECT_ALL, ref);
    AvoidsBoth("from ", ref, {'w', ','});
    AvoidsBoth(SELECT_ALL, "from " + ref, {'w', ','});
    forall i: nat | i <= |q| ensures CteAt(q, i).None? { NothingAt(q, i); }
    NoCtes(q);
  }

  const QUALIFIED: string := "a.\"b\""

  lemma QualifiedText()
    ensures Query(SELECT_ALL, QUALIFIED) == "select * from a.\"b\""
  {}

  /** The guard accepts the query `select * from a."b"`, and so does the table check, whatever the schema holds: the
      table it names is never looked up. */
  lemma QualifiedQuotedPasses(s: Schema)
    ensures var q := "select * from a.\"b\""; Verdicts(q) == Accept && TableError(q, s) == None
  {
    hide Verdicts, TableError, Known, ToLower;
    var ref := QUALIFIED;
    QualifiedText();
    SelectAllAvoids();
    assert |ref| == 5 && ref[0] == 'a' && ref[1] == '.' && ref[2] == '\"' && ref[3] == 'b' && ref[4] == '\"';
    assert RunFrom(ref) == 0 && RunTo(ref) == 2;
    assert LastPart(ref[0..2]) == "";
    SelectAllPasses(ref);
    FromVerdict(SELECT_ALL, ref, s);
  }

  const QUOTED_BLANK: string := "\"vehicles x\""

  lemma QuotedBlankText()
    ensures Query(SELECT_ALL, QUOTED_BLANK) == "select * from \"vehicles x\""
  {}

  /** The guard accepts `select * from "vehicles x"`, and the table check takes it for a reference to `vehicles`. */
  lemma QuotedBlankIsCut(s: Schema)
    ensures var q := "select * from \"vehicles x\"";
            Verdicts(q) == Accept && (TableError(q, s) == None <==> "vehicles" in SchemaNames(s))
  {
    hide Verdicts, TableError, Known, ToLower, LastPart;
    var ref := QUOTED_BLANK;
    QuotedBlankText();
    SelectAllAvoids();
    QuotedBlankChars();
    VehiclesIsRun();
    SelectAllPasses(ref);
    SelectAllDefinesNothing(ref);
    FromVerdict(SELECT_ALL, ref, s);
    KnownFromSchema(Query(SELECT_ALL, ref), s);
  }

  lemma QuotedBlankChars()
    ensures var ref := QUOTED_BLANK;
            |ref| == 12 && ref[0] == '\"' && ref[11] == '\"' && ';' !in ref
            && Avoids(ref, {'f', 'j'}) && Avoids(ref, {'w', ','})
  {}

  lemma VehiclesIsRun()
    ensures RunFrom(QUOTED_BLANK) == 1 && RunTo(QUOTED_BLANK) == 9
    ensures ToLower(LastPart(QUOTED_BLANK[1..9])) == "vehicles"
  {
    var ref, name := QUOTED_BLANK, "vehicles";
    assert ref[0] == '\"' && ref[9] == ' ' && ref[1..9] == name;
    forall j | 1 <= j < 9 ensures IsWord(ref[j]) { assert ref[j] == name[j - 1]; }
    assert RunTo(ref) == 9;
    assert forall j :: 0 <= j < 8 ==> LowerChar(name[j]) == name[j] && name[j] != '.';
    assert LastIndexOf(name, '.') == -1;
    assert name[0..] == name;
    assert ToLower(name) == name;
  }

  lemma KnownFromSchema(query: string, s: Schema)
    requires CteNames(query) == {}
    ensures Known(query, s) == SchemaNames(s)
  {}

  // ---- Recursive CTEs ----

  /** The two words, and what stands between them and `from`. */
  const WITH_RECURSIVE: string := "with recursive "
  const HEADER: string := "t as (select 1) "
  const RECURSIVE: string := WITH_RECURSIVE + (HEADER + SELECT_ALL)

  /** No CTE header is found: `with` is followed by the word `recursive`, and then not by `as`. */
  lemma RecursiveDefinesNothing()
    ensures CteNames(Query(RECURSIVE, "t")) == {}
  {
    hide CteAt, CteNames;
    var q := Query(RECURSIVE, "t");
    RecursiveRest(q);
    WithRecursive(q);
    RecursiveExact(q, 0);
    CteRefines(q, 0);
    OccursIffHit(CteRe(), q, 0);
    forall i: nat | i <= |q| ensures CteAt(q, i).None? {
      if i > 0 {
        if i < |q| { assert q[i] == q[1..][i - 1]; }
        NothingAt(q, i);
      }
    }
    NoCtes(q);
  }

  lemma RecursiveRest(q: string)
    requires q == Query(RECURSIVE, "t")
    ensures |q| == 46 && q[..15] == WITH_RECURSIVE && q[15] == 't' && q[45] == 't'
    ensures Avoids(q[1..], {'w', ','})
  {
    hide Avoids;
    PartsDefineNothing();
    var a, b, c := WITH_RECURSIVE[1..], HEADER + SELECT_ALL, "from t";
    AvoidsBoth(HEADER, SELECT_ALL, {'w', ','});
    AvoidsBoth(b, c, {'w', ','});
    AvoidsBoth(a, b + c, {'w', ','});
    assert "from " + "t" == c && c[5] == 't' && HEADER[0] == 't';
    assert q[1..] == a + (b + c);
    assert q[15] == b[0];
  }

  lemma PartsDefineNothing()
    ensures |WITH_RECURSIVE| == 15 && |HEADER| == 16 && |SELECT_ALL| == 9
    ensures Avoids(WITH_RECURSIVE[1..], {'w', ','}) && Avoids(HEADER, {'w', ','}) && Avoids(SELECT_ALL, {'w', ','})
            && Avoids("from t", {'w', ','})
  {
    assert WITH_RECURSIVE[1..] == "ith recursive ";
  }

  lemma PartsReferToNothing()
    ensures Avoids(WITH_RECURSIVE, {'f', 'j'}) && Avoids(HEADER, {'f', 'j'}) && Avoids(SELECT_ALL, {'f', 'j'})
            && Avoids("t", {'f', 'j'})
    ensures SELECT_ALL[8] == ' '
  {}

  lemma RecursiveWords()
    ensures |WITH_RECURSIVE| == 15 && HasAt(WITH_RECURSIVE, "with", 0) && HasAt(WITH_RECURSIVE, "recursive", 5)
    ensures WITH_RECURSIVE[4] == ' ' && WITH_RECURSIVE[14] == ' '
    ensures forall j :: 0 <= j < 4 ==> LowerChar("with"[j]) == "with"[j] && IsWord("with"[j])
    ensures forall j :: 0 <= j < 9 ==> LowerChar("recursive"[j]) == "recursive"[j] && IsWord("recursive"[j])
  {}

  lemma WithRecursive(q: string)
    requires |q| == 46 && q[..15] == WITH_RECURSIVE && q[15] == 't'
    ensures FoldAt(q, 0, "with") && Span(Space, q, 4) == 5 && FoldAt(q, 5, "recursive") && Span(Word, q, 6) == 14
            && Span(Space, q, 14) == 15 && !FoldAt(q, 15, "as")
    ensures q[..4] == "with" && q[4] == ' '
  {
    hide HasAt, FoldAt;
    RecursiveWords();
    var head, with, recursive := q[..15], "with", "recursive";
    HasInPrefix(q, 15, with, 0);
    HasInPrefix(q, 15, recursive, 5);
    WordIsFold(q, 0, with);
    WordIsFold(q, 5, recursive);
    assert q[4] == head[4] && q[14] == head[14];
    forall j | 6 <= j < 14 ensures IsWord(q[j]) { assert q[j] == q[5..14][j - 5]; }
    FoldNeedsFirst(q, 15, "as");
  }

  lemma HasInPrefix(s: string, n: nat, w: string, i: nat)
    requires n <= |s| && HasAt(s[..n], w, i)
    ensures HasAt(s, w, i) && i + |w| <= |s| && s[i..i + |w|] == w
  {
    assert s[..n][i..i + |w|] == s[i..i + |w|];
  }

  /** A word that stands in the text, written in lower case, is found there. */
  lemma WordIsFold(s: string, i: nat, w: string)
    requires HasAt(s, w, i) && forall j :: 0 <= j < |w| ==> LowerChar(w[j]) == w[j]
    ensures FoldAt(s, i, w)
  {
    forall j | 0 <= j < |w| ensures LowerChar(s[i + j]) == w[j] { assert s[i + j] == s[i..i + |w|][j]; }
  }

  /** The guard accepts the query, but the table check refuses it unless the schema happens to hold a table `t`: the
      CTE it defines does not count. */
  lemma RecursiveCteRefused(s: Schema)
    ensures var q := "with recursive t as (select 1) select * from t";
            Verdicts(q) == Accept && (TableError(q, s) == None <==> "t" in SchemaNames(s))
  {
    hide Verdicts, TableError, Known, CteNames, SchemaNames, SoleFrom, RunFrom, RunTo, Query, ToLower, LastPart;
    RecursiveText();
    RecursivePasses();
    RecursiveDefinesNothing();
    RecursiveIsSole();
    LetterIsName('t');
    assert ['t'] == "t";
    FromVerdict(RECURSIVE, "t", s);
    KnownFromSchema(Query(RECURSIVE, "t"), s);
  }

  lemma RecursiveText()
    ensures Query(RECURSIVE, "t") == "with recursive t as (select 1) select * from t"
  {}

  /** A reference that is one lower-case letter is its own name. */
  lemma LetterIsName(c: char)
    requires 'a' <= c <= 'z'
    ensures RunFrom([c]) == 0 && RunTo([c]) == 1 && ToLower(LastPart([c][0..1])) == [c]
  {
    var name := [c];
    assert IsWord(c) && In(name[0], WordOrDot);
    assert RunFrom(name) == 0 && RunTo(name) == 1;
    assert name[0..1] == name && LastIndexOf(name, '.') == -1 && name[0..] == name;
    assert ToLower(name) == name;
  }

  lemma RecursiveIsSole()
    ensures SoleFrom(RECURSIVE, "t")
  {
    hide Avoids;
    PartsReferToNothing();
    AvoidsBoth(HEADER, SELECT_ALL, {'f', 'j'});
    AvoidsBoth(WITH_RECURSIVE, HEADER + SELECT_ALL, {'f', 'j'});
    assert RECURSIVE[|RECURSIVE| - 1] == SELECT_ALL[8];
    assert RunFrom("t") == 0 && RunTo("t") == 1;
  }

  lemma RecursivePasses()
    ensures Verdicts(Query(RECURSIVE, "t")) == Accept
  {
    hide Verdicts, Query, Avoids;
    var q := Query(RECURSIVE, "t");
    RecursiveRest(q);
    WithRecursive(q);
    assert q[..5] == WITH_RECURSIVE[..5];
    RecursiveNoSemicolon(q);
    WithPasses(q);
  }

  /** The guard lets through a text that starts with `with` and a blank, and has no semicolon. */
  lemma WithPasses(q: string)
    requires |q| > 5 && q[..5] == "with " && ';' !in q && !IsSpace(q[|q| - 1])
    ensures Verdicts(q) == Accept
  {
    hide Verdicts;
    var w := "with ";
    assert w[0] == 'w' && w[1] == 'i' && w[2] == 't' && w[3] == 'h' && w[4] == ' ';
    assert forall j :: 0 <= j < 5 ==> q[j] == q[..5][j];
    assert NextSpace(q, 0) == 4;
    assert q[..4] == q[..5][..4] == "with";
    UpperSelect();
    PlainPasses(q);
  }

  lemma RecursiveNoSemicolon(q: string)
    requires q == Query(RECURSIVE, "t")
    ensures ';' !in q && !IsSpace(q[|q| - 1])
  {
    assert ';' !in WITH_RECURSIVE && ';' !in HEADER && ';' !in SELECT_ALL;
    var end := "from " + "t";
    assert ';' !in end && end[5] == 't';
    assert ';' !in HEADER + SELECT_ALL;
    assert q[|q| - 1] == end[5];
  }

  // ---- A column list ----

  const COLUMN_LIST: string := "with t(n) as (select 1) "

  lemma ColumnListParts()
    ensures |COLUMN_LIST| == 24 && COLUMN_LIST[..7] == "with t(" && ';' !in COLUMN_LIST && COLUMN_LIST[..5] == "with "
    ensures Avoids(COLUMN_LIST, {'f', 'j'})
  {}

  lemma ColumnListDefines()
    ensures Avoids(COLUMN_LIST[1..], {'w', ','})
  {
    assert COLUMN_LIST[1..] == "ith t(n) as (select 1) ";
  }

  /** A name with a parenthesis right after it is no header. */
  lemma ColumnListIsNoHeader(q: string)
    requires |q| > 7 && q[..7] == "with t("
    ensures CteAt(q, 0).None?
  {
    hide FoldAt;
    var w := "with t(";
    assert w[4] == ' ' && w[5] == 't' && w[6] == '(' && w[0] == 'w';
    assert forall j :: 0 <= j < 7 ==> q[j] == q[..7][j];
    assert Span(Space, q, 4) == 5 && Span(Word, q, 6) == 6 && Span(Space, q, 6) == 6;
  }

  /** The guard accepts the query, but the table check refuses it unless the schema holds a table `t`: a CTE with a
      column list does not count. */
  lemma ColumnListRefused(s: Schema)
    ensures var q := "with t(n) as (select 1) select * from t";
            Verdicts(q) == Accept && (TableError(q, s) == None <==> "t" in SchemaNames(s))
  {
    hide Verdicts, TableError, Known, CteNames, SchemaNames, RunFrom, RunTo, Query, ToLower, LastPart, CteAt, Avoids;
    var front := COLUMN_LIST + SELECT_ALL;
    var q := Query(front, "t");
    ColumnListText();
    ColumnListParts();
    SelectAllEnds(COLUMN_LIST, "t");
    WithPasses(q);
    ColumnListRest(q);
    ColumnListIsNoHeader(q);
    NoCtesAfterStart(q);
    LetterIsName('t');
    assert ['t'] == "t";
    AvoidsBoth(COLUMN_LIST, SELECT_ALL, {'f', 'j'});
    LetterIsSole(front, 't');
    FromVerdict(front, "t", s);
    KnownFromSchema(q, s);
  }

  lemma ColumnListText()
    ensures Query(COLUMN_LIST + SELECT_ALL, "t") == "with t(n) as (select 1) select * from t"
  {}

  lemma ColumnListRest(q: string)
    requires q == Query(COLUMN_LIST + SELECT_ALL, "t")
    ensures |q| > 7 && q[..7] == "with t(" && Avoids(q[1..], {'w', ','})
  {
    hide Avoids;
    PartsDefineNothing();
    ColumnListParts();
    ColumnListDefines();
    var b := SELECT_ALL + "from t";
    AvoidsBoth(SELECT_ALL, "from t", {'w', ','});
    AvoidsBoth(COLUMN_LIST[1..], b, {'w', ','});
    assert "from " + "t" == "from t";
    assert q[1..] == COLUMN_LIST[1..] + b;
    assert q[..7] == COLUMN_LIST[..7];
  }

  /** The ends of a query that starts with the text and goes on with `select * from`. */
  lemma SelectAllEnds(start: string, ref: string)
    requires |start| >= 5 && ';' !in start && ref != "" && ';' !in ref && !IsSpace(ref[|ref| - 1])
    ensures var q := Query(start + SELECT_ALL, ref);
            |q| > 5 && q[..5] == start[..5] && ';' !in q && !IsSpace(q[|q| - 1])
    ensures var front := start + SELECT_ALL; !IsWord(front[|front| - 1])
    ensures Avoids(SELECT_ALL, {'f', 'j'}) && Avoids(SELECT_ALL, {'w', ','})
  {
    hide Avoids;
    SelectAllAvoids();
    assert ';' !in "from ";
    assert ';' !in "from " + ref;
    assert ';' !in start + SELECT_ALL;
    var q := Query(start + SELECT_ALL, ref);
    assert q[|q| - 1] == ref[|ref| - 1];
    assert (start + SELECT_ALL)[|start| + 8] == SELECT_ALL[8];
  }

  lemma LetterIsSole(front: string, c: char)
    requires Avoids(front, {'f', 'j'}) && front != "" && !IsWord(front[|front| - 1])
    requires 'a' <= c <= 'z' && c != 'f' && c != 'j'
    ensures SoleFrom(front, [c])
  {
    hide Avoids, RunFrom, RunTo, LastPart, ToLower;
    LetterIsName(c);
    LetterAvoids(c);
  }

  lemma LetterAvoids(c: char)
    requires 'a' <= c <= 'z' && c != 'f' && c != 'j'
    ensures Avoids([c], {'f', 'j'}) && !In(c, Space)
  {}

  lemma NoCtesAfterStart(q: string)
    requires |q| > 0 && Avoids(q[1..], {'w', ','}) && CteAt(q, 0).None?
    ensures CteNames(q) == {}
  {
    hide CteAt, CteNames;
    forall i: nat | i <= |q| ensures CteAt(q, i).None? {
      if i > 0 {
        if i < |q| { assert q[i] == q[1..][i - 1]; }
        NothingAt(q, i);
      }
    }
    NoCtes(q);
  }

  // ---- A comma without a blank ----

  const FIRST_CTE: string := "with a as (select 1)"
  const SECOND_CTE: string := ",b as (select 2) "

  lemma CommaParts()
    ensures |FIRST_CTE| == 20 && |SECOND_CTE| == 17 && FIRST_CTE[..5] == "with " && FIRST_CTE[..7] == "with a "
    ensures SECOND_CTE[..2] == ",b" && ';' !in FIRST_CTE && ';' !in SECOND_CTE
    ensures Avoids(FIRST_CTE, {'f', 'j'}) && Avoids(SECOND_CTE, {'f', 'j'})
  {}

  lemma FirstCteDefines()
    ensures Avoids(FIRST_CTE[1..], {'w', ','})
  {
    assert FIRST_CTE[1..] == "ith a as (select 1)";
  }

  lemma SecondCteDefines()
    ensures Avoids(SECOND_CTE[1..], {'w', ','}) && Avoids("from b", {'w', ','})
  {
    assert SECOND_CTE[1..] == "b as (select 2) ";
  }

  lemma CommaSlices(q: string)
    requires q == Query(FIRST_CTE + SECOND_CTE + SELECT_ALL, "b")
    ensures |q| > 22 && q[1..20] == FIRST_CTE[1..] && q[20..22] == ",b" && Avoids(q[21..], {'w', ','})
  {
    hide Avoids;
    CommaParts();
    SecondCteDefines();
    PartsDefineNothing();
    var end := SELECT_ALL + "from b";
    AvoidsBoth(SELECT_ALL, "from b", {'w', ','});
    AvoidsBoth(SECOND_CTE[1..], end, {'w', ','});
    assert "from " + "b" == "from b";
    assert q == FIRST_CTE + (SECOND_CTE + end);
    NextPart(q, 0, FIRST_CTE, SECOND_CTE + end);
    assert q[1..20] == q[..20][1..] && q[..20] == FIRST_CTE;
    assert q[20..22] == q[20..][..2] == SECOND_CTE[..2];
    assert q[21..] == q[20..][1..] == SECOND_CTE[1..] + end;
  }

  /** Only at the start could a header stand: after the comma there is no blank. */
  lemma CommaHeaders(q: string, i: nat)
    requires q == Query(FIRST_CTE + SECOND_CTE + SELECT_ALL, "b") && 0 < i <= |q|
    ensures CteAt(q, i).None?
  {
    hide CteAt, Avoids, Query;
    CommaSlices(q);
    FirstCteDefines();
    if i == 20 {
      CommaNeedsBlank(q);
    } else {
      LetterElsewhere(q, i, q[1..20], q[21..]);
      NothingAt(q, i);
    }
  }

  lemma LetterElsewhere(q: string, i: nat, front: string, back: string)
    requires |q| >= 21 && q[1..20] == front && q[21..] == back && 0 < i <= |q| && i != 20
    requires Avoids(front, {'w', ','}) && Avoids(back, {'w', ','})
    ensures i == |q| || LowerChar(q[i]) !in {'w', ','}
  {
    if i < 20 { assert q[i] == q[1..20][i - 1]; } else if i < |q| { assert q[i] == q[21..][i - 21]; }
  }

  lemma CommaNeedsBlank(q: string)
    requires |q| > 22 && q[20..22] == ",b"
    ensures CteAt(q, 20).None?
  {
    hide FoldAt;
    var w := ",b";
    assert q[20] == q[20..22][0] && q[21] == q[20..22][1] && w[0] == ',' && w[1] == 'b';
    assert Span(Space, q, 21) == 21;
    FoldNeedsFirst(q, 20, "with");
  }

  /** The header at the start has the name `a`. */
  lemma CommaFirstName(q: string)
    requires |q| > 7 && q[..7] == "with a " && CteAt(q, 0).Some?
    ensures Within(q, CteAt(q, 0).value) && ToLower(Captured(q, CteAt(q, 0).value)) == "a"
  {
    hide FoldAt;
    var w := "with a ";
    assert w[4] == ' ' && w[5] == 'a' && w[6] == ' ' && w[0] == 'w';
    assert forall j :: 0 <= j < 7 ==> q[j] == q[..7][j];
    assert Span(Space, q, 4) == 5 && Span(Word, q, 6) == 6;
    assert q[5..6] == "a";
    assert ToLower("a") == "a";
  }

  /** So `b` is no CTE to the check. */
  lemma CommaDefinesNoB()
    ensures "b" !in CteNames(Query(FIRST_CTE + SECOND_CTE + SELECT_ALL, "b"))
  {
    hide CteAt, CteHits, ToLower, Query;
    var q := Query(FIRST_CTE + SECOND_CTE + SELECT_ALL, "b");
    CommaStart(q);
    forall h | h in CteHits(q) && Within(q, h) ensures ToLower(Captured(q, h)) == "a" {
      CteHitIsAt(q, h);
      if h.start > 0 { CommaHeaders(q, h.start); }
      CommaFirstName(q);
    }
    assert "a" != "b" by { assert "a"[0] != "b"[0]; }
  }

  lemma CommaStart(q: string)
    requires q == Query(FIRST_CTE + SECOND_CTE + SELECT_ALL, "b")
    ensures |q| > 22 && q[..7] == "with a "
  {
    CommaParts();
    assert q[..7] == FIRST_CTE[..7];
  }

  lemma CommaText()
    ensures Query(FIRST_CTE + SECOND_CTE + SELECT_ALL, "b") == "with a as (select 1),b as (select 2) select * from b"
  {
    assert "with a as (select 1)" + ",b as (select 2) " == "with a as (select 1),b as (select 2) ";
    assert "select * " + ("from " + "b") == "select * from b";
  }

  /** The guard accepts the query, but the table check refuses it unless the schema holds a table `b`: after a comma
      with no blank, a CTE does not count. */
  lemma CommaWithoutBlankRefused(s: Schema)
    ensures var q := "with a as (select 1),b as (select 2) select * from b";
            Verdicts(q) == Accept && (TableError(q, s) == None <==> "b" in SchemaNames(s))
  {
    hide Verdicts, TableError, CteNames, SchemaNames, RunFrom, RunTo, Query, ToLower, LastPart, Avoids;
    var start := FIRST_CTE + SECOND_CTE;
    var q := Query(start + SELECT_ALL, "b");
    CommaText();
    CommaParts();
    SelectAllEnds(start, "b");
    WithPasses(q);
    CommaDefinesNoB();
    LetterIsName('b');
    assert ['b'] == "b";
    AvoidsBoth(FIRST_CTE, SECOND_CTE, {'f', 'j'});
    AvoidsBoth(start, SELECT_ALL, {'f', 'j'});
    LetterIsSole(start + SELECT_ALL, 'b');
    FromVerdict(start + SELECT_ALL, "b", s);
  }

  // ---- Two semicolons ----

  const STACKED: string := "SELECT 1;;"

  lemma StackedStrips()
    ensures Strip(STACKED) == "SELECT 1;"
  {
    hide TrimSpace;
    var q, u := STACKED, "SELECT 1;";
    assert |q| == 10 && q[0] == 'S' && q[9] == ';' && q[..9] == u && u[8] == ';' && u[0] == 'S';
    TrimOfTrimmed(q);
    TrimOfTrimmed(u);
  }

  lemma FoldPair(s: string, i: nat, w: string)
    requires |w| >= 2 && FoldAt(s, i, w)
    ensures i + 1 < |s| && LowerChar(s[i]) == w[0] && LowerChar(s[i + 1]) == w[1]
  {
    assert LowerChar(s[i + 0]) == w[0];
  }

  lemma StackedHasNoLimit()
    ensures !HasLimit("SELECT 1;")
  {
    var u, l := "SELECT 1;", "limit";
    assert forall i :: 0 <= i < |u| - 1 ==> LowerChar(u[i]) != 'l' || LowerChar(u[i + 1]) != 'i';
    forall i: nat | i <= |u| ensures !LimitAt(u, i) {
      if FoldAt(u, i, l) { FoldPair(u, i, l); }
    }
    HasLimitIff(u);
  }

  lemma StackedInLanguage()
    ensures InLanguage("SELECT 1;") && !HasLimit("SELECT 1;")
  {
    var u := "SELECT 1;";
    assert |u| == 9 && u[0] == 'S' && u[1] == 'E' && u[2] == 'L' && u[3] == 'E' && u[4] == 'C' && u[5] == 'T' && u[6] == ' ';
    assert u[7] == '1' && u[8] == ';';
    assert NextSpace(u, 0) == 6;
    assert u[..6] == "SELECT";
    UpperSelect();
    Passes(u);
    StackedHasNoLimit();
  }

  /** `SELECT 1;;` is accepted, but its output is refused as two statements, so validating it again fails. */
  lemma TwoSemicolons(cap: nat)
    ensures Validate(STACKED, cap) == Ok("SELECT 1; LIMIT " + Itoa(cap))
    ensures cap == RowCap(0) ==> Validate(STACKED, cap) == Ok("SELECT 1; LIMIT 1000")
    ensures Verdicts("SELECT 1; LIMIT " + Itoa(cap)) == Stacked(2)
    ensures Validate("SELECT 1; LIMIT " + Itoa(cap), cap) == Err(Stacked(2))
  {
    hide Strip, HasLimit, InLanguage, Verdicts;
    StackedStrips();
    StackedInLanguage();
    CheckLanguage(STACKED);
    var out := "SELECT 1; LIMIT " + Itoa(cap);
    assert "SELECT 1;" + " LIMIT " == "SELECT 1; LIMIT ";
    ThousandIs();
    assert "SELECT 1; LIMIT " + "1000" == "SELECT 1; LIMIT 1000";
    assert WithLimit("SELECT 1;", cap) == out;
    StrayLimitIsStacked(STACKED, cap);
  }
}
