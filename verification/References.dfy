/** What the table check takes for a definition and what for a reference, read off the characters of the query. */
module References {
  import opened Ascii
  import opened Regex
  import opened SchemaModel
  import opened TableCheck
  import opened TableScan
  import opened Wrappers

  // ---- No CTE header hides another ----

  predicate AllIn(s: string, from: int, to: int, k: Class) {
    0 <= from <= to <= |s| && forall j :: from <= j < to ==> In(s[j], k)
  }

  /** The bounded word `with`, or a comma. */
  predicate Lead(s: string, i: int, j: int) {
    0 <= i < j <= |s|
    && ((j == i + 1 && s[i] == ',') || (j == i + 4 && FoldAt(s, i, "with") && !WordBefore(s, i)))
  }

  /** A CTE header on the characters: the lead, blanks, the name in [w, e), blanks, `as`, blanks and the parenthesis
      at y; there is at least one blank before the name and one after it. */
  predicate HeaderAt(s: string, i: int, j: int, w: int, e: int, x: int, y: int) {
    Lead(s, i, j) && j < w < e < x && x + 2 <= y < |s|
    && AllIn(s, j, w, Space) && In(s[w], IdentStart) && AllIn(s, w, e, Word) && AllIn(s, e, x, Space)
    && FoldAt(s, x, "as") && AllIn(s, x + 2, y, Space) && s[y] == '('
  }

  /** Some header in the query has the name, in any case. */
  ghost predicate Defines(s: string, name: string) {
    exists i, j, w, e, x, y :: HeaderOf(s, i, j, w, e, x, y, name)
  }

  predicate HeaderOf(s: string, i: int, j: int, w: int, e: int, x: int, y: int, name: string) {
    HeaderAt(s, i, j, w, e, x, y) && name == ToLower(s[w..e])
  }

  lemma SpanIs(k: Class, s: string, i: nat, r: nat)
    requires AllIn(s, i, r, k) && (r == |s| || !In(s[r], k))
    ensures Span(k, s, i) == r
  {}

  lemma AsStart(s: string, x: nat)
    requires FoldAt(s, x, "as")
    ensures x + 2 <= |s| && LowerChar(s[x]) == 'a' && LowerChar(s[x + 1]) == 's'
  {
    assert LowerChar(s[x + 0]) == "as"[0] && LowerChar(s[x + 1]) == "as"[1];
  }

  lemma WithLetters(s: string, i: nat)
    requires FoldAt(s, i, "with")
    ensures i + 4 <= |s| && LowerChar(s[i]) == 'w' && LowerChar(s[i + 1]) == 'i' && LowerChar(s[i + 2]) == 't'
    ensures LowerChar(s[i + 3]) == 'h'
  {
    var w := "with";
    assert LowerChar(s[i + 0]) == w[0] && LowerChar(s[i + 1]) == w[1] && LowerChar(s[i + 2]) == w[2];
    assert LowerChar(s[i + 3]) == w[3];
  }

  lemma HitHasLead(s: string, i: nat) returns (j: nat)
    requires i <= |s| && CteAt(s, i).Some?
    ensures Lead(s, i, j) && CteAt(s, i) == CteFrom(s, i, j)
  {
    hide FoldAt, CteFrom;
    if FoldAt(s, i, "with") { WithLetters(s, i); }
    j := if s[i] == ',' then i + 1 else i + 4;
  }

  /** The scanner's hit is a header, and the captured name is the header's. */
  lemma HitIsHeader(s: string, i: nat) returns (j: nat, x: nat)
    requires i <= |s| && CteAt(s, i).Some?
    ensures var h := CteAt(s, i).value; HeaderAt(s, i, j, h.from, h.to, x, h.end - 1)
  {
    hide FoldAt, CteAt, Lead;
    j := HitHasLead(s, i);
    LeadFits(s, i, j);
    x := Span(Space, s, CteAt(s, i).value.to);
    AsStart(s, x);
  }

  lemma LeadFits(s: string, i: nat, j: nat)
    requires Lead(s, i, j)
    ensures i < j <= |s|
  {}

  /** Where the parts of a header end, the scanner's spans end. */
  lemma HeaderSpans(s: string, i: nat, j: nat, w: nat, e: nat, x: nat, y: nat)
    requires HeaderAt(s, i, j, w, e, x, y)
    ensures Span(Space, s, j) == w && Span(Word, s, w + 1) == e && Span(Space, s, e) == x && Span(Space, s, x + 2) == y
  {
    hide FoldAt;
    AsStart(s, x);
    SpanIs(Space, s, j, w);
    assert In(s[e], Space);
    SpanIs(Word, s, w + 1, e);
    SpanIs(Space, s, e, x);
    SpanIs(Space, s, x + 2, y);
  }

  lemma HeaderIsHit(s: string, i: nat, j: nat, w: nat, e: nat, x: nat, y: nat)
    requires HeaderAt(s, i, j, w, e, x, y)
    ensures CteAt(s, i) == Some(Hit(i, y + 1, w, e))
  {
    hide FoldAt, Span, CteFrom, AllIn;
    BlankFollows(s, j, w);
    LeadIsSeen(s, i, j);
    HeaderSpans(s, i, j, w, e, x, y);
    SpansAreHit(s, i, j, w, e, x, y);
  }

  lemma BlankFollows(s: string, j: nat, w: nat)
    requires AllIn(s, j, w, Space) && j < w
    ensures j < |s| && In(s[j], Space)
  {}

  lemma SpansAreHit(s: string, i: nat, j: nat, w: nat, e: nat, x: nat, y: nat)
    requires j < w < e < x && x + 2 <= y < |s| && In(s[w], IdentStart) && FoldAt(s, x, "as") && s[y] == '('
    requires Span(Space, s, j) == w && Span(Word, s, w + 1) == e && Span(Space, s, e) == x && Span(Space, s, x + 2) == y
    ensures CteFrom(s, i, j) == Some(Hit(i, y + 1, w, e))
  {
    hide FoldAt, Span;
  }

  lemma LeadIsSeen(s: string, i: nat, j: nat)
    requires Lead(s, i, j) && j < |s| && In(s[j], Space)
    ensures CteAt(s, i) == CteFrom(s, i, j)
  {
    hide FoldAt, CteFrom;
    if FoldAt(s, i, "with") { WithLetters(s, i); }
    if s[i] != ',' {
      assert IsWord(s[i]) && IsWord(s[i + 3]) && !IsWord(s[i + 4]);
    }
  }

  /** After its first character, a header holds no comma, and a `w` or `W` only in its name. */
  lemma InsideHeader(s: string, i: nat, j: nat, w: nat, e: nat, x: nat, y: nat, k: nat)
    requires HeaderAt(s, i, j, w, e, x, y) && i < k <= y
    ensures s[k] != ',' && (LowerChar(s[k]) == 'w' ==> w <= k < e)
  {
    hide FoldAt;
    AsStart(s, x);
    if k < j {
      WithLetters(s, i);
      assert k == i + 1 || k == i + 2 || k == i + 3;
    } else if k < w {
      assert In(s[k], Space);
    } else if k < e {
      assert In(s[k], Word);
    } else if k < x {
      assert In(s[k], Space);
    } else if x + 2 <= k < y {
      assert In(s[k], Space);
    }
  }

  /** Inside a header no other header starts: only the name could be `with`, and what follows it is no name. */
  lemma NoneInside(s: string, i: nat, j: nat, w: nat, e: nat, x: nat, y: nat, k: nat)
    requires HeaderAt(s, i, j, w, e, x, y) && i < k <= y
    ensures CteAt(s, k).None?
  {
    hide FoldAt, CteFrom;
    InsideHeader(s, i, j, w, e, x, y, k);
    if FoldAt(s, k, "with") && Boundary(s, k) && Boundary(s, k + 4) {
      WithLetters(s, k);
      WordStarts(s, w, e, k);
      assert In(s[e], Space);
      WordEnds(s, w, e);
      NameIsWith(s, w, e, x, y);
    }
  }

  /** A word that starts with `with` at a boundary after it is `with`. */
  lemma WordEnds(s: string, w: nat, e: nat)
    requires AllIn(s, w, e, Word) && w < e < |s| && !In(s[e], Word) && FoldAt(s, w, "with") && Boundary(s, w + 4)
    ensures e == w + 4
  {
    hide FoldAt;
    WithLetters(s, w);
    assert IsWord(s[w]) && IsWord(s[w + 1]) && IsWord(s[w + 2]) && IsWord(s[w + 3]);
    forall j | w <= j < e ensures IsWord(s[j]) { assert In(s[j], Word); }
  }

  /** In a run of word characters a boundary stands only at the start. */
  lemma WordStarts(s: string, w: nat, e: nat, k: nat)
    requires AllIn(s, w, e, Word) && w <= k < e && Boundary(s, k)
    ensures k == w
  {
    forall j | w <= j < e ensures WordAfter(s, j) { assert In(s[j], Word); }
    forall j | w < j < e ensures WordBefore(s, j) { assert In(s[j - 1], Word); }
  }

  lemma NameIsWith(s: string, w: nat, e: nat, x: nat, y: nat)
    requires e <= x && x + 2 <= y < |s| && AllIn(s, e, x, Space) && FoldAt(s, x, "as") && AllIn(s, x + 2, y, Space)
    requires s[y] == '('
    ensures CteFrom(s, w, e).None?
  {
    hide FoldAt;
    AsStart(s, x);
    SpanIs(Space, s, e, x);
    SpanIs(Word, s, x + 1, x + 2);
    SpanIs(Space, s, x + 2, y);
    if FoldAt(s, y, "as") { AsStart(s, y); }
  }

  lemma CteHitIsAt(s: string, h: Hit)
    requires h in CteHits(s)
    ensures h.start <= |s| && CteAt(s, h.start) == Some(h)
  {
    hide CteAt, CteRe, Matches;
    PatternsConsume();
    FindAllSound(CteRe(), s, 0);
    CteRefines(s, h.start);
  }

  lemma HeaderIsCovered(s: string, i: nat) returns (h: Hit)
    requires i <= |s| && CteAt(s, i).Some?
    ensures h in CteHits(s) && h.start <= i < h.end
  {
    hide CteAt, CteRe, Matches;
    PatternsConsume();
    CteRefines(s, i);
    OccursIffHit(CteRe(), s, i);
    FindAllCovers(CteRe(), s, 0, i);
    h :| h in CteHits(s) && h.start <= i < h.end;
  }

  /** Every header is reported, at its own place. */
  lemma HeadersAreReported(s: string, i: nat)
    requires i <= |s| && CteAt(s, i).Some?
    ensures CteAt(s, i).value in CteHits(s)
  {
    hide CteAt, CteHits, HeaderAt;
    var h := HeaderIsCovered(s, i);
    CteHitIsAt(s, h);
    if h.start < i {
      var j, x := HitIsHeader(s, h.start);
      HeaderBounds(s, h.start, j, h.from, h.to, x, h.end - 1);
      NoneInside(s, h.start, j, h.from, h.to, x, h.end - 1, i);
    }
  }

  /** The names the check takes for CTEs of the query are exactly those some header defines. */
  lemma CteNamesExact(s: string, name: string)
    ensures name in CteNames(s) <==> Defines(s, name)
  {
    hide CteAt, HeaderAt, ToLower, CteHits;
    if name in CteNames(s) {
      var h :| h in CteHits(s) && Within(s, h) && name == ToLower(Captured(s, h));
      CteHitIsAt(s, h);
      var j, x := HitIsHeader(s, h.start);
      HeaderBounds(s, h.start, j, h.from, h.to, x, h.end - 1);
      assert HeaderOf(s, h.start, j, h.from, h.to, x, h.end - 1, name);
    }
    if Defines(s, name) {
      var i, j, w, e, x, y :| HeaderOf(s, i, j, w, e, x, y, name);
      HeaderBounds(s, i, j, w, e, x, y);
      HeaderIsHit(s, i, j, w, e, x, y);
      HeadersAreReported(s, i);
      assert Captured(s, CteAt(s, i).value) == s[w..e];
    }
  }

  lemma HeaderBounds(s: string, i: int, j: int, w: int, e: int, x: int, y: int)
    requires HeaderAt(s, i, j, w, e, x, y)
    ensures 0 <= i < j < w < e < x < y < |s|
  {}

  /** The verdict, with no reference to the CTE expression: each reported reference is skipped, names a table of the
      schema, or names a CTE that some header defines. */
  lemma AcceptsByHeaders(query: string, s: Schema)
    ensures TableError(query, s) == None <==>
            forall h :: h in RefHits(query) ==>
              RefName(query, h) == "" || RefName(query, h) in SchemaNames(s) || Defines(query, RefName(query, h))
  {
    hide TableError, RefHits, RefName, CteNames, Defines, SchemaNames;
    AcceptsExactly(query, s);
    forall h | h in RefHits(query)
      ensures RefName(query, h) in Known(query, s) <==>
              RefName(query, h) in SchemaNames(s) || Defines(query, RefName(query, h))
    {
      CteNamesExact(query, RefName(query, h));
    }
  }

  // ---- Which definitions of SQL are headers to the check ----

  /** A CTE definition up to the parenthesis of its query, part by part: `with` or the comma, blanks, `recursive` with
      its blanks, the name, the column list with the blanks before it, blanks, `as`, blanks, and `materialized` or
      `not materialized` with its blanks. */
  datatype Cte = Cte(lead: string, gap: string, recursive: string, quoted: bool, name: string, columns: string,
                     before: string, word: string, after: string, materialized: string)

  predicate All(s: string, k: Class) {
    forall j :: 0 <= j < |s| ==> In(s[j], k)
  }

  predicate Legal(c: Cte) {
    (c.lead == "," || (|c.lead| == 4 && FoldAt(c.lead, 0, "with") && c.gap != ""))
    && All(c.gap, Space) && All(c.before, Space) && All(c.after, Space)
    && (c.recursive == "" || LegalRecursive(c.recursive))
    && (if c.quoted then c.name != "" && '\"' !in c.name else c.name != "" && In(c.name[0], IdentStart) && All(c.name, Word))
    && (c.columns == "" || LegalColumns(c.columns))
    && (c.columns == "" && !c.quoted ==> c.before != "")
    && |c.word| == 2 && FoldAt(c.word, 0, "as")
    && (c.materialized != "" ==> c.after != "" && IsWord(c.materialized[0]))
  }

  predicate LegalRecursive(s: string) {
    |s| > 9 && FoldAt(s, 0, "recursive") && All(s[9..], Space)
  }

  predicate LegalColumns(s: string) {
    var n := Span(Space, s, 0); n < |s| && s[n] == '('
  }

  /** A plain definition: a blank after `with` or the comma, and then an unquoted name with nothing around it. */
  predicate Plain(c: Cte) {
    c.gap != "" && c.recursive == "" && !c.quoted && c.columns == "" && c.materialized == ""
  }

  function FromWord(c: Cte, rest: string): string {
    c.word + (c.after + (c.materialized + ("(" + rest)))
  }

  function FromColumns(c: Cte, rest: string): string {
    c.columns + (c.before + FromWord(c, rest))
  }

  function FromName(c: Cte, rest: string): string {
    (if c.quoted then "\"" + c.name + "\"" else c.name) + FromColumns(c, rest)
  }

  /** A query with the definition in it. */
  function WithCte(front: string, c: Cte, rest: string): string {
    front + (c.lead + (c.gap + (c.recursive + FromName(c, rest))))
  }

  lemma Part(q: string, p: nat, part: string, tail: string)
    requires p <= |q| && q[p..] == part + tail
    ensures p + |part| <= |q| && q[p + |part|..] == tail && q[p..p + |part|] == part
    ensures forall j :: 0 <= j < |part| ==> q[p + j] == part[j]
    ensures tail != "" ==> p + |part| < |q| && q[p + |part|] == tail[0]
  {
    assert q[p..][|part|..] == tail;
    assert q[p..][..|part|] == part;
    forall j | 0 <= j < |part| ensures q[p + j] == part[j] { assert q[p..][j] == part[j]; }
    if tail != "" { assert q[p..][|part|] == tail[0]; }
  }

  /** A part of one class, followed by something else, is a span. */
  lemma PartSpan(k: Class, q: string, p: nat, part: string, tail: string)
    requires p <= |q| && q[p..] == part + tail && All(part, k) && tail != "" && !In(tail[0], k)
    ensures Span(k, q, p) == p + |part|
  {
    Part(q, p, part, tail);
    forall j | p <= j < p + |part| ensures In(q[j], k) { assert q[p + (j - p)] == part[j - p]; }
    SpanIs(k, q, p, p + |part|);
  }

  lemma FirstOf(a: string, b: string)
    requires a + b != ""
    ensures (a + b)[0] == if a == "" then b[0] else a[0]
  {}

  /** What follows the name starts with a blank, a parenthesis or, after a quoted name, with `as`. */
  lemma AfterName(c: Cte, rest: string)
    requires Legal(c)
    ensures FromColumns(c, rest) != "" && FromWord(c, rest) != ""
    ensures LowerChar(FromWord(c, rest)[0]) == 'a'
    ensures !c.quoted ==> !In(FromColumns(c, rest)[0], Word)
  {
    AsStart(c.word, 0);
    var word := FromWord(c, rest);
    assert word[0] == c.word[0];
    FirstOf(c.before, word);
    FirstOf(c.columns, c.before + word);
    if c.columns != "" { assert In(c.columns[0], Space) || c.columns[0] == '('; }
  }

  /** The parts up to the name stand where they should. */
  lemma Stages(front: string, c: Cte, rest: string)
    ensures var q := WithCte(front, c, rest);
            var i, j := |front|, |front| + |c.lead|;
            var g := j + |c.gap|;
            i <= |q| && q[i..] == c.lead + (c.gap + (c.recursive + FromName(c, rest)))
            && j <= |q| && q[j..] == c.gap + (c.recursive + FromName(c, rest))
            && g <= |q| && q[g..] == c.recursive + FromName(c, rest)
  {
    hide FromName;
    var q := WithCte(front, c, rest);
    var i, j := |front|, |front| + |c.lead|;
    var named := c.recursive + FromName(c, rest);
    assert q[i..] == c.lead + (c.gap + named);
    NextPart(q, i, c.lead, c.gap + named);
    NextPart(q, j, c.gap, named);
  }

  lemma NextPart(q: string, p: nat, part: string, tail: string)
    requires p <= |q| && q[p..] == part + tail
    ensures p + |part| <= |q| && q[p + |part|..] == tail
  {
    assert q[p..][|part|..] == tail;
  }

  lemma SolidName(c: Cte, rest: string)
    requires Legal(c)
    ensures FromName(c, rest) != "" && !In(FromName(c, rest)[0], Space)
    ensures FromName(c, rest)[0] == if c.quoted then '\"' else c.name[0]
    ensures c.recursive + FromName(c, rest) != "" && !In((c.recursive + FromName(c, rest))[0], Space)
  {
    hide FromColumns;
    var quoted := "\"" + c.name + "\"";
    assert quoted[0] == '\"';
    FirstOf(if c.quoted then quoted else c.name, FromColumns(c, rest));
    if c.recursive != "" { StartsR(c.recursive); }
    FirstOf(c.recursive, FromName(c, rest));
  }

  lemma StartsR(s: string)
    requires FoldAt(s, 0, "recursive")
    ensures |s| >= 9 && LowerChar(s[0]) == 'r'
  {
    assert LowerChar(s[0 + 0]) == "recursive"[0];
  }

  /** The lead of the header is the lead of the definition. */
  lemma LeadLength(q: string, i: nat, j: nat, c: Cte)
    requires Legal(c) && Lead(q, i, j) && q[i] == c.lead[0]
    ensures j == i + |c.lead|
  {
    hide FoldAt;
    if c.lead != "," { WithLetters(c.lead, 0); }
    if FoldAt(q, i, "with") { WithLetters(q, i); }
  }

  lemma LeadChar(front: string, c: Cte, rest: string)
    requires Legal(c)
    ensures var q := WithCte(front, c, rest); |front| < |q| && q[|front|] == c.lead[0]
  {
    hide FromName;
    Stages(front, c, rest);
    var tail := c.gap + (c.recursive + FromName(c, rest));
    Part(WithCte(front, c, rest), |front|, c.lead, tail);
    assert WithCte(front, c, rest)[|front| + 0] == c.lead[0];
  }

  /** And its name starts after the gap. */
  lemma GapEnds(front: string, c: Cte, rest: string)
    requires Legal(c)
    ensures var q := WithCte(front, c, rest);
            var j := |front| + |c.lead|;
            j <= |q| && Span(Space, q, j) == j + |c.gap|
  {
    hide FromName, WithCte;
    Stages(front, c, rest);
    SolidName(c, rest);
    PartSpan(Space, WithCte(front, c, rest), |front| + |c.lead|, c.gap, c.recursive + FromName(c, rest));
  }

  /** How the expression reads `recursive` and what follows it. */
  lemma RecursiveSpans(q: string, w: nat, s: string, tail: string)
    requires LegalRecursive(s) && w <= |q| && q[w..] == s + tail && tail != "" && !In(tail[0], Space)
    ensures w + |s| < |q| && q[w] == s[0] && q[w + |s|] == tail[0]
    ensures Span(Word, q, w + 1) == w + 9 && Span(Space, q, w + 9) == w + |s|
  {
    hide LegalRecursive;
    RecursiveParts(s);
    var first, word, gap := [s[0]], s[1..9], s[9..];
    assert s + tail == first + (word + (gap + tail));
    NextPart(q, w, first, word + (gap + tail));
    NextPart(q, w + 1, word, gap + tail);
    FirstOf(gap, tail);
    PartSpan(Word, q, w + 1, word, gap + tail);
    PartSpan(Space, q, w + 9, gap, tail);
    NextPart(q, w + 9, gap, tail);
    assert q[w..][0] == q[w] && q[w + |s|..][0] == q[w + |s|];
  }

  /** After `recursive`, a header's name would be `recursive` and the definition's name would start with `as`. */
  lemma RecursiveIsNoHeader(q: string, w: nat, e: nat, x: nat, c: Cte, rest: string)
    requires Legal(c) && c.recursive != "" && w <= |q| && q[w..] == c.recursive + FromName(c, rest)
    requires w < e <= |q| && e == Span(Word, q, w + 1) && x == Span(Space, q, e) && FoldAt(q, x, "as")
    ensures q[w..e] != c.name
  {
    hide FromName, FoldAt, LegalRecursive, Span;
    SolidName(c, rest);
    RecursiveSpans(q, w, c.recursive, FromName(c, rest));
    AsStart(q, x);
    StartsWithR(c.recursive);
    assert q[w..e][0] == q[w];
  }

  lemma StartsWithR(s: string)
    requires LegalRecursive(s)
    ensures LowerChar(s[0]) == 'r'
  {
    StartsR(s);
  }

  lemma RecursiveParts(s: string)
    requires LegalRecursive(s)
    ensures |s| > 9 && All(s[1..9], Word) && !In(s[9], Word) && All(s[9..], Space)
  {
    var word := "recursive";
    forall j | 0 <= j < 9 ensures IsWord(s[j]) { assert LowerChar(s[0 + j]) == word[j]; }
    assert In(s[9..][0], Space);
  }

  /** The name of an unquoted definition ends where it should, and so does what follows. */
  lemma NameStage(q: string, w: nat, c: Cte, rest: string)
    requires Legal(c) && !c.quoted && w <= |q| && q[w..] == FromName(c, rest)
    ensures w + |c.name| <= |q| && q[w..w + |c.name|] == c.name && q[w + |c.name|..] == FromColumns(c, rest)
    ensures Span(Word, q, w + 1) == w + |c.name|
  {
    hide FromColumns;
    AfterName(c, rest);
    Part(q, w, c.name, FromColumns(c, rest));
    assert q[w..] == [c.name[0]] + (c.name[1..] + FromColumns(c, rest));
    Part(q, w, [c.name[0]], c.name[1..] + FromColumns(c, rest));
    PartSpan(Word, q, w + 1, c.name[1..], FromColumns(c, rest));
  }

  /** A column list is no `as`. */
  lemma ColumnsAreNoAs(q: string, e: nat, c: Cte, rest: string)
    requires Legal(c) && c.columns != "" && e <= |q| && q[e..] == FromColumns(c, rest)
    ensures !FoldAt(q, Span(Space, q, e), "as")
  {
    hide FoldAt, FromWord;
    var n := Span(Space, c.columns, 0);
    var tail := c.columns[n..] + (c.before + FromWord(c, rest));
    assert q[e..] == c.columns[..n] + tail;
    assert tail[0] == '(';
    PartSpan(Space, q, e, c.columns[..n], tail);
    Part(q, e, c.columns[..n], tail);
    if FoldAt(q, e + n, "as") { AsStart(q, e + n); }
  }

  lemma WordStage(q: string, e: nat, c: Cte, rest: string)
    requires Legal(c) && c.columns == "" && e <= |q| && q[e..] == FromColumns(c, rest)
    ensures Span(Space, q, e) == e + |c.before|
    ensures e + |c.before| <= |q| && q[e + |c.before|..] == FromWord(c, rest)
  {
    hide FromWord;
    AfterName(c, rest);
    assert q[e..] == c.before + FromWord(c, rest);
    PartSpan(Space, q, e, c.before, FromWord(c, rest));
    Part(q, e, c.before, FromWord(c, rest));
  }

  lemma EndStage(q: string, x: nat, c: Cte, rest: string)
    requires Legal(c) && x <= |q| && q[x..] == FromWord(c, rest)
    ensures x + 2 <= |q| && FoldAt(q, x, "as")
    ensures var y := Span(Space, q, x + 2);
            y == x + 2 + |c.after| && y < |q| && (q[y] == '(' <==> c.materialized == "")
  {
    hide FoldAt;
    var end := c.materialized + ("(" + rest);
    FirstOf(c.materialized, "(" + rest);
    Part(q, x, c.word, c.after + end);
    FoldMoves(c.word, q, x, "as");
    PartSpan(Space, q, x + 2, c.after, end);
    Part(q, x + 2, c.after, end);
  }

  /** A copy of a word is the word. */
  lemma FoldMoves(copy: string, q: string, x: nat, word: string)
    requires |copy| == |word| && FoldAt(copy, 0, word) && x + |copy| <= |q| && q[x..x + |copy|] == copy
    ensures FoldAt(q, x, word)
  {
    forall k | 0 <= k < |word| ensures LowerChar(q[x + k]) == word[k] {
      assert q[x + k] == q[x..x + |copy|][k];
      assert LowerChar(copy[0 + k]) == word[k];
    }
  }

  /** A header whose name is the definition's leaves no room for a column list or `materialized`. */
  lemma TailIsPlain(q: string, w: nat, e: nat, x: nat, y: nat, c: Cte, rest: string)
    requires Legal(c) && !c.quoted && w < |q| && q[w..] == FromName(c, rest)
    requires e == Span(Word, q, w + 1) && x == Span(Space, q, e) && FoldAt(q, x, "as") && x + 2 <= |q|
    requires y == Span(Space, q, x + 2) && y < |q| && q[y] == '('
    ensures c.columns == "" && c.materialized == ""
  {
    hide FromName, FoldAt, Legal, FromColumns, FromWord, Span;
    NameStage(q, w, c, rest);
    if c.columns != "" {
      ColumnsAreNoAs(q, e, c, rest);
    } else {
      WordStage(q, e, c, rest);
      EndStage(q, x, c, rest);
    }
  }

  lemma HeaderIsPlain(front: string, c: Cte, rest: string, j: nat, w: nat, e: nat, x: nat, y: nat)
    requires Legal(c) && HeaderAt(WithCte(front, c, rest), |front|, j, w, e, x, y)
    requires WithCte(front, c, rest)[w..e] == c.name
    ensures Plain(c)
  {
    hide FromName, WithCte, FoldAt, Legal, AllIn, Span, Lead;
    var q := WithCte(front, c, rest);
    HeaderSpans(q, |front|, j, w, e, x, y);
    LeadChar(front, c, rest);
    LeadLength(q, |front|, j, c);
    GapEnds(front, c, rest);
    Stages(front, c, rest);
    if c.recursive != "" {
      RecursiveIsNoHeader(q, w, e, x, c, rest);
    } else {
      assert c.recursive + FromName(c, rest) == FromName(c, rest);
      SolidName(c, rest);
      assert q[w..][0] == q[w];
      if !c.quoted { TailIsPlain(q, w, e, x, y, c, rest); }
    }
  }

  lemma PlainName(front: string, c: Cte, rest: string)
    requires Legal(c) && Plain(c)
    ensures var q := WithCte(front, c, rest);
            var w := |front| + |c.lead| + |c.gap|;
            w < |q| && q[w..] == FromName(c, rest) && q[w] == c.name[0]
  {
    hide FromName, WithCte, FoldAt;
    var q := WithCte(front, c, rest);
    Stages(front, c, rest);
    SolidName(c, rest);
    assert c.recursive + FromName(c, rest) == FromName(c, rest);
    assert q[|front| + |c.lead| + |c.gap|..][0] == FromName(c, rest)[0];
  }

  lemma PlainIsHit(front: string, c: Cte, rest: string)
    requires Legal(c) && Plain(c) && (c.lead == "," || front == "" || !IsWord(front[|front| - 1]))
    ensures var q := WithCte(front, c, rest);
            |front| <= |q| && CteAt(q, |front|).Some?
            && var h := CteAt(q, |front|).value; Within(q, h) && Captured(q, h) == c.name
  {
    hide FromName, Legal, Plain, WithCte, CteAt, CteFrom, Span, Lead;
    var q := WithCte(front, c, rest);
    var j := |front| + |c.lead|;
    GapEnds(front, c, rest);
    LeadStands(front, c, rest);
    GapIsBlank(front, c, rest);
    LeadIsSeen(q, |front|, j);
    PlainName(front, c, rest);
    TailIsHit(q, |front|, j, j + |c.gap|, c, rest);
  }

  lemma GapIsBlank(front: string, c: Cte, rest: string)
    requires Legal(c) && Plain(c)
    ensures var q := WithCte(front, c, rest);
            var j := |front| + |c.lead|;
            j < |q| && In(q[j], Space) && c.gap != ""
  {
    hide FoldAt, FromName, WithCte;
    var q := WithCte(front, c, rest);
    Stages(front, c, rest);
    var j := |front| + |c.lead|;
    Part(q, j, c.gap, c.recursive + FromName(c, rest));
    assert q[j + 0] == c.gap[0];
  }

  lemma TailIsHit(q: string, i: nat, j: nat, w: nat, c: Cte, rest: string)
    requires Legal(c) && Plain(c) && j < w < |q| && Span(Space, q, j) == w && q[w..] == FromName(c, rest) && q[w] == c.name[0]
    ensures CteFrom(q, i, j).Some?
            && var h := CteFrom(q, i, j).value; Within(q, h) && Captured(q, h) == c.name
  {
    hide FromName, FoldAt, CteFrom, Span, FromColumns, FromWord;
    NameStage(q, w, c, rest);
    var e := w + |c.name|;
    WordStage(q, e, c, rest);
    var x := e + |c.before|;
    EndStage(q, x, c, rest);
    SpansAreHit(q, i, j, w, e, x, Span(Space, q, x + 2));
  }

  lemma LeadStands(front: string, c: Cte, rest: string)
    requires Legal(c) && (c.lead == "," || front == "" || !IsWord(front[|front| - 1]))
    ensures Lead(WithCte(front, c, rest), |front|, |front| + |c.lead|)
  {
    hide FromName, FoldAt, WithCte;
    var q := WithCte(front, c, rest);
    var i := |front|;
    Stages(front, c, rest);
    Part(q, i, c.lead, c.gap + (c.recursive + FromName(c, rest)));
    if c.lead == "," {
      assert q[i + 0] == c.lead[0];
    } else {
      FoldMoves(c.lead, q, i, "with");
      FrontStays(front, c, rest);
    }
  }

  lemma FrontStays(front: string, c: Cte, rest: string)
    ensures front <= WithCte(front, c, rest)
  {}

  /** A CTE definition counts for the check, under its own name, exactly when it is plain: `recursive`, quotes, a column
      list, `materialized`, or a comma with no blank after it each make the check miss it. */
  lemma DefinitionCounts(front: string, c: Cte, rest: string)
    requires Legal(c) && (c.lead == "," || front == "" || !IsWord(front[|front| - 1]))
    ensures var q := WithCte(front, c, rest);
            Plain(c) <==> exists h :: h in CteHits(q) && h.start == |front| && Within(q, h) && Captured(q, h) == c.name
  {
    hide CteAt, Legal, Plain, FromName, CteHits, HeaderAt, WithCte;
    var q := WithCte(front, c, rest);
    if Plain(c) {
      PlainIsHit(front, c, rest);
      HeadersAreReported(q, |front|);
      var h := CteAt(q, |front|).value;
      CteHitIsAt(q, h);
      CteStarts(q, |front|);
      assert h in CteHits(q) && h.start == |front| && Within(q, h) && Captured(q, h) == c.name;
    }
    forall h | h in CteHits(q) && h.start == |front| && Within(q, h) && Captured(q, h) == c.name ensures Plain(c) {
      CteHitIsAt(q, h);
      var j, x := HitIsHeader(q, h.start);
      HeaderBounds(q, h.start, j, h.from, h.to, x, h.end - 1);
      HeaderIsPlain(front, c, rest, j, h.from, h.to, x, h.end - 1);
    }
  }

  lemma CteStarts(s: string, i: nat)
    requires i <= |s| && CteAt(s, i).Some?
    ensures CteAt(s, i).value.start == i
  {}

  // ---- Which quoted references are checked as their own name ----

  lemma LastOfWord(n: string)
    requires n != "" && All(n, WordOrDot)
    ensures |LastPart(n)| == |n| <==> All(n, Word)
    ensures All(n, Word) ==> LastPart(n) == n
  {
    var i := LastIndexOf(n, '.');
    if i >= 0 {
      assert !In(n[i], Word);
    } else {
      forall j | 0 <= j < |n| ensures In(n[j], Word) { assert In(n[j], WordOrDot); }
      assert n[0..] == n;
    }
  }

  /** The run inside the quotes ends at the closing quote at the latest. */
  lemma QuotedRun(query: string, m: nat, n: string)
    requires m + |n| < |query| && query[m..m + |n|] == n && query[m + |n|] == '\"'
    ensures Span(WordOrDot, query, m) <= m + |n|
    ensures Span(WordOrDot, query, m) == m + |n| <==> All(n, WordOrDot)
  {
    var e := Span(WordOrDot, query, m);
    assert !In(query[m + |n|], WordOrDot);
    if e >= m + |n| {
      forall j | 0 <= j < |n| ensures In(n[j], WordOrDot) { assert n[j] == query[m + j]; }
    } else {
      assert n[e - m] == query[e];
    }
  }

  lemma WordsAreRuns(n: string)
    requires All(n, Word)
    ensures All(n, WordOrDot)
  {
    forall j | 0 <= j < |n| ensures In(n[j], WordOrDot) { assert In(n[j], Word); }
  }

  lemma RefIff(query: string, i: nat)
    requires i <= |query| && Boundary(query, i) && (FoldAt(query, i, "from") || FoldAt(query, i, "join"))
    requires i + 4 <= |query|
    ensures var w := Span(Space, query, i + 4);
            var m := Past(query, w, '\"');
            RefAt(query, i).Some? <==> w > i + 4 && Span(WordOrDot, query, m) > m
  {
    hide FoldAt;
  }

  /** A quoted reference is checked as its own name exactly when the name is one word: a dot, a blank or any other
      character in it makes the check look up something else, or nothing. */
  lemma QuotedExact(query: string, i: nat, n: string)
    requires i + 4 <= |query| && Boundary(query, i) && (FoldAt(query, i, "from") || FoldAt(query, i, "join"))
    requires var w := Span(Space, query, i + 4);
             w > i + 4 && w + |n| + 2 <= |query| && query[w] == '\"' && query[w + 1..w + 1 + |n|] == n
             && query[w + 1 + |n|] == '\"' && '\"' !in n
    ensures RefAt(query, i).Some? && RefName(query, RefAt(query, i).value) == ToLower(n) <==> n != "" && All(n, Word)
  {
    hide FoldAt, RefAt, RefName, LastPart, All, ToLower;
    var m := Span(Space, query, i + 4) + 1;
    var e := Span(WordOrDot, query, m);
    RefIff(query, i);
    QuotedRun(query, m, n);
    if All(n, Word) { WordsAreRuns(n); }
    if e > m {
      LooksUpRun(query, i);
      RunIsLong(query, m, n);
      if All(n, WordOrDot) { LastOfWord(n); }
    }
  }

  lemma RunIsLong(query: string, m: nat, n: string)
    requires m + |n| < |query| && query[m..m + |n|] == n && Span(WordOrDot, query, m) <= m + |n|
    ensures var e := Span(WordOrDot, query, m);
            |LastPart(query[m..e])| == |n| ==> e == m + |n|
    ensures |ToLower(LastPart(query[m..Span(WordOrDot, query, m)]))| == |LastPart(query[m..Span(WordOrDot, query, m)])|
  {}

  // ---- What an accepted query refers to ----

  /** A reported reference on the characters of the query. */
  lemma RefShape(query: string, i: nat)
    requires i <= |query| && RefAt(query, i).Some?
    ensures var h := RefAt(query, i).value;
            var m := Past(query, h.from, '\"');
            var e := Span(WordOrDot, query, m);
            h.start == i && i + 4 < h.from <= m < e <= h.end == Past(query, e, '\"') <= |query|
            && AllIn(query, i + 4, h.from, Space) && AllIn(query, m, e, WordOrDot)
            && (FoldAt(query, i, "from") || FoldAt(query, i, "join")) && Boundary(query, i)
  {
    hide FoldAt;
  }

  lemma KeywordLetters(s: string, i: nat)
    requires FoldAt(s, i, "from") || FoldAt(s, i, "join")
    ensures i + 4 <= |s| && LowerChar(s[i]) in {'f', 'j'} && forall k :: i < k < i + 4 ==> LowerChar(s[k]) in {'r', 'o', 'm', 'i', 'n'}
    ensures forall k :: i <= k < i + 4 ==> IsWord(s[k])
    ensures ToLower(s[i..i + 4]) in {"from", "join"}
  {
    var w := if FoldAt(s, i, "from") then "from" else "join";
    assert LowerChar(s[i + 0]) == w[0] && LowerChar(s[i + 1]) == w[1] && LowerChar(s[i + 2]) == w[2];
    assert LowerChar(s[i + 3]) == w[3];
    assert ToLower(s[i..i + 4]) == w;
  }

  /** A letter that a keyword may start with stands, inside a reference, only in its run. */
  lemma LetterInRun(query: string, i: nat, k: nat)
    requires i <= |query| && RefAt(query, i).Some? && i < k < RefAt(query, i).value.end
    requires LowerChar(query[k]) in {'f', 'j'}
    ensures var m := Past(query, RefAt(query, i).value.from, '\"'); m <= k < Span(WordOrDot, query, m)
  {
    hide RefAt, FoldAt;
    RefShape(query, i);
    KeywordLetters(query, i);
    var h := RefAt(query, i).value;
    forall j | i + 4 <= j < h.from ensures LowerChar(query[j]) !in {'f', 'j'} { assert In(query[j], Space); }
  }

  /** A keyword in a run, with white space after it, is the last part of the run. */
  lemma KeywordEndsRun(query: string, m: nat, k: nat)
    requires m <= k && k + 4 < |query| && In(query[k + 4], Space)
    requires k < Span(WordOrDot, query, m) && Boundary(query, k) && (FoldAt(query, k, "from") || FoldAt(query, k, "join"))
    ensures LastPart(query[m..Span(WordOrDot, query, m)]) == query[k..k + 4]
  {
    hide FoldAt, LastIndexOf;
    KeywordLetters(query, k);
    var e := Span(WordOrDot, query, m);
    assert In(query[k + 4], WordOrDot) == false;
    assert e == k + 4;
    var body, word := query[m..e], query[k..k + 4];
    assert body[k - m..] == word;
    forall j | 0 <= j < 4 ensures word[j] != '.' { assert IsWord(query[k + j]); }
    if k == m {
      assert body == word;
      assert LastIndexOf(body, '.') == -1;
    } else {
      assert In(query[k - 1], WordOrDot) && !WordBefore(query, k);
      assert body[k - 1 - m] == '.';
      LastIndexIs(body, '.', k - 1 - m);
    }
  }

  /** A keyword inside a reported reference is the last part of its run, so the keyword itself is looked up. */
  lemma SwallowedIsLookedUp(query: string, i: nat, k: nat)
    requires i <= |query| && RefAt(query, i).Some? && i < k < RefAt(query, i).value.end && RefAt(query, k).Some?
    ensures RefName(query, RefAt(query, i).value) in {"from", "join"}
  {
    hide RefAt, FoldAt, RefName, LastPart, ToLower, Span;
    RefShape(query, i);
    RefShape(query, k);
    KeywordLetters(query, k);
    LetterInRun(query, i, k);
    var m := Past(query, RefAt(query, i).value.from, '\"');
    assert In(query[k + 4], Space);
    KeywordEndsRun(query, m, k);
    LooksUpFrom(query, i);
  }

  lemma LooksUpFrom(query: string, i: nat)
    requires i <= |query| && RefAt(query, i).Some?
    ensures var m := Past(query, RefAt(query, i).value.from, '\"');
            m <= |query| && RefName(query, RefAt(query, i).value) == ToLower(LastPart(query[m..Span(WordOrDot, query, m)]))
  {
    hide RefAt, RefName, LastPart, ToLower;
    RefSpans(query, i);
    LooksUpRun(query, i);
  }

  /** Soundness: where neither `from` nor `join` is the name of a table or a CTE, an accepted query has every
      occurrence of the reference expression reported at its own place, and there skipped or known. */
  lemma EveryReferenceIsKnown(query: string, s: Schema)
    requires TableError(query, s) == None && "from" !in Known(query, s) && "join" !in Known(query, s)
    ensures forall i: nat :: i <= |query| && Occurs(FromJoinRe(), query, i) ==>
              RefAt(query, i).Some?
              && var h := RefAt(query, i).value;
                 h in RefHits(query) && (RefName(query, h) == "" || RefName(query, h) in Known(query, s))
  {
    hide TableError, RefHits, RefName, Known, RefAt, FromJoinRe, Matches;
    AcceptsExactly(query, s);
    forall i: nat | i <= |query| && Occurs(FromJoinRe(), query, i)
      ensures RefAt(query, i).Some? && RefAt(query, i).value in RefHits(query)
    {
      FromJoinRefines(query, i);
      OccursIffHit(FromJoinRe(), query, i);
      var h :| h in RefHits(query) && h.start <= i < h.end;
      HitIsAt(query, h);
      if h.start < i { SwallowedIsLookedUp(query, h.start, i); }
    }
  }
}
