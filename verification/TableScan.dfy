/** The two regular expressions of internal/agent/sql/validate.go, and scanners that decide them
    at one position without backtracking. */
module TableScan {
  import opened Ascii
  import opened Regex
  import opened Wrappers

  const QUOTE := Fold('\"')

  /** `\s+("?[\w.]+"?)` */
  function RefPat(): Pat {
    Plus(Space, Open(Opt(QUOTE, Plus(WordOrDot, Opt(QUOTE, Close(Done))))))
  }

  /** `(?i)\b(?:from|join)\s+("?[\w.]+"?)` */
  function FromJoinRe(): Pat {
    Bound(Either(Lit("from", RefPat()), Lit("join", RefPat())))
  }

  /** `\s+as\s*\(` */
  function AsPat(): Pat {
    Plus(Space, Lit("as", Star(Space, One(Fold('('), Done))))
  }

  /** `\s+([a-zA-Z_]\w*)\s+as\s*\(` */
  function CteName(): Pat {
    Plus(Space, Open(One(IdentStart, Star(Word, Close(AsPat())))))
  }

  /** `(?i)(?:\bwith\b|,)\s+([a-zA-Z_]\w*)\s+as\s*\(` */
  function CteRe(): Pat {
    Either(Bound(Lit("with", Bound(CteName()))), One(Fold(','), CteName()))
  }

  lemma PatternsConsume()
    ensures Consuming(FromJoinRe()) && Consuming(CteRe())
  {
    assert Lit("from", RefPat()).One? && Lit("join", RefPat()).One? && Lit("with", Bound(CteName())).One?;
  }

  // ---- Scanners ----

  function Past(s: string, i: nat, c: char): nat {
    if i < |s| && s[i] == c then i + 1 else i
  }

  /** The table reference after a keyword that ends at `j`: white space, then an optionally quoted run. */
  function RefFrom(s: string, i: nat, j: nat): Option<Hit>
    requires j <= |s|
  {
    var w := Span(Space, s, j);
    var b := Past(s, w, '\"');
    var e := Span(WordOrDot, s, b);
    if w == j || e == b then None
    else Some(Hit(i, Past(s, e, '\"'), w, Past(s, e, '\"')))
  }

  function RefAt(s: string, i: nat): Option<Hit>
    requires i <= |s|
  {
    if Boundary(s, i) && (FoldAt(s, i, "from") || FoldAt(s, i, "join")) then RefFrom(s, i, i + 4) else None
  }

  /** The part of a CTE header after its first white space. */
  function HeaderFrom(s: string, i: nat, w: nat): Option<Hit>
    requires w <= |s|
  {
    if w == |s| || !In(s[w], IdentStart) then None
    else
      var e := Span(Word, s, w + 1);
      var x := Span(Space, s, e);
      if x == e || !FoldAt(s, x, "as") then None
      else
        var y := Span(Space, s, x + 2);
        if y < |s| && s[y] == '(' then Some(Hit(i, y + 1, w, e)) else None
  }

  /** A CTE name and its `AS (`, after a keyword or comma that ends at `j`. */
  function CteFrom(s: string, i: nat, j: nat): Option<Hit>
    requires j <= |s|
  {
    var w := Span(Space, s, j);
    if w == j then None else HeaderFrom(s, i, w)
  }

  function CteAt(s: string, i: nat): Option<Hit>
    requires i <= |s|
  {
    if Boundary(s, i) && FoldAt(s, i, "with") && Boundary(s, i + 4) then CteFrom(s, i, i + 4)
    else if i < |s| && s[i] == ',' then CteFrom(s, i, i + 1)
    else None
  }

  // ---- The scanners decide the regular expressions ----

  function AsHit(i: nat, t: Option<Thread>): Option<Hit> {
    match t
    case None => None
    case Some(u) => Some(Hit(i, u.pos, u.from, u.to))
  }

  /** `[\w.]+"?` and the end of the group: greedy runs, nothing given back. */
  lemma RunRefines(s: string, t: Thread)
    requires t.pos <= |s|
    ensures var n := Opt(QUOTE, Close(Done));
            var e := Span(WordOrDot, s, t.pos);
            First(Plus(WordOrDot, n), s, t)
            == if e == t.pos then None else Some(t.(pos := Past(s, e, '\"'), to := Past(s, e, '\"')))
  {
    hide Matches;
    var n := Opt(QUOTE, Close(Done));
    if Sees(s, t, WordOrDot) {
      var u := t.(pos := Span(WordOrDot, s, t.pos));
      CloseRefines(s, u);
      StarTakesAll(WordOrDot, n, s, Step(t));
    }
  }

  /** `"?` and the end of the group. */
  lemma CloseRefines(s: string, u: Thread)
    requires u.pos <= |s|
    ensures First(Opt(QUOTE, Close(Done)), s, u) == Some(u.(pos := Past(s, u.pos, '\"'), to := Past(s, u.pos, '\"')))
  {
    hide Matches;
    var end := Close(Done);
    assert First(end, s, u) == First(Done, s, u.(to := u.pos)) == Some(u.(to := u.pos));
    if Sees(s, u, QUOTE) {
      var v := Step(u);
      assert First(end, s, v) == First(Done, s, v.(to := v.pos)) == Some(v.(to := v.pos));
    }
  }

  /** A reference does not start with white space. */
  lemma RefNeedsSolid(s: string)
    ensures forall u: Thread ::
              Sees(s, u, Space) ==> First(Open(Opt(QUOTE, Plus(WordOrDot, Opt(QUOTE, Close(Done))))), s, u).None?
  {
    hide Matches;
    var run := Plus(WordOrDot, Opt(QUOTE, Close(Done)));
    forall u: Thread | Sees(s, u, Space) ensures First(Open(Opt(QUOTE, run)), s, u).None? {
      var v := u.(from := u.pos);
      assert First(Open(Opt(QUOTE, run)), s, u) == First(Opt(QUOTE, run), s, v);
      assert First(run, s, v).None?;
    }
  }

  lemma RefRefines(s: string, i: nat, t: Thread)
    requires t.pos <= |s|
    ensures AsHit(i, First(RefPat(), s, t)) == RefFrom(s, i, t.pos)
  {
    hide Matches, Plus;
    var run := Plus(WordOrDot, Opt(QUOTE, Close(Done)));
    var n := Open(Opt(QUOTE, run));
    RefNeedsSolid(s);
    PlusCommits(Space, n, s, t);
    var w := Span(Space, s, t.pos);
    if w > t.pos {
      var v := t.(pos := w, from := w);
      assert First(n, s, t.(pos := w)) == First(Opt(QUOTE, run), s, v);
      RunRefines(s, v);
      if Sees(s, v, QUOTE) { RunRefines(s, Step(v)); }
    }
  }

  lemma FromJoinRefines(s: string, i: nat)
    requires i <= |s|
    ensures HitAt(FromJoinRe(), s, i) == RefAt(s, i)
  {
    hide Matches;
    var t := Thread(i, i, i);
    FirstLit("from", RefPat(), s, t);
    FirstLit("join", RefPat(), s, t);
    if FoldAt(s, i, "from") {
      assert LowerChar(s[i + 0]) == "from"[0];
      assert !FoldAt(s, i, "join") by { assert LowerChar(s[i + 0]) != "join"[0]; }
    }
    if i + 4 <= |s| { RefRefines(s, i, t.(pos := i + 4)); }
    var words := Either(Lit("from", RefPat()), Lit("join", RefPat()));
    assert First(FromJoinRe(), s, t) == if Boundary(s, i) then First(words, s, t) else None;
  }

  /** `\s*\(` */
  lemma OpenRefines(s: string, t: Thread)
    requires t.pos <= |s|
    ensures var y := Span(Space, s, t.pos);
            First(Star(Space, One(Fold('('), Done)), s, t)
            == if y < |s| && s[y] == '(' then Some(t.(pos := y + 1)) else None
  {
    hide Matches;
    var open := One(Fold('('), Done);
    StarCommits(Space, open, s, t);
    var u := t.(pos := Span(Space, s, t.pos));
    assert First(open, s, u) == if Sees(s, u, Fold('(')) then First(Done, s, Step(u)) else None;
  }

  lemma AsNeedsLetter(s: string)
    ensures forall u: Thread, n: Pat :: Sees(s, u, Space) ==> First(Lit("as", n), s, u).None?
  {
    hide Matches;
    forall u: Thread, n: Pat | Sees(s, u, Space) ensures First(Lit("as", n), s, u).None? {
      FirstLit("as", n, s, u);
      assert LowerChar(s[u.pos + 0]) != 'a';
    }
  }

  lemma AsRefines(s: string, t: Thread)
    requires t.pos <= |s|
    ensures var x := Span(Space, s, t.pos);
            First(AsPat(), s, t)
            == if x == t.pos || !FoldAt(s, x, "as") then None
               else
                 var y := Span(Space, s, x + 2);
                 if y < |s| && s[y] == '(' then Some(t.(pos := y + 1)) else None
  {
    hide Lit, FoldAt, First, Plus, Matches;
    var n := Star(Space, One(Fold('('), Done));
    AsNeedsLetter(s);
    PlusCommits(Space, Lit("as", n), s, t);
    var u := t.(pos := Span(Space, s, t.pos));
    FirstLit("as", n, s, u);
    if FoldAt(s, u.pos, "as") {
      FoldFits(s, u.pos, "as");
      OpenRefines(s, u.(pos := u.pos + 2));
    }
  }

  lemma AsNeedsSpace(s: string)
    ensures forall u: Thread :: Sees(s, u, Word) ==> First(Close(AsPat()), s, u).None?
  {
    hide Matches;
    forall u: Thread | Sees(s, u, Word) ensures First(Close(AsPat()), s, u).None? {
      assert First(Close(AsPat()), s, u) == First(AsPat(), s, u.(to := u.pos));
    }
  }

  /** `([a-zA-Z_]\w*)\s+as\s*\(` from a position where the identifier starts. */
  lemma IdentRefines(s: string, u: Thread)
    requires Sees(s, u, IdentStart)
    ensures var e := Span(Word, s, u.pos + 1);
            First(Open(One(IdentStart, Star(Word, Close(AsPat())))), s, u)
            == First(AsPat(), s, Thread(e, u.pos, e))
  {
    hide Matches;
    hide AsPat;
    var n := Close(AsPat());
    var v := u.(from := u.pos);
    AsNeedsSpace(s);
    StarCommits(Word, n, s, Step(v));
    assert First(Open(One(IdentStart, Star(Word, n))), s, u) == First(One(IdentStart, Star(Word, n)), s, v);
  }

  /** A CTE name starts with a letter or an underscore. */
  lemma NameNeedsLetter(s: string, u: Thread)
    requires !Sees(s, u, IdentStart)
    ensures First(Open(One(IdentStart, Star(Word, Close(AsPat())))), s, u).None?
  {
    hide Matches;
    var ident := One(IdentStart, Star(Word, Close(AsPat())));
    assert First(Open(ident), s, u) == First(ident, s, u.(from := u.pos));
  }

  lemma CteNameRefines(s: string, i: nat, t: Thread)
    requires t.pos <= |s|
    ensures AsHit(i, First(CteName(), s, t)) == CteFrom(s, i, t.pos)
  {
    hide AsPat, FoldAt, First, Plus, Matches;
    var n := Open(One(IdentStart, Star(Word, Close(AsPat()))));
    forall u: Thread | Sees(s, u, Space) ensures First(n, s, u).None? { NameNeedsLetter(s, u); }
    PlusCommits(Space, n, s, t);
    NameRefines(s, i, t.(pos := Span(Space, s, t.pos)));
  }

  lemma NameRefines(s: string, i: nat, u: Thread)
    requires u.pos <= |s|
    ensures AsHit(i, First(Open(One(IdentStart, Star(Word, Close(AsPat())))), s, u)) == HeaderFrom(s, i, u.pos)
  {
    hide AsPat, FoldAt, First, Matches;
    if Sees(s, u, IdentStart) {
      IdentRefines(s, u);
      var e := Span(Word, s, u.pos + 1);
      AsRefines(s, Thread(e, u.pos, e));
    } else {
      NameNeedsLetter(s, u);
    }
  }

  /** `\bwith\b` and a CTE name. */
  lemma WithRefines(s: string, i: nat)
    requires i <= |s|
    ensures AsHit(i, First(Bound(Lit("with", Bound(CteName()))), s, Thread(i, i, i)))
            == if Boundary(s, i) && FoldAt(s, i, "with") && Boundary(s, i + 4) then CteFrom(s, i, i + 4) else None
  {
    hide Matches, CteName, CteFrom;
    var t := Thread(i, i, i);
    FirstLit("with", Bound(CteName()), s, t);
    if FoldAt(s, i, "with") {
      var u := t.(pos := i + 4);
      CteNameRefines(s, i, u);
      assert First(Bound(CteName()), s, u) == if Boundary(s, i + 4) then First(CteName(), s, u) else None;
    }
  }

  /** A comma and a CTE name. */
  lemma CommaRefines(s: string, i: nat)
    requires i <= |s|
    ensures AsHit(i, First(One(Fold(','), CteName()), s, Thread(i, i, i)))
            == if i < |s| && s[i] == ',' then CteFrom(s, i, i + 1) else None
  {
    hide Matches, CteName, CteFrom;
    if i < |s| { CteNameRefines(s, i, Step(Thread(i, i, i))); }
  }

  lemma CteRefines(s: string, i: nat)
    requires i <= |s|
    ensures HitAt(CteRe(), s, i) == CteAt(s, i)
  {
    hide Matches, CteName, CteFrom, Lit;
    var t := Thread(i, i, i);
    WithRefines(s, i);
    CommaRefines(s, i);
    var keyword, comma := Bound(Lit("with", Bound(CteName()))), One(Fold(','), CteName());
    assert First(CteRe(), s, t) == OrElse(First(keyword, s, t), First(comma, s, t));
    var w := "with";
    assert w[0] == 'w';
    if FoldAt(s, i, w) { assert LowerChar(s[i + 0]) == w[0]; }
  }

  // ---- Greedy is longest ----

  lemma CloseEnds(s: string, v: Thread, u: Thread)
    ensures Matches(Close(Done), s, v, u) ==> u.pos == v.pos
  {
    assert Matches(Close(Done), s, v, u) == Matches(Done, s, v.(to := v.pos), u);
  }

  lemma RunLongest(s: string, t: Thread, u: Thread)
    requires t.pos <= |s| && Matches(Plus(WordOrDot, Opt(QUOTE, Close(Done))), s, t, u)
    ensures Span(WordOrDot, s, t.pos) > t.pos && u.pos <= Past(s, Span(WordOrDot, s, t.pos), '\"')
  {
    hide First;
    var j := PlusReaches(WordOrDot, Opt(QUOTE, Close(Done)), s, t, u);
    var v := t.(pos := j);
    assert Matches(Close(Done), s, v, u) || (Sees(s, v, QUOTE) && Matches(Close(Done), s, Step(v), u));
    CloseEnds(s, v, u);
    CloseEnds(s, Step(v), u);
  }

  /** A match of the group starts with a quote or with the run. */
  lemma GroupReaches(s: string, t: Thread, u: Thread)
    requires t.pos <= |s| && Matches(Open(Opt(QUOTE, Plus(WordOrDot, Opt(QUOTE, Close(Done))))), s, t, u)
    ensures var b := Past(s, t.pos, '\"');
            t.pos < |s| && !In(s[t.pos], Space)
            && Span(WordOrDot, s, b) > b && u.pos <= Past(s, Span(WordOrDot, s, b), '\"')
  {
    hide First;
    var run := Plus(WordOrDot, Opt(QUOTE, Close(Done)));
    var o := t.(from := t.pos);
    assert Matches(Opt(QUOTE, run), s, o, u);
    if Matches(run, s, o, u) {
      RunLongest(s, o, u);
    } else {
      assert Sees(s, o, QUOTE) && Matches(run, s, Step(o), u);
      RunLongest(s, Step(o), u);
    }
  }

  lemma RefLongest(s: string, i: nat, t: Thread, u: Thread)
    requires t.pos <= |s| && Matches(RefPat(), s, t, u)
    ensures RefFrom(s, i, t.pos).Some? && u.pos <= RefFrom(s, i, t.pos).value.end
  {
    hide First, Matches, Plus;
    var j := PlusReaches(Space, Open(Opt(QUOTE, Plus(WordOrDot, Opt(QUOTE, Close(Done))))), s, t, u);
    GroupReaches(s, t.(pos := j), u);
  }

  /** Among all matches of the relation at a position, the reported one is the longest. */
  lemma ReportedIsLongest(s: string, i: nat, u: Thread)
    requires i <= |s| && Matches(FromJoinRe(), s, Thread(i, i, i), u)
    ensures HitAt(FromJoinRe(), s, i).Some? && u.pos <= HitAt(FromJoinRe(), s, i).value.end
  {
    var t := Thread(i, i, i);
    FirstComplete(FromJoinRe(), s, t, u);
    FromJoinRefines(s, i);
    if Matches(Lit("from", RefPat()), s, t, u) {
      LitMatches("from", RefPat(), s, t, u);
    } else {
      LitMatches("join", RefPat(), s, t, u);
    }
    RefLongest(s, i, t.(pos := i + 4), u);
  }

  // ---- A CTE header matches in one way ----

  /** `\s*\(` */
  lemma OpenUnique(s: string, t: Thread, u: Thread)
    requires t.pos <= |s| && Matches(Star(Space, One(Fold('('), Done)), s, t, u)
    ensures u == t.(pos := Span(Space, s, t.pos) + 1)
  {
    hide First;
    var open := One(Fold('('), Done);
    StarExact(Space, open, s, t, u);
    var v := t.(pos := Span(Space, s, t.pos));
    assert Matches(Done, s, Step(v), u);
  }

  /** `\s+as\s*\(` */
  lemma AsUnique(s: string, t: Thread, u: Thread)
    requires t.pos <= |s| && Matches(AsPat(), s, t, u)
    ensures Span(Space, s, t.pos) > t.pos && Span(Space, s, t.pos) + 2 <= |s|
    ensures u == t.(pos := Span(Space, s, Span(Space, s, t.pos) + 2) + 1)
  {
    hide First;
    var n := Star(Space, One(Fold('('), Done));
    var word := "as";
    assert Lit(word, n) == One(Fold('a'), Lit(word[1..], n));
    PlusExact(Space, Lit(word, n), s, t, u);
    var v := t.(pos := Span(Space, s, t.pos));
    LitMatches(word, n, s, v, u);
    OpenUnique(s, v.(pos := v.pos + 2), u);
  }

  /** A name is followed by white space. */
  lemma NameStops(s: string, t: Thread, u: Thread)
    requires t.pos <= |s| && Matches(Close(AsPat()), s, t, u)
    ensures t.pos < |s| && In(s[t.pos], Space)
  {
    hide First, AsPat;
    assert Matches(AsPat(), s, t.(to := t.pos), u);
    AsUnique(s, t.(to := t.pos), u);
  }

  /** `([a-zA-Z_]\w*)\s+as\s*\(` */
  lemma NameUnique(s: string, t: Thread, u: Thread)
    requires t.pos <= |s| && Matches(Open(One(IdentStart, Star(Word, Close(AsPat())))), s, t, u)
    ensures t.pos < |s| && In(s[t.pos], IdentStart)
    ensures var e := Span(Word, s, t.pos + 1);
            var x := Span(Space, s, e);
            x + 2 <= |s| && u == Thread(Span(Space, s, x + 2) + 1, t.pos, e)
  {
    hide First, AsPat;
    var n := Close(AsPat());
    var v := t.(from := t.pos);
    assert Matches(Star(Word, n), s, Step(v), u);
    forall a: Thread | Sees(s, a, Word) ensures !Matches(n, s, a, u) {
      if Matches(n, s, a, u) { NameStops(s, a, u); }
    }
    StarExact(Word, n, s, Step(v), u);
    var e := Step(v).(pos := Span(Word, s, t.pos + 1));
    assert Matches(AsPat(), s, e.(to := e.pos), u);
    AsUnique(s, e.(to := e.pos), u);
  }

  lemma CteNameUnique(s: string, t: Thread, u: Thread, v: Thread)
    requires t.pos <= |s| && Matches(CteName(), s, t, u) && Matches(CteName(), s, t, v)
    ensures u == v
  {
    hide First, AsPat, Matches, Plus;
    var n := Open(One(IdentStart, Star(Word, Close(AsPat()))));
    forall a: Thread, b: Thread | Sees(s, a, Space) ensures !Matches(n, s, a, b) {
      if Matches(n, s, a, b) { NameUnique(s, a, b); }
    }
    PlusExact(Space, n, s, t, u);
    PlusExact(Space, n, s, t, v);
    NameUnique(s, t.(pos := Span(Space, s, t.pos)), u);
    NameUnique(s, t.(pos := Span(Space, s, t.pos)), v);
  }

  /** After the keyword or the comma, whichever stands there. */
  lemma HeaderMatches(s: string, i: nat, u: Thread)
    requires i <= |s| && Matches(CteRe(), s, Thread(i, i, i), u)
    ensures i < |s|
    ensures var j := if s[i] == ',' then i + 1 else i + 4;
            j <= |s| && Matches(CteName(), s, Thread(j, i, i), u)
  {
    hide First, CteName;
    var t := Thread(i, i, i);
    var word := "with";
    var bounded := Bound(CteName());
    assert Lit(word, bounded) == One(Fold('w'), Lit(word[1..], bounded));
    if Matches(Bound(Lit(word, bounded)), s, t, u) {
      assert Matches(Lit(word, bounded), s, t, u);
      LitMatches(word, bounded, s, t, u);
      assert Sees(s, t, Fold('w'));
      assert Matches(bounded, s, t.(pos := i + 4), u);
    } else {
      assert Matches(One(Fold(','), CteName()), s, t, u);
      assert Sees(s, t, Fold(','));
    }
  }

  /** The relation matches a CTE header in one way at most: the reported end and name are those of every match. */
  lemma CteMatchUnique(s: string, i: nat, u: Thread)
    requires i <= |s| && Matches(CteRe(), s, Thread(i, i, i), u)
    ensures HitAt(CteRe(), s, i) == Some(Hit(i, u.pos, u.from, u.to))
  {
    hide CteRe, CteName, Matches;
    var t := Thread(i, i, i);
    FirstComplete(CteRe(), s, t, u);
    var r := First(CteRe(), s, t).value;
    HeaderMatches(s, i, u);
    HeaderMatches(s, i, r);
    CteNameUnique(s, Thread(if s[i] == ',' then i + 1 else i + 4, i, i), u, r);
  }

  /** Table references after FROM and JOIN, found in one pass. */
  method ScanRefs(s: string) returns (hits: seq<Hit>)
    ensures Consuming(FromJoinRe()) && hits == FindAll(FromJoinRe(), s, 0)
  {
    PatternsConsume();
    forall i: nat | i <= |s| ensures RefAt(s, i) == HitAt(FromJoinRe(), s, i) { FromJoinRefines(s, i); }
    hits := ScanAll(FromJoinRe(), RefAt, s);
  }

  /** CTE names, found in one pass. */
  method ScanCtes(s: string) returns (hits: seq<Hit>)
    ensures Consuming(CteRe()) && hits == FindAll(CteRe(), s, 0)
  {
    PatternsConsume();
    forall i: nat | i <= |s| ensures CteAt(s, i) == HitAt(CteRe(), s, i) { CteRefines(s, i); }
    hits := ScanAll(CteRe(), CteAt, s);
  }
}
