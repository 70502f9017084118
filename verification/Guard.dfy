/** internal/safety/guard.go: the structural allowlist for generated queries. */
module Guard {
  import opened Ascii

  datatype Verdict =
    | Accept
    | EmptyQuery
    | Stacked(found: nat)
    | Forbidden(keyword: string)

  /** `strings.TrimSuffix(s, ";")`: at most one semicolon goes. */
  function TrimSemicolon(s: string): string {
    if s != [] && s[|s| - 1] == ';' then s[..|s| - 1] else s
  }

  /** What is left of a query once blanks, one semicolon and blanks again are cut off its end. */
  function Strip(query: string): (u: string)
    ensures Trimmed(u)
  {
    TrimSpace(TrimSemicolon(TrimSpace(query)))
  }

  /** The offset of the first semicolon from `i` on, or the length if there is none. */
  function Semicolon(s: string, i: nat): (r: nat)
    requires i <= |s|
    ensures i <= r <= |s| && forall j :: i <= j < r ==> s[j] != ';'
    ensures r < |s| ==> s[r] == ';'
    decreases |s| - i
  {
    if i == |s| || s[i] == ';' then i else Semicolon(s, i + 1)
  }

  /** `strings.Split(s, ";")`. */
  function Split(s: string): (parts: seq<string>)
    ensures parts != []
  {
    var i := Semicolon(s, 0);
    if i == |s| then [s] else [s[..i]] + Split(s[i + 1..])
  }

  /** A piece between semicolons counts only if it is not blank; it is kept trimmed. */
  function Piece(p: string): seq<string> {
    if TrimSpace(p) == "" then [] else [TrimSpace(p)]
  }

  /** The pieces that are not blank, trimmed. */
  function NonBlank(pieces: seq<string>): seq<string> {
    if pieces == [] then [] else Piece(pieces[0]) + NonBlank(pieces[1..])
  }

  function Statements(s: string): seq<string> {
    NonBlank(Split(s))
  }

  lemma NonBlankCons(p: string, pieces: seq<string>)
    ensures NonBlank([p] + pieces) == Piece(p) + NonBlank(pieces)
  {
    assert ([p] + pieces)[1..] == pieces;
  }

  lemma {:induction false} NonBlankSnoc(pieces: seq<string>, p: string)
    ensures NonBlank(pieces + [p]) == NonBlank(pieces) + Piece(p)
  {
    hide Piece;
    if pieces == [] {
      assert pieces + [p] == [p];
      NonBlankCons(p, []);
    } else {
      NonBlankSnoc(pieces[1..], p);
      assert pieces + [p] == [pieces[0]] + (pieces[1..] + [p]);
      NonBlankCons(pieces[0], pieces[1..] + [p]);
    }
  }

  method SplitStatements(query: string) returns (parts: seq<string>)
    ensures parts == Statements(query)
  {
    hide TrimSpace;
    parts := [];
    var pieces := Split(query);
    for i := 0 to |pieces|
      invariant parts == NonBlank(pieces[..i])
    {
      var trimmed := TrimSpace(pieces[i]);
      if trimmed != "" {
        parts := parts + [trimmed];
      }
      assert pieces[..i + 1] == pieces[..i] + [pieces[i]];
      NonBlankSnoc(pieces[..i], pieces[i]);
    }
    assert pieces[..|pieces|] == pieces;
  }

  /** The offset of the first white space from `i` on, or the length. */
  function NextSpace(s: string, i: nat): (r: nat)
    requires i <= |s|
    ensures i <= r <= |s| && forall j :: i <= j < r ==> !IsSpace(s[j])
    ensures r < |s| ==> IsSpace(s[r])
    decreases |s| - i
  {
    if i == |s| || IsSpace(s[i]) then i else NextSpace(s, i + 1)
  }

  /** `extractFirstKeyword`: the first of `strings.Fields`, or the empty string. */
  function FirstKeyword(s: string): string {
    TrimLeft(s)[..NextSpace(TrimLeft(s), 0)]
  }

  predicate Allowed(keyword: string) {
    keyword == "SELECT" || keyword == "WITH"
  }

  /** The verdict on a query. */
  function Verdicts(query: string): Verdict {
    var u := Strip(query);
    if u == "" then EmptyQuery
    else if |Statements(u)| > 1 then Stacked(|Statements(u)|)
    else if Allowed(FirstKeyword(ToUpper(u))) then Accept
    else Forbidden(FirstKeyword(ToUpper(u)))
  }

  method Check(query: string) returns (v: Verdict)
    ensures v == Verdicts(query)
  {
    var q := TrimSpace(query);
    q := TrimSemicolon(q);
    q := TrimSpace(q);
    if q == "" {
      return EmptyQuery;
    }
    var parts := SplitStatements(q);
    if |parts| > 1 {
      return Stacked(|parts|);
    }
    var keyword := FirstKeyword(ToUpper(q));
    if keyword == "SELECT" || keyword == "WITH" {
      return Accept;
    }
    return Forbidden(keyword);
  }

  // ---- The accepted language, read off the characters ----

  /** Nothing but white space and semicolons. */
  predicate Blankish(s: string) {
    forall i :: 0 <= i < |s| ==> IsSpace(s[i]) || s[i] == ';'
  }

  /** After the first semicolon there is nothing but white space and semicolons. */
  predicate OneStatement(u: string) {
    forall i, j :: 0 <= i < j < |u| && u[i] == ';' ==> IsSpace(u[j]) || u[j] == ';'
  }

  /** The query language the guard lets through, with no reference to splitting. */
  predicate InLanguage(u: string) {
    OneStatement(u) && Allowed(FirstKeyword(ToUpper(u)))
  }

  lemma BlankTrims(s: string)
    ensures TrimSpace(s) == "" <==> AllSpace(s)
  {
    var a, b := TrimSplits(s);
    if TrimSpace(s) == "" {
      forall i | 0 <= i < |s| ensures IsSpace(s[i]) {
        assert s[i] == if i < |a| then a[i] else b[i - |a|];
      }
    }
    if AllSpace(s) {
      TrimIsMiddle(s, "", "");
      assert s + "" + "" == s;
    }
  }

  lemma SemicolonIs(s: string, i: nat)
    requires i <= |s| && ';' !in s[..i] && (i < |s| ==> s[i] == ';')
    ensures Semicolon(s, 0) == i
  {
    assert forall j :: 0 <= j < i ==> s[j] == s[..i][j];
  }

  /** What splitting does at the first semicolon. */
  lemma SplitAtFirst(s: string, i: nat)
    requires i < |s| && s[i] == ';' && ';' !in s[..i]
    ensures Split(s) == [s[..i]] + Split(s[i + 1..])
  {
    SemicolonIs(s, i);
  }

  lemma NoSplit(s: string)
    requires ';' !in s
    ensures Split(s) == [s] + []
  {
    assert s[..|s|] == s;
    SemicolonIs(s, |s|);
  }

  lemma FirstSemicolon(s: string) returns (i: nat)
    requires ';' in s
    ensures i < |s| && s[i] == ';' && ';' !in s[..i]
  {
    i := Semicolon(s, 0);
  }

  /** No statement is left exactly when the text is blanks and semicolons. */
  lemma {:induction false} NoStatements(s: string)
    ensures Statements(s) == [] <==> Blankish(s)
    decreases |s|
  {
    hide TrimSpace;
    if ';' in s {
      var i := FirstSemicolon(s);
      SplitAtFirst(s, i);
      var rest := s[i + 1..];
      NoStatements(rest);
      BlankTrims(s[..i]);
      NonBlankCons(s[..i], Split(rest));
      assert Blankish(s) <==> AllSpace(s[..i]) && Blankish(rest) by {
        if Blankish(s) {
          forall j | 0 <= j < i ensures IsSpace(s[..i][j]) { assert s[..i][j] == s[j]; }
          forall j | 0 <= j < |rest| ensures IsSpace(rest[j]) || rest[j] == ';' { assert rest[j] == s[i + 1 + j]; }
        }
        if AllSpace(s[..i]) && Blankish(rest) {
          forall j | 0 <= j < |s| ensures IsSpace(s[j]) || s[j] == ';' {
            if j < i { assert s[..i][j] == s[j]; } else if j > i { assert rest[j - i - 1] == s[j]; }
          }
        }
      }
    } else {
      BlankTrims(s);
      NonBlankCons(s, []);
      NoSplit(s);
      assert forall i :: 0 <= i < |s| ==> s[i] != ';';
    }
  }

  /** An allowed keyword stands at the very start of a trimmed text and holds no semicolon. */
  lemma KeywordLeads(u: string)
    requires Trimmed(u) && Allowed(FirstKeyword(ToUpper(u)))
    ensures u != "" && u[0] != ';' && !IsSpace(u[0])
  {
    var up := ToUpper(u);
    var k := FirstKeyword(up);
    assert u != "";
    assert !IsSpace(up[0]);
    assert TrimLeft(up) == up;
    assert up[0] == k[0];
  }

  lemma NothingAfterFirst(u: string, i: nat)
    requires i < |u| && u[i] == ';' && ';' !in u[..i]
    ensures OneStatement(u) <==> Blankish(u[i + 1..])
  {
    var rest := u[i + 1..];
    if OneStatement(u) {
      forall j | 0 <= j < |rest| ensures IsSpace(rest[j]) || rest[j] == ';' { assert rest[j] == u[i + 1 + j]; }
    }
    if Blankish(rest) {
      assert forall j :: 0 <= j < i ==> u[j] == u[..i][j];
      forall a, b | 0 <= a < b < |u| && u[a] == ';' ensures IsSpace(u[b]) || u[b] == ';' {
        assert i <= a;
        assert rest[b - i - 1] == u[b];
      }
    }
  }

  /** At most one statement is found exactly when nothing follows the first semicolon. */
  lemma StatementsExact(u: string)
    requires u != "" && u[0] != ';' && !IsSpace(u[0])
    ensures |Statements(u)| >= 1
    ensures |Statements(u)| == 1 <==> OneStatement(u)
  {
    hide TrimSpace;
    if ';' in u {
      var i := FirstSemicolon(u);
      SplitAtFirst(u, i);
      NothingAfterFirst(u, i);
      NoStatements(u[i + 1..]);
      BlankTrims(u[..i]);
      assert u[..i][0] == u[0];
      NonBlankCons(u[..i], Split(u[i + 1..]));
    } else {
      BlankTrims(u);
      NonBlankCons(u, []);
      NoSplit(u);
      assert forall i :: 0 <= i < |u| ==> u[i] != ';';
    }
  }

  /** The first word: what stands before the first white space. */
  function FirstWord(u: string): (w: string)
    ensures w <= u && (forall j :: 0 <= j < |w| ==> !IsSpace(w[j])) && (|w| < |u| ==> IsSpace(u[|w|]))
  {
    u[..NextSpace(u, 0)]
  }

  /** The leading keyword of a text with a solid start runs to its first white space. */
  lemma KeywordIs(u: string)
    requires u != "" && !IsSpace(u[0])
    ensures FirstKeyword(ToUpper(u)) == ToUpper(FirstWord(u))
  {
    var a := ToUpper(u);
    assert forall i :: 0 <= i < |u| ==> IsSpace(a[i]) == IsSpace(u[i]);
    assert SkipSpace(a, 0) == 0;
    assert a[0..] == a;
    assert NextSpace(a, 0) == NextSpace(u, 0);
  }

  /** What is accepted, on the characters: nothing but white space and semicolons after the first semicolon, and
      SELECT or WITH, in any case, as the first word. */
  lemma AcceptedExactly(query: string)
    ensures var u := Strip(query);
            Verdicts(query) == Accept <==>
              OneStatement(u) && (ToUpper(FirstWord(u)) == "SELECT" || ToUpper(FirstWord(u)) == "WITH")
  {
    var u := Strip(query);
    CheckLanguage(query);
    if u == "" {
      assert FirstKeyword(ToUpper(u)) == "" && ToUpper(FirstWord(u)) == "";
    } else {
      KeywordIs(u);
    }
  }

  /** The exact accepted language of `Check`. */
  lemma CheckLanguage(query: string)
    ensures Verdicts(query) == Accept <==> InLanguage(Strip(query))
  {
    var u := Strip(query);
    if Allowed(FirstKeyword(ToUpper(u))) {
      KeywordLeads(u);
      StatementsExact(u);
    }
  }

  /** A query is called empty exactly when it is blank but for at most one semicolon. */
  lemma CheckEmpty(query: string)
    ensures Verdicts(query) == EmptyQuery <==> TrimSpace(query) == "" || TrimSpace(query) == ";"
  {
    var t := TrimSpace(query);
    var m := TrimSemicolon(t);
    BlankTrims(m);
    if m != "" { assert m[0] == t[0]; }
  }

  lemma {:induction false} StatementsSameFold(s: string, t: string)
    requires SameFold(s, t)
    ensures |Statements(s)| == |Statements(t)|
    decreases |s|
  {
    hide TrimSpace, Split;
    SemicolonsSameFold(s, t);
    if ';' in s {
      var i := FirstSemicolon(s);
      assert forall j :: 0 <= j < i ==> s[..i][j] == s[j] && t[..i][j] == t[j];
      SplitAtFirst(s, i);
      SplitAtFirst(t, i);
      TrimSameFold(s[..i], t[..i]);
      StatementsSameFold(s[i + 1..], t[i + 1..]);
      NonBlankCons(s[..i], Split(s[i + 1..]));
      NonBlankCons(t[..i], Split(t[i + 1..]));
    } else {
      TrimSameFold(s, t);
      NonBlankCons(s, []);
      NonBlankCons(t, []);
      NoSplit(s);
      NoSplit(t);
    }
  }

  lemma SemicolonsSameFold(s: string, t: string)
    requires SameFold(s, t)
    ensures forall i :: 0 <= i < |s| ==> (s[i] == ';' <==> t[i] == ';')
    ensures ';' in s <==> ';' in t
  {
    forall i | 0 <= i < |s| ensures s[i] == ';' <==> t[i] == ';' {
      assert LowerChar(s[i]) == LowerChar(t[i]);
    }
  }

  lemma StripSameFold(q: string, q': string)
    requires SameFold(q, q')
    ensures SameFold(Strip(q), Strip(q'))
  {
    TrimSameFold(q, q');
    var t, t' := TrimSpace(q), TrimSpace(q');
    SemicolonsSameFold(t, t');
    TrimSameFold(TrimSemicolon(t), TrimSemicolon(t'));
  }

  /** The verdict does not depend on the case of letters, down to the keyword it names. */
  lemma CheckSameFold(q: string, q': string)
    requires SameFold(q, q')
    ensures Verdicts(q) == Verdicts(q')
  {
    hide Strip, Statements, FirstKeyword, ToUpper;
    StripSameFold(q, q');
    UpperOfSameFold(Strip(q), Strip(q'));
    StatementsSameFold(Strip(q), Strip(q'));
  }
}
