/** internal/connector/postgres/postgres.go, `Validate`: the allowlist followed by LIMIT injection. */
module Gate {
  import opened Ascii
  import opened Guard
  import opened Regex
  import opened Wrappers

  const DEFAULT_ROW_CAP: nat := 1000

  /** The cap `New` keeps for a configured one. */
  function RowCap(configured: int): nat {
    if configured <= 0 then DEFAULT_ROW_CAP else configured
  }

  /** `(?i)\blimit\b` */
  function LimitRe(): Pat {
    Bound(Lit("limit", Bound(Done)))
  }

  /** `limitRe.MatchString`. */
  predicate HasLimit(s: string) {
    FindNext(LimitRe(), s, 0).Some?
  }

  function WithLimit(u: string, cap: nat): string {
    u + " LIMIT " + Itoa(cap)
  }

  function Validate(query: string, cap: nat): Result<string, Verdict> {
    if Verdicts(query) != Accept then Err(Verdicts(query))
    else
      var q := Strip(query);
      Ok(if HasLimit(q) then q else WithLimit(q, cap))
  }

  // ---- The limit token ----

  predicate LimitAt(s: string, i: nat) {
    Boundary(s, i) && FoldAt(s, i, "limit") && Boundary(s, i + 5)
  }

  lemma LimitHit(s: string, i: nat)
    requires i <= |s|
    ensures HitAt(LimitRe(), s, i).Some? <==> LimitAt(s, i)
  {
    hide Matches;
    FirstLit("limit", Bound(Done), s, Thread(i, i, i));
  }

  /** The regular expression finds a limit token exactly when one stands somewhere in the text. */
  lemma HasLimitIff(s: string)
    ensures HasLimit(s) <==> exists i: nat :: i <= |s| && LimitAt(s, i)
  {
    if HasLimit(s) {
      LimitHit(s, FindNext(LimitRe(), s, 0).value.start);
    }
    forall i: nat | i <= |s| && LimitAt(s, i) ensures HasLimit(s) {
      LimitHit(s, i);
    }
  }

  /** Cutting semicolons and blanks off the end keeps the limit token. */
  lemma LimitSurvives(u: string, n: nat)
    requires n <= |u| && Blankish(u[n..])
    ensures HasLimit(u) ==> HasLimit(u[..n])
  {
    HasLimitIff(u);
    HasLimitIff(u[..n]);
    forall i: nat | i <= |u| && LimitAt(u, i) ensures exists j: nat :: j <= n && LimitAt(u[..n], j) {
      var l := "limit";
      assert LowerChar(u[i + 4]) == l[4];
      assert forall j :: n <= j < |u| ==> u[j] == u[n..][j - n];
      assert i + 5 <= n;
      forall j | 0 <= j < 5 ensures LowerChar(u[..n][i + j]) == l[j] {
        assert LowerChar(u[i + j]) == l[j];
      }
      assert LowerChar(u[i + 0]) == l[0];
      assert LimitAt(u[..n], i);
    }
  }

  lemma InjectedLimit(u: string, cap: nat)
    ensures HasLimit(WithLimit(u, cap))
  {
    var s := WithLimit(u, cap);
    var i := |u| + 1;
    assert s[|u|..|u| + 7] == " LIMIT ";
    forall j | 0 <= j < 7 ensures s[|u| + j] == " LIMIT "[j] {
      assert s[|u|..|u| + 7][j] == s[|u| + j];
    }
    forall j | 0 <= j < 5 ensures LowerChar(s[i + j]) == "limit"[j] {
      assert s[i + j] == s[|u| + (j + 1)] == " LIMIT "[j + 1];
    }
    assert s[i - 1] == s[|u| + 0];
    assert s[i + 5] == s[|u| + 6];
    assert s[i + 4] == s[|u| + 5];
    assert s[i] == s[|u| + 1];
    assert LimitAt(s, i);
    HasLimitIff(s);
  }

  // ---- The leading keyword ----

  /** Two texts share their leading keyword when they agree up to the same first white space. */
  lemma SameKeyword(u: string, w: string)
    requires u != "" && w != "" && !IsSpace(u[0]) && !IsSpace(w[0])
    requires NextSpace(u, 0) == NextSpace(w, 0) && u[..NextSpace(u, 0)] == w[..NextSpace(u, 0)]
    ensures FirstKeyword(ToUpper(w)) == FirstKeyword(ToUpper(u))
  {
    hide FirstKeyword, ToUpper;
    KeywordIs(u);
    KeywordIs(w);
  }

  // ---- What every output satisfies ----

  /** Every output carries a limit token, starts with the stripped query, and is trimmed. */
  lemma OutputShape(query: string, cap: nat)
    ensures match Validate(query, cap)
            case Ok(out) =>
              HasLimit(out) && Strip(query) <= out && Trimmed(out) && out != "" && Allowed(FirstKeyword(ToUpper(out)))
              && (ToUpper(FirstWord(out)) == "SELECT" || ToUpper(FirstWord(out)) == "WITH")
            case Err(_) => true
  {
    hide Strip, HasLimit, WithLimit, FirstKeyword, ToUpper, Verdicts, Trimmed, FirstWord;
    var u := Strip(query);
    CheckLanguage(query);
    AcceptedExactly(query);
    if Verdicts(query) == Accept {
      KeywordLeads(u);
      SameFirstWord(u, cap);
      if !HasLimit(u) {
        InjectedLimit(u, cap);
        ExtendKeyword(u, cap);
        WithLimitEnds(u, cap);
      }
    }
  }

  lemma SameFirstWord(u: string, cap: nat)
    ensures FirstWord(WithLimit(u, cap)) == FirstWord(u)
  {
    var out := WithLimit(u, cap);
    assert forall j :: 0 <= j < |u| ==> out[j] == u[j];
    assert out[|u|] == " LIMIT "[0];
    assert NextSpace(out, 0) == NextSpace(u, 0);
  }

  lemma ExtendKeyword(u: string, cap: nat)
    requires Trimmed(u) && u != ""
    ensures FirstKeyword(ToUpper(WithLimit(u, cap))) == FirstKeyword(ToUpper(u))
    ensures Trimmed(WithLimit(u, cap)) && Strip(WithLimit(u, cap)) == WithLimit(u, cap)
  {
    hide FirstKeyword, ToUpper;
    WithLimitEnds(u, cap);
    var out := WithLimit(u, cap);
    var n := NextSpace(u, 0);
    assert NextSpace(out, 0) == n;
    assert out[..n] == u[..n];
    SameKeyword(u, out);
    StripOfSolid(out);
  }

  lemma WithLimitEnds(u: string, cap: nat)
    requires Trimmed(u) && u != ""
    ensures var out := WithLimit(u, cap);
            u <= out && |u| < |out| && out[|u|] == ' ' && Trimmed(out) && out[|out| - 1] != ';'
  {
    var out := WithLimit(u, cap);
    var d := Itoa(cap);
    assert out[|out| - 1] == d[|d| - 1];
    assert out[|u|] == " LIMIT "[0];
  }

  /** Stripping changes nothing when there is neither a blank nor a semicolon at an end. */
  lemma StripOfSolid(s: string)
    requires Trimmed(s) && (s == "" || s[|s| - 1] != ';')
    ensures Strip(s) == s
  {
    hide TrimSpace;
    TrimOfTrimmed(s);
  }

  /** With the default row cap, a query without a limit token gets ` LIMIT 1000`. */
  lemma DefaultLimit(query: string)
    requires Verdicts(query) == Accept && !HasLimit(Strip(query))
    ensures Validate(query, RowCap(0)) == Ok(Strip(query) + " LIMIT 1000")
  {
    hide Verdicts, Strip, HasLimit, Itoa;
    ThousandIs();
    assert Strip(query) + " LIMIT " + "1000" == Strip(query) + " LIMIT 1000";
  }

  // ---- Closure and idempotence, exactly ----

  /** With no semicolon left inside, the output is accepted again and is a fixpoint. */
  lemma CleanOutputIsFixpoint(query: string, cap: nat)
    requires ';' !in Strip(query)
    ensures match Validate(query, cap)
            case Ok(out) => Verdicts(out) == Accept && Validate(out, cap) == Ok(out)
            case Err(_) => true
  {
    hide Strip, HasLimit, WithLimit, Verdicts, FirstKeyword, ToUpper;
    var u := Strip(query);
    OutputShape(query, cap);
    match Validate(query, cap)
    case Err(_) =>
    case Ok(out) =>
      if !HasLimit(u) { NoSemicolon(u, cap); }
      StripOfSolid(out);
      CheckLanguage(out);
  }

  lemma NoSemicolon(u: string, cap: nat)
    requires ';' !in u
    ensures ';' !in WithLimit(u, cap)
  {
    var d := Itoa(cap);
    assert ';' !in " LIMIT ";
    assert ';' !in d;
  }

  lemma {:induction false} OneAfterBlanks(b: string, x: string)
    requires Blankish(b) && ';' !in x && !AllSpace(x)
    ensures |Statements(b + x)| == 1
    decreases |b|
  {
    hide TrimSpace;
    var s := b + x;
    if ';' in b {
      var i := FirstSemicolon(b);
      assert s[..i] == b[..i];
      SplitAtFirst(s, i);
      assert s[i + 1..] == b[i + 1..] + x;
      assert forall j :: 0 <= j < i ==> b[..i][j] == b[j];
      OneAfterBlanks(b[i + 1..], x);
      BlankTrims(b[..i]);
      NonBlankCons(s[..i], Split(s[i + 1..]));
    } else {
      assert ';' !in s;
      BlankTrims(s);
      assert !AllSpace(s) by {
        var j :| 0 <= j < |x| && !IsSpace(x[j]);
        assert s[|b| + j] == x[j];
      }
      NonBlankCons(s, []);
      NoSplit(s);
    }
  }

  /** Text appended to an accepted query after its semicolons is a second statement. */
  lemma AppendedIsSecond(u: string, x: string)
    requires u != "" && u[0] != ';' && !IsSpace(u[0]) && OneStatement(u) && ';' in u
    requires ';' !in x && !AllSpace(x)
    ensures |Statements(u + x)| == 2
  {
    hide TrimSpace, OneStatement, Blankish;
    var out := u + x;
    var i := FirstSemicolon(u);
    assert out[..i] == u[..i] && out[i] == u[i];
    SplitAtFirst(out, i);
    NothingAfterFirst(u, i);
    assert out[i + 1..] == u[i + 1..] + x;
    OneAfterBlanks(u[i + 1..], x);
    BlankTrims(u[..i]);
    assert u[..i][0] == u[0];
    NonBlankCons(out[..i], Split(out[i + 1..]));
    assert Statements(out) == Piece(u[..i]) + Statements(out[i + 1..]);
  }

  /** With a semicolon left inside and no limit token, the injected LIMIT is a second statement. */
  lemma StrayLimitIsStacked(query: string, cap: nat)
    requires ';' in Strip(query) && !HasLimit(Strip(query))
    ensures match Validate(query, cap)
            case Ok(out) => Verdicts(out) == Stacked(2)
            case Err(_) => true
  {
    hide Statements, Strip, HasLimit, FirstKeyword, InLanguage;
    var u := Strip(query);
    CheckLanguage(query);
    if InLanguage(u) {
      StrayLimit(u, cap);
    }
  }

  lemma StrayLimit(u: string, cap: nat)
    requires Trimmed(u) && InLanguage(u) && ';' in u
    ensures Verdicts(WithLimit(u, cap)) == Stacked(2)
  {
    hide Statements, Strip, FirstKeyword;
    KeywordLeads(u);
    ExtendKeyword(u, cap);
    var x := " LIMIT " + Itoa(cap);
    assert WithLimit(u, cap) == u + x;
    assert x[1] == 'L';
    NoSemicolon("", cap);
    assert WithLimit("", cap) == x;
    AppendedIsSecond(u, x);
  }

  /** The output is accepted again exactly when the stripped query holds no semicolon, or a limit token. */
  lemma ClosureExact(query: string, cap: nat)
    ensures match Validate(query, cap)
            case Ok(out) => Verdicts(out) == Accept <==> ';' !in Strip(query) || HasLimit(Strip(query))
            case Err(_) => true
  {
    hide Strip, HasLimit, Verdicts, Body;
    var u := Strip(query);
    if ';' !in u {
      CleanOutputIsFixpoint(query, cap);
    } else if HasLimit(u) {
      OnePassShrinks(query, cap);
    } else {
      StrayLimitIsStacked(query, cap);
    }
  }

  /** Validating twice gives the same text exactly when the stripped query holds no semicolon. */
  lemma IdempotenceExact(query: string, cap: nat)
    ensures match Validate(query, cap)
            case Ok(out) => Validate(out, cap) == Ok(out) <==> ';' !in Strip(query)
            case Err(_) => true
  {
    hide Strip, HasLimit, Verdicts, Body;
    var u := Strip(query);
    if ';' !in u {
      CleanOutputIsFixpoint(query, cap);
    } else if HasLimit(u) {
      OnePassShrinks(query, cap);
    } else {
      StrayLimitIsStacked(query, cap);
    }
  }

  // ---- Repeated validation of a query that has its own limit ----

  /** A stripped query that holds a semicolon ends in one. */
  lemma EndsInSemicolon(u: string)
    requires Trimmed(u) && InLanguage(u) && ';' in u
    ensures u[|u| - 1] == ';'
  {
    var i := FirstSemicolon(u);
    if i < |u| - 1 {
      assert u[i] == ';';
      assert IsSpace(u[|u| - 1]) || u[|u| - 1] == ';';
    }
  }

  /** The text before the first semicolon, trimmed. */
  function Body(u: string): string {
    TrimSpace(Split(u)[0])
  }

  /** Stripping a trimmed text that ends in a semicolon cuts it and the blanks before it. */
  lemma StripCuts(u: string) returns (b: string)
    requires Trimmed(u) && u != "" && u[0] != ';' && u[|u| - 1] == ';'
    ensures AllSpace(b) && u == Strip(u) + b + [';']
  {
    hide TrimSpace;
    TrimOfTrimmed(u);
    var v := u[..|u| - 1];
    assert Strip(u) == TrimSpace(v);
    var a;
    a, b := TrimSplits(v);
    assert v != "" ==> v[0] == u[0];
    assert v[..|a|] == a;
    assert a == "";
    assert v == Strip(u) + b;
    assert u == v + [';'];
  }

  lemma ShorterStatement(u: string, w: string, b: string)
    requires u == w + b + [';'] && AllSpace(b) && OneStatement(u)
    ensures OneStatement(w) && Blankish(u[|w|..])
  {
    assert forall j :: 0 <= j < |w| ==> w[j] == u[j];
    assert u[|w|..] == b + [';'];
  }

  /** Stripping an accepted text once more removes exactly one semicolon and the blanks before it. */
  lemma StripAgain(u: string)
    requires Trimmed(u) && InLanguage(u) && ';' in u
    ensures var w := Strip(u);
            |w| < |u| && w <= u && Blankish(u[|w|..]) && InLanguage(w) && Body(w) == Body(u)
  {
    hide Strip, Body, FirstKeyword, OneStatement, Blankish;
    KeywordLeads(u);
    EndsInSemicolon(u);
    var w := Strip(u);
    var b := StripCuts(u);
    ShorterStatement(u, w, b);
    ShorterKeyword(u, w);
    ShorterBody(u, w, b);
  }

  lemma ShorterKeyword(u: string, w: string)
    requires Trimmed(u) && Trimmed(w) && w <= u && Blankish(u[|w|..])
    requires Allowed(FirstKeyword(ToUpper(u)))
    ensures Allowed(FirstKeyword(ToUpper(w)))
  {
    hide FirstKeyword, ToUpper;
    KeywordLeads(u);
    KeywordIs(u);
    KeywordIsPlain(u);
    var n := NextSpace(u, 0);
    assert forall j :: |w| <= j < |u| ==> u[j] == u[|w|..][j - |w|];
    assert n <= |w|;
    assert w[0] == u[0];
    assert w[..n] == u[..n];
    assert NextSpace(w, 0) == n;
    SameKeyword(u, w);
  }

  /** An allowed keyword ends in a letter. */
  lemma KeywordIsPlain(u: string)
    requires u != "" && !IsSpace(u[0]) && Allowed(FirstKeyword(ToUpper(u)))
    ensures var n := NextSpace(u, 0); n > 0 && u[n - 1] != ';' && !IsSpace(u[n - 1])
  {
    hide FirstKeyword;
    KeywordIs(u);
    var n := NextSpace(u, 0);
    var k := ToUpper(u[..n]);
    assert k == "SELECT" || k == "WITH";
    assert k[n - 1] == UpperChar(u[n - 1]);
    assert k[n - 1] == 'T' || k[n - 1] == 'H';
  }

  lemma ShorterBody(u: string, w: string, b: string)
    requires u == w + b + [';'] && AllSpace(b)
    ensures Body(w) == Body(u)
  {
    if ';' in w {
      var i := FirstSemicolon(w);
      assert u[..i] == w[..i] && u[i] == w[i];
      SplitAtFirst(u, i);
      SplitAtFirst(w, i);
    } else {
      var i := |u| - 1;
      assert u[..i] == w + b;
      assert ';' !in w + b;
      SplitAtFirst(u, i);
      var x, y := TrimSplits(w);
      assert w + b == x + TrimSpace(w) + (y + b);
      TrimIsMiddle(x, TrimSpace(w), y + b);
    }
  }

  /** One pass over a query with its own limit: accepted again, shorter unless already a fixpoint, same body. */
  lemma OnePassShrinks(query: string, cap: nat)
    requires HasLimit(Strip(query))
    ensures match Validate(query, cap)
            case Ok(u) =>
              u == Strip(query) && Validate(u, cap) == Ok(Strip(u)) && HasLimit(Strip(u)) && Body(Strip(u)) == Body(u)
              && (if ';' in u then |Strip(u)| < |u| else Strip(u) == u == Body(u))
            case Err(_) => true
  {
    hide Strip, HasLimit, Verdicts, InLanguage, Body;
    var u := Strip(query);
    CheckLanguage(query);
    CheckLanguage(u);
    if !InLanguage(u) {
    } else if ';' in u {
      StripAgain(u);
      LimitSurvives(u, |Strip(u)|);
      assert u[..|Strip(u)|] == Strip(u);
    } else {
      StripClean(u);
    }
  }

  lemma StripClean(u: string)
    requires Trimmed(u) && ';' !in u
    ensures Strip(u) == u == Body(u)
  {
    TrimOfTrimmed(u);
    NoSplit(u);
  }

  function Iterate(query: string, cap: nat, n: nat): Result<string, Verdict>
    decreases n
  {
    if n == 0 then Ok(query)
    else
      match Validate(query, cap)
      case Ok(out) => Iterate(out, cap, n - 1)
      case Err(v) => Err(v)
  }

  /** Iterating `Validate` on a query with its own limit settles on the text before the first semicolon. */
  lemma {:induction false} LimitedQuerySettles(query: string, cap: nat) returns (n: nat)
    requires HasLimit(Strip(query))
    ensures 1 <= n <= |Strip(query)| + 1
    ensures var f := Body(Strip(query));
            Validate(query, cap).Ok? ==> Iterate(query, cap, n) == Ok(f) && Validate(f, cap) == Ok(f)
    decreases |Strip(query)|
  {
    hide Strip, HasLimit, Validate, Body;
    var u := Strip(query);
    OnePassShrinks(query, cap);
    if Validate(query, cap).Ok? && ';' in u {
      n := LimitedQuerySettles(u, cap);
      n := n + 1;
    } else {
      n := 1;
      assert Iterate(u, cap, 0) == Ok(u);
    }
  }

  lemma LimitSameFold(u: string, u': string, cap: nat)
    requires SameFold(u, u')
    ensures HasLimit(u) == HasLimit(u') && SameFold(WithLimit(u, cap), WithLimit(u', cap))
  {
    FindNextSameFold(LimitRe(), u, u', 0);
    var x := " LIMIT " + Itoa(cap);
    assert WithLimit(u, cap) == u + x && WithLimit(u', cap) == u' + x;
  }

  /** Whether a query is refused, and whether a LIMIT is injected, does not depend on the case of letters. */
  lemma ValidateSameFold(q: string, q': string, cap: nat)
    requires SameFold(q, q')
    ensures HasLimit(Strip(q)) == HasLimit(Strip(q'))
    ensures match (Validate(q, cap), Validate(q', cap))
            case (Ok(out), Ok(out')) => SameFold(out, out')
            case (Err(v), Err(v')) => v == v'
            case _ => false
  {
    hide Strip, HasLimit, WithLimit, Verdicts;
    CheckSameFold(q, q');
    StripSameFold(q, q');
    LimitSameFold(Strip(q), Strip(q'), cap);
  }
}
