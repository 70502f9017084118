/** internal/agent/sql/text2sql.go, `extractSQL`: the SQL in a model's answer. */
module Fence {
  import opened Ascii

  const FENCE: string := "```"

  /** `isWord`: a non-empty run of ASCII letters and digits. */
  predicate IsTag(s: string) {
    s != "" && forall i :: 0 <= i < |s| ==> 'a' <= s[i] <= 'z' || 'A' <= s[i] <= 'Z' || '0' <= s[i] <= '9'
  }

  /** The first line of a fence is dropped when it is blank or a language tag. */
  predicate DropsLine(line: string) {
    TrimSpace(line) == "" || IsTag(TrimSpace(line))
  }

  function DropTag(rest: string): string {
    var nl := Index(rest, "\n");
    if nl >= 0 && DropsLine(rest[..nl]) then rest[nl + 1..] else rest
  }

  function CutAtFence(rest: string): string {
    var j := Index(rest, FENCE);
    if j >= 0 then rest[..j] else rest
  }

  function ExtractSQL(response: string): string {
    var resp := TrimSpace(response);
    var i := Index(resp, FENCE);
    if i < 0 then resp
    else TrimSpace(CutAtFence(DropTag(resp[i + 3..])))
  }

  // ---- Substrings ----

  lemma SliceOfSlice(s: string, a: nat, b: nat, c: nat, d: nat)
    requires a <= b <= |s| && c <= d <= b - a
    ensures s[a..b][c..d] == s[a + c..a + d]
  {
    var x, y := s[a..b][c..d], s[a + c..a + d];
    forall i | 0 <= i < d - c ensures x[i] == y[i] {
      assert x[i] == s[a..b][c + i] == s[a + (c + i)];
    }
  }

  lemma PartContains(s: string, a: nat, b: nat, pat: string)
    requires a <= b <= |s| && Contains(s[a..b], pat)
    ensures Contains(s, pat)
  {
    var j :| HasAt(s[a..b], pat, j);
    SliceOfSlice(s, a, b, j, j + |pat|);
    assert HasAt(s, pat, a + j);
  }

  lemma TrimKeepsOut(s: string, pat: string)
    requires !Contains(s, pat)
    ensures !Contains(TrimSpace(s), pat)
  {
    var a, b := TrimSplits(s);
    var m := TrimSpace(s);
    assert s[|a|..|a| + |m|] == m;
    if Contains(m, pat) { PartContains(s, |a|, |a| + |m|, pat); }
  }

  /** The first fence of `a`, a fence, and more text stands right after `a`. */
  lemma FirstFence(a: string, b: string)
    requires !Contains(a, FENCE) && (a == "" || a[|a| - 1] != '`')
    ensures Index(a + FENCE + b, FENCE) == |a|
  {
    var s := a + FENCE + b;
    assert s[|a|..|a| + 3] == FENCE;
    assert HasAt(s, FENCE, |a|);
    forall j | 0 <= j < |a| ensures !HasAt(s, FENCE, j) {
      if j + 3 <= |a| {
        assert s[j..j + 3] == a[j..j + 3];
        assert !HasAt(a, FENCE, j);
      } else {
        assert s[j..j + 3][|a| - 1 - j] == a[|a| - 1];
      }
    }
  }

  // ---- What the answer never contains ----

  lemma CutHasNoFence(rest: string)
    ensures !Contains(CutAtFence(rest), FENCE)
  {
    var j := Index(rest, FENCE);
    if j >= 0 && Contains(rest[..j], FENCE) {
      var k :| HasAt(rest[..j], FENCE, k);
      assert rest[k..k + 3] == rest[..j][k..k + 3];
      assert HasAt(rest, FENCE, k);
    }
  }

  lemma ExtractHasNoFence(response: string)
    ensures !Contains(ExtractSQL(response), FENCE) && Trimmed(ExtractSQL(response))
  {
    hide TrimSpace, DropTag, CutAtFence;
    var resp := TrimSpace(response);
    TrimmedTrim(response);
    var i := Index(resp, FENCE);
    if i >= 0 {
      var rest := DropTag(resp[i + 3..]);
      CutHasNoFence(rest);
      TrimKeepsOut(CutAtFence(rest), FENCE);
      TrimmedTrim(CutAtFence(rest));
    }
  }

  /** The extracted text is trimmed and holds no fence; extracting from it again changes nothing. */
  lemma ExtractIsFinal(response: string)
    ensures var q := ExtractSQL(response);
            Trimmed(q) && !Contains(q, FENCE) && ExtractSQL(q) == q
  {
    ExtractHasNoFence(response);
    var q := ExtractSQL(response);
    hide ExtractSQL;
    TrimOfTrimmed(q);
    PlainExtract(q);
  }

  lemma PlainExtract(q: string)
    requires TrimSpace(q) == q && !Contains(q, FENCE)
    ensures ExtractSQL(q) == q
  {}

  lemma TrimmedTrim(s: string)
    ensures Trimmed(TrimSpace(s))
  {}

  // ---- The tag line ----

  /** A line that is dropped holds no backtick. */
  lemma DroppedLineIsPlain(line: string)
    requires DropsLine(line)
    ensures '`' !in line
  {
    var a, b := TrimSplits(line);
    var m := TrimSpace(line);
    forall i | 0 <= i < |line| ensures line[i] != '`' {
      assert line[i] == if i < |a| then a[i] else if i < |a| + |m| then m[i - |a|] else b[i - |a| - |m|];
    }
  }

  /** Dropping the tag line never skips a closing fence: it is the same as cutting at the closing fence first. */
  lemma DropThenCut(rest: string)
    ensures CutAtFence(DropTag(rest)) == DropTag(CutAtFence(rest))
  {
    var nl := Index(rest, "\n");
    var j := Index(rest, FENCE);
    if nl >= 0 { assert rest[nl..nl + 1] == "\n"; assert rest[nl] == '\n'; }
    if j >= 0 {
      assert rest[j..j + 3] == FENCE;
      assert rest[j] == FENCE[0] && rest[j + 1] == FENCE[1] && rest[j + 2] == FENCE[2];
    }
    if nl >= 0 && DropsLine(rest[..nl]) {
      DroppedLineIsPlain(rest[..nl]);
      DropLineThenCut(rest, nl, j);
    } else if j >= 0 {
      CutThenKeep(rest, nl, j);
    }
  }

  lemma NewlineIs(s: string, nl: nat)
    requires nl < |s| && s[nl] == '\n' && '\n' !in s[..nl]
    ensures Index(s, "\n") == nl
  {
    assert s[nl..nl + 1] == "\n";
    assert HasAt(s, "\n", nl);
    forall i | 0 <= i < nl ensures !HasAt(s, "\n", i) {
      assert s[i..i + 1][0] == s[..nl][i];
    }
  }

  lemma HasAtShift(s: string, n: nat, pat: string)
    requires n <= |s|
    ensures forall k: nat :: HasAt(s[n..], pat, k) <==> HasAt(s, pat, n + k)
  {
    forall k: nat ensures HasAt(s[n..], pat, k) <==> HasAt(s, pat, n + k) {
      if n + k + |pat| <= |s| {
        SliceOfSlice(s, n, |s|, k, k + |pat|);
        assert s[n..|s|] == s[n..];
      }
    }
  }

  lemma NoFenceInPlain(s: string, n: nat)
    requires n <= |s| && '`' !in s[..n]
    ensures forall k :: 0 <= k < n ==> !HasAt(s, FENCE, k)
  {
    forall k | 0 <= k < n ensures !HasAt(s, FENCE, k) {
      if k + 3 <= |s| { assert s[k..k + 3][0] == s[..n][k]; }
    }
  }

  /** Fences after a plain first line are the fences of what follows it. */
  lemma FenceAfterLine(rest: string, n: nat)
    requires n <= |rest| && '`' !in rest[..n]
    ensures Index(rest, FENCE) == if Index(rest[n..], FENCE) == -1 then -1 else n + Index(rest[n..], FENCE)
  {
    hide HasAt;
    var r := rest[n..];
    HasAtShift(rest, n, FENCE);
    NoFenceInPlain(rest, n);
    var j, m := Index(rest, FENCE), Index(r, FENCE);
    if j >= 0 {
      assert n <= j;
      assert HasAt(r, FENCE, j - n);
      assert m >= 0 && HasAt(rest, FENCE, n + m);
    }
  }

  lemma DropLineThenCut(rest: string, nl: nat, j: int)
    requires nl == Index(rest, "\n") && j == Index(rest, FENCE)
    requires nl < |rest| && rest[nl] == '\n' && DropsLine(rest[..nl]) && '`' !in rest[..nl]
    requires j >= 0 ==> j + 3 <= |rest| && rest[j] == '`'
    ensures CutAtFence(DropTag(rest)) == DropTag(CutAtFence(rest))
  {
    hide DropsLine;
    var r := rest[nl + 1..];
    assert rest[..nl + 1] == rest[..nl] + ['\n'];
    FenceAfterLine(rest, nl + 1);
    if j >= 0 {
      var cut := rest[..j];
      assert cut[..nl] == rest[..nl];
      NoEarlierNewline(rest, nl);
      NewlineIs(cut, nl);
      assert cut[nl + 1..] == r[..j - nl - 1];
    }
  }

  lemma NoEarlierNewline(s: string, nl: nat)
    requires nl == Index(s, "\n") && nl < |s|
    ensures '\n' !in s[..nl]
  {
    forall i | 0 <= i < nl ensures s[i] != '\n' {
      assert s[i..i + 1] == [s[i]];
      assert !HasAt(s, "\n", i);
    }
  }

  lemma PrefixHas(s: string, n: nat, pat: string, i: nat)
    requires n <= |s| && i + |pat| <= n && HasAt(s, pat, i)
    ensures HasAt(s[..n], pat, i)
  {
    assert s[..n][i..i + |pat|] == s[i..i + |pat|];
  }

  lemma CutThenKeep(rest: string, nl: int, j: nat)
    requires nl == Index(rest, "\n") && j == Index(rest, FENCE) && j + 3 <= |rest|
    requires nl >= 0 ==> nl < |rest| && rest[nl] == '\n' && !DropsLine(rest[..nl])
    ensures DropTag(rest[..j]) == rest[..j]
  {
    var cut := rest[..j];
    var m := Index(cut, "\n");
    if m >= 0 {
      assert cut[m..m + 1] == "\n";
      SliceOfSlice(rest, 0, j, m, m + 1);
      assert rest[0..j] == cut;
      assert HasAt(rest, "\n", m);
      assert nl >= 0;
      if nl < m { PrefixHas(rest, j, "\n", nl); }
      assert cut[..m] == rest[..nl];
    }
  }

  // ---- Extraction is the inverse of rendering ----

  /** Prose before the fence: no fence inside, and no backtick that would extend the fence to the left. */
  predicate PlainEnd(s: string) {
    s == "" || s[|s| - 1] != '`'
  }

  /** Trimming an answer only shortens the prose and the tail around a part with solid ends. */
  lemma TrimAround(prose: string, inner: string, tail: string)
    requires inner != "" && !IsSpace(inner[0]) && !IsSpace(inner[|inner| - 1])
    ensures TrimSpace(prose + inner + tail) == TrimLeft(prose) + inner + TrimRight(tail)
  {
    var p, t := TrimLeft(prose), TrimRight(tail);
    var a, b := prose[..|prose| - |p|], tail[|t|..];
    var m := p + inner + t;
    assert m[0] == if p == "" then inner[0] else p[0];
    assert m[|m| - 1] == if t == "" then inner[|inner| - 1] else t[|t| - 1];
    assert prose + inner + tail == a + m + b;
    TrimIsMiddle(a, m, b);
  }

  lemma TrimmedProse(prose: string)
    requires !Contains(prose, FENCE) && PlainEnd(prose)
    ensures !Contains(TrimLeft(prose), FENCE) && PlainEnd(TrimLeft(prose))
  {
    var n := SkipSpace(prose, 0);
    if Contains(prose[n..|prose|], FENCE) { PartContains(prose, n, |prose|, FENCE); }
    assert prose[n..] == prose[n..|prose|];
  }

  /** What is extracted from plain prose, a fence, and the rest of a trimmed answer. */
  lemma ExtractAfter(response: string, p: string, after: string)
    requires TrimSpace(response) == p + FENCE + after
    requires !Contains(p, FENCE) && PlainEnd(p)
    ensures ExtractSQL(response) == TrimSpace(CutAtFence(DropTag(after)))
  {
    hide TrimSpace, CutAtFence, DropTag;
    FirstFence(p, after);
    assert (p + FENCE + after)[|p| + 3..] == after;
  }

  lemma DropThisTag(tag: string, more: string)
    requires DropsLine(tag) && '\n' !in tag
    ensures DropTag(tag + "\n" + more) == more
  {
    hide DropsLine;
    var after := tag + "\n" + more;
    assert after[..|tag|] == tag;
    NewlineIs(after, |tag|);
    assert after[|tag| + 1..] == more;
  }

  /** From prose, a tagged fence with a body, and anything after it, exactly the trimmed body comes back. */
  lemma FencedBody(prose: string, tag: string, body: string, tail: string)
    requires !Contains(prose, FENCE) && PlainEnd(prose)
    requires DropsLine(tag) && '\n' !in tag
    requires !Contains(body, FENCE) && PlainEnd(body)
    ensures ExtractSQL(prose + (FENCE + tag + "\n" + body + FENCE) + tail) == TrimSpace(body)
  {
    hide TrimSpace, TrimLeft, TrimRight, DropsLine, DropTag, ExtractSQL;
    var inner := FENCE + tag + "\n" + body + FENCE;
    assert inner[0] == '`' && inner[|inner| - 1] == '`';
    TrimAround(prose, inner, tail);
    TrimmedProse(prose);
    var p, t := TrimLeft(prose), TrimRight(tail);
    var more := body + FENCE + t;
    assert p + inner + t == p + FENCE + (tag + "\n" + more);
    ExtractAfter(prose + inner + tail, p, tag + "\n" + more);
    DropThisTag(tag, more);
    FirstFence(body, t);
    assert more[..|body|] == body;
  }

  /** The same for a fence the model never closed. */
  lemma UnclosedBody(prose: string, tag: string, body: string)
    requires !Contains(prose, FENCE) && PlainEnd(prose)
    requires DropsLine(tag) && '\n' !in tag
    requires !Contains(body, FENCE) && TrimSpace(body) != ""
    ensures ExtractSQL(prose + (FENCE + tag + "\n" + body)) == TrimSpace(body)
  {
    hide TrimSpace, TrimLeft, DropsLine, DropTag, ExtractSQL;
    var kept := TrimRight(body);
    RightEnd(body);
    var inner := FENCE + tag + "\n" + kept;
    assert inner[0] == '`' && inner[|inner| - 1] == kept[|kept| - 1];
    TrimAround(prose, inner, body[|kept|..]);
    assert TrimRight(body[|kept|..]) == "";
    assert prose + (FENCE + tag + "\n" + body) == prose + inner + body[|kept|..];
    TrimmedProse(prose);
    var p := TrimLeft(prose);
    assert p + inner + "" == p + FENCE + (tag + "\n" + kept);
    ExtractAfter(prose + (FENCE + tag + "\n" + body), p, tag + "\n" + kept);
    DropThisTag(tag, kept);
    assert body[0..|kept|] == kept;
    if Contains(kept, FENCE) { PartContains(body, 0, |kept|, FENCE); }
  }

  lemma RightEnd(body: string)
    requires TrimSpace(body) != ""
    ensures var kept := TrimRight(body);
            kept != "" && !IsSpace(kept[|kept| - 1]) && TrimSpace(kept) == TrimSpace(body)
            && |kept| <= |body| && kept == body[..|kept|] && AllSpace(body[|kept|..])
  {
    var kept := TrimRight(body);
    var a, b := TrimSplits(body);
    var m := TrimSpace(body);
    assert body[|a|] == m[0] && body[|a| + |m| - 1] == m[|m| - 1];
    assert |kept| == |a| + |m|;
    assert kept == a + m + "";
    TrimIsMiddle(a, m, "");
  }

  // ---- The tag line, and answers without one ----

  /** Letters and digits of ASCII. */
  predicate Alphanumeric(m: string) {
    forall i :: 0 <= i < |m| ==> m[i] in LOWER || m[i] in UPPER || m[i] in "0123456789"
  }

  lemma TagChars(m: string)
    ensures Alphanumeric(m) <==> m == "" || IsTag(m)
  {
    hide IsTag;
    forall i | 0 <= i < |m|
      ensures m[i] in LOWER || m[i] in UPPER || m[i] in "0123456789"
              <==> 'a' <= m[i] <= 'z' || 'A' <= m[i] <= 'Z' || '0' <= m[i] <= '9'
    {
      ClassTable(m[i]);
      CaseTable(m[i]);
      Underscore();
    }
    TagIs(m);
  }

  lemma Underscore()
    ensures '_' !in LOWER && '_' !in UPPER && '_' !in "0123456789"
  {}

  lemma TagIs(m: string)
    ensures m == "" || IsTag(m) <==>
              forall i :: 0 <= i < |m| ==> 'a' <= m[i] <= 'z' || 'A' <= m[i] <= 'Z' || '0' <= m[i] <= '9'
  {}

  /** A first line is dropped exactly if it is letters and digits, or nothing, between blanks. */
  lemma DroppedExactly(line: string)
    ensures DropsLine(line) <==>
              exists a, m, b :: AllSpace(a) && AllSpace(b) && Alphanumeric(m) && line == a + m + b
  {
    hide Alphanumeric, IsTag, TrimSpace;
    if DropsLine(line) {
      var a, b := TrimSplits(line);
      TagChars(TrimSpace(line));
      assert line == a + TrimSpace(line) + b;
    }
    if a, m, b :| AllSpace(a) && AllSpace(b) && Alphanumeric(m) && line == a + m + b {
      TagChars(m);
      TagIsTrimmed(m);
      TrimIsMiddle(a, m, b);
    }
  }

  lemma TagIsTrimmed(m: string)
    requires m == "" || IsTag(m)
    ensures Trimmed(m)
  {}

  /** An answer without a fence is its trimmed text. */
  lemma UnfencedAnswer(response: string)
    requires !Contains(response, FENCE)
    ensures ExtractSQL(response) == TrimSpace(response)
  {
    hide TrimSpace;
    TrimKeepsOut(response, FENCE);
  }

  /** From a fence whose first line is no tag, the whole trimmed body comes back, its first line included. */
  lemma UntaggedBody(prose: string, body: string, tail: string)
    requires !Contains(prose, FENCE) && PlainEnd(prose)
    requires !Contains(body, FENCE) && PlainEnd(body)
    requires var nl := Index(body, "\n"); nl >= 0 ==> !DropsLine(body[..nl])
    ensures ExtractSQL(prose + (FENCE + body + FENCE) + tail) == TrimSpace(body)
  {
    hide TrimSpace, TrimLeft, TrimRight, DropsLine, DropTag, ExtractSQL;
    var inner := FENCE + body + FENCE;
    assert inner[0] == '`' && inner[|inner| - 1] == '`';
    TrimAround(prose, inner, tail);
    TrimmedProse(prose);
    var p, t := TrimLeft(prose), TrimRight(tail);
    var more := body + FENCE + t;
    assert p + inner + t == p + FENCE + more;
    ExtractAfter(prose + inner + tail, p, more);
    DropThenCut(more);
    FirstFence(body, t);
    assert more[..|body|] == body;
    KeepsBody(body);
  }

  lemma KeepsBody(body: string)
    requires var nl := Index(body, "\n"); nl >= 0 ==> !DropsLine(body[..nl])
    ensures DropTag(body) == body
  {
    hide DropsLine;
  }

  /** The usual answer. */
  lemma SqlFence()
    ensures ExtractSQL("```sql\nSELECT 1\n```") == "SELECT 1"
  {
    hide ExtractSQL, DropsLine, TrimSpace;
    var tag, body := "sql", "SELECT 1\n";
    SqlIsTag();
    BodyIsPlain();
    FencedBody("", tag, body, "");
    assert "" + (FENCE + tag + "\n" + body + FENCE) + "" == "```sql\nSELECT 1\n```";
  }

  lemma SqlIsTag()
    ensures DropsLine("sql") && '\n' !in "sql"
  {
    var tag := "sql";
    assert tag[0] == 's' && tag[2] == 'l';
    TrimOfTrimmed(tag);
  }

  lemma BodyIsPlain()
    ensures !Contains("", FENCE) && PlainEnd("") && !Contains("SELECT 1\n", FENCE) && PlainEnd("SELECT 1\n")
    ensures TrimSpace("SELECT 1\n") == "SELECT 1"
  {
    var body := "SELECT 1\n";
    assert '`' !in body;
    NoFenceInPlain(body, |body|);
    assert body[..|body|] == body;
    var m := "SELECT 1";
    assert m[0] == 'S' && m[7] == '1';
    TrimIsMiddle("", m, "\n");
    assert "" + m + "\n" == body;
  }
}
