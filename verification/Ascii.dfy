/** The string helpers of Go's standard library that the modelled code calls, over ASCII.
    Characters above U+007F are ordinary here: neither letters nor white space. */
module Ascii {
  /** `unicode.IsSpace` on ASCII: tab, line feed, vertical tab, form feed, carriage return, blank. */
  predicate IsSpace(c: char) {
    c == ' ' || '\t' <= c <= '\r'
  }

  /** The regular-expression class `\w`. */
  predicate IsWord(c: char) {
    'a' <= c <= 'z' || 'A' <= c <= 'Z' || '0' <= c <= '9' || c == '_'
  }

  function LowerChar(c: char): char {
    if 'A' <= c <= 'Z' then (c as int + 32) as char else c
  }

  function UpperChar(c: char): char {
    if 'a' <= c <= 'z' then (c as int - 32) as char else c
  }

  /** `strings.ToLower`. */
  function ToLower(s: string): (r: string)
    ensures |r| == |s| && forall i :: 0 <= i < |s| ==> r[i] == LowerChar(s[i])
  {
    seq(|s|, i requires 0 <= i < |s| => LowerChar(s[i]))
  }

  /** `strings.ToUpper`. */
  function ToUpper(s: string): (r: string)
    ensures |r| == |s| && forall i :: 0 <= i < |s| ==> r[i] == UpperChar(s[i])
  {
    seq(|s|, i requires 0 <= i < |s| => UpperChar(s[i]))
  }

  /** The two strings differ at most in the case of letters. */
  predicate SameFold(s: string, t: string) {
    |s| == |t| && forall i :: 0 <= i < |s| ==> LowerChar(s[i]) == LowerChar(t[i])
  }

  predicate AllSpace(s: string) {
    forall i :: 0 <= i < |s| ==> IsSpace(s[i])
  }

  /** Empty, or neither end is white space. */
  predicate Trimmed(s: string) {
    s == [] || (!IsSpace(s[0]) && !IsSpace(s[|s| - 1]))
  }

  /** The first offset from `i` on that is not white space. */
  function SkipSpace(s: string, i: nat): (r: nat)
    requires i <= |s|
    ensures i <= r <= |s|
    ensures forall j :: i <= j < r ==> IsSpace(s[j])
    ensures r < |s| ==> !IsSpace(s[r])
    decreases |s| - i
  {
    if i < |s| && IsSpace(s[i]) then SkipSpace(s, i + 1) else i
  }

  /** The end of the text before `i` once white space there is dropped. */
  function DropSpace(s: string, i: nat): (r: nat)
    requires i <= |s|
    ensures r <= i
    ensures forall j :: r <= j < i ==> IsSpace(s[j])
    ensures r > 0 ==> !IsSpace(s[r - 1])
  {
    if i > 0 && IsSpace(s[i - 1]) then DropSpace(s, i - 1) else i
  }

  function TrimLeft(s: string): string {
    s[SkipSpace(s, 0)..]
  }

  function TrimRight(s: string): string {
    s[..DropSpace(s, |s|)]
  }

  /** `strings.TrimSpace`. */
  function TrimSpace(s: string): (r: string)
    ensures Trimmed(r)
    ensures |r| <= |s|
  {
    TrimRight(TrimLeft(s))
  }

  /** `TrimSpace` is the middle of the string once blank ends are cut off, and there is one such middle. */
  lemma TrimIsMiddle(a: string, m: string, b: string)
    requires AllSpace(a) && AllSpace(b) && Trimmed(m)
    ensures TrimSpace(a + m + b) == m
  {
    var s := a + m + b;
    var l := TrimLeft(s);
    if m == [] {
      assert l == [];
    } else {
      assert s[|a|] == m[0];
      assert SkipSpace(s, 0) == |a|;
      assert l == m + b;
      assert l[|m| - 1] == m[|m| - 1];
      assert DropSpace(l, |l|) == |m|;
    }
  }

  /** The blank ends that `TrimSpace` removes. */
  lemma TrimSplits(s: string) returns (a: string, b: string)
    ensures AllSpace(a) && AllSpace(b) && s == a + TrimSpace(s) + b
  {
    var l := TrimLeft(s);
    var r := TrimRight(l);
    a, b := s[..|s| - |l|], l[|r|..];
  }

  lemma TrimOfTrimmed(s: string)
    requires Trimmed(s)
    ensures TrimSpace(s) == s
  {
    TrimIsMiddle("", s, "");
    assert "" + s + "" == s;
  }

  lemma SpacesSameFold(s: string, t: string)
    requires SameFold(s, t)
    ensures forall i :: 0 <= i < |s| ==> IsSpace(s[i]) == IsSpace(t[i])
  {
    forall i | 0 <= i < |s| ensures IsSpace(s[i]) == IsSpace(t[i]) {
      assert LowerChar(s[i]) == LowerChar(t[i]);
    }
  }

  /** Case changes commute with trimming. */
  lemma TrimSameFold(s: string, t: string)
    requires SameFold(s, t)
    ensures SameFold(TrimSpace(s), TrimSpace(t))
  {
    SpacesSameFold(s, t);
    assert SkipSpace(s, 0) == SkipSpace(t, 0);
    SpacesSameFold(TrimLeft(s), TrimLeft(t));
    assert DropSpace(TrimLeft(s), |TrimLeft(s)|) == DropSpace(TrimLeft(t), |TrimLeft(t)|);
  }

  lemma UpperOfSameFold(s: string, t: string)
    requires SameFold(s, t)
    ensures ToUpper(s) == ToUpper(t) && ToLower(s) == ToLower(t)
  {
    forall i | 0 <= i < |s| ensures UpperChar(s[i]) == UpperChar(t[i]) {
      assert LowerChar(s[i]) == LowerChar(t[i]);
    }
  }

  /** `pat` occurs in `s` at offset `i`. */
  predicate HasAt(s: string, pat: string, i: int) {
    0 <= i && i + |pat| <= |s| && s[i..i + |pat|] == pat
  }

  ghost predicate Contains(s: string, pat: string) {
    exists i :: HasAt(s, pat, i)
  }

  /** `strings.Index`, searching from offset `from`: the first occurrence, or -1. */
  function IndexFrom(s: string, pat: string, from: nat): (r: int)
    requires from <= |s|
    ensures r == -1 || (from <= r && HasAt(s, pat, r))
    ensures r == -1 ==> forall j :: from <= j ==> !HasAt(s, pat, j)
    ensures r != -1 ==> forall j :: from <= j < r ==> !HasAt(s, pat, j)
    decreases |s| - from
  {
    if HasAt(s, pat, from) then from
    else if from == |s| then -1
    else IndexFrom(s, pat, from + 1)
  }

  /** `strings.Index`. */
  function Index(s: string, pat: string): (r: int)
    ensures r == -1 || HasAt(s, pat, r)
    ensures r == -1 <==> !Contains(s, pat)
    ensures r != -1 ==> forall j :: 0 <= j < r ==> !HasAt(s, pat, j)
  {
    IndexFrom(s, pat, 0)
  }

  /** `strings.LastIndexByte`. */
  function LastIndexOf(s: string, c: char): (r: int)
    ensures -1 <= r < |s|
    ensures r >= 0 ==> s[r] == c
    ensures forall j :: r < j < |s| ==> s[j] != c
  {
    if s == [] then -1
    else if s[|s| - 1] == c then |s| - 1
    else LastIndexOf(s[..|s| - 1], c)
  }

  /** `strconv.Itoa` on non-negative numbers, as `%d` prints them. */
  function Itoa(n: nat): (r: string)
    ensures r != [] && forall i :: 0 <= i < |r| ==> '0' <= r[i] <= '9'
  {
    if n < 10 then [(n + '0' as int) as char]
    else Itoa(n / 10) + [(n % 10 + '0' as int) as char]
  }

  /** The number a string of digits stands for. */
  function Number(s: string): int {
    if s == [] then 0 else Number(s[..|s| - 1]) * 10 + (s[|s| - 1] as int - '0' as int)
  }

  /** `Itoa` writes the number, without a zero in front. */
  lemma {:induction false} ItoaReadsBack(n: nat)
    ensures Number(Itoa(n)) == n
    ensures Itoa(n)[0] == '0' ==> Itoa(n) == "0"
  {
    var r := Itoa(n);
    if n < 10 {
      assert r[..0] == [];
      assert Number([]) == 0;
    } else {
      ItoaReadsBack(n / 10);
      assert r[..|r| - 1] == Itoa(n / 10);
      assert Number("0") == 0 by { assert "0"[..0] == []; }
    }
  }

  lemma ThousandIs()
    ensures Itoa(1000) == "1000"
  {
    assert Itoa(1) == "1" && Itoa(10) == "10" && Itoa(100) == "100";
  }

  const LOWER: string := "abcdefghijklmnopqrstuvwxyz"
  const UPPER: string := "ABCDEFGHIJKLMNOPQRSTUVWXYZ"

  /** The two case functions exchange the letters of the alphabet, and leave every other character alone. */
  lemma CaseTable(c: char)
    ensures |LOWER| == 26 && |UPPER| == 26
    ensures forall k :: 0 <= k < 26 ==> LOWER[k] == ('a' as int + k) as char && UPPER[k] == ('A' as int + k) as char
    ensures forall k :: 0 <= k < 26 ==> UpperChar(LOWER[k]) == UPPER[k] && LowerChar(UPPER[k]) == LOWER[k]
    ensures c !in UPPER ==> LowerChar(c) == c
    ensures c !in LOWER ==> UpperChar(c) == c
  {
    assert forall k :: 0 <= k < 26 ==> LOWER[k] == ('a' as int + k) as char && UPPER[k] == ('A' as int + k) as char;
    if 'A' <= c <= 'Z' { assert UPPER[c as int - 'A' as int] == c; }
    if 'a' <= c <= 'z' { assert LOWER[c as int - 'a' as int] == c; }
  }

  /** The characters Go takes for white space, and those of `\w`, one by one. */
  lemma ClassTable(c: char)
    ensures IsSpace(c) <==> c in {' ', '\t', '\n', 11 as char, 12 as char, '\r'}
    ensures IsWord(c) <==> c in LOWER || c in UPPER || c in "0123456789" || c == '_'
  {
    CaseTable(c);
    var digits := "0123456789";
    assert |digits| == 10 && forall k :: 0 <= k < 10 ==> digits[k] == ('0' as int + k) as char;
    if '0' <= c <= '9' { assert digits[c as int - '0' as int] == c; }
    if 'A' <= c <= 'Z' { assert UPPER[c as int - 'A' as int] == c; }
    if 'a' <= c <= 'z' { assert LOWER[c as int - 'a' as int] == c; }
  }
}
