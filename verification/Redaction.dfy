/** internal/connector/redact.go: the key=value branch of `RedactDSN`. */
module Redaction {
  import opened Ascii
  import opened Regex
  import opened Wrappers

  const KEY: string := "password="
  const MASK: string := "***"

  /** `(?i)(password=)[^ ]+` */
  function PasswordRe(): Pat {
    Open(Lit(KEY, Close(Plus(NotBlank, Done))))
  }

  /** `ReplaceAllString(s, "${1}***")` from offset `i`. */
  function ReplaceFrom(s: string, i: nat): string
    requires i <= |s|
    decreases |s| - i
  {
    match FindNext(PasswordRe(), s, i)
    case None => s[i..]
    case Some(h) =>
      if i <= h.start <= h.from <= h.to <= h.end <= |s| && i < h.end
      then s[i..h.start] + s[h.from..h.to] + MASK + ReplaceFrom(s, h.end)
      else s[i..]
  }

  function RedactKeyValue(dsn: string): string {
    ReplaceFrom(dsn, 0)
  }

  // ---- A reading without regular expressions ----

  /** The text starts with the key and a value. */
  predicate KeyFirst(s: string) {
    FoldAt(s, 0, KEY) && |s| > 9 && s[9] != ' '
  }

  /** Every value is masked, from left to right; a value ends at a blank or at the end. */
  function Masked(s: string): string
    decreases |s|
  {
    if s == "" then ""
    else if KeyFirst(s) then s[..9] + MASK + Masked(s[Span(NotBlank, s, 9)..])
    else [s[0]] + Masked(s[1..])
  }

  lemma PasswordHit(s: string, i: nat)
    requires i <= |s|
    ensures HitAt(PasswordRe(), s, i)
            == if FoldAt(s, i, KEY) && Span(NotBlank, s, i + 9) > i + 9
               then Some(Hit(i, Span(NotBlank, s, i + 9), i, i + 9)) else None
  {
    hide Matches, FoldAt, Lit, Plus;
    var t := Thread(i, i, i);
    var key := KEY;
    assert First(PasswordRe(), s, t) == First(Lit(key, Close(Plus(NotBlank, Done))), s, t);
    FirstLit(key, Close(Plus(NotBlank, Done)), s, t);
    if FoldAt(s, i, key) {
      FoldFits(s, i, key);
      ValueHit(s, t.(pos := i + 9));
    }
  }

  /** The end of the group, and the value. */
  lemma ValueHit(s: string, u: Thread)
    requires u.pos <= |s|
    ensures var e := Span(NotBlank, s, u.pos);
            First(Close(Plus(NotBlank, Done)), s, u)
            == if e > u.pos then Some(u.(pos := e, to := u.pos)) else None
  {
    hide Matches, Plus;
    var v := u.(to := u.pos);
    assert First(Close(Plus(NotBlank, Done)), s, u) == First(Plus(NotBlank, Done), s, v);
    FirstPlus(NotBlank, Done, s, v);
    if Sees(s, v, NotBlank) {
      assert First(Done, s, v.(pos := Span(NotBlank, s, u.pos))).Some?;
      StarTakesAll(NotBlank, Done, s, Step(v));
    }
  }

  lemma KeyShift(s: string, i: nat)
    requires i <= |s|
    ensures KeyFirst(s[i..]) <==> HitAt(PasswordRe(), s, i).Some?
    ensures KeyFirst(s[i..]) ==>
      HitAt(PasswordRe(), s, i) == Some(Hit(i, i + Span(NotBlank, s[i..], 9), i, i + 9))
  {
    PasswordHit(s, i);
    var k := KEY;
    var r := s[i..];
    assert FoldAt(r, 0, k) <==> FoldAt(s, i, k) by {
      if |k| <= |r| {
        assert forall j :: 0 <= j < |k| ==> r[j] == s[i + j];
      }
    }
    if i + 9 <= |s| { SpanShift(NotBlank, s, i, i + 9); }
  }

  /** Replacing at a match. */
  lemma ReplaceHit(s: string, i: nat)
    requires i <= |s| && KeyFirst(s[i..])
    ensures var e := i + Span(NotBlank, s[i..], 9);
            i < e <= |s| && ReplaceFrom(s, i) == s[i..i + 9] + MASK + ReplaceFrom(s, e)
  {
    hide KeyFirst, PasswordRe;
    KeyShift(s, i);
    KeyLong(s[i..]);
    var e := i + Span(NotBlank, s[i..], 9);
    assert FindNext(PasswordRe(), s, i) == Some(Hit(i, e, i, i + 9));
    assert s[i..i] + s[i..i + 9] == s[i..i + 9];
  }

  lemma KeyLong(s: string)
    requires KeyFirst(s)
    ensures |s| > 9 && Span(NotBlank, s, 9) > 9
  {}

  /** Replacing passes over a character where no match starts. */
  lemma ReplaceMiss(s: string, i: nat)
    requires i < |s| && !KeyFirst(s[i..])
    ensures ReplaceFrom(s, i) == [s[i]] + ReplaceFrom(s, i + 1)
  {
    hide KeyFirst, PasswordRe;
    KeyShift(s, i);
    assert FindNext(PasswordRe(), s, i) == FindNext(PasswordRe(), s, i + 1);
    match FindNext(PasswordRe(), s, i + 1)
    case None => assert s[i..] == [s[i]] + s[i + 1..];
    case Some(h) =>
      PasswordHit(s, h.start);
      assert s[i..h.start] == [s[i]] + s[i + 1..h.start];
  }

  /** Replacing all matches of the expression is masking every value. */
  lemma {:induction false} ReplaceIsMasking(s: string, i: nat)
    requires i <= |s|
    ensures ReplaceFrom(s, i) == Masked(s[i..])
    decreases |s| - i
  {
    hide KeyFirst, PasswordRe, ReplaceFrom;
    var r := s[i..];
    if i == |s| {
      ReplaceAtEnd(s);
      return;
    }
    hide Masked;
    MaskedStep(r);
    if KeyFirst(r) {
      ReplaceHit(s, i);
      var e := Span(NotBlank, r, 9);
      ReplaceIsMasking(s, i + e);
      assert r[e..] == s[i + e..] && r[..9] == s[i..i + 9];
    } else {
      ReplaceMiss(s, i);
      ReplaceIsMasking(s, i + 1);
      assert r[1..] == s[i + 1..];
    }
  }

  lemma ReplaceAtEnd(s: string)
    ensures ReplaceFrom(s, |s|) == ""
  {
    hide PasswordRe;
    PasswordHit(s, |s|);
  }

  lemma MaskedStep(s: string)
    requires s != ""
    ensures Masked(s) == if KeyFirst(s) then s[..9] + MASK + Masked(s[Span(NotBlank, s, 9)..])
                         else [s[0]] + Masked(s[1..])
  {}

  // ---- The value does not show ----

  predicate Value(w: string) {
    w != "" && ' ' !in w
  }

  predicate StartsBlank(t: string) {
    t == "" || t[0] == ' '
  }

  /** The key as written in the text, in any case. */
  predicate IsKey(k: string) {
    |k| == 9 && FoldAt(k, 0, KEY)
  }

  lemma RunEnd(s: string, j: nat, e: nat)
    requires j <= e <= |s| && (forall i :: j <= i < e ==> s[i] != ' ') && StartsBlank(s[e..])
    ensures Span(NotBlank, s, j) == e
  {
    if e < |s| { assert s[e..][0] == s[e]; }
  }

  lemma KeyHasNoBlank(k: string)
    requires IsKey(k)
    ensures ' ' !in k
  {
    var key := KEY;
    forall i | 0 <= i < 9 ensures k[i] != ' ' { assert LowerChar(k[0 + i]) == key[i]; }
  }

  /** Masking a key and its value leaves nothing of the value, and goes on after it. */
  lemma MaskOne(k: string, w: string, t: string)
    requires IsKey(k) && Value(w) && StartsBlank(t)
    ensures Masked(k + w + t) == k + MASK + Masked(t)
  {
    var s := k + w + t;
    var key := KEY;
    forall j | 0 <= j < 9 ensures LowerChar(s[0 + j]) == key[j] { assert LowerChar(k[0 + j]) == key[j]; }
    assert s[9] == w[0] && w[0] in w;
    assert KeyFirst(s);
    assert s[9 + |w|..] == t;
    forall i | 9 <= i < 9 + |w| ensures s[i] != ' ' { assert s[i] == w[i - 9]; assert w[i - 9] in w; }
    RunEnd(s, 9, 9 + |w|);
    assert s[..9] == k;
  }

  /** Whether a text starts with a key and a value is settled by its first ten characters. */
  lemma KeyFirstLocal(s: string, s': string)
    requires |s| >= 10 && |s'| >= 10 && s[..10] == s'[..10]
    ensures KeyFirst(s) == KeyFirst(s')
  {
    assert forall i :: 0 <= i < 10 ==> s[i] == s[..10][i] && s'[i] == s'[..10][i];
  }

  /** Two texts that differ only in the value of a password are masked to the same text. */
  lemma {:induction false} MaskingHidesValue(p: string, k: string, w: string, w': string, t: string)
    requires IsKey(k) && Value(w) && Value(w') && StartsBlank(t)
    ensures Masked(p + k + w + t) == Masked(p + k + w' + t)
    decreases |p|
  {
    hide KeyFirst, Value, IsKey, StartsBlank;
    var s, s' := p + k + w + t, p + k + w' + t;
    if p == "" {
      assert s == k + w + t && s' == k + w' + t;
      MaskOne(k, w, t);
      MaskOne(k, w', t);
    } else {
      assert s[..10] == (p + k)[..10] == s'[..10] by { KeyLength(k); }
      KeyFirstLocal(s, s');
      if KeyFirst(s) {
        MaskAcross(p, k, w, w', t);
      } else {
        assert s[1..] == p[1..] + k + w + t && s'[1..] == p[1..] + k + w' + t;
        MaskingHidesValue(p[1..], k, w, w', t);
      }
    }
  }

  lemma KeyLength(k: string)
    requires IsKey(k)
    ensures |k| == 9
  {}

  /** A value that starts in the prefix ends in the prefix, or runs through the key and the password after it. */
  lemma MaskAcross(p: string, k: string, w: string, w': string, t: string)
    requires IsKey(k) && Value(w) && Value(w') && StartsBlank(t)
    requires p != "" && KeyFirst(p + k + w + t) && KeyFirst(p + k + w' + t)
    ensures Masked(p + k + w + t) == Masked(p + k + w' + t)
    decreases |p|, 0
  {
    hide KeyFirst, IsKey, Value, Masked;
    var s, s' := p + k + w + t, p + k + w' + t;
    KeyLength(k);
    assert s[..9] == (p + k)[..9] == s'[..9];
    MaskedStep(s);
    MaskedStep(s');
    if j :| 9 <= j < |p| && p[j] == ' ' {
      var e := RunStops(p, j, k, w, t);
      var e' := RunStops(p, j, k, w', t);
      MaskingHidesValue(p[e..], k, w, w', t);
    } else {
      RunThrough(p, k, w, t);
      RunThrough(p, k, w', t);
    }
  }

  /** The end of a value that ends inside the prefix. */
  lemma RunStops(p: string, j: nat, k: string, w: string, t: string) returns (e: nat)
    requires 9 <= j < |p| && p[j] == ' '
    ensures e == Span(NotBlank, p, 9) && 9 <= e <= j && Span(NotBlank, p + k + w + t, 9) == e
    ensures (p + k + w + t)[e..] == p[e..] + k + w + t
  {
    e := Span(NotBlank, p, 9);
    var s := p + k + w + t;
    assert forall i :: 0 <= i < |p| ==> s[i] == p[i];
    assert s[e..][0] == s[e] == ' ';
    RunEnd(s, 9, e);
  }

  lemma RunThrough(p: string, k: string, w: string, t: string)
    requires IsKey(k) && Value(w) && StartsBlank(t) && p != ""
    requires forall j :: 9 <= j < |p| ==> p[j] != ' '
    ensures var s := p + k + w + t;
            s[Span(NotBlank, s, 9)..] == t
  {
    KeyHasNoBlank(k);
    var s := p + k + w + t;
    var e := |p| + 9 + |w|;
    assert s[e..] == t;
    forall i | 9 <= i < e ensures s[i] != ' ' {
      if i < |p| { assert s[i] == p[i]; }
      else if i < |p| + 9 { assert s[i] == k[i - |p|]; assert k[i - |p|] in k; }
      else { assert s[i] == w[i - |p| - 9]; assert w[i - |p| - 9] in w; }
    }
    RunEnd(s, 9, e);
  }

  /** The redacted DSN does not depend on the password, whatever stands before it and after it. */
  lemma RedactionHidesPassword(p: string, k: string, w: string, w': string, t: string)
    requires IsKey(k) && Value(w) && Value(w') && StartsBlank(t)
    ensures RedactKeyValue(p + k + w + t) == RedactKeyValue(p + k + w' + t)
  {
    hide Masked;
    var s, s' := p + k + w + t, p + k + w' + t;
    ReplaceIsMasking(s, 0);
    ReplaceIsMasking(s', 0);
    assert s[0..] == s && s'[0..] == s';
    MaskingHidesValue(p, k, w, w', t);
  }

  // ---- Redacting twice ----

  /** Masking keeps the first nine characters: the first value starts no earlier. */
  lemma {:induction false} MaskingKeepsNine(s: string)
    ensures |s| < 9 ==> Masked(s) == s
    ensures |s| >= 9 ==> |Masked(s)| >= 9 && Masked(s)[..9] == s[..9]
    decreases |s|
  {
    if s != "" && !KeyFirst(s) {
      MaskingKeepsNine(s[1..]);
      var m := Masked(s[1..]);
      if |s| == 9 {
        assert m == s[1..];
      } else if |s| > 9 {
        assert m[..8] == m[..9][..8] == s[1..][..9][..8] == s[1..9];
        assert ([s[0]] + m)[..9] == [s[0]] + m[..8];
      }
    }
  }

  lemma NoNewKey(s: string)
    requires s != "" && !KeyFirst(s)
    ensures !KeyFirst([s[0]] + Masked(s[1..]))
  {
    MaskingKeepsNine(s[1..]);
    var out := [s[0]] + Masked(s[1..]);
    if |s| >= 10 {
      assert out[..10] == [s[0]] + Masked(s[1..])[..9];
      assert s[..10] == [s[0]] + s[1..][..9];
      KeyFirstLocal(s, out);
    } else {
      assert out == s;
    }
  }

  lemma MaskedBlank(t: string)
    requires StartsBlank(t)
    ensures StartsBlank(Masked(t))
  {
    if t != "" && KeyFirst(t) {
      assert LowerChar(t[0 + 0]) == KEY[0];
    }
  }

  lemma {:induction false} MaskingIsIdempotent(s: string)
    ensures Masked(Masked(s)) == Masked(s)
    decreases |s|
  {
    if s == "" {
    } else if KeyFirst(s) {
      var t := s[Span(NotBlank, s, 9)..];
      MaskedBlank(t);
      MaskingIsIdempotent(t);
      var k := s[..9];
      var key := KEY;
      forall j | 0 <= j < 9 ensures LowerChar(k[0 + j]) == key[j] { assert LowerChar(s[0 + j]) == key[j]; }
      assert Value(MASK);
      MaskOne(k, MASK, Masked(t));
    } else {
      NoNewKey(s);
      MaskingIsIdempotent(s[1..]);
      var out := [s[0]] + Masked(s[1..]);
      assert out[1..] == Masked(s[1..]);
    }
  }

  /** Redacting a redacted DSN changes nothing. */
  lemma RedactionIsIdempotent(dsn: string)
    ensures RedactKeyValue(RedactKeyValue(dsn)) == RedactKeyValue(dsn)
  {
    hide Masked;
    var out := RedactKeyValue(dsn);
    ReplaceIsMasking(dsn, 0);
    ReplaceIsMasking(out, 0);
    assert dsn[0..] == dsn && out[0..] == out;
    MaskingIsIdempotent(dsn);
  }

  // ---- With the words themselves ----

  lemma TheKey()
    ensures IsKey("password=") && MASK == "***"
  {
    var k := "password=";
    assert |k| == 9;
    forall j | 0 <= j < 9 ensures LowerChar(k[0 + j]) == KEY[j] { assert KEY == k; }
  }

  /** The value after `password=` becomes `***`, up to the next blank; and whatever stands before and after it, the
      redacted text is the same for every value. */
  lemma PasswordIsStarred(p: string, w: string, w': string, t: string)
    requires w != "" && ' ' !in w && w' != "" && ' ' !in w' && (t == "" || t[0] == ' ')
    ensures RedactKeyValue("password=" + w + t) == "password=***" + RedactKeyValue(t)
    ensures RedactKeyValue(p + "password=" + w + t) == RedactKeyValue(p + "password=" + w' + t)
  {
    hide Masked, RedactKeyValue, IsKey;
    TheKey();
    RedactionHidesPassword(p, "password=", w, w', t);
    MaskOne("password=", w, t);
    RedactIsMasked("password=" + w + t);
    RedactIsMasked(t);
    assert "password=" + "***" + Masked(t) == "password=***" + Masked(t);
  }

  lemma RedactIsMasked(s: string)
    ensures RedactKeyValue(s) == Masked(s)
  {
    hide Masked;
    ReplaceIsMasking(s, 0);
    assert s[0..] == s;
  }
}
