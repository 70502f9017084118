/** Go regular expressions (leftmost-first, as RE2 documents them), for the shapes the repository
    uses: a pattern is written with its continuation, and repetition applies to one character class. */
module Regex {
  import opened Ascii
  import opened Wrappers

  /** Character classes under `(?i)`. `Fold(c)` is the literal `c`, given in lower case. */
  datatype Class = Fold(c: char) | Space | Word | WordOrDot | IdentStart | NotBlank

  predicate In(x: char, k: Class) {
    match k
    case Fold(c) => LowerChar(x) == c
    case Space => x == ' ' || x == '\t' || x == '\n' || x as int == 12 || x == '\r'
    case Word => IsWord(x)
    case WordOrDot => IsWord(x) || x == '.'
    case IdentStart => 'a' <= x <= 'z' || 'A' <= x <= 'Z' || x == '_'
    case NotBlank => x != ' '
  }

  /** What each class matches: `\s` takes the line feed and leaves out the vertical tab, `[^ ]` takes everything but
      the blank, and a literal its two cases. */
  lemma ClassesExact(x: char, c: char)
    ensures In(x, Space) <==> x in {' ', '\t', '\n', 12 as char, '\r'}
    ensures In(x, Word) <==> x in LOWER || x in UPPER || x in "0123456789" || x == '_'
    ensures In(x, WordOrDot) <==> In(x, Word) || x == '.'
    ensures In(x, IdentStart) <==> x in LOWER || x in UPPER || x == '_'
    ensures In(x, NotBlank) <==> x != ' '
    ensures c in LOWER ==> (In(x, Fold(c)) <==> x == c || x == UpperChar(c))
  {
    ClassTable(x);
    CaseTable(x);
    CaseTable(c);
    if x in "0123456789" { assert IsWord(x) && x !in LOWER && x !in UPPER by { DigitsApart(x); } }
  }

  lemma DigitsApart(x: char)
    requires x in "0123456789"
    ensures '0' <= x <= '9'
  {}

  /** `Open` and `Close` mark the one capture group, `Bound` is `\b`. */
  datatype Pat =
    | Done
    | One(k: Class, next: Pat)
    | Star(k: Class, next: Pat)
    | Opt(k: Class, next: Pat)
    | Bound(next: Pat)
    | Open(next: Pat)
    | Close(next: Pat)
    | Either(a: Pat, b: Pat)

  /** The literal `w` followed by `next`. */
  function Lit(w: string, next: Pat): Pat {
    if w == [] then next else One(Fold(w[0]), Lit(w[1..], next))
  }

  function Plus(k: Class, next: Pat): Pat {
    One(k, Star(k, next))
  }

  /** Every match of the pattern consumes a character. */
  predicate Consuming(p: Pat) {
    match p
    case Done => false
    case One(_, _) => true
    case Star(_, n) => Consuming(n)
    case Opt(_, n) => Consuming(n)
    case Bound(n) => Consuming(n)
    case Open(n) => Consuming(n)
    case Close(n) => Consuming(n)
    case Either(a, b) => Consuming(a) && Consuming(b)
  }

  /** A position in the text and the span captured so far. */
  datatype Thread = Thread(pos: nat, from: nat, to: nat)

  predicate WordBefore(s: string, i: nat) {
    0 < i <= |s| && IsWord(s[i - 1])
  }

  predicate WordAfter(s: string, i: nat) {
    i < |s| && IsWord(s[i])
  }

  predicate Boundary(s: string, i: nat) {
    WordBefore(s, i) != WordAfter(s, i)
  }

  predicate Sees(s: string, t: Thread, k: Class) {
    t.pos < |s| && In(s[t.pos], k)
  }

  function Step(t: Thread): Thread {
    t.(pos := t.pos + 1)
  }

  /** The declarative relation: the pattern can lead from `t` to `u`, whichever choices it makes. */
  predicate Matches(p: Pat, s: string, t: Thread, u: Thread)
    decreases p, |s| - t.pos
  {
    match p
    case Done => u == t
    case One(k, n) => Sees(s, t, k) && Matches(n, s, Step(t), u)
    case Star(k, n) => (Sees(s, t, k) && Matches(p, s, Step(t), u)) || Matches(n, s, t, u)
    case Opt(k, n) => (Sees(s, t, k) && Matches(n, s, Step(t), u)) || Matches(n, s, t, u)
    case Bound(n) => Boundary(s, t.pos) && Matches(n, s, t, u)
    case Open(n) => Matches(n, s, t.(from := t.pos), u)
    case Close(n) => Matches(n, s, t.(to := t.pos), u)
    case Either(a, b) => Matches(a, s, t, u) || Matches(b, s, t, u)
  }

  function OrElse(x: Option<Thread>, y: Option<Thread>): Option<Thread> {
    if x.Some? then x else y
  }

  /** The match a backtracking search in priority order finds first: the one Go reports. */
  function First(p: Pat, s: string, t: Thread): (r: Option<Thread>)
    ensures r.Some? ==> Matches(p, s, t, r.value)
    ensures r.Some? && t.pos <= |s| ==> t.pos <= r.value.pos <= |s|
    ensures r.Some? && Consuming(p) ==> t.pos < r.value.pos
    decreases p, |s| - t.pos
  {
    match p
    case Done => Some(t)
    case One(k, n) => if Sees(s, t, k) then First(n, s, Step(t)) else None
    case Star(k, n) => OrElse(if Sees(s, t, k) then First(p, s, Step(t)) else None, First(n, s, t))
    case Opt(k, n) => OrElse(if Sees(s, t, k) then First(n, s, Step(t)) else None, First(n, s, t))
    case Bound(n) => if Boundary(s, t.pos) then First(n, s, t) else None
    case Open(n) => First(n, s, t.(from := t.pos))
    case Close(n) => First(n, s, t.(to := t.pos))
    case Either(a, b) => OrElse(First(a, s, t), First(b, s, t))
  }

  /** The search misses nothing: it fails only where the relation has no match at all. */
  lemma {:induction false} FirstComplete(p: Pat, s: string, t: Thread, u: Thread)
    requires Matches(p, s, t, u)
    ensures First(p, s, t).Some?
    decreases p, |s| - t.pos
  {
    match p
    case Done =>
    case One(k, n) => FirstComplete(n, s, Step(t), u);
    case Star(k, n) =>
      if Matches(n, s, t, u) { FirstComplete(n, s, t, u); } else { FirstComplete(p, s, Step(t), u); }
    case Opt(k, n) =>
      if Matches(n, s, t, u) { FirstComplete(n, s, t, u); } else { FirstComplete(n, s, Step(t), u); }
    case Bound(n) => FirstComplete(n, s, t, u);
    case Open(n) => FirstComplete(n, s, t.(from := t.pos), u);
    case Close(n) => FirstComplete(n, s, t.(to := t.pos), u);
    case Either(a, b) =>
      if Matches(a, s, t, u) { FirstComplete(a, s, t, u); } else { FirstComplete(b, s, t, u); }
  }

  /** Where a pattern matches does not depend on the case of letters. */
  lemma {:induction false} FirstSameFold(p: Pat, s: string, s': string, t: Thread)
    requires SameFold(s, s')
    ensures First(p, s, t) == First(p, s', t)
    decreases p, |s| - t.pos
  {
    hide Matches;
    forall i | 0 <= i < |s|
      ensures forall k :: In(s[i], k) == In(s'[i], k)
      ensures IsWord(s[i]) == IsWord(s'[i])
    {
      assert LowerChar(s[i]) == LowerChar(s'[i]);
    }
    match p
    case Done =>
    case One(k, n) => if Sees(s, t, k) { FirstSameFold(n, s, s', Step(t)); }
    case Star(k, n) =>
      if Sees(s, t, k) { FirstSameFold(p, s, s', Step(t)); }
      FirstSameFold(n, s, s', t);
    case Opt(k, n) =>
      if Sees(s, t, k) { FirstSameFold(n, s, s', Step(t)); }
      FirstSameFold(n, s, s', t);
    case Bound(n) => FirstSameFold(n, s, s', t);
    case Open(n) => FirstSameFold(n, s, s', t.(from := t.pos));
    case Close(n) => FirstSameFold(n, s, s', t.(to := t.pos));
    case Either(a, b) =>
      FirstSameFold(a, s, s', t);
      FirstSameFold(b, s, s', t);
  }

  /** One reported match: its span, and the span of its capture group. */
  datatype Hit = Hit(start: nat, end: nat, from: nat, to: nat)

  function HitAt(p: Pat, s: string, i: nat): (r: Option<Hit>)
    ensures r.Some? ==> r.value.start == i
    ensures r.Some? && i <= |s| ==> i <= r.value.end <= |s|
    ensures r.Some? && Consuming(p) ==> i < r.value.end
  {
    match First(p, s, Thread(i, i, i))
    case None => None
    case Some(t) => Some(Hit(i, t.pos, t.from, t.to))
  }

  /** The pattern matches at `i`, in the declarative sense. */
  ghost predicate Occurs(p: Pat, s: string, i: nat) {
    exists u :: Matches(p, s, Thread(i, i, i), u)
  }

  lemma OccursIffHit(p: Pat, s: string, i: nat)
    ensures Occurs(p, s, i) <==> HitAt(p, s, i).Some?
  {
    if Occurs(p, s, i) {
      var u :| Matches(p, s, Thread(i, i, i), u);
      FirstComplete(p, s, Thread(i, i, i), u);
    }
  }

  /** The leftmost match at or after `from`. */
  function FindNext(p: Pat, s: string, from: nat): (r: Option<Hit>)
    ensures r.Some? ==> from <= r.value.start <= r.value.end <= |s| && r == HitAt(p, s, r.value.start)
    ensures r.Some? ==> forall i :: from <= i < r.value.start ==> HitAt(p, s, i).None?
    ensures r.None? ==> forall i :: from <= i <= |s| ==> HitAt(p, s, i).None?
    decreases |s| - from
  {
    if from > |s| then None
    else if HitAt(p, s, from).Some? then HitAt(p, s, from)
    else FindNext(p, s, from + 1)
  }

  /** `FindAllStringSubmatch(s, -1)` from offset `from`, for patterns that never match the empty string. */
  function FindAll(p: Pat, s: string, from: nat): (hits: seq<Hit>)
    requires Consuming(p)
    decreases |s| - from
  {
    match FindNext(p, s, from)
    case None => []
    case Some(h) => [h] + FindAll(p, s, h.end)
  }

  /** Every reported match is a leftmost match of the relation, in order and without overlap. */
  lemma {:induction false} FindAllSound(p: Pat, s: string, from: nat)
    requires Consuming(p)
    ensures forall h :: h in FindAll(p, s, from) ==>
      from <= h.start < h.end <= |s| && HitAt(p, s, h.start) == Some(h) && Occurs(p, s, h.start)
    ensures forall i, j :: 0 <= i < j < |FindAll(p, s, from)| ==> FindAll(p, s, from)[i].end <= FindAll(p, s, from)[j].start
    decreases |s| - from
  {
    match FindNext(p, s, from)
    case None =>
    case Some(h) =>
      FindAllSound(p, s, h.end);
      OccursIffHit(p, s, h.start);
      var rest := FindAll(p, s, h.end);
      assert forall x :: x in [h] + rest <==> x == h || x in rest;
  }

  /** Every occurrence is reported, or lies inside a match reported earlier. */
  lemma {:induction false} FindAllCovers(p: Pat, s: string, from: nat, i: nat)
    requires Consuming(p) && from <= i <= |s| && Occurs(p, s, i)
    ensures exists h :: h in FindAll(p, s, from) && h.start <= i < h.end
    decreases |s| - from
  {
    OccursIffHit(p, s, i);
    var h := FindNext(p, s, from).value;
    var all := FindAll(p, s, from);
    assert all == [h] + FindAll(p, s, h.end);
    if i < h.end {
      assert all[0] == h;
      assert h in all;
    } else {
      FindAllCovers(p, s, h.end, i);
      var g :| g in FindAll(p, s, h.end) && g.start <= i < g.end;
      assert g in all;
    }
  }

  lemma {:induction false} FindNextSameFold(p: Pat, s: string, s': string, from: nat)
    requires SameFold(s, s')
    ensures FindNext(p, s, from) == FindNext(p, s', from)
    decreases |s| - from
  {
    hide Matches;
    if from <= |s| {
      FirstSameFold(p, s, s', Thread(from, from, from));
      FindNextSameFold(p, s, s', from + 1);
    }
  }

  /** The spans of all reported matches do not depend on the case of letters. */
  lemma {:induction false} FindAllSameFold(p: Pat, s: string, s': string, from: nat)
    requires Consuming(p) && SameFold(s, s')
    ensures FindAll(p, s, from) == FindAll(p, s', from)
    decreases |s| - from
  {
    FindNextSameFold(p, s, s', from);
    match FindNext(p, s, from)
    case None =>
    case Some(h) => FindAllSameFold(p, s, s', h.end);
  }

  // ---- Matching without backtracking ----

  /** The literal `w` occurs at `i`, ignoring case. */
  predicate FoldAt(s: string, i: nat, w: string) {
    i + |w| <= |s| && forall j :: 0 <= j < |w| ==> LowerChar(s[i + j]) == w[j]
  }

  lemma FoldFits(s: string, i: nat, w: string)
    requires FoldAt(s, i, w)
    ensures i + |w| <= |s|
  {}

  /** The end of the longest run of the class from `i`. */
  function Span(k: Class, s: string, i: nat): (r: nat)
    requires i <= |s|
    ensures i <= r <= |s|
    ensures forall j :: i <= j < r ==> In(s[j], k)
    ensures r == |s| || !In(s[r], k)
    decreases |s| - i
  {
    if i < |s| && In(s[i], k) then Span(k, s, i + 1) else i
  }

  lemma {:induction false} SpanShift(k: Class, s: string, i: nat, j: nat)
    requires i <= j <= |s|
    ensures Span(k, s[i..], j - i) == Span(k, s, j) - i
    decreases |s| - j
  {
    if j < |s| && In(s[j], k) { SpanShift(k, s, i, j + 1); }
  }

  lemma {:induction false} FirstLit(w: string, n: Pat, s: string, t: Thread)
    requires t.pos <= |s|
    ensures First(Lit(w, n), s, t) == if FoldAt(s, t.pos, w) then First(n, s, t.(pos := t.pos + |w|)) else None
    decreases |w|
  {
    hide Matches;
    if w == [] {
      assert t.(pos := t.pos + |w|) == t;
    } else if Sees(s, t, Fold(w[0])) {
      FirstLit(w[1..], n, s, Step(t));
      assert FoldAt(s, t.pos, w) <==> FoldAt(s, t.pos + 1, w[1..]) by {
        if FoldAt(s, t.pos + 1, w[1..]) {
          forall j | 0 <= j < |w| ensures LowerChar(s[t.pos + j]) == w[j] {
            if j > 0 { assert w[j] == w[1..][j - 1]; }
          }
        }
        if FoldAt(s, t.pos, w) {
          forall j | 0 <= j < |w| - 1 ensures LowerChar(s[t.pos + 1 + j]) == w[1..][j] {
            assert LowerChar(s[t.pos + (j + 1)]) == w[j + 1];
          }
        }
      }
    } else {
      assert t.pos < |s| ==> LowerChar(s[t.pos + 0]) != w[0];
    }
  }

  /** A greedy run never gives back a character, when what follows cannot start inside the class. */
  lemma {:induction false} StarCommits(k: Class, n: Pat, s: string, t: Thread)
    requires t.pos <= |s|
    requires forall u: Thread :: Sees(s, u, k) ==> First(n, s, u).None?
    ensures First(Star(k, n), s, t) == First(n, s, t.(pos := Span(k, s, t.pos)))
    decreases |s| - t.pos
  {
    hide Matches;
    if Sees(s, t, k) {
      StarCommits(k, n, s, Step(t));
    } else {
      assert t.(pos := Span(k, s, t.pos)) == t;
    }
  }

  lemma FirstPlus(k: Class, n: Pat, s: string, t: Thread)
    ensures First(Plus(k, n), s, t) == if Sees(s, t, k) then First(Star(k, n), s, Step(t)) else None
  {
    hide Matches;
  }

  lemma PlusCommits(k: Class, n: Pat, s: string, t: Thread)
    requires t.pos <= |s|
    requires forall u: Thread :: Sees(s, u, k) ==> First(n, s, u).None?
    ensures var e := Span(k, s, t.pos);
            First(Plus(k, n), s, t) == if e == t.pos then None else First(n, s, t.(pos := e))
  {
    hide Matches, First, Plus;
    FirstPlus(k, n, s, t);
    if Sees(s, t, k) { StarCommits(k, n, s, Step(t)); }
  }

  /** A greedy run takes everything it can, when what follows succeeds there. */
  lemma {:induction false} StarTakesAll(k: Class, n: Pat, s: string, t: Thread)
    requires t.pos <= |s|
    requires First(n, s, t.(pos := Span(k, s, t.pos))).Some?
    ensures First(Star(k, n), s, t) == First(n, s, t.(pos := Span(k, s, t.pos)))
    decreases |s| - t.pos
  {
    hide Matches;
    if Sees(s, t, k) {
      StarTakesAll(k, n, s, Step(t));
    } else {
      assert t.(pos := Span(k, s, t.pos)) == t;
    }
  }

  /** Whatever a run gives back, the match goes on from some position inside it. */
  lemma {:induction false} StarReaches(k: Class, n: Pat, s: string, t: Thread, u: Thread) returns (j: nat)
    requires t.pos <= |s| && Matches(Star(k, n), s, t, u)
    ensures t.pos <= j <= Span(k, s, t.pos) && Matches(n, s, t.(pos := j), u)
    decreases |s| - t.pos
  {
    if Matches(n, s, t, u) {
      j := t.pos;
      assert t.(pos := j) == t;
    } else {
      j := StarReaches(k, n, s, Step(t), u);
    }
  }

  lemma PlusReaches(k: Class, n: Pat, s: string, t: Thread, u: Thread) returns (j: nat)
    requires t.pos <= |s| && Matches(Plus(k, n), s, t, u)
    ensures t.pos < j <= Span(k, s, t.pos) && Matches(n, s, t.(pos := j), u)
  {
    j := StarReaches(k, n, s, Step(t), u);
  }

  /** A run is taken whole in every match, when what follows cannot start inside the class. */
  lemma PlusExact(k: Class, n: Pat, s: string, t: Thread, u: Thread)
    requires t.pos <= |s| && Matches(Plus(k, n), s, t, u)
    requires forall v: Thread :: Sees(s, v, k) ==> !Matches(n, s, v, u)
    ensures Span(k, s, t.pos) > t.pos && Matches(n, s, t.(pos := Span(k, s, t.pos)), u)
  {
    hide Matches, First;
    var j := PlusReaches(k, n, s, t, u);
    assert !Sees(s, t.(pos := j), k);
  }

  lemma StarExact(k: Class, n: Pat, s: string, t: Thread, u: Thread)
    requires t.pos <= |s| && Matches(Star(k, n), s, t, u)
    requires forall v: Thread :: Sees(s, v, k) ==> !Matches(n, s, v, u)
    ensures Matches(n, s, t.(pos := Span(k, s, t.pos)), u)
  {
    hide Matches, First;
    var j := StarReaches(k, n, s, t, u);
    assert !Sees(s, t.(pos := j), k);
  }

  lemma {:induction false} LitMatches(w: string, n: Pat, s: string, t: Thread, u: Thread)
    requires t.pos <= |s| && Matches(Lit(w, n), s, t, u)
    ensures t.pos + |w| <= |s| && Matches(n, s, t.(pos := t.pos + |w|), u)
    decreases |w|
  {
    if w == [] {
      assert t.(pos := t.pos + |w|) == t;
    } else {
      LitMatches(w[1..], n, s, Step(t), u);
    }
  }

  /** FindAll, one position at a time. */
  lemma FindAllStep(p: Pat, s: string, i: nat)
    requires Consuming(p)
    ensures FindAll(p, s, i) == match HitAt(p, s, i)
                                case Some(h) => if i <= |s| then [h] + FindAll(p, s, h.end) else []
                                case None => if i < |s| then FindAll(p, s, i + 1) else []
  {
    hide HitAt;
    if i < |s| && HitAt(p, s, i).None? {
      assert FindNext(p, s, i) == FindNext(p, s, i + 1);
    }
  }

  /** A one-pass scanner: `at` decides a match at one position, and the loop reports them left to right. */
  method ScanAll(p: Pat, at: (string, nat) --> Option<Hit>, s: string) returns (hits: seq<Hit>)
    requires Consuming(p)
    requires forall i :: 0 <= i <= |s| ==> at.requires(s, i) && at(s, i) == HitAt(p, s, i)
    ensures hits == FindAll(p, s, 0)
  {
    hide HitAt, FindAll;
    hits := [];
    var i := 0;
    while i <= |s|
      invariant hits + FindAll(p, s, i) == FindAll(p, s, 0)
      decreases |s| - i
    {
      FindAllStep(p, s, i);
      var h := at(s, i);
      if h.Some? {
        ghost var rest := FindAll(p, s, h.value.end);
        assert hits + ([h.value] + rest) == (hits + [h.value]) + rest;
        hits := hits + [h.value];
        i := h.value.end;
      } else {
        i := i + 1;
        if i > |s| { FindAllEnd(p, s, i); }
      }
    }
    FindAllEnd(p, s, i);
  }

  lemma FindAllEnd(p: Pat, s: string, i: nat)
    requires Consuming(p) && i > |s|
    ensures FindAll(p, s, i) == []
  {}
}
