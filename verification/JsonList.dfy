/** internal/rag/llmrouter.go, `parseTableList`: a JSON array of strings (RFC 8259, sections 2, 5 and 7)
    inside free text, decoded the way Go's encoding/json decodes into a []string. */
module JsonList {
  import opened Ascii
  import opened Wrappers

  /** What is parsed, and the text after it. */
  datatype Step<T> = Step(value: T, rest: string)

  predicate IsJsonSpace(c: char) {
    c == ' ' || c == '\t' || c == '\n' || c == '\r'
  }

  function SkipBlank(s: string): (r: string)
    ensures |r| <= |s|
  {
    if s != "" && IsJsonSpace(s[0]) then SkipBlank(s[1..]) else s
  }

  // ---- Characters of a JSON string ----

  predicate IsHex(c: char) {
    '0' <= c <= '9' || 'a' <= c <= 'f' || 'A' <= c <= 'F'
  }

  function HexDigit(c: char): (r: nat)
    ensures r < 16
  {
    if '0' <= c <= '9' then c as int - '0' as int
    else if 'a' <= c <= 'f' then c as int - 'a' as int + 10
    else if 'A' <= c <= 'F' then c as int - 'A' as int + 10
    else 0
  }

  function HexValue(h: string): (r: nat)
    requires |h| == 4
    ensures r < 0x10000
  {
    HexDigit(h[0]) * 4096 + HexDigit(h[1]) * 256 + HexDigit(h[2]) * 16 + HexDigit(h[3])
  }

  /** The text starts with `\uXXXX`. */
  predicate StartsHex(s: string) {
    |s| >= 6 && s[0] == '\\' && s[1] == 'u' && IsHex(s[2]) && IsHex(s[3]) && IsHex(s[4]) && IsHex(s[5])
  }

  predicate HighSurrogate(n: nat) {
    0xD800 <= n < 0xDC00
  }

  predicate LowSurrogate(n: nat) {
    0xDC00 <= n < 0xE000
  }

  function FromPair(hi: nat, lo: nat): char
    requires HighSurrogate(hi) && LowSurrogate(lo)
  {
    ((hi - 0xD800) * 0x400 + (lo - 0xDC00) + 0x10000) as char
  }

  const REPLACEMENT: char := 0xFFFD as char

  /** The characters a one-letter escape may name. */
  function ShortValue(e: char): Option<char> {
    match e
    case '\"' => Some('\"')
    case '\\' => Some('\\')
    case '/' => Some('/')
    case 'b' => Some(8 as char)
    case 'f' => Some(12 as char)
    case 'n' => Some('\n')
    case 'r' => Some('\r')
    case 't' => Some('\t')
    case _ => None
  }

  /** One escape sequence. A surrogate without its partner decodes to U+FFFD. */
  function Escape(s: string): (r: Option<Step<char>>)
    requires s != "" && s[0] == '\\'
    ensures r.Some? ==> |r.value.rest| < |s|
  {
    if StartsHex(s) then
      var n := HexValue(s[2..6]);
      var after := s[6..];
      if HighSurrogate(n) && StartsHex(after) && LowSurrogate(HexValue(after[2..6]))
      then Some(Step(FromPair(n, HexValue(after[2..6])), after[6..]))
      else Some(Step(if HighSurrogate(n) || LowSurrogate(n) then REPLACEMENT else n as char, after))
    else if |s| >= 2 && ShortValue(s[1]).Some? then Some(Step(ShortValue(s[1]).value, s[2..]))
    else None
  }

  /** The characters up to the closing quote. */
  function Chars(s: string): (r: Option<Step<string>>)
    ensures r.Some? ==> |r.value.rest| < |s|
    decreases |s|
  {
    if s == "" || s[0] < ' ' then None
    else if s[0] == '\"' then Some(Step("", s[1..]))
    else
      match if s[0] == '\\' then Escape(s) else Some(Step(s[0], s[1..]))
      case None => None
      case Some(c) =>
        match Chars(c.rest)
        case None => None
        case Some(more) => Some(Step([c.value] + more.value, more.rest))
  }

  /** An element that decodes into a Go string: a JSON string, or null, which leaves it empty. */
  function Element(s: string): (r: Option<Step<string>>)
    ensures r.Some? ==> |r.value.rest| < |s|
  {
    if s != "" && s[0] == '\"' then Chars(s[1..])
    else if "null" <= s then Some(Step("", s[4..]))
    else None
  }

  /** The elements of an array that ends where the text ends, up to blanks. */
  function Elements(s: string): Option<seq<string>>
    decreases |s|
  {
    match Element(SkipBlank(s))
    case None => None
    case Some(x) =>
      var t := SkipBlank(x.rest);
      if t == "" then None
      else if t[0] == ',' then
        match Elements(t[1..])
        case None => None
        case Some(more) => Some([x.value] + more)
      else if t[0] == ']' && SkipBlank(t[1..]) == "" then Some([x.value])
      else None
  }

  /** `json.Unmarshal` of a text that starts with a bracket, into a []string. */
  function ParseArray(s: string): Option<seq<string>>
    requires s != "" && s[0] == '['
  {
    var t := SkipBlank(s[1..]);
    if t != "" && t[0] == ']' && SkipBlank(t[1..]) == "" then Some([]) else Elements(s[1..])
  }

  datatype ListError = NoArray | BadArray

  function ParseTableList(resp: string): Result<seq<string>, ListError> {
    var start := Index(resp, "[");
    var end := LastIndexOf(resp, ']');
    if start < 0 || end < 0 || end < start then Err(NoArray)
    else
      assert resp[start..start + 1] == "[";
      assert resp[start] == '[';
      match ParseArray(resp[start..end + 1])
      case None => Err(BadArray)
      case Some(names) => Ok(names)
  }

  // ---- Rendering: every way to spell a JSON array of strings ----

  /** How one character may be written inside a JSON string. */
  datatype Spelled =
    | Raw(c: char)
    | Short(e: char)
    | Hex(h: string)
    | Pair(hi: string, lo: string)
    | Lone(h: string)

  predicate FourHex(h: string) {
    |h| == 4 && IsHex(h[0]) && IsHex(h[1]) && IsHex(h[2]) && IsHex(h[3])
  }

  predicate Legal(x: Spelled) {
    match x
    case Raw(c) => c >= ' ' && c != '\"' && c != '\\'
    case Short(e) => ShortValue(e).Some?
    case Hex(h) => FourHex(h) && !HighSurrogate(HexValue(h)) && !LowSurrogate(HexValue(h))
    case Pair(hi, lo) => FourHex(hi) && FourHex(lo) && HighSurrogate(HexValue(hi)) && LowSurrogate(HexValue(lo))
    case Lone(h) => FourHex(h) && (HighSurrogate(HexValue(h)) || LowSurrogate(HexValue(h)))
  }

  predicate LoneHigh(x: Spelled) {
    x.Lone? && FourHex(x.h) && HighSurrogate(HexValue(x.h))
  }

  predicate LoneLow(x: Spelled) {
    x.Lone? && FourHex(x.h) && LowSurrogate(HexValue(x.h))
  }

  function Meaning(x: Spelled): char
    requires Legal(x)
  {
    match x
    case Raw(c) => c
    case Short(e) => ShortValue(e).value
    case Hex(h) => HexValue(h) as char
    case Pair(hi, lo) => FromPair(HexValue(hi), HexValue(lo))
    case Lone(_) => REPLACEMENT
  }

  /** Two lone surrogates that would make a pair do not stand side by side. */
  predicate AllLegal(xs: seq<Spelled>) {
    (forall i :: 0 <= i < |xs| ==> Legal(xs[i]))
    && forall i :: 0 <= i < |xs| - 1 ==> !(LoneHigh(xs[i]) && LoneLow(xs[i + 1]))
  }

  function Meanings(xs: seq<Spelled>): (r: string)
    requires AllLegal(xs)
    ensures |r| == |xs| && forall i :: 0 <= i < |xs| ==> r[i] == Meaning(xs[i])
  {
    seq(|xs|, i requires 0 <= i < |xs| => Meaning(xs[i]))
  }

  function Text(x: Spelled): string {
    match x
    case Raw(c) => [c]
    case Short(e) => "\\" + [e]
    case Hex(h) => "\\u" + h
    case Pair(hi, lo) => "\\u" + hi + "\\u" + lo
    case Lone(h) => "\\u" + h
  }

  function TextAll(xs: seq<Spelled>): string {
    if xs == [] then "" else Text(xs[0]) + TextAll(xs[1..])
  }

  /** An element with the blanks around it: a string, or null. */
  datatype Item =
    | Item(before: string, chars: seq<Spelled>, after: string)
    | Null(before: string, after: string)

  predicate Blank(s: string) {
    forall i :: 0 <= i < |s| ==> IsJsonSpace(s[i])
  }

  predicate LegalItem(x: Item) {
    Blank(x.before) && Blank(x.after) && (x.Item? ==> AllLegal(x.chars))
  }

  predicate LegalItems(xs: seq<Item>) {
    forall i :: 0 <= i < |xs| ==> LegalItem(xs[i])
  }

  function NameOf(x: Item): string
    requires LegalItem(x)
  {
    if x.Item? then Meanings(x.chars) else ""
  }

  function NamesOf(xs: seq<Item>): (r: seq<string>)
    requires LegalItems(xs)
    ensures |r| == |xs|
  {
    seq(|xs|, i requires 0 <= i < |xs| => NameOf(xs[i]))
  }

  function ItemText(x: Item): string {
    match x
    case Item(before, chars, after) => before + "\"" + TextAll(chars) + "\"" + after
    case Null(before, after) => before + "null" + after
  }

  function ItemsText(xs: seq<Item>): string
    requires xs != []
  {
    if |xs| == 1 then ItemText(xs[0]) + "]" else ItemText(xs[0]) + "," + ItemsText(xs[1..])
  }

  /** The array; `inside` is the white space of an empty one. */
  function ArrayText(xs: seq<Item>, inside: string): string {
    if xs == [] then "[" + inside + "]" else "[" + ItemsText(xs)
  }

  // ---- Parsing undoes rendering ----

  lemma {:induction false} SkipBlankExact(b: string, s: string)
    requires Blank(b) && (s == "" || !IsJsonSpace(s[0]))
    ensures SkipBlank(b + s) == s
  {
    if b == "" {
      assert b + s == s;
    } else {
      assert (b + s)[1..] == b[1..] + s;
      SkipBlankExact(b[1..], s);
    }
  }

  /** An escaped low surrogate comes next. */
  predicate StartsLow(s: string) {
    StartsHex(s) && LowSurrogate(HexValue(s[2..6]))
  }

  /** Reading `\uXXXX`. */
  lemma HexStands(h: string, rest: string)
    requires FourHex(h)
    ensures var s := "\\u" + h + rest;
            StartsHex(s) && s[0] == '\\' && s[2..6] == h && s[6..] == rest
  {
    var s := "\\u" + h + rest;
    assert s[0] == '\\' && s[1] == 'u';
    assert forall i :: 0 <= i < 4 ==> s[2 + i] == h[i];
  }

  lemma PairUndoes(hi: string, lo: string, rest: string)
    requires Legal(Pair(hi, lo))
    ensures Escape(Text(Pair(hi, lo)) + rest) == Some(Step(Meaning(Pair(hi, lo)), rest))
  {
    hide StartsHex, HexValue, FromPair, FourHex;
    var after := "\\u" + lo + rest;
    assert Text(Pair(hi, lo)) + rest == "\\u" + hi + after;
    HexStands(hi, after);
    HexStands(lo, rest);
  }

  lemma EscapeUndoes(x: Spelled, rest: string)
    requires Legal(x) && !x.Raw? && (LoneHigh(x) ==> !StartsLow(rest))
    ensures Escape(Text(x) + rest) == Some(Step(Meaning(x), rest))
  {
    hide StartsHex, HexValue, FromPair, FourHex;
    match x
    case Short(e) => ShortUndoes(e, rest);
    case Hex(h) => HexStands(h, rest);
    case Pair(hi, lo) => PairUndoes(hi, lo, rest);
    case Lone(h) => HexStands(h, rest);
  }

  lemma ShortUndoes(e: char, rest: string)
    requires ShortValue(e).Some?
    ensures Escape(Text(Short(e)) + rest) == Some(Step(ShortValue(e).value, rest))
  {
    var s := Text(Short(e)) + rest;
    assert s[0] == '\\' && s[1] == e && s[2..] == rest;
  }

  /** Reading one spelled character, whatever follows it. */
  lemma CharUndoes(x: Spelled, more: string)
    requires Legal(x) && Chars(more).Some? && (LoneHigh(x) ==> !StartsLow(more))
    ensures Chars(Text(x) + more) == Some(Step([Meaning(x)] + Chars(more).value.value, Chars(more).value.rest))
  {
    var s := Text(x) + more;
    if x.Raw? {
      assert s[0] == x.c && s[1..] == more;
    } else {
      hide Escape, Legal;
      EscapeUndoes(x, more);
      assert s[0] == '\\';
    }
  }

  /** A text that does not start with a lone low surrogate does not start with an escaped one. */
  lemma NoLowAhead(xs: seq<Spelled>, rest: string)
    requires AllLegal(xs) && (xs != [] ==> !LoneLow(xs[0]))
    ensures !StartsLow(TextAll(xs) + "\"" + rest)
  {
    hide Text, StartsLow, Legal, LoneLow;
    var s := TextAll(xs) + "\"" + rest;
    if xs == [] {
      assert s[0] == '\"';
      QuoteIsNoEscape(s);
    } else {
      var x, more := xs[0], TextAll(xs[1..]) + "\"" + rest;
      assert s == Text(x) + more;
      NoLowText(x, more);
    }
  }

  lemma QuoteIsNoEscape(s: string)
    requires s != "" && s[0] == '\"'
    ensures !StartsLow(s)
  {}

  lemma NoLowText(x: Spelled, more: string)
    requires Legal(x) && !LoneLow(x)
    ensures !StartsLow(Text(x) + more)
  {
    var s := Text(x) + more;
    match x
    case Raw(c) => assert s[0] == c;
    case Short(e) => assert s[0] == '\\' && s[1] == e && ShortValue('u') == None;
    case Hex(h) => assert s[0] == '\\' && s[1] == 'u' && s[2..6] == h;
    case Pair(hi, lo) => assert s[0] == '\\' && s[1] == 'u' && s[2..6] == hi;
    case Lone(h) => assert s[0] == '\\' && s[1] == 'u' && s[2..6] == h;
  }

  lemma LegalTail(xs: seq<Spelled>)
    requires xs != [] && AllLegal(xs)
    ensures Legal(xs[0]) && AllLegal(xs[1..]) && (LoneHigh(xs[0]) && |xs| > 1 ==> !LoneLow(xs[1]))
  {}

  lemma {:induction false} CharsUndoes(xs: seq<Spelled>, rest: string)
    requires AllLegal(xs)
    ensures Chars(TextAll(xs) + "\"" + rest) == Some(Step(Meanings(xs), rest))
  {
    hide Text, Legal, Meaning, Escape, StartsLow, LoneHigh, LoneLow;
    var s := TextAll(xs) + "\"" + rest;
    if xs == [] {
      assert s[0] == '\"' && s[1..] == rest;
    } else {
      hide Chars;
      var x := xs[0];
      var more := TextAll(xs[1..]) + "\"" + rest;
      assert s == Text(x) + more;
      LegalTail(xs);
      CharsUndoes(xs[1..], rest);
      if LoneHigh(x) { NoLowAhead(xs[1..], rest); }
      CharUndoes(x, more);
      assert [Meaning(x)] + Meanings(xs[1..]) == Meanings(xs);
    }
  }

  lemma QuotedUndoes(xs: seq<Spelled>, rest: string)
    requires AllLegal(xs)
    ensures Element("\"" + (TextAll(xs) + "\"" + rest)) == Some(Step(Meanings(xs), rest))
  {
    hide Chars, TextAll, AllLegal, Meanings;
    var body := TextAll(xs) + "\"" + rest;
    var s := "\"" + body;
    assert s[0] == '\"' && s[1..] == body;
    CharsUndoes(xs, rest);
  }

  lemma ItemUndoes(x: Item, more: string)
    requires LegalItem(x)
    ensures Element(SkipBlank(ItemText(x) + more)) == Some(Step(NameOf(x), x.after + more))
  {
    hide Element, SkipBlank, TextAll, AllLegal, Meanings;
    var rest := x.after + more;
    match x
    case Item(before, chars, after) =>
      var quoted := "\"" + (TextAll(chars) + "\"" + rest);
      assert ItemText(x) + more == before + quoted;
      SkipBlankExact(before, quoted);
      QuotedUndoes(chars, rest);
    case Null(before, after) =>
      var word := "null" + rest;
      assert ItemText(x) + more == before + word;
      assert word[0] == 'n';
      SkipBlankExact(before, word);
      NullReads(rest);
  }

  lemma NullReads(rest: string)
    ensures Element("null" + rest) == Some(Step("", rest))
  {
    var s := "null" + rest;
    assert s[0] == 'n' && s[4..] == rest;
  }

  lemma ElementsLast(s: string, name: string, rest: string)
    requires Element(SkipBlank(s)) == Some(Step(name, rest)) && SkipBlank(rest) == "]"
    ensures Elements(s) == Some([name])
  {
    hide Element;
    assert "]"[1..] == "";
  }

  lemma ElementsMore(s: string, name: string, rest: string, more: string, names: seq<string>)
    requires Element(SkipBlank(s)) == Some(Step(name, rest)) && SkipBlank(rest) == "," + more
    requires Elements(more) == Some(names)
    ensures Elements(s) == Some([name] + names)
  {
    hide Element, SkipBlank;
    assert ("," + more)[1..] == more;
  }

  lemma {:induction false} ItemsUndo(xs: seq<Item>)
    requires xs != [] && LegalItems(xs)
    ensures Elements(ItemsText(xs)) == Some(NamesOf(xs))
  {
    hide Element, Elements, SkipBlank, ItemText, NameOf;
    var x := xs[0];
    if |xs| == 1 {
      ItemUndoes(x, "]");
      SkipBlankExact(x.after, "]");
      ElementsLast(ItemsText(xs), NameOf(x), x.after + "]");
      assert NamesOf(xs) == [NameOf(x)];
    } else {
      var more := ItemsText(xs[1..]);
      assert ItemsText(xs) == ItemText(x) + ("," + more);
      ItemUndoes(x, "," + more);
      SkipBlankExact(x.after, "," + more);
      ItemsUndo(xs[1..]);
      ElementsMore(ItemsText(xs), NameOf(x), x.after + ("," + more), more, NamesOf(xs[1..]));
      assert NamesOf(xs) == [NameOf(x)] + NamesOf(xs[1..]);
    }
  }

  lemma {:induction false} ItemsEnd(xs: seq<Item>)
    requires xs != []
    ensures ItemsText(xs) != "" && ItemsText(xs)[|ItemsText(xs)| - 1] == ']'
  {
    if |xs| > 1 { ItemsEnd(xs[1..]); }
  }

  lemma NoCloseYet(x: Item, more: string)
    requires LegalItem(x)
    ensures var t := SkipBlank(ItemText(x) + more); t != "" && t[0] != ']'
  {
    hide TextAll;
    match x
    case Item(before, chars, after) =>
      var body := TextAll(chars) + "\"" + after + more;
      assert ItemText(x) + more == before + ("\"" + body);
      SkipBlankExact(before, "\"" + body);
    case Null(before, after) =>
      var word := "null" + (after + more);
      assert word[0] == 'n';
      assert ItemText(x) + more == before + word;
      SkipBlankExact(before, word);
  }

  lemma EmptyUndoes(inside: string)
    requires Blank(inside)
    ensures ParseArray(ArrayText([], inside)) == Some([])
  {
    var s := ArrayText([], inside);
    assert s[1..] == inside + "]";
    SkipBlankExact(inside, "]");
    assert "]"[1..] == "";
  }

  lemma ParseSome(body: string)
    requires SkipBlank(body) != "" && SkipBlank(body)[0] != ']'
    ensures ParseArray("[" + body) == Elements(body)
  {
    hide Elements, SkipBlank;
    assert ("[" + body)[1..] == body;
  }

  lemma OpensAnItem(xs: seq<Item>)
    requires xs != [] && LegalItems(xs)
    ensures var t := SkipBlank(ItemsText(xs)); t != "" && t[0] != ']'
  {
    hide SkipBlank, LegalItem, ItemText;
    NoCloseYet(xs[0], if |xs| == 1 then "]" else "," + ItemsText(xs[1..]));
    assert |xs| > 1 ==> ItemsText(xs) == ItemText(xs[0]) + ("," + ItemsText(xs[1..]));
  }

  lemma ArrayUndoes(xs: seq<Item>, inside: string)
    requires LegalItems(xs) && Blank(inside)
    ensures ParseArray(ArrayText(xs, inside)) == Some(NamesOf(xs))
  {
    hide ParseArray, Elements, SkipBlank, LegalItem, ItemsText, NameOf;
    if xs == [] {
      EmptyUndoes(inside);
    } else {
      OpensAnItem(xs);
      ParseSome(ItemsText(xs));
      ItemsUndo(xs);
    }
  }

  /** The round trip: any JSON spelling of any list of names, wrapped in prose without an opening bracket before
      it and without a closing bracket after it, parses back to the list. */
  lemma WrappedArrayParses(prefix: string, xs: seq<Item>, inside: string, suffix: string)
    requires LegalItems(xs) && Blank(inside)
    requires '[' !in prefix && ']' !in suffix
    ensures ParseTableList(prefix + ArrayText(xs, inside) + suffix) == Ok(NamesOf(xs))
  {
    hide ParseArray;
    var a := ArrayText(xs, inside);
    if xs != [] { ItemsEnd(xs); }
    assert a[0] == '[' && a[|a| - 1] == ']';
    FindArray(prefix, a, suffix);
    ArrayUndoes(xs, inside);
  }

  /** The first opening and the last closing bracket are those of the array. */
  lemma FindArray(prefix: string, a: string, suffix: string)
    requires a != "" && a[0] == '[' && a[|a| - 1] == ']'
    requires '[' !in prefix && ']' !in suffix
    ensures var resp := prefix + a + suffix;
            Index(resp, "[") == |prefix| && LastIndexOf(resp, ']') == |prefix| + |a| - 1
            && resp[|prefix|..|prefix| + |a|] == a
  {
    var resp := prefix + a + suffix;
    assert resp[|prefix|] == a[0];
    assert resp[|prefix|..|prefix| + 1] == "[";
    assert HasAt(resp, "[", |prefix|);
    forall j | 0 <= j < |prefix| ensures !HasAt(resp, "[", j) {
      assert resp[j..j + 1][0] == prefix[j];
    }
    assert resp[|prefix| + |a| - 1] == a[|a| - 1];
    assert forall j :: |prefix| + |a| <= j < |resp| ==> resp[j] == suffix[j - |prefix| - |a|];
  }

  // ---- Every list of strings has a spelling ----

  function HexChar(n: nat): (c: char)
    requires n < 16
    ensures IsHex(c) && HexDigit(c) == n
  {
    if n < 10 then (n + '0' as int) as char else (n - 10 + 'a' as int) as char
  }

  /** The plainest spelling: quotes and backslashes escaped, control characters as `\u00XX`, the rest as is. */
  function Spell(c: char): (x: Spelled)
    ensures Legal(x) && Meaning(x) == c
  {
    if c == '\"' || c == '\\' then Short(c)
    else if c < ' ' then Hex(['0', '0', HexChar(c as int / 16), HexChar(c as int % 16)])
    else Raw(c)
  }

  function SpellName(name: string): Item {
    Item("", seq(|name|, i requires 0 <= i < |name| => Spell(name[i])), "")
  }

  function SpellNames(names: seq<string>): seq<Item> {
    seq(|names|, i requires 0 <= i < |names| => SpellName(names[i]))
  }

  /** Every list of strings, rendered as JSON and wrapped in such prose, parses back to itself. */
  lemma EveryListParses(prefix: string, names: seq<string>, suffix: string)
    requires '[' !in prefix && ']' !in suffix
    ensures ParseTableList(prefix + ArrayText(SpellNames(names), "") + suffix) == Ok(names)
  {
    var xs := SpellNames(names);
    WrappedArrayParses(prefix, xs, "", suffix);
    forall i | 0 <= i < |names| ensures NameOf(xs[i]) == names[i] {
      assert xs[i] == SpellName(names[i]);
      assert forall j :: 0 <= j < |names[i]| ==> NameOf(xs[i])[j] == names[i][j];
    }
    assert NamesOf(xs) == names;
  }

  // ---- Every accepted text is such a rendering ----

  lemma HexReads(s: string)
    requires StartsHex(s)
    ensures FourHex(s[2..6]) && s == "\\u" + s[2..6] + s[6..]
  {
    assert forall i :: 0 <= i < 4 ==> s[2..6][i] == s[2 + i];
    assert s[..2] == "\\u";
    assert s == s[..2] + s[2..6] + s[6..];
  }

  /** What an escape sequence decodes to is spelled by it. */
  lemma EscapeReads(s: string) returns (x: Spelled)
    requires s != "" && s[0] == '\\' && Escape(s).Some?
    ensures Legal(x) && !x.Raw? && s == Text(x) + Escape(s).value.rest && Meaning(x) == Escape(s).value.value
    ensures LoneHigh(x) ==> !StartsLow(Escape(s).value.rest)
  {
    if StartsHex(s) {
      HexReads(s);
      var h, after := s[2..6], s[6..];
      if HighSurrogate(HexValue(h)) && StartsLow(after) {
        HexReads(after);
        x := Pair(h, after[2..6]);
        assert s == Text(x) + after[6..];
      } else if HighSurrogate(HexValue(h)) || LowSurrogate(HexValue(h)) {
        x := Lone(h);
      } else {
        x := Hex(h);
      }
    } else {
      x := Short(s[1]);
      assert s == "\\" + [s[1]] + s[2..];
    }
  }

  /** One character of a string. */
  lemma CharReads(s: string) returns (x: Spelled, more: string)
    requires Chars(s).Some? && s[0] != '\"'
    ensures Legal(x) && s == Text(x) + more && |more| < |s| && Chars(more).Some?
    ensures Chars(s).value == Step([Meaning(x)] + Chars(more).value.value, Chars(more).value.rest)
    ensures LoneHigh(x) ==> !StartsLow(more)
  {
    hide Text, Meaning, StartsLow, Escape;
    if s[0] == '\\' {
      x := EscapeReads(s);
      more := Escape(s).value.rest;
    } else {
      x, more := RawReads(s);
    }
  }

  lemma RawReads(s: string) returns (x: Spelled, more: string)
    requires s != "" && s[0] >= ' ' && s[0] != '\"' && s[0] != '\\'
    ensures x == Raw(s[0]) && more == s[1..] && Legal(x) && s == Text(x) + more && Meaning(x) == s[0] && !LoneHigh(x)
  {
    x, more := Raw(s[0]), s[1..];
    assert s == [s[0]] + s[1..];
  }

  lemma LowStarts(x: Spelled, more: string)
    requires LoneLow(x)
    ensures StartsLow(Text(x) + more)
  {
    var s := Text(x) + more;
    assert s[0] == '\\' && s[1] == 'u' && s[2..6] == x.h;
    assert forall i :: 0 <= i < 4 ==> s[2..6][i] == s[2 + i];
  }

  lemma {:induction false} CharsRead(s: string) returns (xs: seq<Spelled>)
    requires Chars(s).Some?
    ensures AllLegal(xs) && s == TextAll(xs) + "\"" + Chars(s).value.rest && Meanings(xs) == Chars(s).value.value
    decreases |s|
  {
    if s[0] == '\"' {
      xs := [];
      assert s == "" + "\"" + s[1..];
    } else {
      var x, more := CharReads(s);
      var ys := CharsRead(more);
      xs := [x] + ys;
      CharsCons(x, ys, more, Chars(more).value.rest);
    }
  }

  lemma CharsCons(x: Spelled, ys: seq<Spelled>, more: string, rest: string)
    requires Legal(x) && AllLegal(ys) && more == TextAll(ys) + "\"" + rest && (LoneHigh(x) ==> !StartsLow(more))
    ensures AllLegal([x] + ys) && TextAll([x] + ys) + "\"" + rest == Text(x) + more
    ensures Meanings([x] + ys) == [Meaning(x)] + Meanings(ys)
  {
    hide Text, Legal, Meaning, StartsLow, LoneLow, LoneHigh;
    var xs := [x] + ys;
    assert xs[1..] == ys;
    assert TextAll(xs) == Text(x) + TextAll(ys);
    if ys != [] && LoneHigh(x) && LoneLow(ys[0]) {
      assert more == Text(ys[0]) + (TextAll(ys[1..]) + "\"" + rest);
      LowStarts(ys[0], TextAll(ys[1..]) + "\"" + rest);
    }
  }

  /** The blanks that are skipped. */
  lemma {:induction false} BlanksRead(s: string) returns (b: string)
    ensures Blank(b) && s == b + SkipBlank(s) && (SkipBlank(s) != "" ==> !IsJsonSpace(SkipBlank(s)[0]))
  {
    if s != "" && IsJsonSpace(s[0]) {
      var c := BlanksRead(s[1..]);
      b := [s[0]] + c;
      assert s == [s[0]] + s[1..];
    } else {
      b := "";
    }
  }

  /** One element and the blanks around it. */
  lemma ItemReads(s: string) returns (x: Item, t: string)
    requires Element(SkipBlank(s)).Some?
    ensures LegalItem(x) && NameOf(x) == Element(SkipBlank(s)).value.value
    ensures t == SkipBlank(Element(SkipBlank(s)).value.rest) && s == ItemText(x) + t && |t| < |s|
  {
    hide SkipBlank, Chars, TextAll, AllLegal, Meanings;
    var before := BlanksRead(s);
    var e := SkipBlank(s);
    var rest := Element(e).value.rest;
    var after := BlanksRead(rest);
    t := SkipBlank(rest);
    if e[0] == '\"' {
      var xs := CharsRead(e[1..]);
      x := Item(before, xs, after);
      assert e == "\"" + e[1..];
      assert s == before + "\"" + TextAll(xs) + "\"" + after + t;
    } else {
      x := Null(before, after);
      assert e == "null" + rest;
      assert s == before + "null" + after + t;
    }
  }

  lemma LastOf(a: string, t: string)
    requires t != ""
    ensures (a + t)[|a + t| - 1] == t[|t| - 1]
  {}

  lemma {:induction false} ElementsRead(s: string) returns (xs: seq<Item>)
    requires s != "" && s[|s| - 1] == ']' && Elements(s).Some?
    ensures xs != [] && LegalItems(xs) && s == ItemsText(xs) && NamesOf(xs) == Elements(s).value
    decreases |s|
  {
    hide Element, SkipBlank, ItemText, NameOf, LegalItem;
    var x, t := ItemReads(s);
    LastOf(ItemText(x), t);
    if t[0] == ',' {
      assert t == "," + t[1..];
      assert t[1..] != "";
      var ys := ElementsRead(t[1..]);
      xs := [x] + ys;
      assert xs[1..] == ys;
      assert NamesOf(xs) == [NameOf(x)] + NamesOf(ys);
    } else {
      BlankEnd(t);
      xs := [x];
      assert NamesOf(xs) == [NameOf(x)];
    }
  }

  /** A text of one bracket and blanks that ends in a bracket is the bracket. */
  lemma BlankEnd(t: string)
    requires t != "" && t[0] == ']' && t[|t| - 1] == ']' && SkipBlank(t[1..]) == ""
    ensures t == "]"
  {
    hide SkipBlank;
    var b := BlanksRead(t[1..]);
    assert t[1..] == b;
    if |t| > 1 { NoBracketInBlanks(b, t); }
  }

  lemma NoBracketInBlanks(b: string, t: string)
    requires Blank(b) && |t| > 1 && t[1..] == b
    ensures t[|t| - 1] != ']'
  {
    assert t[|t| - 1] == b[|b| - 1];
  }

  lemma ArrayReads(s: string) returns (xs: seq<Item>, inside: string)
    requires |s| > 1 && s[0] == '[' && s[|s| - 1] == ']' && ParseArray(s).Some?
    ensures LegalItems(xs) && Blank(inside) && s == ArrayText(xs, inside) && NamesOf(xs) == ParseArray(s).value
  {
    hide Elements, SkipBlank, ItemText, NameOf, LegalItem, Blank;
    var t := SkipBlank(s[1..]);
    inside := BlanksRead(s[1..]);
    assert s == "[" + s[1..];
    if t != "" && t[0] == ']' && SkipBlank(t[1..]) == "" {
      LastOf("[" + inside, t);
      BlankEnd(t);
      xs := [];
      assert s == "[" + inside + "]";
    } else {
      xs := ElementsRead(s[1..]);
    }
  }

  /** A text is accepted with a list of names exactly if it is prose without an opening bracket, some legal JSON
      spelling of the list (with null for an empty name, if the model likes), and prose without a closing bracket. */
  lemma ParsesExactly(resp: string, names: seq<string>)
    ensures ParseTableList(resp) == Ok(names) <==>
              exists prefix, xs, inside, suffix ::
                Spells(resp, prefix, xs, inside, suffix) && NamesOf(xs) == names
  {
    hide ParseArray, LegalItem, ArrayText, NameOf;
    if ParseTableList(resp) == Ok(names) {
      var start, end := Index(resp, "["), LastIndexOf(resp, ']');
      var a := resp[start..end + 1];
      SliceEnds(resp, start, end);
      var xs, inside := ArrayReads(a);
      assert resp == resp[..start] + a + resp[end + 1..];
      assert Spells(resp, resp[..start], xs, inside, resp[end + 1..]);
    }
    if prefix, xs, inside, suffix :| Spells(resp, prefix, xs, inside, suffix) && NamesOf(xs) == names {
      WrappedArrayParses(prefix, xs, inside, suffix);
    }
  }

  ghost predicate Spells(resp: string, prefix: string, xs: seq<Item>, inside: string, suffix: string) {
    LegalItems(xs) && Blank(inside) && '[' !in prefix && ']' !in suffix
    && resp == prefix + ArrayText(xs, inside) + suffix
  }

  lemma SliceEnds(resp: string, start: nat, end: nat)
    requires start == Index(resp, "[") && end == LastIndexOf(resp, ']') && start <= end < |resp|
    ensures var a := resp[start..end + 1];
            |a| > 1 && a[0] == '[' && a[|a| - 1] == ']' && '[' !in resp[..start] && ']' !in resp[end + 1..]
  {
    assert resp[start..start + 1] == "[";
    assert resp[start] == "["[0];
    forall j | 0 <= j < start ensures resp[j] != '[' {
      assert !HasAt(resp, "[", j);
      assert resp[j..j + 1] == [resp[j]];
    }
  }

  // ---- The escapes themselves ----

  /** The one-letter escapes of RFC 8259, section 7, and no others. */
  lemma EscapeTable(e: char)
    ensures ShortValue('\"') == Some('\"') && ShortValue('\\') == Some('\\') && ShortValue('/') == Some('/')
    ensures ShortValue('b') == Some(8 as char) && ShortValue('f') == Some(12 as char) && ShortValue('n') == Some(10 as char)
    ensures ShortValue('r') == Some(13 as char) && ShortValue('t') == Some(9 as char)
    ensures ShortValue(e).Some? ==> e in {'\"', '\\', '/', 'b', 'f', 'n', 'r', 't'}
  {}

  lemma HexDigits(k: nat)
    requires k < 16
    ensures var low, high := "0123456789abcdef", "0123456789ABCDEF";
            HexChar(k) == low[k] && HexDigit(low[k]) == k && HexDigit(high[k]) == k
  {
    var low, high := "0123456789abcdef", "0123456789ABCDEF";
    if k < 10 {
      assert low[k] == ('0' as int + k) as char && high[k] == low[k];
    } else {
      assert low[k] == ('a' as int + k - 10) as char && high[k] == ('A' as int + k - 10) as char;
    }
  }

  lemma DigitsSum(n: nat)
    requires n < 0x10000
    ensures n / 4096 < 16 && n == n / 4096 * 4096 + n / 256 % 16 * 256 + n / 16 % 16 * 16 + n % 16
  {
    assert n / 256 == (n / 16) / 16 && n / 4096 == (n / 256) / 16;
  }

  /** Four digits in base sixteen stand for their number. */
  lemma HexExact(n: nat)
    requires n < 0x10000
    ensures n / 4096 < 16
    ensures HexValue([HexChar(n / 4096), HexChar(n / 256 % 16), HexChar(n / 16 % 16), HexChar(n % 16)]) == n
  {
    hide HexChar, HexDigit;
    DigitsSum(n);
  }

  /** A surrogate pair stands for its character, as RFC 2781, section 2.1, splits it. */
  lemma PairExact(c: char)
    requires c as int >= 0x10000
    ensures var n := c as int - 0x10000;
            HighSurrogate(0xD800 + n / 0x400) && LowSurrogate(0xDC00 + n % 0x400)
            && FromPair(0xD800 + n / 0x400, 0xDC00 + n % 0x400) == c
  {}
}
