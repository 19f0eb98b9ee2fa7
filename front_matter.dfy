/**
 * The README front-matter extractor inside `getRepositoryMetadata`: the block
 * between the first `---\n` and the next `\n---`, and the field patterns applied
 * to it. Each regular expression of the source is written out as a scanner over
 * the characters; the predicates named `...Match` state the pattern itself, and
 * lemmas tie each scanner to its pattern.
 */
module FrontMatter {
  import opened Wrappers
  import opened Seqs

  datatype ProjectMetadata = ProjectMetadata(
    title: string,
    description: string,
    showcase: bool,
    order: nat,
    technologies: seq<string>,
    features: seq<string>)

  // ---------------------------------------------------------------------------
  // Character classes of ECMAScript regular expressions

  /** `\s`: the WhiteSpace and LineTerminator code points of ECMAScript. */
  predicate IsSpace(c: char) {
    var n := c as int;
    n == 0x09 || n == 0x0A || n == 0x0B || n == 0x0C || n == 0x0D || n == 0x20 || n == 0xA0 ||
    n == 0x1680 || (0x2000 <= n <= 0x200A) || n == 0x2028 || n == 0x2029 || n == 0x202F ||
    n == 0x205F || n == 0x3000 || n == 0xFEFF
  }

  /** `\w`: ASCII letters, digits and underscore. */
  predicate IsWordChar(c: char) {
    'a' <= c <= 'z' || 'A' <= c <= 'Z' || '0' <= c <= '9' || c == '_'
  }

  /** `\d`: ASCII digits. */
  predicate IsDigit(c: char) {
    '0' <= c <= '9'
  }

  /** `[^"]`. */
  predicate IsNotQuote(c: char) {
    c != '"'
  }

  // ---------------------------------------------------------------------------
  // Scanning primitives

  /** `pat` occurs in `s` starting at index `k`. */
  predicate OccursAt(s: string, pat: string, k: nat) {
    k + |pat| <= |s| && s[k..k + |pat|] == pat
  }

  /** Every character of `s[i..j]` satisfies `p`. */
  ghost predicate AllIn(s: string, i: nat, j: nat, p: char -> bool)
    requires j <= |s|
  {
    forall x :: i <= x < j ==> p(s[x])
  }

  /** The first index at or after `from` where `pat` occurs (`String.prototype.indexOf`). */
  function FindFrom(s: string, pat: string, from: nat): (r: Option<nat>)
    ensures r.Some? ==> from <= r.value && OccursAt(s, pat, r.value)
    ensures forall k: nat :: from <= k && (r.Some? ==> k < r.value) ==> !OccursAt(s, pat, k)
    decreases |s| - from
  {
    if from + |pat| > |s| then None
    else if OccursAt(s, pat, from) then Some(from)
    else FindFrom(s, pat, from + 1)
  }

  /** `String.prototype.includes`. */
  function Contains(s: string, pat: string): (b: bool)
    ensures b <==> exists k: nat :: OccursAt(s, pat, k)
  {
    FindFrom(s, pat, 0).Some?
  }

  /** The end of the run of characters satisfying `p` that starts at `k` (a greedy `p*`). */
  function RunEnd(s: string, k: nat, p: char -> bool): (e: nat)
    requires k <= |s|
    ensures k <= e <= |s|
    ensures AllIn(s, k, e, p)
    ensures e == |s| || !p(s[e])
    decreases |s| - k
  {
    if k == |s| || !p(s[k]) then k else RunEnd(s, k + 1, p)
  }

  // ---------------------------------------------------------------------------
  // The block: /---\n([\s\S]*?)\n---/

  const Opening: string := "---\n"
  const Closing: string := "\n---"

  /**
   * The leftmost match of the block pattern starts at the first `---\n` (at `i`)
   * and, the content being lazy, ends at the first `\n---` at or after `i + 4` (at `j`).
   */
  ghost predicate FirstBlockAt(text: string, i: nat, j: nat) {
    && OccursAt(text, Opening, i)
    && (forall k: nat :: k < i ==> !OccursAt(text, Opening, k))
    && i + |Opening| <= j
    && OccursAt(text, Closing, j)
    && (forall k: nat :: i + |Opening| <= k < j ==> !OccursAt(text, Closing, k))
  }

  /** The text matches the block pattern somewhere. */
  ghost predicate HasBlock(text: string) {
    exists i: nat, j: nat :: OccursAt(text, Opening, i) && i + |Opening| <= j && OccursAt(text, Closing, j)
  }

  /** The first capture of `text.match(/---\n([\s\S]*?)\n---/)`. */
  function Block(text: string): (r: Option<string>)
    ensures r.None? <==> !HasBlock(text)
    ensures r.Some? ==> exists i: nat, j: nat :: FirstBlockAt(text, i, j) && r.value == text[i + |Opening|..j]
  {
    match FindFrom(text, Opening, 0)
    case None => None
    case Some(i) =>
      match FindFrom(text, Closing, i + |Opening|)
      case None =>
        // A later opening delimiter would need a closing one even further on.
        assert forall i': nat, j: nat :: OccursAt(text, Opening, i') && i' + |Opening| <= j ==> !OccursAt(text, Closing, j);
        None
      case Some(j) =>
        assert FirstBlockAt(text, i, j);
        Some(text[i + |Opening|..j])
  }

  /** Only the first block is used, and it never contains a closing delimiter. */
  lemma {:induction false} BlockHasNoClosing(text: string)
    requires Block(text).Some?
    ensures !Contains(Block(text).value, Closing)
  {
    var i := FindFrom(text, Opening, 0).value;
    var j := FindFrom(text, Closing, i + |Opening|).value;
    var y := text[i + |Opening|..j];
    assert Block(text).value == y;
    if Contains(y, Closing) {
      var k: nat :| OccursAt(y, Closing, k);
      var at := i + |Opening| + k;
      assert at + |Closing| <= j;
      OccursInSliceIff(text, i + |Opening|, j, Closing, at);
      assert false;
    }
  }

  /** A window inside the slice `text[a..b]` holds the pattern exactly when the same window of `text` does. */
  lemma OccursInSliceIff(text: string, a: nat, b: nat, pat: string, k: nat)
    requires a <= k && k + |pat| <= b <= |text|
    ensures OccursAt(text[a..b], pat, k - a) <==> OccursAt(text, pat, k)
  {
    var inner := text[a..b];
    var w1, w2 := inner[k - a..k - a + |pat|], text[k..k + |pat|];
    assert |w1| == |w2|;
    forall t | 0 <= t < |w1| ensures w1[t] == w2[t] {
      assert w1[t] == inner[k - a + t] == text[k + t];
    }
    assert w1 == w2;
  }

  // ---------------------------------------------------------------------------
  // Scalar fields: /name:\s*"([^"]+)"/ and /order:\s*(\d+)/

  /** The two capture shapes used after a name: a quoted string, or a run of digits. */
  datatype CaptureKind = QuotedString | DigitRun

  /**
   * `name\s*"([^"]+)"` or `name\s*(\d+)` tried at index `k`. Backtracking
   * cannot help either pattern: giving back whitespace or characters of the
   * group leaves a character that cannot match the next item, so the greedy
   * runs decide the match (lemma CaptureAtIsTheMatch).
   */
  function CaptureAt(s: string, name: string, k: nat, kind: CaptureKind): (r: Option<string>)
    requires OccursAt(s, name, k)
    ensures r.Some? ==> r.value != []
    ensures r.Some? && kind == QuotedString ==> '"' !in r.value
    ensures r.Some? && kind == DigitRun ==> forall c :: c in r.value ==> IsDigit(c)
  {
    var w := RunEnd(s, k + |name|, IsSpace);
    match kind
    case QuotedString =>
      if w < |s| && s[w] == '"' then
        var e := RunEnd(s, w + 1, IsNotQuote);
        if w + 1 < e < |s| then Some(s[w + 1..e]) else None
      else None
    case DigitRun =>
      var e := RunEnd(s, w, IsDigit);
      if w < e then Some(s[w..e]) else None
  }

  /** `s[k..]` begins with an instance of the pattern whose group is `s[c..e]`. */
  ghost predicate CaptureMatch(s: string, name: string, k: nat, kind: CaptureKind, c: nat, e: nat) {
    && OccursAt(s, name, k)
    && k + |name| <= c < e <= |s|
    && match kind
       case QuotedString =>
         && k + |name| < c && e < |s|
         && AllIn(s, k + |name|, c - 1, IsSpace) && s[c - 1] == '"'
         && AllIn(s, c, e, IsNotQuote) && s[e] == '"'
       case DigitRun =>
         && AllIn(s, k + |name|, c, IsSpace)
         && AllIn(s, c, e, IsDigit)
         && (e == |s| || !IsDigit(s[e]))
  }

  /** The scanner succeeds exactly when the pattern matches at `k`, and then returns its (only) group. */
  lemma CaptureAtIsTheMatch(s: string, name: string, k: nat, kind: CaptureKind)
    requires OccursAt(s, name, k)
    ensures CaptureAt(s, name, k, kind).Some? <==> exists c, e :: CaptureMatch(s, name, k, kind, c, e)
    ensures forall c: nat, e: nat :: CaptureMatch(s, name, k, kind, c, e) ==> CaptureAt(s, name, k, kind) == Some(s[c..e])
  {
    var w := RunEnd(s, k + |name|, IsSpace);
    // Any instance of the pattern starts its group right after the whitespace run, and ends it where the group's run ends.
    forall c: nat, e: nat | CaptureMatch(s, name, k, kind, c, e)
      ensures CaptureAt(s, name, k, kind) == Some(s[c..e])
    {
      match kind
      case QuotedString =>
        assert !IsSpace(s[c - 1]);
        assert w == c - 1;
        var e' := RunEnd(s, w + 1, IsNotQuote);
        assert e' == e;
      case DigitRun =>
        assert !IsSpace(s[c]);
        assert w == c;
        var e' := RunEnd(s, w, IsDigit);
        assert e' == e;
    }
    match kind
    case QuotedString =>
      if w < |s| && s[w] == '"' {
        var e := RunEnd(s, w + 1, IsNotQuote);
        if w + 1 < e < |s| {
          assert CaptureMatch(s, name, k, kind, w + 1, e);
        }
      }
    case DigitRun =>
      var e := RunEnd(s, w, IsDigit);
      if w < e {
        assert CaptureMatch(s, name, k, kind, w, e);
      }
  }

  /** `k` is where the leftmost match of the pattern (searching from `from`) starts. */
  ghost predicate FirstCaptureAt(s: string, name: string, from: nat, kind: CaptureKind, k: nat) {
    && from <= k
    && OccursAt(s, name, k)
    && CaptureAt(s, name, k, kind).Some?
    && forall k': nat :: from <= k' < k && OccursAt(s, name, k') ==> CaptureAt(s, name, k', kind).None?
  }

  /** The group of the leftmost match at or after `from`: `s.match(/name\s*.../)?.[1]`. */
  function FirstCapture(s: string, name: string, from: nat, kind: CaptureKind): (r: Option<string>)
    ensures r.None? <==> forall k: nat :: from <= k && OccursAt(s, name, k) ==> CaptureAt(s, name, k, kind).None?
    ensures r.Some? ==> exists k: nat :: FirstCaptureAt(s, name, from, kind, k) && CaptureAt(s, name, k, kind) == r
    decreases |s| - from
  {
    match FindFrom(s, name, from)
    case None => None
    case Some(k) =>
      match CaptureAt(s, name, k, kind)
      case Some(v) =>
        assert FirstCaptureAt(s, name, from, kind, k);
        Some(v)
      case None =>
        var r := FirstCapture(s, name, k + 1, kind);
        FirstCaptureSkip(s, name, from, kind, k, r);
        r
  }

  /** Moving the search past an occurrence whose match fails keeps the leftmost match. */
  lemma FirstCaptureSkip(s: string, name: string, from: nat, kind: CaptureKind, k: nat, r: Option<string>)
    requires FindFrom(s, name, from) == Some(k) && CaptureAt(s, name, k, kind).None?
    requires r.None? <==> forall k': nat :: k + 1 <= k' && OccursAt(s, name, k') ==> CaptureAt(s, name, k', kind).None?
    requires r.Some? ==> exists k2: nat :: FirstCaptureAt(s, name, k + 1, kind, k2) && CaptureAt(s, name, k2, kind) == r
    ensures r.None? <==> forall k': nat :: from <= k' && OccursAt(s, name, k') ==> CaptureAt(s, name, k', kind).None?
    ensures r.Some? ==> exists k2: nat :: FirstCaptureAt(s, name, from, kind, k2) && CaptureAt(s, name, k2, kind) == r
  {
    if r.Some? {
      var k2: nat :| FirstCaptureAt(s, name, k + 1, kind, k2) && CaptureAt(s, name, k2, kind) == r;
      FirstCaptureSkipFound(s, name, from, kind, k, k2);
    } else {
      FirstCaptureSkipNone(s, name, from, kind, k);
    }
  }

  lemma FirstCaptureSkipFound(s: string, name: string, from: nat, kind: CaptureKind, k: nat, k2: nat)
    requires FindFrom(s, name, from) == Some(k) && CaptureAt(s, name, k, kind).None?
    requires FirstCaptureAt(s, name, k + 1, kind, k2)
    ensures FirstCaptureAt(s, name, from, kind, k2)
  {
    forall k': nat | from <= k' < k2 && OccursAt(s, name, k') ensures CaptureAt(s, name, k', kind).None? {
      if k' < k {
        assert false;
      } else if k' == k {
      } else {
        assert k + 1 <= k' < k2;
      }
    }
  }

  lemma FirstCaptureSkipNone(s: string, name: string, from: nat, kind: CaptureKind, k: nat)
    requires FindFrom(s, name, from) == Some(k) && CaptureAt(s, name, k, kind).None?
    requires forall k': nat :: k + 1 <= k' && OccursAt(s, name, k') ==> CaptureAt(s, name, k', kind).None?
    ensures forall k': nat :: from <= k' && OccursAt(s, name, k') ==> CaptureAt(s, name, k', kind).None?
  {
    forall k': nat | from <= k' && OccursAt(s, name, k') ensures CaptureAt(s, name, k', kind).None? {
      if k' < k {
        assert false;
      }
    }
  }

  function DigitValue(c: char): (n: nat)
    requires IsDigit(c)
    ensures n <= 9
  {
    (c as int) - ('0' as int)
  }

  /** `parseInt` of a run of decimal digits. */
  function DecimalValue(ds: string): (n: nat)
    requires forall c :: c in ds ==> IsDigit(c)
    ensures n < Pow10(|ds|)
  {
    if ds == [] then 0
    else
      assert ds[|ds| - 1] in ds;
      DecimalValue(ds[..|ds| - 1]) * 10 + DigitValue(ds[|ds| - 1])
  }

  function Pow10(k: nat): (p: nat)
    ensures p >= 1
  {
    if k == 0 then 1 else 10 * Pow10(k - 1)
  }

  /** Leading zeros do not count: `order: 007` is order 7. */
  lemma {:induction false} DecimalLeadingZero(ds: string)
    requires forall c :: c in ds ==> IsDigit(c)
    ensures DecimalValue("0" + ds) == DecimalValue(ds)
  {
    var zs := "0" + ds;
    if ds == [] {
      assert zs[..0] == [];
    } else {
      var init := ds[..|ds| - 1];
      assert zs[..|zs| - 1] == "0" + init;
      assert zs[|zs| - 1] == ds[|ds| - 1];
      DecimalLeadingZero(init);
    }
  }

  // ---------------------------------------------------------------------------
  // List fields: /name([\s\S]*?)(?=\n\w|$)/, split on "\n", keep lines with "-",
  // and replace /\s*-\s*"?([^"]+)"?\s*/ by its group

  /** The lookahead `(?=\n\w)` holds at `i`. */
  predicate EndsRegion(s: string, i: nat) {
    i + 1 < |s| && s[i] == '\n' && IsWordChar(s[i + 1])
  }

  /** The lazy group stops at the first place where `\n\w` follows, or at the end (`$` without the `m` flag). */
  function RegionEnd(s: string, from: nat): (e: nat)
    requires from <= |s|
    ensures from <= e <= |s|
    ensures e == |s| || EndsRegion(s, e)
    ensures forall i: nat :: from <= i < e ==> !EndsRegion(s, i)
    decreases |s| - from
  {
    if from == |s| || EndsRegion(s, from) then from else RegionEnd(s, from + 1)
  }

  /** The group of `s.match(/name([\s\S]*?)(?=\n\w|$)/)`: it exists as soon as the name does. */
  function ListRegion(s: string, name: string): (r: Option<string>)
    ensures r.None? <==> !Contains(s, name)
  {
    match FindFrom(s, name, 0)
    case None => None
    case Some(k) => Some(s[k + |name|..RegionEnd(s, k + |name|)])
  }

  /** `s.split("\n")`. */
  function Lines(s: string): (r: seq<string>)
    ensures r != []
    ensures forall l :: l in r ==> '\n' !in l
    ensures Join(r) == s
    decreases |s|
  {
    match FindFrom(s, "\n", 0)
    case None =>
      NoNewlineBefore(s, |s|);
      assert s[..|s|] == s;
      [s]
    case Some(i) =>
      NoNewlineBefore(s, i);
      var rest := Lines(s[i + 1..]);
      SplitAtNewline(s, i);
      JoinCons(s[..i], rest);
      [s[..i]] + rest
  }

  lemma NoNewlineBefore(s: string, i: nat)
    requires i <= |s|
    requires forall k: nat :: k < i ==> !OccursAt(s, "\n", k)
    ensures '\n' !in s[..i]
  {
    forall x | 0 <= x < i ensures s[x] != '\n' {
      assert !OccursAt(s, "\n", x);
    }
  }

  lemma SplitAtNewline(s: string, i: nat)
    requires OccursAt(s, "\n", i)
    ensures s == s[..i] + "\n" + s[i + 1..]
  {
    assert s[i..i + 1] == "\n";
  }

  lemma JoinCons(line: string, rest: seq<string>)
    requires rest != []
    ensures Join([line] + rest) == line + "\n" + Join(rest)
  {
    assert ([line] + rest)[1..] == rest;
  }

  /** `lines.join("\n")`, the inverse of `Lines`. */
  function Join(ls: seq<string>): string {
    if ls == [] then ""
    else if |ls| == 1 then ls[0]
    else ls[0] + "\n" + Join(ls[1..])
  }

  /** Splitting the join of newline-free lines gives the lines back. */
  lemma {:induction false} LinesOfJoin(ls: seq<string>)
    requires ls != [] && forall l :: l in ls ==> '\n' !in l
    ensures Lines(Join(ls)) == ls
  {
    if |ls| == 1 {
      assert ls[0] in ls;
      LinesOfLine(ls[0]);
    } else {
      var s := Join(ls);
      var n := |ls[0]|;
      assert ls[0] in ls;
      assert s == ls[0] + "\n" + Join(ls[1..]);
      FirstNewline(s, ls[0], Join(ls[1..]));
      LinesAtNewline(s, n);
      assert s[..n] == ls[0] && s[n + 1..] == Join(ls[1..]);
      LinesOfJoin(ls[1..]);
      assert ls == [ls[0]] + ls[1..];
    }
  }

  /** A newline-free text is one line. */
  lemma LinesOfLine(line: string)
    requires '\n' !in line
    ensures Lines(line) == [line]
  {
    assert FindFrom(line, "\n", 0).None? by {
      forall k: nat ensures !OccursAt(line, "\n", k) {
        if k < |line| {
          assert line[k..k + 1][0] == line[k];
          assert line[k] in line;
        }
      }
    }
  }

  /** At the first newline, the first line ends and the rest is split on. */
  lemma LinesAtNewline(s: string, i: nat)
    requires FindFrom(s, "\n", 0) == Some(i)
    ensures i < |s| && Lines(s) == [s[..i]] + Lines(s[i + 1..])
  {
  }

  lemma FirstNewline(s: string, a: string, b: string)
    requires s == a + "\n" + b && '\n' !in a
    ensures FindFrom(s, "\n", 0) == Some(|a|)
  {
    assert OccursAt(s, "\n", |a|);
    forall k: nat | k < |a| ensures !OccursAt(s, "\n", k) {
      assert s[k] == a[k];
      assert a[k] in a;
    }
  }

  /** The line contains a `-` (`line.includes("-")`). */
  predicate HasDash(line: string) {
    '-' in line
  }

  /**
   * Where the group of `\s*-\s*"?([^"]+)"?\s*` begins when the dash is the one at
   * `d`, or None when no match uses this dash. With `w` the first non-space after
   * the dash, the regular expression engine tries, in its backtracking order: the
   * group at `w` (no quote), at `w + 1` after a quote, and then, giving back one
   * space, at the last space before `w`.
   */
  function CaptureStart(line: string, d: nat): (r: Option<nat>)
    requires d < |line| && line[d] == '-'
    ensures r.Some? ==> d < r.value < |line| && line[r.value] != '"'
  {
    var w := RunEnd(line, d + 1, IsSpace);
    if w < |line| && line[w] != '"' then Some(w)
    else if w + 1 < |line| && line[w] == '"' && line[w + 1] != '"' then Some(w + 1)
    else if w > d + 1 then Some(w - 1)
    else None
  }

  /** The first dash at or after `from` that some match can use. */
  function FirstItemDash(line: string, from: nat): (r: Option<nat>)
    ensures r.Some? ==> from <= r.value < |line| && line[r.value] == '-' && CaptureStart(line, r.value).Some?
    ensures forall d: nat :: from <= d < |line| && line[d] == '-' && (r.Some? ==> d < r.value) ==> CaptureStart(line, d).None?
    decreases |line| - from
  {
    if from >= |line| then None
    else if line[from] == '-' && CaptureStart(line, from).Some? then Some(from)
    else FirstItemDash(line, from + 1)
  }

  /** The start of the run of whitespace that ends at `d`. */
  function SpaceRunStart(line: string, d: nat): (k: nat)
    requires d <= |line|
    ensures k <= d && AllIn(line, k, d, IsSpace)
    ensures k == 0 || !IsSpace(line[k - 1])
  {
    if d == 0 || !IsSpace(line[d - 1]) then d else SpaceRunStart(line, d - 1)
  }

  /** `line[k..m]` is an instance of `\s*-\s*"?([^"]+)"?\s*` with its dash at `d` and its group at `line[c..e]`. */
  ghost predicate ItemMatch(line: string, k: nat, d: nat, c: nat, e: nat, m: nat) {
    && k <= d < c < e <= m <= |line|
    && AllIn(line, k, d, IsSpace) && line[d] == '-'
    && (AllIn(line, d + 1, c, IsSpace) || (AllIn(line, d + 1, c - 1, IsSpace) && line[c - 1] == '"'))
    && AllIn(line, c, e, IsNotQuote)
    && (AllIn(line, e, m, IsSpace) || (line[e] == '"' && AllIn(line, e + 1, m, IsSpace)))
  }

  /** `line.replace(/\s*-\s*"?([^"]+)"?\s*\/, "$1")`: the first match replaced by its group. */
  function StripItem(line: string): (r: string)
    ensures FirstItemDash(line, 0).None? ==> r == line
    ensures FirstItemDash(line, 0).Some? ==> |r| < |line|
  {
    match FirstItemDash(line, 0)
    case None => line
    case Some(d) =>
      var k := SpaceRunStart(line, d);
      var c := CaptureStart(line, d).value;
      var e := RunEnd(line, c, IsNotQuote);
      var m := RunEnd(line, if e < |line| then e + 1 else e, IsSpace);
      line[..k] + line[c..e] + line[m..]
  }

  /** A match whose dash is at `d` exists only if `CaptureStart` finds its group. */
  lemma ItemMatchNeedsCapture(line: string, k: nat, d: nat, c: nat, e: nat, m: nat)
    requires ItemMatch(line, k, d, c, e, m)
    ensures CaptureStart(line, d).Some?
  {
    var w := RunEnd(line, d + 1, IsSpace);
    if AllIn(line, d + 1, c, IsSpace) {
      assert c <= w;
      assert line[c] != '"';
    } else {
      assert line[c - 1] == '"' && !IsSpace(line[c - 1]);
      assert w == c - 1;
    }
  }

  /** No instance of the pattern starts before the span `StripItem` removes. */
  lemma ItemMatchNotEarlier(line: string, k: nat, d: nat, c: nat, e: nat, m: nat)
    requires ItemMatch(line, k, d, c, e, m)
    ensures FirstItemDash(line, 0).Some? && SpaceRunStart(line, FirstItemDash(line, 0).value) <= k
  {
    // The dash at d can be used, so there is a first usable dash d0 <= d; if d0 < d it
    // is not whitespace, so it lies before the whitespace run that starts the match.
    ItemMatchNeedsCapture(line, k, d, c, e, m);
  }

  /** The span `StripItem` removes is an instance of the pattern. */
  lemma StripItemSpanMatches(line: string)
    requires FirstItemDash(line, 0).Some?
    ensures
      var d := FirstItemDash(line, 0).value;
      var c := CaptureStart(line, d).value;
      var e := RunEnd(line, c, IsNotQuote);
      var m := RunEnd(line, if e < |line| then e + 1 else e, IsSpace);
      ItemMatch(line, SpaceRunStart(line, d), d, c, e, m)
  {
    var d := FirstItemDash(line, 0).value;
    var w := RunEnd(line, d + 1, IsSpace);
    var c := CaptureStart(line, d).value;
    assert c == w || c == w + 1 || c == w - 1;
  }

  /** Every group start a match with its dash at `d` can have is at most the one `CaptureStart` picks. */
  lemma CaptureStartIsGreatest(line: string, k: nat, d: nat, c: nat, e: nat, m: nat)
    requires ItemMatch(line, k, d, c, e, m)
    ensures CaptureStart(line, d).Some? && c <= CaptureStart(line, d).value
  {
    var w := RunEnd(line, d + 1, IsSpace);
    assert IsNotQuote(line[c]);
    if AllIn(line, d + 1, c, IsSpace) {
      assert c <= w;
      if w < |line| && line[w] == '"' {
        assert c != w;
      }
    } else {
      assert line[c - 1] == '"' && !IsSpace(line[c - 1]);
      assert w == c - 1;
    }
  }

  /**
   * The match `replace` uses: among all matches that start where the first one
   * starts, the one with the greatest group start, then the greatest group end,
   * then the greatest end. This is the backtracking engine's preference: the
   * second `\s*`, `"?`, `[^"]+`, the closing `"?` and `\s*` are all greedy.
   */
  lemma StripItemIsPreferredMatch(line: string, d: nat, c: nat, e: nat, m: nat)
    requires FirstItemDash(line, 0).Some?
    requires ItemMatch(line, SpaceRunStart(line, FirstItemDash(line, 0).value), d, c, e, m)
    ensures
      var d0 := FirstItemDash(line, 0).value;
      var c0 := CaptureStart(line, d0).value;
      var e0 := RunEnd(line, c0, IsNotQuote);
      var m0 := RunEnd(line, if e0 < |line| then e0 + 1 else e0, IsSpace);
      d == d0 && c <= c0 && (c == c0 ==> e <= e0) && (c == c0 && e == e0 ==> m <= m0)
  {
    var d0 := FirstItemDash(line, 0).value;
    var k := SpaceRunStart(line, d0);
    if d < d0 {
      assert false;
    } else if d > d0 {
      assert false;
    }
    CaptureStartIsGreatest(line, k, d, c, e, m);
    var c0 := CaptureStart(line, d0).value;
    var e0 := RunEnd(line, c0, IsNotQuote);
    if c == c0 {
      assert e <= e0;
      if e == e0 && e < |line| {
        assert line[e] == '"' && !IsSpace(line[e]);
      }
    }
  }

  /** The items of a list field: one per line of the region that contains a dash. */
  function ListItems(region: string): (items: seq<string>)
    ensures |items| == |Filter(Lines(region), HasDash)| <= |Lines(region)|
    ensures forall i :: 0 <= i < |items| ==> items[i] == StripItem(Filter(Lines(region), HasDash)[i])
  {
    var dashed := Filter(Lines(region), HasDash);
    seq(|dashed|, i requires 0 <= i < |dashed| => StripItem(dashed[i]))
  }

  /** `technologies` / `features`: the items, or `[]` when the name does not occur. */
  function ListField(y: string, name: string): (items: seq<string>)
    ensures !Contains(y, name) ==> items == []
    ensures Contains(y, name) ==> items == ListItems(ListRegion(y, name).value)
  {
    match ListRegion(y, name)
    case None => []
    case Some(region) => ListItems(region)
  }

  // ---------------------------------------------------------------------------
  // Facts for reasoning about concrete documents

  /** Content without a closing delimiter, wrapped in the two delimiters, is found again as the block. */
  lemma BlockOfWrapped(y: string)
    requires !Contains(y, Closing)
    ensures Block(Opening + y + Closing) == Some(y)
  {
    var text := Opening + y + Closing;
    var j := |Opening| + |y|;
    assert text[|Opening|..j] == y;
    assert text[..|Opening|] == Opening;
    assert OccursAt(text, Opening, 0);
    assert text[j..j + |Closing|] == Closing;
    assert OccursAt(text, Closing, j);
    forall k: nat | |Opening| <= k < j
      ensures !OccursAt(text, Closing, k)
    {
      if k + |Closing| <= j {
        assert !OccursAt(y, Closing, k - |Opening|);
        OccursInSliceIff(text, |Opening|, j, Closing, k);
      } else {
        // The window would hold the closing delimiter's own newline where a dash must be.
        assert text[j] == '\n';
        assert k + |Closing| <= |text|;
        assert text[k..k + |Closing|][j - k] == text[j];
      }
    }
  }

  /** A pattern cannot occur where one of its characters is missing. */
  lemma NoOccurrenceWithoutChar(s: string, pat: string, i: nat)
    requires i < |pat| && pat[i] !in s
    ensures !Contains(s, pat)
  {
    forall k: nat | k + |pat| <= |s| ensures !OccursAt(s, pat, k) {
      assert s[k..k + |pat|][i] == s[k + i];
    }
  }

  /** An occurrence with none before it is the one `indexOf` finds. */
  lemma FindFromAt(s: string, pat: string, k: nat)
    requires OccursAt(s, pat, k) && forall j: nat :: j < k ==> !OccursAt(s, pat, j)
    ensures FindFrom(s, pat, 0) == Some(k)
  {
    var r := FindFrom(s, pat, 0);
    assert r.Some? && r.value <= k;
  }

  /** The same, for occurrences whose `i`-th character would fall in `a`. */
  lemma NoOccurrenceInPrefix(a: string, b: string, pat: string, i: nat)
    requires i < |pat| && pat[i] !in a
    ensures forall k: nat :: k + i < |a| ==> !OccursAt(a + b, pat, k)
  {
    forall k: nat | k + i < |a| && k + |pat| <= |a + b| ensures !OccursAt(a + b, pat, k) {
      assert (a + b)[k..k + |pat|][i] == (a + b)[k + i] == a[k + i];
    }
  }

  /** A pattern placed after `a` occurs right there. */
  lemma OccursAfter(a: string, pat: string, b: string)
    ensures OccursAt(a + pat + b, pat, |a|)
  {
    assert (a + pat + b)[|a|..|a| + |pat|] == pat;
  }

  /** In a join of lines, a newline is followed by another newline or by the first character of a later line. */
  lemma {:induction false} JoinNewlineSuccessor(ls: seq<string>, k: nat)
    requires forall l :: l in ls ==> '\n' !in l
    requires k + 1 < |Join(ls)| && Join(ls)[k] == '\n'
    ensures Join(ls)[k + 1] == '\n' || exists i :: 1 <= i < |ls| && ls[i] != [] && Join(ls)[k + 1] == ls[i][0]
    decreases |ls|
  {
    assert forall i :: 0 <= i < |ls| ==> '\n' !in ls[i];
    if |ls| <= 1 {
      assert false;
    } else {
      var a, rest := ls[0], Join(ls[1..]);
      assert Join(ls) == a + "\n" + rest;
      if k < |a| {
        assert false;
      } else if k == |a| {
        assert Join(ls)[k + 1] == rest[0];
        if ls[1] != [] {
          if |ls[1..]| == 1 {
            assert rest == ls[1];
          } else {
            assert rest == ls[1] + "\n" + Join(ls[2..]) by { assert ls[1..][1..] == ls[2..]; }
          }
        } else {
          assert |ls[1..]| > 1;
          assert rest == ls[1] + "\n" + Join(ls[1..][1..]);
        }
      } else {
        assert rest[k - |a| - 1] == '\n';
        JoinNewlineSuccessor(ls[1..], k - |a| - 1);
        if Join(ls)[k + 1] != '\n' {
          var i :| 1 <= i < |ls[1..]| && ls[1..][i] != [] && rest[k - |a|] == ls[1..][i][0];
          assert ls[i + 1] == ls[1..][i];
        }
      }
    }
  }

  /** Lines that do not start with a dash never join into a closing delimiter. */
  lemma NoClosingInJoin(ls: seq<string>)
    requires forall l :: l in ls ==> '\n' !in l && (l == [] || l[0] != '-')
    ensures !Contains(Join(ls), Closing)
  {
    var s := Join(ls);
    forall k: nat | k + 1 < |s| && s[k] == '\n' ensures s[k + 1] != '-' {
      JoinNewlineSuccessor(ls, k);
      if s[k + 1] != '\n' {
        var i :| 1 <= i < |ls| && ls[i] != [] && s[k + 1] == ls[i][0];
        assert ls[i] in ls;
      }
    }
    forall k: nat | k + |Closing| <= |s| ensures !OccursAt(s, Closing, k) {
      assert s[k..k + |Closing|][0] == s[k] && s[k..k + |Closing|][1] == s[k + 1];
    }
  }

  /** A list region never ends inside lines that do not start with a word character. */
  lemma RegionEndOfJoin(a: string, ls: seq<string>)
    requires forall l :: l in ls ==> '\n' !in l && (l == [] || !IsWordChar(l[0]))
    ensures RegionEnd(a + Join(ls), |a|) == |a + Join(ls)|
  {
    var s := a + Join(ls);
    forall j: nat | |a| <= j && j + 1 < |s| && s[j] == '\n' ensures !IsWordChar(s[j + 1]) {
      assert s[j] == Join(ls)[j - |a|] && s[j + 1] == Join(ls)[j - |a| + 1];
      JoinNewlineSuccessor(ls, j - |a|);
      if s[j + 1] != '\n' {
        var i :| 1 <= i < |ls| && ls[i] != [] && s[j + 1] == ls[i][0];
        assert ls[i] in ls;
      }
    }
  }

  // ---------------------------------------------------------------------------
  // The record

  /** The field rules applied to the block content; every field has its default, none fails. */
  function Parse(y: string): (m: ProjectMetadata)
    ensures '"' !in m.title && '"' !in m.description
    ensures m.title == "" <==> FirstCapture(y, "title:", 0, QuotedString).None?
    ensures m.description == "" <==> FirstCapture(y, "description:", 0, QuotedString).None?
    ensures m.showcase <==> exists k: nat :: OccursAt(y, "showcase: true", k)
    ensures FirstCapture(y, "order:", 0, DigitRun).None? ==> m.order == 0
    ensures !Contains(y, "technologies:") ==> m.technologies == []
    ensures !Contains(y, "features:") ==> m.features == []
  {
    ProjectMetadata(
      FirstCapture(y, "title:", 0, QuotedString).GetOr(""),
      FirstCapture(y, "description:", 0, QuotedString).GetOr(""),
      Contains(y, "showcase: true"),
      match FirstCapture(y, "order:", 0, DigitRun)
      case None => 0
      case Some(ds) => DecimalValue(ds),
      ListField(y, "technologies:"),
      ListField(y, "features:"))
  }

  /** The metadata of a README, or None when it has no front-matter block. */
  function Extract(text: string): (r: Option<ProjectMetadata>)
    ensures r.None? <==> !HasBlock(text)
    ensures r.Some? ==> r.value == Parse(Block(text).value)
  {
    match Block(text)
    case None => None
    case Some(y) => Some(Parse(y))
  }
}
