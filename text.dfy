/**
 * The string operations the schedule code relies on: `in` and `startswith`,
 * the few regular expressions it uses (as explicit left-to-right searches),
 * `split('\n')` and `'\n'.join`, `''.join`, and `lower()`/`upper()`.
 */
module Text {
  import opened Wrappers

  /** One position of a search pattern: a literal character, or the regex `.` */
  datatype Sym = Lit(c: char) | Any

  type Pattern = seq<Sym>

  function Literal(t: string): Pattern {
    seq(|t|, j requires 0 <= j < |t| => Lit(t[j]))
  }

  /** The pattern occurs in `s` starting at index `k`. */
  predicate MatchesAt(s: string, p: Pattern, k: int) {
    0 <= k && k + |p| <= |s| &&
    forall j :: 0 <= j < |p| ==> p[j].Lit? ==> s[k + j] == p[j].c
  }

  lemma LiteralMatchesAt(s: string, t: string, k: int)
    ensures MatchesAt(s, Literal(t), k) <==> 0 <= k && k + |t| <= |s| && s[k..k + |t|] == t
  {
    if 0 <= k && k + |t| <= |s| {
      if s[k..k + |t|] == t {
        forall j | 0 <= j < |t| ensures s[k + j] == t[j] {
          assert s[k..k + |t|][j] == s[k + j];
        }
      }
      if MatchesAt(s, Literal(t), k) {
        assert forall j :: 0 <= j < |t| ==> Literal(t)[j] == Lit(t[j]);
        assert s[k..k + |t|] == t;
      }
    }
  }

  /** The first index at or after `from` where `p` occurs. */
  function FirstFrom(s: string, p: Pattern, from: nat): (r: Option<nat>)
    decreases |s| - from
    ensures r.Some? ==> from <= r.value && MatchesAt(s, p, r.value)
    ensures r.Some? ==> forall j :: from <= j < r.value ==> !MatchesAt(s, p, j)
    ensures r.None? ==> forall j :: from <= j ==> !MatchesAt(s, p, j)
  {
    if from + |p| > |s| then None
    else if MatchesAt(s, p, from) then Some(from)
    else FirstFrom(s, p, from + 1)
  }

  /** The last index at or after `from` where `p` occurs. */
  function LastFrom(s: string, p: Pattern, from: nat): (r: Option<nat>)
    decreases |s| + 1 - from
    ensures r.Some? ==> from <= r.value && MatchesAt(s, p, r.value)
    ensures r.Some? ==> forall j :: r.value < j ==> !MatchesAt(s, p, j)
    ensures r.None? ==> forall j :: from <= j ==> !MatchesAt(s, p, j)
  {
    match FirstFrom(s, p, from)
    case None => None
    case Some(k) =>
      match LastFrom(s, p, k + 1)
      case Some(j) => Some(j)
      case None => Some(k)
  }

  /** Python's `t in s` on strings. */
  predicate Contains(s: string, t: string) {
    FirstFrom(s, Literal(t), 0).Some?
  }

  lemma ContainsAt(s: string, t: string, k: int)
    requires 0 <= k && k + |t| <= |s| && s[k..k + |t|] == t
    ensures Contains(s, t)
  {
    LiteralMatchesAt(s, t, k);
  }

  /** `t` occurs in `s` starting at position `k`. */
  predicate OccursAt(s: string, t: string, k: int) {
    0 <= k && k + |t| <= |s| && s[k..k + |t|] == t
  }

  /** `t in s` holds exactly when `t` occurs in `s` at some position. */
  lemma ContainsIff(s: string, t: string)
    ensures Contains(s, t) <==> exists k :: OccursAt(s, t, k)
  {
    if Contains(s, t) {
      var k := FirstFrom(s, Literal(t), 0).value;
      LiteralMatchesAt(s, t, k);
      assert OccursAt(s, t, k);
    }
    if exists k :: OccursAt(s, t, k) {
      var k :| OccursAt(s, t, k);
      ContainsAt(s, t, k);
    }
  }

  /** A text does not contain another text of its own length. */
  lemma NotContainsOther(s: string, t: string)
    requires |s| == |t| && s != t
    ensures !Contains(s, t)
  {
    ContainsIff(s, t);
    forall k ensures !OccursAt(s, t, k) {
      if 0 <= k && k + |t| <= |s| {
        assert s[k..k + |t|] == s;
      }
    }
  }

  /** Python's `s.startswith(t)`. */
  predicate StartsWith(s: string, t: string) {
    |t| <= |s| && s[..|t|] == t
  }

  /**
   * `re.search(open + '(.*?)' + close, s).group(1)`: the text after the
   * first `open` up to the first `close` that follows it. `Any` matches
   * every character while Python's `.` does not match a line break, so
   * this is `re.search` only on a subject without line breaks; every
   * subject searched in this model is one (`NoBreak`).
   */
  function SearchLazy(s: string, open: string, close: Pattern): Option<string> {
    match FirstFrom(s, Literal(open), 0)
    case None => None
    case Some(i) =>
      match FirstFrom(s, close, i + |open|)
      case None => None
      case Some(k) => Some(s[i + |open|..k])
  }

  /**
   * `re.search(open + '(.*)' + close, s).group(1)`: the text after the
   * first `open` up to the last `close` that follows it, on a subject
   * without line breaks (see `SearchLazy`).
   */
  function SearchGreedy(s: string, open: string, close: Pattern): Option<string> {
    match FirstFrom(s, Literal(open), 0)
    case None => None
    case Some(i) =>
      match LastFrom(s, close, i + |open|)
      case None => None
      case Some(k) => Some(s[i + |open|..k])
  }

  /**
   * Reference semantics of the regex `open(.*)close` (lazy or greedy) on a
   * subject without line breaks, where `.` matches every character: `open`
   * occurs at `i`, `close` at `k`, and the capture is `s[i + |open|..k]`.
   */
  ghost predicate RegexMatch(s: string, open: string, close: Pattern, i: int, k: int) {
    MatchesAt(s, Literal(open), i) && i + |open| <= k && MatchesAt(s, close, k)
  }

  /** Python's `re.search` finds the leftmost start and, for `.*?`, the shortest capture. */
  lemma SearchLazyIsLeftmostShortest(s: string, open: string, close: Pattern)
    requires '\n' !in s
    ensures SearchLazy(s, open, close).None? <==> forall i, k :: !RegexMatch(s, open, close, i, k)
    ensures SearchLazy(s, open, close).Some? ==>
      exists i, k :: RegexMatch(s, open, close, i, k) &&
        SearchLazy(s, open, close).value == s[i + |open|..k] &&
        (forall i', k' :: RegexMatch(s, open, close, i', k') ==> i <= i' && (i' == i ==> k <= k'))
  {
    match FirstFrom(s, Literal(open), 0)
    case None =>
    case Some(i) =>
      match FirstFrom(s, close, i + |open|)
      case None =>
        forall i', k' ensures !RegexMatch(s, open, close, i', k') {
        }
      case Some(k) =>
        assert RegexMatch(s, open, close, i, k);
  }

  /** Python's `re.search` finds the leftmost start and, for `.*`, the longest capture. */
  lemma SearchGreedyIsLeftmostLongest(s: string, open: string, close: Pattern)
    requires '\n' !in s
    ensures SearchGreedy(s, open, close).None? <==> forall i, k :: !RegexMatch(s, open, close, i, k)
    ensures SearchGreedy(s, open, close).Some? ==>
      exists i, k :: RegexMatch(s, open, close, i, k) &&
        SearchGreedy(s, open, close).value == s[i + |open|..k] &&
        (forall i', k' :: RegexMatch(s, open, close, i', k') ==> i <= i' && (i' == i ==> k' <= k))
  {
    match FirstFrom(s, Literal(open), 0)
    case None =>
    case Some(i) =>
      match LastFrom(s, close, i + |open|)
      case None =>
        forall i', k' ensures !RegexMatch(s, open, close, i', k') {
        }
      case Some(k) =>
        assert RegexMatch(s, open, close, i, k);
  }

  /** A text without line breaks: a piece of `s.split('\n')`, or a concatenation of such pieces. */
  predicate NoBreak(s: string) {
    '\n' !in s
  }

  lemma NoBreakConcat(a: string, b: string)
    requires NoBreak(a) && NoBreak(b)
    ensures NoBreak(a + b)
  {
    assert forall k :: 0 <= k < |a + b| ==> (a + b)[k] == if k < |a| then a[k] else b[k - |a|];
  }

  lemma SliceNoBreak(s: string, a: int, b: int)
    requires 0 <= a <= b <= |s| && NoBreak(s)
    ensures NoBreak(s[a..b])
  {
    assert forall k :: 0 <= k < b - a ==> s[a..b][k] == s[a + k];
  }

  /** A capture is a slice of its subject, so it holds no line break when the subject holds none. */
  lemma SearchNoBreak(s: string, open: string, close: Pattern)
    requires NoBreak(s)
    ensures SearchLazy(s, open, close).Some? ==> NoBreak(SearchLazy(s, open, close).value)
    ensures SearchGreedy(s, open, close).Some? ==> NoBreak(SearchGreedy(s, open, close).value)
  {
    match FirstFrom(s, Literal(open), 0)
    case None =>
    case Some(i) =>
      match FirstFrom(s, close, i + |open|) {
        case None =>
        case Some(k) => SliceNoBreak(s, i + |open|, k);
      }
      match LastFrom(s, close, i + |open|) {
        case None =>
        case Some(k) => SliceNoBreak(s, i + |open|, k);
      }
  }

  /** Python's `s.split('\n')`: never empty, and no piece holds a line break. */
  function SplitLines(s: string): (r: seq<string>)
    ensures |r| >= 1
    ensures forall i :: 0 <= i < |r| ==> '\n' !in r[i]
  {
    if s == [] then [""]
    else
      var rest := SplitLines(s[1..]);
      if s[0] == '\n' then [""] + rest
      else [[s[0]] + rest[0]] + rest[1..]
  }

  /** Python's `'\n'.join(ls)`. */
  function JoinLines(ls: seq<string>): string {
    if ls == [] then ""
    else if |ls| == 1 then ls[0]
    else ls[0] + "\n" + JoinLines(ls[1..])
  }

  predicate NoLineBreaks(ls: seq<string>) {
    forall i :: 0 <= i < |ls| ==> '\n' !in ls[i]
  }

  lemma NoLineBreaksCons(line: string, ls: seq<string>)
    requires NoBreak(line) && NoLineBreaks(ls)
    ensures NoLineBreaks([line] + ls)
  {
    assert forall k :: 0 < k <= |ls| ==> ([line] + ls)[k] == ls[k - 1];
  }

  lemma JoinLinesPrepend(c: char, ls: seq<string>)
    requires |ls| >= 1
    ensures JoinLines([[c] + ls[0]] + ls[1..]) == [c] + JoinLines(ls)
  {
  }

  /** Splitting loses nothing: joining the pieces gives the text back. */
  lemma {:induction false} JoinSplitLines(s: string)
    ensures JoinLines(SplitLines(s)) == s
  {
    if s != [] {
      var rest := SplitLines(s[1..]);
      JoinSplitLines(s[1..]);
      if s[0] == '\n' {
        assert JoinLines([""] + rest) == "" + "\n" + JoinLines(rest);
      } else {
        JoinLinesPrepend(s[0], rest);
      }
      assert s == [s[0]] + s[1..];
    }
  }

  lemma {:induction false} SplitNoBreak(a: string)
    requires '\n' !in a
    ensures SplitLines(a) == [a]
  {
    if a != [] {
      SplitNoBreak(a[1..]);
      assert a == [a[0]] + a[1..];
    }
  }

  lemma {:induction false} SplitAtBreak(a: string, b: string)
    requires '\n' !in a
    ensures SplitLines(a + "\n" + b) == [a] + SplitLines(b)
  {
    if a == [] {
      assert a + "\n" + b == "\n" + b;
      assert ("\n" + b)[1..] == b;
    } else {
      SplitAtBreak(a[1..], b);
      assert (a + "\n" + b)[1..] == a[1..] + "\n" + b;
      assert a == [a[0]] + a[1..];
    }
  }

  /** Joining newline-free lines and splitting again gives the lines back. */
  lemma {:induction false} SplitJoinLines(ls: seq<string>)
    requires |ls| >= 1 && NoLineBreaks(ls)
    ensures SplitLines(JoinLines(ls)) == ls
  {
    if |ls| == 1 {
      SplitNoBreak(ls[0]);
    } else {
      SplitJoinLines(ls[1..]);
      SplitAtBreak(ls[0], JoinLines(ls[1..]));
      assert ls == [ls[0]] + ls[1..];
    }
  }

  /** Python's `''.join(ls)`. */
  function Concat(ls: seq<string>): string {
    if ls == [] then "" else ls[0] + Concat(ls[1..])
  }

  /** `''.join(ls)` of lines without line breaks has none. */
  lemma {:induction false} ConcatNoBreak(ls: seq<string>)
    requires NoLineBreaks(ls)
    ensures NoBreak(Concat(ls))
  {
    if ls != [] {
      ConcatNoBreak(ls[1..]);
      NoBreakConcat(ls[0], Concat(ls[1..]));
    }
  }

  /** `str.lower()` on one character: ASCII and Latin-1 capitals. */
  function LowerChar(c: char): char {
    if 'A' <= c <= 'Z' || ('\U{C0}' <= c <= '\U{DE}' && c != '\U{D7}') then
      (c as int + 32) as char
    else c
  }

  /** Python's `s.lower()`. */
  function Lower(s: string): (r: string)
    ensures |r| == |s|
  {
    seq(|s|, i requires 0 <= i < |s| => LowerChar(s[i]))
  }

  lemma LowerIdempotent(s: string)
    ensures Lower(Lower(s)) == Lower(s)
  {
  }

  /** `str.upper()` on one character: ASCII and Latin-1 small letters. */
  function UpperChar(c: char): string {
    if 'a' <= c <= 'z' || ('\U{E0}' <= c <= '\U{FE}' && c != '\U{F7}') then [(c as int - 32) as char]
    else if c == '\U{DF}' then "SS"
    else if c == '\U{FF}' then ['\U{178}']
    else if c == '\U{B5}' then ['\U{39C}']
    else [c]
  }

  /** Python's `s.upper()`. */
  function Upper(s: string): (r: string)
    ensures |r| >= |s|
  {
    if s == [] then "" else UpperChar(s[0]) + Upper(s[1..])
  }

  /** Upper-casing a text that starts with one or two given characters. */
  lemma UpperPrefix(h: string, r: string)
    requires 1 <= |h| <= 2
    ensures Upper(h + r) == Upper(h) + Upper(r)
  {
    assert (h + r)[0] == h[0] && (h + r)[1..] == h[1..] + r;
    if |h| == 2 {
      var t := h[1..];
      assert (t + r)[0] == t[0] && (t + r)[1..] == r && t[1..] == "";
      assert Upper(t + r) == Upper(t) + Upper(r);
    } else {
      assert h[1..] + r == r;
    }
  }

  /** An upper-cased character upper-cases to itself. */
  lemma UpperCharFixed(c: char)
    ensures Upper(UpperChar(c)) == UpperChar(c)
  {
    var u := UpperChar(c);
    if |u| == 2 {
      assert u == "SS" && u[1..] == "S" && "S"[1..] == "";
    } else {
      assert u == [u[0]] && u[1..] == "";
      assert UpperChar(u[0]) == u;
    }
  }

  /** Upper-casing twice is upper-casing once. */
  lemma {:induction false} UpperIdempotent(s: string)
    ensures Upper(Upper(s)) == Upper(s)
  {
    if s != [] {
      var head, rest := UpperChar(s[0]), Upper(s[1..]);
      assert Upper(s) == head + rest;
      UpperPrefix(head, rest);
      UpperCharFixed(s[0]);
      UpperIdempotent(s[1..]);
    }
  }



}
