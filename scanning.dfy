/**
 * The fixed-tag regular expressions of the ISSN extraction script, matched
 * the way Ruby's `String#scan` and `=~` match them, without a general regex
 * engine:
 *   - `Element(open, close, dotAll)` is `open(.*?)close`, with `/m` when
 *     `dotAll` (otherwise the content cannot hold a newline);
 *   - `Tagged(prefix, close)` is `prefix(.*?)>(.*?)close` with `/m`;
 *   - `Alt(l, r)` is `l|r`.
 * A non-greedy group ends at the first closing string; if that fails, no
 * longer group can succeed (for a non-`/m` group the newline that made the
 * shortest fail is inside every longer one), so each match is determined
 * by `Find`.
 */
module Scanning {
  import opened Collections
  import opened Text

  datatype Pattern =
    | Element(open: string, close: string, dotAll: bool)
    | Tagged(prefix: string, close: string)
    | Alt(left: Pattern, right: Pattern)

  /** The captures of one match (`attributes` is the `Tagged` prefix group) and where it ends. */
  datatype Match = Match(attributes: string, content: string, end: nat)

  /** Every closing string is non-empty, so a match always moves the scan forward. */
  predicate WellFormed(pat: Pattern) {
    match pat
    case Element(_, close, _) => |close| > 0
    case Tagged(_, close) => |close| > 0
    case Alt(l, r) => WellFormed(l) && WellFormed(r)
  }

  /** The match of `pat` that starts exactly at position `p` of `s`, if any. */
  function MatchAt(s: string, p: nat, pat: Pattern): (r: Option<Match>)
    requires WellFormed(pat)
    ensures r.Some? ==> p < r.value.end <= |s|
  {
    match pat
    case Element(open, close, dotAll) => ElementAt(s, p, open, close, dotAll)
    case Tagged(prefix, close) => TaggedAt(s, p, prefix, close)
    case Alt(l, r) =>
      if MatchAt(s, p, l).Some? then MatchAt(s, p, l) else MatchAt(s, p, r)
  }

  /** `open(.*?)close` at `p`, where `.` also matches a newline only under `/m` (`dotAll`). */
  function ElementAt(s: string, p: nat, open: string, close: string, dotAll: bool): (r: Option<Match>)
    requires |close| > 0
    ensures r.Some? ==> p < r.value.end <= |s|
  {
    if !StartsAt(s, p, open) then None
    else
      match Find(s, close, p + |open|)
      case None => None
      case Some(q) =>
        if !dotAll && '\n' in s[p + |open|..q] then None
        else Some(Match("", s[p + |open|..q], q + |close|))
  }

  /** `prefix(.*?)>(.*?)close` under `/m` at `p`: the attributes run to the first `>`, the content to the first closing string after it. */
  function TaggedAt(s: string, p: nat, prefix: string, close: string): (r: Option<Match>)
    requires |close| > 0
    ensures r.Some? ==> p < r.value.end <= |s|
  {
    if !StartsAt(s, p, prefix) then None
    else
      match Find(s, ">", p + |prefix|)
      case None => None
      case Some(a) =>
        match Find(s, close, a + 1)
        case None => None
        case Some(q) => Some(Match(s[p + |prefix|..a], s[a + 1..q], q + |close|))
  }

  /** The leftmost match of `pat` at or after `from`, and where it starts. */
  function Leftmost(s: string, pat: Pattern, from: nat): (r: Option<(nat, Match)>)
    requires WellFormed(pat)
    ensures r.Some? ==> from <= r.value.0 <= |s| && MatchAt(s, r.value.0, pat) == Some(r.value.1)
    ensures r.Some? ==> forall p :: from <= p < r.value.0 ==> MatchAt(s, p, pat).None?
    ensures r.None? ==> forall p :: from <= p <= |s| ==> MatchAt(s, p, pat).None?
    decreases |s| - from
  {
    if from > |s| then None
    else if MatchAt(s, from, pat).Some? then Some((from, MatchAt(s, from, pat).value))
    else Leftmost(s, pat, from + 1)
  }

  /** The successive matches `s.scan(pat)` yields, searching from `from`. */
  function ScanFrom(s: string, pat: Pattern, from: nat): seq<Match>
    requires WellFormed(pat)
    decreases |s| - from
  {
    match Leftmost(s, pat, from)
    case None => []
    case Some((_, m)) => [m] + ScanFrom(s, pat, m.end)
  }

  /** The content groups of a sequence of matches. */
  function Contents(ms: seq<Match>): (cs: seq<string>)
    ensures |cs| == |ms|
    ensures forall i :: 0 <= i < |ms| ==> cs[i] == ms[i].content
  {
    if ms == [] then [] else [ms[0].content] + Contents(ms[1..])
  }

  /** One step of a scan: the leftmost match, then the scan resumed where it ends. */
  lemma ScanStep(s: string, pat: Pattern, pos: nat)
    requires WellFormed(pat) && Leftmost(s, pat, pos).Some?
    ensures var m := Leftmost(s, pat, pos).value.1;
            ScanFrom(s, pat, pos) == [m] + ScanFrom(s, pat, m.end)
            && Contents(ScanFrom(s, pat, pos)) == [m.content] + Contents(ScanFrom(s, pat, m.end))
  {
    var m := Leftmost(s, pat, pos).value.1;
    var rest := ScanFrom(s, pat, m.end);
    assert ([m] + rest)[1..] == rest;
  }

  /** `open + c + close` for every `c` of `cs`, one after another. */
  function Render(open: string, close: string, cs: seq<string>): string {
    if cs == [] then "" else open + cs[0] + close + Render(open, close, cs[1..])
  }

  /** `close` first occurs in `c + close` at its end. */
  predicate ClosesOnlyAtEnd(c: string, close: string) {
    forall j :: 0 <= j < |c| ==> !StartsAt(c + close, j, close)
  }

  /** Occurrences inside a slice of `s` are occurrences in `s`, shifted. */
  lemma OccurrenceInSlice(s: string, q: nat, t: string, j: nat, pat: string)
    requires q + |t| <= |s| && s[q..q + |t|] == t
    requires q <= j && j + |pat| <= q + |t|
    ensures StartsAt(s, j, pat) <==> StartsAt(t, j - q, pat)
  {
    var inS, inT := s[j..j + |pat|], t[j - q..j - q + |pat|];
    forall k | 0 <= k < |pat| ensures inS[k] == inT[k] {
      assert s[q..q + |t|][j - q + k] == s[j + k];
    }
    assert inS == inT;
  }

  lemma {:induction false} ClosingFound(s: string, q: nat, c: string, close: string)
    requires q + |c| + |close| <= |s| && s[q..q + |c| + |close|] == c + close
    requires ClosesOnlyAtEnd(c, close)
    ensures Find(s, close, q) == Some(q + |c|)
  {
    var t := c + close;
    OccurrenceInSlice(s, q, t, q + |c|, close);
    assert t[|c|..] == close;
    forall j | q <= j < q + |c| ensures !StartsAt(s, j, close) {
      OccurrenceInSlice(s, q, t, j, close);
    }
  }

  /** Where nothing is left to scan, a well-formed pattern finds nothing. */
  lemma NothingLeft(s: string, pat: Pattern, from: nat)
    requires WellFormed(pat) && from == |s|
    ensures ScanFrom(s, pat, from) == []
  {
  }

  /** A slice of a suffix is a slice of the whole. */
  lemma SliceOfSuffix(s: string, from: nat, a: nat, b: nat)
    requires from <= |s| && a <= b <= |s| - from
    ensures s[from..][a..b] == s[from + a..from + b]
  {
  }

  /**
   * An element whose content holds no early closing string (and no newline,
   * unless it is an `/m` element) matches at its opening string.
   */
  lemma ElementMatch(s: string, p: nat, open: string, close: string, c: string, dotAll: bool)
    requires |close| > 0 && StartsAt(s, p, open)
    requires p + |open| + |c| + |close| <= |s|
    requires s[p + |open|..p + |open| + |c| + |close|] == c + close
    requires ClosesOnlyAtEnd(c, close)
    requires dotAll || '\n' !in c
    ensures MatchAt(s, p, Element(open, close, dotAll)) == Some(Match("", c, p + |open| + |c| + |close|))
  {
    var q := p + |open|;
    ClosingFound(s, q, c, close);
    assert s[q..q + |c|] == c by {
      assert s[q..q + |c|] == s[q..q + |c| + |close|][..|c|];
    }
    ElementCase(s, p, open, close, dotAll, q + |c|);
  }

  /** An element matches from its opening string to the first closing string after it, unless a newline stands between them and `/m` is off. */
  lemma ElementCase(s: string, p: nat, open: string, close: string, dotAll: bool, q: nat)
    requires |close| > 0 && StartsAt(s, p, open) && Find(s, close, p + |open|) == Some(q)
    requires dotAll || '\n' !in s[p + |open|..q]
    ensures MatchAt(s, p, Element(open, close, dotAll)) == Some(Match("", s[p + |open|..q], q + |close|))
  {
  }

  /** An element whose content holds no early closing string is the leftmost match where its opening string stands. */
  lemma {:induction false} ElementAtStart(s: string, from: nat, open: string, close: string, c: string, rest: string)
    requires |close| > 0 && from <= |s|
    requires s[from..] == open + c + close + rest
    requires ClosesOnlyAtEnd(c, close)
    ensures Leftmost(s, Element(open, close, true), from)
              == Some((from, Match("", c, from + |open| + |c| + |close|)))
    ensures s[from + |open| + |c| + |close|..] == rest
  {
    var q := from + |open|;
    var e := q + |c| + |close|;
    assert StartsAt(s, from, open) by {
      SliceOfSuffix(s, from, 0, |open|);
      assert (open + c + close + rest)[..|open|] == open;
    }
    assert s[q..e] == c + close by {
      SliceOfSuffix(s, from, |open|, |open| + |c| + |close|);
      assert (open + c + close + rest)[|open|..|open| + |c| + |close|] == c + close;
    }
    ElementMatch(s, from, open, close, c, true);
    assert s[e..] == rest by {
      assert s[e..] == s[from..][|open| + |c| + |close|..];
      assert (open + c + close + rest)[|open| + |c| + |close|..] == rest;
    }
  }

  /**
   * Scanning a document made of `/m` elements whose contents hold no early
   * closing string yields exactly those contents, in order.
   */
  lemma {:induction false} ScanRendered(s: string, from: nat, open: string, close: string, cs: seq<string>)
    requires |close| > 0 && from <= |s|
    requires s[from..] == Render(open, close, cs)
    requires forall i :: 0 <= i < |cs| ==> ClosesOnlyAtEnd(cs[i], close)
    ensures Contents(ScanFrom(s, Element(open, close, true), from)) == cs
    decreases cs
  {
    var pat := Element(open, close, true);
    if cs == [] {
      NothingLeft(s, pat, from);
    } else {
      var c := cs[0];
      var rest := Render(open, close, cs[1..]);
      assert s[from..] == open + c + close + rest;
      ElementAtStart(s, from, open, close, c, rest);
      var m := Match("", c, from + |open| + |c| + |close|);
      ScanRendered(s, m.end, open, close, cs[1..]);
      assert ScanFrom(s, pat, from) == [m] + ScanFrom(s, pat, m.end);
    }
  }

  /** An element standing right after `pre` matches there, whatever follows it. */
  lemma ElementAfter(pre: string, open: string, close: string, c: string, post: string, dotAll: bool)
    requires |close| > 0 && ClosesOnlyAtEnd(c, close) && (dotAll || '\n' !in c)
    ensures MatchAt(pre + open + c + close + post, |pre|, Element(open, close, dotAll))
              == Some(Match("", c, |pre| + |open| + |c| + |close|))
  {
    var s := pre + open + c + close + post;
    var p, q := |pre|, |pre| + |open|;
    forall j | 0 <= j < |open| ensures s[p + j] == open[j] { }
    assert s[p..q] == open;
    forall j | 0 <= j < |c| + |close| ensures s[q + j] == (c + close)[j] { }
    assert s[q..q + |c| + |close|] == c + close;
    ElementMatch(s, p, open, close, c, dotAll);
  }

  /** An alternation takes its left alternative when that one matches. */
  lemma AltFirst(s: string, p: nat, l: Pattern, r: Pattern)
    requires WellFormed(l) && WellFormed(r) && MatchAt(s, p, l).Some?
    ensures MatchAt(s, p, Alt(l, r)) == MatchAt(s, p, l)
  {
  }

  /** An alternation falls back to its right alternative when the left one does not match. */
  lemma AltSecond(s: string, p: nat, l: Pattern, r: Pattern)
    requires WellFormed(l) && WellFormed(r) && MatchAt(s, p, l).None?
    ensures MatchAt(s, p, Alt(l, r)) == MatchAt(s, p, r)
  {
  }

  /** In an alternation of two elements, an element of the left kind is matched by the left alternative. */
  lemma LeftElementAfter(pre: string, left: Pattern, right: Pattern, c: string, post: string)
    requires left.Element? && !left.dotAll && |left.close| > 0 && WellFormed(right)
    requires ClosesOnlyAtEnd(c, left.close) && '\n' !in c
    ensures MatchAt(pre + left.open + c + left.close + post, |pre|, Alt(left, right))
              == Some(Match("", c, |pre| + |left.open| + |c| + |left.close|))
  {
    ElementAfter(pre, left.open, left.close, c, post, false);
    AltFirst(pre + left.open + c + left.close + post, |pre|, left, right);
  }

  /**
   * In an alternation of two elements whose opening strings differ at
   * position `k`, an element of the right kind is matched by the right alternative.
   */
  lemma RightElementAfter(pre: string, left: Pattern, right: Pattern, c: string, post: string, k: nat)
    requires left.Element? && right.Element? && WellFormed(left) && WellFormed(right) && !right.dotAll
    requires k < |left.open| && k < |right.open| && left.open[k] != right.open[k]
    requires ClosesOnlyAtEnd(c, right.close) && '\n' !in c
    ensures MatchAt(pre + right.open + c + right.close + post, |pre|, Alt(left, right))
              == Some(Match("", c, |pre| + |right.open| + |c| + |right.close|))
  {
    var s := pre + right.open + c + right.close + post;
    ElementAfter(pre, right.open, right.close, c, post, false);
    assert s[|pre| + k] == right.open[k];
    assert !StartsAt(s, |pre|, left.open) by {
      if |pre| + |left.open| <= |s| {
        assert s[|pre|..|pre| + |left.open|][k] == s[|pre| + k];
      }
    }
  }

  /**
   * In an alternation of two elements whose opening strings differ at
   * position `k`, an element `e` of either kind is matched by its own alternative.
   */
  lemma AltElementAfter(pre: string, left: Pattern, right: Pattern, e: Pattern, c: string, post: string, k: nat)
    requires left.Element? && right.Element? && WellFormed(left) && WellFormed(right) && !left.dotAll && !right.dotAll
    requires k < |left.open| && k < |right.open| && left.open[k] != right.open[k]
    requires e == left || e == right
    requires ClosesOnlyAtEnd(c, e.close) && '\n' !in c
    ensures MatchAt(pre + e.open + c + e.close + post, |pre|, Alt(left, right))
              == Some(Match("", c, |pre| + |e.open| + |c| + |e.close|))
  {
    if e == right {
      RightElementAfter(pre, left, e, c, post, k);
    } else {
      LeftElementAfter(pre, e, right, c, post);
    }
  }

  /** No element matches where its opening string does not stand. */
  lemma NoOpening(s: string, p: nat, open: string, close: string, dotAll: bool)
    requires |close| > 0 && !StartsAt(s, p, open)
    ensures MatchAt(s, p, Element(open, close, dotAll)).None?
  {
  }

  /** The leftmost match from `from` is at the first position that has one. */
  lemma LeftmostAt(s: string, pat: Pattern, from: nat, p: nat)
    requires WellFormed(pat) && from <= p <= |s|
    requires forall q :: from <= q < p ==> MatchAt(s, q, pat).None?
    requires MatchAt(s, p, pat).Some?
    ensures Leftmost(s, pat, from) == Some((p, MatchAt(s, p, pat).value))
  {
  }

  /** Elements without `/m`, and alternatives of them. */
  predicate SingleLine(pat: Pattern) {
    match pat
    case Element(_, _, dotAll) => !dotAll
    case Tagged(_, _) => false
    case Alt(l, r) => SingleLine(l) && SingleLine(r)
  }

  /** What a pattern without `/m` captures holds no newline. */
  lemma {:induction false} SingleLineContent(s: string, p: nat, pat: Pattern)
    requires WellFormed(pat) && SingleLine(pat) && MatchAt(s, p, pat).Some?
    ensures '\n' !in MatchAt(s, p, pat).value.content
  {
    match pat
    case Element(_, _, _) =>
    case Alt(l, r) =>
      if MatchAt(s, p, l).Some? {
        SingleLineContent(s, p, l);
      } else {
        SingleLineContent(s, p, r);
      }
  }

  /** The content of an element holds no occurrence of its closing string. */
  lemma ElementContentAvoidsClose(s: string, p: nat, open: string, close: string, dotAll: bool)
    requires |close| > 0 && MatchAt(s, p, Element(open, close, dotAll)).Some?
    ensures forall j :: 0 <= j < |MatchAt(s, p, Element(open, close, dotAll)).value.content| ==>
              !StartsAt(MatchAt(s, p, Element(open, close, dotAll)).value.content + close, j, close)
  {
    var m := MatchAt(s, p, Element(open, close, dotAll)).value;
    var q := p + |open|;
    var c := m.content;
    var t := c + close;
    assert s[q..q + |c|] == c;
    assert s[q + |c|..q + |c| + |close|] == close;
    assert s[q..q + |t|] == t;
    forall j | 0 <= j < |c| ensures !StartsAt(t, j, close) {
      OccurrenceInSlice(s, q, t, q + j, close);
    }
  }
}
