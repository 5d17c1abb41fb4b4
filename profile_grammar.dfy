/**
 * The ten bracket-tag patterns of the artist-profile parser, each written out as
 * the matcher the regular-expression engine runs for it, and the global `exec`
 * loop that collects one pattern's matches left to right.
 *
 * Each pattern has the shape  opener, a run of one character class (group 1),
 * then a closer; the url pattern has a second run (group 2) between `]` and
 * `[/url]`. A run matches greedily, and because the character that follows the
 * run in the pattern is never in the run's class, backtracking into a run can
 * never succeed: the match at a position, when there is one, is the greedy one.
 */
module ProfileGrammar {
  import opened Wrappers
  import opened Strings

  /** The patterns, in the order the parser scans them. */
  datatype Grammar =
    | UrlTag | ArtistTag | ArtistIdTag | ReleaseTag | MasterTag
    | LabelTag | LabelIdTag | ItalicTag | BoldTag | TimespanTag

  const ScanOrder: seq<Grammar> :=
    [UrlTag, ArtistTag, ArtistIdTag, ReleaseTag, MasterTag, LabelTag, LabelIdTag, ItalicTag, BoldTag, TimespanTag]

  /** The character classes of the runs: `[^\]]`, `[^\[]` and `\d`. */
  datatype CharClass = NotClose | NotOpen | Digit

  predicate InClass(k: CharClass, c: char) {
    match k
    case NotClose => c != ']'
    case NotOpen => c != '['
    case Digit => IsDigit(c)
  }

  predicate AllInClass(k: CharClass, s: string) {
    forall i :: 0 <= i < |s| ==> InClass(k, s[i])
  }

  /**
   * A pattern's fixed parts: `opener`, then group 1 (a run of `cls`), then `closer`;
   * with `labelled`, group 2 (a run of `NotOpen`) and `[/url]` follow.
   */
  datatype Pattern = Pattern(opener: string, cls: CharClass, closer: string, labelled: bool)

  function PatternOf(g: Grammar): (pat: Pattern)
    ensures |pat.closer| > 0 && !InClass(pat.cls, pat.closer[0])
    ensures pat.labelled <==> g == UrlTag
    ensures pat.labelled ==> pat.closer == "]"
  {
    match g
    case UrlTag => Pattern("[url=", NotClose, "]", true)
    case ArtistTag => Pattern("[a=", NotClose, "]", false)
    case ArtistIdTag => Pattern("[a", Digit, "]", false)
    case ReleaseTag => Pattern("[r=", NotClose, "]", false)
    case MasterTag => Pattern("[m=", Digit, "]", false)
    case LabelTag => Pattern("[l=", NotClose, "]", false)
    case LabelIdTag => Pattern("[l", Digit, "]", false)
    case ItalicTag => Pattern("[i]", NotOpen, "[/i]", false)
    case BoldTag => Pattern("[b]", NotOpen, "[/b]", false)
    case TimespanTag => Pattern("[u]", NotOpen, "[/u]", false)
  }

  /** A pattern whose closer starts with a character group 1 cannot contain. */
  predicate WellFormed(pat: Pattern) {
    |pat.closer| > 0 && !InClass(pat.cls, pat.closer[0])
  }

  const UrlEnd := "[/url]"

  /** The outcome of one `exec`: where the whole match starts and ends, and the groups (group 2 is "" when absent). */
  datatype RawMatch = RawMatch(start: nat, end: nat, group1: string, group2: string)

  /** The text a tag with the given groups occupies in the input. */
  function PatternText(pat: Pattern, group1: string, group2: string): string {
    if pat.labelled then pat.opener + group1 + pat.closer + group2 + UrlEnd
    else pat.opener + group1 + pat.closer
  }

  function TagText(g: Grammar, group1: string, group2: string): string {
    PatternText(PatternOf(g), group1, group2)
  }

  /** The groups a match can capture: non-empty runs of their classes. */
  predicate PatternGroups(pat: Pattern, group1: string, group2: string) {
    && |group1| > 0 && AllInClass(pat.cls, group1)
    && (if pat.labelled then |group2| > 0 && AllInClass(NotOpen, group2) else group2 == "")
  }

  predicate ValidGroups(g: Grammar, group1: string, group2: string) {
    PatternGroups(PatternOf(g), group1, group2)
  }

  /** End of the longest run of class `k` starting at `i`. */
  function RunEnd(s: string, i: nat, k: CharClass): (j: nat)
    requires i <= |s|
    ensures i <= j <= |s|
    decreases |s| - i
  {
    if i < |s| && InClass(k, s[i]) then RunEnd(s, i + 1, k) else i
  }

  /** The run is of class `k` throughout and is longest: the next character, if any, is outside `k`. */
  lemma {:induction false} RunEndSpec(s: string, i: nat, k: CharClass)
    requires i <= |s|
    ensures forall t :: i <= t < RunEnd(s, i, k) ==> InClass(k, s[t])
    ensures RunEnd(s, i, k) == |s| || !InClass(k, s[RunEnd(s, i, k)])
    decreases |s| - i
  {
    if i < |s| && InClass(k, s[i]) {
      RunEndSpec(s, i + 1, k);
    }
  }

  /**
   * A capturing group at `i`: the longest run of class `k`, which must be
   * non-empty and followed by `closer`; the result is where the run ends.
   */
  function GroupRun(s: string, i: nat, k: CharClass, closer: string): (j: Option<nat>)
    requires i <= |s|
    ensures j.Some? ==> i < j.value <= |s| && j.value == RunEnd(s, i, k) && HasAt(s, j.value, closer)
  {
    var e := RunEnd(s, i, k);
    if e == i || !HasAt(s, e, closer) then None else Some(e)
  }

  /** A pattern tried at position `p` only. */
  function MatchPattern(pat: Pattern, s: string, p: nat): (r: Option<RawMatch>)
    requires p <= |s|
    ensures r.Some? ==> r.value.start == p && p < r.value.end <= |s|
  {
    var o := pat.opener;
    if !HasAt(s, p, o) then None
    else match GroupRun(s, p + |o|, pat.cls, pat.closer)
      case None => None
      case Some(q) =>
        if !pat.labelled then Some(RawMatch(p, q + |pat.closer|, s[p + |o|..q], ""))
        else MatchLabel(s, p, s[p + |o|..q], q + |pat.closer|)
  }

  /** The rest of a `[url=…]` match once group 1 and `]` are read: the label at `c`, then `[/url]`. */
  function MatchLabel(s: string, p: nat, group1: string, c: nat): (r: Option<RawMatch>)
    requires p < c <= |s|
    ensures r.Some? ==> r.value.start == p && p < r.value.end <= |s|
  {
    match GroupRun(s, c, NotOpen, UrlEnd)
    case None => None
    case Some(e) => Some(RawMatch(p, e + |UrlEnd|, group1, s[c..e]))
  }

  /** The pattern `g` tried at position `p` only. */
  function MatchAt(g: Grammar, s: string, p: nat): (r: Option<RawMatch>)
    requires p <= |s|
    ensures r.Some? ==> r.value.start == p && p < r.value.end <= |s|
  {
    MatchPattern(PatternOf(g), s, p)
  }

  /** `pattern.exec(s)` with `lastIndex == from`: the leftmost match at or after `from`. */
  function Exec(g: Grammar, s: string, from: nat): (r: Option<RawMatch>)
    ensures r.Some? ==> from <= r.value.start <= |s| && MatchAt(g, s, r.value.start) == r
    ensures r.Some? ==> forall q :: from <= q < r.value.start ==> MatchAt(g, s, q).None?
    ensures r.None? ==> forall q :: from <= q <= |s| ==> MatchAt(g, s, q).None?
    decreases |s| - from
  {
    if from > |s| then None
    else
      var m := MatchAt(g, s, from);
      if m.Some? then m else Exec(g, s, from + 1)
  }

  /**
   * The matches the loop `while ((m = pattern.exec(text)) !== null)` sees, starting
   * from `lastIndex == from`; each `exec` moves `lastIndex` to the end of its match.
   */
  function Scan(g: Grammar, s: string, from: nat): (r: seq<RawMatch>)
    ensures forall i :: 0 <= i < |r| ==> from <= r[i].start < r[i].end <= |s|
    decreases |s| - from
  {
    var e := Exec(g, s, from);
    if e.None? then [] else [e.value] + Scan(g, s, e.value.end)
  }

  // ---- What one attempt captures ----

  /** A match is exactly a tag's text, with groups of the right classes. */
  lemma MatchAtSound(g: Grammar, s: string, p: nat)
    requires p <= |s| && MatchAt(g, s, p).Some?
    ensures var m := MatchAt(g, s, p).value;
      && m.end == p + |TagText(g, m.group1, m.group2)|
      && HasAt(s, p, TagText(g, m.group1, m.group2))
      && ValidGroups(g, m.group1, m.group2)
  {
    PatternSound(PatternOf(g), s, p);
  }

  lemma PatternSound(pat: Pattern, s: string, p: nat)
    requires p <= |s| && MatchPattern(pat, s, p).Some?
    ensures var m := MatchPattern(pat, s, p).value;
      && m.end == p + |PatternText(pat, m.group1, m.group2)|
      && HasAt(s, p, PatternText(pat, m.group1, m.group2))
      && PatternGroups(pat, m.group1, m.group2)
  {
    if pat.labelled {
      LabelledSound(pat, s, p);
    } else {
      PlainSound(pat, s, p);
    }
  }

  lemma PlainSound(pat: Pattern, s: string, p: nat)
    requires p <= |s| && !pat.labelled && MatchPattern(pat, s, p).Some?
    ensures var m := MatchPattern(pat, s, p).value;
      && m.end == p + |pat.opener + m.group1 + pat.closer| && m.group2 == ""
      && HasAt(s, p, pat.opener + m.group1 + pat.closer)
      && |m.group1| > 0 && AllInClass(pat.cls, m.group1)
  {
    var o := pat.opener;
    var q := GroupRun(s, p + |o|, pat.cls, pat.closer).value;
    RunInClass(s, p + |o|, pat.cls);
    var group1 := s[p + |o|..q];
    HasAtJoin(s, p, o, group1);
    HasAtJoin(s, p, o + group1, pat.closer);
  }

  lemma LabelledSound(pat: Pattern, s: string, p: nat)
    requires p <= |s| && pat.labelled && MatchPattern(pat, s, p).Some?
    ensures var m := MatchPattern(pat, s, p).value;
      && m.end == p + |pat.opener + m.group1 + pat.closer + m.group2 + UrlEnd|
      && HasAt(s, p, pat.opener + m.group1 + pat.closer + m.group2 + UrlEnd)
      && |m.group1| > 0 && AllInClass(pat.cls, m.group1)
      && |m.group2| > 0 && AllInClass(NotOpen, m.group2)
  {
    var o := pat.opener;
    assert HasAt(s, p, o) && GroupRun(s, p + |o|, pat.cls, pat.closer).Some?;
    var q := GroupRun(s, p + |o|, pat.cls, pat.closer).value;
    LabelledStep(pat, s, p, q);
    var group1 := s[p + |o|..q];
    var c := q + |pat.closer|;
    assert MatchLabel(s, p, group1, c).Some?;
    var e := GroupRun(s, c, NotOpen, UrlEnd).value;
    var group2 := s[c..e];
    assert MatchPattern(pat, s, p).value == RawMatch(p, e + |UrlEnd|, group1, group2);
    RunInClass(s, p + |o|, pat.cls);
    RunInClass(s, c, NotOpen);
    assert LabelledAt(s, p, pat, group1, group2);
    LabelledLayout(s, p, pat, group1, group2);
  }

  /** The five parts of a `[url=…]…[/url]` tag, each at its position. */
  predicate LabelledAt(s: string, p: nat, pat: Pattern, group1: string, group2: string) {
    var q := p + |pat.opener| + |group1|;
    var c := q + |pat.closer|;
    && HasAt(s, p, pat.opener) && HasAt(s, p + |pat.opener|, group1) && HasAt(s, q, pat.closer)
    && HasAt(s, c, group2) && HasAt(s, c + |group2|, UrlEnd)
  }

  lemma LabelledLayout(s: string, p: nat, pat: Pattern, group1: string, group2: string)
    ensures HasAt(s, p, pat.opener + group1 + pat.closer + group2 + UrlEnd) <==> LabelledAt(s, p, pat, group1, group2)
  {
    var a := pat.opener;
    var b := a + group1;
    var c := b + pat.closer;
    var d := c + group2;
    HasAtConcat(s, p, d, UrlEnd);
    HasAtConcat(s, p, c, group2);
    HasAtConcat(s, p, b, pat.closer);
    HasAtConcat(s, p, a, group1);
  }

  lemma HasAtConcat(s: string, p: nat, x: string, y: string)
    ensures HasAt(s, p, x + y) <==> HasAt(s, p, x) && HasAt(s, p + |x|, y)
  {
    if HasAt(s, p, x + y) {
      HasAtSplit(s, p, x, y);
    }
    if HasAt(s, p, x) && HasAt(s, p + |x|, y) {
      HasAtJoin(s, p, x, y);
    }
  }

  /** The run found by `RunEnd` is a string of its class. */
  lemma RunInClass(s: string, i: nat, k: CharClass)
    requires i <= |s|
    ensures AllInClass(k, s[i..RunEnd(s, i, k)])
  {
    var j := RunEnd(s, i, k);
    RunEndSpec(s, i, k);
    forall t | 0 <= t < j - i ensures InClass(k, s[i..j][t]) {
      assert s[i..j][t] == s[i + t];
    }
  }

  /** Conversely, a tag's text with groups of the right classes is matched, with those groups. */
  lemma MatchAtComplete(g: Grammar, s: string, p: nat, group1: string, group2: string)
    requires ValidGroups(g, group1, group2) && HasAt(s, p, TagText(g, group1, group2))
    ensures MatchAt(g, s, p) == Some(RawMatch(p, p + |TagText(g, group1, group2)|, group1, group2))
  {
    PatternComplete(PatternOf(g), s, p, group1, group2);
  }

  lemma PatternComplete(pat: Pattern, s: string, p: nat, group1: string, group2: string)
    requires WellFormed(pat) && PatternGroups(pat, group1, group2) && HasAt(s, p, PatternText(pat, group1, group2))
    ensures MatchPattern(pat, s, p) == Some(RawMatch(p, p + |PatternText(pat, group1, group2)|, group1, group2))
  {
    if pat.labelled {
      LabelledComplete(pat, s, p, group1, group2);
    } else {
      PlainComplete(pat, s, p, group1);
    }
  }

  lemma PlainComplete(pat: Pattern, s: string, p: nat, group1: string)
    requires WellFormed(pat) && !pat.labelled && |group1| > 0 && AllInClass(pat.cls, group1)
    requires HasAt(s, p, pat.opener + group1 + pat.closer)
    ensures MatchPattern(pat, s, p) == Some(RawMatch(p, p + |pat.opener + group1 + pat.closer|, group1, ""))
  {
    var o := pat.opener;
    HasAtSplit(s, p, o + group1, pat.closer);
    HasAtSplit(s, p, o, group1);
    GroupRunComplete(s, p + |o|, pat.cls, pat.closer, group1);
  }

  lemma LabelledComplete(pat: Pattern, s: string, p: nat, group1: string, group2: string)
    requires WellFormed(pat) && pat.labelled && |group1| > 0 && AllInClass(pat.cls, group1)
    requires |group2| > 0 && AllInClass(NotOpen, group2)
    requires HasAt(s, p, pat.opener + group1 + pat.closer + group2 + UrlEnd)
    ensures MatchPattern(pat, s, p) == Some(RawMatch(p, p + |pat.opener + group1 + pat.closer + group2 + UrlEnd|, group1, group2))
  {
    LabelledLayout(s, p, pat, group1, group2);
    LabelledMatches(pat, s, p, group1, group2);
  }

  lemma LabelledMatches(pat: Pattern, s: string, p: nat, group1: string, group2: string)
    requires WellFormed(pat) && pat.labelled && |group1| > 0 && AllInClass(pat.cls, group1)
    requires |group2| > 0 && AllInClass(NotOpen, group2) && LabelledAt(s, p, pat, group1, group2)
    ensures MatchPattern(pat, s, p) == Some(RawMatch(p, p + |pat.opener| + |group1| + |pat.closer| + |group2| + |UrlEnd|, group1, group2))
  {
    var o := pat.opener;
    var q := p + |o| + |group1|;
    var c := q + |pat.closer|;
    GroupRunComplete(s, p + |o|, pat.cls, pat.closer, group1);
    LabelledStep(pat, s, p, q);
    assert MatchPattern(pat, s, p) == MatchLabel(s, p, group1, c);
    LabelComplete(s, p, group1, c, group2);
  }

  lemma LabelComplete(s: string, p: nat, group1: string, c: nat, group2: string)
    requires p < c && |group2| > 0 && AllInClass(NotOpen, group2)
    requires HasAt(s, c, group2) && HasAt(s, c + |group2|, UrlEnd)
    ensures MatchLabel(s, p, group1, c) == Some(RawMatch(p, c + |group2| + |UrlEnd|, group1, group2))
  {
    GroupRunComplete(s, c, NotOpen, UrlEnd, group2);
  }

  /** Once group 1 of a `[url=…]` match ends at `q`, the outcome is that of the label. */
  lemma LabelledStep(pat: Pattern, s: string, p: nat, q: nat)
    requires pat.labelled && p <= |s| && HasAt(s, p, pat.opener)
    requires GroupRun(s, p + |pat.opener|, pat.cls, pat.closer) == Some(q)
    ensures MatchPattern(pat, s, p) == MatchLabel(s, p, s[p + |pat.opener|..q], q + |pat.closer|)
  {
  }

  /**
   * A group's text followed by its closer is captured whole: the greedy run
   * stops exactly before the closer, whose first character the group's class
   * does not admit (`]` for `[^\]]+` and `\d+`, `[` for `[^\[]+`).
   */
  lemma GroupRunComplete(s: string, i: nat, k: CharClass, closer: string, run: string)
    requires |run| > 0 && AllInClass(k, run) && HasAt(s, i, run)
    requires |closer| > 0 && !InClass(k, closer[0]) && HasAt(s, i + |run|, closer)
    ensures GroupRun(s, i, k, closer) == Some(i + |run|) && s[i..i + |run|] == run
  {
    assert s[i + |run|] == closer[0];
    RunStopsAt(s, i, i + |run|, k, run);
  }

  lemma HasAtJoin(s: string, p: nat, x: string, y: string)
    requires HasAt(s, p, x) && HasAt(s, p + |x|, y)
    ensures HasAt(s, p, x + y)
  {
    assert s[p..p + |x| + |y|] == s[p..p + |x|] + s[p + |x|..p + |x| + |y|];
  }

  lemma HasAtSplit(s: string, p: nat, x: string, y: string)
    requires HasAt(s, p, x + y)
    ensures HasAt(s, p, x) && HasAt(s, p + |x|, y)
  {
    assert s[p..p + |x|] == s[p..p + |x| + |y|][..|x|] == (x + y)[..|x|] == x;
    assert s[p + |x|..p + |x| + |y|] == s[p..p + |x| + |y|][|x|..] == (x + y)[|x|..] == y;
  }

  /**
   * A run `run` of class `k` at `i` whose next character is outside `k` is the
   * longest run there. The character after `run` in a tag is the first of the
   * closer, which no run class admits.
   */
  lemma RunStopsAt(s: string, i: nat, j: nat, k: CharClass, run: string)
    requires HasAt(s, i, run) && j == i + |run| && AllInClass(k, run)
    requires j < |s| && !InClass(k, s[j])
    ensures RunEnd(s, i, k) == j
  {
    forall t | i <= t < j ensures InClass(k, s[t]) {
      assert s[t] == run[t - i];
    }
    RunStopsAtFrom(s, i, j, k);
  }

  lemma {:induction false} RunStopsAtFrom(s: string, i: nat, j: nat, k: CharClass)
    requires i <= j < |s| && !InClass(k, s[j])
    requires forall t :: i <= t < j ==> InClass(k, s[t])
    ensures RunEnd(s, i, k) == j
    decreases j - i
  {
    if i < j {
      RunStopsAtFrom(s, i + 1, j, k);
    }
  }

  // ---- What the exec loop collects ----

  /** Every collected match is the pattern's match at its start. */
  lemma {:induction false} ScanSound(g: Grammar, s: string, from: nat)
    ensures forall i :: 0 <= i < |Scan(g, s, from)| ==>
      var m := Scan(g, s, from)[i]; MatchAt(g, s, m.start) == Some(m)
    decreases |s| - from
  {
    var e := Exec(g, s, from);
    if e.Some? {
      ScanSound(g, s, e.value.end);
    }
  }

  /** Matches in text order that do not overlap. */
  predicate Disjoint(r: seq<RawMatch>) {
    forall i, j :: 0 <= i < j < |r| ==> r[i].end <= r[j].start
  }

  /** The collected matches do not overlap and come in the order of the text. */
  lemma {:induction false} ScanDisjoint(g: Grammar, s: string, from: nat)
    ensures Disjoint(Scan(g, s, from))
    decreases |s| - from
  {
    var e := Exec(g, s, from);
    if e.Some? {
      var m := e.value;
      var rest := Scan(g, s, m.end);
      ScanDisjoint(g, s, m.end);
      DisjointCons(m, rest);
    }
  }

  lemma DisjointCons(m: RawMatch, rest: seq<RawMatch>)
    requires Disjoint(rest) && forall k :: 0 <= k < |rest| ==> m.end <= rest[k].start
    ensures Disjoint([m] + rest)
  {
    var r := [m] + rest;
    forall i, j | 0 <= i < j < |r| ensures r[i].end <= r[j].start {
      assert r[j] == rest[j - 1];
      if i > 0 {
        assert r[i] == rest[i - 1];
      }
    }
  }

  /** `q` lies inside the span of one of the collected matches. */
  predicate Covered(r: seq<RawMatch>, q: nat) {
    exists i :: 0 <= i < |r| && r[i].start <= q < r[i].end
  }

  /**
   * Leftmost matching: every position at or after `from` where the pattern would
   * match lies inside a collected match (at its start, or inside a match found
   * further left that hides it).
   */
  lemma {:induction false} ScanLeftmost(g: Grammar, s: string, from: nat)
    ensures forall q :: from <= q <= |s| && MatchAt(g, s, q).Some? ==> Covered(Scan(g, s, from), q)
    decreases |s| - from
  {
    var r := Scan(g, s, from);
    var e := Exec(g, s, from);
    if e.Some? {
      var m := e.value;
      ScanLeftmost(g, s, m.end);
      var rest := Scan(g, s, m.end);
      assert r == [m] + rest;
      forall q | from <= q <= |s| && MatchAt(g, s, q).Some? ensures Covered(r, q) {
        if q < m.end {
          assert r[0].start <= q < r[0].end;
        } else {
          assert Covered(rest, q);
          var i :| 0 <= i < |rest| && rest[i].start <= q < rest[i].end;
          assert r[i + 1] == rest[i];
        }
      }
    }
  }
}
