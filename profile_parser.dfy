/**
 * `parseProfileText` of the artist profile: every pattern's matches are collected
 * in scan order, stably sorted by start, and walked left to right with a cursor
 * that emits the text before each match as a text segment.
 */
module ProfileParser {
  import opened Wrappers
  import opened Seqs
  import opened ProfileGrammar

  datatype SegmentType = Text | Url | Artist | Release | Master | Label | Italic | Timespan | Bold

  /** One parsed segment; `url` and `id` are `undefined` (None) where the source leaves them out. */
  datatype Segment = Segment(kind: SegmentType, content: string, url: Option<string>, id: Option<string>)

  /** An entry of the `matches` array: the span of the tag and the segment it becomes. */
  datatype Match = Match(start: nat, end: nat, seg: Segment)

  /** The record pushed for one `exec` result of pattern `g`. */
  function Build(g: Grammar, r: RawMatch): Match {
    var seg := match g
      case UrlTag => Segment(Url, r.group2, Some(r.group1), None)
      case ArtistTag => Segment(Artist, r.group1, None, Some(r.group1))
      case ArtistIdTag => Segment(Artist, "Artist " + r.group1, None, Some(r.group1))
      case ReleaseTag => Segment(Release, "", None, Some(r.group1))
      case MasterTag => Segment(Master, "Master " + r.group1, None, Some(r.group1))
      case LabelTag => Segment(Label, r.group1, None, Some(r.group1))
      case LabelIdTag => Segment(Label, "Label " + r.group1, None, Some(r.group1))
      case ItalicTag => Segment(Italic, r.group1, None, None)
      case BoldTag => Segment(Bold, r.group1, None, None)
      case TimespanTag => Segment(Timespan, r.group1, None, None);
    Match(r.start, r.end, seg)
  }

  /** The records one pattern's loop pushes, from `lastIndex == from` on. */
  function GrammarMatches(g: Grammar, text: string, from: nat): seq<Match> {
    var rs := Scan(g, text, from);
    seq(|rs|, i requires 0 <= i < |rs| => Build(g, rs[i]))
  }

  /** The `matches` array after the loops of the patterns `gs`, in that order. */
  function CollectFrom(gs: seq<Grammar>, text: string): seq<Match>
    decreases |gs|
  {
    if gs == [] then []
    else CollectFrom(gs[..|gs| - 1], text) + GrammarMatches(gs[|gs| - 1], text, 0)
  }

  /** The `matches` array before sorting. */
  function AllMatches(text: string): seq<Match> {
    CollectFrom(ScanOrder, text)
  }

  // ---- The stable sort by start ----

  function Insert(x: Match, l: seq<Match>): (r: seq<Match>)
    ensures multiset(r) == multiset(l) + multiset{x}
    decreases |l|
  {
    if l == [] || x.start <= l[0].start then [x] + l
    else
      assert l == [l[0]] + l[1..];
      [l[0]] + Insert(x, l[1..])
  }

  /** `matches.sort((a, b) => a.start - b.start)`, a stable sort. */
  function SortByStart(ms: seq<Match>): (r: seq<Match>)
    ensures multiset(r) == multiset(ms)
    decreases |ms|
  {
    if ms == [] then []
    else
      assert ms == [ms[0]] + ms[1..];
      Insert(ms[0], SortByStart(ms[1..]))
  }

  predicate SortedByStart(ms: seq<Match>) {
    forall i, j :: 0 <= i < j < |ms| ==> ms[i].start <= ms[j].start
  }

  /** The matches starting at `k`, in their order in `ms`. */
  function WithStart(ms: seq<Match>, k: nat): seq<Match>
    decreases |ms|
  {
    if ms == [] then []
    else (if ms[0].start == k then [ms[0]] else []) + WithStart(ms[1..], k)
  }

  /** The matches in the order the segments are emitted. */
  function Ordered(text: string): seq<Match> {
    SortByStart(AllMatches(text))
  }

  // ---- The cursor walk ----

  /** A piece of the output: the input text from `from` to `to`, or a tag's segment. */
  datatype Piece = Gap(from: nat, to: nat) | Tag(m: Match)

  datatype Cursor = Cursor(pieces: seq<Piece>, index: nat)

  /** One iteration of the emitting loop: the text before `m` if the cursor is behind it, then `m`. */
  function Advance(c: Cursor, m: Match): Cursor {
    var gap := if c.index < m.start then [Gap(c.index, m.start)] else [];
    Cursor(c.pieces + gap + [Tag(m)], m.end)
  }

  /** The pieces pushed and `currentIndex` after the `for` loop has visited `ms`. */
  function Walk(ms: seq<Match>): Cursor
    decreases |ms|
  {
    if ms == [] then Cursor([], 0)
    else Advance(Walk(ms[..|ms| - 1]), ms[|ms| - 1])
  }

  /** All pieces, with the trailing text after the last match. */
  function Layout(n: nat, ms: seq<Match>): seq<Piece> {
    var c := Walk(ms);
    c.pieces + (if c.index < n then [Gap(c.index, n)] else [])
  }

  predicate InBounds(ms: seq<Match>, n: nat) {
    forall m :: m in ms ==> m.start < m.end <= n
  }

  predicate GapsInBounds(ps: seq<Piece>, n: nat) {
    forall i :: 0 <= i < |ps| && ps[i].Gap? ==> ps[i].from < ps[i].to <= n
  }

  function Render(text: string, p: Piece): Segment
    requires p.Gap? ==> p.from <= p.to <= |text|
  {
    match p
    case Gap(a, b) => Segment(Text, text[a..b], None, None)
    case Tag(m) => m.seg
  }

  function RenderAll(text: string, ps: seq<Piece>): (r: seq<Segment>)
    requires GapsInBounds(ps, |text|)
    ensures |r| == |ps|
  {
    seq(|ps|, i requires 0 <= i < |ps| => Render(text, ps[i]))
  }

  /** The segments `parseProfileText(text)` returns. */
  function ProfileSegments(text: string): seq<Segment> {
    var ms := Ordered(text);
    OrderedInBounds(text);
    LayoutInBounds(|text|, ms);
    RenderAll(text, Layout(|text|, ms))
  }

  // ---- Well-formedness facts the definitions rely on ----

  lemma GrammarMatchesInBounds(g: Grammar, text: string, from: nat)
    ensures InBounds(GrammarMatches(g, text, from), |text|)
  {
    var rs := Scan(g, text, from);
    var ms := GrammarMatches(g, text, from);
    forall m | m in ms ensures m.start < m.end <= |text| {
      var i :| 0 <= i < |ms| && ms[i] == m;
      assert m.start == rs[i].start && m.end == rs[i].end;
    }
  }

  lemma {:induction false} CollectInBounds(gs: seq<Grammar>, text: string)
    ensures InBounds(CollectFrom(gs, text), |text|)
    decreases |gs|
  {
    if gs != [] {
      CollectInBounds(gs[..|gs| - 1], text);
      GrammarMatchesInBounds(gs[|gs| - 1], text, 0);
    }
  }

  lemma OrderedInBounds(text: string)
    ensures InBounds(Ordered(text), |text|)
  {
    CollectInBounds(ScanOrder, text);
    var all := AllMatches(text);
    forall m | m in Ordered(text) ensures m.start < m.end <= |text| {
      assert m in multiset(Ordered(text));
      assert m in multiset(all);
    }
  }

  lemma {:induction false} WalkInBounds(n: nat, ms: seq<Match>)
    requires InBounds(ms, n)
    ensures GapsInBounds(Walk(ms).pieces, n) && Walk(ms).index <= n
    decreases |ms|
  {
    if ms != [] {
      var front := ms[..|ms| - 1];
      assert InBounds(front, n) by {
        forall m | m in front ensures m in ms { }
      }
      WalkInBounds(n, front);
      assert ms[|ms| - 1] in ms;
    }
  }

  lemma LayoutInBounds(n: nat, ms: seq<Match>)
    requires InBounds(ms, n)
    ensures GapsInBounds(Layout(n, ms), n)
  {
    WalkInBounds(n, ms);
  }

  // ---- The method ----

  /** The loop of one pattern: `while ((m = pattern.exec(text)) !== null) matches.push(...)`. */
  lemma GrammarMatchesStep(g: Grammar, text: string, from: nat)
    requires Exec(g, text, from).Some?
    ensures var m := Exec(g, text, from).value;
      GrammarMatches(g, text, from) == [Build(g, m)] + GrammarMatches(g, text, m.end)
  {
  }

  lemma RenderAppend(text: string, ps: seq<Piece>, p: Piece)
    requires GapsInBounds(ps + [p], |text|)
    ensures GapsInBounds(ps, |text|)
    ensures p.Gap? ==> p.from < p.to <= |text|
    ensures RenderAll(text, ps + [p]) == RenderAll(text, ps) + [Render(text, p)]
  {
    assert forall i :: 0 <= i < |ps| ==> (ps + [p])[i] == ps[i];
    assert (ps + [p])[|ps|] == p;
  }

  /** One step of the emitting loop, as the cursor walk sees it. */
  lemma WalkStep(ms: seq<Match>, i: nat, n: nat)
    requires i < |ms| && InBounds(ms, n)
    ensures Walk(ms[..i + 1]) == Advance(Walk(ms[..i]), ms[i])
    ensures GapsInBounds(Walk(ms[..i + 1]).pieces, n)
  {
    assert ms[..i + 1][..i] == ms[..i];
    WalkInBounds(n, ms[..i + 1]) by {
      forall m | m in ms[..i + 1] ensures m in ms { }
    }
  }

  /** The pattern loops: the `matches` array before sorting. */
  method CollectMatches(text: string) returns (matches: seq<Match>)
    ensures matches == AllMatches(text)
  {
    matches := [];
    for k := 0 to |ScanOrder|
      invariant matches == CollectFrom(ScanOrder[..k], text)
    {
      var g := ScanOrder[k];
      ghost var before := matches;
      var lastIndex := 0;
      while true
        invariant lastIndex <= |text|
        invariant matches + GrammarMatches(g, text, lastIndex) == before + GrammarMatches(g, text, 0)
        decreases |text| - lastIndex
      {
        var found := Exec(g, text, lastIndex);
        if found.None? {
          break;
        }
        GrammarMatchesStep(g, text, lastIndex);
        matches := matches + [Build(g, found.value)];
        lastIndex := found.value.end;
      }
      assert ScanOrder[..k + 1][..k] == ScanOrder[..k];
    }
    assert ScanOrder[..|ScanOrder|] == ScanOrder;
  }

  /** The emitting loop and the trailing text, over matches already sorted. */
  method EmitSegments(text: string, matches: seq<Match>) returns (segments: seq<Segment>)
    requires InBounds(matches, |text|)
    ensures GapsInBounds(Layout(|text|, matches), |text|)
    ensures segments == RenderAll(text, Layout(|text|, matches))
  {
    segments := [];
    var currentIndex := 0;
    for i := 0 to |matches|
      invariant currentIndex == Walk(matches[..i]).index
      invariant GapsInBounds(Walk(matches[..i]).pieces, |text|)
      invariant segments == RenderAll(text, Walk(matches[..i]).pieces)
    {
      var current := matches[i];
      assert current in matches;
      ghost var c := Walk(matches[..i]);
      WalkStep(matches, i, |text|);
      if currentIndex < current.start {
        RenderAppend(text, c.pieces + [Gap(currentIndex, current.start)], Tag(current));
        RenderAppend(text, c.pieces, Gap(currentIndex, current.start));
        segments := segments + [Segment(Text, text[currentIndex..current.start], None, None)];
      } else {
        RenderAppend(text, c.pieces, Tag(current));
      }
      segments := segments + [current.seg];
      currentIndex := current.end;
    }
    assert matches[..|matches|] == matches;
    LayoutInBounds(|text|, matches);
    if currentIndex < |text| {
      RenderAppend(text, Walk(matches).pieces, Gap(currentIndex, |text|));
      assert text[currentIndex..] == text[currentIndex..|text|];
      segments := segments + [Segment(Text, text[currentIndex..], None, None)];
    } else {
      assert Layout(|text|, matches) == Walk(matches).pieces;
    }
  }

  method ParseProfileText(text: string) returns (segments: seq<Segment>)
    ensures segments == ProfileSegments(text)
  {
    var matches := CollectMatches(text);
    matches := SortByStart(matches);
    OrderedInBounds(text);
    segments := EmitSegments(text, matches);
  }
}
