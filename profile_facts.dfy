/** What `parseProfileText` guarantees about the segments it returns. */
module ProfileFacts {
  import opened Wrappers
  import opened Strings
  import opened ProfileGrammar
  import opened ProfileParser

  // ---- The sort ----

  lemma {:induction false} InsertSorted(x: Match, l: seq<Match>)
    requires SortedByStart(l)
    ensures SortedByStart(Insert(x, l))
    decreases |l|
  {
    if l == [] || x.start <= l[0].start {
      forall y | y in l ensures x.start <= y.start {
        var m :| 0 <= m < |l| && l[m] == y;
      }
      ConsSorted(x, l);
    } else {
      var tail := l[1..];
      InsertSorted(x, tail);
      InsertMembers(x, tail);
      forall y | y in tail ensures l[0].start <= y.start {
        var m :| 0 <= m < |tail| && tail[m] == y;
        assert l[m + 1] == y;
      }
      ConsSorted(l[0], Insert(x, tail));
    }
  }

  /** Every element of an insertion is the inserted match or one of the list. */
  lemma InsertMembers(x: Match, l: seq<Match>)
    ensures forall y :: y in Insert(x, l) ==> y == x || y in l
  {
    forall y | y in Insert(x, l) ensures y == x || y in l {
      assert y in multiset(Insert(x, l));
    }
  }

  lemma ConsSorted(h: Match, r: seq<Match>)
    requires SortedByStart(r) && forall y :: y in r ==> h.start <= y.start
    ensures SortedByStart([h] + r)
  {
    var out := [h] + r;
    forall i, j | 0 <= i < j < |out| ensures out[i].start <= out[j].start {
      assert out[j] == r[j - 1];
      if i > 0 {
        assert out[i] == r[i - 1];
      }
    }
  }

  /** The result of the sort is ordered by start. */
  lemma {:induction false} SortSorted(ms: seq<Match>)
    ensures SortedByStart(SortByStart(ms))
    decreases |ms|
  {
    if ms != [] {
      SortSorted(ms[1..]);
      InsertSorted(ms[0], SortByStart(ms[1..]));
    }
  }

  lemma {:induction false} InsertWithStart(x: Match, l: seq<Match>, k: nat)
    ensures WithStart(Insert(x, l), k) == (if x.start == k then [x] else []) + WithStart(l, k)
    decreases |l|
  {
    if l == [] || x.start <= l[0].start {
      var r := [x] + l;
      assert r[0] == x && r[1..] == l;
    } else {
      InsertWithStart(x, l[1..], k);
      var r := [l[0]] + Insert(x, l[1..]);
      assert r[0] == l[0] && r[1..] == Insert(x, l[1..]);
      assert WithStart(r, k) == (if l[0].start == k then [l[0]] else []) + WithStart(Insert(x, l[1..]), k);
      assert WithStart(l, k) == (if l[0].start == k then [l[0]] else []) + WithStart(l[1..], k);
      if x.start == k {
        assert l[0].start != k;
      }
    }
  }

  /**
   * The sort is stable: matches with the same start keep the order in which the
   * pattern loops pushed them.
   */
  lemma {:induction false} SortStable(ms: seq<Match>, k: nat)
    ensures WithStart(SortByStart(ms), k) == WithStart(ms, k)
    decreases |ms|
  {
    if ms != [] {
      SortStable(ms[1..], k);
      InsertWithStart(ms[0], SortByStart(ms[1..]), k);
    }
  }

  /** The emitted tags are the collected matches, each once: a permutation ordered by start, stable. */
  lemma OrderedIsStableSort(text: string, k: nat)
    ensures multiset(Ordered(text)) == multiset(AllMatches(text))
    ensures SortedByStart(Ordered(text))
    ensures WithStart(Ordered(text), k) == WithStart(AllMatches(text), k)
  {
    SortSorted(AllMatches(text));
    SortStable(AllMatches(text), k);
  }

  // ---- Where the collected matches come from ----

  lemma GrammarMatchSound(g: Grammar, text: string, m: Match)
    requires m in GrammarMatches(g, text, 0)
    ensures exists group1, group2 :: FromTag(text, m, g, group1, group2)
  {
    var rs := Scan(g, text, 0);
    var i :| 0 <= i < |rs| && GrammarMatches(g, text, 0)[i] == m;
    ScanSound(g, text, 0);
    var r := rs[i];
    assert MatchAt(g, text, r.start) == Some(r);
    MatchAtSound(g, text, r.start);
    assert FromTag(text, m, g, r.group1, r.group2);
  }

  /** `m` is what pattern `g` yields for the tag text with these groups at `m`'s span. */
  predicate FromTag(text: string, m: Match, g: Grammar, group1: string, group2: string) {
    && ValidGroups(g, group1, group2)
    && HasAt(text, m.start, TagText(g, group1, group2))
    && m.end == m.start + |TagText(g, group1, group2)|
    && m == Build(g, RawMatch(m.start, m.end, group1, group2))
  }

  lemma {:induction false} CollectSound(gs: seq<Grammar>, text: string, m: Match)
    requires m in CollectFrom(gs, text)
    ensures exists g, group1, group2 :: g in gs && FromTag(text, m, g, group1, group2)
    decreases |gs|
  {
    var front := gs[..|gs| - 1];
    var g := gs[|gs| - 1];
    if m in CollectFrom(front, text) {
      CollectSound(front, text, m);
      var g', group1, group2 :| g' in front && FromTag(text, m, g', group1, group2);
      assert g' in gs;
    } else {
      GrammarMatchSound(g, text, m);
      var group1, group2 :| FromTag(text, m, g, group1, group2);
      assert g in gs;
    }
  }

  /**
   * Every tag segment comes from one of the ten tag forms written out at its span,
   * with groups of the right characters.
   */
  lemma MatchSound(text: string, m: Match)
    requires m in Ordered(text)
    ensures exists g, group1, group2 :: FromTag(text, m, g, group1, group2)
  {
    assert m in multiset(Ordered(text));
    assert m in multiset(AllMatches(text));
    CollectSound(ScanOrder, text, m);
  }

  lemma {:induction false} CollectContains(gs: seq<Grammar>, text: string, g: Grammar, m: Match)
    requires g in gs && m in GrammarMatches(g, text, 0)
    ensures m in CollectFrom(gs, text)
    decreases |gs|
  {
    if gs[|gs| - 1] != g {
      assert g in gs[..|gs| - 1];
      CollectContains(gs[..|gs| - 1], text, g, m);
    }
  }

  /**
   * No tag is missed: where a tag form is written out in the text, some collected
   * match of the same pattern covers its first character (the tag itself, or an
   * earlier match of the same pattern that overlaps it).
   */
  lemma MatchComplete(text: string, g: Grammar, p: nat, group1: string, group2: string)
    requires ValidGroups(g, group1, group2) && HasAt(text, p, TagText(g, group1, group2))
    ensures exists m :: m in Ordered(text) && m.start <= p < m.end && FromMatch(text, g, m)
  {
    MatchAtComplete(g, text, p, group1, group2);
    ScanLeftmost(g, text, 0);
    var rs := Scan(g, text, 0);
    assert Covered(rs, p);
    var i :| 0 <= i < |rs| && rs[i].start <= p < rs[i].end;
    var m := CollectedAt(g, text, i);
    MatchInOrdered(text, g, m);
  }

  /** `m` is what pattern `g` yields for its match at `m.start`. */
  predicate FromMatch(text: string, g: Grammar, m: Match) {
    m.start <= |text| && MatchAt(g, text, m.start).Some? && m == Build(g, MatchAt(g, text, m.start).value)
  }

  lemma CollectedAt(g: Grammar, text: string, i: nat) returns (m: Match)
    requires i < |Scan(g, text, 0)|
    ensures m in GrammarMatches(g, text, 0) && FromMatch(text, g, m)
    ensures m.start == Scan(g, text, 0)[i].start && m.end == Scan(g, text, 0)[i].end
  {
    ScanSound(g, text, 0);
    m := GrammarMatches(g, text, 0)[i];
  }

  lemma MatchInOrdered(text: string, g: Grammar, m: Match)
    requires m in GrammarMatches(g, text, 0)
    ensures m in Ordered(text)
  {
    CollectContains(ScanOrder, text, g, m);
    assert m in multiset(AllMatches(text));
    assert m in multiset(Ordered(text));
  }

  // ---- The walk ----

  /** The tags among the pieces, in order. */
  function Tags(ps: seq<Piece>): seq<Match>
    decreases |ps|
  {
    if ps == [] then []
    else Tags(ps[..|ps| - 1]) + (if ps[|ps| - 1].Tag? then [ps[|ps| - 1].m] else [])
  }

  lemma TagsSnoc(ps: seq<Piece>, p: Piece)
    ensures Tags(ps + [p]) == Tags(ps) + (if p.Tag? then [p.m] else [])
  {
    assert (ps + [p])[..|ps|] == ps;
  }

  lemma AdvanceTags(c: Cursor, m: Match)
    ensures Tags(Advance(c, m).pieces) == Tags(c.pieces) + [m]
  {
    if c.index < m.start {
      var g := Gap(c.index, m.start);
      TagsSnoc(c.pieces, g);
      TagsSnoc(c.pieces + [g], Tag(m));
    } else {
      assert c.pieces + [] == c.pieces;
      TagsSnoc(c.pieces, Tag(m));
    }
  }

  lemma {:induction false} WalkTags(ms: seq<Match>)
    ensures Tags(Walk(ms).pieces) == ms
    decreases |ms|
  {
    if ms != [] {
      var front := ms[..|ms| - 1];
      WalkTags(front);
      AdvanceTags(Walk(front), ms[|ms| - 1]);
      assert ms == front + [ms[|ms| - 1]];
    }
  }

  /** In the output, the tag segments are exactly the sorted matches, and every other piece is text. */
  lemma LayoutTags(n: nat, ms: seq<Match>)
    ensures Tags(Layout(n, ms)) == ms
  {
    var c := Walk(ms);
    WalkTags(ms);
    if c.index < n {
      TagsSnoc(c.pieces, Gap(c.index, n));
    } else {
      assert Layout(n, ms) == c.pieces;
    }
  }

  /** Tags never produce a text segment, so text segments are exactly the gaps. */
  lemma BuildNotText(g: Grammar, r: RawMatch)
    ensures Build(g, r).seg.kind != Text
    ensures Build(g, r).start == r.start && Build(g, r).end == r.end
  {
  }

  /** Every text segment holds at least one character of the input. */
  lemma TextSegmentsNonEmpty(text: string)
    ensures forall s :: s in ProfileSegments(text) && s.kind == Text ==> |s.content| > 0
  {
    var ms := Ordered(text);
    OrderedInBounds(text);
    LayoutInBounds(|text|, ms);
    var ps := Layout(|text|, ms);
    var segs := ProfileSegments(text);
    forall s | s in segs && s.kind == Text ensures |s.content| > 0 {
      var i :| 0 <= i < |segs| && segs[i] == s;
      if ps[i].Tag? {
        TagInLayout(|text|, ms, i);
        MatchSound(text, ps[i].m);
        var g, group1, group2 :| FromTag(text, ps[i].m, g, group1, group2);
        BuildNotText(g, RawMatch(ps[i].m.start, ps[i].m.end, group1, group2));
      }
    }
  }

  lemma {:induction false} TagInWalk(ms: seq<Match>, i: nat)
    requires i < |Walk(ms).pieces| && Walk(ms).pieces[i].Tag?
    ensures Walk(ms).pieces[i].m in ms
    decreases |ms|
  {
    var front := ms[..|ms| - 1];
    var c := Walk(front);
    if i < |c.pieces| {
      TagInWalk(front, i);
      assert c.pieces[i] == Walk(ms).pieces[i];
    }
  }

  lemma TagInLayout(n: nat, ms: seq<Match>, i: nat)
    requires i < |Layout(n, ms)| && Layout(n, ms)[i].Tag?
    ensures Layout(n, ms)[i].m in ms
  {
    TagInWalk(ms, i);
  }

  // ---- Reconstructing the input ----

  /** Matches in emitting order that do not overlap. */
  predicate Chained(ms: seq<Match>) {
    forall i, j :: 0 <= i < j < |ms| ==> ms[i].end <= ms[j].start
  }

  predicate PieceInBounds(p: Piece, n: nat) {
    if p.Gap? then p.from <= p.to <= n else p.m.start <= p.m.end <= n
  }

  predicate PiecesInBounds(ps: seq<Piece>, n: nat) {
    forall i :: 0 <= i < |ps| ==> PieceInBounds(ps[i], n)
  }

  /** The input characters a piece stands for. */
  function Source(text: string, p: Piece): string
    requires PieceInBounds(p, |text|)
  {
    match p
    case Gap(a, b) => text[a..b]
    case Tag(m) => text[m.start..m.end]
  }

  function Spelled(text: string, ps: seq<Piece>): string
    requires PiecesInBounds(ps, |text|)
    decreases |ps|
  {
    if ps == [] then []
    else Spelled(text, ps[..|ps| - 1]) + Source(text, ps[|ps| - 1])
  }

  lemma SpelledSnoc(text: string, ps: seq<Piece>, p: Piece)
    requires PiecesInBounds(ps, |text|) && PieceInBounds(p, |text|)
    ensures PiecesInBounds(ps + [p], |text|)
    ensures Spelled(text, ps + [p]) == Spelled(text, ps) + Source(text, p)
  {
    assert forall i :: 0 <= i < |ps| ==> (ps + [p])[i] == ps[i];
    assert (ps + [p])[..|ps|] == ps;
  }

  lemma PrefixJoin(text: string, a: nat, b: nat)
    requires a <= b <= |text|
    ensures text[..a] + text[a..b] == text[..b]
  {
  }

  /** One step of the walk extends the spelled prefix up to the end of `m`. */
  lemma AdvanceSpells(text: string, c: Cursor, m: Match)
    requires PiecesInBounds(c.pieces, |text|) && c.index <= m.start < m.end <= |text|
    requires Spelled(text, c.pieces) == text[..c.index]
    ensures PiecesInBounds(Advance(c, m).pieces, |text|)
    ensures Spelled(text, Advance(c, m).pieces) == text[..m.end]
  {
    var ps := c.pieces;
    if c.index < m.start {
      var g := Gap(c.index, m.start);
      SpelledSnoc(text, ps, g);
      PrefixJoin(text, c.index, m.start);
      assert Spelled(text, ps + [g]) == text[..m.start];
      SpelledSnoc(text, ps + [g], Tag(m));
      PrefixJoin(text, m.start, m.end);
      assert Advance(c, m).pieces == ps + [g] + [Tag(m)];
    } else {
      SpelledSnoc(text, ps, Tag(m));
      PrefixJoin(text, m.start, m.end);
      assert Advance(c, m).pieces == ps + [Tag(m)];
    }
  }

  lemma {:induction false} WalkSpells(text: string, ms: seq<Match>)
    requires InBounds(ms, |text|) && Chained(ms)
    ensures PiecesInBounds(Walk(ms).pieces, |text|)
    ensures Spelled(text, Walk(ms).pieces) == text[..Walk(ms).index]
    ensures Walk(ms).index == if ms == [] then 0 else ms[|ms| - 1].end
    decreases |ms|
  {
    if ms == [] {
      assert text[..0] == [];
    } else {
      var front := ms[..|ms| - 1];
      var m := ms[|ms| - 1];
      assert m in ms;
      assert InBounds(front, |text|) by {
        forall x | x in front ensures x in ms { }
      }
      assert Chained(front);
      WalkSpells(text, front);
      if front != [] {
        assert front[|front| - 1] == ms[|ms| - 2];
      }
      AdvanceSpells(text, Walk(front), m);
    }
  }

  /**
   * When the emitted matches do not overlap, the segments spell out the input:
   * text segments and tag spans, concatenated, give back the whole text.
   */
  lemma LayoutSpells(text: string, ms: seq<Match>)
    requires InBounds(ms, |text|) && Chained(ms)
    ensures PiecesInBounds(Layout(|text|, ms), |text|)
    ensures Spelled(text, Layout(|text|, ms)) == text
  {
    WalkSpells(text, ms);
    var c := Walk(ms);
    if ms != [] {
      assert ms[|ms| - 1] in ms;
    }
    if c.index < |text| {
      SpelledSnoc(text, c.pieces, Gap(c.index, |text|));
      PrefixJoin(text, c.index, |text|);
      assert Layout(|text|, ms) == c.pieces + [Gap(c.index, |text|)];
      assert text[..|text|] == text;
    } else {
      assert Layout(|text|, ms) == c.pieces;
      assert text[..c.index] == text;
    }
  }

  /** The parse of a profile whose matches do not overlap spells out the profile. */
  lemma ProfileSpells(text: string)
    requires Chained(Ordered(text))
    ensures PiecesInBounds(Layout(|text|, Ordered(text)), |text|)
    ensures Spelled(text, Layout(|text|, Ordered(text))) == text
  {
    OrderedInBounds(text);
    LayoutSpells(text, Ordered(text));
  }

  // ---- Degenerate inputs ----

  /** Without any tag, the profile is one text segment, or nothing when it is empty. */
  lemma NoTags(text: string)
    requires AllMatches(text) == []
    ensures ProfileSegments(text) == if text == [] then [] else [Segment(Text, text, None, None)]
  {
    assert Ordered(text) == [];
    assert text[0..|text|] == text;
  }

  lemma ScanEmpty(g: Grammar)
    ensures Scan(g, "", 0) == []
  {
    assert MatchAt(g, "", 0).None? by {
      assert !HasAt("", 0, PatternOf(g).opener);
    }
  }

  lemma {:induction false} CollectEmpty(gs: seq<Grammar>)
    ensures CollectFrom(gs, "") == []
    decreases |gs|
  {
    if gs != [] {
      CollectEmpty(gs[..|gs| - 1]);
      ScanEmpty(gs[|gs| - 1]);
    }
  }

  /** An empty profile parses to no segments. */
  lemma EmptyProfile()
    ensures ProfileSegments("") == []
  {
    CollectEmpty(ScanOrder);
    NoTags("");
  }
}
