/**
 * The `ArtistProfile` component around the parser: the collapsed/expanded text
 * rule, the "Show more" toggle, and how each segment is rendered.
 */
module ProfileView {
  import opened Wrappers
  import opened Strings
  import opened ProfileGrammar
  import opened ProfileParser
  import opened ProfileFacts
  import opened ArtistName

  const MaxProfileLength: nat := 320
  const ParagraphBreak := "\n\n"

  /** `profile.split("\n\n")[0]`. */
  function FirstParagraph(profile: string): string {
    match IndexOf(profile, ParagraphBreak, 0)
    case Some(i) => profile[..i]
    case None => profile
  }

  /** `paragraphs.length > 1`. */
  predicate HasMoreContent(profile: string) {
    Includes(profile, ParagraphBreak)
  }

  predicate IsTooLong(profile: string) {
    |FirstParagraph(profile)| > MaxProfileLength
  }

  function DisplayText(profile: string, expanded: bool): string {
    if expanded then profile
    else if IsTooLong(profile) then FirstParagraph(profile)[..MaxProfileLength] + "..."
    else FirstParagraph(profile)
  }

  predicate ShowToggle(profile: string) {
    HasMoreContent(profile) || IsTooLong(profile)
  }

  /**
   * The first paragraph is the profile up to the first "\n\n", which starts
   * right after it, and holds none; with no "\n\n" it is the whole profile.
   */
  lemma FirstParagraphSpec(profile: string)
    ensures |FirstParagraph(profile)| <= |profile|
    ensures FirstParagraph(profile) == profile[..|FirstParagraph(profile)|]
    ensures !Includes(FirstParagraph(profile), ParagraphBreak)
    ensures FirstParagraph(profile) == profile <==> !HasMoreContent(profile)
    ensures HasMoreContent(profile) ==>
      && HasAt(profile, |FirstParagraph(profile)|, ParagraphBreak)
      && forall q :: 0 <= q < |FirstParagraph(profile)| ==> !HasAt(profile, q, ParagraphBreak)
  {
    var first := FirstParagraph(profile);
    IncludesIff(first, ParagraphBreak);
    IncludesIff(profile, ParagraphBreak);
    if Includes(first, ParagraphBreak) {
      var k: nat :| HasAt(first, k, ParagraphBreak);
      assert HasAt(profile, k, ParagraphBreak) by {
        assert profile[k..k + 2] == first[k..k + 2];
      }
      assert false;
    }
  }

  /**
   * Collapsed, the text shown is the first paragraph when that has at most 320
   * characters, and otherwise its first 320 characters followed by "...";
   * expanded, it is the whole profile.
   */
  lemma DisplayTextSpec(profile: string)
    ensures DisplayText(profile, true) == profile
    ensures var shown := DisplayText(profile, false);
      && |shown| <= MaxProfileLength + 3
      && (IsTooLong(profile) ==> shown == profile[..MaxProfileLength] + "...")
      && (!IsTooLong(profile) ==> shown == FirstParagraph(profile))
      && (!IsTooLong(profile) ==> shown == profile[..|shown|] && !Includes(shown, ParagraphBreak))
  {
    FirstParagraphSpec(profile);
    if IsTooLong(profile) {
      var first := FirstParagraph(profile);
      assert first[..MaxProfileLength] == profile[..MaxProfileLength];
    }
  }

  /** Without the toggle, collapsed and expanded show the same, whole profile. */
  lemma NoToggleShowsAll(profile: string)
    requires !ShowToggle(profile)
    ensures DisplayText(profile, false) == profile
  {
    FirstParagraphSpec(profile);
  }

  /** With the toggle, collapsed shows strictly less than the profile. */
  lemma ToggleHidesSomething(profile: string)
    requires ShowToggle(profile) && !IsTooLong(profile)
    ensures |DisplayText(profile, false)| < |profile|
  {
    FirstParagraphSpec(profile);
  }

  /** The segments shown: the parse of the displayed text, not of the whole profile. */
  function ShownSegments(profile: string, expanded: bool): seq<Segment> {
    ProfileSegments(DisplayText(profile, expanded))
  }

  // ---- Rendering ----

  /** `/^Artist \d+$/.test(content)`. */
  predicate IsArtistIdContent(content: string) {
    |content| > 7 && content[..7] == "Artist " && AllDigits(content[7..])
  }

  /** `/^Label \d+$/.test(content)`. */
  predicate IsLabelIdContent(content: string) {
    |content| > 6 && content[..6] == "Label " && AllDigits(content[6..])
  }

  /** What `renderSegment` puts on the page for one segment. */
  datatype View =
    | Plain(text: string)
    | Anchor(href: Option<string>, text: string)
    | ArtistLink(id: Option<string>, content: string)
    | ArtistNameText(text: string)
    | LabelLink(id: Option<string>)
    | LabelNameText(text: string)
    | ReleaseLink(id: Option<string>)
    | MasterLink(id: Option<string>)
    | Emphasis(text: string)
    | Strong(text: string)
    | Muted(text: string)

  function RenderSegment(s: Segment): (v: View)
    ensures v.ArtistLink? <==> s.kind == Artist && IsArtistIdContent(s.content)
    ensures v.LabelLink? <==> s.kind == Label && IsLabelIdContent(s.content)
  {
    match s.kind
    case Text => Plain(s.content)
    case Url => Anchor(s.url, s.content)
    case Artist =>
      if IsArtistIdContent(s.content) then ArtistLink(s.id, s.content)
      else ArtistNameText(NormalizeArtistName(s.content))
    case Label =>
      if IsLabelIdContent(s.content) then LabelLink(s.id) else LabelNameText(s.content)
    case Release => ReleaseLink(s.id)
    case Master => MasterLink(s.id)
    case Italic => Emphasis(s.content + ":")
    case Bold => Strong(s.content)
    case Timespan => Muted(s.content)
  }

  /** Every numeric artist tag `[a<digits>]` becomes a link to that artist. */
  lemma ArtistIdTagIsLink(r: RawMatch)
    requires ValidGroups(ArtistIdTag, r.group1, r.group2)
    ensures RenderSegment(Build(ArtistIdTag, r).seg) == ArtistLink(Some(r.group1), "Artist " + r.group1)
  {
    var c := "Artist " + r.group1;
    assert c[7..] == r.group1;
  }

  /** Every numeric label tag `[l<digits>]` becomes a link to that label. */
  lemma LabelIdTagIsLink(r: RawMatch)
    requires ValidGroups(LabelIdTag, r.group1, r.group2)
    ensures RenderSegment(Build(LabelIdTag, r).seg) == LabelLink(Some(r.group1))
  {
    var c := "Label " + r.group1;
    assert c[6..] == r.group1;
  }

  /** A named artist tag is shown as the normalised name unless the name itself reads "Artist <digits>". */
  lemma ArtistNameTagIsText(r: RawMatch)
    requires !IsArtistIdContent(r.group1)
    ensures RenderSegment(Build(ArtistTag, r).seg) == ArtistNameText(NormalizeArtistName(r.group1))
  {
  }

  /**
   * The `segment.id!` and `segment.url` reads are safe: every artist, label,
   * release and master segment the parser emits carries an id, and every url
   * segment a target.
   */
  lemma SegmentsCarryIds(text: string)
    ensures forall s :: s in ProfileSegments(text) ==>
      (s.kind in {Artist, Label, Release, Master} ==> s.id.Some?) && (s.kind == Url ==> s.url.Some?)
  {
    var ms := Ordered(text);
    OrderedInBounds(text);
    LayoutInBounds(|text|, ms);
    var ps := Layout(|text|, ms);
    var segs := ProfileSegments(text);
    forall s | s in segs
      ensures (s.kind in {Artist, Label, Release, Master} ==> s.id.Some?) && (s.kind == Url ==> s.url.Some?)
    {
      var i :| 0 <= i < |segs| && segs[i] == s;
      if ps[i].Tag? {
        TagInLayout(|text|, ms, i);
        MatchSound(text, ps[i].m);
      }
    }
  }
}
