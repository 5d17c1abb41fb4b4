/**
 * `normalizeArtistName`: `name.replace(/\s+\(\d+\)$/, "")`, which drops the
 * Discogs disambiguation suffix " (2)" from the end of a name.
 */
module ArtistName {
  import opened Strings

  /**
   * The regular expression matches at `p`: a non-empty whitespace run, "(",
   * a non-empty run of ASCII digits and ")" that is the last character. The
   * whitespace run is taken greedily, which loses nothing since "(" is not
   * whitespace.
   */
  predicate SuffixAt(s: string, p: nat) {
    p <= |s| &&
    var q := SpaceRunEnd(s, p);
    && p < q
    && q + 2 < |s|
    && s[q] == '('
    && AllDigits(s[q + 1..|s| - 1])
    && s[|s| - 1] == ')'
  }

  /** Scanning back from `j` over digits: where the digit run ending at `j` begins. */
  function DigitsBack(s: string, j: nat): (i: nat)
    requires j <= |s|
    ensures i <= j
    ensures forall t :: i <= t < j ==> IsDigit(s[t])
    ensures i == 0 || !IsDigit(s[i - 1])
  {
    if j == 0 || !IsDigit(s[j - 1]) then j else DigitsBack(s, j - 1)
  }

  /** Scanning back from `j` over whitespace. */
  function SpacesBack(s: string, j: nat): (i: nat)
    requires j <= |s|
    ensures i <= j
    ensures forall t :: i <= t < j ==> IsSpace(s[t])
    ensures i == 0 || !IsSpace(s[i - 1])
  {
    if j == 0 || !IsSpace(s[j - 1]) then j else SpacesBack(s, j - 1)
  }

  /** Where the leftmost match starts, if the name has the suffix. */
  function SuffixStart(s: string): (w: nat)
    ensures w <= |s|
  {
    var n := |s|;
    if n == 0 || s[n - 1] != ')' then n
    else
      var d := DigitsBack(s, n - 1);
      if d == n - 1 || d == 0 || s[d - 1] != '(' then n
      else
        var w := SpacesBack(s, d - 1);
        if w == d - 1 then n else w
  }

  function NormalizeArtistName(name: string): (r: string)
    ensures |r| <= |name| && r == name[..|r|]
  {
    name[..SuffixStart(name)]
  }

  lemma SpaceRunStops(s: string, p: nat, q: nat)
    requires p <= q < |s| && !IsSpace(s[q])
    requires forall t :: p <= t < q ==> IsSpace(s[t])
    ensures SpaceRunEnd(s, p) == q
    decreases q - p
  {
    if p < q {
      SpaceRunStops(s, p + 1, q);
    }
  }

  lemma DigitsBackStops(s: string, i: nat, j: nat)
    requires 0 < i <= j <= |s| && !IsDigit(s[i - 1])
    requires forall t :: i <= t < j ==> IsDigit(s[t])
    ensures DigitsBack(s, j) == i
    decreases j - i
  {
    if i < j {
      DigitsBackStops(s, i, j - 1);
    }
  }

  /** The backward scan finds the leftmost match, and no match lies to its left. */
  lemma SuffixStartFinds(s: string, p: nat)
    requires SuffixAt(s, p)
    ensures SuffixStart(s) <= p && SuffixAt(s, SuffixStart(s))
  {
    var q := SpaceRunEnd(s, p);
    SuffixStartIs(s, p);
    var w := SuffixStart(s);
    SpaceRunStops(s, w, q);
    assert SpaceRunEnd(s, w) == q;
  }

  /** The backward scan stops at the start of the whitespace run that holds `p`. */
  lemma SuffixStartIs(s: string, p: nat)
    requires SuffixAt(s, p)
    ensures var q := SpaceRunEnd(s, p);
      SuffixStart(s) == SpacesBack(s, q) && SuffixStart(s) <= p
  {
    var n := |s|;
    var q := SpaceRunEnd(s, p);
    assert forall t :: q + 1 <= t < n - 1 ==> IsDigit(s[t]) by {
      forall t | q + 1 <= t < n - 1 ensures IsDigit(s[t]) {
        assert s[t] == s[q + 1..n - 1][t - (q + 1)];
      }
    }
    DigitsBackStops(s, q + 1, n - 1);
    SpacesBackBelow(s, p, q);
  }

  lemma SpacesBackBelow(s: string, p: nat, q: nat)
    requires p <= q <= |s|
    requires forall t :: p <= t < q ==> IsSpace(s[t])
    ensures SpacesBack(s, q) <= p
    decreases q
  {
    if p < q {
      SpacesBackBelow(s, p, q - 1);
    }
  }

  lemma SuffixStartSound(s: string)
    requires SuffixStart(s) < |s|
    ensures SuffixAt(s, SuffixStart(s))
  {
    var n := |s|;
    var d := DigitsBack(s, n - 1);
    var w := SuffixStart(s);
    SpaceRunStops(s, w, d - 1);
    var digits := s[d..n - 1];
    assert AllDigits(digits) by {
      forall t | 0 <= t < |digits| ensures IsDigit(digits[t]) {
        assert digits[t] == s[d + t];
      }
    }
  }

  /**
   * `replace` with a non-global pattern: the name is cut at the leftmost match
   * when there is one, and returned unchanged otherwise.
   */
  lemma NormalizeSpec(name: string)
    ensures var r := NormalizeArtistName(name);
      && (r == name <==> forall p: nat :: !SuffixAt(name, p))
      && (r != name ==> SuffixAt(name, |r|) && forall p: nat :: p < |r| ==> !SuffixAt(name, p))
  {
    var r := NormalizeArtistName(name);
    if SuffixStart(name) < |name| {
      SuffixStartSound(name);
      assert |r| < |name|;
      forall p | SuffixAt(name, p) ensures |r| <= p {
        SuffixStartFinds(name, p);
      }
    } else {
      assert r == name;
      forall p ensures !SuffixAt(name, p) {
        if SuffixAt(name, p) {
          SuffixStartFinds(name, p);
        }
      }
    }
  }

  /** Whitespace is required before the parenthesis. */
  lemma NoSpaceKept()
    ensures NormalizeArtistName("A(2)") == "A(2)"
  {
  }

  /** The whole whitespace run before the parenthesis goes. */
  lemma WholeRunRemoved()
    ensures NormalizeArtistName("A  (2)") == "A"
  {
    var s := "A  (2)";
    assert DigitsBack(s, 5) == 4;
    assert SpacesBack(s, 3) == 1;
  }

  lemma OneSuffix()
    ensures NormalizeArtistName("A (2)") == "A"
  {
    var s := "A (2)";
    assert DigitsBack(s, 4) == 3;
    assert SpacesBack(s, 2) == 1;
  }

  /** Only the last suffix is removed, so a second call removes more: the function is not idempotent. */
  lemma NotIdempotent()
    ensures NormalizeArtistName("A (2) (3)") == "A (2)"
    ensures NormalizeArtistName(NormalizeArtistName("A (2) (3)")) != NormalizeArtistName("A (2) (3)")
  {
    var s := "A (2) (3)";
    assert DigitsBack(s, 8) == 7;
    assert SpacesBack(s, 6) == 5;
    assert s[..5] == "A (2)";
    OneSuffix();
  }

  /** The parentheses must hold at least one digit and nothing else. */
  lemma DigitsRequired()
    ensures NormalizeArtistName("A (x)") == "A (x)"
    ensures NormalizeArtistName("A ()") == "A ()"
  {
    assert DigitsBack("A (x)", 4) == 4;
    assert DigitsBack("A ()", 3) == 3;
  }
}
