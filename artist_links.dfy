/**
 * `ArtistLinks`: each URL of an artist's profile is shown with the name of
 * the service its host belongs to, chosen by the first host rule that fits,
 * or with the host itself when no rule fits.
 */
module ArtistLinks {
  import opened Wrappers
  import opened Strings
  import opened Seqs

  datatype Service =
    | Facebook | Twitter | Instagram | YouTube | Spotify | Bandcamp | SoundCloud
    | Discogs | Wikipedia | Myspace | Imdb | Linktree | Equipboard | Other

  /** The rules in the order they are tried. */
  const Priority: seq<Service> :=
    [Facebook, Twitter, Instagram, YouTube, Spotify, Bandcamp, SoundCloud,
     Discogs, Wikipedia, Myspace, Imdb, Linktree, Equipboard]

  /**
   * Whether the lower-cased host fits a service's rule: it contains one of the
   * service's domains, anywhere, so `box.com` contains `x.com` and fits Twitter.
   */
  predicate Fits(s: Service, host: string) {
    match s
    case Facebook => Includes(host, "facebook.com")
    case Twitter => Includes(host, "twitter.com") || Includes(host, "x.com")
    case Instagram => Includes(host, "instagram.com")
    case YouTube => Includes(host, "youtube.com")
    case Spotify => Includes(host, "spotify.com")
    case Bandcamp => Includes(host, "bandcamp.com")
    case SoundCloud => Includes(host, "soundcloud.com")
    case Discogs => Includes(host, "discogs.com")
    case Wikipedia => Includes(host, "wikipedia.org")
    case Myspace => Includes(host, "myspace.com")
    case Imdb => Includes(host, "imdb.com")
    case Linktree => Includes(host, "linktr.ee")
    case Equipboard => Includes(host, "equipboard.com")
    case Other => false
  }

  /** The `if`/`else if` chain: the first service of `ps` whose rule fits the host, `Other` when none does. */
  function FirstFit(ps: seq<Service>, host: string, fits: (Service, string) -> bool): Service
    decreases |ps|
  {
    if ps == [] then Other
    else if fits(ps[0], host) then ps[0]
    else FirstFit(ps[1..], host, fits)
  }

  /** The chain of `parseLinks` on the lower-cased host. */
  function ServiceOf(host: string): Service {
    FirstFit(Priority, host, Fits)
  }

  lemma {:induction false} FirstFitSpec(ps: seq<Service>, host: string, fits: (Service, string) -> bool)
    requires Distinct(ps) && Other !in ps
    ensures FirstFit(ps, host, fits) == Other || FirstFit(ps, host, fits) in ps
    ensures FirstFit(ps, host, fits) == Other <==> forall i :: 0 <= i < |ps| ==> !fits(ps[i], host)
    ensures forall i :: 0 <= i < |ps| ==>
      (FirstFit(ps, host, fits) == ps[i] <==> fits(ps[i], host) && forall j :: 0 <= j < i ==> !fits(ps[j], host))
    decreases |ps|
  {
    if ps != [] {
      var rest := ps[1..];
      assert Distinct(rest) by {
        forall i, j | 0 <= i < j < |rest| ensures rest[i] != rest[j] {
          assert rest[i] == ps[i + 1] && rest[j] == ps[j + 1];
        }
      }
      assert ps[0] !in rest by {
        forall k | 0 <= k < |rest| ensures rest[k] != ps[0] {
          assert rest[k] == ps[k + 1];
        }
      }
      FirstFitSpec(rest, host, fits);
      forall i | 0 < i < |ps| ensures ps[i] == rest[i - 1] {
      }
    }
  }

  /** Hence the service is the first in `Priority` whose rule fits, and `Other` when none does. */
  lemma ServiceOfSpec(host: string)
    ensures ServiceOf(host) == Other <==> forall i :: 0 <= i < |Priority| ==> !Fits(Priority[i], host)
    ensures forall i :: 0 <= i < |Priority| ==>
      (ServiceOf(host) == Priority[i] <==> Fits(Priority[i], host) && forall j :: 0 <= j < i ==> !Fits(Priority[j], host))
  {
    PriorityDistinct();
    FirstFitSpec(Priority, host, Fits);
  }

  /** The place of each service in `Priority`. */
  function Rank(s: Service): nat {
    match s
    case Facebook => 0 case Twitter => 1 case Instagram => 2 case YouTube => 3
    case Spotify => 4 case Bandcamp => 5 case SoundCloud => 6 case Discogs => 7
    case Wikipedia => 8 case Myspace => 9 case Imdb => 10 case Linktree => 11
    case Equipboard => 12 case Other => 13
  }

  lemma PriorityDistinct()
    ensures Distinct(Priority) && Other !in Priority
  {
    assert forall i :: 0 <= i < |Priority| ==> Rank(Priority[i]) == i;
  }

  lemma TooShort(s: string, pat: string)
    requires |s| < |pat|
    ensures !Includes(s, pat)
  {
  }

  /** `box.com` fits no rule before Twitter's, and Twitter's through `x.com`. */
  lemma BoxIsTwitter()
    ensures ServiceOf("box.com") == Twitter
  {
    var h := "box.com";
    assert HasAt(h, 2, "x.com");
    IncludesIff(h, "x.com");
    TooShort(h, "facebook.com");
    PriorityDistinct();
    FirstFitSpec(Priority, h, Fits);
    assert Priority[0] == Facebook && Priority[1] == Twitter;
  }

  /** A Facebook host is Facebook even when it also contains `x.com`: the first rule wins. */
  lemma FirstRuleWins(host: string)
    requires Includes(host, "facebook.com") && Includes(host, "x.com")
    ensures ServiceOf(host) == Facebook
  {
  }

  /** `s.replace(pat, rep)` with a string pattern: only the first occurrence is replaced. */
  function ReplaceFirst(s: string, pat: string, rep: string): (r: string)
  {
    match IndexOf(s, pat, 0)
    case None => s
    case Some(i) => s[..i] + rep + s[i + |pat|..]
  }

  lemma ReplaceFirstSpec(s: string, pat: string, rep: string)
    ensures (forall j: nat :: !HasAt(s, j, pat)) ==> ReplaceFirst(s, pat, rep) == s
    ensures forall i: nat :: HasAt(s, i, pat) && (forall j: nat :: j < i ==> !HasAt(s, j, pat)) ==>
      ReplaceFirst(s, pat, rep) == s[..i] + rep + s[i + |pat|..]
  {
    forall i: nat | HasAt(s, i, pat) && (forall j: nat :: j < i ==> !HasAt(s, j, pat))
      ensures ReplaceFirst(s, pat, rep) == s[..i] + rep + s[i + |pat|..]
    {
      var r := IndexOf(s, pat, 0);
      assert r.Some?;
      assert r.value == i;
    }
  }

  function Label(s: Service, host: string): string {
    match s
    case Facebook => "Facebook"
    case Twitter => "Twitter"
    case Instagram => "Instagram"
    case YouTube => "YouTube"
    case Spotify => "Spotify"
    case Bandcamp => "Bandcamp"
    case SoundCloud => "SoundCloud"
    case Discogs => "Discogs"
    case Wikipedia => "Wikipedia"
    case Myspace => "Myspace"
    case Imdb => "IMDb"
    case Linktree => "Linktree"
    case Equipboard => "Equipboard"
    case Other => ReplaceFirst(host, "www.", "")
  }

  /** An unknown host is shown without its `www.`. */
  lemma OtherHostName()
    ensures Label(Other, "www.a.io") == "a.io"
  {
    assert HasAt("www.a.io", 0, "www.");
    assert "www.a.io"[4..] == "a.io";
  }

  datatype ParsedLink = ParsedLink(url: string, service: Service, name: string)

  /** One link: the URL kept as it is, the service and the name taken from the lower-cased host. */
  function LinkFor(url: string, hostname: string): ParsedLink {
    var host := Lower(hostname);
    ParsedLink(url, ServiceOf(host), Label(ServiceOf(host), host))
  }

  /**
   * `parseLinks`: `hostOf` stands for `new URL(url).hostname`, `None` for a URL
   * the constructor refuses, which throws out of the whole list.
   */
  function ParseLinks(urls: seq<string>, hostOf: string -> Option<string>): (r: Option<seq<ParsedLink>>)
    ensures r.Some? <==> forall i :: 0 <= i < |urls| ==> hostOf(urls[i]).Some?
    ensures r.Some? ==> |r.value| == |urls|
    ensures r.Some? ==> forall i :: 0 <= i < |urls| ==> r.value[i] == LinkFor(urls[i], hostOf(urls[i]).value)
  {
    if forall i :: 0 <= i < |urls| ==> hostOf(urls[i]).Some? then
      Some(seq(|urls|, i requires 0 <= i < |urls| => LinkFor(urls[i], hostOf(urls[i]).value)))
    else None
  }

  datatype LinksView = NoLinks | Links(links: seq<ParsedLink>) | BadUrl

  /** The component: nothing for a missing or empty list, the parsed links otherwise. */
  function ArtistLinksView(urls: Option<seq<string>>, hostOf: string -> Option<string>): (v: LinksView)
    ensures v == NoLinks <==> urls.None? || urls.value == []
    ensures v.Links? ==> ParseLinks(urls.value, hostOf) == Some(v.links) && |v.links| == |urls.value|
    ensures v == BadUrl <==> urls.Some? && urls.value != [] && ParseLinks(urls.value, hostOf).None?
  {
    if urls.None? || urls.value == [] then NoLinks
    else
      match ParseLinks(urls.value, hostOf)
      case None => BadUrl
      case Some(links) => Links(links)
  }
}
