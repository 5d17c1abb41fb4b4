/**
 * The `/api/sign` route: it validates the parameters of a Last.fm call, sorts
 * them by name, concatenates name and value pairs, appends the shared secret
 * and hashes the result, following step 6, "Sign your calls", of Last.fm's
 * web authentication guide.
 */
module Sign {
  import opened Wrappers
  import Strings
  import ScrobbleTypes

  /** A parameter value of the JSON body; `shown` is what string concatenation makes of a non-string. */
  datatype Value = Str(s: string) | NonString(shown: string)

  function Text(v: Value): string {
    match v
    case Str(s) => s
    case NonString(shown) => shown
  }

  /** A parameter name and its value, as `Object.entries` lists them. */
  type Param = (string, Value)

  /** The parsed request body: an object, or any other JSON value. */
  datatype Body = Object(params: seq<Param>) | NotObject

  /** Names a JSON object cannot repeat. */
  predicate DistinctNames(ps: seq<Param>) {
    forall i, j :: 0 <= i < j < |ps| ==> ps[i].0 != ps[j].0
  }

  /** The declared optional parameters that must be non-empty strings when present. */
  const OptionalNames: set<string> := {"token", "sk", "artist", "track", "timestamp", "album"}

  predicate NonEmptyString(v: Value) {
    v.Str? && |v.s| > 0
  }

  /**
   * A present parameter satisfies its declaration: `api_key` is a string of 32
   * characters, `method` and the optional ones non-empty strings, `format` may
   * not appear at all, and an undeclared parameter passes as it is.
   */
  predicate ParamOk(p: Param) {
    if p.0 == "api_key" then p.1.Str? && |p.1.s| == 32
    else if p.0 == "method" then NonEmptyString(p.1)
    else if p.0 == "format" then false
    else if p.0 in OptionalNames then NonEmptyString(p.1)
    else true
  }

  predicate HasName(ps: seq<Param>, name: string) {
    exists i :: 0 <= i < |ps| && ps[i].0 == name
  }

  /** `paramsType`: every present parameter fits its declaration and the required ones are there. */
  predicate ValidParams(ps: seq<Param>) {
    && (forall i :: 0 <= i < |ps| ==> ParamOk(ps[i]))
    && HasName(ps, "api_key")
    && HasName(ps, "method")
  }

  // ---- The order on names ----

  /**
   * `a.localeCompare(b, "en-US") < 0`, stood in for by the lexicographic order
   * of the characters' values. This is an assumption: the two orders agree on
   * the names the client signs (`DeclaredNamesOrdered`: lower-case ASCII letters
   * and `_`, no name a prefix of another), but not in general: upper- and
   * lower-case letters (`CaseOrder`), punctuation against digits and non-ASCII
   * letters are ordered differently by the en-US collation.
   */
  predicate NameLess(a: string, b: string)
    decreases |a|
  {
    if |a| == 0 then |b| > 0
    else |b| > 0 && (a[0] < b[0] || (a[0] == b[0] && NameLess(a[1..], b[1..])))
  }

  /**
   * The names the Last.fm client posts (`ClientParams`: the eight fixed ones,
   * `album` and `cb`), as they come out of the sort; this is also their
   * alphabetical order, which the en-US collation gives.
   */
  lemma DeclaredNamesOrdered()
    ensures NameLess("album", "api_key") && NameLess("api_key", "artist")
      && NameLess("artist", "cb") && NameLess("cb", "format")
      && NameLess("format", "method") && NameLess("method", "sk")
      && NameLess("sk", "timestamp") && NameLess("timestamp", "token")
      && NameLess("token", "track")
  {
  }

  /** Where the stand-in departs from the collation: "B" sorts before "a" by character value. */
  lemma CaseOrder()
    ensures NameLess("B", "a") && !NameLess("a", "B")
  {
  }

  lemma {:induction false} NameLessIrreflexive(a: string)
    ensures !NameLess(a, a)
    decreases |a|
  {
    if |a| > 0 {
      NameLessIrreflexive(a[1..]);
    }
  }

  lemma {:induction false} NameLessTransitive(a: string, b: string, c: string)
    requires NameLess(a, b) && NameLess(b, c)
    ensures NameLess(a, c)
    decreases |a|
  {
    if |a| > 0 && a[0] == b[0] && b[0] == c[0] {
      NameLessTransitive(a[1..], b[1..], c[1..]);
    }
  }

  lemma {:induction false} NameLessTotal(a: string, b: string)
    requires a != b
    ensures NameLess(a, b) || NameLess(b, a)
    decreases |a|
  {
    if |a| > 0 && |b| > 0 && a[0] == b[0] {
      assert a == [a[0]] + a[1..] && b == [b[0]] + b[1..];
      NameLessTotal(a[1..], b[1..]);
    }
  }

  // ---- Sorting ----

  predicate SortedByName(ps: seq<Param>) {
    forall i, j :: 0 <= i < j < |ps| ==> NameLess(ps[i].0, ps[j].0)
  }

  function Insert(x: Param, l: seq<Param>): (r: seq<Param>)
    ensures multiset(r) == multiset(l) + multiset{x}
    decreases |l|
  {
    if l == [] then [x]
    else if NameLess(x.0, l[0].0) then [x] + l
    else
      assert l == [l[0]] + l[1..];
      [l[0]] + Insert(x, l[1..])
  }

  /** `sort` with the name comparison; the names being distinct, every sorting algorithm agrees. */
  function SortByName(ps: seq<Param>): (r: seq<Param>)
    ensures multiset(r) == multiset(ps)
    decreases |ps|
  {
    if ps == [] then []
    else
      assert ps == [ps[0]] + ps[1..];
      Insert(ps[0], SortByName(ps[1..]))
  }

  lemma {:induction false} InsertSorted(x: Param, l: seq<Param>)
    requires SortedByName(l)
    requires forall i :: 0 <= i < |l| ==> l[i].0 != x.0
    ensures SortedByName(Insert(x, l))
    decreases |l|
  {
    if l == [] {
    } else if NameLess(x.0, l[0].0) {
      forall y | y in l ensures NameLess(x.0, y.0) {
        var m :| 0 <= m < |l| && l[m] == y;
        if m > 0 {
          NameLessTransitive(x.0, l[0].0, y.0);
        }
      }
      ConsSorted(x, l);
    } else {
      NameLessTotal(x.0, l[0].0);
      var rest := l[1..];
      InsertSorted(x, rest);
      InsertMembers(x, rest);
      forall y | y in rest ensures NameLess(l[0].0, y.0) {
        var m :| 0 <= m < |rest| && rest[m] == y;
        assert l[m + 1] == y;
      }
      ConsSorted(l[0], Insert(x, rest));
    }
  }

  /** Every element of an insertion is the inserted parameter or one of the list. */
  lemma InsertMembers(x: Param, l: seq<Param>)
    ensures forall y :: y in Insert(x, l) ==> y == x || y in l
  {
    forall y | y in Insert(x, l) ensures y == x || y in l {
      assert y in multiset(Insert(x, l));
    }
  }

  lemma ConsSorted(h: Param, r: seq<Param>)
    requires SortedByName(r) && forall y :: y in r ==> NameLess(h.0, y.0)
    ensures SortedByName([h] + r)
  {
    var out := [h] + r;
    forall i, j | 0 <= i < j < |out| ensures NameLess(out[i].0, out[j].0) {
      assert out[j] == r[j - 1];
      if i > 0 {
        assert out[i] == r[i - 1];
      }
    }
  }

  lemma {:induction false} SortSorted(ps: seq<Param>)
    requires DistinctNames(ps)
    ensures SortedByName(SortByName(ps))
    decreases |ps|
  {
    if ps != [] {
      var rest := ps[1..];
      assert DistinctNames(rest) by {
        forall i, j | 0 <= i < j < |rest| ensures rest[i].0 != rest[j].0 {
          assert rest[i] == ps[i + 1] && rest[j] == ps[j + 1];
        }
      }
      SortSorted(rest);
      var sorted := SortByName(rest);
      forall i | 0 <= i < |sorted| ensures sorted[i].0 != ps[0].0 {
        assert sorted[i] in multiset(rest);
        var m :| 0 <= m < |rest| && rest[m] == sorted[i];
        assert ps[m + 1] == sorted[i];
      }
      InsertSorted(ps[0], sorted);
    }
  }

  /** A list sorted strictly by name is fixed by its elements. */
  lemma {:induction false} SortedUnique(a: seq<Param>, b: seq<Param>)
    requires SortedByName(a) && SortedByName(b) && multiset(a) == multiset(b)
    ensures a == b
    decreases |a|
  {
    if a == [] {
      assert |b| == |multiset(b)| == 0;
    } else {
      assert |b| == |multiset(b)| == |multiset(a)| == |a|;
      SortedHeads(a, b);
      assert a == [a[0]] + a[1..] && b == [b[0]] + b[1..];
      assert multiset(a) == multiset{a[0]} + multiset(a[1..]);
      assert multiset(b) == multiset{b[0]} + multiset(b[1..]);
      assert multiset(a[1..]) == multiset(a) - multiset{a[0]};
      assert multiset(b[1..]) == multiset(b) - multiset{b[0]};
      SortedTail(a);
      SortedTail(b);
      SortedUnique(a[1..], b[1..]);
    }
  }

  /** Two sorted lists with the same elements start alike. */
  lemma SortedHeads(a: seq<Param>, b: seq<Param>)
    requires SortedByName(a) && SortedByName(b) && multiset(a) == multiset(b) && |a| > 0 && |b| > 0
    ensures a[0] == b[0]
  {
    assert a[0] in multiset(b) && b[0] in multiset(a);
    if a[0] != b[0] {
      var k :| 0 <= k < |b| && b[k] == a[0];
      var m :| 0 <= m < |a| && a[m] == b[0];
      assert NameLess(b[0].0, a[0].0);
      assert NameLess(a[0].0, b[0].0);
      NameLessTransitive(a[0].0, b[0].0, a[0].0);
      NameLessIrreflexive(a[0].0);
      assert false;
    }
  }

  lemma SortedTail(a: seq<Param>)
    requires SortedByName(a) && |a| > 0
    ensures SortedByName(a[1..])
  {
    forall i, j | 0 <= i < j < |a[1..]| ensures NameLess(a[1..][i].0, a[1..][j].0) {
      assert a[1..][i] == a[i + 1] && a[1..][j] == a[j + 1];
    }
  }

  // ---- The signing string ----

  /** The `reduce`: each name followed by its value, in list order. */
  function Concatenated(ps: seq<Param>): string
    decreases |ps|
  {
    if ps == [] then ""
    else Concatenated(ps[..|ps| - 1]) + ps[|ps| - 1].0 + Text(ps[|ps| - 1].1)
  }

  function ParamString(ps: seq<Param>): string {
    Concatenated(SortByName(ps))
  }

  lemma {:induction false} ConcatenatedAppend(a: seq<Param>, b: seq<Param>)
    ensures Concatenated(a + b) == Concatenated(a) + Concatenated(b)
    decreases |b|
  {
    if b == [] {
      assert a + b == a;
    } else {
      var front := b[..|b| - 1];
      assert (a + b)[..|a + b| - 1] == a + front;
      ConcatenatedAppend(a, front);
    }
  }

  /** The parameters in any order give the same signing string. */
  lemma ParamStringOrderFree(ps: seq<Param>, qs: seq<Param>)
    requires DistinctNames(ps) && multiset(ps) == multiset(qs)
    ensures DistinctNames(qs)
    ensures ParamString(ps) == ParamString(qs)
  {
    forall i, j | 0 <= i < j < |qs| ensures qs[i].0 != qs[j].0 {
      NamesStayDistinct(ps, qs, i, j);
    }
    SortSorted(ps);
    SortSorted(qs);
    SortedUnique(SortByName(ps), SortByName(qs));
  }

  lemma NamesStayDistinct(ps: seq<Param>, qs: seq<Param>, i: nat, j: nat)
    requires DistinctNames(ps) && multiset(ps) == multiset(qs) && i < j < |qs|
    ensures qs[i].0 != qs[j].0
  {
    if qs[i].0 == qs[j].0 {
      assert qs[i] in multiset(ps) && qs[j] in multiset(ps);
      var a :| 0 <= a < |ps| && ps[a] == qs[i];
      var b :| 0 <= b < |ps| && ps[b] == qs[j];
      assert a == b;
      OccursTwice(qs, i, j);
      DistinctCount(ps, a);
      assert false;
    }
  }

  lemma OccursTwice(s: seq<Param>, i: nat, j: nat)
    requires i < j < |s| && s[i] == s[j]
    ensures multiset(s)[s[i]] >= 2
  {
    assert s == s[..i] + [s[i]] + s[i + 1..j] + [s[j]] + s[j + 1..];
  }

  /** With distinct names an element occurs once. */
  lemma {:induction false} DistinctCount(ps: seq<Param>, a: nat)
    requires DistinctNames(ps) && a < |ps|
    ensures multiset(ps)[ps[a]] == 1
    decreases |ps|
  {
    var last := |ps| - 1;
    var front := ps[..last];
    assert ps == front + [ps[last]];
    assert DistinctNames(front) by {
      forall i, j | 0 <= i < j < |front| ensures front[i].0 != front[j].0 {
        assert front[i] == ps[i] && front[j] == ps[j];
      }
    }
    if a == last {
      assert ps[a] !in front by {
        forall k | 0 <= k < |front| ensures front[k] != ps[a] {
          assert front[k] == ps[k];
        }
      }
    } else {
      DistinctCount(front, a);
      assert front[a] == ps[a];
      assert ps[last] != ps[a];
    }
  }

  // ---- The route ----

  datatype Response = SecretMissing | BadRequest | Signature(hex: string)

  /**
   * `POST`: `secret` is the configured secret, `None` when unset, and `md5` the
   * hex MD5 digest of RFC 1321, which this model does not compute.
   */
  function SignRequest(secret: Option<string>, body: Body, md5: string -> string): (r: Response)
  {
    if secret.None? || secret.value == "" then SecretMissing
    else if body.NotObject? || !ValidParams(body.params) then BadRequest
    else Signature(md5(ParamString(body.params) + secret.value))
  }

  /**
   * A missing secret fails before the body is looked at; then an invalid body
   * is refused with 400; otherwise the signature is the digest of the signing
   * string followed by the secret.
   */
  lemma SignRequestSpec(secret: Option<string>, body: Body, md5: string -> string)
    ensures SignRequest(secret, body, md5) == SecretMissing <==> secret.None? || secret.value == ""
    ensures SignRequest(secret, body, md5) == BadRequest <==>
      secret.Some? && secret.value != "" && (body.NotObject? || !ValidParams(body.params))
    ensures SignRequest(secret, body, md5).Signature? ==>
      SignRequest(secret, body, md5).hex == md5(ParamString(body.params) + secret.value)
  {
  }

  /** Validation looks at each parameter by itself, so it too is free of the order. */
  lemma ValidParamsOrderFree(ps: seq<Param>, qs: seq<Param>)
    requires multiset(ps) == multiset(qs)
    ensures ValidParams(ps) <==> ValidParams(qs)
  {
    forall i | 0 <= i < |qs| ensures qs[i] in ps {
      assert qs[i] in multiset(ps);
    }
    forall i | 0 <= i < |ps| ensures ps[i] in qs {
      assert ps[i] in multiset(qs);
    }
    if HasName(ps, "api_key") {
      var i :| 0 <= i < |ps| && ps[i].0 == "api_key";
      var j :| 0 <= j < |qs| && qs[j] == ps[i];
    }
    if HasName(qs, "api_key") {
      var i :| 0 <= i < |qs| && qs[i].0 == "api_key";
      var j :| 0 <= j < |ps| && ps[j] == qs[i];
    }
    if HasName(ps, "method") {
      var i :| 0 <= i < |ps| && ps[i].0 == "method";
      var j :| 0 <= j < |qs| && qs[j] == ps[i];
    }
    if HasName(qs, "method") {
      var i :| 0 <= i < |qs| && qs[i].0 == "method";
      var j :| 0 <= j < |ps| && ps[j] == qs[i];
    }
  }

  /** The response does not depend on the order of the parameters in the body. */
  lemma SignatureOrderFree(secret: Option<string>, ps: seq<Param>, qs: seq<Param>, md5: string -> string)
    requires DistinctNames(ps) && multiset(ps) == multiset(qs)
    ensures SignRequest(secret, Object(ps), md5) == SignRequest(secret, Object(qs), md5)
  {
    ValidParamsOrderFree(ps, qs);
    ParamStringOrderFree(ps, qs);
  }

  /** An `api_key` one character short is refused. */
  lemma ShortKeyRefused(key: string, md5: string -> string)
    requires |key| == 31
    ensures SignRequest(Some("s"), Object([("api_key", Str(key)), ("method", Str("auth.getSession"))]), md5) == BadRequest
  {
    var ps := [("api_key", Str(key)), ("method", Str("auth.getSession"))];
    assert !ParamOk(ps[0]);
  }

  /** A `format` parameter is refused whatever its value. */
  lemma FormatRefused(ps: seq<Param>, i: nat, md5: string -> string)
    requires i < |ps| && ps[i].0 == "format"
    ensures SignRequest(Some("s"), Object(ps), md5) == BadRequest
  {
    assert !ParamOk(ps[i]);
  }

  // ---- The client's request ----

  /**
   * The body `scrobbleTrack` posts to the route: the `URLSearchParams` entries
   * in insertion order, `album` and `cb` appended when they are set.
   */
  function ClientParams(artist: string, track: string, timestamp: nat, apiKey: string, sessionToken: string,
                        album: Option<string>, cbUrl: Option<string>): seq<Param>
  {
    var fixed := [("method", Str("track.scrobble")), ("artist", Str(artist)), ("track", Str(track)),
                  ("timestamp", Str(Strings.NatToString(timestamp))), ("api_key", Str(apiKey)),
                  ("format", Str("json")), ("token", Str(sessionToken)), ("sk", Str(sessionToken))];
    var withAlbum := if ScrobbleTypes.Truthy(album) then fixed + [("album", Str(album.value))] else fixed;
    if ScrobbleTypes.Truthy(cbUrl) then withAlbum + [("cb", Str(cbUrl.value))] else withAlbum
  }

  /**
   * As written, the client always sends `format`, which the route's schema
   * forbids: every signing request of the client is refused with 400, whatever
   * the other parameters are.
   */
  lemma ClientBodyRefused(secret: string, artist: string, track: string, timestamp: nat, apiKey: string,
                          sessionToken: string, album: Option<string>, cbUrl: Option<string>, md5: string -> string)
    requires secret != ""
    ensures SignRequest(Some(secret), Object(ClientParams(artist, track, timestamp, apiKey, sessionToken, album, cbUrl)), md5)
      == BadRequest
  {
    var ps := ClientParams(artist, track, timestamp, apiKey, sessionToken, album, cbUrl);
    assert ps[5] == ("format", Str("json"));
    assert !ParamOk(ps[5]);
  }

  /**
   * The evidently intended body: the same parameters without `format`, which
   * Last.fm leaves out of the signature and the schema refuses.
   */
  function ClientSignedParams(artist: string, track: string, timestamp: nat, apiKey: string, sessionToken: string,
                              album: Option<string>, cbUrl: Option<string>): seq<Param>
  {
    var fixed := [("method", Str("track.scrobble")), ("artist", Str(artist)), ("track", Str(track)),
                  ("timestamp", Str(Strings.NatToString(timestamp))), ("api_key", Str(apiKey)),
                  ("token", Str(sessionToken)), ("sk", Str(sessionToken))];
    var withAlbum := if ScrobbleTypes.Truthy(album) then fixed + [("album", Str(album.value))] else fixed;
    if ScrobbleTypes.Truthy(cbUrl) then withAlbum + [("cb", Str(cbUrl.value))] else withAlbum
  }

  /** The corrected body is the client's body with the `format` entry removed, and nothing else changed. */
  lemma SignedDropsFormat(artist: string, track: string, timestamp: nat, apiKey: string, sessionToken: string,
                          album: Option<string>, cbUrl: Option<string>)
    ensures var ps := ClientParams(artist, track, timestamp, apiKey, sessionToken, album, cbUrl);
      && ps[5] == ("format", Str("json"))
      && ClientSignedParams(artist, track, timestamp, apiKey, sessionToken, album, cbUrl) == ps[..5] + ps[6..]
  {
  }

  /** Every parameter of the list fits its declaration. */
  predicate AllOk(ps: seq<Param>) {
    forall i :: 0 <= i < |ps| ==> ParamOk(ps[i])
  }

  lemma AppendOk(ps: seq<Param>, q: Param)
    requires AllOk(ps) && ParamOk(q)
    ensures AllOk(ps + [q])
  {
    forall i | 0 <= i < |ps + [q]| ensures ParamOk((ps + [q])[i]) {
      if i < |ps| {
        assert (ps + [q])[i] == ps[i];
      }
    }
  }

  /** The seven fixed parameters of the corrected body fit the schema. */
  lemma FixedOk(artist: string, track: string, stamp: string, apiKey: string, sessionToken: string)
    requires |apiKey| == 32 && artist != "" && track != "" && stamp != "" && sessionToken != ""
    ensures AllOk([("method", Str("track.scrobble")), ("artist", Str(artist)), ("track", Str(track)),
                   ("timestamp", Str(stamp)), ("api_key", Str(apiKey)),
                   ("token", Str(sessionToken)), ("sk", Str(sessionToken))])
  {
    assert "artist" in OptionalNames && "track" in OptionalNames && "timestamp" in OptionalNames;
    assert "token" in OptionalNames && "sk" in OptionalNames;
  }

  /**
   * Without `format`, a client request with a 32-character key and non-empty
   * artist, track and session token passes the schema and is signed.
   */
  lemma CorrectedClientSigned(secret: string, artist: string, track: string, timestamp: nat, apiKey: string,
                              sessionToken: string, album: Option<string>, cbUrl: Option<string>, md5: string -> string)
    requires secret != "" && |apiKey| == 32 && artist != "" && track != "" && sessionToken != ""
    ensures var ps := ClientSignedParams(artist, track, timestamp, apiKey, sessionToken, album, cbUrl);
      SignRequest(Some(secret), Object(ps), md5) == Signature(md5(ParamString(ps) + secret))
  {
    CorrectedValid(artist, track, timestamp, apiKey, sessionToken, album, cbUrl);
  }

  /** The corrected body passes the schema. */
  lemma CorrectedValid(artist: string, track: string, timestamp: nat, apiKey: string,
                       sessionToken: string, album: Option<string>, cbUrl: Option<string>)
    requires |apiKey| == 32 && artist != "" && track != "" && sessionToken != ""
    ensures ValidParams(ClientSignedParams(artist, track, timestamp, apiKey, sessionToken, album, cbUrl))
  {
    var stamp := Strings.NatToString(timestamp);
    var fixed := [("method", Str("track.scrobble")), ("artist", Str(artist)), ("track", Str(track)),
                  ("timestamp", Str(stamp)), ("api_key", Str(apiKey)),
                  ("token", Str(sessionToken)), ("sk", Str(sessionToken))];
    FixedOk(artist, track, stamp, apiKey, sessionToken);
    var withAlbum := if ScrobbleTypes.Truthy(album) then fixed + [("album", Str(album.value))] else fixed;
    if ScrobbleTypes.Truthy(album) {
      assert "album" in OptionalNames;
      AppendOk(fixed, ("album", Str(album.value)));
    }
    var ps := if ScrobbleTypes.Truthy(cbUrl) then withAlbum + [("cb", Str(cbUrl.value))] else withAlbum;
    if ScrobbleTypes.Truthy(cbUrl) {
      AppendOk(withAlbum, ("cb", Str(cbUrl.value)));
    }
    assert ps == ClientSignedParams(artist, track, timestamp, apiKey, sessionToken, album, cbUrl);
    ValidFromParts(ps);
  }

  /** A list of fitting parameters that starts with `method` and has `api_key` fifth is valid. */
  lemma ValidFromParts(ps: seq<Param>)
    requires AllOk(ps) && |ps| > 4 && ps[0].0 == "method" && ps[4].0 == "api_key"
    ensures ValidParams(ps)
  {
    assert HasName(ps, "method");
    assert HasName(ps, "api_key");
  }
}
