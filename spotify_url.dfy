/**
  * Recognising a Spotify link: `validate_url` and `extract_spotify_id`
  * (spotify_lib.py), both built on a leftmost search for the pattern
  * `spotify\.com/(track|album|playlist)/([a-zA-Z0-9]+)`.
  */
module SpotifyUrl {
  import opened Wrappers
  import opened PyText

  datatype Kind = Track | Album | Playlist

  /** The text of the first capture group. */
  function KindName(k: Kind): string {
    match k
    case Track => "track"
    case Album => "album"
    case Playlist => "playlist"
  }

  /** `(content_type, spotify_id)` as returned by `extract_spotify_id`. */
  datatype ContentRef = ContentRef(kind: Kind, id: string)

  /** The literal part of the pattern, for one alternative of the group. */
  function Prefix(k: Kind): string {
    "spotify.com/" + KindName(k) + "/"
  }

  /** `[a-zA-Z0-9]` */
  predicate IsIdChar(c: char) {
    'a' <= c <= 'z' || 'A' <= c <= 'Z' || '0' <= c <= '9'
  }

  /** The pattern matches at index `p` of `s` through alternative `k`
    * (the literal, then at least one identifier character). */
  predicate MatchAt(s: string, p: int, k: Kind) {
    0 <= p && p + |Prefix(k)| < |s| && s[p..p + |Prefix(k)|] == Prefix(k) && IsIdChar(s[p + |Prefix(k)|])
  }

  /** `re.search` finds the pattern somewhere in `s`. */
  ghost predicate HasMatch(s: string) {
    exists p, k :: MatchAt(s, p, k)
  }

  /** The match is the leftmost one. */
  ghost predicate LeftmostMatch(s: string, p: int, k: Kind) {
    MatchAt(s, p, k) && forall q, k' :: 0 <= q < p ==> !MatchAt(s, q, k')
  }

  /** At most one alternative matches at a given index, so the order in
    * which the regex tries them does not matter. */
  lemma KindUnique(s: string, p: int, k1: Kind, k2: Kind)
    requires MatchAt(s, p, k1) && MatchAt(s, p, k2)
    ensures k1 == k2
  {
    assert s[p..p + |Prefix(k1)|][12] == Prefix(k1)[12];
    assert s[p..p + |Prefix(k2)|][12] == Prefix(k2)[12];
  }

  /** The alternative that matches at `p`, tried in the pattern's order. */
  function KindAt(s: string, p: int): (r: Option<Kind>)
    ensures r.Some? ==> MatchAt(s, p, r.value)
    ensures r.None? <==> !MatchAt(s, p, Track) && !MatchAt(s, p, Album) && !MatchAt(s, p, Playlist)
  {
    if MatchAt(s, p, Track) then Some(Track)
    else if MatchAt(s, p, Album) then Some(Album)
    else if MatchAt(s, p, Playlist) then Some(Playlist)
    else None
  }

  /** The greedy `[a-zA-Z0-9]+` starting at `j`: the longest run of
    * identifier characters. */
  function IdRun(s: string, j: nat): (r: string)
    requires j <= |s|
    ensures j + |r| <= |s| && r == s[j..j + |r|]
    ensures forall i :: 0 <= i < |r| ==> IsIdChar(r[i])
    ensures j + |r| == |s| || !IsIdChar(s[j + |r|])
    decreases |s| - j
  {
    if j < |s| && IsIdChar(s[j]) then [s[j]] + IdRun(s, j + 1) else []
  }

  /** The first index in `[i, n)` at which `hit` holds. */
  function FirstHit(n: nat, i: nat, hit: nat -> bool): (r: Option<nat>)
    requires i <= n
    ensures r.Some? ==> i <= r.value < n && hit(r.value)
    ensures forall p :: i <= p < (if r.Some? then r.value else n) ==> !hit(p)
    decreases n - i
  {
    if i == n then None
    else if hit(i) then Some(i)
    else FirstHit(n, i + 1, hit)
  }

  /** The scan of `re.search`: the start indexes are tried from left to
    * right and the first at which the pattern matches is taken. */
  function FindFrom(s: string, i: nat): (r: Option<nat>)
    requires i <= |s|
    ensures r.Some? ==> i <= r.value < |s| && KindAt(s, r.value).Some?
    ensures forall p :: i <= p < (if r.Some? then r.value else |s|) ==> KindAt(s, p).None?
  {
    var hit := (p: nat) => KindAt(s, p).Some?;
    var r := FirstHit(|s|, i, hit);
    var end := if r.Some? then r.value else |s|;
    assert forall p :: i <= p < end ==> KindAt(s, p).None? by {
      forall p | i <= p < end ensures KindAt(s, p).None? {
        assert !hit(p);
      }
    }
    r
  }

  /** Where no alternative matches, the pattern does not match. */
  lemma KindAtNone(s: string, q: int, k: Kind)
    requires KindAt(s, q).None?
    ensures !MatchAt(s, q, k)
  {
  }

  /** When the scan finds nothing, the pattern occurs nowhere. */
  lemma NotFoundNoMatch(s: string)
    requires FindFrom(s, 0).None?
    ensures !HasMatch(s)
  {
    forall p, k ensures !MatchAt(s, p, k) {
      if 0 <= p < |s| {
        KindAtNone(s, p, k);
      }
    }
  }

  /** An index at which the pattern matches, with no match before it, is
    * the leftmost match. */
  lemma FoundLeftmost(s: string, p: nat)
    requires p < |s| && KindAt(s, p).Some?
    requires forall q :: 0 <= q < p ==> KindAt(s, q).None?
    ensures LeftmostMatch(s, p, KindAt(s, p).value) && HasMatch(s)
  {
    forall q, k' | 0 <= q < p ensures !MatchAt(s, q, k') {
      KindAtNone(s, q, k');
    }
  }

  /** The identifier after the literal part of a match is not empty. */
  lemma MatchHasId(s: string, p: nat, k: Kind)
    requires MatchAt(s, p, k)
    ensures p + |Prefix(k)| < |s| && IdRun(s, p + |Prefix(k)|) != []
  {
    assert IsIdChar(s[p + |Prefix(k)|]);
  }

  /** `re.search(pattern, s)` followed by `(match.group(1), match.group(2))`. */
  function RefSearch(s: string): Option<ContentRef> {
    match FindFrom(s, 0)
    case None => None
    case Some(p) =>
      var k := KindAt(s, p).value;
      Some(ContentRef(k, IdRun(s, p + |Prefix(k)|)))
  }

  /** The search succeeds exactly when the pattern occurs. */
  lemma RefSearchMatches(s: string)
    ensures RefSearch(s).Some? <==> HasMatch(s)
  {
    match FindFrom(s, 0)
    case None => NotFoundNoMatch(s);
    case Some(p) => FoundLeftmost(s, p);
  }

  /** A found reference is read off the first index at which the pattern
    * matches, `p`: its kind is the alternative matching there and its id
    * the longest run of identifier characters after the literal part. */
  lemma RefSearchAt(s: string) returns (p: nat)
    requires RefSearch(s).Some?
    ensures p < |s| && KindAt(s, p).Some? && forall q :: 0 <= q < p ==> KindAt(s, q).None?
    ensures var r := RefSearch(s).value;
      && r.kind == KindAt(s, p).value
      && p + |Prefix(r.kind)| < |s| && r.id == IdRun(s, p + |Prefix(r.kind)|)
  {
    p := FindFrom(s, 0).value;
  }

  /** What is found: the kind of the leftmost match, which starts at `p`,
    * and a non-empty id made of letters and digits. */
  lemma RefSearchFound(s: string) returns (p: nat)
    requires RefSearch(s).Some?
    ensures LeftmostMatch(s, p, RefSearch(s).value.kind)
    ensures RefSearch(s).value.id != []
    ensures forall i :: 0 <= i < |RefSearch(s).value.id| ==> IsIdChar(RefSearch(s).value.id[i])
  {
    p := RefSearchAt(s);
    FoundLeftmost(s, p);
    MatchHasId(s, p, KindAt(s, p).value);
  }

  /** `url.split('?')[0]`: everything before the first `?`. */
  function BeforeQuery(s: string): (r: string)
    ensures r <= s && '?' !in r
    ensures |r| < |s| ==> s[|r|] == '?'
  {
    if s == [] || s[0] == '?' then [] else [s[0]] + BeforeQuery(s[1..])
  }

  /** Every match starts with the domain. */
  lemma MatchHasDomain(s: string, p: int, k: Kind)
    requires MatchAt(s, p, k)
    ensures OccursAt(s, "spotify.com", p)
  {
    var m := s[p..p + |Prefix(k)|];
    assert m[..11] == Prefix(k)[..11] == "spotify.com";
    assert s[p..p + 11] == m[..11];
  }

  /** A string without the domain holds no match. */
  lemma NoDomainNoMatch(s: string)
    requires !Contains(s, "spotify.com")
    ensures !HasMatch(s)
  {
    forall p, k | MatchAt(s, p, k) ensures false {
      MatchHasDomain(s, p, k);
    }
  }

  /** `validate_url`: `None`, a non-string and the empty string are rejected;
    * otherwise the stripped URL must contain `spotify.com` and match the
    * pattern. */
  function ValidateUrl(url: Option<string>): (ok: bool)
    ensures ok <==> url.Some? && HasMatch(Strip(url.value))
  {
    match url
    case None => false
    case Some(u) =>
      if u == "" then false
      else
        var v := Strip(u);
        if !Contains(v, "spotify.com") then
          NoDomainNoMatch(v);
          false
        else
          RefSearchMatches(v);
          RefSearch(v).Some?
  }

  /** `extract_spotify_id`: the search runs on the part before the first
    * `?`; `(None, None)` is `None`. */
  function ExtractSpotifyId(url: string): (r: Option<ContentRef>)
    ensures r.Some? <==> HasMatch(BeforeQuery(url))
  {
    RefSearchMatches(BeforeQuery(url));
    RefSearch(BeforeQuery(url))
  }

  /** An extracted reference is read off the leftmost match before the
    * first `?`, which starts at `p`: its kind is that match's, and its id is
    * the longest run of letters and digits after the literal part, never
    * empty. */
  lemma ExtractSpotifyIdFound(url: string) returns (p: nat)
    requires ExtractSpotifyId(url).Some?
    ensures var v, r := BeforeQuery(url), ExtractSpotifyId(url).value;
      && LeftmostMatch(v, p, r.kind)
      && p + |Prefix(r.kind)| < |v| && r.id == IdRun(v, p + |Prefix(r.kind)|)
      && r.id != [] && (forall i :: 0 <= i < |r.id| ==> IsIdChar(r.id[i]))
  {
    var v := BeforeQuery(url);
    assert ExtractSpotifyId(url) == RefSearch(v);
    p := RefSearchFound(v);
    var q := RefSearchAt(v);
    if p < q {
      KindAtNone(v, p, RefSearch(v).value.kind);
    }
    assert p == q;
  }

  /** A match inside a slice is a match in the whole string. */
  lemma MatchFromSlice(s: string, a: int, b: int, p: int, k: Kind)
    requires 0 <= a <= b <= |s| && MatchAt(s[a..b], p, k)
    ensures MatchAt(s, p + a, k)
  {
    var L := |Prefix(k)|;
    var inSlice, inWhole := s[a..b][p..p + L], s[p + a..p + a + L];
    forall i | 0 <= i < L ensures inSlice[i] == inWhole[i] {
      assert inSlice[i] == s[a..b][p + i] == s[p + a + i];
    }
    assert inSlice == inWhole;
    assert s[a..b][p + L] == s[p + a + L];
  }

  /** A match lying within `[a, b)` is a match in the slice `s[a..b]`. */
  lemma MatchInSlice(s: string, a: int, b: int, p: int, k: Kind)
    requires MatchAt(s, p, k) && 0 <= a <= p && p + |Prefix(k)| < b <= |s|
    ensures MatchAt(s[a..b], p - a, k)
  {
    var L := |Prefix(k)|;
    forall i | 0 <= i < L ensures s[a..b][p - a..p - a + L][i] == Prefix(k)[i] {
      assert s[p..p + L][i] == s[p + i];
    }
    assert s[a..b][p - a + L] == s[p + L];
  }

  /** A match starts and ends on non-whitespace characters. */
  lemma MatchEndsNotSpace(s: string, p: int, k: Kind)
    requires MatchAt(s, p, k)
    ensures !IsSpace(s[p]) && !IsSpace(s[p + |Prefix(k)|])
  {
    assert Prefix(k)[0] == 's';
    assert s[p] == s[p..p + |Prefix(k)|][0];
  }

  /** Surrounding whitespace never changes the verdict of `validate_url`:
    * it accepts exactly the strings in which the pattern occurs. */
  lemma ValidateIgnoresWhitespace(u: string)
    ensures ValidateUrl(Some(u)) <==> HasMatch(u)
  {
    var a, b := StripSpan(u);
    if HasMatch(u) {
      var p, k :| MatchAt(u, p, k);
      MatchEndsNotSpace(u, p, k);
      MatchInSlice(u, a, b, p, k);
    }
    if HasMatch(Strip(u)) {
      var p, k :| MatchAt(u[a..b], p, k);
      MatchFromSlice(u, a, b, p, k);
    }
  }

  /** Whenever `extract_spotify_id` finds a reference, `validate_url` accepts
    * the same URL. */
  lemma ExtractImpliesValid(u: string)
    requires ExtractSpotifyId(u).Some?
    ensures ValidateUrl(Some(u))
  {
    var s := BeforeQuery(u);
    var p, k :| MatchAt(s, p, k);
    assert s == u[0..|s|];
    MatchFromSlice(u, 0, |s|, p, k);
    ValidateIgnoresWhitespace(u);
  }

  /** Cutting at the first `?` of `u + "?" + q` gives back `u`. */
  lemma {:induction false} BeforeQueryAppend(u: string, q: string)
    requires '?' !in u
    ensures BeforeQuery(u + "?" + q) == u
  {
    if u != [] {
      assert (u + "?" + q)[1..] == u[1..] + "?" + q;
      assert u[0] in u;
      BeforeQueryAppend(u[1..], q);
    }
  }

  /** A URL without `?` is kept whole. */
  lemma BeforeQueryNoMark(u: string)
    requires '?' !in u
    ensures BeforeQuery(u) == u
  {
  }

  /** A query string after the link does not change what is extracted. */
  lemma ExtractIgnoresQuery(u: string, q: string)
    requires '?' !in u
    ensures ExtractSpotifyId(u + "?" + q) == ExtractSpotifyId(u)
  {
    BeforeQueryAppend(u, q);
    assert BeforeQuery(u + "?" + q) == BeforeQuery(u);
  }

  /** The converse of ExtractImpliesValid fails: a `?` before the link hides
    * it from `extract_spotify_id` while `validate_url` still accepts the URL,
    * the case `get_tracks_from_url` reports as an invalid format. */
  lemma QueryHidesLink(v: string, w: string)
    requires '?' !in v && !HasMatch(v) && HasMatch(w)
    ensures ValidateUrl(Some(v + "?" + w))
    ensures ExtractSpotifyId(v + "?" + w) == None
  {
    ExtractIgnoresQuery(v, w);
    BeforeQueryNoMark(v);
    MatchAfterMark(v, w);
    ValidateIgnoresWhitespace(v + "?" + w);
  }

  /** A match after a `?` is still a match of the whole string. */
  lemma MatchAfterMark(v: string, w: string)
    requires HasMatch(w)
    ensures HasMatch(v + "?" + w)
  {
    var u := v + "?" + w;
    var p, k :| MatchAt(w, p, k);
    assert u[|v| + 1..|u|] == w;
    MatchFromSlice(u, |v| + 1, |u|, p, k);
  }

  /** The instances `x?spotify.com/track/<id>`. */
  lemma ValidButNotExtractable(id: string)
    requires id != [] && IsIdChar(id[0])
    ensures ValidateUrl(Some("x?" + Prefix(Track) + id))
    ensures ExtractSpotifyId("x?" + Prefix(Track) + id) == None
  {
    var v, w := "x", Prefix(Track) + id;
    assert MatchAt(w, 0, Track) by {
      assert w[0..|Prefix(Track)|] == Prefix(Track);
    }
    ShortTextNoMatch(v);
    assert "x?" + Prefix(Track) + id == v + "?" + w;
    QueryHidesLink(v, w);
  }

  /** A string shorter than every prefix holds no match. */
  lemma ShortTextNoMatch(v: string)
    requires |v| < 18
    ensures !HasMatch(v)
  {
    forall p, k ensures !MatchAt(v, p, k) {
      assert |Prefix(k)| >= 18;
    }
  }
}
