/**
  * Fetching a track list: `get_tracks_from_url` and the three strategies it
  * tries in order, `try_oembed_api`, `try_embed_page` and `try_direct_page`
  * (spotify_lib.py).
  *
  * The network is a function from request URL to reply, so a strategy's
  * result is determined by the replies to the URLs it requests. A reply's
  * body is given as each parser of the downloader sees it.
  */
module Strategies {
  import opened Wrappers
  import opened Seqs
  import opened PyText
  import opened SpotifyUrl
  import opened JsonTracks
  import opened RegexTracks

  /** A response body as seen by `response.json()` (`None`: it raised), by
    * `json.loads` applied to each capture of the four script-block patterns
    * in pattern order (`None`: that call raised), and by the seven
    * track patterns of `enhanced_regex_extract` in pattern order. */
  datatype Page = Page(json: Option<Json>, blocks: seq<Option<Json>>, matches: seq<Match>)

  /** `session.get(u)`: it raised (`NoReply`) or it returned a status and a
    * body. */
  datatype HttpReply = NoReply | Reply(status: int, page: Page)

  type Network = string -> HttpReply

  function OEmbedUrl(url: string): string {
    "https://open.spotify.com/oembed?url=" + url
  }

  function EmbedUrl(r: ContentRef): string {
    "https://open.spotify.com/embed/" + KindName(r.kind) + "/" + r.id
  }

  function DirectUrl(r: ContentRef): string {
    "https://open.spotify.com/" + KindName(r.kind) + "/" + r.id
  }

  /** The reply is a 200 whose JSON body is an object with a string
    * `title` `t`. */
  ghost predicate HasTitle(reply: HttpReply, t: string) {
    && reply.Reply? && reply.status == 200
    && reply.page.json.Some? && reply.page.json.value.JObject?
    && Get(reply.page.json.value.fields, "title") == Some(JString(t))
  }

  /** `try_oembed_api`: only a single track is listed by oEmbed, as its
    * title; albums and playlists, failed requests, non-200 replies,
    * undecodable bodies, non-object bodies and empty titles give `[]`. */
  function TryOEmbedApi(kind: Kind, reply: HttpReply): (r: seq<string>)
    ensures |r| <= 1
    ensures r != [] ==> kind == Track && r[0] != "" && HasTitle(reply, r[0])
  {
    if kind == Track && reply.Reply? && reply.status == 200
      && reply.page.json.Some? && reply.page.json.value.JObject?
    then
      match Get(reply.page.json.value.fields, "title")
      case Some(JString(t)) => if t != "" then [t] else []
      case _ => []
    else []
  }

  /** A track whose reply carries a non-empty title gets that title. */
  lemma TryOEmbedApiFinds(kind: Kind, reply: HttpReply, t: string)
    requires kind == Track && t != "" && HasTitle(reply, t)
    ensures TryOEmbedApi(kind, reply) == [t]
  {
  }

  /** What one script block adds: nothing when `json.loads` or the walk
    * raised, otherwise the walk's de-duplicated tracks. */
  function BlockTracks(b: Option<Json>): seq<string>
  {
    match b
    case None => []
    case Some(j) => if Raises in Probes(j) then [] else Dedup(Yielded(Probes(j)))
  }

  /** A block's tracks are distinct descriptors. */
  lemma BlockTracksSound(b: Option<Json>)
    ensures NoDup(BlockTracks(b))
    ensures forall t :: t in BlockTracks(b) ==> IsDescriptor(t)
  {
    if b.Some? && Raises !in Probes(b.value) {
      DedupMembers(Yielded(Probes(b.value)));
      YieldedMembers(Probes(b.value));
    }
  }

  /** The tracks of each block, block by block. */
  function BlockParts(blocks: seq<Option<Json>>): (r: seq<seq<string>>)
    ensures |r| == |blocks| && forall i :: 0 <= i < |blocks| ==> r[i] == BlockTracks(blocks[i])
  {
    seq(|blocks|, i requires 0 <= i < |blocks| => BlockTracks(blocks[i]))
  }

  /** `tracks.extend(extracted)` over all blocks: concatenation, with no
    * de-duplication across blocks. */
  function StructuredTracks(blocks: seq<Option<Json>>): seq<string>
  {
    Flatten(BlockParts(blocks))
  }

  /** Every structured track is a descriptor. */
  lemma StructuredTracksSound(blocks: seq<Option<Json>>)
    ensures forall t :: t in StructuredTracks(blocks) ==> IsDescriptor(t)
  {
    FlattenMembers(BlockParts(blocks));
    forall k | 0 <= k < |blocks| {
      BlockTracksSound(blocks[k]);
    }
  }

  /** The same block found twice (say by two of the four patterns) lists its
    * tracks twice. */
  lemma RepeatedBlockRepeats(b: Option<Json>)
    requires BlockTracks(b) != []
    ensures !NoDup(StructuredTracks([b, b]))
  {
    var t := BlockTracks(b);
    var parts := BlockParts([b, b]);
    assert parts == [t, t];
    assert parts[..1] == [t] && [t][..0] == [];
    assert parts == [t] + [t];
    FlattenAppend([t], [t]);
    var r := StructuredTracks([b, b]);
    assert r == t + t;
    assert r[0] == r[|t|];
  }

  /** `try_embed_page`: on a 200 reply, the tracks of all script blocks;
    * when there are none, the regex extraction of the same page. */
  function EmbedTracks(reply: HttpReply): seq<string>
  {
    if reply.Reply? && reply.status == 200 then
      var found := StructuredTracks(reply.page.blocks);
      if found != [] then found else ScrapedTracks(reply.page.matches)
    else []
  }

  /** `try_direct_page`: on a 200 reply, the regex extraction of the page. */
  function DirectTracks(reply: HttpReply): seq<string>
  {
    if reply.Reply? && reply.status == 200 then ScrapedTracks(reply.page.matches) else []
  }

  /** Every track the embed page yields is a JSON descriptor or, when no
    * block yielded one, an accepted regex candidate; the regex list is
    * only consulted when the blocks gave nothing. */
  lemma EmbedTracksShape(reply: HttpReply)
    ensures forall t :: t in EmbedTracks(reply) ==> IsDescriptor(t) || Acceptable(t)
    ensures EmbedTracks(reply) != [] ==> reply.Reply? && reply.status == 200
    ensures reply.Reply? && reply.status == 200 && StructuredTracks(reply.page.blocks) != [] ==>
      EmbedTracks(reply) == StructuredTracks(reply.page.blocks)
  {
    if reply.Reply? {
      ScrapedTracksSound(reply.page.matches);
      StructuredTracksSound(reply.page.blocks);
    }
  }

  /** The direct page yields at most 50 distinct, accepted tracks. */
  lemma DirectTracksShape(reply: HttpReply)
    ensures |DirectTracks(reply)| <= 50 && NoDup(DirectTracks(reply))
    ensures forall t :: t in DirectTracks(reply) ==> Acceptable(t)
    ensures DirectTracks(reply) != [] ==> reply.Reply? && reply.status == 200
  {
    if reply.Reply? {
      ScrapedTracksSound(reply.page.matches);
    }
  }

  method TryEmbedPage(reply: HttpReply) returns (tracks: seq<string>)
    ensures tracks == EmbedTracks(reply)
  {
    tracks := [];
    if reply.Reply? && reply.status == 200 {
      var blocks := reply.page.blocks;
      ghost var parts := BlockParts(blocks);
      var i := 0;
      while i < |blocks|
        invariant 0 <= i <= |blocks|
        invariant tracks == Flatten(parts[..i])
      {
        assert parts[..i + 1][..i] == parts[..i];
        match blocks[i] {
          case None =>
          case Some(data) =>
            var extracted := ExtractTracksFromJson(data);
            if extracted.Some? && extracted.value != [] {
              tracks := tracks + extracted.value;
            }
        }
        i := i + 1;
      }
      assert parts[..i] == parts;
      if tracks == [] {
        tracks := EnhancedRegexExtract(reply.page.matches);
      }
    }
  }

  method TryDirectPage(reply: HttpReply) returns (tracks: seq<string>)
    ensures tracks == DirectTracks(reply)
  {
    tracks := [];
    if reply.Reply? && reply.status == 200 {
      tracks := EnhancedRegexExtract(reply.page.matches);
    }
  }

  datatype Approach = OEmbedApi | EmbedPage | DirectPage

  /** The order in which `get_tracks_from_url` tries the strategies. */
  const Approaches: seq<Approach> := [OEmbedApi, EmbedPage, DirectPage]

  /** The request a strategy makes for the link `url`, identified as `ref`. */
  function RequestUrl(a: Approach, url: string, ref: ContentRef): string {
    match a
    case OEmbedApi => OEmbedUrl(url)
    case EmbedPage => EmbedUrl(ref)
    case DirectPage => DirectUrl(ref)
  }

  /** A strategy's result, given the reply to its request. */
  function Outcome(a: Approach, kind: Kind, reply: HttpReply): seq<string> {
    match a
    case OEmbedApi => TryOEmbedApi(kind, reply)
    case EmbedPage => EmbedTracks(reply)
    case DirectPage => DirectTracks(reply)
  }

  function Attempt(a: Approach, url: string, ref: ContentRef, net: Network): seq<string> {
    Outcome(a, ref.kind, net(RequestUrl(a, url, ref)))
  }

  /** The first non-empty list, or `[]`. */
  function FirstNonEmpty(rs: seq<seq<string>>): seq<string>
  {
    if rs == [] then []
    else if rs[0] != [] then rs[0]
    else FirstNonEmpty(rs[1..])
  }

  /** The answer is empty exactly when every list is. */
  lemma {:induction false} FirstNonEmptyEmpty(rs: seq<seq<string>>)
    ensures FirstNonEmpty(rs) == [] <==> forall i :: 0 <= i < |rs| ==> rs[i] == []
  {
    if rs != [] && rs[0] == [] {
      FirstNonEmptyEmpty(rs[1..]);
      assert forall j :: 0 <= j < |rs[1..]| ==> rs[1..][j] == rs[j + 1];
    }
  }

  /** A non-empty answer is some list all of whose predecessors are empty. */
  lemma {:induction false} FirstNonEmptyIsFirst(rs: seq<seq<string>>)
    ensures FirstNonEmpty(rs) != [] ==>
      exists i :: 0 <= i < |rs| && FirstNonEmpty(rs) == rs[i] && forall j :: 0 <= j < i ==> rs[j] == []
  {
    if rs != [] && rs[0] == [] {
      var tail := rs[1..];
      FirstNonEmptyIsFirst(tail);
      if FirstNonEmpty(tail) != [] {
        var i :| 0 <= i < |tail| && FirstNonEmpty(tail) == tail[i] && forall j :: 0 <= j < i ==> tail[j] == [];
        assert FirstNonEmpty(rs) == rs[i + 1];
        forall j | 0 <= j < i + 1 ensures rs[j] == [] {
          if j > 0 {
            assert rs[j] == tail[j - 1];
          }
        }
      }
    }
  }

  /** Looking from position `i` on: the list there if it is non-empty,
    * otherwise whatever comes after it. */
  lemma FirstNonEmptyFrom(rs: seq<seq<string>>, i: nat)
    requires i < |rs|
    ensures FirstNonEmpty(rs[i..]) == if rs[i] != [] then rs[i] else FirstNonEmpty(rs[i + 1..])
  {
    assert rs[i..][0] == rs[i];
    assert rs[i..][1..] == rs[i + 1..];
  }

  /** The result of each strategy, in the order they are tried. */
  function Results(url: string, ref: ContentRef, net: Network): (r: seq<seq<string>>)
    ensures |r| == |Approaches|
  {
    seq(|Approaches|, k requires 0 <= k < |Approaches| => Attempt(Approaches[k], url, ref, net))
  }

  /** The `k`-th result is what the `k`-th strategy finds. */
  lemma ResultsAt(url: string, ref: ContentRef, net: Network, k: nat)
    requires k < |Approaches|
    ensures Results(url, ref, net)[k] == Attempt(Approaches[k], url, ref, net)
  {
  }

  /** What `get_tracks_from_url` returns: nothing for a link that fails
    * `validate_url` or `extract_spotify_id`, otherwise the result of the
    * first strategy that finds tracks, or `[]`. */
  function Resolve(url: Option<string>, net: Network): seq<string> {
    if !ValidateUrl(url) then []
    else
      match ExtractSpotifyId(url.value)
      case None => []
      case Some(ref) => FirstNonEmpty(Results(url.value, ref, net))
  }

  method RunApproach(a: Approach, url: string, ref: ContentRef, net: Network) returns (tracks: seq<string>)
    ensures tracks == Attempt(a, url, ref, net)
  {
    var reply := net(RequestUrl(a, url, ref));
    match a {
      case OEmbedApi => tracks := TryOEmbedApi(ref.kind, reply);
      case EmbedPage => tracks := TryEmbedPage(reply);
      case DirectPage => tracks := TryDirectPage(reply);
    }
  }

  /** The loop of `get_tracks_from_url`: run the strategies in order and
    * stop at the first that finds tracks. `attempted` records the
    * strategies run. */
  method TryApproaches(url: string, ref: ContentRef, net: Network) returns (tracks: seq<string>, ghost attempted: seq<Approach>)
    ensures tracks == FirstNonEmpty(Results(url, ref, net))
    ensures attempted <= Approaches && attempted != []
    ensures forall k :: 0 <= k < |attempted| - 1 ==> Attempt(attempted[k], url, ref, net) == []
    ensures |attempted| < |Approaches| ==> tracks != [] && tracks == Attempt(attempted[|attempted| - 1], url, ref, net)
  {
    ghost var rs := Results(url, ref, net);
    tracks, attempted := [], [];
    var i := 0;
    while i < |Approaches|
      invariant 0 <= i <= |Approaches|
      invariant attempted == Approaches[..i] && tracks == []
      invariant forall k :: 0 <= k < i ==> Attempt(Approaches[k], url, ref, net) == []
      invariant FirstNonEmpty(rs) == FirstNonEmpty(rs[i..])
    {
      tracks := RunApproach(Approaches[i], url, ref, net);
      ResultsAt(url, ref, net, i);
      FirstNonEmptyFrom(rs, i);
      attempted := Approaches[..i + 1];
      if tracks != [] {
        return;
      }
      i := i + 1;
    }
    assert rs[i..] == [];
  }

  /** `get_tracks_from_url`. `attempted` records the strategies run: none
    * for a rejected link, otherwise those up to and including the first
    * that found tracks. */
  method GetTracksFromUrl(url: Option<string>, net: Network) returns (tracks: seq<string>, ghost attempted: seq<Approach>)
    ensures tracks == Resolve(url, net)
    ensures attempted <= Approaches
    ensures attempted == [] <==> !ValidateUrl(url) || ExtractSpotifyId(url.value).None?
    ensures attempted != [] ==>
      var ref := ExtractSpotifyId(url.value).value;
      && (forall k :: 0 <= k < |attempted| - 1 ==> Attempt(attempted[k], url.value, ref, net) == [])
      && (|attempted| < |Approaches| ==> tracks != [] && tracks == Attempt(attempted[|attempted| - 1], url.value, ref, net))
  {
    tracks, attempted := [], [];
    if !ValidateUrl(url) {
      return;
    }
    var found := ExtractSpotifyId(url.value);
    if found.None? {
      return;
    }
    tracks, attempted := TryApproaches(url.value, found.value, net);
  }

  /** A non-empty result comes from a link that passed both checks and was
    * identified as `ref`, and is the result of the strategy at position
    * `i`, all of whose predecessors found nothing. */
  lemma ResolveFirstSuccess(url: Option<string>, net: Network) returns (ref: ContentRef, i: nat)
    ensures Resolve(url, net) != [] ==>
      && ValidateUrl(url) && ExtractSpotifyId(url.value) == Some(ref)
      && i < |Approaches| && Resolve(url, net) == Attempt(Approaches[i], url.value, ref, net)
      && forall j :: 0 <= j < i ==> Attempt(Approaches[j], url.value, ref, net) == []
  {
    ref, i := ContentRef(Track, []), 0;
    if ValidateUrl(url) && ExtractSpotifyId(url.value).Some? {
      ref := ExtractSpotifyId(url.value).value;
      if FirstNonEmpty(Results(url.value, ref, net)) != [] {
        i := ResultsFirstSuccess(url.value, ref, net);
      }
    }
  }

  /** `ResolveFirstSuccess` for a link that passed both checks: the
    * position of the strategy that found the tracks. */
  lemma ResultsFirstSuccess(url: string, ref: ContentRef, net: Network) returns (i: nat)
    requires FirstNonEmpty(Results(url, ref, net)) != []
    ensures i < |Approaches| && FirstNonEmpty(Results(url, ref, net)) == Attempt(Approaches[i], url, ref, net)
    ensures forall j :: 0 <= j < i ==> Attempt(Approaches[j], url, ref, net) == []
  {
    var rs := Results(url, ref, net);
    FirstNonEmptyIsFirst(rs);
    i :| 0 <= i < |rs| && FirstNonEmpty(rs) == rs[i] && forall j :: 0 <= j < i ==> rs[j] == [];
    ResultsAt(url, ref, net, i);
    forall j | 0 <= j < i ensures Attempt(Approaches[j], url, ref, net) == [] {
      ResultsAt(url, ref, net, j);
    }
  }

  /** For a link whose id can be extracted, the result is the first
    * non-empty strategy result (such a link always passes validation). */
  lemma ResolveExtracted(url: string, ref: ContentRef, net: Network)
    requires ExtractSpotifyId(url) == Some(ref)
    ensures Resolve(Some(url), net) == FirstNonEmpty(Results(url, ref, net))
  {
    ExtractImpliesValid(url);
  }

  lemma ResultsSkipOEmbed(url: string, ref: ContentRef, net: Network)
    requires ref.kind != Track
    ensures FirstNonEmpty(Results(url, ref, net)) ==
      FirstNonEmpty([Attempt(EmbedPage, url, ref, net), Attempt(DirectPage, url, ref, net)])
  {
    var rs := Results(url, ref, net);
    ResultsAt(url, ref, net, 0);
    ResultsAt(url, ref, net, 1);
    ResultsAt(url, ref, net, 2);
    assert rs[0] == TryOEmbedApi(ref.kind, net(OEmbedUrl(url))) == [];
    assert rs[1..] == [Attempt(EmbedPage, url, ref, net), Attempt(DirectPage, url, ref, net)];
    FirstNonEmptyFrom(rs, 0);
    assert rs[0..] == rs;
  }

  /** oEmbed only ever answers for a single track: for an album or a
    * playlist the result comes from the embed page, else the direct page. */
  lemma CollectionsSkipOEmbed(url: string, ref: ContentRef, net: Network)
    requires ExtractSpotifyId(url) == Some(ref) && ref.kind != Track
    ensures Resolve(Some(url), net) == FirstNonEmpty([Attempt(EmbedPage, url, ref, net), Attempt(DirectPage, url, ref, net)])
  {
    ResolveExtracted(url, ref, net);
    ResultsSkipOEmbed(url, ref, net);
  }

  /** The result depends on the network only through the three requests. */
  lemma ResolveReadsThreeUrls(url: string, ref: ContentRef, n1: Network, n2: Network)
    requires ExtractSpotifyId(url) == Some(ref)
    requires forall a :: a in Approaches ==> n1(RequestUrl(a, url, ref)) == n2(RequestUrl(a, url, ref))
    ensures Resolve(Some(url), n1) == Resolve(Some(url), n2)
  {
    var r1, r2 := Results(url, ref, n1), Results(url, ref, n2);
    forall k | 0 <= k < |Approaches| ensures r1[k] == r2[k] {
      assert Approaches[k] in Approaches;
      ResultsAt(url, ref, n1, k);
      ResultsAt(url, ref, n2, k);
    }
    assert r1 == r2;
  }
}
