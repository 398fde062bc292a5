/**
  * The download side (spotify_lib.py): `download_track`'s decision,
  * `download_playlist`'s loop and statistics, and `get_downloaded_files`.
  *
  * yt-dlp is given as what the search and the download did for each call:
  * a function of the query alone for one `download_track`, and of the
  * position in the playlist and the query for `download_playlist`, so the
  * same track may fare differently at two positions. The download directory
  * is given as its state.
  */
module Downloads {
  import opened Wrappers
  import opened PyText
  import opened SpotifyUrl
  import opened Strategies

  /** One search result; `title` is `None` when the entry has no `title`
    * key. */
  datatype Entry = Entry(title: Option<string>)

  /** What yt-dlp did for one query: `extract_info` raised, or it returned
    * an info dict (`entries` is `None` when the dict has no `entries` key)
    * and the following `download` call raised or not. */
  datatype YtOutcome =
    | SearchRaised
    | Searched(entries: Option<seq<Entry>>, downloadRaised: bool)

  /** yt-dlp as one `download_track` call sees it. */
  type Search = string -> YtOutcome

  /** yt-dlp over a playlist: the outcome of the call made for the track at
    * a given position. */
  type YouTube = (nat, string) -> YtOutcome

  /** The calls made for the track at position `i`. */
  function At(yt: YouTube, i: nat): Search {
    q => yt(i, q)
  }

  /** The query handed to yt-dlp for a track. */
  function SearchQuery(query: string): (q: string)
    ensures |q| == |query| + 10 && StartsWith(q, "ytsearch1:") && EndsWith(q, query)
  {
    var q := "ytsearch1:" + query;
    assert q[|q| - |query|..] == query;
    q
  }

  /** The search returned an info dict whose `entries` list is non-empty
    * and whose first entry has a title. */
  predicate FoundTitledEntry(o: YtOutcome) {
    o.Searched? && o.entries.Some? && o.entries.value != [] && o.entries.value[0].title.Some?
  }

  /** `download_track`: a success needs a search that found a titled first
    * entry and a download that did not raise; any exception, a missing or
    * empty `entries` list, or a first entry without a title gives `False`. */
  function DownloadTrack(query: string, yt: Search): (ok: bool)
    ensures ok <==> FoundTitledEntry(yt(SearchQuery(query))) && !yt(SearchQuery(query)).downloadRaised
  {
    match yt(SearchQuery(query))
    case SearchRaised => false
    case Searched(entries, downloadRaised) =>
      if entries.Some? && |entries.value| > 0 then
        if entries.value[0].title.None? then false
        else !downloadRaised
      else false
  }

  /** The statistics dict returned by `download_playlist`. */
  datatype Stats = Stats(total: nat, successful: nat, failed: nat)

  /** How many of `tracks` download successfully, the track at position
    * `i` with the calls `At(yt, i)`. */
  function Succeeded(tracks: seq<string>, yt: YouTube): (n: nat)
    ensures n <= |tracks|
  {
    if tracks == [] then 0
    else
      var i := |tracks| - 1;
      Succeeded(tracks[..i], yt) + (if DownloadTrack(tracks[i], At(yt, i)) then 1 else 0)
  }

  /** Every track succeeds exactly when the count reaches the length, and
    * none does exactly when it is zero. */
  lemma {:induction false} SucceededBounds(tracks: seq<string>, yt: YouTube)
    ensures Succeeded(tracks, yt) == |tracks| <==> forall i :: 0 <= i < |tracks| ==> DownloadTrack(tracks[i], At(yt, i))
    ensures Succeeded(tracks, yt) == 0 <==> forall i :: 0 <= i < |tracks| ==> !DownloadTrack(tracks[i], At(yt, i))
  {
    if tracks != [] {
      var p := tracks[..|tracks| - 1];
      SucceededBounds(p, yt);
      assert forall i :: 0 <= i < |p| ==> p[i] == tracks[i];
    }
  }

  /** What `download_playlist` returns: all zero for a link that yields no
    * tracks (a link that fails validation resolves to none); otherwise one
    * attempt per track. */
  function PlaylistStats(url: Option<string>, net: Network, yt: YouTube): Stats {
    StatsFor(Resolve(url, net), yt)
  }

  /** The statistics of downloading `tracks` one after the other. */
  function StatsFor(tracks: seq<string>, yt: YouTube): Stats {
    if tracks == [] then Stats(0, 0, 0)
    else
      var ok := Succeeded(tracks, yt);
      Stats(|tracks|, ok, |tracks| - ok)
  }

  /** Every track is counted exactly once, as a success or a failure. */
  lemma PlaylistStatsAccount(url: Option<string>, net: Network, yt: YouTube)
    ensures var s := PlaylistStats(url, net, yt);
      && s.total == |Resolve(url, net)|
      && s.successful + s.failed == s.total
      && (s.failed == 0 <==> forall i :: 0 <= i < |Resolve(url, net)| ==> DownloadTrack(Resolve(url, net)[i], At(yt, i)))
  {
    SucceededBounds(Resolve(url, net), yt);
  }

  /** The yt-dlp searches made for `tracks`, one per track, in order. */
  function Queries(tracks: seq<string>): (r: seq<string>)
    ensures |r| == |tracks| && forall i :: 0 <= i < |tracks| ==> r[i] == SearchQuery(tracks[i])
  {
    seq(|tracks|, i requires 0 <= i < |tracks| => SearchQuery(tracks[i]))
  }

  /** The loop of `download_playlist`: one `download_track` per track,
    * counted into the statistics. */
  method DownloadEach(tracks: seq<string>, yt: YouTube) returns (stats: Stats, ghost queries: seq<string>)
    ensures stats == Stats(|tracks|, Succeeded(tracks, yt), |tracks| - Succeeded(tracks, yt))
    ensures queries == Queries(tracks)
  {
    stats, queries := Stats(|tracks|, 0, 0), [];
    for i := 0 to |tracks|
      invariant stats.total == |tracks|
      invariant stats.successful == Succeeded(tracks[..i], yt)
      invariant stats.failed == i - Succeeded(tracks[..i], yt)
      invariant queries == Queries(tracks[..i])
    {
      assert tracks[..i + 1][..i] == tracks[..i];
      if DownloadTrack(tracks[i], At(yt, i)) {
        stats := stats.(successful := stats.successful + 1);
      } else {
        stats := stats.(failed := stats.failed + 1);
      }
      queries := queries + [SearchQuery(tracks[i])];
    }
    assert tracks[..|tracks|] == tracks;
  }

  /** `download_playlist`. `queries` records the yt-dlp searches made, in
    * order: none for a rejected link or an empty track list. */
  method DownloadPlaylist(url: Option<string>, net: Network, yt: YouTube) returns (stats: Stats, ghost queries: seq<string>)
    ensures stats == PlaylistStats(url, net, yt)
    ensures queries == Queries(Resolve(url, net))
  {
    stats, queries := Stats(0, 0, 0), [];
    if !ValidateUrl(url) {
      return;
    }
    var tracks, _ := GetTracksFromUrl(url, net);
    if tracks == [] {
      return;
    }
    stats, queries := DownloadEach(tracks, yt);
  }

  /** The four audio extensions the listing keeps (case-sensitive). */
  predicate IsAudioFile(name: string) {
    EndsWith(name, ".mp3") || EndsWith(name, ".m4a") || EndsWith(name, ".webm") || EndsWith(name, ".opus")
  }

  /** The directory as `os.path.exists` and `os.listdir` see it. */
  datatype DirState = Absent | NotADirectory | Directory(names: seq<string>)

  /** The audio file names of a listing, in listing order. */
  function AudioFiles(names: seq<string>): (r: seq<string>)
    ensures |r| <= |names|
    ensures forall f :: f in r ==> IsAudioFile(f)
  {
    if names == [] then []
    else
      var prev := AudioFiles(names[..|names| - 1]);
      var f := names[|names| - 1];
      if IsAudioFile(f) then prev + [f] else prev
  }

  /** A name is listed exactly when it is in the directory and has an
    * audio extension. */
  lemma {:induction false} AudioFilesMembers(names: seq<string>)
    ensures forall f :: f in AudioFiles(names) <==> f in names && IsAudioFile(f)
  {
    if names != [] {
      var p := names[..|names| - 1];
      AudioFilesMembers(p);
      assert names == p + [names[|names| - 1]];
    }
  }

  /** Filtering a listing twice changes nothing. */
  lemma {:induction false} AudioFilesIdempotent(names: seq<string>)
    ensures AudioFiles(AudioFiles(names)) == AudioFiles(names)
  {
    if names != [] {
      var p, f := names[..|names| - 1], names[|names| - 1];
      AudioFilesIdempotent(p);
      if IsAudioFile(f) {
        var r := AudioFiles(p) + [f];
        assert r[..|r| - 1] == AudioFiles(p);
      }
    }
  }

  /** `get_downloaded_files`: `[]` when the directory does not exist; when
    * the path exists but is not a directory, `os.listdir` raises and the
    * exception propagates (`None`). */
  function GetDownloadedFiles(dir: DirState): (r: Option<seq<string>>)
    ensures r.None? <==> dir.NotADirectory?
    ensures dir.Absent? ==> r == Some([])
    ensures dir.Directory? ==> r.Some? && forall f :: f in r.value <==> f in dir.names && IsAudioFile(f)
  {
    match dir
    case Absent => Some([])
    case NotADirectory => None
    case Directory(names) =>
      AudioFilesMembers(names);
      Some(AudioFiles(names))
  }
}
