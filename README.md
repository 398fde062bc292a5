# Spotify-Downloader core, modelled in Dafny

This project models the logic of `SpotifyDownloader` in `spotify_lib.py`: the
part of the downloader that turns a Spotify link into a list of
`"Artist - Title"` descriptors and then downloads each one through a YouTube
search. Its pieces are:

- **URL recognition.** `validate_url` and `extract_spotify_id` are modelled in
  `spotify_url.dfy`. Both are built on a leftmost search for
  `spotify\.com/(track|album|playlist)/([a-zA-Z0-9]+)`, written out as a
  scan. They use `strip`, the `in` test and `split('?')`. The Python string
  operations the downloader uses (`strip`, the `in` test,
  `re.sub(r'\s+', ' ', ·)`, `startswith`/`endswith`, `lower`) are in
  `pytext.dfy`.
- **Track synthesis from JSON.** `extract_tracks_from_json` is in
  `json_tracks.dfy`. The closure `recursive_search` is a recursive method. It is
  proved equal to a specification built in two steps:
  - `Probes` lists the outcome of the per-dict check for every dict, in
    pre-order;
  - `Replay` replays that list into the captured track list.
- **Track synthesis from regex matches.** `enhanced_regex_extract` is in
  `regex_tracks.dfy`. Its two loops are proved against
  `ScrapedTracks(ms) = Take(Dedup(Kept(Dedup(CandidateList(ms)))), 50)`. A
  pair match is joined as `match[0] - match[1]`, in the order the source
  writes it.
- **Strategies.** `strategies.dfy` holds the three strategies
  `try_oembed_api`, `try_embed_page` and `try_direct_page`, and the
  first-success loop of `get_tracks_from_url`.
- **Downloads.** `downloads.dfy` holds `download_track`'s decision,
  `download_playlist`'s counting loop, and `get_downloaded_files`.

The network is a parameter of type `string -> HttpReply`: it maps each request
URL the source builds to what `session.get` did. A reply body is given as each
parser sees it:
- the result of `response.json()`;
- the result of `json.loads` on each capture of the four script-block
  patterns;
- the `re.findall` matches of the seven track patterns.

yt-dlp is also a parameter. It gives the outcome of the search and of the
download for the call made at each playlist position. The download directory is
given as its state: absent, not a directory, or a listing.

`SpotifyDownloader` is not a class here. Its fields (`download_dir`,
`session`) are set once in `__init__` and never updated, so the operations
are module-level members that take the network, yt-dlp and the directory as
arguments.

`validate_url` looks for the pattern anywhere in the stripped string, not only
after the scheme and host, so `https://example.org/spotify.com/track/x1` is
accepted. `ValidateUrl` and `RefSearchMatches` say exactly that.

## Model

| member | source | states |
|---|---|---|
| PyText.Strip | spotify_lib.py:79 | `url.strip()` has no leading or trailing whitespace (Python's `isspace` set) and is no longer than its input |
| PyText.StripSpan | spotify_lib.py:79 | the stripped string is a slice `s[a..b]` of the input with only whitespace cut from both ends |
| PyText.CollapseSpaces | spotify_lib.py:267 | `re.sub(r'\s+', ' ', t)` leaves no whitespace runs and only plain spaces, keeps a non-space first character, and does not lengthen the string |
| PyText.CollapseKeepsText | spotify_lib.py:267 | the substitution only rewrites whitespace: the non-whitespace characters of `t`, in order, are exactly those of the result |
| PyText.CollapseRun | spotify_lib.py:267 | a whitespace run on its own becomes exactly one space |
| PyText.CollapseAppend | spotify_lib.py:267 | the substitution works run by run: it distributes over any concatenation whose seam does not split a whitespace run, so with `CollapseRun` it is fixed on every string |
| PyText.CollapseBetween | spotify_lib.py:267 | a whitespace run between two non-whitespace neighbours becomes exactly one space, and each side is collapsed on its own |
| PyText.CollapseSingleSpaced | spotify_lib.py:267 | the substitution leaves a string without whitespace runs unchanged |
| PyText.StripSingleSpaced | spotify_lib.py:267 | stripping keeps a string free of whitespace runs |
| PyText.StripKeepsText | spotify_lib.py:267 | `strip()` only cuts whitespace: the non-whitespace characters, in order, are unchanged |
| Seqs.AddUnique | spotify_lib.py:255-256 | `if x not in tracks: tracks.append(x)` keeps the old list as a prefix, adds exactly `x`, and keeps the list free of duplicates |
| Seqs.Dedup | spotify_lib.py:255-256 | the first-occurrence de-duplication has no duplicates and is no longer than its input |
| Seqs.DedupMembers | spotify_lib.py:255-256 | de-duplication keeps exactly the elements of its input |
| Seqs.DedupAbsorb | spotify_lib.py:296-297 | appending elements already present does not change the de-duplicated list |
| Seqs.DedupOrder | spotify_lib.py:296-297 | the de-duplicated list lists elements in the order of their first occurrence |
| Seqs.Take | spotify_lib.py:275 | `s[:50]` is a prefix of length `min(len(s), 50)` |
| Seqs.FlattenMembers | spotify_lib.py:206 | an element is in the concatenation exactly when it is in one of the parts |
| Seqs.FlattenAppend | spotify_lib.py:206 | concatenating two runs of `extend` is concatenating their results |
| SpotifyUrl.KindUnique | spotify_lib.py:113 | at most one of `track`, `album`, `playlist` matches at a given index |
| SpotifyUrl.KindAt | spotify_lib.py:113 | the alternative found at an index matches there, and none is found exactly when none matches |
| SpotifyUrl.IdRun | spotify_lib.py:113 | the greedy `[a-zA-Z0-9]+` takes the longest run of ASCII letters and digits |
| SpotifyUrl.FindFrom | spotify_lib.py:114 | the scan stops at the first index where the pattern matches |
| SpotifyUrl.NotFoundNoMatch | spotify_lib.py:114 | when the scan finds nothing, the pattern occurs nowhere |
| SpotifyUrl.FoundLeftmost | spotify_lib.py:114 | an index where the pattern matches, with no match before it, is the leftmost match |
| SpotifyUrl.MatchHasId | spotify_lib.py:113 | the identifier group after the literal part of a match is never empty |
| SpotifyUrl.RefSearchMatches | spotify_lib.py:113-114 | `re.search` succeeds exactly when the pattern occurs somewhere in the string |
| SpotifyUrl.RefSearchAt | spotify_lib.py:113-117 | a found reference is read off the first index where the pattern matches: the kind matching there, and the longest letter/digit run after the literal part |
| SpotifyUrl.RefSearchFound | spotify_lib.py:113-117 | the found kind is that of the leftmost match, and the id is a non-empty run of ASCII letters and digits |
| SpotifyUrl.BeforeQuery | spotify_lib.py:112 | `url.split('?')[0]` is a prefix without `?`, followed by `?` when shorter than the URL |
| SpotifyUrl.NoDomainNoMatch | spotify_lib.py:82-88 | a string without `spotify.com` holds no match, so the domain test never rejects a string the pattern accepts |
| SpotifyUrl.ValidateUrl | spotify_lib.py:65-98 | `validate_url` is true exactly when the URL is a string and its stripped form contains `spotify.com/` followed by a kind, `/` and at least one letter or digit; `None` and `''` give false |
| SpotifyUrl.ExtractSpotifyId | spotify_lib.py:102-117 | `extract_spotify_id` finds a reference exactly when the pattern occurs before the first `?` |
| SpotifyUrl.ExtractSpotifyIdFound | spotify_lib.py:113-117 | an extracted reference is read off the leftmost match in the part before the first `?`: its kind is that match's, and its id is the longest run of ASCII letters and digits after `spotify.com/<kind>/`, never empty |
| SpotifyUrl.ValidateIgnoresWhitespace | spotify_lib.py:79-93 | surrounding whitespace never changes the verdict: `validate_url` accepts exactly the strings in which the pattern occurs |
| SpotifyUrl.ExtractImpliesValid | spotify_lib.py:102-117 | whenever `extract_spotify_id` finds a reference, `validate_url` accepts the same URL |
| SpotifyUrl.BeforeQueryAppend | spotify_lib.py:112 | cutting `u + '?' + q` at its first `?` gives `u` back when `u` has no `?` |
| SpotifyUrl.ExtractIgnoresQuery | spotify_lib.py:112-117 | a query string after the link does not change what is extracted |
| SpotifyUrl.QueryHidesLink | spotify_lib.py:134-139 | a link after a `?` passes `validate_url` but not `extract_spotify_id`, the case `get_tracks_from_url` reports as an invalid format |
| SpotifyUrl.ValidButNotExtractable | spotify_lib.py:134-139 | every `x?spotify.com/track/<id>` whose id starts with a letter or digit is such a URL |
| JsonTracks.Get | spotify_lib.py:284-290 | a key lookup succeeds exactly when the object has a field with that key, and returns that field's value |
| JsonTracks.JoinIsDescriptor | spotify_lib.py:294-295 | joining a non-empty stripped artist and name with `" - "` gives a descriptor ending in `" - " + name` |
| JsonTracks.ArtistName | spotify_lib.py:288-292 | the artist is the stripped `artists[0]` when it is a string, the stripped `name` of a dict with a string `name`, and `''` for a dict without `name` or any other value; it raises exactly when `artists[0]` is a dict whose `name` is not a string |
| JsonTracks.ProbeObject | spotify_lib.py:283-296 | a dict checked without both keys yields nothing; a yielded track has a string `name`, a non-empty `artists` list, ends with `" - "` plus the stripped name and is a descriptor; a non-string `name` raises |
| JsonTracks.ProbeObjectOutcome | spotify_lib.py:283-296 | a dict yields a track exactly when it has a string `name` whose stripped form is non-empty and a non-empty `artists` list whose first item gives a non-empty artist, and the track is then `artist + " - " + name.strip()`; it raises exactly when both keys are present and `name` is not a string or the artist dict's `name` is not a string |
| JsonTracks.Probes | spotify_lib.py:281-305 | every track produced by the pre-order walk is an `"{artist} - {name}"` descriptor |
| JsonTracks.FieldProbes | spotify_lib.py:300-301 | the same, for the values of a dict in order |
| JsonTracks.ItemProbes | spotify_lib.py:303-305 | the same, for the items of a list in order |
| JsonTracks.YieldedMembers | spotify_lib.py:294-297 | a string is produced exactly when some check yields it |
| JsonTracks.ReplayAppend | spotify_lib.py:300-305 | walking two stretches in turn is walking one after the other |
| JsonTracks.ReplayAborts | spotify_lib.py:285-292 | the walk aborts exactly when some check raises |
| JsonTracks.ReplayDedup | spotify_lib.py:296-297 | without an exception, the walk keeps the first occurrence of every produced track in discovery order |
| JsonTracks.YieldedAppend | spotify_lib.py:300-305 | the tracks of two stretches are the tracks of each, concatenated |
| JsonTracks.RecursiveSearch | spotify_lib.py:281-305 | the recursive closure computes exactly the replay of the pre-order checks of its argument |
| JsonTracks.SearchValues | spotify_lib.py:300-301 | the loop over a dict's values computes the replay of their checks |
| JsonTracks.SearchItems | spotify_lib.py:303-305 | the loop over a list's items computes the replay of their checks |
| JsonTracks.ExtractTracksFromJson | spotify_lib.py:277-308 | fails exactly when a check raises; otherwise the tracks are distinct, in discovery order, exactly those produced, and each of the form `"{artist} - {name}"` |
| JsonTracks.ReplayRepeats | spotify_lib.py:294-297 | a later stretch of per-dict checks that all occurred earlier leaves the walk's outcome unchanged: no new exception and no new track |
| JsonTracks.RepeatedValueOnce | spotify_lib.py:294-305 | in a JSON list, an item equal to an earlier item of the same list changes nothing, wherever it sits after it: walking `xs + [j] + ys` with `j` in `xs` ends as walking `xs + ys` |
| RegexTracks.JoinedPair | spotify_lib.py:251-254 | joining a non-empty stripped artist and song with `" - "` gives a stripped string containing `" - "` |
| RegexTracks.Candidate | spotify_lib.py:251-261 | a candidate is stripped; a pair's contains `" - "`, a single string's contains `" - "` or `" by "` |
| RegexTracks.CandidateValue | spotify_lib.py:251-261 | a pair gives a candidate exactly when both stripped halves are longer than one character, and it is `"{match[0].strip()} - {match[1].strip()}"`; a single string gives a candidate exactly when its stripped form contains `" - "` or `" by "`, and it is that stripped form |
| RegexTracks.CandidateListMembers | spotify_lib.py:248-262 | every candidate comes from some match, and every match that gives a candidate contributes it |
| RegexTracks.Clean | spotify_lib.py:267 | the cleaned string has no surrounding whitespace and no whitespace runs |
| RegexTracks.CleanKeepsText | spotify_lib.py:267 | `re.sub(r'\s+', ' ', track).strip()` keeps the track's text: its non-whitespace characters, in order, are those of the track |
| RegexTracks.CleanJoins | spotify_lib.py:267 | between two clean pieces of text any whitespace run becomes exactly one space, so `"a  - b"` cleans to `"a - b"` and keeps its `" - "` |
| RegexTracks.CleanIdempotent | spotify_lib.py:267 | cleaning twice is cleaning once |
| RegexTracks.MapFilter | spotify_lib.py:266-273 | everything kept passes the filter and the list is no longer than its input |
| RegexTracks.MapFilterMembers | spotify_lib.py:266-273 | everything kept is the image of some input, and every input whose image passes the filter is kept |
| RegexTracks.Kept | spotify_lib.py:266-271 | the survivors of the filter are no more than the candidates |
| RegexTracks.KeptSound | spotify_lib.py:266-271 | every survivor is longer than 5, does not start with `spotify` in any case, contains `" - "`, and is clean |
| RegexTracks.KeptMembers | spotify_lib.py:266-271 | survivors are exactly the cleaned candidates that pass the filter |
| RegexTracks.ScrapedTracksSound | spotify_lib.py:264-275 | the result has at most 50 distinct elements, each accepted and clean |
| RegexTracks.ScrapedTracksComplete | spotify_lib.py:264-275 | every match whose cleaned candidate passes the filter survives, the survivors are in first-occurrence order, and the result is the first 50 of them |
| RegexTracks.CandidateStep | spotify_lib.py:250-262 | one iteration of the first loop appends the match's candidate unless it is already present |
| RegexTracks.KeptStep | spotify_lib.py:266-273 | one iteration of the second loop appends the cleaned candidate if it passes and is unseen |
| RegexTracks.SurvivorsAreDedupKept | spotify_lib.py:264-273 | the list the second loop builds, adding each unseen cleaned track that passes the filter, is the first-occurrence de-duplication of the filtered cleaned tracks |
| RegexTracks.CollectCandidates | spotify_lib.py:248-262 | the first loop returns the candidates of all matches without repeats, in first-occurrence order |
| RegexTracks.FilterTracks | spotify_lib.py:264-273 | the second loop, with its `seen` set, returns the distinct cleaned tracks that pass the filter, in first-occurrence order |
| RegexTracks.EnhancedRegexExtract | spotify_lib.py:234-275 | the two loops return `ScrapedTracks(matches)`: at most 50 distinct, clean, accepted descriptors |
| Strategies.TryOEmbedApi | spotify_lib.py:164-179 | at most one element; non-empty only for a track whose 200 reply carries a non-empty string title, and then that title |
| Strategies.TryOEmbedApiFinds | spotify_lib.py:164-179 | conversely, a track whose 200 reply carries a non-empty string title gets exactly that title |
| Strategies.BlockTracksSound | spotify_lib.py:202-208 | a block's tracks are distinct descriptors |
| Strategies.StructuredTracksSound | spotify_lib.py:199-208 | every structured track is a descriptor |
| Strategies.RepeatedBlockRepeats | spotify_lib.py:206 | blocks are concatenated without de-duplication: a block found twice lists its tracks twice |
| Strategies.EmbedTracksShape | spotify_lib.py:181-217 | every embed-page track is a JSON descriptor or an accepted regex candidate; nothing without a 200 reply; structured results, when there are any, are the result |
| Strategies.DirectTracksShape | spotify_lib.py:219-232 | the direct page yields at most 50 distinct accepted tracks, and nothing without a 200 reply |
| Strategies.TryEmbedPage | spotify_lib.py:181-217 | the loop over blocks and the regex fallback compute `EmbedTracks` |
| Strategies.TryDirectPage | spotify_lib.py:219-232 | computes `DirectTracks` |
| Strategies.FirstNonEmptyEmpty | spotify_lib.py:150-162 | the result is empty exactly when every strategy's result is empty |
| Strategies.FirstNonEmptyIsFirst | spotify_lib.py:150-162 | a non-empty result is some strategy's result, and every earlier strategy found nothing |
| Strategies.RunApproach | spotify_lib.py:150-153 | running a strategy gives its result for the reply to its own request |
| Strategies.TryApproaches | spotify_lib.py:144-162 | the loop returns the first non-empty result; the strategies run are a prefix of oEmbed, Embed, Direct, all but the last found nothing, and a stop before the end means the last one succeeded |
| Strategies.GetTracksFromUrl | spotify_lib.py:119-162 | returns `Resolve(url, net)`; no strategy runs for a link that fails validation or extraction; otherwise as `TryApproaches` |
| Strategies.ResolveFirstSuccess | spotify_lib.py:129-162 | a non-empty result comes from a link passing both checks, identified as the returned reference, and is the result of the returned strategy position, all earlier strategies having found nothing |
| Strategies.ResolveExtracted | spotify_lib.py:132-139 | a link whose id can be extracted always reaches the strategies |
| Strategies.ResultsSkipOEmbed | spotify_lib.py:173-175 | for an album or playlist the oEmbed strategy finds nothing |
| Strategies.CollectionsSkipOEmbed | spotify_lib.py:144-162 | for an album or playlist the result is the embed page's, else the direct page's |
| Strategies.ResolveReadsThreeUrls | spotify_lib.py:144-162 | the result depends on the network only through the oEmbed, embed and direct requests |
| Downloads.SearchQuery | spotify_lib.py:366 | the query is `ytsearch1:` followed by the descriptor |
| Downloads.DownloadTrack | spotify_lib.py:364-381 | true exactly when the search returned a non-empty `entries` list whose first entry has a title and the download did not raise |
| Downloads.Succeeded | spotify_lib.py:413-418 | the success count never exceeds the number of tracks |
| Downloads.SucceededBounds | spotify_lib.py:413-418 | the count equals the number of tracks exactly when every download succeeds, and is zero exactly when none does |
| Downloads.PlaylistStatsAccount | spotify_lib.py:396-420 | `total` is the number of tracks found, `successful + failed == total`, and nothing failed exactly when every download succeeded |
| Downloads.DownloadEach | spotify_lib.py:411-418 | the loop counts every track once, as a success or a failure |
| Downloads.DownloadPlaylist | spotify_lib.py:383-420 | `{0,0,0}` and no search for a rejected link or an empty track list; otherwise one search per track in order and the counts of `PlaylistStats` |
| Downloads.AudioFiles | spotify_lib.py:430-431 | every listed name ends in `.mp3`, `.m4a`, `.webm` or `.opus` |
| Downloads.AudioFilesMembers | spotify_lib.py:430-431 | a name is listed exactly when it is in the directory and has one of those extensions |
| Downloads.AudioFilesIdempotent | spotify_lib.py:430-431 | filtering a listing twice changes nothing |
| Downloads.GetDownloadedFiles | spotify_lib.py:422-434 | `[]` for a missing directory, an exception when the path is not a directory, otherwise exactly the audio files |

## Left out

- HTTP: the `requests.Session`, its headers, and `response.text` decoding are not modelled. A request is a function of its URL. Only the status and the parsed views of the body matter.
- The regex engine and `json.loads` are not modelled. The script-block captures are given already parsed, in pattern order. The seven track patterns are given as their `findall` matches, in pattern order. The nested loop over the four JSON patterns and their matches is one loop over that sequence.
- JSON numbers are integers, and objects are assumed to have distinct keys: a lookup takes the first field with a key, while `json.loads` keeps the last.
- Strategies.TryOEmbedApi: a truthy `title` that is not a string (a number, a list, an object) would be appended as a non-string element; the model yields `[]` for it, because track lists hold strings.
- The outer `except` of `get_tracks_from_url` is unreachable in the model: each strategy catches its own exceptions, and none can leave a partial list behind.
- A `RecursionError` from very deep JSON in `recursive_search` is not modelled.
- `validate_url` takes `Option<string>`. A non-string argument is rejected by the source exactly like `None`.
- PyText.Lower lowers ASCII letters only. That is exact where the source uses it, `lower().startswith('spotify')`, because the only character whose lowercase grows the string (U+0130) adds U+0307, which is not a letter of `spotify`.
- The download itself is not modelled: yt-dlp and FFmpeg options, `audio_format`, `quality`, and the files written. Only the decision of `download_track` is modelled.
- Console output is not modelled: `print_*`, `progress_hook` and `print_progress_bar` (with their float formatting).
- `check_ffmpeg` (a subprocess call) is not modelled.
- `__init__` (`os.makedirs`, session headers) is not modelled.
- The GUI, the command-line front end and the web front ends are not modelled. Their counting loops repeat `download_playlist`.
