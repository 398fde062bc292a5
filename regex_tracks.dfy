/**
  * `enhanced_regex_extract` (spotify_lib.py): turns the matches of the
  * seven scraping patterns into track descriptors, then cleans, filters,
  * de-duplicates and caps them at 50.
  *
  * The regex engine is not modelled: the input is the concatenation, in
  * pattern order, of what `re.findall` returned for each pattern.
  */
module RegexTracks {
  import opened Wrappers
  import opened Seqs
  import opened PyText

  /** One item returned by `re.findall`: a string for a one-group pattern,
    * a pair for a two-group pattern. */
  datatype Match = Single(text: string) | Pair(first: string, second: string)

  /** The candidate one match contributes in the first loop. A pair is
    * joined in the order the groups appear (`match[0] - match[1]`) when both
    * stripped halves are longer than one character; a single string is kept,
    * stripped, when it contains `" - "` or `" by "`. */
  function Candidate(m: Match): (r: Option<string>)
    ensures r.Some? ==> Stripped(r.value)
    ensures r.Some? && m.Pair? ==> Contains(r.value, " - ")
    ensures r.Some? && m.Single? ==> Contains(r.value, " - ") || Contains(r.value, " by ")
  {
    match m
    case Pair(a, b) =>
      var artist, song := Strip(a), Strip(b);
      if artist != "" && song != "" && |artist| > 1 && |song| > 1 then
        JoinedPair(artist, song);
        Some(artist + " - " + song)
      else None
    case Single(s) =>
      var u := Strip(s);
      if Contains(u, " - ") || Contains(u, " by ") then Some(u) else None
  }

  /** When a match gives a candidate, and which one: a pair exactly when
    * both stripped halves are longer than one character, joined as
    * `match[0] - match[1]`; a single string exactly when its stripped form
    * contains `" - "` or `" by "`, and then that stripped form. */
  lemma CandidateValue(m: Match)
    ensures m.Pair? ==> (Candidate(m).Some? <==> |Strip(m.first)| > 1 && |Strip(m.second)| > 1)
    ensures m.Pair? && Candidate(m).Some? ==> Candidate(m).value == Strip(m.first) + " - " + Strip(m.second)
    ensures m.Single? ==> (Candidate(m).Some? <==> Contains(Strip(m.text), " - ") || Contains(Strip(m.text), " by "))
    ensures m.Single? && Candidate(m).Some? ==> Candidate(m).value == Strip(m.text)
  {
  }

  /** Two stripped, non-empty halves joined by `" - "` give a stripped
    * string that contains the separator. */
  lemma JoinedPair(artist: string, song: string)
    requires Stripped(artist) && Stripped(song) && artist != [] && song != []
    ensures Stripped(artist + " - " + song) && Contains(artist + " - " + song, " - ")
  {
    var t := artist + " - " + song;
    assert t[|artist|..|artist| + 3] == " - ";
    assert OccursAt(t, " - ", |artist|);
    assert t[0] == artist[0] && t[|t| - 1] == song[|song| - 1];
  }

  /** The candidates of all matches, in order, before de-duplication. */
  function CandidateList(ms: seq<Match>): (r: seq<string>)
    ensures |r| <= |ms|
  {
    if ms == [] then []
    else
      var prev := CandidateList(ms[..|ms| - 1]);
      match Candidate(ms[|ms| - 1])
      case None => prev
      case Some(t) => prev + [t]
  }

  /** Every candidate comes from some match, and every match that gives a
    * candidate contributes it. */
  lemma {:induction false} CandidateListMembers(ms: seq<Match>)
    ensures forall t :: t in CandidateList(ms) ==> exists m :: m in ms && Candidate(m) == Some(t)
    ensures forall m :: m in ms && Candidate(m).Some? ==> Candidate(m).value in CandidateList(ms)
  {
    if ms != [] {
      var p, m := ms[..|ms| - 1], ms[|ms| - 1];
      CandidateListMembers(p);
      assert ms == p + [m];
    }
  }

  /** `re.sub(r'\s+', ' ', track).strip()` */
  function Clean(t: string): (r: string)
    ensures Stripped(r) && SingleSpaced(r)
  {
    StripSingleSpaced(CollapseSpaces(t));
    Strip(CollapseSpaces(t))
  }

  /** Cleaning keeps the track's text: only whitespace is rewritten or cut. */
  lemma CleanKeepsText(t: string)
    ensures NonSpace(Clean(t)) == NonSpace(t)
  {
    CollapseKeepsText(t);
    StripKeepsText(CollapseSpaces(t));
  }

  /** Between two clean pieces of text, any whitespace run becomes exactly
    * one space: `"a  - b"` cleans to `"a - b"`, which keeps its `" - "`. */
  lemma CleanJoins(u: string, w: string, v: string)
    requires u != [] && v != [] && Stripped(u) && Stripped(v) && SingleSpaced(u) && SingleSpaced(v)
    requires w != [] && forall i :: 0 <= i < |w| ==> IsSpace(w[i])
    ensures Clean(u + w + v) == u + " " + v
  {
    CollapseBetween(u, w, v);
    CollapseSingleSpaced(u);
    CollapseSingleSpaced(v);
    var j := u + " " + v;
    assert j[0] == u[0] && j[|j| - 1] == v[|v| - 1];
    StripStripped(j);
  }

  /** Cleaning is idempotent. */
  lemma CleanIdempotent(t: string)
    ensures Clean(Clean(t)) == Clean(t)
  {
    CollapseSingleSpaced(Clean(t));
    StripStripped(Clean(t));
  }

  /** The filter of the second loop: longer than 5 characters, not starting
    * with `spotify` in any letter case, and containing `" - "`. */
  predicate Acceptable(c: string) {
    |c| > 5 && !StartsWith(Lower(c), "spotify") && Contains(c, " - ")
  }

  /** `[f(t) for t in ts if keep(f(t))]`, in order, duplicates included. */
  function MapFilter<A, B>(ts: seq<A>, f: A -> B, keep: B -> bool): (r: seq<B>)
    ensures |r| <= |ts|
    ensures forall c :: c in r ==> keep(c)
  {
    if ts == [] then []
    else
      var prev := MapFilter(ts[..|ts| - 1], f, keep);
      var c := f(ts[|ts| - 1]);
      if keep(c) then prev + [c] else prev
  }

  /** Every kept value is the image of some input, and every input whose
    * image passes the filter has its image kept (that every kept value
    * passes the filter is part of `MapFilter`'s contract). */
  lemma {:induction false} MapFilterMembers<A, B>(ts: seq<A>, f: A -> B, keep: B -> bool)
    ensures forall c :: c in MapFilter(ts, f, keep) ==> exists t :: t in ts && c == f(t)
    ensures forall t :: t in ts && keep(f(t)) ==> f(t) in MapFilter(ts, f, keep)
  {
    if ts != [] {
      var p, x := ts[..|ts| - 1], ts[|ts| - 1];
      MapFilterMembers(p, f, keep);
      assert ts == p + [x];
    }
  }

  /** The cleaned candidates that pass the filter, in order, duplicates
    * included. */
  function Kept(ts: seq<string>): (r: seq<string>)
    ensures |r| <= |ts|
  {
    MapFilter(ts, Clean, Acceptable)
  }

  /** Every survivor passes the filter and is clean. */
  lemma KeptSound(ts: seq<string>)
    ensures forall c :: c in Kept(ts) ==> Acceptable(c) && Stripped(c) && SingleSpaced(c)
  {
    MapFilterMembers(ts, Clean, Acceptable);
  }

  /** A string survives the filter exactly when it is the cleaned form of
    * some candidate and passes the filter. */
  lemma KeptMembers(ts: seq<string>)
    ensures forall c :: c in Kept(ts) ==> exists t :: t in ts && c == Clean(t)
    ensures forall t :: t in ts && Acceptable(Clean(t)) ==> Clean(t) in Kept(ts)
  {
    MapFilterMembers(ts, Clean, Acceptable);
  }

  /** What `enhanced_regex_extract` returns: the first 50 distinct cleaned
    * candidates that pass the filter. */
  function ScrapedTracks(ms: seq<Match>): seq<string>
  {
    Take(Dedup(Kept(Dedup(CandidateList(ms)))), 50)
  }

  /** Every element of the result is a clean, acceptable, distinct
    * descriptor, and there are at most 50 of them. */
  lemma ScrapedTracksSound(ms: seq<Match>)
    ensures |ScrapedTracks(ms)| <= 50
    ensures NoDup(ScrapedTracks(ms))
    ensures forall c :: c in ScrapedTracks(ms) ==> Acceptable(c) && Stripped(c) && SingleSpaced(c)
  {
    var cands := Dedup(CandidateList(ms));
    var all := Dedup(Kept(cands));
    KeptSound(cands);
    DedupMembers(Kept(cands));
    var r := ScrapedTracks(ms);
    assert r <= all;
    forall c | c in r ensures Acceptable(c) && Stripped(c) && SingleSpaced(c) {
      assert c in all;
    }
    assert NoDup(r) by {
      forall i, j | 0 <= i < j < |r| ensures r[i] != r[j] {
        assert r[i] == all[i] && r[j] == all[j];
      }
    }
  }

  /** Nothing acceptable is lost before the cap: every match whose cleaned
    * candidate passes the filter is among the survivors, the result is the
    * first 50 of them, and they are listed in the order of the matches. */
  lemma ScrapedTracksComplete(ms: seq<Match>)
    ensures var survivors := Dedup(Kept(Dedup(CandidateList(ms))));
      && ScrapedTracks(ms) == Take(survivors, 50)
      && (forall m :: m in ms && Candidate(m).Some? && Acceptable(Clean(Candidate(m).value))
            ==> Clean(Candidate(m).value) in survivors)
      && FirstOccurrenceOrder(survivors, Kept(Dedup(CandidateList(ms))))
  {
    var cands := Dedup(CandidateList(ms));
    CandidateListMembers(ms);
    DedupMembers(CandidateList(ms));
    KeptMembers(cands);
    DedupMembers(Kept(cands));
    DedupOrder(Kept(cands));
  }

  /** One step of the first loop. */
  lemma CandidateStep(ms: seq<Match>, i: nat)
    requires i < |ms|
    ensures Dedup(CandidateList(ms[..i + 1])) ==
      match Candidate(ms[i])
      case None => Dedup(CandidateList(ms[..i]))
      case Some(t) => AddUnique(Dedup(CandidateList(ms[..i])), t)
  {
    assert ms[..i + 1][..i] == ms[..i];
    if Candidate(ms[i]).Some? {
      DedupSnoc(CandidateList(ms[..i]), Candidate(ms[i]).value);
    }
  }

  /** One step of the second loop. */
  lemma KeptStep(ts: seq<string>, j: nat)
    requires j < |ts|
    ensures Dedup(Kept(ts[..j + 1])) ==
      if Acceptable(Clean(ts[j])) then AddUnique(Dedup(Kept(ts[..j])), Clean(ts[j]))
      else Dedup(Kept(ts[..j]))
  {
    assert ts[..j + 1][..j] == ts[..j];
    DedupSnoc(Kept(ts[..j]), Clean(ts[j]));
  }

  /** The first loop of `enhanced_regex_extract`: the candidate of every
    * match, appended unless already collected. */
  method CollectCandidates(matches: seq<Match>) returns (tracks: seq<string>)
    ensures tracks == Dedup(CandidateList(matches))
  {
    tracks := [];
    var i := 0;
    while i < |matches|
      invariant 0 <= i <= |matches|
      invariant tracks == Dedup(CandidateList(matches[..i]))
    {
      CandidateStep(matches, i);
      match Candidate(matches[i]) {
        case None =>
        case Some(track) =>
          if track !in tracks {
            tracks := tracks + [track];
          }
      }
      i := i + 1;
    }
    assert matches[..i] == matches;
  }

  /** The survivors of the second loop after it has seen `ts`: each
    * cleaned track is added when it is unseen and passes the filter. */
  function Survivors(ts: seq<string>): seq<string>
  {
    if ts == [] then []
    else
      var prev, c := Survivors(ts[..|ts| - 1]), Clean(ts[|ts| - 1]);
      if c !in prev && Acceptable(c) then prev + [c] else prev
  }

  /** The loop's survivors are the distinct cleaned tracks that pass the
    * filter, in first-occurrence order. */
  lemma {:induction false} SurvivorsAreDedupKept(ts: seq<string>)
    ensures Survivors(ts) == Dedup(Kept(ts))
  {
    if ts != [] {
      var j := |ts| - 1;
      SurvivorsAreDedupKept(ts[..j]);
      KeptStep(ts, j);
      assert ts[..j + 1] == ts;
    }
  }

  /** The second loop of `enhanced_regex_extract`: clean each collected
    * track and keep the first occurrence of each one that passes the
    * filter, remembering the kept ones in `seen`. */
  method FilterTracks(tracks: seq<string>) returns (unique: seq<string>)
    ensures unique == Dedup(Kept(tracks))
  {
    unique := [];
    var seen: set<string> := {};
    var j := 0;
    while j < |tracks|
      invariant 0 <= j <= |tracks|
      invariant unique == Survivors(tracks[..j])
      invariant seen == set x | x in unique
    {
      var trackClean := Clean(tracks[j]);
      assert tracks[..j + 1][..j] == tracks[..j];
      if trackClean !in seen && |trackClean| > 5 && !StartsWith(Lower(trackClean), "spotify")
        && Contains(trackClean, " - ")
      {
        seen := seen + {trackClean};
        unique := unique + [trackClean];
      }
      j := j + 1;
    }
    assert tracks[..j] == tracks;
    SurvivorsAreDedupKept(tracks);
  }

  /** `enhanced_regex_extract`: collect the candidates of all matches
    * without repeats, then clean and filter them, and return at most the
    * first 50. */
  method EnhancedRegexExtract(matches: seq<Match>) returns (r: seq<string>)
    ensures r == ScrapedTracks(matches)
    ensures |r| <= 50 && NoDup(r)
    ensures forall c :: c in r ==> Acceptable(c) && Stripped(c) && SingleSpaced(c)
  {
    var tracks := CollectCandidates(matches);
    var unique := FilterTracks(tracks);
    r := if |unique| <= 50 then unique else unique[..50];
    ScrapedTracksSound(matches);
  }
}
