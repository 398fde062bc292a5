/**
  * `extract_tracks_from_json` (spotify_lib.py): a pre-order walk over a
  * decoded JSON value that turns every dict carrying both `name` and a
  * non-empty `artists` list into `"{artist} - {name}"`, skipping strings it
  * has already produced.
  *
  * The walk is specified by the list of outcomes of the per-dict check in
  * pre-order (`Probes`) replayed into the track list (`Replay`); the
  * recursive method `RecursiveSearch` is the source's closure and is proved
  * to compute exactly that replay.
  */
module JsonTracks {
  import opened Wrappers
  import opened Seqs
  import opened PyText

  /** A value produced by `json.loads`. An object keeps its keys in
    * insertion order; as in a Python dict, keys are expected to be distinct
    * (lookups take the first one). Numbers are never inspected. */
  datatype Json =
    | JNull
    | JBool(b: bool)
    | JNumber(n: int)
    | JString(s: string)
    | JArray(items: seq<Json>)
    | JObject(fields: seq<Field>)

  datatype Field = Field(key: string, value: Json)

  /** `key in obj` / `obj[key]`: the value stored under `key`, if any. */
  function Get(fields: seq<Field>, key: string): (r: Option<Json>)
    ensures r.Some? <==> exists i :: 0 <= i < |fields| && fields[i].key == key
    ensures r.Some? ==> Field(key, r.value) in fields
  {
    if fields == [] then None
    else if fields[0].key == key then Some(fields[0].value)
    else Get(fields[1..], key)
  }

  /** `t` splits at `k` into a non-empty stripped artist, the separator
    * `" - "`, and a non-empty stripped title. */
  predicate SplitAt(t: string, k: int) {
    0 < k && k + 3 < |t| && t[k..k + 3] == " - " && Stripped(t[..k]) && Stripped(t[k + 3..])
  }

  /** The shape `"{artist} - {name}"` of a track descriptor. */
  ghost predicate IsDescriptor(t: string) {
    exists k :: SplitAt(t, k)
  }

  /** Joining a non-empty stripped artist and title with `" - "` gives a
    * descriptor that ends with the separator and the title. */
  lemma JoinIsDescriptor(artist: string, title: string)
    requires artist != "" && title != "" && Stripped(artist) && Stripped(title)
    ensures IsDescriptor(artist + " - " + title)
    ensures EndsWith(artist + " - " + title, " - " + title)
  {
    var t := artist + " - " + title;
    assert t[..|artist|] == artist;
    assert t[|artist|..|artist| + 3] == " - ";
    assert t[|artist| + 3..] == title;
    assert SplitAt(t, |artist|);
    assert t == artist + (" - " + title);
    assert t[|artist|..] == " - " + title;
  }

  /** What the check made on one dict contributes to the walk: an exception
    * (a `.strip()` on a non-string), nothing, or a track. */
  datatype Probe = Raises | Skip | Yields(track: string)

  /** The artist taken from `artists[0]`: a string itself, or a dict's
    * `name` (`''` when absent); anything else gives `''`. `None` stands for
    * the exception raised by `.strip()` on a non-string `name`. */
  function ArtistName(first: Json): (r: Option<string>)
    ensures r.Some? ==> Stripped(r.value)
    ensures r.None? <==> first.JObject? && Get(first.fields, "name").Some? && !Get(first.fields, "name").value.JString?
    ensures first.JString? ==> r == Some(Strip(first.s))
    ensures first.JObject? && Get(first.fields, "name").Some? && Get(first.fields, "name").value.JString?
            ==> r == Some(Strip(Get(first.fields, "name").value.s))
    ensures first.JObject? && Get(first.fields, "name").None? ==> r == Some("")
    ensures !first.JObject? && !first.JString? ==> r == Some("")
  {
    match first
    case JObject(af) =>
      (match Get(af, "name")
       case None => Some("")
       case Some(JString(a)) => Some(Strip(a))
       case Some(_) => None)
    case JString(a) => Some(Strip(a))
    case _ => Some("")
  }

  /** The check the walk makes on each dict before descending into its
    * values: `name` is stripped first (and raises if it is not a string),
    * then a non-empty `artists` list supplies the artist. */
  function ProbeObject(fields: seq<Field>): (r: Probe)
    ensures !r.Skip? ==> Get(fields, "name").Some? && Get(fields, "artists").Some?
    ensures r.Yields? ==>
      && Get(fields, "name").value.JString?
      && Get(fields, "artists").value.JArray?
      && |Get(fields, "artists").value.items| > 0
      && EndsWith(r.track, " - " + Strip(Get(fields, "name").value.s))
      && IsDescriptor(r.track)
    ensures Get(fields, "name").Some? && Get(fields, "artists").Some? && !Get(fields, "name").value.JString?
            ==> r.Raises?
  {
    match (Get(fields, "name"), Get(fields, "artists"))
    case (Some(name), Some(artists)) =>
      if !name.JString? then Raises
      else
        var title := Strip(name.s);
        if artists.JArray? && |artists.items| > 0 then
          match ArtistName(artists.items[0])
          case None => Raises
          case Some(artist) =>
            if title != "" && artist != "" then
              JoinIsDescriptor(artist, title);
              Yields(artist + " - " + title)
            else Skip
        else Skip
    case _ => Skip
  }

  /** Exactly when the check on a dict yields or raises, and which track
    * it yields: the artist of `artists[0]`, `" - "`, then the stripped
    * `name`. */
  lemma ProbeObjectOutcome(fields: seq<Field>)
    ensures ProbeObject(fields).Yields? <==>
      && Get(fields, "name").Some? && Get(fields, "name").value.JString?
      && Strip(Get(fields, "name").value.s) != ""
      && Get(fields, "artists").Some? && Get(fields, "artists").value.JArray?
      && |Get(fields, "artists").value.items| > 0
      && ArtistName(Get(fields, "artists").value.items[0]).Some?
      && ArtistName(Get(fields, "artists").value.items[0]).value != ""
    ensures ProbeObject(fields).Yields? ==>
      ProbeObject(fields).track == ArtistName(Get(fields, "artists").value.items[0]).value + " - " + Strip(Get(fields, "name").value.s)
    ensures ProbeObject(fields).Raises? <==>
      && Get(fields, "name").Some? && Get(fields, "artists").Some?
      && (|| !Get(fields, "name").value.JString?
          || (&& Get(fields, "artists").value.JArray?
              && |Get(fields, "artists").value.items| > 0
              && ArtistName(Get(fields, "artists").value.items[0]).None?))
  {
  }

  /** The outcomes of the check on every dict of `j`, in pre-order: a dict
    * is checked before its values, values and list items in order. */
  function Probes(j: Json): (r: seq<Probe>)
    ensures forall p :: p in r && p.Yields? ==> IsDescriptor(p.track)
    decreases j
  {
    match j
    case JObject(fields) => [ProbeObject(fields)] + FieldProbes(fields)
    case JArray(items) => ItemProbes(items)
    case _ => []
  }

  function FieldProbes(fields: seq<Field>): (r: seq<Probe>)
    ensures forall p :: p in r && p.Yields? ==> IsDescriptor(p.track)
    decreases fields
  {
    if fields == [] then [] else Probes(fields[0].value) + FieldProbes(fields[1..])
  }

  function ItemProbes(items: seq<Json>): (r: seq<Probe>)
    ensures forall p :: p in r && p.Yields? ==> IsDescriptor(p.track)
    decreases items
  {
    if items == [] then [] else Probes(items[0]) + ItemProbes(items[1..])
  }

  /** The tracks produced by the checks, duplicates included. */
  function Yielded(ps: seq<Probe>): seq<string>
  {
    if ps == [] then []
    else if ps[0].Yields? then [ps[0].track] + Yielded(ps[1..])
    else Yielded(ps[1..])
  }

  /** A track is produced exactly when some check yields it. */
  lemma {:induction false} YieldedMembers(ps: seq<Probe>)
    ensures forall t :: t in Yielded(ps) <==> Yields(t) in ps
  {
    if ps != [] {
      YieldedMembers(ps[1..]);
      assert forall p :: p in ps <==> p == ps[0] || p in ps[1..];
    }
  }

  /** The effect of the checks on the captured `tracks` list: the first
    * exception aborts the walk, a track is appended unless already there. */
  function Replay(ps: seq<Probe>, tracks: seq<string>): Option<seq<string>>
  {
    if ps == [] then Some(tracks)
    else match ps[0]
      case Raises => None
      case Skip => Replay(ps[1..], tracks)
      case Yields(t) => Replay(ps[1..], AddUnique(tracks, t))
  }

  /** Replaying two stretches of checks is replaying one after the other. */
  lemma {:induction false} ReplayAppend(a: seq<Probe>, b: seq<Probe>, tracks: seq<string>)
    ensures Replay(a + b, tracks) ==
      match Replay(a, tracks)
      case None => None
      case Some(mid) => Replay(b, mid)
  {
    if a != [] {
      assert (a + b)[0] == a[0] && (a + b)[1..] == a[1..] + b;
      match a[0]
      case Raises =>
      case Skip => ReplayAppend(a[1..], b, tracks);
      case Yields(t) => ReplayAppend(a[1..], b, AddUnique(tracks, t));
    } else {
      assert a + b == b;
    }
  }

  /** The walk aborts exactly when some check raises. */
  lemma {:induction false} ReplayAborts(ps: seq<Probe>, tracks: seq<string>)
    ensures Replay(ps, tracks).None? <==> Raises in ps
  {
    if ps != [] {
      match ps[0]
      case Raises =>
      case Skip => ReplayAborts(ps[1..], tracks);
      case Yields(t) => ReplayAborts(ps[1..], AddUnique(tracks, t));
      assert forall p :: p in ps <==> p == ps[0] || p in ps[1..];
    }
  }

  /** Without an exception the walk de-duplicates the produced tracks,
    * keeping first occurrences in discovery order. */
  lemma {:induction false} ReplayDedup(ps: seq<Probe>, seen: seq<string>)
    requires Raises !in ps
    ensures Replay(ps, Dedup(seen)) == Some(Dedup(seen + Yielded(ps)))
  {
    if ps == [] {
      assert seen + Yielded(ps) == seen;
    } else {
      assert Raises !in ps[1..] by {
        assert forall i :: 0 <= i < |ps[1..]| ==> ps[1..][i] == ps[i + 1];
      }
      if ps[0].Skip? {
        ReplayDedup(ps[1..], seen);
      } else {
        ReplayYield(ps, seen);
        YieldedFirst(ps, seen);
        ReplayDedup(ps[1..], seen + [ps[0].track]);
      }
    }
  }

  /** A check that yields a track: the track moves from the checks to the
    * tracks already seen. */
  lemma ReplayYield(ps: seq<Probe>, seen: seq<string>)
    requires ps != [] && ps[0].Yields?
    ensures Replay(ps, Dedup(seen)) == Replay(ps[1..], Dedup(seen + [ps[0].track]))
  {
    DedupSnoc(seen, ps[0].track);
  }

  lemma YieldedFirst(ps: seq<Probe>, seen: seq<string>)
    requires ps != [] && ps[0].Yields?
    ensures seen + Yielded(ps) == seen + [ps[0].track] + Yielded(ps[1..])
  {
  }

  /** The recursive closure of `extract_tracks_from_json`: visits `obj`,
    * appending to the captured list `tracks`; `None` is an exception
    * escaping the walk. */
  method RecursiveSearch(obj: Json, tracks: seq<string>) returns (r: Option<seq<string>>)
    ensures r == Replay(Probes(obj), tracks)
    decreases obj, 1
  {
    match obj {
      case JObject(fields) =>
        var probe := ProbeObject(fields);
        if probe.Raises? {
          return None;
        }
        var cur := tracks;
        if probe.Yields? && probe.track !in cur {
          cur := cur + [probe.track];
        }
        assert Replay(Probes(obj), tracks) == Replay(FieldProbes(fields), cur);
        r := SearchValues(fields, cur);
      case JArray(items) =>
        r := SearchItems(items, tracks);
      case _ =>
        r := Some(tracks);
    }
  }

  /** `for value in obj.values(): recursive_search(value)` */
  method SearchValues(fields: seq<Field>, tracks: seq<string>) returns (r: Option<seq<string>>)
    ensures r == Replay(FieldProbes(fields), tracks)
    decreases fields, 0
  {
    var cur := tracks;
    var i := 0;
    while i < |fields|
      invariant 0 <= i <= |fields|
      invariant Replay(FieldProbes(fields), tracks) == Replay(FieldProbes(fields[i..]), cur)
    {
      assert FieldProbes(fields[i..]) == Probes(fields[i].value) + FieldProbes(fields[i + 1..]) by {
        assert fields[i..][1..] == fields[i + 1..];
      }
      ReplayAppend(Probes(fields[i].value), FieldProbes(fields[i + 1..]), cur);
      var sub := RecursiveSearch(fields[i].value, cur);
      if sub.None? {
        return None;
      }
      cur := sub.value;
      i := i + 1;
    }
    return Some(cur);
  }

  /** `for item in obj: recursive_search(item)` */
  method SearchItems(items: seq<Json>, tracks: seq<string>) returns (r: Option<seq<string>>)
    ensures r == Replay(ItemProbes(items), tracks)
    decreases items, 0
  {
    var cur := tracks;
    var i := 0;
    while i < |items|
      invariant 0 <= i <= |items|
      invariant Replay(ItemProbes(items), tracks) == Replay(ItemProbes(items[i..]), cur)
    {
      assert ItemProbes(items[i..]) == Probes(items[i]) + ItemProbes(items[i + 1..]) by {
        assert items[i..][1..] == items[i + 1..];
      }
      ReplayAppend(Probes(items[i]), ItemProbes(items[i + 1..]), cur);
      var sub := RecursiveSearch(items[i], cur);
      if sub.None? {
        return None;
      }
      cur := sub.value;
      i := i + 1;
    }
    return Some(cur);
  }

  /** `extract_tracks_from_json(data)`: `None` when the walk raises (the
    * caller swallows the exception); otherwise the de-duplicated tracks in
    * discovery order, each of the form `"{artist} - {name}"`. */
  method ExtractTracksFromJson(data: Json) returns (r: Option<seq<string>>)
    ensures r.None? <==> Raises in Probes(data)
    ensures r.Some? ==> r.value == Dedup(Yielded(Probes(data)))
    ensures r.Some? ==> NoDup(r.value) && FirstOccurrenceOrder(r.value, Yielded(Probes(data)))
    ensures r.Some? ==> forall t :: t in r.value <==> Yields(t) in Probes(data)
    ensures r.Some? ==> forall t :: t in r.value ==> IsDescriptor(t)
  {
    r := RecursiveSearch(data, []);
    var ps := Probes(data);
    ReplayAborts(ps, []);
    if Raises !in ps {
      ReplayDedup(ps, []);
      assert [] + Yielded(ps) == Yielded(ps);
      DedupMembers(Yielded(ps));
      YieldedMembers(ps);
      DedupOrder(Yielded(ps));
    }
  }

  /** A later stretch of checks that all occurred earlier changes nothing:
    * any exception it could raise was raised already, and every track it
    * yields is already in the list. */
  lemma ReplayRepeats(a: seq<Probe>, b: seq<Probe>)
    requires forall p :: p in b ==> p in a
    ensures Replay(a + b, []) == Replay(a, [])
  {
    ReplayAppend(a, b, []);
    ReplayAborts(a, []);
    if Raises !in a {
      assert Raises !in b;
      assert Dedup<string>([]) == [];
      ReplayDedup(a, []);
      assert [] + Yielded(a) == Yielded(a);
      ReplayDedup(b, Yielded(a));
      YieldedMembers(a);
      YieldedMembers(b);
      DedupAbsorb(Yielded(a), Yielded(b));
    }
  }

  /** The checks of a list are those of its items, in order. */
  lemma {:induction false} ItemProbesAppend(xs: seq<Json>, ys: seq<Json>)
    ensures ItemProbes(xs + ys) == ItemProbes(xs) + ItemProbes(ys)
  {
    if xs == [] {
      assert xs + ys == ys;
    } else {
      assert (xs + ys)[0] == xs[0] && (xs + ys)[1..] == xs[1..] + ys;
      ItemProbesAppend(xs[1..], ys);
    }
  }

  /** Every check of an item is among the checks of its list. */
  lemma ItemProbesHas(xs: seq<Json>, j: Json)
    requires j in xs
    ensures forall p :: p in Probes(j) ==> p in ItemProbes(xs)
  {
    var k :| 0 <= k < |xs| && xs[k] == j;
    assert xs == xs[..k] + xs[k..];
    ItemProbesAppend(xs[..k], xs[k..]);
    assert ItemProbes(xs[k..]) == Probes(j) + ItemProbes(xs[k + 1..]) by {
      assert xs[k..][1..] == xs[k + 1..];
    }
  }

  /** An item equal to an earlier item of the same list adds nothing: the
    * walk of `xs + [j] + ys` with `j` already in `xs` ends as the walk of
    * `xs + ys` does. */
  lemma RepeatedValueOnce(xs: seq<Json>, j: Json, ys: seq<Json>)
    requires j in xs
    ensures Replay(Probes(JArray(xs + [j] + ys)), []) == Replay(Probes(JArray(xs + ys)), [])
  {
    var a, pj, c := ItemProbes(xs), Probes(j), ItemProbes(ys);
    assert ItemProbes([j]) == pj by {
      assert [j][1..] == [];
      assert ItemProbes([j]) == pj + ItemProbes([]);
    }
    ItemProbesAppend(xs + [j], ys);
    ItemProbesAppend(xs, [j]);
    ItemProbesAppend(xs, ys);
    ItemProbesHas(xs, j);
    ReplayRepeats(a, pj);
    ReplayAppend(a + pj, c, []);
    ReplayAppend(a, c, []);
  }

  lemma {:induction false} YieldedAppend(a: seq<Probe>, b: seq<Probe>)
    ensures Yielded(a + b) == Yielded(a) + Yielded(b)
  {
    if a == [] {
      assert a + b == b;
    } else {
      assert (a + b)[0] == a[0] && (a + b)[1..] == a[1..] + b;
      YieldedAppend(a[1..], b);
    }
  }
}
