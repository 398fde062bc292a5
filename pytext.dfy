/**
  * The Python `str` operations the downloader relies on, over `seq<char>`:
  * `isspace`, `strip`, `re.sub(r'\s+', ' ', s)`, the `in` test,
  * `startswith`/`endswith`, and lower-casing.
  */
module PyText {

  /** `c.isspace()`; in a `str` pattern `\s` matches exactly these characters. */
  predicate IsSpace(c: char) {
    (c <= ' ' && AsciiSpace(c)) || ('\U{85}' <= c <= '\U{3000}' && WideSpace(c))
  }

  /** The whitespace characters up to the plain space. */
  predicate AsciiSpace(c: char) {
    c == ' ' || '\t' <= c <= '\r' || '\U{1C}' <= c <= '\U{1F}'
  }

  /** The whitespace characters from U+0085 on. */
  predicate WideSpace(c: char) {
    || c == '\U{85}' || c == '\U{A0}' || c == '\U{1680}'
    || '\U{2000}' <= c <= '\U{200A}'
    || c == '\U{2028}' || c == '\U{2029}' || c == '\U{202F}' || c == '\U{205F}'
    || c == '\U{3000}'
  }

  /** Neither end is whitespace. */
  predicate Stripped(s: string) {
    s == [] || (!IsSpace(s[0]) && !IsSpace(s[|s| - 1]))
  }

  /** Every whitespace character is a plain space and is followed by a
    * non-whitespace character (if any): there are no whitespace runs. */
  predicate SingleSpaced(s: string) {
    forall i :: 0 <= i < |s| && IsSpace(s[i]) ==> s[i] == ' ' && (i + 1 < |s| ==> !IsSpace(s[i + 1]))
  }

  /** The index of the first non-whitespace character at or after `i`, or
    * `|s|` when there is none. */
  function SkipSpaces(s: string, i: nat): (j: nat)
    requires i <= |s|
    ensures i <= j <= |s|
    ensures forall k :: i <= k < j ==> IsSpace(s[k])
    ensures j < |s| ==> !IsSpace(s[j])
    decreases |s| - i
  {
    if i < |s| && IsSpace(s[i]) then SkipSpaces(s, i + 1) else i
  }

  /** The index just after the last non-whitespace character before `j`,
    * or `0` when there is none. */
  function SkipSpacesBack(s: string, j: nat): (i: nat)
    requires j <= |s|
    ensures i <= j
    ensures forall k :: i <= k < j ==> IsSpace(s[k])
    ensures 0 < i ==> !IsSpace(s[i - 1])
  {
    if 0 < j && IsSpace(s[j - 1]) then SkipSpacesBack(s, j - 1) else j
  }

  /** `s.lstrip()` */
  function TrimStart(s: string): (r: string)
    ensures |r| <= |s| && r == s[|s| - |r|..]
    ensures forall i :: 0 <= i < |s| - |r| ==> IsSpace(s[i])
    ensures r != [] ==> !IsSpace(r[0])
  {
    s[SkipSpaces(s, 0)..]
  }

  /** `s.strip()`: what lies between the leading and the trailing
    * whitespace. */
  function Strip(s: string): (r: string)
    ensures Stripped(r)
    ensures |r| <= |s|
  {
    var a, b := SkipSpaces(s, 0), SkipSpacesBack(s, |s|);
    if a < b then s[a..b] else []
  }

  /** `Strip(s)` is the slice `s[a..b]` left once the whitespace `s[..a]` and
    * `s[b..]` is cut from both ends. */
  lemma StripSpan(s: string) returns (a: nat, b: nat)
    ensures a <= b <= |s| && Strip(s) == s[a..b]
    ensures forall i :: 0 <= i < a ==> IsSpace(s[i])
    ensures forall i :: b <= i < |s| ==> IsSpace(s[i])
  {
    a := SkipSpaces(s, 0);
    var e := SkipSpacesBack(s, |s|);
    b := if a < e then e else a;
  }

  /** A string that is already stripped is its own `strip()`. */
  lemma StripStripped(s: string)
    requires Stripped(s)
    ensures Strip(s) == s
  {
  }

  /** `re.sub(r'\s+', ' ', s)`: each maximal whitespace run, scanned left to
    * right, becomes one space. */
  function CollapseSpaces(s: string): (r: string)
    ensures SingleSpaced(r)
    ensures s != [] && !IsSpace(s[0]) ==> r != [] && r[0] == s[0]
    ensures |r| <= |s|
    decreases |s|
  {
    if s == [] then []
    else if IsSpace(s[0]) then " " + CollapseSpaces(TrimStart(s))
    else [s[0]] + CollapseSpaces(s[1..])
  }

  /** A string without whitespace runs is unchanged by the substitution. */
  lemma {:induction false} CollapseSingleSpaced(s: string)
    requires SingleSpaced(s)
    ensures CollapseSpaces(s) == s
    decreases |s|
  {
    if s != [] {
      assert SingleSpaced(s[1..]) by {
        forall i | 0 <= i < |s[1..]| && IsSpace(s[1..][i])
          ensures s[1..][i] == ' ' && (i + 1 < |s[1..]| ==> !IsSpace(s[1..][i + 1]))
        {
          assert s[1..][i] == s[i + 1];
        }
      }
      CollapseSingleSpaced(s[1..]);
      assert s == [s[0]] + s[1..];
      if IsSpace(s[0]) {
        assert s[0] == ' ';
        assert s[1..] == [] || !IsSpace(s[1..][0]);
        assert TrimStart(s) == TrimStart(s[1..]) == s[1..];
        assert CollapseSpaces(s) == " " + CollapseSpaces(s[1..]);
      } else {
        assert CollapseSpaces(s) == [s[0]] + CollapseSpaces(s[1..]);
      }
    }
  }

  /** `SkipSpaces` is determined by the characters: it is the one index
    * `j` from `i` on before which all is whitespace and at which there is
    * none. */
  lemma SkipStop(s: string, i: nat, j: nat)
    requires i <= j <= |s|
    requires forall k :: i <= k < j ==> IsSpace(s[k])
    requires j < |s| ==> !IsSpace(s[j])
    ensures SkipSpaces(s, i) == j
  {
  }

  /** Cutting leading whitespace from `a + b` cuts it from `a` alone, unless
    * a whitespace run would cross from `a` into `b`. */
  lemma TrimStartAppend(a: string, b: string)
    requires a != []
    requires b == [] || !IsSpace(a[|a| - 1]) || !IsSpace(b[0])
    ensures TrimStart(a + b) == TrimStart(a) + b
  {
    var k := SkipSpaces(a, 0);
    assert k < |a| + |b| ==> !IsSpace((a + b)[k]) by {
      if k == |a| && |b| > 0 {
        assert IsSpace(a[|a| - 1]);
      }
    }
    SkipStop(a + b, 0, k);
    assert (a + b)[k..] == a[k..] + b;
  }

  /** A whitespace run on its own becomes one space. */
  lemma CollapseRun(w: string)
    requires w != [] && forall i :: 0 <= i < |w| ==> IsSpace(w[i])
    ensures CollapseSpaces(w) == " "
  {
    assert TrimStart(w) == [];
  }

  /** One step of the substitution at a leading whitespace run. */
  lemma CollapseAtSpace(s: string)
    requires s != [] && IsSpace(s[0])
    ensures CollapseSpaces(s) == " " + CollapseSpaces(TrimStart(s))
  {
  }

  /** One step of the substitution at a leading non-whitespace character. */
  lemma CollapseAtWord(s: string)
    requires s != [] && !IsSpace(s[0])
    ensures CollapseSpaces(s) == [s[0]] + CollapseSpaces(s[1..])
  {
  }

  /** The substitution works run by run: it distributes over a
    * concatenation whose seam does not split a whitespace run. With
    * `CollapseRun`, this fixes `re.sub(r'\s+', ' ', s)` on every string:
    * words are kept and each run between them becomes one space. */
  lemma {:induction false} CollapseAppend(a: string, b: string)
    requires a == [] || b == [] || !IsSpace(a[|a| - 1]) || !IsSpace(b[0])
    ensures CollapseSpaces(a + b) == CollapseSpaces(a) + CollapseSpaces(b)
    decreases |a|, 1
  {
    if a == [] {
      assert a + b == b;
    } else if b == [] {
      assert a + b == a;
    } else if IsSpace(a[0]) {
      CollapseAppendAtSpace(a, b);
    } else {
      CollapseAppendAtWord(a, b);
    }
  }

  lemma AppendAssoc(x: string, y: string, z: string)
    ensures x + (y + z) == (x + y) + z
  {
  }

  /** `CollapseAppend` when `a` starts with whitespace. */
  lemma {:induction false} CollapseAppendAtSpace(a: string, b: string)
    requires a != [] && b != [] && IsSpace(a[0])
    requires !IsSpace(a[|a| - 1]) || !IsSpace(b[0])
    ensures CollapseSpaces(a + b) == CollapseSpaces(a) + CollapseSpaces(b)
    decreases |a|, 0
  {
    var r := TrimStart(a);
    TrimStartAppend(a, b);
    assert SkipSpaces(a, 0) != 0;
    assert r == [] || r[|r| - 1] == a[|a| - 1];
    assert (a + b)[0] == a[0];
    CollapseAtSpace(a);
    CollapseAtSpace(a + b);
    CollapseAppend(r, b);
    AppendAssoc(" ", CollapseSpaces(r), CollapseSpaces(b));
  }

  /** `CollapseAppend` when `a` starts with a non-whitespace character. */
  lemma {:induction false} CollapseAppendAtWord(a: string, b: string)
    requires a != [] && b != [] && !IsSpace(a[0])
    requires !IsSpace(a[|a| - 1]) || !IsSpace(b[0])
    ensures CollapseSpaces(a + b) == CollapseSpaces(a) + CollapseSpaces(b)
    decreases |a|, 0
  {
    var t := a[1..];
    assert t == [] || t[|t| - 1] == a[|a| - 1];
    assert (a + b)[0] == a[0] && (a + b)[1..] == t + b;
    CollapseAtWord(a);
    CollapseAtWord(a + b);
    CollapseAppend(t, b);
    AppendAssoc([a[0]], CollapseSpaces(t), CollapseSpaces(b));
  }

  /** A whitespace run between two non-whitespace neighbours becomes
    * exactly one space, and the text on either side is collapsed on its
    * own. */
  lemma CollapseBetween(u: string, w: string, v: string)
    requires w != [] && forall i :: 0 <= i < |w| ==> IsSpace(w[i])
    requires u == [] || !IsSpace(u[|u| - 1])
    requires v == [] || !IsSpace(v[0])
    ensures CollapseSpaces(u + w + v) == CollapseSpaces(u) + " " + CollapseSpaces(v)
  {
    assert CollapseSpaces(u + w) == CollapseSpaces(u) + " " by {
      CollapseAppend(u, w);
      CollapseRun(w);
    }
    assert CollapseSpaces(u + w + v) == CollapseSpaces(u + w) + CollapseSpaces(v) by {
      assert (u + w)[|u + w| - 1] == w[|w| - 1];
      CollapseAppend(u + w, v);
    }
  }

  /** The text of `s`: its non-whitespace characters, in order. */
  function NonSpace(s: string): string
  {
    if s == [] then [] else (if IsSpace(s[0]) then [] else [s[0]]) + NonSpace(s[1..])
  }

  /** The text of a concatenation is the concatenation of the texts. */
  lemma {:induction false} NonSpaceAppend(a: string, b: string)
    ensures NonSpace(a + b) == NonSpace(a) + NonSpace(b)
  {
    if a != [] {
      var head := if IsSpace(a[0]) then [] else [a[0]];
      assert (a + b)[0] == a[0] && (a + b)[1..] == a[1..] + b;
      NonSpaceAppend(a[1..], b);
      calc {
        NonSpace(a + b);
        head + NonSpace(a[1..] + b);
        head + (NonSpace(a[1..]) + NonSpace(b));
        (head + NonSpace(a[1..])) + NonSpace(b);
      }
    } else {
      assert a + b == b;
    }
  }

  /** A run of whitespace has no text. */
  lemma {:induction false} NonSpaceAllSpace(s: string)
    requires forall i :: 0 <= i < |s| ==> IsSpace(s[i])
    ensures NonSpace(s) == []
  {
    if s != [] {
      NonSpaceAllSpace(s[1..]);
    }
  }

  /** The substitution only rewrites whitespace: the text of the string, its
    * non-whitespace characters in order, survives unchanged. */
  lemma {:induction false} CollapseKeepsText(s: string)
    ensures NonSpace(CollapseSpaces(s)) == NonSpace(s)
    decreases |s|
  {
    if s != [] {
      if IsSpace(s[0]) {
        var rest := TrimStart(s);
        var k := |s| - |rest|;
        CollapseKeepsText(rest);
        assert (" " + CollapseSpaces(rest))[1..] == CollapseSpaces(rest);
        assert s == s[..k] + rest;
        NonSpaceAppend(s[..k], rest);
        NonSpaceAllSpace(s[..k]);
      } else {
        CollapseKeepsText(s[1..]);
        assert ([s[0]] + CollapseSpaces(s[1..]))[1..] == CollapseSpaces(s[1..]);
      }
    }
  }

  /** Stripping only cuts whitespace: the text survives unchanged. */
  lemma StripKeepsText(s: string)
    ensures NonSpace(Strip(s)) == NonSpace(s)
  {
    var a, b := StripSpan(s);
    assert s == s[..a] + (s[a..b] + s[b..]);
    NonSpaceAppend(s[..a], s[a..b] + s[b..]);
    NonSpaceAppend(s[a..b], s[b..]);
    NonSpaceAllSpace(s[..a]);
    NonSpaceAllSpace(s[b..]);
  }

  /** Stripping keeps a string free of whitespace runs. */
  lemma StripSingleSpaced(s: string)
    requires SingleSpaced(s)
    ensures SingleSpaced(Strip(s))
  {
    var a, b := StripSpan(s);
    var r := Strip(s);
    forall i | 0 <= i < |r| && IsSpace(r[i])
      ensures r[i] == ' ' && (i + 1 < |r| ==> !IsSpace(r[i + 1]))
    {
      assert r[i] == s[a + i];
      if i + 1 < |r| {
        assert r[i + 1] == s[a + i + 1];
      }
    }
  }

  /** `t in s`, `t` found at index `i` */
  predicate OccursAt(s: string, t: string, i: int) {
    0 <= i && i + |t| <= |s| && s[i..i + |t|] == t
  }

  /** Python's `t in s` for strings. */
  predicate Contains(s: string, t: string) {
    exists i | 0 <= i <= |s| - |t| :: OccursAt(s, t, i)
  }

  /** `s.startswith(p)` */
  predicate StartsWith(s: string, p: string) {
    |p| <= |s| && s[..|p|] == p
  }

  /** `s.endswith(x)` */
  predicate EndsWith(s: string, x: string) {
    |x| <= |s| && s[|s| - |x|..] == x
  }

  function LowerChar(c: char): char {
    if 'A' <= c <= 'Z' then (c as int + 32) as char else c
  }

  /** `s.lower()`, restricted to ASCII letters (see README for why that is
    * exact where the downloader uses it). */
  function Lower(s: string): (r: string)
    ensures |r| == |s|
    ensures forall i :: 0 <= i < |s| ==> r[i] == LowerChar(s[i])
  {
    seq(|s|, i requires 0 <= i < |s| => LowerChar(s[i]))
  }
}
