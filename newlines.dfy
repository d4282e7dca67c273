/**
  The normalisation `keyBuffer[0].replace(/^\n+|\n+$/g, "")` that highlightYank
  applies to the yanked text: the run of line feeds at the start and the run at
  the end are removed; everything in between, interior line feeds included, is
  kept. JavaScript's `$` without the `m` flag matches only at the end of input,
  so only the final run is removed, and an all-line-feed string becomes "".
*/
module Newlines {

  const LineFeed: char := '\n'

  predicate AllLineFeeds(s: string) {
    forall i :: 0 <= i < |s| ==> s[i] == LineFeed
  }

  /** Neither the first nor the last character is a line feed. */
  predicate NoEdgeLineFeeds(s: string) {
    s == [] || (s[0] != LineFeed && s[|s| - 1] != LineFeed)
  }

  /** The `^\n+` alternative: drop the leading run of line feeds. */
  function DropLeadingLineFeeds(s: string): (r: string)
    ensures |r| <= |s|
    decreases |s|
  {
    if s != [] && s[0] == LineFeed then DropLeadingLineFeeds(s[1..]) else s
  }

  /** What is dropped is all line feeds, and what is kept is the rest of the input. */
  lemma {:induction false} DropLeadingSpec(s: string)
    ensures DropLeadingLineFeeds(s) == s[|s| - |DropLeadingLineFeeds(s)|..]
    ensures AllLineFeeds(s[..|s| - |DropLeadingLineFeeds(s)|])
    ensures DropLeadingLineFeeds(s) == [] || DropLeadingLineFeeds(s)[0] != LineFeed
    decreases |s|
  {
    if s != [] && s[0] == LineFeed {
      DropLeadingSpec(s[1..]);
      var n := |s| - |DropLeadingLineFeeds(s)|;
      assert s[..n] == [s[0]] + s[1..][..n - 1];
    }
  }

  /** The `\n+$` alternative: drop the trailing run of line feeds. */
  function DropTrailingLineFeeds(s: string): (r: string)
    ensures |r| <= |s|
    decreases |s|
  {
    if s != [] && s[|s| - 1] == LineFeed then DropTrailingLineFeeds(s[..|s| - 1]) else s
  }

  lemma {:induction false} DropTrailingSpec(s: string)
    ensures DropTrailingLineFeeds(s) == s[..|DropTrailingLineFeeds(s)|]
    ensures AllLineFeeds(s[|DropTrailingLineFeeds(s)|..])
    ensures DropTrailingLineFeeds(s) == [] || DropTrailingLineFeeds(s)[|DropTrailingLineFeeds(s)| - 1] != LineFeed
    decreases |s|
  {
    if s != [] && s[|s| - 1] == LineFeed {
      DropTrailingSpec(s[..|s| - 1]);
      var n := |DropTrailingLineFeeds(s)|;
      assert s[n..] == s[..|s| - 1][n..] + [s[|s| - 1]];
    }
  }

  /** The text highlightYank hands to the renderer; it has no line feed at either edge. */
  function StripNewlines(s: string): (r: string)
    ensures NoEdgeLineFeeds(r)
  {
    DropLeadingSpec(s);
    DropTrailingSpec(DropLeadingLineFeeds(s));
    DropTrailingLineFeeds(DropLeadingLineFeeds(s))
  }

  /**
    The result is a contiguous slice of the input, and what was cut away on
    either side is line feeds only.
  */
  lemma StripNewlinesIsSlice(s: string)
    ensures exists i, j :: 0 <= i <= j <= |s| && StripNewlines(s) == s[i..j] && AllLineFeeds(s[..i]) && AllLineFeeds(s[j..])
  {
    var t := DropLeadingLineFeeds(s);
    var r := DropTrailingLineFeeds(t);
    DropLeadingSpec(s);
    DropTrailingSpec(t);
    var i := |s| - |t|;
    assert r == s[i..i + |r|];
    assert s[i + |r|..] == t[|r|..];
  }

  /** Removing leading line feeds from `p + t` gives `t` when `t` does not start with one. */
  lemma {:induction false} DropLeadingOf(p: string, t: string)
    requires AllLineFeeds(p)
    requires t == [] || t[0] != LineFeed
    ensures DropLeadingLineFeeds(p + t) == t
    decreases |p|
  {
    if p == [] {
      assert p + t == t;
    } else {
      assert (p + t)[0] == LineFeed;
      assert (p + t)[1..] == p[1..] + t;
      DropLeadingOf(p[1..], t);
    }
  }

  /** Removing trailing line feeds from `t + q` gives `t` when `t` does not end with one. */
  lemma {:induction false} DropTrailingOf(t: string, q: string)
    requires AllLineFeeds(q)
    requires t == [] || t[|t| - 1] != LineFeed
    ensures DropTrailingLineFeeds(t + q) == t
    decreases |q|
  {
    if q == [] {
      assert t + q == t;
    } else {
      assert (t + q)[|t + q| - 1] == LineFeed;
      assert (t + q)[..|t + q| - 1] == t + q[..|q| - 1];
      DropTrailingOf(t, q[..|q| - 1]);
    }
  }

  /**
    Reference characterisation: whenever the input is a run of line feeds, a
    middle part with no line feed at its edges, and another run of line feeds,
    the strip yields exactly the middle part.
  */
  lemma StripNewlinesUnique(p: string, m: string, q: string)
    requires AllLineFeeds(p) && AllLineFeeds(q) && NoEdgeLineFeeds(m)
    ensures StripNewlines(p + m + q) == m
  {
    if m == [] {
      assert p + m + q == (p + q) + [];
      assert AllLineFeeds(p + q) by {
        forall i | 0 <= i < |p + q| ensures (p + q)[i] == LineFeed {
          if i < |p| { assert (p + q)[i] == p[i]; } else { assert (p + q)[i] == q[i - |p|]; }
        }
      }
      DropLeadingOf(p + q, []);
      DropTrailingOf([], []);
    } else {
      assert p + m + q == p + (m + q);
      assert (m + q)[0] == m[0];
      DropLeadingOf(p, m + q);
      assert m[|m| - 1] != LineFeed;
      DropTrailingOf(m, q);
    }
  }

  /** Stripping an already stripped string changes nothing. */
  lemma StripNewlinesIdempotent(s: string)
    ensures StripNewlines(StripNewlines(s)) == StripNewlines(s)
  {
    var r := StripNewlines(s);
    assert [] + r + [] == r;
    StripNewlinesUnique([], r, []);
  }

  /** A yank of nothing but line feeds is highlighted as the empty string. */
  lemma StripNewlinesAllLineFeeds(s: string)
    requires AllLineFeeds(s)
    ensures StripNewlines(s) == ""
  {
    assert s + "" + "" == s;
    StripNewlinesUnique(s, "", "");
  }

  /** Line feeds strictly inside the yanked text are kept. */
  lemma StripNewlinesKeepsInterior(p: string, a: string, b: string, q: string)
    requires AllLineFeeds(p) && AllLineFeeds(q)
    requires a != [] && a[0] != LineFeed && b != [] && b[|b| - 1] != LineFeed
    ensures StripNewlines(p + a + "\n" + b + q) == a + "\n" + b
  {
    var m := a + "\n" + b;
    assert m[0] == a[0];
    assert m[|m| - 1] == b[|b| - 1];
    assert p + a + "\n" + b + q == p + m + q;
    StripNewlinesUnique(p, m, q);
  }

  /** A yanked line with its line feeds at both ends is highlighted without them. */
  lemma StripNewlinesExample()
    ensures StripNewlines("\nhello\n") == "hello"
  {
    StripNewlinesUnique("\n", "hello", "\n");
    assert "\n" + "hello" + "\n" == "\nhello\n";
  }
}
