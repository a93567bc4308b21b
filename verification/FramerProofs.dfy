/** What the framer guarantees for every word stream, and what it guarantees when events fit. */
module FramerProofs {
  import opened Basics
  import opened Readout
  import opened Framer

  /** The spans are complete events of the first `n` items of `s`, in order; the open one began after them. */
  ghost predicate Genuine(s: seq<Item>, n: nat, kept: seq<Span>, open: Option<nat>) {
    && n <= |s|
    && Ordered(kept)
    && (forall k :: 0 <= k < |kept| ==> IsEvent(s, kept[k]) && kept[k].last < n)
    && (open.Some? ==> OpenAt(s, open.value, n))
    && (open.Some? ==> forall k :: 0 <= k < |kept| ==> kept[k].last < open.value)
  }

  /** For any stream at all, what the framer keeps is genuine, however often it overflows. */
  lemma {:induction false} ShelfIsGenuine(cap: nat, s: seq<Item>, n: nat)
    requires n <= |s|
    ensures var sh := Shelve(cap, s[..n]);
      && Genuine(s, n, Kept(sh), sh.open)
      && |sh.cur| <= sh.tally < EVENTCHUNK
  {
    if n > 0 {
      ShelfIsGenuine(cap, s, n - 1);
      assert s[..n][..n - 1] == s[..n - 1];
      GenuineStep(cap, s, n - 1, Shelve(cap, s[..n - 1]));
    }
  }

  lemma GenuineStep(cap: nat, s: seq<Item>, n: nat, sh: Shelf)
    requires n < |s| && Genuine(s, n, Kept(sh), sh.open) && |sh.cur| <= sh.tally < EVENTCHUNK
    ensures var r := ShelfStep(cap, sh, s[n], n);
      && Genuine(s, n + 1, Kept(r), r.open)
      && |r.cur| <= r.tally < EVENTCHUNK
  {
    if s[n].Data? {
      if Held(sh, n) >= cap {
        GenuineOverflow(s, n, sh);
        GenuineWord(s, n, Overflow(sh));
      } else {
        GenuineWord(s, n, sh);
      }
    }
  }

  lemma GenuineOverflow(s: seq<Item>, n: nat, sh: Shelf)
    requires Genuine(s, n, Kept(sh), sh.open) && |sh.cur| <= sh.tally
    ensures var g := Overflow(sh);
      Genuine(s, n, Kept(g), g.open) && |g.cur| <= g.tally == sh.tally
  {
    var k, g := Kept(sh), Overflow(sh);
    if g.cur != sh.cur { assert Kept(g) == k[..|k| - 1]; } else { assert Kept(g) == k; }
  }

  lemma GenuineWord(s: seq<Item>, n: nat, g: Shelf)
    requires n < |s| && Genuine(s, n, Kept(g), g.open) && |g.cur| <= g.tally < EVENTCHUNK && s[n].Data?
    ensures var r := Place(g, s[n], n);
      && Genuine(s, n + 1, Kept(r), r.open)
      && |r.cur| <= r.tally < EVENTCHUNK
  {
    if IsEnd(s[n]) && g.open.Some? {
      KeptComplete(g, Span(g.open.value, n));
      GenuineSnoc(s, n, Kept(g), g.open.value);
    } else {
      assert Kept(Place(g, s[n], n)) == Kept(g);
    }
  }

  lemma GenuineSnoc(s: seq<Item>, n: nat, kept: seq<Span>, i: nat)
    requires n < |s| && Genuine(s, n, kept, Some(i)) && IsEnd(s[n])
    ensures Genuine(s, n + 1, kept + [Span(i, n)], None)
  {
  }

  lemma KeptComplete(g: Shelf, e: Span)
    ensures Kept(Complete(g, e)) == Kept(g) + [e]
  {
    FlattenSnoc(g.groups, g.cur + [e]);
  }

  lemma FlattenSnoc<T>(groups: seq<seq<T>>, g: seq<T>)
    ensures Flatten(groups + [g]) == Flatten(groups) + g
  {
    assert (groups + [g])[..|groups|] == groups;
  }
}
