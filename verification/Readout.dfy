/** The word stream that reaches the write thread, and what a complete event in it is
    (src/data/data_handler.h). A `Gap` stands for words that were lost between two DMA blocks. */
module Readout {
  import opened Basics

  type Word = w: int | 0 <= w < 0x1_0000_0000

  const EVENT_START: Word := 0xFFFF_FFFF
  const EVENT_END: Word := 0xE000_0000
  const EVENTCHUNK: nat := 10
  const EVENTS_PER_FILE: nat := 5000

  datatype Item = Data(word: Word) | Gap

  predicate IsStart(x: Item) {
    x.Data? && x.word == EVENT_START
  }

  predicate IsEnd(x: Item) {
    x.Data? && x.word == EVENT_END
  }

  predicate IsBody(x: Item) {
    x.Data? && x.word != EVENT_START && x.word != EVENT_END
  }

  /** A stretch of the stream, both ends included. */
  datatype Span = Span(first: nat, last: nat) {
    function Length(): int {
      last - first + 1
    }
  }

  /** The declarative reference: a start marker, then an end marker, and nothing but body words between. */
  ghost predicate IsEvent(s: seq<Item>, e: Span) {
    && e.first < e.last < |s|
    && IsStart(s[e.first])
    && IsEnd(s[e.last])
    && forall k :: e.first < k < e.last ==> IsBody(s[k])
  }

  /** The first `n` items of `s` end inside an event that began at `i`. */
  ghost predicate OpenAt(s: seq<Item>, i: nat, n: nat) {
    && i < n <= |s|
    && IsStart(s[i])
    && forall k :: i < k < n ==> IsBody(s[k])
  }

  /** Spans in stream order, none overlapping the next. */
  ghost predicate Ordered(es: seq<Span>) {
    forall a, b :: 0 <= a < b < |es| ==> es[a].last < es[b].first
  }

  ghost predicate Within(s: seq<Item>, es: seq<Span>) {
    forall k :: 0 <= k < |es| ==> es[k].first <= es[k].last < |s|
  }

  datatype Parse = Parse(found: seq<Span>, open: Option<nat>)

  /** The whole-stream parser: no buffer, no chunks, no capacity. */
  function ParseStream(s: seq<Item>): Parse {
    if s == [] then Parse([], None)
    else
      var p := ParseStream(s[..|s| - 1]);
      var x := s[|s| - 1];
      if IsStart(x) then p.(open := Some(|s| - 1))
      else if IsBody(x) then p
      else if IsEnd(x) && p.open.Some? then Parse(p.found + [Span(p.open.value, |s| - 1)], None)
      else p.(open := None)
  }

  lemma OpenGrows(s: seq<Item>, x: Item, i: nat)
    ensures OpenAt(s + [x], i, |s| + 1) <==> (i == |s| && IsStart(x)) || (OpenAt(s, i, |s|) && IsBody(x))
  {
    var r := s + [x];
    assert r[|s|] == x && (i < |s| ==> r[i] == s[i]);
    if OpenAt(r, i, |s| + 1) {
      forall k | i < k < |s| ensures IsBody(s[k]) { assert IsBody(r[k]); }
    }
    if OpenAt(s, i, |s|) && IsBody(x) {
      forall k | i < k < |s| + 1 ensures IsBody(r[k]) { assert k < |s| ==> IsBody(s[k]); }
    }
  }

  lemma EventGrows(s: seq<Item>, x: Item, e: Span)
    ensures IsEvent(s + [x], e) <==> IsEvent(s, e) || (e.last == |s| && IsEnd(x) && OpenAt(s, e.first, |s|))
  {
    var r := s + [x];
    if IsEvent(r, e) {
      forall k | e.first < k < e.last ensures k < |s| ==> IsBody(s[k]) { assert IsBody(r[k]); }
    }
    if IsEvent(s, e) || (e.last == |s| && IsEnd(x) && OpenAt(s, e.first, |s|)) {
      forall k | e.first < k < e.last ensures IsBody(r[k]) { assert IsBody(s[k]); }
    }
  }

  /** An event ends before any event that is still open begins. */
  lemma EventsEndBeforeOpen(s: seq<Item>, e: Span, i: nat)
    requires IsEvent(s, e) && OpenAt(s, i, |s|)
    ensures e.last < i
  {
    assert IsEnd(s[e.last]) && !IsBody(s[e.last]) && !IsStart(s[e.last]);
  }

  ghost predicate ParsesRight(s: seq<Item>, p: Parse) {
    && (forall e: Span :: e in p.found <==> IsEvent(s, e))
    && Ordered(p.found)
    && (forall i: nat :: p.open == Some(i) <==> OpenAt(s, i, |s|))
  }

  lemma OneMoreItem(s: seq<Item>, x: Item, p: Parse, q: Parse)
    requires ParsesRight(s, p)
    requires q == if IsStart(x) then p.(open := Some(|s|))
                  else if IsBody(x) then p
                  else if IsEnd(x) && p.open.Some? then Parse(p.found + [Span(p.open.value, |s|)], None)
                  else p.(open := None)
    ensures ParsesRight(s + [x], q)
  {
    forall i: nat ensures q.open == Some(i) <==> OpenAt(s + [x], i, |s + [x]|) { OpenGrows(s, x, i); }
    forall e: Span ensures e in q.found <==> IsEvent(s + [x], e) { EventGrows(s, x, e); }
    if IsEnd(x) && p.open.Some? {
      forall a | 0 <= a < |p.found| ensures p.found[a].last < p.open.value {
        assert IsEvent(s, p.found[a]);
        EventsEndBeforeOpen(s, p.found[a], p.open.value);
      }
    }
  }

  /** The parser finds exactly the complete events, in stream order, and knows whether one is open. */
  lemma {:induction false} ParseIsExact(s: seq<Item>)
    ensures forall e: Span :: e in ParseStream(s).found <==> IsEvent(s, e)
    ensures Ordered(ParseStream(s).found)
    ensures forall i: nat :: ParseStream(s).open == Some(i) <==> OpenAt(s, i, |s|)
  {
    if s != [] {
      var t, x := s[..|s| - 1], s[|s| - 1];
      ParseIsExact(t);
      OneMoreItem(t, x, ParseStream(t), ParseStream(s));
      assert t + [x] == s;
    }
  }

  function WordAt(x: Item): Word {
    if x.Data? then x.word else 0
  }

  /** The words of `s[i..j]`; only used where the stretch has no gap in it. */
  function Words(s: seq<Item>, i: nat, j: nat): (r: seq<Word>)
    requires i <= j <= |s|
    ensures |r| == j - i
  {
    if i == j then [] else Words(s, i, j - 1) + [WordAt(s[j - 1])]
  }

  /** The words of the given spans, one after the other. */
  function Cat(s: seq<Item>, es: seq<Span>): seq<Word>
    requires Within(s, es)
  {
    if es == [] then []
    else
      var e := es[|es| - 1];
      Cat(s, es[..|es| - 1]) + Words(s, e.first, e.last + 1)
  }

  lemma CatSnoc(s: seq<Item>, es: seq<Span>, e: Span)
    requires Within(s, es) && e.first <= e.last < |s|
    ensures Within(s, es + [e])
    ensures Cat(s, es + [e]) == Cat(s, es) + Words(s, e.first, e.last + 1)
  {
    var all := es + [e];
    assert all[|all| - 1] == e && all[..|all| - 1] == es;
  }

  lemma {:induction false} CatAppend(s: seq<Item>, a: seq<Span>, b: seq<Span>)
    requires Within(s, a) && Within(s, b)
    ensures Within(s, a + b)
    ensures Cat(s, a + b) == Cat(s, a) + Cat(s, b)
  {
    if b == [] {
      assert a + b == a;
    } else {
      var c, e := b[..|b| - 1], b[|b| - 1];
      var w := Words(s, e.first, e.last + 1);
      assert c + [e] == b && (a + c) + [e] == a + b;
      CatAppend(s, a, c);
      calc {
        Cat(s, a + b);
        { CatSnoc(s, a + c, e); }
        Cat(s, a + c) + w;
        (Cat(s, a) + Cat(s, c)) + w;
        { Assoc(Cat(s, a), Cat(s, c), w); }
        Cat(s, a) + (Cat(s, c) + w);
        { CatSnoc(s, c, e); }
        Cat(s, a) + Cat(s, b);
      }
    }
  }

  /** Every event attempt (a start marker and the words stored behind it, end marker included)
      has at most `bound` words. */
  ghost predicate Attempt(s: seq<Item>, i: nat, j: nat) {
    && i <= j < |s|
    && IsStart(s[i])
    && (forall k :: i < k < j ==> IsBody(s[k]))
    && (i < j ==> IsBody(s[j]) || IsEnd(s[j]))
  }

  ghost predicate Fits(s: seq<Item>, bound: nat) {
    forall i: nat, j: nat :: Attempt(s, i, j) ==> j - i + 1 <= bound
  }
}
