/**
 * Board construction: the in-place Fisher-Yates `shuffle`, the choice of
 * `pairs` images from the pool of fourteen (`pickRandomImages`) and the
 * doubled, reshuffled deck of `buildBoard`. A card's image is identified by
 * its index 1..14; `card<i>.png` is a different path for every index, so
 * comparing paths is comparing indices.
 *
 * `Math.random` is an input: `picks[i]` is the partner `j` drawn at step `i`,
 * and `Math.floor(Math.random() * (i + 1))` always lies in `0..i`.
 */
module GameDeck {
  import opened GameRules

  /** Every swap partner lies in `0..i`, one per position. */
  predicate PicksFor(picks: seq<nat>, n: nat)
  {
    |picks| == n && forall i :: 0 < i < n ==> picks[i] <= i
  }

  predicate Distinct(s: seq<int>)
  {
    forall i, j :: 0 <= i < j < |s| ==> s[i] != s[j]
  }

  function Min(a: nat, b: nat): nat
  {
    if a <= b then a else b
  }

  /** `[array[i], array[j]] = [array[j], array[i]]`. */
  function SwapAt(s: seq<int>, i: nat, j: nat): (r: seq<int>)
    requires i < |s| && j < |s|
    ensures |r| == |s| && r[i] == s[j] && r[j] == s[i]
    ensures forall k :: 0 <= k < |s| && k != i && k != j ==> r[k] == s[k]
  {
    s[i := s[j]][j := s[i]]
  }

  /** The shuffle loop from index `i` down to 1. */
  function ShuffleDown(s: seq<int>, picks: seq<nat>, i: nat): (r: seq<int>)
    requires i < |s| && PicksFor(picks, |s|)
    ensures |r| == |s|
    decreases i
  {
    if i == 0 then s else ShuffleDown(SwapAt(s, i, picks[i]), picks, i - 1)
  }

  /** What `shuffle` leaves in an array that held `s`. */
  function Shuffled(s: seq<int>, picks: seq<nat>): (r: seq<int>)
    requires PicksFor(picks, |s|)
    ensures |r| == |s|
  {
    if |s| == 0 then s else ShuffleDown(s, picks, |s| - 1)
  }

  lemma SwapPermutes(s: seq<int>, i: nat, j: nat)
    requires i < |s| && j < |s|
    ensures multiset(SwapAt(s, i, j)) == multiset(s)
    ensures Distinct(s) ==> Distinct(SwapAt(s, i, j))
  {
    var r := SwapAt(s, i, j);
    var m := s[i := s[j]];
    assert multiset(m) == multiset(s) - multiset{s[i]} + multiset{s[j]};
    assert multiset(r) == multiset(m) - multiset{m[j]} + multiset{s[i]};
    if Distinct(s) {
      forall a, b | 0 <= a < b < |r|
        ensures r[a] != r[b]
      {
        var a' := if a == i then j else if a == j then i else a;
        var b' := if b == i then j else if b == j then i else b;
        assert r[a] == s[a'] && r[b] == s[b'] && a' != b';
      }
    }
  }

  lemma {:induction false} ShuffleDownPermutes(s: seq<int>, picks: seq<nat>, i: nat)
    requires i < |s| && PicksFor(picks, |s|)
    ensures |ShuffleDown(s, picks, i)| == |s|
    ensures multiset(ShuffleDown(s, picks, i)) == multiset(s)
    ensures Distinct(s) ==> Distinct(ShuffleDown(s, picks, i))
    decreases i
  {
    if i > 0 {
      SwapPermutes(s, i, picks[i]);
      ShuffleDownPermutes(SwapAt(s, i, picks[i]), picks, i - 1);
    }
  }

  /** The shuffle rearranges: same length, same multiset, and distinct stays distinct. */
  lemma ShuffledPermutes(s: seq<int>, picks: seq<nat>)
    requires PicksFor(picks, |s|)
    ensures |Shuffled(s, picks)| == |s|
    ensures multiset(Shuffled(s, picks)) == multiset(s)
    ensures Distinct(s) ==> Distinct(Shuffled(s, picks))
  {
    if |s| > 0 {
      ShuffleDownPermutes(s, picks, |s| - 1);
    }
  }

  /** The in-place Fisher-Yates `shuffle`. */
  method Shuffle(a: array<int>, picks: seq<nat>)
    requires PicksFor(picks, a.Length)
    modifies a
    ensures a[..] == Shuffled(old(a[..]), picks)
    ensures multiset(a[..]) == multiset(old(a[..]))
  {
    ShuffledPermutes(a[..], picks);
    if a.Length == 0 {
      return;
    }
    var i := a.Length - 1;
    while i > 0
      invariant 0 <= i < a.Length
      invariant ShuffleDown(a[..], picks, i) == Shuffled(old(a[..]), picks)
    {
      var j := picks[i];
      assert SwapAt(a[..], i, j) == a[..][i := a[j]][j := a[i]];
      var t := a[i];
      a[i] := a[j];
      a[j] := t;
      i := i - 1;
    }
  }

  /** The pool `1..ImageCount` before shuffling. */
  function Pool(): (p: seq<int>)
    ensures |p| == ImageCount
    ensures forall k :: 0 <= k < |p| ==> p[k] == k + 1
  {
    seq(ImageCount, k => k + 1)
  }

  lemma PoolDistinct()
    ensures Distinct(Pool())
    ensures forall x :: x in Pool() <==> 1 <= x <= ImageCount
  {
    var p := Pool();
    forall x | 1 <= x <= ImageCount
      ensures x in p
    {
      assert p[x - 1] == x;
    }
  }

  /** The images `pickRandomImages(n)` chooses: a prefix of the shuffled pool. */
  method PickRandomImages(n: nat, picks: seq<nat>) returns (chosen: seq<int>)
    requires PicksFor(picks, ImageCount)
    ensures chosen == Shuffled(Pool(), picks)[..Min(n, ImageCount)]
    ensures |chosen| == Min(n, ImageCount)
    ensures Distinct(chosen)
    ensures forall x :: x in chosen ==> 1 <= x <= ImageCount
  {
    var pool := new int[ImageCount](k => k + 1);
    assert pool[..] == Pool();
    Shuffle(pool, picks);
    PoolDistinct();
    ShuffledPermutes(Pool(), picks);
    chosen := pool[..Min(n, ImageCount)];
    forall x | x in chosen
      ensures 1 <= x <= ImageCount
    {
      assert x in multiset(pool[..]);
    }
  }

  /** Each image of the deck is on exactly two cards. */
  predicate Paired(deck: seq<int>)
  {
    forall x :: x in deck ==> multiset(deck)[x] == 2
  }

  /** A board of `pairs` pairs: twice as many cards, each image 1..14 on exactly two of them. */
  predicate IsDeck(deck: seq<int>, pairs: nat)
  {
    && |deck| == 2 * pairs
    && Paired(deck)
    && (forall x :: x in deck ==> 1 <= x <= ImageCount)
  }

  function Elements(s: seq<int>): set<int>
  {
    set x | x in s
  }

  lemma {:induction false} DistinctOnce(s: seq<int>, x: int)
    requires Distinct(s) && x in s
    ensures multiset(s)[x] == 1
    decreases |s|
  {
    var t := s[1..];
    assert s == [s[0]] + t;
    assert Distinct(t);
    if s[0] == x {
      assert x !in t;
    } else {
      DistinctOnce(t, x);
    }
  }

  lemma {:induction false} DistinctElements(s: seq<int>)
    requires Distinct(s)
    ensures |Elements(s)| == |s|
    decreases |s|
  {
    if s != [] {
      var t := s[1..];
      assert Distinct(t);
      DistinctElements(t);
      assert Elements(s) == {s[0]} + Elements(t);
      assert s[0] !in Elements(t);
    }
  }

  /** Two copies of a distinct selection, shuffled, form a deck whose images are exactly the selection. */
  lemma DoubledIsDeck(chosen: seq<int>, deck: seq<int>)
    requires Distinct(chosen) && forall x :: x in chosen ==> 1 <= x <= ImageCount
    requires multiset(deck) == multiset(chosen + chosen)
    ensures IsDeck(deck, |chosen|)
    ensures Elements(deck) == Elements(chosen) && |Elements(deck)| == |chosen|
  {
    assert |deck| == |multiset(deck)| == |chosen + chosen|;
    forall x | x in deck
      ensures x in chosen && multiset(deck)[x] == 2
    {
      assert x in multiset(deck);
      assert x in chosen;
      DistinctOnce(chosen, x);
    }
    forall x | x in chosen
      ensures x in deck
    {
      assert x in multiset(chosen + chosen);
    }
    assert Elements(deck) == Elements(chosen);
    DistinctElements(chosen);
  }

  /**
   * `buildBoard`'s deck: `pairs` images chosen from the shuffled pool,
   * doubled and shuffled again.
   */
  function Deal(pairs: nat, poolPicks: seq<nat>, deckPicks: seq<nat>): (deck: seq<int>)
    requires PicksFor(poolPicks, ImageCount)
    requires PicksFor(deckPicks, 2 * Min(pairs, ImageCount))
    ensures |deck| == 2 * Min(pairs, ImageCount)
  {
    var chosen := Shuffled(Pool(), poolPicks)[..Min(pairs, ImageCount)];
    Shuffled(chosen + chosen, deckPicks)
  }

  /** Every deal is a deck of `pairs` pairs (at most 14) with that many different images. */
  lemma DealIsDeck(pairs: nat, poolPicks: seq<nat>, deckPicks: seq<nat>)
    requires PicksFor(poolPicks, ImageCount)
    requires PicksFor(deckPicks, 2 * Min(pairs, ImageCount))
    ensures IsDeck(Deal(pairs, poolPicks, deckPicks), Min(pairs, ImageCount))
    ensures |Elements(Deal(pairs, poolPicks, deckPicks))| == Min(pairs, ImageCount)
  {
    var shuffled := Shuffled(Pool(), poolPicks);
    PoolDistinct();
    ShuffledPermutes(Pool(), poolPicks);
    var chosen := shuffled[..Min(pairs, ImageCount)];
    forall x | x in chosen
      ensures 1 <= x <= ImageCount
    {
      assert x in multiset(shuffled);
    }
    ShuffledPermutes(chosen + chosen, deckPicks);
    DoubledIsDeck(chosen, Deal(pairs, poolPicks, deckPicks));
  }

  /** `buildBoard`'s deck, computed as the source does. */
  method BuildDeck(pairs: nat, poolPicks: seq<nat>, deckPicks: seq<nat>) returns (deck: seq<int>)
    requires PicksFor(poolPicks, ImageCount)
    requires PicksFor(deckPicks, 2 * Min(pairs, ImageCount))
    ensures deck == Deal(pairs, poolPicks, deckPicks)
    ensures IsDeck(deck, Min(pairs, ImageCount))
  {
    var chosen := PickRandomImages(pairs, poolPicks);
    var duplicated := chosen + chosen;
    var cardImages := new int[|duplicated|](k requires 0 <= k < |duplicated| => duplicated[k]);
    assert cardImages[..] == duplicated;
    Shuffle(cardImages, deckPicks);
    deck := cardImages[..];
    DoubledIsDeck(chosen, deck);
  }
}
