/** The linked lists that the stack decoder keeps inside its node array: one chain of slot
    numbers per metric bucket, newest first, with slot 0 reserved to mean "empty". */
module BucketChains {

  const BUCKETS := 1000

  /** A chain, oldest slot first; its newest slot is the bucket's head. */
  type Chain = seq<nat>

  ghost function Head(chain: Chain): nat {
    if chain == [] then 0 else chain[|chain| - 1]
  }

  ghost function Next(chain: Chain, p: nat): nat
    requires p < |chain|
  {
    if p == 0 then 0 else chain[p - 1]
  }

  /** The chains are exactly what the heads and links spell out, and they partition the used
      slots 1..top, `hand` excepted (hand == 0 excludes none). `place` says where each slot is,
      so no slot occurs twice and no chain runs in a circle. */
  ghost predicate Linked(links: seq<nat>, heads: seq<nat>, chains: seq<Chain>, place: seq<(nat, nat)>, top: nat, hand: nat)
  {
    && |heads| == |chains| == BUCKETS && |place| == |links| && top < |links|
    && (forall b :: 0 <= b < BUCKETS ==> heads[b] == Head(chains[b]))
    && (forall b, p :: 0 <= b < BUCKETS && 0 <= p < |chains[b]| ==> InChain(links, chains[b], place, top, hand, b, p))
    && (forall s :: 1 <= s <= top && s != hand ==> Placed(chains, place[s], s))
  }

  ghost predicate InChain(links: seq<nat>, chain: Chain, place: seq<(nat, nat)>, top: nat, hand: nat, b: nat, p: nat)
    requires p < |chain| && |place| == |links| && top < |links|
  {
    var s := chain[p];
    1 <= s <= top && s != hand && place[s] == (b, p) && links[s] == Next(chain, p)
  }

  ghost predicate Placed(chains: seq<Chain>, at: (nat, nat), s: nat) {
    at.0 < |chains| && at.1 < |chains[at.0]| && chains[at.0][at.1] == s
  }

  lemma PushKeepsLinks(links: seq<nat>, heads: seq<nat>, chains: seq<Chain>, place: seq<(nat, nat)>, top: nat, hand: nat, b: nat)
    requires Linked(links, heads, chains, place, top, hand) && 1 <= hand <= top && b < BUCKETS
    ensures Linked(links[hand := heads[b]], heads[b := hand], chains[b := chains[b] + [hand]],
                   place[hand := (b, |chains[b]|)], top, 0)
  {
    var chains', place' := chains[b := chains[b] + [hand]], place[hand := (b, |chains[b]|)];
    var links' := links[hand := heads[b]];
    forall c, p | 0 <= c < BUCKETS && 0 <= p < |chains'[c]|
      ensures InChain(links', chains'[c], place', top, 0, c, p)
    {
      if p < |chains[c]| {
        assert InChain(links, chains[c], place, top, hand, c, p);
      }
    }
    forall s | 1 <= s <= top
      ensures Placed(chains', place'[s], s)
    {
      if s != hand {
        assert Placed(chains, place[s], s);
      }
    }
  }

  lemma PopKeepsLinks(links: seq<nat>, heads: seq<nat>, chains: seq<Chain>, place: seq<(nat, nat)>, top: nat, b: nat)
    requires Linked(links, heads, chains, place, top, 0) && b < BUCKETS && heads[b] != 0
    ensures chains[b] != [] && 1 <= heads[b] <= top && place[heads[b]].0 == b
    ensures Linked(links, heads[b := links[heads[b]]], chains[b := chains[b][..|chains[b]| - 1]], place, top, heads[b])
  {
    var last := |chains[b]| - 1;
    var s := heads[b];
    assert InChain(links, chains[b], place, top, 0, b, last);
    var chains' := chains[b := chains[b][..last]];
    if last > 0 {
      assert InChain(links, chains[b], place, top, 0, b, last - 1);
    }
    forall c, p | 0 <= c < BUCKETS && 0 <= p < |chains'[c]|
      ensures InChain(links, chains'[c], place, top, s, c, p)
    {
      assert InChain(links, chains[c], place, top, 0, c, p);
    }
    forall t | 1 <= t <= top && t != s
      ensures Placed(chains', place[t], t)
    {
      assert Placed(chains, place[t], t);
    }
  }

  /** Opening slot top + 1 puts it in hand. */
  lemma GrowKeepsLinks(links: seq<nat>, heads: seq<nat>, chains: seq<Chain>, place: seq<(nat, nat)>, top: nat)
    requires Linked(links, heads, chains, place, top, 0) && top + 1 < |links|
    ensures Linked(links, heads, chains, place, top + 1, top + 1)
  {
    var grown := top + 1;
    forall c, p | 0 <= c < BUCKETS && 0 <= p < |chains[c]|
      ensures InChain(links, chains[c], place, grown, grown, c, p)
    {
      assert InChain(links, chains[c], place, top, 0, c, p);
    }
  }

  lemma LinkedSizes(links: seq<nat>, heads: seq<nat>, chains: seq<Chain>, place: seq<(nat, nat)>, top: nat, hand: nat)
    requires Linked(links, heads, chains, place, top, hand)
    ensures |heads| == |chains| == BUCKETS && |place| == |links| && top < |links|
  {
  }

  /** A head of 0 means the bucket is empty, and only that. */
  lemma HeadEmpty(links: seq<nat>, heads: seq<nat>, chains: seq<Chain>, place: seq<(nat, nat)>, top: nat, b: nat)
    requires Linked(links, heads, chains, place, top, 0) && b < BUCKETS
    ensures heads[b] == Head(chains[b])
    ensures heads[b] == 0 <==> chains[b] == []
  {
    if chains[b] != [] {
      assert InChain(links, chains[b], place, top, 0, b, |chains[b]| - 1);
    }
  }

  /** The chains hold exactly the used slots but the one in hand. */
  lemma ChainsCover(links: seq<nat>, heads: seq<nat>, chains: seq<Chain>, place: seq<(nat, nat)>, top: nat, hand: nat, s: nat)
    requires Linked(links, heads, chains, place, top, hand)
    ensures (exists b :: 0 <= b < BUCKETS && s in chains[b]) <==> 1 <= s <= top && s != hand
  {
    if b :| 0 <= b < BUCKETS && s in chains[b] {
      var p :| 0 <= p < |chains[b]| && chains[b][p] == s;
      assert InChain(links, chains[b], place, top, hand, b, p);
    }
    if 1 <= s <= top && s != hand {
      assert Placed(chains, place[s], s);
      assert s in chains[place[s].0];
    }
  }

  /** No slot is in two chains or twice in one. */
  lemma SlotsOccurOnce(links: seq<nat>, heads: seq<nat>, chains: seq<Chain>, place: seq<(nat, nat)>, top: nat, hand: nat,
                       b: nat, p: nat, c: nat, q: nat)
    requires Linked(links, heads, chains, place, top, hand) && b < BUCKETS && p < |chains[b]| && c < BUCKETS && q < |chains[c]|
    ensures chains[b][p] == chains[c][q] <==> b == c && p == q
  {
    assert InChain(links, chains[b], place, top, hand, b, p) && InChain(links, chains[c], place, top, hand, c, q);
  }
}
