/** The candidate search: the strongest places in the waterfall, strongest first. */
module FindCandidates {
  import opened CandidateHeap

  /** `kept` are the k best of `all`, or all of them. */
  ghost predicate Selected(kept: multiset<Candidate>, all: multiset<Candidate>, k: nat) {
    && kept <= all && |kept| == (if |all| < k then |all| else k)
    && forall x, y :: x in all - kept && y in kept ==> x.score <= y.score
  }

  predicate Descending(s: seq<Candidate>) {
    forall i, j :: 0 <= i < j < |s| ==> s[j].score <= s[i].score
  }

  // ----- one more candidate

  /** The heap without its root, with the last node in the root's place. */
  function RootReplaced(s: seq<Candidate>): (r: seq<Candidate>)
    requires s != []
    ensures |r| == |s| - 1
  {
    s[0 := s[|s| - 1]][..|s| - 1]
  }

  lemma RootReplacedHeap(s: seq<Candidate>)
    requires s != [] && IsHeap(s)
    ensures HeapBelow(RootReplaced(s), 0)
    ensures multiset(RootReplaced(s)) == multiset(s) - multiset{s[0]}
  {
    if |s| == 1 {
      assert s == [s[0]];
    } else {
      var n := |s| - 1;
      assert s == [s[0]] + s[1..n] + [s[n]];
      assert multiset(RootReplaced(s)) == multiset{s[n]} + multiset(s[1..n]);
    }
  }

  /** Every kept candidate scores at least what the root does. */
  lemma LeastIsLeast(s: seq<Candidate>)
    requires s != [] && IsHeap(s)
    ensures forall y :: y in multiset(s) ==> s[0].score <= y.score
  {
    forall y | y in multiset(s) ensures s[0].score <= y.score {
      var i :| 0 <= i < |s| && s[i] == y;
      RootIsLeast(s, i);
    }
  }

  /** A full selection stays right when the newcomer scores no more than the least kept. */
  lemma SelectedSkip(kept: multiset<Candidate>, all: multiset<Candidate>, k: nat, c: Candidate)
    requires Selected(kept, all, k) && |kept| == k && forall y :: y in kept ==> c.score <= y.score
    ensures Selected(kept, all + multiset{c}, k)
  {
    var rest := all + multiset{c} - kept;
    forall x, y | x in rest && y in kept ensures x.score <= y.score {
      assert rest == all - kept + multiset{c};
    }
  }

  /** With room left everything so far is kept, and the newcomer too. */
  lemma SelectedAdd(kept: multiset<Candidate>, all: multiset<Candidate>, k: nat, c: Candidate)
    requires Selected(kept, all, k) && |kept| < k
    ensures Selected(kept + multiset{c}, all + multiset{c}, k)
  {
    assert all == kept + (all - kept);
    assert all - kept == multiset{};
    assert all + multiset{c} - (kept + multiset{c}) == multiset{};
  }

  /** A newcomer that beats the least kept takes its place. */
  lemma SelectedSwap(kept: multiset<Candidate>, all: multiset<Candidate>, k: nat, least: Candidate, c: Candidate)
    requires Selected(kept, all, k) && |kept| == k && least in kept && least.score < c.score
    requires forall y :: y in kept ==> least.score <= y.score
    ensures Selected(kept - multiset{least} + multiset{c}, all + multiset{c}, k)
  {
    var next := kept - multiset{least} + multiset{c};
    assert all + multiset{c} - next == all - kept + multiset{least};
    forall x, y | x in all - kept + multiset{least} && y in next ensures x.score <= y.score {
      if y == c {
        assert x in all - kept ==> x.score <= least.score;
      } else {
        assert y in kept;
      }
    }
  }

  lemma AppendedHeap(s: seq<Candidate>, c: Candidate)
    requires IsHeap(s)
    ensures HeapAbove(s + [c], |s|)
  {
  }

  /** Put one qualifying candidate into the heap, if it belongs to the best. */
  method Offer(heap: array<Candidate>, size: nat, k: nat, c: Candidate, ghost all: multiset<Candidate>) returns (size': nat)
    requires 1 <= k <= heap.Length && size <= k && IsHeap(heap[..size]) && Selected(multiset(heap[..size]), all, k)
    modifies heap
    ensures size' <= k && IsHeap(heap[..size']) && Selected(multiset(heap[..size']), all + multiset{c}, k)
  {
    hide Selected, IsHeap, HeapAbove, HeapBelow;
    size' := size;
    ghost var kept := multiset(heap[..size]);
    ghost var next := all + multiset{c};
    if size' == k && c.score > heap[0].score {
      Beats(heap[..size], all, k, c);
      size' := RemoveRoot(heap, size');
      size' := Insert(heap, size', c);
      return;
    }
    if size' < k {
      SelectedAdd(kept, all, k, c);
      size' := Insert(heap, size', c);
    } else {
      LeastIsLeast(heap[..size]);
      SelectedSkip(kept, all, k, c);
    }
  }

  lemma Beats(s: seq<Candidate>, all: multiset<Candidate>, k: nat, c: Candidate)
    requires s != [] && |s| == k && IsHeap(s) && Selected(multiset(s), all, k) && s[0].score < c.score
    ensures Selected(multiset(s) - multiset{s[0]} + multiset{c}, all + multiset{c}, k)
  {
    LeastIsLeast(s);
    SelectedSwap(multiset(s), all, k, s[0], c);
  }

  method RemoveRoot(heap: array<Candidate>, size: nat) returns (size': nat)
    requires 0 < size <= heap.Length && IsHeap(heap[..size])
    modifies heap
    ensures size' == size - 1 && IsHeap(heap[..size'])
    ensures multiset(heap[..size']) == multiset(old(heap[..size])) - multiset{old(heap[0])}
  {
    RootReplacedHeap(heap[..size]);
    size' := size - 1;
    heap[0] := heap[size'];
    assert heap[..size'] == RootReplaced(old(heap[..size]));
    HeapifyDown(heap, size');
  }

  method Insert(heap: array<Candidate>, size: nat, c: Candidate) returns (size': nat)
    requires size < heap.Length && IsHeap(heap[..size])
    modifies heap
    ensures size' == size + 1 && IsHeap(heap[..size'])
    ensures multiset(heap[..size']) == multiset(old(heap[..size])) + multiset{c}
  {
    AppendedHeap(heap[..size], c);
    heap[size] := c;
    size' := size + 1;
    assert heap[..size'] == old(heap[..size]) + [c];
    HeapifyUp(heap, size');
  }

  // ----- strongest first

  /** The back is sorted, and nothing in it scores more than what is in front. */
  ghost predicate Split(front: multiset<Candidate>, back: seq<Candidate>) {
    Descending(back) && forall x, y :: x in front && y in back ==> y.score <= x.score
  }

  lemma RootMovesOut(s: seq<Candidate>)
    requires IsHeap(s) && s != []
    ensures HeapBelow(Swapped(s, |s| - 1, 0)[..|s| - 1], 0)
    ensures multiset(Swapped(s, |s| - 1, 0)[..|s| - 1]) == multiset(s) - multiset{s[0]}
  {
    var n := |s| - 1;
    var r := Swapped(s, n, 0);
    SwapKeepsAll(s, n, 0);
    assert r == r[..n] + [s[0]];
  }

  lemma SplitGrows(front: seq<Candidate>, back: seq<Candidate>)
    requires IsHeap(front) && front != [] && Split(multiset(front), back)
    ensures Split(multiset(front) - multiset{front[0]}, [front[0]] + back)
  {
    LeastIsLeast(front);
    assert front[0] in multiset(front);
    var b := [front[0]] + back;
    forall i, j | 0 <= i < j < |b| ensures b[j].score <= b[i].score {
      assert b[j] == back[j - 1] && b[j] in back;
      if i > 0 {
        assert b[i] == back[i - 1];
      }
    }
  }

  lemma SplitWhole(s: seq<Candidate>, front: nat)
    requires front <= 1 && front <= |s| && Split(multiset(s[..front]), s[front..])
    ensures Descending(s)
  {
    forall i, j | 0 <= i < j < |s| ensures s[j].score <= s[i].score {
      assert s[j] == s[front..][j - front] && s[j] in s[front..];
      if i < front {
        assert s[i] in s[..front];
      } else {
        assert s[i] == s[front..][i - front];
      }
    }
  }

  /** Take the weakest off the heap again and again, from the back. */
  method SortDescending(heap: array<Candidate>, n: nat)
    requires n <= heap.Length && IsHeap(heap[..n])
    modifies heap
    ensures Descending(heap[..n]) && multiset(heap[..n]) == multiset(old(heap[..n]))
  {
    hide IsHeap;
    var unsorted := n;
    while unsorted > 1
      invariant 0 <= unsorted <= n && IsHeap(heap[..unsorted]) && multiset(heap[..n]) == multiset(old(heap[..n]))
      invariant Split(multiset(heap[..unsorted]), heap[unsorted..n])
    {
      unsorted := MoveRoot(heap, unsorted, n);
    }
    assert heap[..n][..unsorted] == heap[..unsorted] && heap[..n][unsorted..] == heap[unsorted..n];
    SplitWhole(heap[..n], unsorted);
  }

  lemma Parts(s: seq<Candidate>, u: nat, n: nat)
    requires u <= n <= |s|
    ensures multiset(s[..n]) == multiset(s[..u]) + multiset(s[u..n])
  {
    assert s[..n] == s[..u] + s[u..n];
  }

  /** What the exchange leaves: s before, t after. */
  lemma Rearranged(s: seq<Candidate>, t: seq<Candidate>, u: nat, n: nat)
    requires 0 < u <= n <= |s| == |t| && t[u - 1..] == [s[0]] + s[u..]
    requires multiset(t[..u - 1]) == multiset(s[..u]) - multiset{s[0]}
    ensures t[u - 1..n] == [s[0]] + s[u..n] && multiset(t[..n]) == multiset(s[..n])
  {
    assert t[u - 1..n] == t[u - 1..][..n - u + 1];
    Parts(s, u, n);
    Parts(t, u - 1, n);
    assert s[0] == s[..u][0];
    assert multiset([s[0]] + s[u..n]) == multiset{s[0]} + multiset(s[u..n]);
  }

  lemma Slices(heap: array<Candidate>, s: seq<Candidate>, u: nat, n: nat)
    requires u <= n <= heap.Length && s == heap[..]
    ensures heap[..u] == s[..u] && heap[u..] == s[u..] && heap[u..n] == s[u..n] && heap[..n] == s[..n]
  {
  }

  /** Exchange the root with the last node of the heap and restore the heap before it. */
  method ExchangeRoot(heap: array<Candidate>, unsorted: nat, ghost s: seq<Candidate>)
    requires 0 < unsorted <= heap.Length && s == heap[..] && IsHeap(s[..unsorted])
    modifies heap
    ensures var t := heap[..];
      && t[unsorted - 1..] == [s[0]] + s[unsorted..] && IsHeap(t[..unsorted - 1])
      && multiset(t[..unsorted - 1]) == multiset(s[..unsorted]) - multiset{s[0]}
  {
    hide *;
    Slices(heap, s, unsorted, heap.Length);
    RootMovesOut(s[..unsorted]);
    Swap(heap, unsorted - 1, 0, unsorted);
    ghost var r := heap[..];
    Slices(heap, r, unsorted, heap.Length);
    Slices(heap, r, unsorted - 1, heap.Length);
    SwappedEnd(s, r, unsorted);
    HeapifyDown(heap, unsorted - 1);
    Slices(heap, heap[..], unsorted - 1, heap.Length);
  }

  lemma SwappedEnd(s: seq<Candidate>, r: seq<Candidate>, u: nat)
    requires 0 < u <= |s| == |r| && r[..u] == Swapped(s[..u], u - 1, 0) && r[u..] == s[u..]
    ensures r[u - 1..] == [s[0]] + s[u..] && r[..u - 1] == Swapped(s[..u], u - 1, 0)[..u - 1]
  {
    assert r[u - 1] == r[..u][u - 1] == s[0];
    assert r[u - 1..] == [r[u - 1]] + r[u..];
    assert r[..u - 1] == r[..u][..u - 1];
  }

  method MoveRoot(heap: array<Candidate>, unsorted: nat, n: nat) returns (unsorted': nat)
    requires 0 < unsorted <= n <= heap.Length && IsHeap(heap[..unsorted]) && Split(multiset(heap[..unsorted]), heap[unsorted..n])
    modifies heap
    ensures unsorted' == unsorted - 1 && IsHeap(heap[..unsorted']) && multiset(heap[..n]) == multiset(old(heap[..n]))
    ensures Split(multiset(heap[..unsorted']), heap[unsorted'..n])
  {
    hide *;
    ghost var s := heap[..];
    Slices(heap, s, unsorted, n);
    SplitGrows(s[..unsorted], s[unsorted..n]);
    unsorted' := unsorted - 1;
    ExchangeRoot(heap, unsorted, s);
    Slices(heap, heap[..], unsorted', n);
    Rearranged(s, heap[..], unsorted, n);
    assert s[..unsorted][0] == s[0];
  }

  // ----- the places searched

  /** The waterfall as the search sees it: its subdivisions, its bins and the protocol's score. */
  datatype Search = Search(timeOsr: nat, freqOsr: nat, numBins: nat, numTones: nat, score: (int, int, int, int) -> int)

  const FIRST_OFFSET := -10
  const OFFSETS: nat := 30

  /** Frequency offsets that leave room for all tones. */
  function Places(w: Search): nat {
    if w.numTones <= w.numBins + 1 then w.numBins + 1 - w.numTones else 0
  }

  function At(w: Search, timeSub: nat, freqSub: nat, step: nat, freqOffset: nat): Candidate {
    var timeOffset := FIRST_OFFSET + step;
    Candidate(w.score(timeSub, freqSub, timeOffset, freqOffset), timeOffset, freqOffset, timeSub, freqSub)
  }

  function Row(w: Search, timeSub: nat, freqSub: nat, step: nat, n: nat): (r: seq<Candidate>)
    ensures |r| == n
  {
    seq(n, f requires 0 <= f < n => At(w, timeSub, freqSub, step, f))
  }

  function Rows(w: Search, timeSub: nat, freqSub: nat, steps: nat): seq<Candidate> {
    if steps == 0 then [] else Rows(w, timeSub, freqSub, steps - 1) + Row(w, timeSub, freqSub, steps - 1, Places(w))
  }

  function Bands(w: Search, timeSub: nat, freqSubs: nat): seq<Candidate> {
    if freqSubs == 0 then [] else Bands(w, timeSub, freqSubs - 1) + Rows(w, timeSub, freqSubs - 1, OFFSETS)
  }

  function Grid(w: Search, timeSubs: nat): seq<Candidate> {
    if timeSubs == 0 then [] else Grid(w, timeSubs - 1) + Bands(w, timeSubs - 1, w.freqOsr)
  }

  predicate Inside(w: Search, c: Candidate) {
    && 0 <= c.timeSub < w.timeOsr && 0 <= c.freqSub < w.freqOsr && -10 <= c.timeOffset < 20
    && 0 <= c.freqOffset && c.freqOffset + w.numTones <= w.numBins && c.score == w.score(c.timeSub, c.freqSub, c.timeOffset, c.freqOffset)
  }

  lemma {:induction false} InRows(w: Search, timeSub: nat, freqSub: nat, steps: nat, c: Candidate)
    ensures c in Rows(w, timeSub, freqSub, steps) <==>
      (c.timeSub == timeSub && c.freqSub == freqSub && FIRST_OFFSET <= c.timeOffset < FIRST_OFFSET + steps
       && 0 <= c.freqOffset < Places(w) && c.score == w.score(timeSub, freqSub, c.timeOffset, c.freqOffset))
  {
    if steps == 0 {
    } else {
      InRows(w, timeSub, freqSub, steps - 1, c);
      var row := Row(w, timeSub, freqSub, steps - 1, Places(w));
      if 0 <= c.freqOffset < Places(w) {
        assert row[c.freqOffset] == At(w, timeSub, freqSub, steps - 1, c.freqOffset);
      }
    }
  }

  lemma {:induction false} InBands(w: Search, timeSub: nat, freqSubs: nat, c: Candidate)
    ensures c in Bands(w, timeSub, freqSubs) <==>
      (c.timeSub == timeSub && 0 <= c.freqSub < freqSubs && FIRST_OFFSET <= c.timeOffset < FIRST_OFFSET + OFFSETS
       && 0 <= c.freqOffset < Places(w) && c.score == w.score(timeSub, c.freqSub, c.timeOffset, c.freqOffset))
  {
    if freqSubs == 0 {
    } else {
      InBands(w, timeSub, freqSubs - 1, c);
      InRows(w, timeSub, freqSubs - 1, OFFSETS, c);
    }
  }

  /** The grid is every place of the waterfall, with its score. */
  lemma {:induction false} InGrid(w: Search, timeSubs: nat, c: Candidate)
    requires timeSubs <= w.timeOsr
    ensures c in Grid(w, timeSubs) <==> Inside(w, c) && c.timeSub < timeSubs
  {
    if timeSubs == 0 {
    } else {
      InGrid(w, timeSubs - 1, c);
      InBands(w, timeSubs - 1, w.freqOsr, c);
    }
  }

  predicate Once(s: seq<Candidate>) {
    forall i, j :: 0 <= i < j < |s| ==> s[i] != s[j]
  }

  lemma OnceJoined(a: seq<Candidate>, b: seq<Candidate>)
    requires Once(a) && Once(b) && forall c :: c in a ==> c !in b
    ensures Once(a + b)
  {
    var s := a + b;
    forall i, j | 0 <= i < j < |s|
      ensures s[i] != s[j]
    {
      if i < |a| <= j {
        assert s[i] in a && s[j] == b[j - |a|] && s[j] in b;
      }
    }
  }

  lemma {:induction false} RowsOnce(w: Search, timeSub: nat, freqSub: nat, steps: nat)
    ensures Once(Rows(w, timeSub, freqSub, steps))
  {
    if steps == 0 {
    } else {
      RowsOnce(w, timeSub, freqSub, steps - 1);
      var rows, row := Rows(w, timeSub, freqSub, steps - 1), Row(w, timeSub, freqSub, steps - 1, Places(w));
      forall c | c in rows
        ensures c !in row
      {
        InRows(w, timeSub, freqSub, steps - 1, c);
      }
      OnceJoined(rows, row);
    }
  }

  lemma {:induction false} BandsOnce(w: Search, timeSub: nat, freqSubs: nat)
    ensures Once(Bands(w, timeSub, freqSubs))
  {
    if freqSubs == 0 {
    } else {
      BandsOnce(w, timeSub, freqSubs - 1);
      RowsOnce(w, timeSub, freqSubs - 1, OFFSETS);
      var bands, rows := Bands(w, timeSub, freqSubs - 1), Rows(w, timeSub, freqSubs - 1, OFFSETS);
      forall c | c in bands
        ensures c !in rows
      {
        InBands(w, timeSub, freqSubs - 1, c);
        InRows(w, timeSub, freqSubs - 1, OFFSETS, c);
      }
      OnceJoined(bands, rows);
    }
  }

  /** The search meets each place once. */
  lemma {:induction false} GridOnce(w: Search, timeSubs: nat)
    requires timeSubs <= w.timeOsr
    ensures Once(Grid(w, timeSubs))
  {
    if timeSubs == 0 {
    } else {
      GridOnce(w, timeSubs - 1);
      BandsOnce(w, timeSubs - 1, w.freqOsr);
      var grid, bands := Grid(w, timeSubs - 1), Bands(w, timeSubs - 1, w.freqOsr);
      forall c | c in grid
        ensures c !in bands
      {
        InGrid(w, timeSubs - 1, c);
        InBands(w, timeSubs - 1, w.freqOsr, c);
      }
      OnceJoined(grid, bands);
    }
  }

  /** The candidates that reach the minimum score. */
  ghost function Qualifying(cells: seq<Candidate>, minScore: int): multiset<Candidate> {
    if cells == [] then multiset{}
    else
      var n := |cells| - 1;
      Qualifying(cells[..n], minScore) + if cells[n].score < minScore then multiset{} else multiset{cells[n]}
  }

  lemma {:induction false} QualifyingIn(cells: seq<Candidate>, minScore: int, c: Candidate)
    ensures c in Qualifying(cells, minScore) <==> c in cells && c.score >= minScore
  {
    if cells == [] {
    } else {
      var n := |cells| - 1;
      QualifyingIn(cells[..n], minScore, c);
      assert cells == cells[..n] + [cells[n]];
    }
  }

  lemma QualifyingSnoc(cells: seq<Candidate>, minScore: int, c: Candidate)
    ensures Qualifying(cells + [c], minScore)
      == Qualifying(cells, minScore) + if c.score < minScore then multiset{} else multiset{c}
  {
    assert (cells + [c])[..|cells|] == cells;
  }

  /** The state of the search after the candidates seen. */
  ghost predicate Best(heap: array<Candidate>, size: nat, k: nat, seen: seq<Candidate>, minScore: int)
    reads heap
  {
    1 <= k <= heap.Length && size <= k && IsHeap(heap[..size]) && Selected(multiset(heap[..size]), Qualifying(seen, minScore), k)
  }

  /** The innermost loop: one row of places. */
  method SearchRow(w: Search, heap: array<Candidate>, size: nat, k: nat, minScore: int, timeSub: nat, freqSub: nat, step: nat,
                   ghost seen: seq<Candidate>)
    returns (size': nat)
    requires Best(heap, size, k, seen, minScore)
    modifies heap
    ensures Best(heap, size', k, seen + Row(w, timeSub, freqSub, step, Places(w)), minScore)
  {
    hide Selected, IsHeap, Qualifying, At;
    size' := size;
    assert seen + Row(w, timeSub, freqSub, step, 0) == seen;
    var freqOffset := 0;
    while freqOffset + w.numTones - 1 < w.numBins
      invariant 0 <= freqOffset <= Places(w) && Best(heap, size', k, seen + Row(w, timeSub, freqSub, step, freqOffset), minScore)
      decreases Places(w) - freqOffset
    {
      var candidate := At(w, timeSub, freqSub, step, freqOffset);
      ghost var cells := seen + Row(w, timeSub, freqSub, step, freqOffset);
      assert seen + Row(w, timeSub, freqSub, step, freqOffset + 1) == cells + [candidate];
      QualifyingSnoc(cells, minScore, candidate);
      assert Qualifying(cells, minScore) + multiset{} == Qualifying(cells, minScore);
      if candidate.score >= minScore {
        size' := Offer(heap, size', k, candidate, Qualifying(cells, minScore));
      }
      freqOffset := freqOffset + 1;
    }
  }

  /** The loop over time offsets. */
  method SearchRows(w: Search, heap: array<Candidate>, size: nat, k: nat, minScore: int, timeSub: nat, freqSub: nat,
                    ghost seen: seq<Candidate>)
    returns (size': nat)
    requires Best(heap, size, k, seen, minScore)
    modifies heap
    ensures Best(heap, size', k, seen + Rows(w, timeSub, freqSub, OFFSETS), minScore)
  {
    hide Best, Row;
    size' := size;
    assert seen + Rows(w, timeSub, freqSub, 0) == seen;
    for step := 0 to OFFSETS
      invariant Best(heap, size', k, seen + Rows(w, timeSub, freqSub, step), minScore)
    {
      ghost var rows, row := Rows(w, timeSub, freqSub, step), Row(w, timeSub, freqSub, step, Places(w));
      size' := SearchRow(w, heap, size', k, minScore, timeSub, freqSub, step, seen + rows);
      Regroup(seen, rows, row);
    }
  }

  /** The loop over frequency subdivisions. */
  method SearchBands(w: Search, heap: array<Candidate>, size: nat, k: nat, minScore: int, timeSub: nat, ghost seen: seq<Candidate>)
    returns (size': nat)
    requires Best(heap, size, k, seen, minScore)
    modifies heap
    ensures Best(heap, size', k, seen + Bands(w, timeSub, w.freqOsr), minScore)
  {
    hide Best, Rows;
    size' := size;
    assert seen + Bands(w, timeSub, 0) == seen;
    for freqSub := 0 to w.freqOsr
      invariant Best(heap, size', k, seen + Bands(w, timeSub, freqSub), minScore)
    {
      ghost var bands, rows := Bands(w, timeSub, freqSub), Rows(w, timeSub, freqSub, OFFSETS);
      size' := SearchRows(w, heap, size', k, minScore, timeSub, freqSub, seen + bands);
      Regroup(seen, bands, rows);
    }
  }

  lemma Regroup(a: seq<Candidate>, b: seq<Candidate>, c: seq<Candidate>)
    ensures a + (b + c) == a + b + c
  {
  }

  /** `ftx_find_candidates`: the k best qualifying places, or all of them, best first. */
  method FindBest(w: Search, k: nat, heap: array<Candidate>, minScore: int) returns (size: nat)
    requires 1 <= k <= heap.Length
    modifies heap
    ensures size <= k && Descending(heap[..size])
    ensures Selected(multiset(heap[..size]), Qualifying(Grid(w, w.timeOsr), minScore), k)
  {
    size := 0;
    EmptySelected(k);
    EmptyQualifying(minScore);
    assert heap[..0] == [];
    assert Best(heap, 0, k, Grid(w, 0), minScore);
    hide Selected, Qualifying, Bands, Best;
    for timeSub := 0 to w.timeOsr
      invariant Best(heap, size, k, Grid(w, timeSub), minScore)
    {
      size := SearchBands(w, heap, size, k, minScore, timeSub, Grid(w, timeSub));
    }
    BestParts(heap, size, k, Grid(w, w.timeOsr), minScore);
    SortDescending(heap, size);
  }

  lemma BestParts(heap: array<Candidate>, size: nat, k: nat, seen: seq<Candidate>, minScore: int)
    requires Best(heap, size, k, seen, minScore)
    ensures size <= k <= heap.Length && IsHeap(heap[..size]) && Selected(multiset(heap[..size]), Qualifying(seen, minScore), k)
  {
  }

  lemma EmptySelected(k: nat)
    ensures Selected(multiset{}, multiset{}, k)
  {
  }

  lemma EmptyQualifying(minScore: int)
    ensures Qualifying([], minScore) == multiset{}
  {
  }

  lemma {:induction false} QualifyingAtMost(cells: seq<Candidate>, minScore: int)
    ensures Qualifying(cells, minScore) <= multiset(cells)
  {
    if cells == [] {
    } else {
      var n := |cells| - 1;
      QualifyingAtMost(cells[..n], minScore);
      assert cells == cells[..n] + [cells[n]];
    }
  }

  lemma AtMostOnce(s: seq<Candidate>, c: Candidate)
    requires Once(s)
    ensures multiset(s)[c] <= 1
  {
    if c in s {
      var k :| 0 <= k < |s| && s[k] == c;
      assert s == s[..k] + [s[k]] + s[k + 1..];
      assert c !in s[..k] && c !in s[k + 1..];
    }
  }

  lemma TwiceThere(s: seq<Candidate>, i: nat, j: nat)
    requires i < j < |s| && s[i] == s[j]
    ensures multiset(s)[s[i]] >= 2
  {
    assert s == s[..j] + [s[j]] + s[j + 1..] && s[i] in s[..j];
  }

  lemma OnceCounts(s: seq<Candidate>, t: seq<Candidate>)
    requires multiset(t) <= multiset(s) && Once(s)
    ensures Once(t)
  {
    forall i, j | 0 <= i < j < |t|
      ensures t[i] != t[j]
    {
      AtMostOnce(s, t[i]);
      if t[i] == t[j] {
        TwiceThere(t, i, j);
      }
    }
  }

  /** No place is kept twice. */
  lemma KeptOnce(w: Search, k: nat, minScore: int, kept: seq<Candidate>)
    requires Selected(multiset(kept), Qualifying(Grid(w, w.timeOsr), minScore), k)
    ensures Once(kept)
  {
    var grid := Grid(w, w.timeOsr);
    QualifyingAtMost(grid, minScore);
    GridOnce(w, w.timeOsr);
    OnceCounts(grid, kept);
  }

  /** What that means for a caller: everything kept qualifies, the places kept are in the
      waterfall, and a qualifying place left out scores no more than any kept. */
  lemma KeptAreBest(w: Search, k: nat, minScore: int, kept: seq<Candidate>, c: Candidate)
    requires Selected(multiset(kept), Qualifying(Grid(w, w.timeOsr), minScore), k)
    ensures c in kept ==> Inside(w, c) && c.score >= minScore
    ensures Inside(w, c) && c.score >= minScore && c !in kept ==> |kept| == k && forall y :: y in kept ==> c.score <= y.score
  {
    var all := Qualifying(Grid(w, w.timeOsr), minScore);
    InGrid(w, w.timeOsr, c);
    QualifyingIn(Grid(w, w.timeOsr), minScore, c);
    if c in all && c !in kept {
      assert c in all - multiset(kept);
      assert |all| == |multiset(kept)| + |all - multiset(kept)|;
    }
    if c in kept {
      assert c in multiset(kept);
    }
  }
}
