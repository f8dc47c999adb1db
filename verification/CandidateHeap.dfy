/** The fixed-size min-heap that keeps the strongest sync candidates. */
module CandidateHeap {

  datatype Candidate = Candidate(score: int, timeOffset: int, freqOffset: int, timeSub: int, freqSub: int)

  function Parent(i: int): int
    requires i > 0
  {
    (i - 1) / 2
  }

  /** Every parent scores no more than its child, but for the children of `hole`. */
  predicate HeapBelow(s: seq<Candidate>, hole: int) {
    && (forall i :: 0 < i < |s| && Parent(i) != hole ==> s[Parent(i)].score <= s[i].score)
    && (hole > 0 ==> forall i :: 0 < i < |s| && Parent(i) == hole ==> s[Parent(hole)].score <= s[i].score)
  }

  /** Every parent scores no more than its child, but for `hole` as a child. */
  predicate HeapAbove(s: seq<Candidate>, hole: int) {
    && (forall i :: 0 < i < |s| && i != hole ==> s[Parent(i)].score <= s[i].score)
    && (hole > 0 ==> forall i :: 0 < i < |s| && Parent(i) == hole ==> s[Parent(hole)].score <= s[i].score)
  }

  predicate IsHeap(s: seq<Candidate>) {
    forall i :: 0 < i < |s| ==> s[Parent(i)].score <= s[i].score
  }

  /** The root of a heap scores least. */
  lemma {:induction false} RootIsLeast(s: seq<Candidate>, i: nat)
    requires IsHeap(s) && i < |s|
    ensures s[0].score <= s[i].score
  {
    if i == 0 {
    } else {
      RootIsLeast(s, Parent(i));
    }
  }

  function Swapped(s: seq<Candidate>, i: nat, j: nat): (r: seq<Candidate>)
    requires i < |s| && j < |s|
    ensures |r| == |s| && r[i] == s[j] && r[j] == s[i]
    ensures forall k :: 0 <= k < |s| && k != i && k != j ==> r[k] == s[k]
  {
    s[i := s[j]][j := s[i]]
  }

  lemma SwapKeepsAll(s: seq<Candidate>, i: nat, j: nat)
    requires i < |s| && j < |s|
    ensures multiset(Swapped(s, i, j)) == multiset(s)
  {
  }

  /** Moving the hole down past its smaller child keeps the order elsewhere. */
  lemma DownStep(s: seq<Candidate>, hole: nat, child: nat)
    requires HeapBelow(s, hole) && hole < child < |s| && Parent(child) == hole && s[child].score < s[hole].score
    requires forall i :: 0 < i < |s| && Parent(i) == hole ==> s[child].score <= s[i].score
    ensures HeapBelow(Swapped(s, hole, child), child)
  {
    var r := Swapped(s, hole, child);
    forall i | 0 < i < |r| && Parent(i) != child ensures r[Parent(i)].score <= r[i].score {
      if i == child || Parent(i) == hole {
      } else if i == hole {
        assert s[Parent(hole)].score <= s[child].score;
      }
    }
  }

  lemma UpStep(s: seq<Candidate>, hole: nat)
    requires HeapAbove(s, hole) && 0 < hole < |s| && s[hole].score < s[Parent(hole)].score
    ensures HeapAbove(Swapped(s, hole, Parent(hole)), Parent(hole))
  {
    var p := Parent(hole);
    var r := Swapped(s, hole, p);
    forall i | 0 < i < |r| && i != p ensures r[Parent(i)].score <= r[i].score {
      if i == hole || Parent(i) == p {
      } else if Parent(i) == hole {
        assert s[p].score <= s[i].score;
      }
    }
    if p > 0 {
      forall i | 0 < i < |r| && Parent(i) == p ensures r[Parent(p)].score <= r[i].score {
        assert s[Parent(p)].score <= s[p].score;
        assert i != hole ==> s[p].score <= s[i].score;
      }
    }
  }

  method Swap(heap: array<Candidate>, i: nat, j: nat, n: nat)
    requires i < n <= heap.Length && j < n
    modifies heap
    ensures heap[..n] == Swapped(old(heap[..n]), i, j) && heap[n..] == old(heap[n..])
    ensures multiset(heap[..n]) == multiset(old(heap[..n]))
  {
    SwapKeepsAll(heap[..n], i, j);
    heap[i], heap[j] := heap[j], heap[i];
    assert heap[..n] == Swapped(old(heap[..n]), i, j);
  }

  /** With no child scoring less than the hole, the heap is whole. */
  lemma DownDone(s: seq<Candidate>, hole: nat)
    requires HeapBelow(s, hole) && (hole < |s| ==> NoSmallerChild(s, hole, hole))
    ensures IsHeap(s)
  {
  }

  /** The node `least` is the hole or a child of it, and no child scores less. */
  predicate NoSmallerChild(s: seq<Candidate>, hole: nat, least: nat)
    requires least < |s| && hole < |s|
  {
    && (least == hole || (least > hole && Parent(least) == hole && s[least].score < s[hole].score))
    && forall i :: 0 < i < |s| && Parent(i) == hole ==> s[least].score <= s[i].score
  }

  /** The smallest of a node and its children. */
  method SmallestChild(heap: array<Candidate>, current: nat, n: nat) returns (smallest: nat)
    requires current < n <= heap.Length
    ensures smallest < n && NoSmallerChild(heap[..n], current, smallest)
  {
    var left := 2 * current + 1;
    var right := left + 1;
    smallest := current;
    if left < n && heap[left].score < heap[smallest].score {
      smallest := left;
    }
    if right < n && heap[right].score < heap[smallest].score {
      smallest := right;
    }
    assert forall i :: 0 < i < n && Parent(i) == current ==> i == left || i == right;
  }

  /** `heapify_down`; an empty heap has no node to move. */
  method HeapifyDown(heap: array<Candidate>, n: nat)
    requires n <= heap.Length && HeapBelow(heap[..n], 0)
    modifies heap
    ensures IsHeap(heap[..n]) && multiset(heap[..n]) == multiset(old(heap[..n])) && heap[n..] == old(heap[n..])
  {
    var current := 0;
    if n == 0 {
      return;
    }
    while true
      invariant HeapBelow(heap[..n], current) && 0 <= current < n
      invariant multiset(heap[..n]) == multiset(old(heap[..n])) && heap[n..] == old(heap[n..])
      decreases n - current
    {
      ghost var s := heap[..n];
      var smallest := SmallestChild(heap, current, n);
      if smallest == current {
        DownDone(s, current);
        break;
      }
      DownStep(s, current, smallest);
      hide HeapBelow, IsHeap;
      Swap(heap, current, smallest, n);
      current := smallest;
    }
  }

  /** `heapify_up`. */
  method HeapifyUp(heap: array<Candidate>, n: nat)
    requires 0 < n <= heap.Length && HeapAbove(heap[..n], n - 1)
    modifies heap
    ensures IsHeap(heap[..n]) && multiset(heap[..n]) == multiset(old(heap[..n])) && heap[n..] == old(heap[n..])
  {
    var current := n - 1;
    while current > 0
      invariant 0 <= current < n && HeapAbove(heap[..n], current)
      invariant multiset(heap[..n]) == multiset(old(heap[..n])) && heap[n..] == old(heap[n..])
    {
      var parent := (current - 1) / 2;
      if !(heap[current].score < heap[parent].score) {
        break;
      }
      UpStep(heap[..n], current);
      Swap(heap, current, parent, n);
      current := parent;
    }
  }
}
