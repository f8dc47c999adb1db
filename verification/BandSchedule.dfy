/** The adaptive band schedule: a ranked rotation with every sixth hop kept for exploration. */
module BandSchedule {
  import opened Options

  datatype Band = Band(name: string, frequency: nat, databaseBand: int)

  predicate Contains(plan: seq<Band>, databaseBand: int) {
    exists i :: 0 <= i < |plan| && plan[i].databaseBand == databaseBand
  }

  /** The candidates whose band is not ranked, in order. */
  function Excluded(ranked: seq<Band>, candidates: seq<Band>): seq<Band> {
    if candidates == [] then []
    else
      var n := |candidates| - 1;
      Excluded(ranked, candidates[..n])
      + if Contains(ranked, candidates[n].databaseBand) then [] else [candidates[n]]
  }

  lemma {:induction false} ExcludedAre(ranked: seq<Band>, candidates: seq<Band>, b: Band)
    ensures b in Excluded(ranked, candidates) <==> b in candidates && !Contains(ranked, b.databaseBand)
  {
    if candidates == [] {
    } else {
      var n := |candidates| - 1;
      ExcludedAre(ranked, candidates[..n], b);
      assert candidates == candidates[..n] + [candidates[n]];
    }
  }

  lemma {:induction false} ExcludedPrefix(ranked: seq<Band>, candidates: seq<Band>, n: nat)
    requires n <= |candidates|
    ensures Excluded(ranked, candidates[..n]) <= Excluded(ranked, candidates)
    decreases |candidates| - n
  {
    if n == |candidates| {
      assert candidates[..n] == candidates;
    } else {
      ExcludedPrefix(ranked, candidates, n + 1);
      assert candidates[..n + 1][..n] == candidates[..n];
    }
  }

  predicate Exploring(slot: nat, excluded: nat) {
    slot % 6 == 5 && excluded != 0
  }

  /** Place in the ranked rotation. */
  function RankedPlace(slot: nat, excluded: nat): (p: nat) {
    if excluded == 0 then slot else slot - slot / 6
  }

  /** The band of a slot. */
  function Scheduled(ranked: seq<Band>, candidates: seq<Band>, slot: nat): Band
    requires ranked != []
  {
    var excluded := Excluded(ranked, candidates);
    if Exploring(slot, |excluded|) then excluded[slot / 6 % |excluded|]
    else ranked[RankedPlace(slot, |excluded|) % |ranked|]
  }

  /** `plan_contains_database_band`. */
  method PlanContains(plan: seq<Band>, databaseBand: int) returns (found: bool)
    ensures found == Contains(plan, databaseBand)
  {
    for index := 0 to |plan|
      invariant forall i :: 0 <= i < index ==> plan[i].databaseBand != databaseBand
    {
      if plan[index].databaseBand == databaseBand {
        return true;
      }
    }
    found := false;
  }

  /** `wspr_adaptive_hop_band_at_dwell`. */
  method AdaptiveBandAt(ranked: seq<Band>, candidates: seq<Band>, utc: int, dwell: nat)
    returns (band: Option<Band>, exploration: bool)
    ensures band.None? <==> ranked == [] || candidates == [] || utc < 0 || dwell == 0
    ensures band.Some? ==> band.value == Scheduled(ranked, candidates, utc / dwell)
    ensures exploration == (band.Some? && Exploring(utc / dwell, |Excluded(ranked, candidates)|))
  {
    hide Contains;
    if ranked == [] || candidates == [] || utc < 0 || dwell == 0 {
      return None, false;
    }
    var slot := utc / dwell;
    ghost var excluded := Excluded(ranked, candidates);
    var excludedCount := 0;
    assert candidates[..|candidates|] == candidates;
    for index := 0 to |candidates|
      invariant excludedCount == |Excluded(ranked, candidates[..index])|
    {
      assert candidates[..index + 1][..index] == candidates[..index];
      var known := PlanContains(ranked, candidates[index].databaseBand);
      if !known {
        excludedCount := excludedCount + 1;
      }
    }
    if slot % 6 == 5 && excludedCount != 0 {
      var wanted := slot / 6 % excludedCount;
      ghost var goal := wanted;
      for index := 0 to |candidates|
        invariant goal == |Excluded(ranked, candidates[..index])| + wanted && wanted >= 0
      {
        assert candidates[..index + 1][..index] == candidates[..index];
        ExcludedPrefix(ranked, candidates, index + 1);
        var known := PlanContains(ranked, candidates[index].databaseBand);
        if !known {
          if wanted == 0 {
            return Some(candidates[index]), true;
          }
          wanted := wanted - 1;
        }
      }
    }
    var rankedSlot := if excludedCount == 0 then slot else slot - slot / 6;
    return Some(ranked[rankedSlot % |ranked|]), false;
  }

  // ----- the rotation has no gaps

  /** Ranked slots before a slot. */
  function RankedBefore(slot: nat, excluded: nat): nat {
    if slot == 0 then 0
    else RankedBefore(slot - 1, excluded) + if Exploring(slot - 1, excluded) then 0 else 1
  }

  /** A ranked slot's place is the number of ranked slots before it: exploration never skips or
      repeats a ranked band. */
  lemma {:induction false} RotationIsContinuous(slot: nat, excluded: nat)
    ensures RankedPlace(slot, excluded) == RankedBefore(slot, excluded)
  {
    if slot == 0 {
    } else {
      RotationIsContinuous(slot - 1, excluded);
      var q, r := (slot - 1) / 6, (slot - 1) % 6;
      assert slot == 6 * q + r + 1;
      assert slot / 6 == if r == 5 then q + 1 else q;
    }
  }

  /** Exploration slots before a slot. */
  function ExploredBefore(slot: nat, excluded: nat): nat {
    if slot == 0 then 0
    else ExploredBefore(slot - 1, excluded) + if Exploring(slot - 1, excluded) then 1 else 0
  }

  lemma {:induction false} ExploredIs(slot: nat, excluded: nat)
    requires excluded > 0
    ensures ExploredBefore(slot, excluded) == slot / 6
  {
    if slot == 0 {
    } else {
      ExploredIs(slot - 1, excluded);
      var q, r := (slot - 1) / 6, (slot - 1) % 6;
      assert slot == 6 * q + r + 1;
      assert slot / 6 == if r == 5 then q + 1 else q;
    }
  }

  /** Ranked slots go through the ranking in order, round and round, and exploration slots through
      the bands left out of it. */
  lemma SlotsInOrder(ranked: seq<Band>, candidates: seq<Band>, slot: nat)
    requires ranked != []
    ensures var excluded := Excluded(ranked, candidates);
      var explores := excluded != [] && slot % 6 == 5;
      Scheduled(ranked, candidates, slot)
      == if explores then excluded[ExploredBefore(slot, |excluded|) % |excluded|]
         else ranked[RankedBefore(slot, |excluded|) % |ranked|]
  {
    hide Excluded, ExploredBefore, RankedBefore;
    var n := |Excluded(ranked, candidates)|;
    RotationIsContinuous(slot, n);
    if n > 0 {
      ExploredIs(slot, n);
    }
  }

  lemma Residue(start: nat, n: nat, j: nat) returns (k: nat)
    requires j < n
    ensures start <= k < start + n && k % n == j
  {
    var r := start % n;
    k := if j >= r then start - r + j else start - r + n + j;
    assert start == start / n * n + r;
    if j >= r {
      Multiple(start / n, j, n);
    } else {
      assert (start / n + 1) * n == start / n * n + n;
      Multiple(start / n + 1, j, n);
    }
  }

  lemma Multiple(q: nat, r: nat, n: nat)
    requires r < n
    ensures (q * n + r) % n == r
  {
    if q > 0 {
      Multiple(q - 1, r, n);
      assert q * n + r == (q - 1) * n + r + n;
      Wraps((q - 1) * n + r, n);
    }
  }

  lemma Wraps(m: nat, n: nat)
    requires n > 0
    ensures (m + n) % n == m % n
  {
    var q := (m + n) / n - m / n;
    assert (m + n) % n - m % n == n - q * n by {
      assert m + n == (m + n) / n * n + (m + n) % n && m == m / n * n + m % n;
      assert q * n == (m + n) / n * n - m / n * n;
    }
    assert n - q * n == (1 - q) * n;
    if q != 1 {
      Apart(1 - q, n);
    }
  }

  lemma Apart(d: int, n: nat)
    requires d != 0 && n > 0
    ensures d * n >= n || d * n <= -(n as int)
  {
  }

  /** Every band left out of the ranking is explored within any 6 * n slots, n of them being
      left out. */
  lemma EveryExcludedIsExplored(ranked: seq<Band>, candidates: seq<Band>, start: nat, j: nat) returns (slot: nat)
    requires ranked != [] && j < |Excluded(ranked, candidates)|
    ensures start <= slot < start + 6 * |Excluded(ranked, candidates)| && slot % 6 == 5
    ensures Scheduled(ranked, candidates, slot) == Excluded(ranked, candidates)[j]
  {
    var n := |Excluded(ranked, candidates)|;
    var first := start / 6;
    var k := Residue(first, n, j);
    slot := 6 * k + 5;
    assert start == 6 * first + start % 6;
    assert slot / 6 == k;
  }

  /** The slot of a place in the rotation. */
  lemma SlotOfPlace(p: nat, excluded: nat) returns (slot: nat)
    ensures RankedPlace(slot, excluded) == p && !Exploring(slot, excluded)
    ensures slot == if excluded == 0 then p else p + p / 5
  {
    slot := if excluded == 0 then p else p + p / 5;
    var q, r := p / 5, p % 5;
    assert p == 5 * q + r;
    if excluded != 0 {
      assert slot == 6 * q + r;
      assert slot / 6 == q && slot % 6 == r;
    }
  }

  /** Every ranked band is used within any n + n / 5 + 2 slots, n of them being ranked. */
  lemma EveryRankedIsUsed(ranked: seq<Band>, candidates: seq<Band>, start: nat, j: nat) returns (slot: nat)
    requires j < |ranked|
    ensures start <= slot < start + |ranked| + |ranked| / 5 + 2
    ensures !Exploring(slot, |Excluded(ranked, candidates)|) && Scheduled(ranked, candidates, slot) == ranked[j]
  {
    var n, excluded := |ranked|, |Excluded(ranked, candidates)|;
    var first := RankedPlace(start, excluded);
    var k := Residue(first, n, j);
    slot := SlotOfPlace(k, excluded);
    if excluded != 0 {
      var q, r := start / 6, start % 6;
      assert start == 6 * q + r && first == 5 * q + r;
    }
  }
}
