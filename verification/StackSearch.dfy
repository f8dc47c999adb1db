/** The stack-bucket search as a bag of open paths: the newest path of the best bucket is extended
    by its daughters, and the newest of the worst makes room when there is none. */
module StackSearch {
  import opened Bits
  import opened BucketChains
  import opened ConvolutionalCode
  import opened MessageBits

  const NTAIL := 31

  /** A received block with its metric table, the number of message bits and of array slots. */
  datatype Block = Block(mettab: MetricTable, symbols: seq<Byte>, nbits: nat, slots: nat)

  predicate ValidBlock(b: Block) {
    b.nbits >= NTAIL && 2 * b.nbits <= |b.symbols| && b.slots >= 2
  }

  /** `(totmet >> 5) + 200`; the shift of a negative metric rounds down. */
  function Bucket(gamma: int): int {
    gamma / 32 + 200
  }

  /** Bucket 200 starts at metric zero, and a bucket holds 32 metrics. */
  lemma BucketIs(gamma: int)
    ensures 32 * (Bucket(gamma) - 200) <= gamma < 32 * (Bucket(gamma) - 199)
  {
  }

  /** A path of the code tree: only its first nbits - 31 bits may be ones. */
  ghost predicate IsPath(nbits: nat, path: seq<bool>) {
    && |path| <= nbits
    && forall j :: 0 <= j < |path| && j >= nbits - NTAIL ==> !path[j]
  }

  ghost function PathMetric(mettab: MetricTable, symbols: seq<Byte>, path: seq<bool>): int
    requires 2 * |path| <= |symbols|
  {
    Correlation(mettab, ChannelBits(path), symbols)
  }

  /** The bucket of a path's metric. */
  ghost function PathBucket(mettab: MetricTable, symbols: seq<Byte>, path: seq<bool>): int
  {
    if 2 * |path| <= |symbols| then Bucket(PathMetric(mettab, symbols, path)) else 0
  }

  ghost predicate InBuckets(mettab: MetricTable, symbols: seq<Byte>, path: seq<bool>) {
    0 <= PathBucket(mettab, symbols, path) < BUCKETS
  }

  /** Both daughters of a node, or the one it has in the tail, fall into a bucket. */
  ghost predicate DaughtersFit(mettab: MetricTable, symbols: seq<Byte>, nbits: nat, path: seq<bool>) {
    InBuckets(mettab, symbols, path + [false]) && (|path| + 1 <= nbits - NTAIL ==> InBuckets(mettab, symbols, path + [true]))
  }

  ghost function At(b: Block, path: seq<bool>): int {
    PathBucket(b.mettab, b.symbols, path)
  }

  ghost predicate Fits(b: Block, path: seq<bool>) {
    DaughtersFit(b.mettab, b.symbols, b.nbits, path)
  }

  // ----- the open paths, row by row

  /** The open paths of each bucket, oldest first. */
  type Rows = seq<seq<seq<bool>>>

  ghost predicate Open(rows: Rows, path: seq<bool>) {
    exists c :: 0 <= c < |rows| && path in rows[c]
  }

  ghost predicate SomeOpen(rows: Rows) {
    exists c :: 0 <= c < |rows| && rows[c] != []
  }

  ghost function Push(rows: Rows, c: int, path: seq<bool>): (after: Rows)
    requires 0 <= c < |rows|
    ensures |after| == |rows|
  {
    rows[c := rows[c] + [path]]
  }

  ghost function Newest(rows: Rows, c: nat): (path: seq<bool>)
    requires c < |rows| && rows[c] != []
  {
    rows[c][|rows[c]| - 1]
  }

  ghost function Drop(rows: Rows, c: nat): (after: Rows)
    requires c < |rows| && rows[c] != []
    ensures |after| == |rows|
  {
    rows[c := rows[c][..|rows[c]| - 1]]
  }

  ghost function Best(rows: Rows): (c: nat)
    requires SomeOpen(rows)
    ensures c < |rows| && rows[c] != [] && forall d :: c < d < |rows| ==> rows[d] == []
  {
    var n := |rows| - 1;
    if rows[n] != [] then n else
    assert SomeOpen(rows[..n]) by {
      var c :| 0 <= c < |rows| && rows[c] != [];
      assert rows[..n][c] == rows[c];
    }
    Best(rows[..n])
  }

  ghost function Worst(rows: Rows): (c: nat)
    requires SomeOpen(rows)
    ensures c < |rows| && rows[c] != [] && forall d :: 0 <= d < c ==> rows[d] == []
  {
    if rows[0] != [] then 0 else
    assert SomeOpen(rows[1..]) by {
      var c :| 0 <= c < |rows| && rows[c] != [];
      assert rows[1..][c - 1] == rows[c];
    }
    Worst(rows[1..]) + 1
  }

  lemma BestIs(rows: Rows, c: nat)
    requires c < |rows| && rows[c] != [] && forall d :: c < d < |rows| ==> rows[d] == []
    ensures SomeOpen(rows) && Best(rows) == c
  {
  }

  lemma WorstIs(rows: Rows, c: nat)
    requires c < |rows| && rows[c] != [] && forall d :: 0 <= d < c ==> rows[d] == []
    ensures SomeOpen(rows) && Worst(rows) == c
  {
  }

  lemma PushOpen(rows: Rows, c: int, path: seq<bool>, p: seq<bool>)
    requires 0 <= c < |rows|
    ensures SomeOpen(Push(rows, c, path)) && (Open(Push(rows, c, path), p) <==> Open(rows, p) || p == path)
  {
    var after := Push(rows, c, path);
    assert after[c] == rows[c] + [path];
    if Open(rows, p) {
      var d :| 0 <= d < |rows| && p in rows[d];
      assert p in after[d];
    }
    if p == path {
      assert p in after[c];
    }
  }

  lemma DropOpen(rows: Rows, c: nat, p: seq<bool>)
    requires c < |rows| && rows[c] != []
    ensures Open(rows, p) <==> Open(Drop(rows, c), p) || p == Newest(rows, c)
  {
    var after, newest := Drop(rows, c), Newest(rows, c);
    assert rows[c] == after[c] + [newest];
    if Open(rows, p) {
      var d :| 0 <= d < |rows| && p in rows[d];
      assert p in after[d] || p == newest;
    }
    if Open(after, p) {
      var d :| 0 <= d < |after| && p in after[d];
      assert p in rows[d];
    }
    if p == newest {
      assert p in rows[c];
    }
  }

  // ----- the search

  /** The open paths, the slots in use, the paths given up for want of room, the path in hand, and
      whether the search has gone astray: a node of it had no bucket. */
  datatype Queue = Queue(rows: Rows, used: nat, lost: seq<seq<bool>>, hand: seq<bool>, stray: bool)

  ghost predicate Shaped(b: Block, q: Queue) {
    ValidBlock(b) && |q.rows| == BUCKETS
  }

  ghost predicate Ready(b: Block, q: Queue) {
    Shaped(b, q) && !q.stray && |q.hand| < b.nbits && Fits(b, q.hand)
  }

  /** The daughters take their places: the 0-node that of its parent, the 1-node a fresh slot or,
      when the array is full, that of the newest path of the worst bucket. */
  ghost function Opened(b: Block, q: Queue): (after: Queue)
    requires Ready(b, q)
    ensures Shaped(b, after) && SomeOpen(after.rows) && after.hand == q.hand && !after.stray
  {
    var zero, one := q.hand + [false], q.hand + [true];
    var rows := Push(q.rows, At(b, zero), zero);
    PushOpen(q.rows, At(b, zero), zero, zero);
    if |q.hand| + 1 > b.nbits - NTAIL then q.(rows := rows)
    else if q.used < b.slots - 1 then
      PushOpen(rows, At(b, one), one, one);
      q.(rows := Push(rows, At(b, one), one), used := q.used + 1)
    else
      var room := Drop(rows, Worst(rows));
      PushOpen(room, At(b, one), one, one);
      q.(rows := Push(room, At(b, one), one), lost := q.lost + [Newest(rows, Worst(rows))])
  }

  /** The newest path of the best bucket is taken in hand. */
  ghost function TakenUp(q: Queue): (after: Queue)
    requires SomeOpen(q.rows)
    ensures |after.rows| == |q.rows| && after.lost == q.lost && after.stray == q.stray
  {
    q.(rows := Drop(q.rows, Best(q.rows)), hand := Newest(q.rows, Best(q.rows)))
  }

  /** One cycle, until the path in hand is at full depth or the search has gone astray. */
  ghost function Step(b: Block, q: Queue): (after: Queue)
    requires Shaped(b, q)
    ensures Shaped(b, after)
  {
    if q.stray || |q.hand| >= b.nbits then q
    else if !Fits(b, q.hand) then q.(stray := true)
    else TakenUp(Opened(b, q))
  }

  ghost function Start(b: Block): (q: Queue)
    requires ValidBlock(b)
    ensures Shaped(b, q)
  {
    Queue(seq(BUCKETS, _ => []), 1, [], [], false)
  }

  /** The search after so many cycles. */
  ghost function After(b: Block, n: nat): (q: Queue)
    requires ValidBlock(b)
    ensures Shaped(b, q)
  {
    if n == 0 then Start(b) else Step(b, After(b, n - 1))
  }

  ghost predicate Ended(b: Block, q: Queue) {
    q.stray || |q.hand| >= b.nbits
  }

  lemma {:induction false} EndStays(b: Block, n: nat, m: nat)
    requires ValidBlock(b) && n <= m && Ended(b, After(b, n))
    ensures After(b, m) == After(b, n)
  {
    if n == m {
    } else {
      EndStays(b, n, m - 1);
    }
  }

  // ----- nothing is lost but what had to make room

  /** A message of the tree. */
  ghost predicate InTree(b: Block, msg: seq<bool>) {
    |msg| == b.nbits && IsPath(b.nbits, msg)
  }

  /** A path given up leads to the message. */
  ghost predicate GivenUp(lost: seq<seq<bool>>, msg: seq<bool>) {
    exists k :: 0 <= k <= |msg| && msg[..k] in lost
  }

  /** An open path leads to the message. */
  ghost predicate Leads(rows: Rows, msg: seq<bool>) {
    exists k :: 0 <= k <= |msg| && Open(rows, msg[..k])
  }

  /** The path in hand or an open one leads to every message not given up. */
  ghost predicate Covers(b: Block, q: Queue) {
    forall msg :: InTree(b, msg) && !GivenUp(q.lost, msg) ==> q.hand <= msg || Leads(q.rows, msg)
  }

  /** The message falls as low as this bucket somewhere on its way. */
  ghost predicate Sinks(b: Block, msg: seq<bool>, c: int) {
    exists k :: 0 <= k <= |msg| && At(b, msg[..k]) <= c
  }

  /** No message that was not given up keeps above the bucket of this path. */
  ghost predicate Fair(b: Block, lost: seq<seq<bool>>, path: seq<bool>) {
    forall msg :: InTree(b, msg) && !GivenUp(lost, msg) ==> Sinks(b, msg, At(b, path))
  }

  /** All proper starts of a path are fair. */
  ghost predicate FairWay(b: Block, lost: seq<seq<bool>>, path: seq<bool>) {
    forall k :: 0 <= k < |path| ==> Fair(b, lost, path[..k])
  }

  /** Every open path hangs in the bucket of its metric, is a path of the tree, and was come to fairly. */
  ghost predicate RowsOk(b: Block, rows: Rows, lost: seq<seq<bool>>) {
    forall c, p :: 0 <= c < |rows| && p in rows[c] ==> PathOk(b, lost, c, p)
  }

  ghost predicate PathOk(b: Block, lost: seq<seq<bool>>, c: int, p: seq<bool>) {
    At(b, p) == c && IsPath(b.nbits, p) && FairWay(b, lost, p)
  }

  ghost predicate HandOk(b: Block, lost: seq<seq<bool>>, hand: seq<bool>) {
    IsPath(b.nbits, hand) && FairWay(b, lost, hand) && Fair(b, lost, hand)
  }

  ghost predicate Sound(b: Block, q: Queue) {
    Shaped(b, q) && Covers(b, q) && RowsOk(b, q.rows, q.lost) && HandOk(b, q.lost, q.hand)
  }

  // ----- what was fair stays so when more is given up

  lemma GivenMore(lost: seq<seq<bool>>, more: seq<seq<bool>>, msg: seq<bool>)
    requires lost <= more
    ensures GivenUp(lost, msg) ==> GivenUp(more, msg)
  {
    if GivenUp(lost, msg) {
      var k :| 0 <= k <= |msg| && msg[..k] in lost;
      assert msg[..k] in more;
    }
  }

  lemma FairMore(b: Block, lost: seq<seq<bool>>, more: seq<seq<bool>>, path: seq<bool>)
    requires Fair(b, lost, path) && lost <= more
    ensures Fair(b, more, path)
  {
    hide Sinks, At, InTree, GivenUp;
    forall msg | InTree(b, msg) && !GivenUp(more, msg)
      ensures Sinks(b, msg, At(b, path))
    {
      GivenMore(lost, more, msg);
    }
  }

  lemma FairWayMore(b: Block, lost: seq<seq<bool>>, more: seq<seq<bool>>, path: seq<bool>)
    requires FairWay(b, lost, path) && lost <= more
    ensures FairWay(b, more, path)
  {
    hide Fair;
    forall k | 0 <= k < |path|
      ensures Fair(b, more, path[..k])
    {
      FairMore(b, lost, more, path[..k]);
    }
  }

  lemma RowsMore(b: Block, rows: Rows, lost: seq<seq<bool>>, more: seq<seq<bool>>)
    requires RowsOk(b, rows, lost) && lost <= more
    ensures RowsOk(b, rows, more)
  {
    hide At, IsPath, FairWay;
    forall c, p | 0 <= c < |rows| && p in rows[c]
      ensures PathOk(b, more, c, p)
    {
      assert PathOk(b, lost, c, p);
      FairWayMore(b, lost, more, p);
    }
  }

  // ----- the daughters

  lemma DaughterOk(b: Block, lost: seq<seq<bool>>, hand: seq<bool>, bit: bool)
    requires HandOk(b, lost, hand) && |hand| < b.nbits && (bit ==> |hand| + 1 <= b.nbits - NTAIL)
    ensures PathOk(b, lost, At(b, hand + [bit]), hand + [bit])
  {
    hide Fair, At;
    var longer := hand + [bit];
    forall k | 0 <= k < |longer|
      ensures Fair(b, lost, longer[..k])
    {
      if k == |hand| {
        assert longer[..k] == hand;
      } else {
        assert longer[..k] == hand[..k];
      }
    }
  }

  lemma PushRows(b: Block, rows: Rows, lost: seq<seq<bool>>, c: int, path: seq<bool>)
    requires RowsOk(b, rows, lost) && 0 <= c < |rows| && PathOk(b, lost, c, path)
    ensures RowsOk(b, Push(rows, c, path), lost)
  {
    hide PathOk;
  }

  lemma DropRows(b: Block, rows: Rows, lost: seq<seq<bool>>, c: nat)
    requires RowsOk(b, rows, lost) && c < |rows| && rows[c] != []
    ensures RowsOk(b, Drop(rows, c), lost) && PathOk(b, lost, c, Newest(rows, c))
  {
    hide PathOk;
    assert forall p :: p in Drop(rows, c)[c] ==> p in rows[c];
  }

  lemma OpenedRows(b: Block, q: Queue)
    requires Ready(b, q) && RowsOk(b, q.rows, q.lost) && HandOk(b, q.lost, q.hand)
    ensures RowsOk(b, Opened(b, q).rows, Opened(b, q).lost)
  {
    hide RowsOk, HandOk, PathOk, Push, Drop, Newest, Worst, PathBucket;
    var mid := Opened(b, q);
    var zero, one := q.hand + [false], q.hand + [true];
    DaughterOk(b, q.lost, q.hand, false);
    PushRows(b, q.rows, q.lost, At(b, zero), zero);
    var rows := Push(q.rows, At(b, zero), zero);
    PushOpen(q.rows, At(b, zero), zero, zero);
    if |q.hand| + 1 <= b.nbits - NTAIL {
      DaughterOk(b, q.lost, q.hand, true);
      if q.used < b.slots - 1 {
        PushRows(b, rows, q.lost, At(b, one), one);
      } else {
        var room := Drop(rows, Worst(rows));
        DropRows(b, rows, q.lost, Worst(rows));
        PushRows(b, room, q.lost, At(b, one), one);
        RowsMore(b, mid.rows, q.lost, mid.lost);
      }
    }
  }

  /** Nothing open is lost, nor either daughter, but what is given up. */
  lemma OpenedKeeps(b: Block, q: Queue, p: seq<bool>)
    requires Ready(b, q)
    requires Open(q.rows, p) || p == q.hand + [false] || (p == q.hand + [true] && |q.hand| + 1 <= b.nbits - NTAIL)
    ensures Open(Opened(b, q).rows, p) || p in Opened(b, q).lost
  {
    hide Open, Push, Drop, Newest, Worst, PathBucket;
    var zero, one := q.hand + [false], q.hand + [true];
    var rows := Push(q.rows, At(b, zero), zero);
    PushOpen(q.rows, At(b, zero), zero, p);
    if |q.hand| + 1 <= b.nbits - NTAIL {
      if q.used < b.slots - 1 {
        PushOpen(rows, At(b, one), one, p);
      } else {
        var room := Drop(rows, Worst(rows));
        DropOpen(rows, Worst(rows), p);
        PushOpen(room, At(b, one), one, p);
      }
    }
  }

  lemma OpenedMore(b: Block, q: Queue)
    requires Ready(b, q)
    ensures q.lost <= Opened(b, q).lost
  {
  }

  lemma BitAllowed(b: Block, msg: seq<bool>, j: nat)
    requires InTree(b, msg) && j < |msg|
    ensures msg[j] ==> j + 1 <= b.nbits - NTAIL
  {
  }

  lemma OpenedLeads(b: Block, q: Queue, msg: seq<bool>)
    requires Ready(b, q) && Covers(b, q) && InTree(b, msg) && !GivenUp(Opened(b, q).lost, msg)
    ensures Leads(Opened(b, q).rows, msg)
  {
    hide Open, Opened, At, Fits;
    var mid := Opened(b, q);
    OpenedMore(b, q);
    GivenMore(q.lost, mid.lost, msg);
    if q.hand <= msg {
      var k := |q.hand| + 1;
      BitAllowed(b, msg, k - 1);
      assert msg[..k] == q.hand + [msg[k - 1]];
      assert msg[k - 1] == true || msg[k - 1] == false;
      OpenedKeeps(b, q, msg[..k]);
    } else {
      var k :| 0 <= k <= |msg| && Open(q.rows, msg[..k]);
      OpenedKeeps(b, q, msg[..k]);
    }
  }

  // ----- taking up the best

  lemma TakenCovers(b: Block, mid: Queue)
    requires SomeOpen(mid.rows) && forall msg :: InTree(b, msg) && !GivenUp(mid.lost, msg) ==> Leads(mid.rows, msg)
    ensures Covers(b, TakenUp(mid))
  {
    hide Open, Drop, Newest, Best, InTree, GivenUp;
    var after := TakenUp(mid);
    forall msg | InTree(b, msg) && !GivenUp(after.lost, msg)
      ensures after.hand <= msg || Leads(after.rows, msg)
    {
      var k :| 0 <= k <= |msg| && Open(mid.rows, msg[..k]);
      DropOpen(mid.rows, Best(mid.rows), msg[..k]);
    }
  }

  lemma TakenFair(b: Block, mid: Queue)
    requires SomeOpen(mid.rows) && forall msg :: InTree(b, msg) && !GivenUp(mid.lost, msg) ==> Leads(mid.rows, msg)
    requires RowsOk(b, mid.rows, mid.lost)
    ensures Fair(b, mid.lost, TakenUp(mid).hand)
  {
    hide At, IsPath, FairWay, InTree, GivenUp;
    var c, hand := Best(mid.rows), TakenUp(mid).hand;
    hide Best, SomeOpen;
    assert PathOk(b, mid.lost, c, hand);
    forall msg | InTree(b, msg) && !GivenUp(mid.lost, msg)
      ensures Sinks(b, msg, At(b, hand))
    {
      var k :| 0 <= k <= |msg| && Open(mid.rows, msg[..k]);
      var d :| 0 <= d < |mid.rows| && msg[..k] in mid.rows[d];
      assert PathOk(b, mid.lost, d, msg[..k]);
      assert mid.rows[d] != [];
    }
  }

  lemma TakenOk(b: Block, mid: Queue)
    requires SomeOpen(mid.rows) && forall msg :: InTree(b, msg) && !GivenUp(mid.lost, msg) ==> Leads(mid.rows, msg)
    requires RowsOk(b, mid.rows, mid.lost)
    ensures RowsOk(b, TakenUp(mid).rows, mid.lost) && HandOk(b, mid.lost, TakenUp(mid).hand)
  {
    hide RowsOk, IsPath, FairWay, Fair, At, InTree, GivenUp, Leads, SomeOpen, Best, Drop, Newest;
    DropRows(b, mid.rows, mid.lost, Best(mid.rows));
    TakenFair(b, mid);
  }

  /** Every cycle keeps all of it. */
  lemma StepSound(b: Block, q: Queue)
    requires Sound(b, q)
    ensures Sound(b, Step(b, q))
  {
    hide Covers, RowsOk, HandOk, Opened, TakenUp, Fits;
    if Ready(b, q) {
      var mid := Opened(b, q);
      OpenedRows(b, q);
      forall msg | InTree(b, msg) && !GivenUp(mid.lost, msg)
        ensures Leads(mid.rows, msg)
      {
        OpenedLeads(b, q, msg);
      }
      TakenCovers(b, mid);
      TakenOk(b, mid);
    } else {
      StrayKeeps(b, q);
    }
  }

  lemma StrayKeeps(b: Block, q: Queue)
    requires Shaped(b, q) && Covers(b, q)
    ensures Covers(b, q.(stray := true))
  {
    hide InTree, GivenUp, Leads;
  }

  lemma StartSound(b: Block)
    requires ValidBlock(b)
    ensures Sound(b, Start(b))
  {
    hide At, InTree, GivenUp;
    forall msg | InTree(b, msg) && !GivenUp([], msg)
      ensures Sinks(b, msg, At(b, []))
    {
      assert msg[..0] == [];
    }
  }

  lemma {:induction false} AfterSound(b: Block, n: nat)
    requires ValidBlock(b)
    ensures Sound(b, After(b, n))
  {
    hide Sound, Step;
    if n == 0 {
      StartSound(b);
    } else {
      AfterSound(b, n - 1);
      StepSound(b, After(b, n - 1));
    }
  }

  /** In every search the path in hand or an open one leads to each message of the tree, unless a path
      to it was given up for want of room; and no message not given up keeps above a bucket that a path
      was taken up from. */
  lemma NothingLost(b: Block, n: nat)
    requires ValidBlock(b)
    ensures Covers(b, After(b, n)) && Fair(b, After(b, n).lost, After(b, n).hand)
  {
    hide After, Covers, RowsOk, Fair;
    AfterSound(b, n);
  }

  /** A search goes astray at a path of the tree one of whose daughters has no bucket. */
  lemma {:induction false} StrayAt(b: Block, n: nat)
    requires ValidBlock(b)
    ensures var q := After(b, n); q.stray ==> IsPath(b.nbits, q.hand) && |q.hand| < b.nbits && !Fits(b, q.hand)
  {
    hide Opened, TakenUp, Fits, Covers, RowsOk, Fair;
    if n == 0 {
    } else {
      StrayAt(b, n - 1);
      AfterSound(b, n - 1);
      SoundHand(b, After(b, n - 1));
      hide Sound, IsPath;
    }
  }

  // ----- what is found

  /** The lowest bucket on the way to the first k bits. */
  ghost function Lowest(b: Block, msg: seq<bool>, k: nat): (low: int)
    requires k <= |msg|
  {
    if k == 0 then At(b, [])
    else
      var low, here := Lowest(b, msg, k - 1), At(b, msg[..k]);
      if here < low then here else low
  }

  lemma {:induction false} LowestIs(b: Block, msg: seq<bool>, n: nat, k: nat)
    requires k <= n <= |msg|
    ensures Lowest(b, msg, n) <= At(b, msg[..k])
  {
    hide At;
    if n == 0 {
      assert msg[..0] == [];
    } else if k < n {
      LowestIs(b, msg, n - 1, k);
    }
  }

  lemma {:induction false} LowestMet(b: Block, msg: seq<bool>, n: nat) returns (k: nat)
    requires n <= |msg|
    ensures k <= n && Lowest(b, msg, n) == At(b, msg[..k])
  {
    hide At;
    if n == 0 {
      assert msg[..0] == [];
      k := 0;
    } else {
      k := LowestMet(b, msg, n - 1);
      if At(b, msg[..n]) < Lowest(b, msg, n - 1) {
        k := n;
      }
    }
  }

  /** A finished search has found a message whose lowest bucket no other message exceeds, of those
      no path to was given up. */
  ghost predicate IsBest(b: Block, lost: seq<seq<bool>>, found: seq<bool>) {
    InTree(b, found)
    && forall msg :: InTree(b, msg) && !GivenUp(lost, msg) ==> Lowest(b, msg, b.nbits) <= Lowest(b, found, b.nbits)
  }

  lemma FoundIsBest(b: Block, n: nat)
    requires ValidBlock(b) && |After(b, n).hand| >= b.nbits
    ensures IsBest(b, After(b, n).lost, After(b, n).hand)
  {
    hide After, Covers, RowsOk, HandOk, IsBest;
    AfterSound(b, n);
    FairIsBest(b, After(b, n).lost, After(b, n).hand);
  }

  lemma SoundHand(b: Block, q: Queue)
    requires Sound(b, q)
    ensures HandOk(b, q.lost, q.hand)
  {
    hide Covers, RowsOk, HandOk;
  }

  lemma FairIsBest(b: Block, lost: seq<seq<bool>>, hand: seq<bool>)
    requires HandOk(b, lost, hand) && |hand| >= b.nbits
    ensures IsBest(b, lost, hand)
  {
    hide At, GivenUp, Fair, Lowest;
    var k := LowestMet(b, hand, b.nbits);
    assert Fair(b, lost, hand[..k]) by {
      assert hand[..b.nbits] == hand;
    }
    forall msg | InTree(b, msg) && !GivenUp(lost, msg)
      ensures Lowest(b, msg, b.nbits) <= Lowest(b, hand, b.nbits)
    {
      SinksLow(b, lost, msg, hand[..k]);
    }
  }

  lemma SinksLow(b: Block, lost: seq<seq<bool>>, msg: seq<bool>, path: seq<bool>)
    requires Fair(b, lost, path) && InTree(b, msg) && !GivenUp(lost, msg)
    ensures Lowest(b, msg, b.nbits) <= At(b, path)
  {
    hide At, GivenUp;
    assert Sinks(b, msg, At(b, path));
    var k :| 0 <= k <= |msg| && At(b, msg[..k]) <= At(b, path);
    LowestIs(b, msg, b.nbits, k);
  }

  lemma StepRoom(b: Block, q: Queue)
    requires Shaped(b, q)
    ensures Step(b, q).used <= q.used + 1 && (q.used < b.slots - 1 ==> Step(b, q).lost == q.lost)
  {
    hide Push, Drop, Newest, Best, Worst, PathBucket, SomeOpen;
  }

  /** A slot is taken at most once a cycle, so with more slots than cycles nothing is given up. */
  lemma {:induction false} RoomEnough(b: Block, n: nat)
    requires ValidBlock(b)
    ensures After(b, n).used <= n + 1 && (n + 2 <= b.slots ==> After(b, n).lost == [])
  {
    hide Step;
    if n == 0 {
    } else {
      RoomEnough(b, n - 1);
      StepRoom(b, After(b, n - 1));
    }
  }
}
