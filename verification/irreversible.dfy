/** The irreversible-block tracker: a short array of candidate blocks, one
    per recent delegate round, and a bounded map of blocks declared
    irreversible once enough later rounds have built on them. */
module Irreversible {
  import opened Transactions

  /** The tracker's settings: whether it is on (`fUseIrreversibleBlock`),
      the number of candidate slots (`nMaxConfirmBlockCount`), the two
      promotion thresholds in percent of a round, the bound on the map
      (`nMaxIrreversibleCount`) and the delegates per round. */
  datatype TrackerParams = TrackerParams(enabled: bool, confirmCount: nat,
                                         firstThreshold: int, secondThreshold: int,
                                         maxIrreversible: int, maxDelegates: int)
  {
    predicate Valid() {
      confirmCount >= 1 && maxIrreversible >= 1
    }
  }

  /** Candidate heights (−1 marks an empty slot) with their hashes, and the
      irreversible blocks by height. */
  datatype Tracker = Tracker(heights: seq<int>, hashes: seq<Hash>, irreversible: map<int, Hash>)

  /** Candidate slots are filled from the front with strictly increasing
      heights; the rest hold −1. */
  predicate WellOrdered(h: seq<int>) {
    && (forall j :: 0 <= j < |h| ==> h[j] >= -1)
    && (forall a, b :: 0 <= a < b < |h| && h[b] >= 0 ==> 0 <= h[a] < h[b])
  }

  predicate ValidTracker(p: TrackerParams, t: Tracker) {
    |t.heights| == p.confirmCount && |t.hashes| == p.confirmCount && WellOrdered(t.heights)
  }

  // ---------------------------------------------------------------------
  // The irreversible map

  /** The least element of a non-empty set of heights. */
  function MinOf(s: set<int>): (k: int)
    requires s != {}
    ensures k in s && forall j :: j in s ==> k <= j
  {
    ExtremesExist(s);
    var k :| k in s && forall j :: j in s ==> k <= j;
    k
  }

  lemma NonEmptyHasMember(s: set<int>)
    requires s != {}
    ensures exists y :: y in s
  {
    if forall y :: y !in s {
      assert false;
    }
  }

  lemma {:induction false} ExtremesExist(s: set<int>)
    requires s != {}
    ensures exists k :: k in s && forall j :: j in s ==> k <= j
    ensures exists k :: k in s && forall j :: j in s ==> j <= k
    decreases |s|
  {
    NonEmptyHasMember(s);
    var x :| x in s;
    if s != {x} {
      ExtremesExist(s - {x});
      var lo :| lo in s - {x} && forall j :: j in s - {x} ==> lo <= j;
      var hi :| hi in s - {x} && forall j :: j in s - {x} ==> j <= hi;
      assert forall j :: j in s ==> j == x || j in s - {x};
      var k1 := if x <= lo then x else lo;
      var k2 := if x >= hi then x else hi;
      assert k1 in s && forall j :: j in s ==> k1 <= j;
      assert k2 in s && forall j :: j in s ==> j <= k2;
    } else {
      assert forall j :: j in s ==> j == x;
    }
  }

  /** The eviction loop of `AddIrreversibleBlock`: drop the lowest height
      while the map holds `bound` entries or more. */
  function Evict(m: map<int, Hash>, bound: int): (r: map<int, Hash>)
    requires bound >= 1
    ensures |r| < bound && |r| <= |m|
    ensures r.Keys <= m.Keys && forall k :: k in r ==> r[k] == m[k]
    ensures |m| < bound ==> r == m
    ensures forall k, j :: k in m && k !in r && j in r ==> k < j
    decreases |m|
  {
    if |m| < bound then m
    else
      var k := MinOf(m.Keys);
      var m' := m - {k};
      assert |m'| == |m| - 1 by {
        assert m'.Keys == m.Keys - {k};
      }
      Evict(m', bound)
  }

  /** `AddIrreversibleBlock`: evict, then insert without overwriting an
      entry the map already has for that height. */
  function AddIrreversibleBlock(m: map<int, Hash>, bound: int, height: int, hash: Hash): (r: map<int, Hash>)
    requires bound >= 1
    ensures |r| <= bound
    ensures height in r
    ensures forall k :: k in r && k != height ==> k in m && r[k] == m[k]
    ensures r[height] == (if height in Evict(m, bound) then m[height] else hash)
  {
    var e := Evict(m, bound);
    if height in e then e
    else
      assert |e[height := hash]| == |e| + 1 by {
        assert e[height := hash].Keys == e.Keys + {height};
      }
      e[height := hash]
  }

  /** Below the bound, adding a new height keeps every entry and records
      the new one. */
  lemma AddBelowBoundKeepsAll(m: map<int, Hash>, bound: int, height: int, hash: Hash)
    requires bound >= 1 && |m| < bound && height !in m
    ensures AddIrreversibleBlock(m, bound, height, hash) == m[height := hash]
  {
  }

  /** Eviction drops only as many heights as it must: a full map keeps
      exactly one entry fewer than the bound. */
  lemma {:induction false} EvictDropsFewest(m: map<int, Hash>, bound: int)
    requires bound >= 1
    ensures var r := Evict(m, bound);
            |m| >= bound ==> |r| == bound - 1
    decreases |m|
  {
    if |m| >= bound {
      var k := MinOf(m.Keys);
      var m' := m - {k};
      assert m'.Keys == m.Keys - {k};
      EvictDropsFewest(m', bound);
    }
  }

  /** `GetIrreversibleBlock`: the highest irreversible height (as the
      unsigned 64-bit value it is returned as) and its hash, or (0, null)
      when there is none. */
  function GetIrreversibleBlock(m: map<int, Hash>): (r: (nat, Hash))
    ensures m == map[] ==> r == (0, 0)
    ensures m != map[] ==> exists k :: k in m && r == (k % 0x1_0000_0000_0000_0000, m[k]) &&
                                       forall j :: j in m ==> j <= k
  {
    if m == map[] then (0, 0)
    else
      var k := MaxOf(m.Keys);
      (k % 0x1_0000_0000_0000_0000, m[k])
  }

  function MaxOf(s: set<int>): (k: int)
    requires s != {}
    ensures k in s && forall j :: j in s ==> j <= k
  {
    ExtremesExist(s);
    var k :| k in s && forall j :: j in s ==> j <= k;
    k
  }

  /** `IsValidBlockCheckIrreversibleBlock`: a block is refused only when
      its height is already irreversible with another hash. */
  function IsValidBlockCheckIrreversibleBlock(enabled: bool, m: map<int, Hash>, height: int, hash: Hash): (ok: bool)
    ensures !ok <==> enabled && height in m && m[height] != hash
  {
    !enabled || height !in m || m[height] == hash
  }

  /** After a block is made irreversible, its height accepts exactly the
      hash kept there: the one already recorded if eviction left it, the
      new one otherwise. A block at any other height that was valid stays
      valid, so a height with no entry still accepts every hash. */
  lemma IrreversibleBlockIsValid(m: map<int, Hash>, bound: int, height: int, hash: Hash,
                                 other: int, candidate: Hash)
    requires bound >= 1
    ensures var m' := AddIrreversibleBlock(m, bound, height, hash);
            && (IsValidBlockCheckIrreversibleBlock(true, m', height, candidate) <==>
                  candidate == (if height in Evict(m, bound) then m[height] else hash))
            && (height !in m ==> (IsValidBlockCheckIrreversibleBlock(true, m', height, candidate) <==> candidate == hash))
            && (other != height && IsValidBlockCheckIrreversibleBlock(true, m, other, candidate) ==>
                  IsValidBlockCheckIrreversibleBlock(true, m', other, candidate))
            && (other != height && other !in m ==> IsValidBlockCheckIrreversibleBlock(true, m', other, candidate))
  {
  }

  // ---------------------------------------------------------------------
  // ProcessIrreversibleBlock

  /** Every slot −1 except the first, which holds the new block. */
  function Restart(t: Tracker, height: int, hash: Hash): (r: Tracker)
    requires |t.heights| >= 1 && |t.hashes| == |t.heights|
    ensures |r.heights| == |t.heights| && |r.hashes| == |t.hashes|
    ensures r.heights[0] == height && r.hashes[0] == hash
    ensures forall j :: 1 <= j < |r.heights| ==> r.heights[j] == -1
    ensures r.irreversible == t.irreversible
  {
    Tracker(seq(|t.heights|, j => if j == 0 then height else -1), t.hashes[0 := hash], t.irreversible)
  }

  /** The scan of `ProcessIrreversibleBlock` from slot `i` down. `sameChain`
      stands for `IsOnTheSameChain(candidate, new block)`. */
  function Scan(p: TrackerParams, t: Tracker, i: int, height: int, hash: Hash,
                sameChain: (int, Hash, int, Hash) -> bool): (r: Tracker)
    requires p.Valid() && |t.heights| == p.confirmCount && |t.hashes| == p.confirmCount
    requires -1 <= i < p.confirmCount
    ensures |r.heights| == p.confirmCount && |r.hashes| == p.confirmCount
    decreases i + 1
  {
    var c := p.confirmCount;
    if i < 0 then
      t.(heights := t.heights[0 := height], hashes := t.hashes[0 := hash])
    else if t.heights[i] < 0 || height <= t.heights[i] then
      Scan(p, t.(heights := t.heights[i := -1]), i - 1, height, hash, sameChain)
    else if !sameChain(t.heights[i], t.hashes[i], height, hash) then
      Scan(p, t.(heights := t.heights[i := -1]), i - 1, height, hash, sameChain)
    else
      var gap := (height - t.heights[i]) * 100;
      if gap >= p.maxDelegates * p.firstThreshold then
        var m := AddIrreversibleBlock(t.irreversible, p.maxIrreversible, t.heights[i], t.hashes[i]);
        Restart(t.(irreversible := m), height, hash)
      else if gap >= p.maxDelegates * p.secondThreshold then
        if i == c - 1 then
          var m := AddIrreversibleBlock(t.irreversible, p.maxIrreversible, t.heights[i], t.hashes[i]);
          Tracker(t.heights[1..] + [height], t.hashes[1..] + [hash], m)
        else
          t.(heights := t.heights[i + 1 := height], hashes := t.hashes[i + 1 := hash])
      else
        Restart(t, height, hash)
  }

  /** `ProcessIrreversibleBlock` for the block `(height, hash)` that opens a
      new delegate round. */
  function ProcessIrreversibleBlock(p: TrackerParams, t: Tracker, height: int, hash: Hash,
                                    sameChain: (int, Hash, int, Hash) -> bool): (r: Tracker)
    requires p.Valid() && ValidTracker(p, t)
    ensures |r.heights| == p.confirmCount && |r.hashes| == p.confirmCount
    ensures !p.enabled ==> r == t
  {
    if !p.enabled then t
    else Scan(p, t, p.confirmCount - 1, height, hash, sameChain)
  }

  /** The new block sits in some slot, above every other candidate. */
  predicate Placed(r: Tracker, height: int, hash: Hash)
    requires |r.hashes| == |r.heights|
  {
    exists j :: 0 <= j < |r.heights| && r.heights[j] == height && r.hashes[j] == hash &&
                forall k :: 0 <= k < |r.heights| && k != j ==> r.heights[k] < height
  }

  /** Candidate `i` was on the same chain as the new block, far enough
      below it, and is the one the map gained. */
  predicate PromotedFrom(p: TrackerParams, t: Tracker, r: Tracker, height: int, hash: Hash,
                         sameChain: (int, Hash, int, Hash) -> bool, i: int)
    requires p.Valid() && ValidTracker(p, t) && 0 <= i < p.confirmCount
  {
    && 0 <= t.heights[i] < height
    && sameChain(t.heights[i], t.hashes[i], height, hash)
    && ((height - t.heights[i]) * 100 >= p.maxDelegates * p.firstThreshold ||
        (height - t.heights[i]) * 100 >= p.maxDelegates * p.secondThreshold)
    && r.irreversible == AddIrreversibleBlock(t.irreversible, p.maxIrreversible, t.heights[i], t.hashes[i])
  }

  predicate Promoted(p: TrackerParams, t: Tracker, r: Tracker, height: int, hash: Hash,
                     sameChain: (int, Hash, int, Hash) -> bool)
    requires p.Valid() && ValidTracker(p, t)
  {
    exists i :: 0 <= i < p.confirmCount && PromotedFrom(p, t, r, height, hash, sameChain, i)
  }

  lemma RestartPlaces(p: TrackerParams, t: Tracker, height: int, hash: Hash)
    requires p.Valid() && |t.heights| == p.confirmCount && |t.hashes| == p.confirmCount && height >= 0
    ensures ValidTracker(p, Restart(t, height, hash)) && Placed(Restart(t, height, hash), height, hash)
  {
    var r := Restart(t, height, hash);
    assert r.heights[0] == height && r.hashes[0] == hash;
  }

  /** Candidate `i` below the new block, with every slot above it empty:
      writing the block into slot `i + 1` places it. */
  lemma InsertAbovePlaces(p: TrackerParams, t: Tracker, i: int, height: int, hash: Hash)
    requires p.Valid() && ValidTracker(p, t) && 0 <= i < p.confirmCount - 1
    requires 0 <= t.heights[i] < height
    requires forall j :: i < j < p.confirmCount ==> t.heights[j] == -1
    ensures var r := t.(heights := t.heights[i + 1 := height], hashes := t.hashes[i + 1 := hash]);
            ValidTracker(p, r) && Placed(r, height, hash)
  {
    var r := t.(heights := t.heights[i + 1 := height], hashes := t.hashes[i + 1 := hash]);
    assert r.heights[i + 1] == height && r.hashes[i + 1] == hash;
  }

  /** All slots full, the last below the new block: shifting down and
      appending the block places it. */
  lemma ShiftPlaces(p: TrackerParams, t: Tracker, height: int, hash: Hash, m: map<int, Hash>)
    requires p.Valid() && ValidTracker(p, t)
    requires 0 <= t.heights[p.confirmCount - 1] < height
    ensures var r := Tracker(t.heights[1..] + [height], t.hashes[1..] + [hash], m);
            ValidTracker(p, r) && Placed(r, height, hash)
  {
    var c := p.confirmCount;
    var r := Tracker(t.heights[1..] + [height], t.hashes[1..] + [hash], m);
    assert forall k :: 0 <= k < c - 1 ==> r.heights[k] == t.heights[k + 1];
    assert r.heights[c - 1] == height && r.hashes[c - 1] == hash;
  }

  /** A skipped candidate is cleared and the scan goes on below it. */
  lemma {:induction false} ScanSkip(p: TrackerParams, t: Tracker, i: int, height: int, hash: Hash,
                                    sameChain: (int, Hash, int, Hash) -> bool)
    requires p.Valid() && ValidTracker(p, t) && height >= 0
    requires 0 <= i < p.confirmCount
    requires forall j :: i < j < p.confirmCount ==> t.heights[j] == -1
    requires t.heights[i] < 0 || height <= t.heights[i] || !sameChain(t.heights[i], t.hashes[i], height, hash)
    ensures var r := Scan(p, t, i, height, hash, sameChain);
            && ValidTracker(p, r) && Placed(r, height, hash)
            && (r.irreversible == t.irreversible || Promoted(p, t, r, height, hash, sameChain))
    decreases i + 1, 0
  {
    var c := p.confirmCount;
    var t' := t.(heights := t.heights[i := -1]);
    assert ValidTracker(p, t');
    ScanOutcome(p, t', i - 1, height, hash, sameChain);
    var r := Scan(p, t', i - 1, height, hash, sameChain);
    assert r == Scan(p, t, i, height, hash, sameChain);
    if r.irreversible != t.irreversible {
      var k :| 0 <= k < c && PromotedFrom(p, t', r, height, hash, sameChain, k);
      assert PromotedFrom(p, t, r, height, hash, sameChain, k);
    }
  }

  /** The scan keeps the candidates well ordered, leaves the new block in
      a slot above every other candidate, and changes the irreversible
      map only by promoting a candidate on the same chain whose distance
      reaches a threshold. */
  lemma {:induction false} ScanOutcome(p: TrackerParams, t: Tracker, i: int, height: int, hash: Hash,
                                       sameChain: (int, Hash, int, Hash) -> bool)
    requires p.Valid() && ValidTracker(p, t) && height >= 0
    requires -1 <= i < p.confirmCount
    requires forall j :: i < j < p.confirmCount ==> t.heights[j] == -1
    ensures var r := Scan(p, t, i, height, hash, sameChain);
            && ValidTracker(p, r) && Placed(r, height, hash)
            && (r.irreversible == t.irreversible || Promoted(p, t, r, height, hash, sameChain))
    decreases i + 1, 1
  {
    var c := p.confirmCount;
    var h := t.heights;
    if i < 0 {
      var r := Scan(p, t, i, height, hash, sameChain);
      assert r.heights[0] == height && r.hashes[0] == hash;
    } else if h[i] < 0 || height <= h[i] || !sameChain(h[i], t.hashes[i], height, hash) {
      ScanSkip(p, t, i, height, hash, sameChain);
    } else {
      var gap := (height - h[i]) * 100;
      if gap >= p.maxDelegates * p.firstThreshold {
        var m := AddIrreversibleBlock(t.irreversible, p.maxIrreversible, h[i], t.hashes[i]);
        RestartPlaces(p, t.(irreversible := m), height, hash);
        assert PromotedFrom(p, t, Restart(t.(irreversible := m), height, hash), height, hash, sameChain, i);
      } else if gap >= p.maxDelegates * p.secondThreshold {
        var m := AddIrreversibleBlock(t.irreversible, p.maxIrreversible, h[i], t.hashes[i]);
        if i == c - 1 {
          ShiftPlaces(p, t, height, hash, m);
          assert PromotedFrom(p, t, Tracker(h[1..] + [height], t.hashes[1..] + [hash], m),
                              height, hash, sameChain, i);
        } else {
          InsertAbovePlaces(p, t, i, height, hash);
        }
      } else {
        RestartPlaces(p, t, height, hash);
      }
    }
  }

  /** What `ProcessIrreversibleBlock` promises for a block at a
      non-negative height, when enabled. */
  lemma ProcessIrreversibleBlockOutcome(p: TrackerParams, t: Tracker, height: int, hash: Hash,
                                        sameChain: (int, Hash, int, Hash) -> bool)
    requires p.Valid() && ValidTracker(p, t) && height >= 0 && p.enabled
    ensures var r := ProcessIrreversibleBlock(p, t, height, hash, sameChain);
            && ValidTracker(p, r) && Placed(r, height, hash)
            && (r.irreversible == t.irreversible || Promoted(p, t, r, height, hash, sameChain))
  {
    ScanOutcome(p, t, p.confirmCount - 1, height, hash, sameChain);
  }
}
