/** The resource guards of block assembly: the configured weight and size
    limits, the tests a package or a single mempool entry must pass, the
    counters adding an entry moves, and the header time update. */
module BlockAssembler {
  import opened Wrappers
  import opened Arithmetic

  /** Consensus and default limits. Their values live in headers that are
      not part of this model, so they are parameters. */
  datatype Limits = Limits(maxBlockWeight: nat, maxBlockSerializedSize: nat, maxBlockSigOpsCost: nat,
                           witnessScaleFactor: nat, defaultMaxWeight: nat, defaultMaxSize: nat)
  {
    predicate Valid() {
      && 8000 <= maxBlockWeight < 0x1_0000_0000
      && 2000 <= maxBlockSerializedSize < 0x1_0000_0000
      && 8 <= maxBlockSigOpsCost
      && witnessScaleFactor < 0x1_0000_0000
      && defaultMaxWeight < 0x1_0000_0000
      && defaultMaxSize < 0x1_0000_0000
    }
  }

  /** The assembler's configured limits (`unsigned int` members). */
  datatype Config = Config(maxWeight: nat, maxSize: nat, needSizeAccounting: bool)

  /** Conversion to `unsigned int`. */
  function U32(v: int): (r: nat)
    ensures r < 0x1_0000_0000
    ensures 0 <= v < 0x1_0000_0000 ==> r == v
  {
    v % 0x1_0000_0000
  }

  function Clamp(lo: int, hi: int, v: int): (r: int)
    requires lo <= hi
    ensures lo <= r <= hi
    ensures lo <= v <= hi ==> r == v
    ensures v < lo ==> r == lo
    ensures v > hi ==> r == hi
  {
    if v < lo then lo else if v > hi then hi else v
  }

  /** The limits the assembler starts from, given the `-blockmaxweight`
      and `-blockmaxsize` options when set. A size given without a weight
      limits the weight to four times the size, computed in 32 bits. */
  function ConfigFor(l: Limits, weightArg: Option<int>, sizeArg: Option<int>): (c: Config)
    requires l.Valid()
    ensures 4000 <= c.maxWeight <= l.maxBlockWeight - 4000
    ensures 1000 <= c.maxSize <= l.maxBlockSerializedSize - 1000
    ensures c.needSizeAccounting <==> c.maxSize < l.maxBlockSerializedSize - 1000
    ensures weightArg.Some? && sizeArg.None? ==> !c.needSizeAccounting
    ensures weightArg.Some? && 4000 <= weightArg.value <= l.maxBlockWeight - 4000 ==>
              c.maxWeight == weightArg.value
    ensures sizeArg.Some? && 1000 <= sizeArg.value <= l.maxBlockSerializedSize - 1000 ==>
              c.maxSize == sizeArg.value
  {
    var weight0 := if weightArg.Some? then U32(weightArg.value) else l.defaultMaxWeight;
    var size0 := if weightArg.Some? then l.maxBlockSerializedSize else l.defaultMaxSize;
    var size1 := if sizeArg.Some? then U32(sizeArg.value) else size0;
    var weight1 := if sizeArg.Some? && weightArg.None? then U32(size1 * l.witnessScaleFactor) else weight0;
    var weight := Clamp(4000, l.maxBlockWeight - 4000, weight1);
    var size := Clamp(1000, l.maxBlockSerializedSize - 1000, size1);
    Config(weight, size, size < l.maxBlockSerializedSize - 1000)
  }

  /** With only a size option, the weight limit is four times that size
      when the product fits in 32 bits and lies within the clamp. */
  lemma SizeOnlyLimitsWeight(l: Limits, size: int)
    requires l.Valid() && l.witnessScaleFactor == 4
    requires 1000 <= size && 4 * size <= l.maxBlockWeight - 4000
    ensures ConfigFor(l, None, Some(size)).maxWeight == 4 * size
  {
  }

  /** The 32-bit product wraps: a size option of 2^30 yields a zero weight,
      which the clamp then raises to the 4000 floor. */
  lemma SizeOptionWeightWraps(l: Limits)
    requires l.Valid() && l.witnessScaleFactor == 4
    ensures ConfigFor(l, None, Some(0x4000_0000)).maxWeight == 4000
  {
  }

  // ---------------------------------------------------------------------
  // Block state

  /** A mempool entry as the assembler sees it. */
  datatype Entry = Entry(weight: nat, size: nat, sigOpsCost: nat, fee: int, isFinal: bool)

  /** The block under construction: running totals, the entries added,
      and the give-up bookkeeping of `TestForBlock`. */
  datatype BlockState = BlockState(weight: nat, size: nat, sigOpsCost: nat, txCount: nat, fees: int,
                                   entries: seq<Entry>, lastFewTxs: nat, finished: bool)

  /** `resetBlock`: room reserved for the coinbase, nothing added yet. */
  function ResetBlock(): (s: BlockState)
    ensures s.entries == [] && Accounted(s, false) && Accounted(s, true)
  {
    BlockState(4000, 1000, 400, 0, 0, [], 0, false)
  }

  function SumWeight(es: seq<Entry>): nat {
    if es == [] then 0 else SumWeight(es[..|es| - 1]) + es[|es| - 1].weight
  }

  function SumSize(es: seq<Entry>): nat {
    if es == [] then 0 else SumSize(es[..|es| - 1]) + es[|es| - 1].size
  }

  function SumSigOps(es: seq<Entry>): nat {
    if es == [] then 0 else SumSigOps(es[..|es| - 1]) + es[|es| - 1].sigOpsCost
  }

  function SumFees(es: seq<Entry>): int {
    if es == [] then 0 else SumFees(es[..|es| - 1]) + es[|es| - 1].fee
  }

  /** The running totals are the coinbase reservation plus the sums over
      the entries added (the size only when it is being accounted). */
  predicate Accounted(s: BlockState, sizeAccounting: bool) {
    && s.weight == 4000 + SumWeight(s.entries)
    && s.size == 1000 + (if sizeAccounting then SumSize(s.entries) else 0)
    && s.sigOpsCost == 400 + SumSigOps(s.entries)
    && s.txCount == |s.entries|
    && s.fees == SumFees(s.entries)
  }

  /** `TestPackage`: the package fits, with strict comparisons, in the
      weight left (counting its virtual size four times) and the sigop
      budget. */
  function TestPackage(l: Limits, c: Config, s: BlockState, packageSize: nat, packageSigOps: nat): (ok: bool)
    ensures ok <==> s.weight + l.witnessScaleFactor * packageSize < c.maxWeight &&
                    s.sigOpsCost + packageSigOps < l.maxBlockSigOpsCost
    ensures ok ==> s.weight < c.maxWeight && s.sigOpsCost < l.maxBlockSigOpsCost
    ensures packageSize == 0 && packageSigOps == 0 ==>
              (ok <==> s.weight < c.maxWeight && s.sigOpsCost < l.maxBlockSigOpsCost)
  {
    s.weight + l.witnessScaleFactor * packageSize < c.maxWeight &&
    s.sigOpsCost + packageSigOps < l.maxBlockSigOpsCost
  }

  /** A package no larger, in virtual size and in sigops, than one that
      fits also fits. */
  lemma {:induction false} TestPackageIsAntitone(l: Limits, c: Config, s: BlockState,
                                                 size: nat, sigOps: nat, smaller: nat, fewer: nat)
    requires smaller <= size && fewer <= sigOps
    requires TestPackage(l, c, s, size, sigOps)
    ensures TestPackage(l, c, s, smaller, fewer)
  {
    MulMonotone(l.witnessScaleFactor, smaller, size);
  }

  /** `TestForBlock`: whether the entry fits, with the updated give-up
      bookkeeping. */
  function TestForBlock(l: Limits, c: Config, s: BlockState, e: Entry): (r: (bool, BlockState))
    requires l.Valid() && c.maxWeight >= 4000 && c.maxSize >= 1000
    ensures r.0 <==> && s.weight + e.weight < c.maxWeight
                     && (c.needSizeAccounting ==> s.size + e.size < c.maxSize)
                     && s.sigOpsCost + e.sigOpsCost < l.maxBlockSigOpsCost
                     && e.isFinal
    ensures r.0 ==> r.1 == s
    ensures SameContents(r.1, s)
    ensures s.lastFewTxs <= r.1.lastFewTxs <= s.lastFewTxs + 1
    ensures s.finished ==> r.1.finished
    ensures r.1.finished && !s.finished ==> r.1.lastFewTxs == s.lastFewTxs
  {
    if s.weight + e.weight >= c.maxWeight then
      if s.weight > c.maxWeight - 400 || s.lastFewTxs > 50 then (false, s.(finished := true))
      else if s.weight > c.maxWeight - 4000 then (false, s.(lastFewTxs := s.lastFewTxs + 1))
      else (false, s)
    else if c.needSizeAccounting && s.size + e.size >= c.maxSize then
      if s.size > c.maxSize - 100 || s.lastFewTxs > 50 then (false, s.(finished := true))
      else if s.size > c.maxSize - 1000 then (false, s.(lastFewTxs := s.lastFewTxs + 1))
      else (false, s)
    else if s.sigOpsCost + e.sigOpsCost >= l.maxBlockSigOpsCost then
      if s.sigOpsCost > l.maxBlockSigOpsCost - 8 then (false, s.(finished := true))
      else (false, s)
    else (e.isFinal, s)
  }

  /** Same totals and entries; only the give-up bookkeeping may differ. */
  predicate SameContents(a: BlockState, b: BlockState) {
    && a.weight == b.weight && a.size == b.size && a.sigOpsCost == b.sigOpsCost
    && a.txCount == b.txCount && a.fees == b.fees && a.entries == b.entries
  }

  /** The block is given up on only when it is nearly full in some
      resource, or after more than 50 near-miss entries. */
  lemma FinishedOnlyWhenNearlyFull(l: Limits, c: Config, s: BlockState, e: Entry)
    requires l.Valid() && c.maxWeight >= 4000 && c.maxSize >= 1000 && !s.finished
    ensures TestForBlock(l, c, s, e).1.finished ==>
              || s.weight > c.maxWeight - 400
              || (c.needSizeAccounting && s.size > c.maxSize - 100)
              || s.sigOpsCost > l.maxBlockSigOpsCost - 8
              || s.lastFewTxs > 50
  {
  }

  /** `AddToBlock`: record the entry and move every counter by its
      amounts. */
  function AddToBlock(c: Config, s: BlockState, e: Entry): (r: BlockState)
    ensures r.entries == s.entries + [e]
    ensures Accounted(s, c.needSizeAccounting) ==> Accounted(r, c.needSizeAccounting)
    ensures r.lastFewTxs == s.lastFewTxs && r.finished == s.finished
  {
    var es := s.entries + [e];
    assert es[..|es| - 1] == s.entries;
    BlockState(s.weight + e.weight,
               if c.needSizeAccounting then s.size + e.size else s.size,
               s.sigOpsCost + e.sigOpsCost, s.txCount + 1, s.fees + e.fee,
               es, s.lastFewTxs, s.finished)
  }

  /** The block stays within its limits: within them before, an entry
      `TestForBlock` accepts keeps it within them after `AddToBlock`. */
  predicate WithinLimits(l: Limits, c: Config, s: BlockState) {
    && s.weight < c.maxWeight
    && (c.needSizeAccounting ==> s.size < c.maxSize)
    && s.sigOpsCost < l.maxBlockSigOpsCost
  }

  lemma AddKeepsWithinLimits(l: Limits, c: Config, s: BlockState, e: Entry)
    requires l.Valid() && c.maxWeight >= 4000 && c.maxSize >= 1000
    requires TestForBlock(l, c, s, e).0
    ensures WithinLimits(l, c, AddToBlock(c, s, e))
  {
  }

  /** One offer keeps the totals equal to the sums over the entries added
      and the block within its limits. */
  lemma OfferKeepsInvariant(l: Limits, c: Config, s: BlockState, e: Entry)
    requires l.Valid() && c.maxWeight >= 4000 && c.maxSize >= 1000
    requires Accounted(s, c.needSizeAccounting) && WithinLimits(l, c, s)
    ensures Accounted(Offer(l, c, s, e), c.needSizeAccounting) && WithinLimits(l, c, Offer(l, c, s, e))
  {
    if TestForBlock(l, c, s, e).0 {
      AddKeepsWithinLimits(l, c, s, e);
    }
  }

  /** Offer one entry: add it when `TestForBlock` accepts it, else keep
      only the updated bookkeeping. */
  function Offer(l: Limits, c: Config, s: BlockState, e: Entry): (r: BlockState)
    requires l.Valid() && c.maxWeight >= 4000 && c.maxSize >= 1000
    ensures r.entries == s.entries || r.entries == s.entries + [e]
  {
    var t := TestForBlock(l, c, s, e);
    if t.0 then AddToBlock(c, t.1, e) else t.1
  }

  // ---------------------------------------------------------------------
  // UpdateTime

  datatype TimeUpdate = TimeUpdate(time: nat, delta: int)

  /** `UpdateTime`: move the header time (32 bits) up to the later of
      median-time-past + 1 and the adjusted clock, never down; report the
      difference between that target and the old time. */
  function UpdateTime(oldTime: nat, medianTimePast: int, adjustedTime: int): (r: TimeUpdate)
    requires oldTime < 0x1_0000_0000
    ensures var target := if medianTimePast + 1 >= adjustedTime then medianTimePast + 1 else adjustedTime;
            && r.delta == target - oldTime
            && (r.delta <= 0 ==> r.time == oldTime)
            && (0 < r.delta && target < 0x1_0000_0000 ==> r.time == target)
  {
    var newTime := if medianTimePast + 1 >= adjustedTime then medianTimePast + 1 else adjustedTime;
    TimeUpdate(if oldTime < newTime then newTime % 0x1_0000_0000 else oldTime, newTime - oldTime)
  }

  /** Within 32 bits the time never decreases and afterwards lies past the
      median time and not before the adjusted clock. */
  lemma UpdateTimeIsMonotone(oldTime: nat, medianTimePast: int, adjustedTime: int)
    requires oldTime < 0x1_0000_0000 && medianTimePast + 1 < 0x1_0000_0000 && adjustedTime < 0x1_0000_0000
    ensures var r := UpdateTime(oldTime, medianTimePast, adjustedTime);
            r.time >= oldTime && r.time > medianTimePast && r.time >= adjustedTime &&
            (r.time == oldTime <==> r.delta <= 0)
  {
  }
}
