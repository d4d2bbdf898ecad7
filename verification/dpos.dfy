/** Delegated proof of stake: time is cut into rounds ("loops") of
    `maxDelegates` slots of `interval` seconds each; slot `idx` of a round
    belongs to the delegate at position `idx` of that round's list. The
    first block of a round carries the list in its coinbase. */
module Dpos {
  import opened Wrappers
  import opened Transactions
  import opened Delegates
  import Irreversible
  import opened Arithmetic

  /** Chain parameters of the schedule (`nMaxDelegateNumber`,
      `nBlockIntervalTime`, `nDposStartHeight`, the super forger's key). */
  datatype DposParams = DposParams(maxDelegates: nat, interval: nat, startHeight: int, superForger: KeyId)
  {
    predicate Valid() {
      maxDelegates >= 1 && interval >= 1
    }
  }

  // ---------------------------------------------------------------------
  // Slot arithmetic

  /** `GetLoopIndex`: the round a time falls in, counted from `start`. */
  function GetLoopIndex(p: DposParams, start: nat, time: nat): (loop: nat)
    requires p.Valid()
    ensures time < start ==> loop == 0
  {
    if time < start then 0 else (time - start) / (p.maxDelegates * p.interval)
  }

  /** `GetDelegateIndex`: the slot within the round. */
  function GetDelegateIndex(p: DposParams, start: nat, time: nat): (idx: nat)
    requires p.Valid()
    ensures time < start ==> idx == 0
  {
    if time < start then 0 else (time - start) % (p.maxDelegates * p.interval) / p.interval
  }

  /** A time at or after the start lies in slot `idx < maxDelegates` of
      round `loop`, inside that slot's `interval` seconds. */
  lemma {:induction false} SlotBounds(p: DposParams, start: nat, time: nat)
    requires p.Valid() && time >= start
    ensures var loop := GetLoopIndex(p, start, time);
            var idx := GetDelegateIndex(p, start, time);
            var round := p.maxDelegates * p.interval;
            && idx < p.maxDelegates
            && loop * round + idx * p.interval <= time - start < loop * round + (idx + 1) * p.interval
  {
    var n := p.maxDelegates;
    var i := p.interval;
    var round := n * i;
    assert round >= 1 by { MulMonotone(i, 1, n); }
    var d := time - start;
    var loop := d / round;
    var rem := d % round;
    assert d == loop * round + rem;
    var idx := rem / i;
    DivBracket(rem, i);
    if idx >= n {
      MulMonotone(i, n, idx);
      assert false;
    }
  }

  /** Slots are ordered like times: a later time is in a later round, or in
      the same round at the same or a later slot. */
  lemma {:induction false} SlotOrderFollowsTime(p: DposParams, start: nat, t1: nat, t2: nat)
    requires p.Valid() && t1 <= t2
    ensures var l1, l2 := GetLoopIndex(p, start, t1), GetLoopIndex(p, start, t2);
            l1 < l2 || (l1 == l2 && GetDelegateIndex(p, start, t1) <= GetDelegateIndex(p, start, t2))
  {
    if t1 >= start {
      var round := p.maxDelegates * p.interval;
      assert round >= 1 by { MulMonotone(p.interval, 1, p.maxDelegates); }
      var d1, d2 := t1 - start, t2 - start;
      DivMonotone(d1, d2, round);
      if d1 / round == d2 / round {
        assert d1 % round == d1 - (d1 / round) * round;
        assert d2 % round == d2 - (d2 / round) * round;
        DivMonotone(d1 % round, d2 % round, p.interval);
      }
    }
  }

  // ---------------------------------------------------------------------
  // Blocks and the chain as the checks see them

  /** An output of the coinbase: the destination its script pays to, when
      `ExtractDestination` finds one, and its script as a sequence of
      elements. */
  datatype CoinbaseOut = CoinbaseOut(dest: Option<Destination>, script: OpScript)

  /** The parts of a block the schedule checks read. A null previous hash
      is 0. */
  datatype Block = Block(hash: Hash, prevHash: Hash, time: nat, coinbaseIsCoinBase: bool, coinbase: seq<CoinbaseOut>)

  const NullHash: Hash := 0

  /** Script pushes fit the 64-bit sizes the decoder computes with. */
  predicate Decodable(b: Block) {
    forall i, j :: 0 <= i < |b.coinbase| && 0 <= j < |b.coinbase[i].script| ==>
      |OpData(b.coinbase[i].script[j])| < 0x1_0000_0000_0000_0000
  }

  /** A block-index entry. */
  datatype IndexEntry = IndexEntry(height: int, time: nat)

  /** The node state and collaborators the checks consult:
      - `now`: the local clock (`time(NULL)`);
      - `index`: the block index by hash;
      - `activeHeight`, `anchorTime`: the active chain's height and the time
        of its block at `startHeight - 1`;
      - `tipHash`: the active tip;
      - `roundDelegates`: the delegate list `GetBlockDelegates` reads from
        the first block of the round of the given block, None on failure;
      - `nextDelegates`: `GetNextDelegates(t)`, the vote ledger's next list;
      - `verify`: the signature check of the key over the time;
      - `keyIdOf`: the key id of a public key;
      - `sameChain`: `IsOnTheSameChain`. */
  datatype ChainView = ChainView(
    now: int,
    index: map<Hash, IndexEntry>,
    activeHeight: int,
    anchorTime: nat,
    tipHash: Hash,
    roundDelegates: Hash -> Option<seq<Delegate>>,
    nextDelegates: nat -> seq<Delegate>,
    verify: (seq<bv8>, seq<bv8>, nat) -> bool,
    keyIdOf: seq<bv8> -> KeyId,
    sameChain: (int, Hash, int, Hash) -> bool)

  /** `CheckCoinbase`: two outputs, the first paying to a destination, the
      second a payload signed by the key of that destination. */
  function CheckCoinbase(b: Block, chain: ChainView): (ok: bool)
    requires Decodable(b)
    ensures ok ==> |b.coinbase| == 2 && b.coinbase[0].dest.Some?
    ensures |b.coinbase| == 2 && b.coinbase[0].dest.Some? ==>
              var s := b.coinbase[1].script;
              (ok <==> (s != [] && s[0] == OpReturn ==>
                          && |s| >= 3
                          && chain.verify(OpData(s[1]), OpData(s[2]), b.time)
                          && b.coinbase[0].dest.value == KeyDest(chain.keyIdOf(OpData(s[1])))))
  {
    |b.coinbase| == 2 && b.coinbase[0].dest.Some? &&
    ScriptToDelegateInfo(b.coinbase[1].script, true, b.coinbase[0].dest,
                         (pk, sig) => chain.verify(pk, sig, b.time), chain.keyIdOf).ok
  }

  /** A coinbase whose second output is the script the producer builds
      passes exactly when the signature verifies and the first output pays
      the signing key. */
  lemma SignedCoinbaseCheck(b: Block, chain: ChainView, delegates: seq<Delegate>, pubkey: seq<bv8>, sig: seq<bv8>)
    requires Decodable(b) && |b.coinbase| == 2
    requires b.coinbase[1].script == DelegateInfoToScript(delegates, pubkey, sig)
    ensures CheckCoinbase(b, chain) <==>
              chain.verify(pubkey, sig, b.time) && b.coinbase[0].dest == Some(KeyDest(chain.keyIdOf(pubkey)))
  {
  }

  /** A second output that does not start with `OP_RETURN` carries no
      signature, and the check passes whatever the first output pays. */
  lemma UnsignedCoinbasePasses(b: Block, chain: ChainView)
    requires Decodable(b) && |b.coinbase| == 2 && b.coinbase[0].dest.Some?
    requires b.coinbase[1].script == [] || b.coinbase[1].script[0] != OpReturn
    ensures CheckCoinbase(b, chain)
  {
  }

  /** `GetBlockDelegate`: the delegate list in the block's coinbase. */
  function GetBlockDelegate(b: Block, chain: ChainView): (r: Decoded)
    requires Decodable(b)
    ensures !r.ok ==> r.delegates == []
  {
    if b.coinbaseIsCoinBase && |b.coinbase| == 2 then
      ScriptToDelegateInfo(b.coinbase[1].script, false, None,
                           (pk, sig) => chain.verify(pk, sig, b.time), chain.keyIdOf)
    else Decoded(false, [])
  }

  /** `GetBlockForgerAddress`: the coinbase's first destination. */
  function ForgerAddress(b: Block): Option<Destination> {
    if b.coinbaseIsCoinBase && |b.coinbase| == 2 then b.coinbase[0].dest else None
  }

  /** `GetBlockForgerKeyID` into a default key: the forger's key id, or
      the null key when the forger is not paid to a key. */
  function ForgerKey(b: Block): (k: KeyId)
    ensures ForgerAddress(b).Some? && ForgerAddress(b).value.KeyDest? ==> k == ForgerAddress(b).value.keyid
  {
    match ForgerAddress(b)
    case Some(KeyDest(k)) => k
    case _ => NullKey
  }

  /** The two readings of `CheckBlockDelegate`. */
  datatype DelegateCheck = AsWritten | Corrected

  /** `CheckBlockDelegate` as written: a block whose list has a different
      length from the expected one passes without comparison. */
  function CheckBlockDelegateAsWritten(b: Block, chain: ChainView): (ok: bool)
    requires Decodable(b)
    ensures ok <==> GetBlockDelegate(b, chain).ok &&
                    (|GetBlockDelegate(b, chain).delegates| != |chain.nextDelegates(b.time)| ||
                     KeyIds(GetBlockDelegate(b, chain).delegates) == KeyIds(chain.nextDelegates(b.time)))
  {
    var d := GetBlockDelegate(b, chain);
    var next := chain.nextDelegates(b.time);
    d.ok && (|d.delegates| != |next| ||
             forall i :: 0 <= i < |d.delegates| ==> d.delegates[i].keyid == next[i].keyid)
  }

  /** `CheckBlockDelegate` as intended: the block's list is the expected
      list, key for key. */
  function CheckBlockDelegateCorrected(b: Block, chain: ChainView): (ok: bool)
    requires Decodable(b)
    ensures ok ==> KeyIds(GetBlockDelegate(b, chain).delegates) == KeyIds(chain.nextDelegates(b.time))
    ensures ok ==> CheckBlockDelegateAsWritten(b, chain)
  {
    var d := GetBlockDelegate(b, chain);
    d.ok && KeyIds(d.delegates) == KeyIds(chain.nextDelegates(b.time))
  }

  function CheckBlockDelegate(which: DelegateCheck, b: Block, chain: ChainView): bool
    requires Decodable(b)
  {
    if which == AsWritten then CheckBlockDelegateAsWritten(b, chain) else CheckBlockDelegateCorrected(b, chain)
  }

  /** The outcome of `CheckBlock`, with the state it updates: the round
      start time and the irreversible-block tracker. */
  datatype BlockVerdict = BlockVerdict(accepted: bool, startTime: nat, tracker: Irreversible.Tracker)

  /** The start time once the active chain reaches the block before the
      start height, if it was not known yet. */
  function StartTimeFor(p: DposParams, chain: ChainView, startTime: nat): (s: nat)
    ensures startTime != 0 ==> s == startTime
  {
    if startTime == 0 && chain.activeHeight >= p.startHeight - 1 then chain.anchorTime else startTime
  }

  /** `CheckBlock`, with the delegate-list check chosen by `which`. */
  function CheckBlockWith(which: DelegateCheck, p: DposParams, tp: Irreversible.TrackerParams,
                          chain: ChainView, startTime: nat, tracker: Irreversible.Tracker,
                          b: Block, checkDelegates: bool): (v: BlockVerdict)
    requires p.Valid() && tp.Valid() && Irreversible.ValidTracker(tp, tracker) && Decodable(b)
    ensures b.time > chain.now + 3 ==> !v.accepted && v.tracker == tracker
    ensures v.tracker != tracker ==>
              && checkDelegates && CheckBlockDelegate(which, b, chain)
              && b.prevHash in chain.index && chain.index[b.prevHash].height + 1 > p.startHeight
  {
    if b.time > chain.now + 3 then BlockVerdict(false, startTime, tracker)
    else if b.prevHash == NullHash then BlockVerdict(true, startTime, tracker)
    else if b.prevHash !in chain.index then BlockVerdict(false, startTime, tracker)
    else if !CheckCoinbase(b, chain) then BlockVerdict(false, startTime, tracker)
    else
      var prev := chain.index[b.prevHash];
      var height := prev.height + 1;
      var start := StartTimeFor(p, chain, startTime);
      if height < p.startHeight then
        BlockVerdict(ForgerAddress(b) == Some(KeyDest(p.superForger)), start, tracker)
      else
        var loop, idx := GetLoopIndex(p, start, b.time), GetDelegateIndex(p, start, b.time);
        var prevLoop, prevIdx := GetLoopIndex(p, start, prev.time), GetDelegateIndex(p, start, prev.time);
        if height == p.startHeight && checkDelegates && !CheckBlockDelegate(which, b, chain) then
          BlockVerdict(false, start, tracker)
        else if height != p.startHeight && loop < prevLoop then
          BlockVerdict(false, start, tracker)
        else if height != p.startHeight && loop > prevLoop && checkDelegates && !CheckBlockDelegate(which, b, chain) then
          BlockVerdict(false, start, tracker)
        else if height != p.startHeight && loop == prevLoop && idx <= prevIdx then
          BlockVerdict(false, start, tracker)
        else
          var list := if height == p.startHeight || loop > prevLoop then GetBlockDelegate(b, chain).delegates
                      else if chain.roundDelegates(b.prevHash).Some? then chain.roundDelegates(b.prevHash).value
                      else [];
          var accepted := idx < |list| && list[idx].keyid == ForgerKey(b);
          var tracker' := if height != p.startHeight && loop > prevLoop && checkDelegates
                          then Irreversible.ProcessIrreversibleBlock(tp, tracker, height, b.hash, chain.sameChain)
                          else tracker;
          BlockVerdict(accepted, start, tracker')
  }

  /** `CheckBlock` as the source has it, with the length-guarded delegate
      check. The slot and forger rules it enforces are `CheckBlockRules`. */
  function CheckBlock(p: DposParams, tp: Irreversible.TrackerParams, chain: ChainView, startTime: nat,
                      tracker: Irreversible.Tracker, b: Block, checkDelegates: bool): (v: BlockVerdict)
    requires p.Valid() && tp.Valid() && Irreversible.ValidTracker(tp, tracker) && Decodable(b)
    ensures b.time > chain.now + 3 ==> !v.accepted && v.tracker == tracker
    ensures b.time <= chain.now + 3 && b.prevHash == NullHash ==> v.accepted && v.tracker == tracker
    ensures b.time <= chain.now + 3 && b.prevHash != NullHash &&
              (b.prevHash !in chain.index || !CheckCoinbase(b, chain)) ==>
              !v.accepted && v.tracker == tracker
    ensures v.tracker != tracker ==>
              && checkDelegates && CheckBlockDelegateAsWritten(b, chain)
              && b.prevHash in chain.index && chain.index[b.prevHash].height + 1 > p.startHeight
  {
    CheckBlockWith(AsWritten, p, tp, chain, startTime, tracker, b, checkDelegates)
  }

  /** `CheckBlock` with the delegate check as intended: it accepts only
      blocks the source accepts too, and decides them the same way. */
  function CheckBlockIntended(p: DposParams, tp: Irreversible.TrackerParams, chain: ChainView, startTime: nat,
                              tracker: Irreversible.Tracker, b: Block, checkDelegates: bool): (v: BlockVerdict)
    requires p.Valid() && tp.Valid() && Irreversible.ValidTracker(tp, tracker) && Decodable(b)
    ensures b.time > chain.now + 3 ==> !v.accepted && v.tracker == tracker
    ensures v.accepted ==> v == CheckBlock(p, tp, chain, startTime, tracker, b, checkDelegates)
  {
    CheckBlockWith(Corrected, p, tp, chain, startTime, tracker, b, checkDelegates)
  }

  /** The slot and forger rules `CheckBlock` enforces on a block with a
      known predecessor, a valid coinbase and a time not in the future. */
  lemma CheckBlockRules(which: DelegateCheck, p: DposParams, tp: Irreversible.TrackerParams,
                        chain: ChainView, startTime: nat, tracker: Irreversible.Tracker,
                        b: Block, checkDelegates: bool)
    requires p.Valid() && tp.Valid() && Irreversible.ValidTracker(tp, tracker) && Decodable(b)
    requires b.time <= chain.now + 3 && b.prevHash != NullHash && b.prevHash in chain.index
    requires CheckCoinbase(b, chain)
    ensures var v := CheckBlockWith(which, p, tp, chain, startTime, tracker, b, checkDelegates);
            var prev := chain.index[b.prevHash];
            var height := prev.height + 1;
            var start := StartTimeFor(p, chain, startTime);
            var loop, idx := GetLoopIndex(p, start, b.time), GetDelegateIndex(p, start, b.time);
            var prevLoop, prevIdx := GetLoopIndex(p, start, prev.time), GetDelegateIndex(p, start, prev.time);
            && v.startTime == start
            && (height < p.startHeight ==> (v.accepted <==> ForgerAddress(b) == Some(KeyDest(p.superForger))))
            && (height > p.startHeight && (loop < prevLoop || (loop == prevLoop && idx <= prevIdx)) ==> !v.accepted)
            && (height > p.startHeight && loop == prevLoop && v.accepted ==>
                  chain.roundDelegates(b.prevHash).Some? &&
                  idx < |chain.roundDelegates(b.prevHash).value| &&
                  chain.roundDelegates(b.prevHash).value[idx].keyid == ForgerKey(b))
            && (height >= p.startHeight && (height == p.startHeight || loop > prevLoop) && v.accepted ==>
                  idx < |GetBlockDelegate(b, chain).delegates| &&
                  GetBlockDelegate(b, chain).delegates[idx].keyid == ForgerKey(b))
  {
  }

  /** With the intended check, a block that opens a round and passes the
      delegate check is forged by the delegate the expected list puts in
      its slot. */
  lemma CorrectedForgerIsScheduled(p: DposParams, tp: Irreversible.TrackerParams,
                                   chain: ChainView, startTime: nat, tracker: Irreversible.Tracker, b: Block)
    requires p.Valid() && tp.Valid() && Irreversible.ValidTracker(tp, tracker) && Decodable(b)
    requires b.prevHash != NullHash && b.prevHash in chain.index
    requires chain.index[b.prevHash].height + 1 > p.startHeight
    requires var start := StartTimeFor(p, chain, startTime);
             GetLoopIndex(p, start, b.time) > GetLoopIndex(p, start, chain.index[b.prevHash].time)
    ensures var v := CheckBlockIntended(p, tp, chain, startTime, tracker, b, true);
            var idx := GetDelegateIndex(p, StartTimeFor(p, chain, startTime), b.time);
            v.accepted ==> idx < |chain.nextDelegates(b.time)| && chain.nextDelegates(b.time)[idx].keyid == ForgerKey(b)
  {
    var v := CheckBlockIntended(p, tp, chain, startTime, tracker, b, true);
    if v.accepted {
      var ds := GetBlockDelegate(b, chain).delegates;
      var next := chain.nextDelegates(b.time);
      var idx := GetDelegateIndex(p, StartTimeFor(p, chain, startTime), b.time);
      assert KeyIds(ds) == KeyIds(next);
      assert |ds| == |next|;
      assert ds[idx].keyid == KeyIds(ds)[idx];
    }
  }

  // ---------------------------------------------------------------------
  // The as-written delegate check lets any key open a round

  const KeyA: KeyId := [1, 1, 1, 1, 1, 1, 1, 1, 1, 1, 1, 1, 1, 1, 1, 1, 1, 1, 1, 1]
  const KeyB: KeyId := [2, 2, 2, 2, 2, 2, 2, 2, 2, 2, 2, 2, 2, 2, 2, 2, 2, 2, 2, 2]

  /** Rounds of two 3-second slots from time 1, past the start height; the
      vote ledger expects `KeyB` twice, but the block, forged by `KeyA`,
      names only `KeyA`. */
  function ExampleParams(): DposParams { DposParams(2, 3, 1, KeyB) }

  function ExampleChain(): ChainView {
    ChainView(100, map[5 := IndexEntry(1, 1)], 1, 1, 5,
              h => None, t => [Delegate(KeyB, 0), Delegate(KeyB, 0)],
              (pk, sig, t) => true, pk => KeyA, (h1, x1, h2, x2) => false)
  }

  function ExampleBlock(): Block {
    Block(6, 5, 7, true,
          [CoinbaseOut(Some(KeyDest(KeyA)), []),
           CoinbaseOut(None, [OpReturn, Push([]), Push([]), Push([7 as bv8] + KeyA)])])
  }

  function ExampleTrackerParams(): Irreversible.TrackerParams {
    Irreversible.TrackerParams(false, 1, 0, 0, 1, 2)
  }

  function ExampleTracker(): Irreversible.Tracker { Irreversible.Tracker([-1], [0], map[]) }

  lemma ExampleDecodes()
    ensures Decodable(ExampleBlock())
    ensures GetBlockDelegate(ExampleBlock(), ExampleChain()).ok
    ensures KeyIds(GetBlockDelegate(ExampleBlock(), ExampleChain()).delegates) == [KeyA]
    ensures CheckCoinbase(ExampleBlock(), ExampleChain())
  {
    var b := ExampleBlock();
    assert [7 as bv8] + KeyA == [7 as bv8] + Flatten([KeyA]) by {
      assert Flatten([KeyA]) == KeyA + Flatten([]);
    }
    PayloadDecodesToIds(7, [KeyA]);
  }

  /** The as-written check accepts the block opening round 1 although its
      forger is not the expected delegate for the slot; the intended check
      rejects it. */
  lemma AsWrittenAcceptsUnscheduledForger()
    ensures var p, tp, chain, b := ExampleParams(), ExampleTrackerParams(), ExampleChain(), ExampleBlock();
            Decodable(b) &&
            var idx := GetDelegateIndex(p, 1, b.time);
            && CheckBlock(p, tp, chain, 1, ExampleTracker(), b, true).accepted
            && !CheckBlockIntended(p, tp, chain, 1, ExampleTracker(), b, true).accepted
            && chain.nextDelegates(b.time)[idx].keyid != ForgerKey(b)
  {
    var p, tp, chain, b := ExampleParams(), ExampleTrackerParams(), ExampleChain(), ExampleBlock();
    ExampleDecodes();
    assert GetLoopIndex(p, 1, 7) == 1 && GetDelegateIndex(p, 1, 7) == 0;
    assert GetLoopIndex(p, 1, 1) == 0;
    assert KeyA != KeyB by { assert KeyA[0] != KeyB[0]; }
    var ds := GetBlockDelegate(b, chain).delegates;
    assert |ds| == 1 && ds[0].keyid == KeyA by {
      assert KeyIds(ds)[0] == ds[0].keyid;
    }
    assert KeyIds(ds) != KeyIds(chain.nextDelegates(b.time)) by {
      assert |KeyIds(ds)| == 1;
    }
  }

  // ---------------------------------------------------------------------
  // IsMining

  /** The decision of `IsMining`, with the delegate list it filled in when
      it fetched the next round's list, and the rate-limit time kept in a
      function-local static before the start height. */
  datatype MiningDecision = MiningDecision(mine: bool, nextList: Option<seq<Delegate>>, lastTime: int)

  /** `IsMining`: whether `addr` may forge a block at time `t` on the
      active tip `tip`. */
  function IsMining(p: DposParams, chain: ChainView, startTime: nat, lastTime: int,
                    tip: IndexEntry, addr: Destination, t: nat): (d: MiningDecision)
    requires p.Valid()
    ensures tip.height < p.startHeight - 1 ==>
              (d.mine <==> addr == KeyDest(p.superForger) && t >= lastTime + p.interval)
    ensures d.lastTime == (if tip.height < p.startHeight - 1 && d.mine then t else lastTime)
    ensures d.mine && tip.height >= p.startHeight - 1 ==> addr.KeyDest?
  {
    if tip.height < p.startHeight - 1 then
      if addr == KeyDest(p.superForger) then
        if t < lastTime + p.interval then MiningDecision(false, None, lastTime)
        else MiningDecision(true, None, t)
      else MiningDecision(false, None, lastTime)
    else
      var loop, idx := GetLoopIndex(p, startTime, t), GetDelegateIndex(p, startTime, t);
      var prevLoop, prevIdx := GetLoopIndex(p, startTime, tip.time), GetDelegateIndex(p, startTime, tip.time);
      if !addr.KeyDest? then MiningDecision(false, None, lastTime)
      else if tip.height == p.startHeight - 1 || loop > prevLoop then
        var next := chain.nextDelegates(t);
        MiningDecision(idx < |next| && next[idx].keyid == addr.keyid, Some(next), lastTime)
      else if loop == prevLoop && idx > prevIdx then
        var list := chain.roundDelegates(chain.tipHash);
        MiningDecision(list.Some? && idx < |list.value| && list.value[idx].keyid == addr.keyid, None, lastTime)
      else MiningDecision(false, None, lastTime)
  }

  /** Past the start height, `IsMining` only forges in a slot after the
      tip's, and only when the list for the round names the key there. */
  lemma IsMiningFollowsSchedule(p: DposParams, chain: ChainView, startTime: nat, lastTime: int,
                                tip: IndexEntry, addr: Destination, t: nat)
    requires p.Valid() && tip.height > p.startHeight - 1
    ensures var d := IsMining(p, chain, startTime, lastTime, tip, addr, t);
            var loop, idx := GetLoopIndex(p, startTime, t), GetDelegateIndex(p, startTime, t);
            var prevLoop, prevIdx := GetLoopIndex(p, startTime, tip.time), GetDelegateIndex(p, startTime, tip.time);
            d.mine ==> && addr.KeyDest?
                       && (loop > prevLoop || (loop == prevLoop && idx > prevIdx))
                       && (loop > prevLoop ==> idx < |chain.nextDelegates(t)| &&
                                               chain.nextDelegates(t)[idx].keyid == addr.keyid)
                       && (loop == prevLoop ==> chain.roundDelegates(chain.tipHash).Some? &&
                                                idx < |chain.roundDelegates(chain.tipHash).value| &&
                                                chain.roundDelegates(chain.tipHash).value[idx].keyid == addr.keyid)
  {
  }

  /** Before the start height the super forger is rate-limited: two
      successive positive decisions are at least one interval apart. */
  lemma SuperForgerIsRateLimited(p: DposParams, chain: ChainView, startTime: nat, lastTime: int,
                                 tip: IndexEntry, addr: Destination, t1: nat, t2: nat)
    requires p.Valid() && tip.height < p.startHeight - 1
    ensures var d1 := IsMining(p, chain, startTime, lastTime, tip, addr, t1);
            var d2 := IsMining(p, chain, startTime, d1.lastTime, tip, addr, t2);
            d1.mine && d2.mine ==> t2 >= t1 + p.interval
  {
  }

  /** The producer and the checker agree within a round: when `IsMining`
      lets a key forge at `t` on the tip, a block by that key at `t` on the
      tip, with a valid coinbase, passes `CheckBlock` once the clock has
      reached `t - 3`, given the same round list and start time; this holds
      for both readings of the delegate check. */
  lemma MinedBlockPassesCheck(p: DposParams, tp: Irreversible.TrackerParams, chain: ChainView,
                              startTime: nat, lastTime: int, tracker: Irreversible.Tracker,
                              addr: Destination, b: Block, checkDelegates: bool)
    requires p.Valid() && tp.Valid() && Irreversible.ValidTracker(tp, tracker) && Decodable(b)
    requires startTime != 0
    requires b.prevHash == chain.tipHash && b.prevHash != NullHash && b.prevHash in chain.index
    requires chain.index[b.prevHash].height > p.startHeight - 1
    requires b.time <= chain.now + 3 && CheckCoinbase(b, chain)
    requires ForgerAddress(b) == Some(addr)
    requires GetLoopIndex(p, startTime, b.time) == GetLoopIndex(p, startTime, chain.index[b.prevHash].time)
    requires IsMining(p, chain, startTime, lastTime, chain.index[b.prevHash], addr, b.time).mine
    ensures CheckBlock(p, tp, chain, startTime, tracker, b, checkDelegates).accepted
    ensures CheckBlockIntended(p, tp, chain, startTime, tracker, b, checkDelegates).accepted
  {
  }
}
