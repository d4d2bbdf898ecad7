/** Delegate lists of the delegated-proof-of-stake schedule: the shuffle that
    orders a round's delegates, the list for the next round, and the
    delegate-id payload a round's first block carries in its coinbase. */
module Delegates {
  import opened Wrappers

  /** A 160-bit key id (`CKeyID`), as its 20 bytes. */
  type KeyId = k: seq<bv8> | |k| == 20
    witness [0, 0, 0, 0, 0, 0, 0, 0, 0, 0, 0, 0, 0, 0, 0, 0, 0, 0, 0, 0]

  /** The all-zero key id of a default-constructed `CKeyID`. */
  const NullKey: KeyId := [0, 0, 0, 0, 0, 0, 0, 0, 0, 0, 0, 0, 0, 0, 0, 0, 0, 0, 0, 0]

  datatype Delegate = Delegate(keyid: KeyId, votes: nat)

  // ---------------------------------------------------------------------
  // GetRand / SortDelegate

  /** Storing an index into a (signed) `char`: values from 128 on wrap. */
  function AsChar(v: nat): (c: int)
    ensures -128 <= c < 128
    ensures v < 128 ==> c == v
  {
    if v % 256 < 128 then v % 256 else v % 256 - 256
  }

  /** The draw loop of `GetRand`: each draw, reduced modulo `num`, is kept
      the first time it appears, until `num` values are kept. `draws` stands
      for the `rand_r` stream; running out of draws yields None. */
  function DrawLoop(num: nat, draws: seq<nat>, taken: seq<bool>, r: seq<int>): Option<seq<int>>
    requires |taken| == num
    decreases |draws|
  {
    if |r| >= num then Some(r)
    else if draws == [] then None
    else
      var v := draws[0] % num;
      if !taken[v] then DrawLoop(num, draws[1..], taken[v := true], r + [AsChar(v)])
      else DrawLoop(num, draws[1..], taken, r)
  }

  /** `GetRand(num, seed)` with the seeded `rand_r` stream given as `draws`. */
  function GetRand(num: nat, draws: seq<nat>): Option<seq<int>> {
    DrawLoop(num, draws, seq(num, i => false), [])
  }

  /** A sequence of indices that lists every index below `n` exactly once. */
  predicate IsIndexPermutation(r: seq<int>, n: nat) {
    && |r| == n
    && (forall i :: 0 <= i < |r| ==> 0 <= r[i] < n)
    && (forall i, j :: 0 <= i < j < |r| ==> r[i] != r[j])
  }

  lemma {:induction false} DrawLoopIsPermutation(num: nat, draws: seq<nat>, taken: seq<bool>, r: seq<int>)
    requires num <= 128 && |taken| == num && |r| <= num
    requires forall v :: 0 <= v < num ==> (taken[v] <==> v in r)
    requires forall i :: 0 <= i < |r| ==> 0 <= r[i] < num
    requires forall i, j :: 0 <= i < j < |r| ==> r[i] != r[j]
    ensures DrawLoop(num, draws, taken, r).Some? ==> IsIndexPermutation(DrawLoop(num, draws, taken, r).value, num)
    decreases |draws|
  {
    if |r| >= num || draws == [] {
    } else {
      var v := draws[0] % num;
      if !taken[v] {
        var r' := r + [AsChar(v)];
        assert r'[|r|] == v;
        DrawLoopIsPermutation(num, draws[1..], taken[v := true], r');
      } else {
        DrawLoopIsPermutation(num, draws[1..], taken, r);
      }
    }
  }

  /** For `num` up to 128 (the indices are kept in `char`s), any result of
      `GetRand` lists each index below `num` exactly once. */
  lemma GetRandIsPermutation(num: nat, draws: seq<nat>)
    requires num <= 128
    ensures GetRand(num, draws).Some? ==> IsIndexPermutation(GetRand(num, draws).value, num)
  {
    DrawLoopIsPermutation(num, draws, seq(num, i => false), []);
  }

  /** The elements of `d` at the positions `r`, in that order. */
  function Pick<T>(d: seq<T>, r: seq<int>): (p: seq<T>)
    requires forall i :: 0 <= i < |r| ==> 0 <= r[i] < |d|
    ensures |p| == |r| && forall i :: 0 <= i < |r| ==> p[i] == d[r[i]]
  {
    seq(|r|, i requires 0 <= i < |r| => d[r[i]])
  }

  /** `SortDelegate`: the delegates reordered by the shuffle `GetRand`
      produces for the seed. */
  function SortDelegate(delegates: seq<Delegate>, draws: seq<nat>): (r: Option<seq<Delegate>>)
    requires |delegates| <= 128
    ensures r.Some? ==> |r.value| == |delegates|
    ensures r.Some? <==> GetRand(|delegates|, draws).Some?
  {
    var order :- GetRand(|delegates|, draws);
    GetRandIsPermutation(|delegates|, draws);
    Some(Pick(delegates, order))
  }

  // ---------------------------------------------------------------------
  // Permutation argument

  /** A list of distinct values all below `m` has at most `m` entries. */
  lemma {:induction false} DistinctBelowIsShort(r: seq<int>, m: nat)
    requires forall i :: 0 <= i < |r| ==> 0 <= r[i] < m
    requires forall i, j :: 0 <= i < j < |r| ==> r[i] != r[j]
    ensures |r| <= m
    decreases m
  {
    if r != [] {
      assert r[0] < m;
      if j :| 0 <= j < |r| && r[j] == m - 1 {
        var r' := r[..j] + r[j + 1..];
        assert forall i :: 0 <= i < |r'| ==> r'[i] == (if i < j then r[i] else r[i + 1]);
        DistinctBelowIsShort(r', m - 1);
      } else {
        DistinctBelowIsShort(r, m - 1);
      }
    }
  }

  lemma PickAppend<T>(d: seq<T>, a: seq<int>, b: seq<int>)
    requires forall i :: 0 <= i < |a| ==> 0 <= a[i] < |d|
    requires forall i :: 0 <= i < |b| ==> 0 <= b[i] < |d|
    ensures multiset(Pick(d, a + b)) == multiset(Pick(d, a)) + multiset(Pick(d, b))
  {
    assert Pick(d, a + b) == Pick(d, a) + Pick(d, b);
  }

  /** Indices that stay below `|d| - 1` pick the same from `d` and from `d`
      without its last element. */
  lemma PickFromPrefix<T>(d: seq<T>, a: seq<int>)
    requires |d| > 0
    requires forall i :: 0 <= i < |a| ==> 0 <= a[i] < |d| - 1
    ensures Pick(d, a) == Pick(d[..|d| - 1], a)
  {
  }

  /** The position of the largest index in an index permutation. */
  lemma FindLargest(r: seq<int>, n: nat) returns (j: nat)
    requires n > 0 && IsIndexPermutation(r, n)
    ensures j < |r| && r[j] == n - 1
  {
    if k :| 0 <= k < |r| && r[k] == n - 1 {
      j := k;
    } else {
      DistinctBelowIsShort(r, n - 1);
      assert false;
    }
  }

  /** Removing the largest index leaves an index permutation of the rest. */
  lemma RemoveLargest(r: seq<int>, n: nat, j: nat)
    requires n > 0 && IsIndexPermutation(r, n) && j < |r| && r[j] == n - 1
    ensures IsIndexPermutation(r[..j] + r[j + 1..], n - 1)
    ensures forall i :: 0 <= i < |r| && i != j ==> 0 <= r[i] < n - 1
  {
    var r' := r[..j] + r[j + 1..];
    assert forall i :: 0 <= i < |r'| ==> r'[i] == (if i < j then r[i] else r[i + 1]);
  }

  /** Picking around the last position: the picks of the other indices come
      from `d` without its last element. */
  lemma PickAroundLast<T>(d: seq<T>, a: seq<int>, b: seq<int>)
    requires |d| > 0
    requires forall i :: 0 <= i < |a| ==> 0 <= a[i] < |d| - 1
    requires forall i :: 0 <= i < |b| ==> 0 <= b[i] < |d| - 1
    ensures multiset(Pick(d, a + [|d| - 1] + b)) == multiset(Pick(d[..|d| - 1], a + b)) + multiset{d[|d| - 1]}
  {
    var n := |d|;
    assert multiset(Pick(d, a + [n - 1] + b)) == multiset(Pick(d, a)) + multiset{d[n - 1]} + multiset(Pick(d, b)) by {
      PickAppend(d, a + [n - 1], b);
      PickAppend(d, a, [n - 1]);
      assert Pick(d, [n - 1]) == [d[n - 1]];
    }
    PickFromPrefix(d, a);
    PickFromPrefix(d, b);
    PickAppend(d[..n - 1], a, b);
  }

  /** Picking by `r` is picking the last element once and the rest by `r`
      without its largest index. */
  lemma PickAroundLargest<T>(d: seq<T>, r: seq<int>, j: nat)
    requires |d| > 0 && IsIndexPermutation(r, |d|) && j < |r| && r[j] == |d| - 1
    ensures multiset(Pick(d, r)) == multiset(Pick(d[..|d| - 1], r[..j] + r[j + 1..])) + multiset{d[|d| - 1]}
  {
    var n := |d|;
    RemoveLargest(r, n, j);
    var a, b := r[..j], r[j + 1..];
    assert forall i :: 0 <= i < |a| ==> a[i] == r[i];
    assert forall i :: 0 <= i < |b| ==> b[i] == r[j + 1 + i];
    assert r == a + [n - 1] + b;
    PickAroundLast(d, a, b);
  }

  /** Picking by an index permutation keeps the multiset of elements. */
  lemma {:induction false} PickPermutation<T>(d: seq<T>, r: seq<int>)
    requires IsIndexPermutation(r, |d|)
    ensures multiset(Pick(d, r)) == multiset(d)
    decreases |d|
  {
    if |d| > 0 {
      var n := |d|;
      var j := FindLargest(r, n);
      RemoveLargest(r, n, j);
      PickAroundLargest(d, r, j);
      PickPermutation(d[..n - 1], r[..j] + r[j + 1..]);
      assert d == d[..n - 1] + [d[n - 1]];
    }
  }

  /** `SortDelegate` returns a permutation of its input. */
  lemma SortDelegateIsPermutation(delegates: seq<Delegate>, draws: seq<nat>)
    requires |delegates| <= 128
    ensures SortDelegate(delegates, draws).Some? ==>
              multiset(SortDelegate(delegates, draws).value) == multiset(delegates)
  {
    GetRandIsPermutation(|delegates|, draws);
    if GetRand(|delegates|, draws).Some? {
      PickPermutation(delegates, GetRand(|delegates|, draws).value);
    }
  }

  // ---------------------------------------------------------------------
  // GetNextDelegates

  /** `std::vector::resize`: truncate, or pad with default delegates. */
  function Resize(list: seq<Delegate>, n: nat): (r: seq<Delegate>)
    ensures |r| == n
    ensures forall i :: 0 <= i < n && i < |list| ==> r[i] == list[i]
    ensures forall i :: |list| <= i < n ==> r[i] == Delegate(NullKey, 0)
  {
    if |list| >= n then list[..n] else list + seq(n - |list|, i => Delegate(NullKey, 0))
  }

  /** `GetNextDelegates`: the super forger (with 7 votes) in front of the
      vote ledger's top delegates, resized to `maxDelegates` and shuffled for
      the round's time. `top` is what the vote ledger returns. */
  function GetNextDelegates(top: seq<Delegate>, superForger: KeyId, maxDelegates: nat, draws: seq<nat>): (r: Option<seq<Delegate>>)
    requires maxDelegates <= 128
    ensures r.Some? ==> |r.value| == maxDelegates
    ensures r.Some? ==> multiset(r.value) == multiset(Resize([Delegate(superForger, 7)] + top, maxDelegates))
  {
    var resized := Resize([Delegate(superForger, 7)] + top, maxDelegates);
    SortDelegateIsPermutation(resized, draws);
    SortDelegate(resized, draws)
  }

  /** With room for at least one delegate, the super forger is in every
      next-round list. */
  lemma SuperForgerIsScheduled(top: seq<Delegate>, superForger: KeyId, maxDelegates: nat, draws: seq<nat>)
    requires 1 <= maxDelegates <= 128
    ensures var r := GetNextDelegates(top, superForger, maxDelegates, draws);
            r.Some? ==> exists i :: 0 <= i < |r.value| && r.value[i].keyid == superForger
  {
    var r := GetNextDelegates(top, superForger, maxDelegates, draws);
    if r.Some? {
      var resized := Resize([Delegate(superForger, 7)] + top, maxDelegates);
      assert resized[0] == Delegate(superForger, 7);
      assert Delegate(superForger, 7) in multiset(resized);
      assert Delegate(superForger, 7) in multiset(r.value);
      var i :| 0 <= i < |r.value| && r.value[i] == Delegate(superForger, 7);
    }
  }

  // ---------------------------------------------------------------------
  // Delegate-id payload

  /** Script elements as `GetOp` reads them: `OP_RETURN`, a data push, or
      another opcode (which reads as an empty push). */
  datatype ScriptOp = OpReturn | Push(data: seq<bv8>) | OtherOp(code: bv8)

  type OpScript = seq<ScriptOp>

  /** The data `GetOp2` returns for an element. */
  function OpData(op: ScriptOp): seq<bv8> {
    if op.Push? then op.data else []
  }

  /** A payment destination as `ExtractDestination` gives it. */
  datatype Destination = KeyDest(keyid: KeyId) | OtherDest(id: nat)

  /** The key ids, 20 bytes each, one after another. */
  function Flatten(ids: seq<KeyId>): (b: seq<bv8>)
    ensures |b| == 20 * |ids|
  {
    if ids == [] then [] else ids[0] + Flatten(ids[1..])
  }

  /** Cut `data` into consecutive 20-byte key ids. */
  function Chunks(data: seq<bv8>): (ids: seq<KeyId>)
    requires |data| % 20 == 0
    ensures |ids| == |data| / 20
    decreases |data|
  {
    if data == [] then [] else [data[..20]] + Chunks(data[20..])
  }

  lemma {:induction false} ChunksFlatten(ids: seq<KeyId>)
    ensures Chunks(Flatten(ids)) == ids
  {
    if ids != [] {
      var b := Flatten(ids);
      assert b[..20] == ids[0];
      assert b[20..] == Flatten(ids[1..]);
      ChunksFlatten(ids[1..]);
    }
  }

  /** The payload of a non-empty list: tag 0x07 then the key ids. */
  function DelegateData(delegates: seq<Delegate>): seq<bv8> {
    [7 as bv8] + Flatten(KeyIds(delegates))
  }

  function KeyIds(delegates: seq<Delegate>): (ids: seq<KeyId>)
    ensures |ids| == |delegates| && forall i :: 0 <= i < |delegates| ==> ids[i] == delegates[i].keyid
  {
    seq(|delegates|, i requires 0 <= i < |delegates| => delegates[i].keyid)
  }

  /** `DelegateInfoToScript`: `OP_RETURN <pubkey> <signature of t>`, followed
      by the delegate payload when the list is not empty. The key and the
      signature are given. */
  function DelegateInfoToScript(delegates: seq<Delegate>, pubkey: seq<bv8>, sig: seq<bv8>): (s: OpScript)
    ensures |s| == if delegates == [] then 3 else 4
    ensures s[..3] == [OpReturn, Push(pubkey), Push(sig)]
    ensures delegates != [] ==> s[3] == Push(DelegateData(delegates)) &&
                                |s[3].data| == 1 + 20 * |delegates| && s[3].data[0] == 7
  {
    if delegates == [] then [OpReturn, Push(pubkey), Push(sig)]
    else [OpReturn, Push(pubkey), Push(sig), Push(DelegateData(delegates))]
  }

  /** `size_t` subtraction of one: wraps to 2^64 - 1 for zero. */
  function SizeMinusOne(n: nat): (m: nat)
    requires n < 0x1_0000_0000_0000_0000
    ensures n > 0 ==> m == n - 1
    ensures n == 0 ==> m % 20 != 0
  {
    (n + 0xFFFF_FFFF_FFFF_FFFF) % 0x1_0000_0000_0000_0000
  }

  /** The outcome of `ScriptToDelegateInfo`: its boolean and the delegates
      it decoded (with no votes). */
  datatype Decoded = Decoded(ok: bool, delegates: seq<Delegate>)

  /** The delegates of a payload whose length past the tag byte is a
      multiple of 20; none otherwise. The count is held in 32 bits
      (`uint32_t nDelegateNum`), so only that many leading key ids are read. */
  function DecodePayload(data: seq<bv8>): (ds: seq<Delegate>)
    requires |data| < 0x1_0000_0000_0000_0000
    ensures SizeMinusOne(|data|) % 20 == 0 ==> |ds| == (|data| - 1) / 20 % 0x1_0000_0000
    ensures SizeMinusOne(|data|) % 20 == 0 ==>
              forall i :: 0 <= i < |ds| ==> ds[i] == Delegate(data[1 + 20 * i..1 + 20 * i + 20], 0)
    ensures SizeMinusOne(|data|) % 20 != 0 ==> ds == []
  {
    if SizeMinusOne(|data|) % 20 == 0 then
      var ids := Chunks(data[1..]);
      ChunksAt(data[1..]);
      var count := |ids| % 0x1_0000_0000;
      seq(count, i requires 0 <= i < count => Delegate(ids[i], 0))
    else []
  }

  lemma {:induction false} ChunksAt(data: seq<bv8>)
    requires |data| % 20 == 0
    ensures forall i :: 0 <= i < |data| / 20 ==> Chunks(data)[i] == data[20 * i..20 * i + 20]
    decreases |data|
  {
    if data != [] {
      var rest := data[20..];
      ChunksAt(rest);
      assert |rest| / 20 == |data| / 20 - 1;
      assert Chunks(data) == [data[..20]] + Chunks(rest);
      forall i | 0 <= i < |data| / 20
        ensures Chunks(data)[i] == data[20 * i..20 * i + 20]
      {
        if i > 0 {
          var a := 20 * (i - 1);
          assert 20 * i == a + 20;
          assert Chunks(data)[i] == Chunks(rest)[i - 1] == rest[a..a + 20];
          assert rest[a..a + 20] == data[a + 20..a + 40];
        }
      }
    }
  }

  /** `ScriptToDelegateInfo`: reads `OP_RETURN <pubkey> <sig> [<payload>]`.
      It fails only when the key or signature push is missing, when
      `checkSig` is set and `verify` rejects the signature, or when
      `expected` names a destination other than the key's. Anything else
      succeeds, with the payload's delegates when it is well-formed. The
      tag byte is not checked. */
  function ScriptToDelegateInfo(script: OpScript, checkSig: bool, expected: Option<Destination>,
                                verify: (seq<bv8>, seq<bv8>) -> bool,
                                keyIdOf: seq<bv8> -> KeyId): (r: Decoded)
    requires forall i :: 0 <= i < |script| ==> |OpData(script[i])| < 0x1_0000_0000_0000_0000
    ensures (script == [] || script[0] != OpReturn) ==> r == Decoded(true, [])
    ensures script != [] && script[0] == OpReturn && |script| < 3 ==> r == Decoded(false, [])
    ensures script != [] && script[0] == OpReturn && |script| == 3 ==> r.delegates == []
    ensures script != [] && script[0] == OpReturn && |script| >= 3 ==>
              (r.ok <==> && (checkSig ==> verify(OpData(script[1]), OpData(script[2])))
                         && (expected.Some? ==> expected.value == KeyDest(keyIdOf(OpData(script[1])))))
    ensures script != [] && script[0] == OpReturn && |script| >= 4 && r.ok ==>
              r.delegates == DecodePayload(OpData(script[3]))
    ensures !r.ok ==> r.delegates == []
    ensures r.delegates != [] ==> |script| >= 4 && script[0] == OpReturn
  {
    if script == [] || script[0] != OpReturn then Decoded(true, [])
    else if |script| < 3 then Decoded(false, [])
    else
      var pubkey := OpData(script[1]);
      var sig := OpData(script[2]);
      if checkSig && !verify(pubkey, sig) then Decoded(false, [])
      else if expected.Some? && expected.value != KeyDest(keyIdOf(pubkey)) then Decoded(false, [])
      else if |script| == 3 then Decoded(true, [])
      else Decoded(true, DecodePayload(OpData(script[3])))
  }

  /** Key id `i` sits at bytes `20 * i` to `20 * i + 20` of the flattening. */
  lemma {:induction false} FlattenAt(ids: seq<KeyId>, i: nat)
    requires i < |ids|
    ensures Flatten(ids)[20 * i..20 * i + 20] == ids[i]
  {
    var b := Flatten(ids);
    assert b == ids[0] + Flatten(ids[1..]);
    if i > 0 {
      FlattenAt(ids[1..], i - 1);
      assert b[20 * i..20 * i + 20] == Flatten(ids[1..])[20 * (i - 1)..20 * (i - 1) + 20];
    }
  }

  lemma TwentyTimes(n: nat)
    ensures (20 * n) % 20 == 0 && (20 * n) / 20 == n
  {
  }

  /** A tag byte followed by `n` key ids has a well-formed length and
      decodes to `n` delegates. */
  lemma PayloadLength(tag: bv8, ids: seq<KeyId>)
    requires |ids| < 0x1_0000_0000
    ensures SizeMinusOne(|[tag] + Flatten(ids)|) % 20 == 0
    ensures |DecodePayload([tag] + Flatten(ids))| == |ids|
  {
    var n := |ids|;
    assert |[tag] + Flatten(ids)| == 1 + 20 * n;
    TwentyTimes(n);
  }

  /** The `i`-th decoded delegate carries the `i`-th key id. */
  lemma PayloadAt(tag: bv8, ids: seq<KeyId>, i: nat)
    requires |ids| < 0x1_0000_0000
    requires i < |ids|
    ensures var ds := DecodePayload([tag] + Flatten(ids)); i < |ds| && ds[i].keyid == ids[i]
  {
    var b := Flatten(ids);
    var ds := DecodePayload([tag] + b);
    var a := 20 * i;
    assert a + 20 <= |b|;
    assert i < |ds| && ds[i].keyid == ([tag] + b)[a + 1..a + 20 + 1] by {
      PayloadLength(tag, ids);
    }
    assert ([tag] + b)[a + 1..a + 20 + 1] == ids[i] by {
      SliceOfCons(tag, b, a, a + 20);
      FlattenAt(ids, i);
    }
  }

  lemma SliceOfCons(tag: bv8, b: seq<bv8>, lo: nat, hi: nat)
    requires lo <= hi <= |b|
    ensures ([tag] + b)[lo + 1..hi + 1] == b[lo..hi]
  {
    assert ([tag] + b)[1..] == b;
  }

  /** A payload of any tag followed by key ids decodes to those key ids. */
  lemma PayloadDecodesToIds(tag: bv8, ids: seq<KeyId>)
    requires |ids| < 0x1_0000_0000
    ensures KeyIds(DecodePayload([tag] + Flatten(ids))) == ids
  {
    PayloadLength(tag, ids);
    var ds := DecodePayload([tag] + Flatten(ids));
    forall i | 0 <= i < |ids|
      ensures ds[i].keyid == ids[i]
    {
      PayloadAt(tag, ids, i);
    }
  }

  /** Decoding an encoded list gives back its key ids, in order. */
  lemma DelegatePayloadRoundTrip(delegates: seq<Delegate>, pubkey: seq<bv8>, sig: seq<bv8>,
                                 verify: (seq<bv8>, seq<bv8>) -> bool, keyIdOf: seq<bv8> -> KeyId)
    requires |pubkey| < 0x1_0000_0000_0000_0000 && |sig| < 0x1_0000_0000_0000_0000
    requires |delegates| < 0x1_0000_0000
    ensures var s := DelegateInfoToScript(delegates, pubkey, sig);
            var d := ScriptToDelegateInfo(s, false, None, verify, keyIdOf);
            d.ok && KeyIds(d.delegates) == KeyIds(delegates)
  {
    if delegates != [] {
      var payload := DelegateData(delegates);
      assert DelegateInfoToScript(delegates, pubkey, sig) == [OpReturn, Push(pubkey), Push(sig), Push(payload)];
      assert |payload| == 1 + 20 * |delegates|;
      UncheckedPayloadScript(pubkey, sig, payload, verify, keyIdOf);
      PayloadDecodesToIds(7, KeyIds(delegates));
    }
  }

  /** The first byte of the payload is ignored: any tag decodes the same. */
  lemma DecoderIgnoresTag(ids: seq<KeyId>, tag: bv8, pubkey: seq<bv8>, sig: seq<bv8>,
                          verify: (seq<bv8>, seq<bv8>) -> bool, keyIdOf: seq<bv8> -> KeyId)
    requires |pubkey| < 0x1_0000_0000_0000_0000 && |sig| < 0x1_0000_0000_0000_0000
    requires |ids| < 0x1_0000_0000
    ensures var d := ScriptToDelegateInfo([OpReturn, Push(pubkey), Push(sig), Push([tag] + Flatten(ids))],
                                          false, None, verify, keyIdOf);
            d.ok && KeyIds(d.delegates) == ids
  {
    var payload := [tag] + Flatten(ids);
    assert |payload| == 1 + 20 * |ids|;
    UncheckedPayloadScript(pubkey, sig, payload, verify, keyIdOf);
    PayloadDecodesToIds(tag, ids);
  }

  /** Without signature and address checks, a four-element `OP_RETURN`
      script decodes its last element. */
  lemma UncheckedPayloadScript(pubkey: seq<bv8>, sig: seq<bv8>, payload: seq<bv8>,
                               verify: (seq<bv8>, seq<bv8>) -> bool, keyIdOf: seq<bv8> -> KeyId)
    requires |pubkey| < 0x1_0000_0000_0000_0000 && |sig| < 0x1_0000_0000_0000_0000
    requires |payload| < 0x1_0000_0000_0000_0000
    ensures ScriptToDelegateInfo([OpReturn, Push(pubkey), Push(sig), Push(payload)], false, None, verify, keyIdOf)
            == Decoded(true, DecodePayload(payload))
  {
    var s := [OpReturn, Push(pubkey), Push(sig), Push(payload)];
    assert OpData(s[0]) == [] && OpData(s[1]) == pubkey && OpData(s[2]) == sig && OpData(s[3]) == payload;
  }
}
