/** Transactions as the wallet sees them: ordered inputs that spend earlier
    outputs and ordered outputs that carry an amount and a locking script,
    plus the opt-in replace-by-fee signal of BIP 125. */
module Transactions {

  /** Amounts in the smallest unit (`CAmount`). */
  type Amount = int

  /** Transaction and block ids are opaque 256-bit identifiers; only their
      equality matters here. */
  type Hash = nat

  /** Locking scripts are opaque byte strings on the wallet side. */
  type Script = seq<bv8>

  datatype OutPoint = OutPoint(hash: Hash, n: nat)

  /** An input; `sequence` is the 32-bit `nSequence` field. */
  datatype TxIn = TxIn(prevout: OutPoint, sequence: nat)

  datatype TxOut = TxOut(value: Amount, script: Script)

  datatype Tx = Tx(vin: seq<TxIn>, vout: seq<TxOut>)

  /** The largest sequence number that still signals replaceability is one
      below this value (section "Summary" of BIP 125). */
  const NonReplaceableSequence: nat := 0xffff_fffe

  /** BIP 125 opt-in signal: some input has a sequence number below
      0xfffffffe. */
  predicate SignalsOptInRbf(tx: Tx) {
    exists i :: 0 <= i < |tx.vin| && tx.vin[i].sequence < NonReplaceableSequence
  }

  /** Sum of the output values (`GetValueOut`). */
  function ValueOut(outs: seq<TxOut>): Amount {
    if outs == [] then 0 else ValueOut(outs[..|outs| - 1]) + outs[|outs| - 1].value
  }

  /** The sum of a concatenation is the sum of the parts. */
  lemma {:induction false} ValueOutAppend(a: seq<TxOut>, b: seq<TxOut>)
    ensures ValueOut(a + b) == ValueOut(a) + ValueOut(b)
    decreases |b|
  {
    if b == [] {
      assert a + b == a;
    } else {
      assert (a + b)[..|a + b| - 1] == a + b[..|b| - 1];
      ValueOutAppend(a, b[..|b| - 1]);
    }
  }

  /** Replacing output `n` by `o` changes the sum by exactly the value
      difference, and removing it lowers the sum by its value. */
  lemma ValueOutReplace(outs: seq<TxOut>, n: nat, o: TxOut)
    requires n < |outs|
    ensures ValueOut(outs[..n] + [o] + outs[n + 1..]) == ValueOut(outs) - outs[n].value + o.value
    ensures ValueOut(outs[..n] + outs[n + 1..]) == ValueOut(outs) - outs[n].value
  {
    assert outs == outs[..n] + [outs[n]] + outs[n + 1..];
    ValueOutAppend(outs[..n] + [outs[n]], outs[n + 1..]);
    ValueOutAppend(outs[..n], [outs[n]]);
    ValueOutAppend(outs[..n] + [o], outs[n + 1..]);
    ValueOutAppend(outs[..n], [o]);
    ValueOutAppend(outs[..n], outs[n + 1..]);
    assert ValueOut([o]) == o.value by {
      assert [o][..0] == [];
    }
    assert ValueOut([outs[n]]) == outs[n].value by {
      assert [outs[n]][..0] == [];
    }
  }
}
