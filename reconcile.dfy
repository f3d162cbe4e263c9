/** Ledger reconciliation (`updateWallet`): after a transaction is accepted,
    drop every stored record it spends and append one record per output that
    pays the wallet's own address. */
module Reconcile {
  import opened Ledger

  /** The stored records no input of the transaction spends, in store order
      (the `filter` over `wallet.utxos`). */
  function Unspent(utxos: seq<Utxo>, inputs: seq<TxInput>): seq<Utxo>
  {
    if utxos == [] then []
    else
      var n := |utxos| - 1;
      Unspent(utxos[..n], inputs) + (if Spends(inputs, utxos[n]) then [] else [utxos[n]])
  }

  /** The record that output number `vout` of transaction `hash` becomes. */
  function RecordOf(hash: TxId, vout: nat, output: TxOutput): Utxo
  {
    Utxo(hash, vout, output.to.script, output.satoshis)
  }

  /** The records the `forEach` over `tx.outputs` pushes: one per output paying
      `address`, carrying the output's index as `vout`, in output order. */
  function OwnRecords(hash: TxId, outputs: seq<TxOutput>, address: Address): seq<Utxo>
  {
    if outputs == [] then []
    else
      var n := |outputs| - 1;
      OwnRecords(hash, outputs[..n], address)
        + (if outputs[n].to.address == address then [RecordOf(hash, n, outputs[n])] else [])
  }

  /** Every added record is the record of the output at its `vout`, and that
      output pays `address`. */
  lemma {:induction false} OwnRecordsAt(hash: TxId, outputs: seq<TxOutput>, address: Address)
    ensures forall i :: 0 <= i < |OwnRecords(hash, outputs, address)| ==>
              var r := OwnRecords(hash, outputs, address)[i];
              r.vout < |outputs| && outputs[r.vout].to.address == address && r == RecordOf(hash, r.vout, outputs[r.vout])
  {
    if outputs != [] {
      var n := |outputs| - 1;
      var prefix := outputs[..n];
      var prev := OwnRecords(hash, prefix, address);
      var added := OwnRecords(hash, outputs, address);
      OwnRecordsAt(hash, prefix, address);
      forall i | 0 <= i < |added|
        ensures added[i].vout < |outputs| && outputs[added[i].vout].to.address == address
        ensures added[i] == RecordOf(hash, added[i].vout, outputs[added[i].vout])
      {
        if i < |prev| {
          assert added[i] == prev[i];
          assert outputs[prev[i].vout] == prefix[prev[i].vout];
        } else {
          assert added[i] == RecordOf(hash, n, outputs[n]);
        }
      }
    }
  }

  /** The added records' vouts strictly increase: output order, no output twice. */
  lemma {:induction false} OwnRecordsOrdered(hash: TxId, outputs: seq<TxOutput>, address: Address)
    ensures forall i, j :: 0 <= i < j < |OwnRecords(hash, outputs, address)| ==>
              OwnRecords(hash, outputs, address)[i].vout < OwnRecords(hash, outputs, address)[j].vout
  {
    if outputs != [] {
      var n := |outputs| - 1;
      var prefix := outputs[..n];
      var prev := OwnRecords(hash, prefix, address);
      var added := OwnRecords(hash, outputs, address);
      OwnRecordsOrdered(hash, prefix, address);
      OwnRecordsAt(hash, prefix, address);
      forall i, j | 0 <= i < j < |added|
        ensures added[i].vout < added[j].vout
      {
        assert added[i] == prev[i];
        if j < |prev| {
          assert added[j] == prev[j];
        } else {
          assert added[j].vout == n;
        }
      }
    }
  }

  /** Every output paying `address` has its record among the added ones. */
  lemma {:induction false} OwnRecordsComplete(hash: TxId, outputs: seq<TxOutput>, address: Address, k: nat)
    requires k < |outputs| && outputs[k].to.address == address
    ensures RecordOf(hash, k, outputs[k]) in OwnRecords(hash, outputs, address)
  {
    var n := |outputs| - 1;
    if k < n {
      OwnRecordsComplete(hash, outputs[..n], address, k);
      assert outputs[..n][k] == outputs[k];
    }
  }

  /** Every added record carries the transaction's hash. */
  lemma {:induction false} OwnRecordsTxid(hash: TxId, outputs: seq<TxOutput>, address: Address)
    ensures forall i :: 0 <= i < |OwnRecords(hash, outputs, address)| ==>
              OwnRecords(hash, outputs, address)[i].txid == hash
  {
    OwnRecordsAt(hash, outputs, address);
  }

  /** Sum of the output values that pay `address`. */
  function PaidTo(outputs: seq<TxOutput>, address: Address): nat
  {
    if outputs == [] then 0
    else
      var n := |outputs| - 1;
      PaidTo(outputs[..n], address) + (if outputs[n].to.address == address then outputs[n].satoshis else 0)
  }

  /** The store after `updateWallet(wallet, tx)`. */
  function Reconciled(utxos: seq<Utxo>, address: Address, tx: Tx): seq<Utxo>
  {
    Unspent(utxos, tx.inputs) + OwnRecords(tx.hash, tx.outputs, address)
  }

  /** The stored records the transaction spends. */
  function SpentPart(utxos: seq<Utxo>, inputs: seq<TxInput>): seq<Utxo>
  {
    if utxos == [] then []
    else
      var n := |utxos| - 1;
      SpentPart(utxos[..n], inputs) + (if Spends(inputs, utxos[n]) then [utxos[n]] else [])
  }

  /** A record is kept exactly when it is stored and no input of the
      transaction has its `(txid, vout)`. */
  lemma {:induction false} UnspentMembership(utxos: seq<Utxo>, inputs: seq<TxInput>, u: Utxo)
    ensures u in Unspent(utxos, inputs) <==> u in utxos && !Spends(inputs, u)
  {
    if utxos != [] {
      var n := |utxos| - 1;
      UnspentMembership(utxos[..n], inputs, u);
      assert utxos == utxos[..n] + [utxos[n]];
    }
  }

  /** A record is in the spent part exactly when it is stored and some input
      of the transaction has its `(txid, vout)`. */
  lemma {:induction false} SpentPartMembership(utxos: seq<Utxo>, inputs: seq<TxInput>, u: Utxo)
    ensures u in SpentPart(utxos, inputs) <==> u in utxos && Spends(inputs, u)
  {
    if utxos != [] {
      var n := |utxos| - 1;
      SpentPartMembership(utxos[..n], inputs, u);
      assert utxos == utxos[..n] + [utxos[n]];
    }
  }

  /** Filtering distributes over concatenation: kept records stay in their
      relative order. */
  lemma {:induction false} UnspentAppend(a: seq<Utxo>, b: seq<Utxo>, inputs: seq<TxInput>)
    ensures Unspent(a + b, inputs) == Unspent(a, inputs) + Unspent(b, inputs)
    decreases |b|
  {
    if b == [] {
      assert a + b == a;
    } else {
      var n := |b| - 1;
      assert (a + b)[..|a + b| - 1] == a + b[..n];
      UnspentAppend(a, b[..n], inputs);
    }
  }

  /** When no stored record is spent, the filter keeps the store as it is. */
  lemma {:induction false} UnspentNoneSpent(utxos: seq<Utxo>, inputs: seq<TxInput>)
    requires forall i :: 0 <= i < |utxos| ==> !Spends(inputs, utxos[i])
    ensures Unspent(utxos, inputs) == utxos
  {
    if utxos != [] {
      var n := |utxos| - 1;
      var prefix := utxos[..n];
      assert forall i :: 0 <= i < n ==> prefix[i] == utxos[i];
      UnspentNoneSpent(prefix, inputs);
      assert !Spends(inputs, utxos[n]);
      assert prefix + [utxos[n]] == utxos;
    }
  }

  /** When every stored record is spent, nothing is kept. */
  lemma {:induction false} UnspentAllSpent(utxos: seq<Utxo>, inputs: seq<TxInput>)
    requires forall u :: u in utxos ==> Spends(inputs, u)
    ensures Unspent(utxos, inputs) == []
  {
    if utxos != [] {
      var n := |utxos| - 1;
      assert forall u :: u in utxos[..n] ==> u in utxos;
      UnspentAllSpent(utxos[..n], inputs);
      assert utxos[n] in utxos;
    }
  }

  /** The filtered store keeps the keys unique. */
  lemma {:induction false} UnspentUnique(utxos: seq<Utxo>, inputs: seq<TxInput>)
    requires UniqueKeys(utxos)
    ensures UniqueKeys(Unspent(utxos, inputs))
  {
    if utxos != [] {
      var n := |utxos| - 1;
      var prefix := utxos[..n];
      assert UniqueKeys(prefix) by {
        assert forall i :: 0 <= i < n ==> prefix[i] == utxos[i];
      }
      UnspentUnique(prefix, inputs);
      var kept := Unspent(prefix, inputs);
      if !Spends(inputs, utxos[n]) {
        forall i | 0 <= i < |kept|
          ensures kept[i].txid != utxos[n].txid || kept[i].vout != utxos[n].vout
        {
          UnspentMembership(prefix, inputs, kept[i]);
          assert kept[i] in prefix;
          var p :| 0 <= p < n && prefix[p] == kept[i];
          assert utxos[p] == kept[i];
        }
      }
    }
  }

  /** The stored value splits into the kept part and the spent part. */
  lemma {:induction false} BalanceSplitsBySpent(utxos: seq<Utxo>, inputs: seq<TxInput>)
    ensures Balance(Unspent(utxos, inputs)) + Balance(SpentPart(utxos, inputs)) == Balance(utxos)
  {
    if utxos != [] {
      var n := |utxos| - 1;
      BalanceSplitsBySpent(utxos[..n], inputs);
      BalanceAppend(Unspent(utxos[..n], inputs), if Spends(inputs, utxos[n]) then [] else [utxos[n]]);
      BalanceAppend(SpentPart(utxos[..n], inputs), if Spends(inputs, utxos[n]) then [utxos[n]] else []);
      assert Balance([utxos[n]]) == utxos[n].satoshis by {
        assert [utxos[n]][..0] == [];
      }
    }
  }

  /** The records added hold exactly the value the transaction pays the wallet. */
  lemma {:induction false} OwnRecordsValue(hash: TxId, outputs: seq<TxOutput>, address: Address)
    ensures Balance(OwnRecords(hash, outputs, address)) == PaidTo(outputs, address)
  {
    if outputs != [] {
      var n := |outputs| - 1;
      OwnRecordsValue(hash, outputs[..n], address);
      var last := if outputs[n].to.address == address then [RecordOf(hash, n, outputs[n])] else [];
      BalanceAppend(OwnRecords(hash, outputs[..n], address), last);
      if last != [] {
        assert last[..0] == [];
      }
    }
  }

  /** Reconciliation keeps a stored record exactly when no input of the
      transaction has its `(txid, vout)`, and adds exactly the records of the
      outputs that pay the wallet's address. */
  lemma ReconciledMembership(utxos: seq<Utxo>, address: Address, tx: Tx, u: Utxo)
    requires u.txid != tx.hash
    ensures u in Reconciled(utxos, address, tx) <==> u in utxos && !Spends(tx.inputs, u)
  {
    var added := OwnRecords(tx.hash, tx.outputs, address);
    OwnRecordsTxid(tx.hash, tx.outputs, address);
    UnspentMembership(utxos, tx.inputs, u);
    assert u !in added;
  }

  /** Value accounting of one reconciliation: the new balance is the old one,
      less what the transaction spends from the store, plus what it pays the
      wallet address. */
  lemma ReconciledBalance(utxos: seq<Utxo>, address: Address, tx: Tx)
    ensures Balance(Reconciled(utxos, address, tx)) + Balance(SpentPart(utxos, tx.inputs))
            == Balance(utxos) + PaidTo(tx.outputs, address)
  {
    BalanceAppend(Unspent(utxos, tx.inputs), OwnRecords(tx.hash, tx.outputs, address));
    BalanceSplitsBySpent(utxos, tx.inputs);
    OwnRecordsValue(tx.hash, tx.outputs, address);
  }

  /** A store with unique keys keeps unique keys through reconciliation, as
      long as no stored record already carries the new transaction's hash. */
  lemma ReconciledUnique(utxos: seq<Utxo>, address: Address, tx: Tx)
    requires UniqueKeys(utxos)
    requires forall i :: 0 <= i < |utxos| ==> utxos[i].txid != tx.hash
    ensures UniqueKeys(Reconciled(utxos, address, tx))
  {
    var kept := Unspent(utxos, tx.inputs);
    var added := OwnRecords(tx.hash, tx.outputs, address);
    UnspentUnique(utxos, tx.inputs);
    OwnRecordsTxid(tx.hash, tx.outputs, address);
    OwnRecordsOrdered(tx.hash, tx.outputs, address);
    forall i | 0 <= i < |kept|
      ensures kept[i].txid != tx.hash
    {
      UnspentMembership(utxos, tx.inputs, kept[i]);
      assert kept[i] in utxos;
    }
    var r := kept + added;
    forall i, j | 0 <= i < j < |r|
      ensures r[i].txid != r[j].txid || r[i].vout != r[j].vout
    {
      if j < |kept| {
        assert r[i] == kept[i] && r[j] == kept[j];
      } else if i < |kept| {
        assert r[i] == kept[i] && r[j] == added[j - |kept|];
      } else {
        assert r[i] == added[i - |kept|] && r[j] == added[j - |kept|];
      }
    }
  }

  /** One step of the filter loop over the store. */
  lemma UnspentStep(utxos: seq<Utxo>, i: nat, inputs: seq<TxInput>)
    requires i < |utxos|
    ensures Unspent(utxos[..i + 1], inputs)
            == Unspent(utxos[..i], inputs) + (if Spends(inputs, utxos[i]) then [] else [utxos[i]])
  {
    assert utxos[..i + 1][..i] == utxos[..i];
  }

  /** One step of the loop over the outputs. */
  lemma OwnRecordsStep(hash: TxId, outputs: seq<TxOutput>, address: Address, k: nat)
    requires k < |outputs|
    ensures OwnRecords(hash, outputs[..k + 1], address)
            == OwnRecords(hash, outputs[..k], address)
               + (if outputs[k].to.address == address then [RecordOf(hash, k, outputs[k])] else [])
  {
    assert outputs[..k + 1][..k] == outputs[..k];
  }

  /** The wallet record as `updateWallet` sees it: its own address and the
      stored records. `updates` counts the reconciliations applied. */
  class Wallet {
    const address: Address
    var utxos: seq<Utxo>
    ghost var updates: nat

    constructor (address: Address, utxos: seq<Utxo>)
      ensures this.address == address && this.utxos == utxos && updates == 0
    {
      this.address := address;
      this.utxos := utxos;
      updates := 0;
    }

    /** `updateWallet(wallet, tx)`: filter the store, then push one record per
        output paying the wallet address. */
    method UpdateWallet(tx: Tx)
      modifies this
      ensures utxos == Reconciled(old(utxos), address, tx)
      ensures updates == old(updates) + 1
    {
      var kept := KeepUnspent(utxos, tx.inputs);
      utxos := kept;
      var vout := 0;
      while vout < |tx.outputs|
        invariant 0 <= vout <= |tx.outputs|
        invariant utxos == kept + OwnRecords(tx.hash, tx.outputs[..vout], address)
        invariant updates == old(updates)
      {
        var output := tx.outputs[vout];
        OwnRecordsStep(tx.hash, tx.outputs, address, vout);
        if output.to.address == address {
          utxos := utxos + [Utxo(tx.hash, vout, output.to.script, output.satoshis)];
        }
        vout := vout + 1;
      }
      assert tx.outputs[..vout] == tx.outputs;
      updates := updates + 1;
    }
  }

  /** The `filter` over the store: keep each record no input spends. */
  method KeepUnspent(utxos: seq<Utxo>, inputs: seq<TxInput>) returns (kept: seq<Utxo>)
    ensures kept == Unspent(utxos, inputs)
  {
    kept := [];
    var i := 0;
    while i < |utxos|
      invariant 0 <= i <= |utxos|
      invariant kept == Unspent(utxos[..i], inputs)
    {
      var spent := SpentBy(inputs, utxos[i]);
      UnspentStep(utxos, i, inputs);
      if !spent {
        kept := kept + [utxos[i]];
      }
      i := i + 1;
    }
    assert utxos[..i] == utxos;
  }

  /** The `for (const input of tx.inputs)` loop of the filter callback: true as
      soon as one input names `u` by `(txid, vout)`. */
  method SpentBy(inputs: seq<TxInput>, u: Utxo) returns (spent: bool)
    ensures spent <==> Spends(inputs, u)
  {
    for j := 0 to |inputs|
      invariant forall k :: 0 <= k < j ==> !(inputs[k].prevTxId == u.txid && inputs[k].outputIndex == u.vout)
    {
      if inputs[j].prevTxId == u.txid && inputs[j].outputIndex == u.vout {
        return true;
      }
    }
    return false;
  }
}
