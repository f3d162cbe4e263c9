/** The transaction builder: the parts of `walletSplit` and `walletSend` that
    choose inputs and outputs. The signing library's `Transaction` is modelled
    by `Draft` (inputs added with `from`, outputs with `to`, a change address
    with `change`) and `Finalize`, which adds the change output for a fee the
    library computes and which is a parameter here. */
module Builder {
  import opened Wrappers
  import opened Ledger
  import opened Reconcile

  /** An unsigned transaction under construction. */
  datatype Draft = Draft(inputs: seq<Utxo>, outputs: seq<TxOutput>, change: Option<Destination>) {
    /** `tx.from(utxos)` */
    function From(utxos: seq<Utxo>): Draft
    {
      this.(inputs := inputs + utxos)
    }

    /** `tx.to(address, satoshis)` */
    function To(dest: Destination, satoshis: nat): Draft
    {
      this.(outputs := outputs + [TxOutput(dest, satoshis)])
    }

    /** `tx.change(address)` */
    function ChangeTo(dest: Destination): Draft
    {
      this.(change := Some(dest))
    }
  }

  /** `new Transaction()` */
  const EmptyDraft := Draft([], [], None)

  /** What is left for the change output once the explicit outputs and the fee are paid. */
  function ChangeAmount(d: Draft, fee: nat): int
  {
    Balance(d.inputs) - OutputTotal(d.outputs) - fee
  }

  /** The input references of a list of spent records. */
  function InputsOf(utxos: seq<Utxo>): seq<TxInput>
  {
    seq(|utxos|, i requires 0 <= i < |utxos| => TxInput(utxos[i].txid, utxos[i].vout))
  }

  /** The signed transaction with the given hash: the draft's inputs, its outputs,
      and last a change output when a change address is set and value is left over. */
  function Finalize(d: Draft, fee: nat, hash: TxId): Tx
  {
    var change := ChangeAmount(d, fee);
    Tx(InputsOf(d.inputs),
       d.outputs + (if d.change.Some? && change > 0 then [TxOutput(d.change.value, change)] else []),
       hash)
  }

  /** The finalized transaction spends exactly the draft's inputs. */
  lemma FinalizeSpends(d: Draft, fee: nat, hash: TxId, u: Utxo)
    ensures Spends(Finalize(d, fee, hash).inputs, u) <==>
            exists i :: 0 <= i < |d.inputs| && d.inputs[i].txid == u.txid && d.inputs[i].vout == u.vout
  {
    var ins := Finalize(d, fee, hash).inputs;
    if Spends(ins, u) {
      var j :| 0 <= j < |ins| && ins[j].prevTxId == u.txid && ins[j].outputIndex == u.vout;
      assert d.inputs[j].txid == u.txid && d.inputs[j].vout == u.vout;
    }
    if exists i :: 0 <= i < |d.inputs| && d.inputs[i].txid == u.txid && d.inputs[i].vout == u.vout {
      var i :| 0 <= i < |d.inputs| && d.inputs[i].txid == u.txid && d.inputs[i].vout == u.vout;
      assert ins[i].prevTxId == u.txid && ins[i].outputIndex == u.vout;
    }
  }

  /** Conservation: with a change output, the outputs and the fee add up to the
      inputs; without one, the outputs are the draft's own. */
  lemma FinalizeConserves(d: Draft, fee: nat, hash: TxId)
    ensures d.change.Some? && ChangeAmount(d, fee) > 0 ==>
            OutputTotal(Finalize(d, fee, hash).outputs) + fee == Balance(d.inputs)
    ensures !(d.change.Some? && ChangeAmount(d, fee) > 0) ==>
            Finalize(d, fee, hash).outputs == d.outputs
  {
  }


  // ---------------------------------------------------------------------------
  // Split mode

  /** The split threshold filter: the snapshot entries worth at least two units,
      in snapshot order. */
  function Eligible(unspent: seq<Utxo>, unit: nat): seq<Utxo>
  {
    if unspent == [] then []
    else
      var n := |unspent| - 1;
      Eligible(unspent[..n], unit) + (if unspent[n].satoshis >= 2 * unit then [unspent[n]] else [])
  }

  /** An entry is eligible exactly when it is in the snapshot and worth at
      least `2 * unit`. */
  lemma {:induction false} EligibleMembership(unspent: seq<Utxo>, unit: nat, u: Utxo)
    ensures u in Eligible(unspent, unit) <==> u in unspent && u.satoshis >= 2 * unit
  {
    if unspent != [] {
      var n := |unspent| - 1;
      EligibleMembership(unspent[..n], unit, u);
      assert unspent == unspent[..n] + [unspent[n]];
    }
  }

  /** The filter keeps the snapshot's order. */
  lemma {:induction false} EligibleAppend(a: seq<Utxo>, b: seq<Utxo>, unit: nat)
    ensures Eligible(a + b, unit) == Eligible(a, unit) + Eligible(b, unit)
    decreases |b|
  {
    if b == [] {
      assert a + b == a;
    } else {
      var n := |b| - 1;
      assert (a + b)[..|a + b| - 1] == a + b[..n];
      EligibleAppend(a, b[..n], unit);
    }
  }

  /** `n` copies of one output. */
  function Repeat(output: TxOutput, n: nat): (outputs: seq<TxOutput>)
    ensures |outputs| == n
    ensures forall k :: 0 <= k < n ==> outputs[k] == output
  {
    if n == 0 then [] else Repeat(output, n - 1) + [output]
  }

  /** How often `for (let i = 0; i < splits - 1; i++)` runs. */
  function UnitCount(splits: int): nat
  {
    if splits - 1 > 0 then splits - 1 else 0
  }

  /** The split transaction: every eligible entry as input, `UnitCount(splits)`
      outputs of `unit` to the wallet, change to the split key's address; or
      `NoFundsToSplit` when the eligible entries hold nothing. */
  function SplitDraft(unspent: seq<Utxo>, splits: int, unit: nat, wallet: Destination, splitKey: Destination)
    : Result<Draft, Error>
  {
    var utxos := Eligible(unspent, unit);
    if Balance(utxos) == 0 then Failure(NoFundsToSplit)
    else Success(Draft(utxos, Repeat(TxOutput(wallet, unit), UnitCount(splits)), Some(splitKey)))
  }

  /** The body of `walletSplit` from the filter to `tx.change`. */
  method WalletSplit(unspent: seq<Utxo>, splits: int, unit: nat, wallet: Destination, splitKey: Destination)
    returns (r: Result<Draft, Error>)
    ensures r == SplitDraft(unspent, splits, unit, wallet, splitKey)
  {
    var utxos := Eligible(unspent, unit);
    var balance := Balance(utxos);
    if balance == 0 {
      return Failure(NoFundsToSplit);
    }
    var tx := EmptyDraft.From(utxos);
    var i := 0;
    while i < splits - 1
      invariant 0 <= i <= UnitCount(splits)
      invariant tx == Draft(utxos, Repeat(TxOutput(wallet, unit), i), None)
    {
      tx := tx.To(wallet, unit);
      i := i + 1;
    }
    tx := tx.ChangeTo(splitKey);
    return Success(tx);
  }

  /** What a split promises: it fails exactly when the eligible entries hold no
      value; otherwise its inputs are exactly the entries worth at least two
      units (none below the threshold), it has `max(splits - 1, 0)` outputs of
      `unit` to the wallet, and its change goes to the split key's address. */
  lemma SplitShape(unspent: seq<Utxo>, splits: int, unit: nat, wallet: Destination, splitKey: Destination)
    ensures var r := SplitDraft(unspent, splits, unit, wallet, splitKey);
            (r.Failure? <==> forall u :: u in unspent && u.satoshis >= 2 * unit ==> u.satoshis == 0) &&
            (r.Failure? ==> r.error == NoFundsToSplit) &&
            (r.Success? ==>
               r.value.inputs == Eligible(unspent, unit) &&
               (forall i :: 0 <= i < |r.value.inputs| ==> r.value.inputs[i].satoshis >= 2 * unit) &&
               |r.value.outputs| == UnitCount(splits) &&
               (splits <= 1 ==> r.value.outputs == []) &&
               (forall k :: 0 <= k < |r.value.outputs| ==> r.value.outputs[k] == TxOutput(wallet, unit)) &&
               r.value.change == Some(splitKey))
  {
    var utxos := Eligible(unspent, unit);
    BalanceZeroIff(utxos);
    forall u | u in unspent && u.satoshis >= 2 * unit
      ensures u in utxos
    {
      EligibleMembership(unspent, unit, u);
    }
    forall i | 0 <= i < |utxos|
      ensures utxos[i] in unspent && utxos[i].satoshis >= 2 * unit
    {
      EligibleMembership(unspent, unit, utxos[i]);
    }
  }

  /** The records a split appends to the wallet: output `k` becomes
      `(hash, k, script, unit)`. */
  function UnitRecords(hash: TxId, script: ScriptHex, unit: nat, n: nat): seq<Utxo>
  {
    if n == 0 then [] else UnitRecords(hash, script, unit, n - 1) + [Utxo(hash, n - 1, script, unit)]
  }

  lemma {:induction false} OwnRecordsOfRepeat(hash: TxId, wallet: Destination, unit: nat, n: nat)
    ensures OwnRecords(hash, Repeat(TxOutput(wallet, unit), n), wallet.address)
            == UnitRecords(hash, wallet.script, unit, n)
  {
    if n > 0 {
      var o := TxOutput(wallet, unit);
      var prev := Repeat(o, n - 1);
      var outs := Repeat(o, n);
      assert outs == prev + [o];
      assert outs[..n - 1] == prev;
      assert outs[n - 1] == o;
      assert OwnRecords(hash, outs, wallet.address)
             == OwnRecords(hash, prev, wallet.address) + [RecordOf(hash, n - 1, o)];
      OwnRecordsOfRepeat(hash, wallet, unit, n - 1);
    }
  }

  lemma {:induction false} UnitRecordsLength(hash: TxId, script: ScriptHex, unit: nat, n: nat)
    ensures |UnitRecords(hash, script, unit, n)| == n
  {
    if n > 0 {
      UnitRecordsLength(hash, script, unit, n - 1);
    }
  }

  lemma {:induction false} UnitRecordsBalance(hash: TxId, script: ScriptHex, unit: nat, n: nat)
    ensures Balance(UnitRecords(hash, script, unit, n)) == n * unit
  {
    if n > 0 {
      var rs := UnitRecords(hash, script, unit, n);
      assert |UnitRecords(hash, script, unit, n - 1)| == n - 1 by {
        UnitRecordsLength(hash, script, unit, n - 1);
      }
      assert rs[..n - 1] == UnitRecords(hash, script, unit, n - 1);
      UnitRecordsBalance(hash, script, unit, n - 1);
    }
  }

  /** Outputs to other addresses add no record. */
  lemma {:induction false} OwnRecordsSkipLast(hash: TxId, outputs: seq<TxOutput>, last: seq<TxOutput>, address: Address)
    requires forall k :: 0 <= k < |last| ==> last[k].to.address != address
    ensures OwnRecords(hash, outputs + last, address) == OwnRecords(hash, outputs, address)
    decreases |last|
  {
    if last == [] {
      assert outputs + last == outputs;
    } else {
      var n := |last| - 1;
      OwnRecordsSkipLast(hash, outputs, last[..n], address);
      assert (outputs + last)[..|outputs + last| - 1] == outputs + last[..n];
      assert (outputs + last)[|outputs + last| - 1] == last[n];
    }
  }

  /** Reconciling an accepted split, funded from the split key and not from the
      wallet, appends exactly the unit outputs to the store (with vouts
      `0 .. splits - 2`) and raises the balance by `max(splits - 1, 0) * unit`;
      the change to the split key is not recorded. */
  lemma SplitIntoWallet(store: seq<Utxo>, unspent: seq<Utxo>, splits: int, unit: nat,
                        wallet: Destination, splitKey: Destination, fee: nat, hash: TxId)
    requires splitKey.address != wallet.address
    requires SplitDraft(unspent, splits, unit, wallet, splitKey).Success?
    requires forall i :: 0 <= i < |store| ==> !Spends(InputsOf(Eligible(unspent, unit)), store[i])
    ensures var tx := Finalize(SplitDraft(unspent, splits, unit, wallet, splitKey).value, fee, hash);
            Reconciled(store, wallet.address, tx) == store + UnitRecords(hash, wallet.script, unit, UnitCount(splits))
    ensures var tx := Finalize(SplitDraft(unspent, splits, unit, wallet, splitKey).value, fee, hash);
            Balance(Reconciled(store, wallet.address, tx)) == Balance(store) + UnitCount(splits) * unit
  {
    var d := SplitDraft(unspent, splits, unit, wallet, splitKey).value;
    var tx := Finalize(d, fee, hash);
    var n := UnitCount(splits);
    UnspentNoneSpent(store, tx.inputs);
    var change := ChangeAmount(d, fee);
    var last := if change > 0 then [TxOutput(splitKey, change)] else [];
    assert tx.outputs == Repeat(TxOutput(wallet, unit), n) + last;
    OwnRecordsSkipLast(hash, Repeat(TxOutput(wallet, unit), n), last, wallet.address);
    OwnRecordsOfRepeat(hash, wallet, unit, n);
    BalanceAppend(store, UnitRecords(hash, wallet.script, unit, n));
    UnitRecordsBalance(hash, wallet.script, unit, n);
  }

  // ---------------------------------------------------------------------------
  // Direct-pay mode

  /** The two shapes of `walletSend`: with an amount the draft holds one output
      to the receiver and is handed to `fund`, which is not part of this model;
      without one every record is an input and the receiver gets the change. */
  datatype SendPlan = Pay(draft: Draft) | SendAll(draft: Draft)

  /** `walletSend` up to signing; `amount` is `None` when `parseInt` gives `NaN`. */
  function WalletSend(utxos: seq<Utxo>, receiver: Destination, amount: Option<nat>): Result<SendPlan, Error>
  {
    if Balance(utxos) == 0 then Failure(NoFundsToSend)
    else if amount.Some? && amount.value != 0 then Success(Pay(EmptyDraft.To(receiver, amount.value)))
    else Success(SendAll(EmptyDraft.From(utxos).ChangeTo(receiver)))
  }

  /** Send fails, with "no funds to send", exactly when every stored record
      holds zero satoshis. */
  lemma SendFailsIffNoFunds(utxos: seq<Utxo>, receiver: Destination, amount: Option<nat>)
    ensures WalletSend(utxos, receiver, amount).Failure? <==>
            forall i :: 0 <= i < |utxos| ==> utxos[i].satoshis == 0
    ensures WalletSend(utxos, receiver, amount).Failure? ==>
            WalletSend(utxos, receiver, amount).error == NoFundsToSend
  {
    BalanceZeroIff(utxos);
  }

  /** What `fund(wallet, tx)` does to the draft: add the inputs it selects
      and set a change address. Its selection is not part of this model. */
  function Fund(d: Draft, inputs: seq<Utxo>, change: Option<Destination>): Draft
  {
    d.From(inputs).(change := change)
  }

  /** The transaction `walletSend` signs and broadcasts for a plan: the funded
      one-output draft, or the send-all draft. */
  function SendTx(plan: SendPlan, fee: nat, hash: TxId, fundInputs: seq<Utxo>, fundChange: Option<Destination>): Tx
  {
    match plan
    case Pay(d) => Finalize(Fund(d, fundInputs, fundChange), fee, hash)
    case SendAll(d) => Finalize(d, fee, hash)
  }

  /** An absent or zero amount, for any fee: the transaction spends every
      stored record and nothing else, and its only output (if any) pays the
      receiver. */
  lemma SendAllSpendsStore(utxos: seq<Utxo>, receiver: Destination, amount: Option<nat>, fee: nat, hash: TxId,
                           fundInputs: seq<Utxo>, fundChange: Option<Destination>)
    ensures Balance(utxos) > 0 && (amount == None || amount == Some(0)) ==>
            var plan := WalletSend(utxos, receiver, amount);
            plan.Success? && plan.value.SendAll? &&
            var tx := SendTx(plan.value, fee, hash, fundInputs, fundChange);
            (forall u :: u in utxos ==> Spends(tx.inputs, u)) &&
            (forall u :: Spends(tx.inputs, u) ==>
               exists i :: 0 <= i < |utxos| && utxos[i].txid == u.txid && utxos[i].vout == u.vout) &&
            |tx.outputs| <= 1 &&
            (forall k :: 0 <= k < |tx.outputs| ==> tx.outputs[k].to == receiver)
  {
    if Balance(utxos) > 0 && (amount == None || amount == Some(0)) {
      var d := Draft(utxos, [], Some(receiver));
      assert EmptyDraft.From(utxos).ChangeTo(receiver) == d by {
        assert [] + utxos == utxos;
      }
      assert WalletSend(utxos, receiver, amount) == Success(SendAll(d));
      var tx := Finalize(d, fee, hash);
      assert SendTx(SendAll(d), fee, hash, fundInputs, fundChange) == tx;
      assert |tx.outputs| <= 1 && forall k :: 0 <= k < |tx.outputs| ==> tx.outputs[k].to == receiver;
      forall u ensures Spends(tx.inputs, u) <==>
                       exists i :: 0 <= i < |utxos| && utxos[i].txid == u.txid && utxos[i].vout == u.vout {
        FinalizeSpends(d, fee, hash, u);
      }
      forall u | u in utxos
        ensures Spends(tx.inputs, u)
      {
        var i :| 0 <= i < |utxos| && utxos[i] == u;
      }
    }
  }

  /** A positive amount, whatever `fund` selects: the broadcast transaction
      spends exactly the selected inputs, its first output is the payment to
      the receiver, and any other output is change to `fund`'s change address. */
  lemma PayKeepsReceiverOutput(utxos: seq<Utxo>, receiver: Destination, amount: nat, fee: nat, hash: TxId,
                               fundInputs: seq<Utxo>, fundChange: Option<Destination>, u: Utxo)
    ensures Balance(utxos) > 0 && amount > 0 ==>
            var plan := WalletSend(utxos, receiver, Some(amount));
            plan.Success? && plan.value.Pay? &&
            var tx := SendTx(plan.value, fee, hash, fundInputs, fundChange);
            1 <= |tx.outputs| <= 2 &&
            tx.outputs[0] == TxOutput(receiver, amount) &&
            (|tx.outputs| == 2 ==> fundChange.Some? && tx.outputs[1].to == fundChange.value) &&
            (Spends(tx.inputs, u) <==>
               exists i :: 0 <= i < |fundInputs| && fundInputs[i].txid == u.txid && fundInputs[i].vout == u.vout)
  {
    if Balance(utxos) > 0 && amount > 0 {
      var d := Fund(EmptyDraft.To(receiver, amount), fundInputs, fundChange);
      assert d.inputs == fundInputs by {
        assert [] + fundInputs == fundInputs;
      }
      FinalizeSpends(d, fee, hash, u);
    }
  }

  /** A send-all, once accepted, pays the whole balance less the fee to the
      receiver as one output, and leaves a wallet that does not own the
      receiving address with an empty store. */
  lemma SendAllEmptiesStore(utxos: seq<Utxo>, walletAddress: Address, receiver: Destination,
                            fee: nat, hash: TxId)
    requires Balance(utxos) > 0
    ensures var tx := Finalize(WalletSend(utxos, receiver, None).value.draft, fee, hash);
            (Balance(utxos) > fee ==> tx.outputs == [TxOutput(receiver, Balance(utxos) - fee)]) &&
            (receiver.address != walletAddress ==> Reconciled(utxos, walletAddress, tx) == [])
  {
    var d := WalletSend(utxos, receiver, None).value.draft;
    assert d.inputs == utxos by {
      assert [] + utxos == utxos;
    }
    var tx := Finalize(d, fee, hash);
    forall u | u in utxos
      ensures Spends(tx.inputs, u)
    {
      var i :| 0 <= i < |utxos| && utxos[i] == u;
      FinalizeSpends(d, fee, hash, u);
    }
    UnspentAllSpent(utxos, tx.inputs);
    if receiver.address != walletAddress {
      OwnRecordsSkipLast(hash, [], tx.outputs, walletAddress);
    }
  }
}
