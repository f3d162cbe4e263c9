/** The two wallet commands that build, sign and broadcast a transaction:
    `wallet split` and `wallet send`. Signing is abstract: the signed
    transaction's `hash` and the library's `fee` are parameters, and so are the
    split key's unspent list and the node's answers. */
module Commands {
  import opened Wrappers
  import opened Ledger
  import opened Reconcile
  import opened Builder
  import opened Broadcaster
  import opened Sync

  /** `walletSplit`: build the split from the split key's unspent list, and
      only if that succeeds sign it and broadcast it. With "no funds to split"
      nothing is posted and the wallet is untouched. */
  method WalletSplitCommand(wallet: Wallet, entries: seq<UnspentEntry>, splits: int, unit: nat,
                            walletScript: ScriptHex, splitKey: Destination, fee: nat, hash: TxId,
                            responses: seq<Response>)
    returns (r: Result<Outcome, Error>)
    modifies wallet
    ensures var plan := SplitDraft(ToRecords(entries, splitKey.script), splits, unit,
                                   Destination(wallet.address, walletScript), splitKey);
            (r.Failure? <==> plan.Failure?) &&
            (r.Failure? ==> r.error == NoFundsToSplit &&
                            wallet.utxos == old(wallet.utxos) && wallet.updates == old(wallet.updates)) &&
            (r.Success? ==> r.value == PostFrom(responses, 0)) &&
            (r.Success? && r.value.Sent? ==>
               wallet.utxos == Reconciled(old(wallet.utxos), wallet.address, Finalize(plan.value, fee, hash)) &&
               wallet.updates == old(wallet.updates) + 1) &&
            (r.Success? && !r.value.Sent? ==>
               wallet.utxos == old(wallet.utxos) && wallet.updates == old(wallet.updates))
  {
    var unspent := ToRecords(entries, splitKey.script);
    var plan := WalletSplit(unspent, splits, unit, Destination(wallet.address, walletScript), splitKey);
    if plan.Failure? {
      return Failure(plan.error);
    }
    var tx := Finalize(plan.value, fee, hash);
    var outcome := Broadcast(wallet, tx, responses);
    return Success(outcome);
  }

  /** `walletSend`: fail on a zero balance before anything is built; with an
      amount, broadcast the one-output draft after `fund` added the inputs
      `fundInputs` and the change address `fundChange` (its choices, which are
      parameters here); without one, broadcast the send-all transaction. */
  method WalletSendCommand(wallet: Wallet, receiver: Destination, amount: Option<nat>, fee: nat, hash: TxId,
                           fundInputs: seq<Utxo>, fundChange: Option<Destination>, responses: seq<Response>)
    returns (r: Result<Outcome, Error>)
    modifies wallet
    ensures var plan := WalletSend(old(wallet.utxos), receiver, amount);
            (r.Failure? <==> Balance(old(wallet.utxos)) == 0) &&
            (r.Failure? ==> r.error == NoFundsToSend &&
                            wallet.utxos == old(wallet.utxos) && wallet.updates == old(wallet.updates)) &&
            (r.Success? ==> r.value == PostFrom(responses, 0)) &&
            (r.Success? && r.value.Sent? ==>
               plan.Success? &&
               wallet.utxos == Reconciled(old(wallet.utxos), wallet.address, SendTx(plan.value, fee, hash, fundInputs, fundChange)) &&
               wallet.updates == old(wallet.updates) + 1) &&
            (r.Success? && !r.value.Sent? ==>
               wallet.utxos == old(wallet.utxos) && wallet.updates == old(wallet.updates))
  {
    var plan := WalletSend(wallet.utxos, receiver, amount);
    if plan.Failure? {
      return Failure(plan.error);
    }
    var tx := SendTx(plan.value, fee, hash, fundInputs, fundChange);
    var outcome := Broadcast(wallet, tx, responses);
    return Success(outcome);
  }
}
