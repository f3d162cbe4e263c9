# Wallet ledger of the doginals `split.js` tool

This project models the UTXO ledger and transaction lifecycle of `split.js`,
a command-line wallet for Dogecoin-style chains. The wallet holds one
receiving address and a list of unspent outputs (UTXOs) `{txid, vout, script,
satoshis}`. The model covers:

- **Reconciliation** (`updateWallet`): after the node accepts a transaction,
  the stored UTXOs it spends are dropped. Then one record is appended for each
  output that pays the wallet's own address.
- **Split construction** (`walletSplit`): the split key's unspent list is
  filtered to the entries worth at least `2 * unit`. The split fails with
  "no funds to split" when those entries hold nothing. Otherwise it has
  `splits - 1` outputs of `unit` to the wallet and change to the split key's
  address.
- **Balance and send** (`walletBalance`, `walletSend`): the balance is the sum
  of `satoshis`. Send fails with "no funds to send" on a zero balance. With no
  amount, or a zero one, every UTXO becomes an input and the receiver gets the
  change.
- **Broadcast with retry** (`broadcast`): a rejection whose message contains
  `too-long-mempool-chain` is retried. Any other rejection is rethrown. The
  wallet is reconciled once, after the accepted post.
- **Sync** (`walletSync`): the query service's entries become the store,
  sorted by `satoshis` from largest to smallest.
- **Entropy check** (`generateMnemonic`): only 128 or 256 bits are accepted.

Modules, one per component:

| file | module | what it holds |
|---|---|---|
| wrappers.dfy | Wrappers | `Option`, `Result` |
| ledger.dfy | Ledger | records, transactions, `Balance`, `Spends`, `UniqueKeys` |
| reconcile.dfy | Reconcile | the reconciliation functions, their lemmas, class `Wallet` with `UpdateWallet` |
| builder.dfy | Builder | the transaction draft, `Finalize`, the split and send builders |
| broadcast.dfy | Broadcaster | retry classification, the retry loop, `Broadcast` |
| sync.dfy | Sync | query-entry mapping, the in-place sort, `WalletSync` |
| commands.dfy | Commands | the `split` and `send` commands end to end |
| mnemonic.dfy | Mnemonic | the entropy check |

The signing library's `Transaction` object is modelled by the value `Draft`.
Its `from`, `to` and `change` calls append inputs, append outputs and set the
change address. `Finalize` stands for signing. It adds a change output worth
`inputs - outputs - fee` when a change address is set and that amount is
positive. The fee and the transaction hash are parameters.

The node is a finite script of responses, one per post. If the script runs out
while every answer was transient, the loop ends as `Pending`. The real loop
would keep retrying.

The wallet is an object whose `utxos` field the methods reassign. This matches
the read-modify-write of the wallet file. A ghost counter `updates` counts the
reconciliations applied.

## Model

| member | source | states |
|---|---|---|
| Ledger.BalanceAppend | split.js:164 | the balance of two concatenated lists is the sum of their balances |
| Ledger.BalanceZeroIff | split.js:176-177 | the balance is zero exactly when every record holds zero satoshis |
| Ledger.BalancePermutation | split.js:148-155 | reordering the store does not change the balance |
| Ledger.UniqueKeysNoRepeats | split.js:140-151 | a store with unique `(txid, vout)` keys holds no record twice |
| Ledger.DistinctRecordsDistinctKeys | split.js:140-151 | two different records of a store with unique keys have different keys |
| Ledger.UniqueKeysPermutation | split.js:148-151 | reordering a store keeps its keys unique |
| Reconcile.UnspentMembership | split.js:284-291 | a stored record is kept exactly when no input has its `(txid, vout)` |
| Reconcile.UnspentAppend | split.js:284-291 | filtering distributes over concatenation, so kept records keep their relative order |
| Reconcile.UnspentNoneSpent | split.js:284-291 | when no stored record is spent, the store is kept as it is |
| Reconcile.UnspentAllSpent | split.js:284-291 | when every stored record is spent, nothing is kept |
| Reconcile.UnspentUnique | split.js:284-291 | filtering a store with unique keys leaves unique keys |
| Reconcile.OwnRecordsAt | split.js:293-303 | every appended record is the record of the output at its `vout`, with that output's script and satoshis, and that output pays the wallet address |
| Reconcile.OwnRecordsOrdered | split.js:293-303 | appended records have strictly increasing `vout`: output order, no output recorded twice |
| Reconcile.OwnRecordsComplete | split.js:293-303 | every output paying the wallet address has its record appended |
| Reconcile.OwnRecordsTxid | split.js:297 | every appended record carries the transaction's hash as `txid` |
| Reconcile.OwnRecordsValue | split.js:293-303 | the appended records hold exactly the value the outputs pay the wallet address |
| Reconcile.SpentPartMembership | split.js:284-291 | a record is in the spent part exactly when it is stored and some input has its `(txid, vout)` |
| Reconcile.BalanceSplitsBySpent | split.js:284-291 | the store's value is the kept value plus the spent value |
| Reconcile.ReconciledMembership | split.js:283-304 | a record not created by the transaction is in the new store exactly when it was stored and is not spent |
| Reconcile.ReconciledBalance | split.js:283-304 | new balance plus the spent value equals old balance plus the value paid to the wallet |
| Reconcile.ReconciledUnique | split.js:283-304 | keys stay unique when no stored record already carries the new hash |
| Reconcile.Wallet.UpdateWallet | split.js:283-304 | the new store is the kept records in order, followed by one record per own output in output order; the update counter rises by one |
| Reconcile.KeepUnspent | split.js:284-291 | the filter loop returns exactly the unspent records in order |
| Reconcile.SpentBy | split.js:285-290 | the input loop answers true exactly when some input names the record by `(txid, vout)` |
| Builder.FinalizeSpends | split.js:187 | the signed transaction spends exactly the draft's inputs |
| Builder.FinalizeConserves | split.js:188 | with a change output, outputs plus fee equal inputs; without one, the outputs are the draft's |
| Builder.EligibleMembership | split.js:216-218 | an entry is used exactly when it is in the snapshot and worth at least `2 * unit` |
| Builder.EligibleAppend | split.js:216-218 | the threshold filter keeps snapshot order |
| Builder.Repeat | split.js:225-227 | `n` copies of the unit output, and nothing else |
| Builder.WalletSplit | split.js:216-228 | the method's filter, balance check and output loop produce exactly the split draft or `NoFundsToSplit` |
| Builder.SplitShape | split.js:216-228 | split fails exactly when no eligible entry holds value; otherwise its inputs are the eligible entries (none under the threshold), it has `max(splits - 1, 0)` unit outputs to the wallet (none when `splits <= 1`), and the change goes to the split key's address |
| Builder.OwnRecordsOfRepeat | split.js:225-227 | reconciling the unit outputs appends records with vouts `0 .. n - 1` |
| Builder.UnitRecordsLength | split.js:225-227 | there is one unit record per unit output |
| Builder.UnitRecordsBalance | split.js:225-227 | `n` unit records hold `n * unit` |
| Builder.OwnRecordsSkipLast | split.js:295 | an output to another address adds no record |
| Builder.SplitIntoWallet | split.js:223-231 | reconciling an accepted split that spends no stored record of the wallet appends exactly the unit records and raises the balance by `max(splits - 1, 0) * unit`; the change is not recorded |
| Builder.SendFailsIffNoFunds | split.js:176-177 | send fails with `NoFundsToSend` exactly when every record holds zero satoshis |
| Builder.SendAllSpendsStore | split.js:186-190 | with an absent or zero amount and a positive balance, for any fee, the transaction spends every stored record and nothing else, and its only output (if any) pays the receiver |
| Builder.PayKeepsReceiverOutput | split.js:183-185 | with a positive amount, whatever `fund` selects, the broadcast transaction's first output is the payment of `amount` to the receiver, any second output is change to `fund`'s change address, and it spends exactly the selected inputs |
| Builder.SendAllEmptiesStore | split.js:186-190 | a send-all pays the balance less the fee to the receiver as one output and, once reconciled, leaves a store that does not own the receiver address empty |
| Broadcaster.IncludesIff | split.js:328 | `includes` holds exactly when the substring occurs at some position |
| Broadcaster.SentIff | split.js:322-335 | the loop succeeds at post `n` exactly when post `n` is accepted and every earlier one was a transient rejection |
| Broadcaster.FatalIff | split.js:322-335 | the loop rethrows at post `n` exactly when post `n` is rejected without the transient marker and every earlier one was transient |
| Broadcaster.PendingIff | split.js:322-335 | the loop is still retrying at the end of the script exactly when every answer was transient |
| Broadcaster.TransientExamples | split.js:327-328 | "256: too-long-mempool-chain" is retried; a missing message or another error is not |
| Broadcaster.RetryThenAccept | split.js:322-335 | a transient rejection followed by acceptance succeeds after two posts |
| Broadcaster.PostWithRetry | split.js:322-335 | the loop's outcome is the classification of the scripted answers |
| Broadcaster.Broadcast | split.js:307-342 | on success the wallet is reconciled exactly once; on a fatal error or pending retry the wallet is unchanged |
| Commands.WalletSplitCommand | split.js:198-232 | "no funds to split" posts nothing and leaves the wallet unchanged; otherwise the signed split is broadcast and reconciled on success |
| Commands.WalletSendCommand | split.js:170-195 | "no funds to send" exactly on a zero balance, with nothing posted; otherwise the send transaction (with an amount: the receiver output plus `fund`'s inputs and change) is broadcast and reconciled on success |
| Sync.SortBySatoshis | split.js:148-150 | the array ends ordered by satoshis, non-increasing, and is a permutation of the original |
| Sync.Insert | split.js:148-150 | one insertion step extends the ordered prefix by one and permutes the array |
| Sync.WalletSync | split.js:133-158 | on testnet it fails with "no testnet api" and the store is unchanged; otherwise the store becomes the queried records sorted non-increasing, unique keys stay unique, and the reported balance is their sum |
| Mnemonic.CheckEntropy | split.js:29-38 | an absent argument means 256 bits and is accepted; a given entropy is accepted exactly when it is 128 or 256; otherwise the error names the value |

## Left out

- Key derivation, WIF and address encoding, and ECDSA signing (`walletNew`, `HDPrivateKey`, `PrivateKey`, `tx.sign`) are foreign library calls. Addresses and scripts are opaque strings. The script the library derives from an address travels with it as a `Destination`. Signing is `Finalize` with the hash as a parameter.
- Fee and size computation (`Transaction.FEE_PER_KB`) and the library's own change rules, such as a dust threshold, are left out. The fee is an abstract parameter, and change is added iff it is positive.
- All network I/O is left out: the unspent queries, the RPC post and the 1-second delay. Query results and node answers are parameters. Because the script of answers is finite, an unbounded run of transient rejections ends as `Pending`.
- Wallet-file and lock-file I/O and signal handling are left out. The wallet is an in-memory object. `walletSync` reads and writes the fixed path `.wallet.json`, while the other commands use `WALLET_PATH`. This difference is file I/O and is not modelled.
- `fund()`, `inscribe()`, `server()`, `mint()`, `main()` and `wallet()` are left out. The first three are not defined in this file. `mint` reads an undefined variable. The dispatchers only parse the command line.
- Commands.WalletSendCommand: with an amount, the source broadcasts the same transaction object that holds the receiver output, after `fund(wallet, tx)` has changed it; the return value of `fund` is not used. The model adds `fund`'s inputs and change address, which are parameters, to that draft. It does not promise that those inputs come from the store or cover the amount, because `fund` is not defined in this file.
- Commands.WalletSendCommand: a negative amount is not modelled, because the amount is a `nat`. The library's `to` rejects such amounts.
- The only entry point of the file is the call `walletSplit()` at its end. `main()` is never called, so as written `send`, `sync`, `balance` and `new` cannot be reached, and the split count is read from the first command-line argument. The model gives each command as an operation of its own, with typed parameters.
- JavaScript numbers are doubles, so the `reduce` sums lose precision above 2^53 satoshis. `Balance` is an exact unbounded sum. The zero checks agree for any values; only a reported balance that large would differ.
- Command-line parsing is left out. Arguments are typed parameters. An absent or `NaN` send amount is `None`. A `NaN` split count acts like any count `<= 1`: the `for` loop adds no unit outputs.
- Builder.WalletSplit: a `NaN` or negative `unit` is not modelled, because `unit` is a `nat`. With `NaN`, no entry passes the threshold.
- Sync.SortBySatoshis: stability is not stated. JavaScript's sort is stable, but the wallet gives no meaning to the order of equal values.
- Mnemonic.CheckEntropy: only the entropy check is modelled. Generating the words is the mnemonic library's job.
- Printing to the console (`console.log`, `console.warn`) is left out.
