/** The wallet's records: UTXOs as the wallet file stores them, and the parts
    of a transaction that the ledger reads (input references, outputs, hash).
    Addresses, locking scripts and transaction ids are opaque strings. */
module Ledger {
  import opened Wrappers

  type Address = string
  type TxId = string
  type ScriptHex = string

  /** One stored spendable output; `(txid, vout)` is its key. */
  datatype Utxo = Utxo(txid: TxId, vout: nat, script: ScriptHex, satoshis: nat)

  /** An address together with the locking script the signing library derives from it. */
  datatype Destination = Destination(address: Address, script: ScriptHex)

  /** A reference to the output `outputIndex` of transaction `prevTxId`. */
  datatype TxInput = TxInput(prevTxId: TxId, outputIndex: nat)

  datatype TxOutput = TxOutput(to: Destination, satoshis: nat)

  /** A signed transaction as the ledger sees it. */
  datatype Tx = Tx(inputs: seq<TxInput>, outputs: seq<TxOutput>, hash: TxId)

  /** The conditions under which a wallet command throws. */
  datatype Error =
    | NoFundsToSend
    | NoFundsToSplit
    | IncorrectEntropy(bits: int)
    | NoTestnetApi

  /** The wallet balance: `utxos.reduce((acc, curr) => acc + curr.satoshis, 0)`,
      folded from the left as the reduce does. */
  function Balance(utxos: seq<Utxo>): nat
  {
    if utxos == [] then 0 else Balance(utxos[..|utxos| - 1]) + utxos[|utxos| - 1].satoshis
  }

  /** Sum of the values of a list of outputs. */
  function OutputTotal(outputs: seq<TxOutput>): nat
  {
    if outputs == [] then 0 else OutputTotal(outputs[..|outputs| - 1]) + outputs[|outputs| - 1].satoshis
  }

  /** Some input of the transaction names `u` by its `(txid, vout)` key. */
  predicate Spends(inputs: seq<TxInput>, u: Utxo)
  {
    exists j :: 0 <= j < |inputs| && inputs[j].prevTxId == u.txid && inputs[j].outputIndex == u.vout
  }

  /** No two stored records share a `(txid, vout)` key. */
  predicate UniqueKeys(utxos: seq<Utxo>)
  {
    forall i, j :: 0 <= i < j < |utxos| ==> utxos[i].txid != utxos[j].txid || utxos[i].vout != utxos[j].vout
  }

  lemma {:induction false} BalanceAppend(a: seq<Utxo>, b: seq<Utxo>)
    ensures Balance(a + b) == Balance(a) + Balance(b)
    decreases |b|
  {
    if b != [] {
      var n := |b| - 1;
      assert (a + b)[..|a + b| - 1] == a + b[..n];
      BalanceAppend(a, b[..n]);
    } else {
      assert a + b == a;
    }
  }

  /** The balance is zero exactly when every record holds zero satoshis, so a
      non-empty store of zero-value records still has no funds. */
  lemma {:induction false} BalanceZeroIff(utxos: seq<Utxo>)
    ensures Balance(utxos) == 0 <==> forall i :: 0 <= i < |utxos| ==> utxos[i].satoshis == 0
  {
    if utxos != [] {
      var n := |utxos| - 1;
      BalanceZeroIff(utxos[..n]);
      assert forall i :: 0 <= i < n ==> utxos[..n][i] == utxos[i];
    }
  }

  /** The balance does not depend on the order of the records. */
  lemma {:induction false} BalancePermutation(a: seq<Utxo>, b: seq<Utxo>)
    requires multiset(a) == multiset(b)
    ensures Balance(a) == Balance(b)
    decreases |a|
  {
    if a == [] {
      assert |b| == |multiset(b)| == 0;
    } else {
      var n := |a| - 1;
      var x := a[n];
      assert a == a[..n] + [x];
      assert x in multiset(b);
      var j :| 0 <= j < |b| && b[j] == x;
      var rest := b[..j] + b[j + 1..];
      assert b == b[..j] + [x] + b[j + 1..];
      assert multiset(a) == multiset(a[..n]) + multiset{x};
      assert multiset(b) == multiset(b[..j]) + multiset{x} + multiset(b[j + 1..]);
      assert multiset(rest) == multiset(b[..j]) + multiset(b[j + 1..]);
      assert multiset(a[..n]) == multiset(a) - multiset{x};
      assert multiset(rest) == multiset(b) - multiset{x};
      BalancePermutation(a[..n], rest);
      BalanceAppend(b[..j] + [x], b[j + 1..]);
      BalanceAppend(b[..j], [x]);
      BalanceAppend(b[..j], b[j + 1..]);
      assert Balance([x]) == x.satoshis by {
        assert [x][..0] == [];
      }
    }
  }

  /** In a store with unique keys, no record occurs twice. */
  lemma {:induction false} UniqueKeysNoRepeats(utxos: seq<Utxo>, x: Utxo)
    requires UniqueKeys(utxos)
    ensures multiset(utxos)[x] <= 1
  {
    if utxos != [] {
      var n := |utxos| - 1;
      var prefix := utxos[..n];
      assert utxos == prefix + [utxos[n]];
      assert UniqueKeys(prefix) by {
        assert forall i :: 0 <= i < n ==> prefix[i] == utxos[i];
      }
      UniqueKeysNoRepeats(prefix, x);
      if utxos[n] == x {
        forall p | 0 <= p < n
          ensures prefix[p] != x
        {
          assert prefix[p] == utxos[p];
        }
        assert x !in prefix;
      }
    }
  }

  /** Two different records of a store with unique keys have different keys. */
  lemma DistinctRecordsDistinctKeys(utxos: seq<Utxo>, x: Utxo, y: Utxo)
    requires UniqueKeys(utxos)
    requires x in utxos && y in utxos && x != y
    ensures x.txid != y.txid || x.vout != y.vout
  {
    var p :| 0 <= p < |utxos| && utxos[p] == x;
    var q :| 0 <= q < |utxos| && utxos[q] == y;
    if p > q {
      assert utxos[q].txid != utxos[p].txid || utxos[q].vout != utxos[p].vout;
    }
  }

  /** Reordering a store keeps its keys unique. */
  lemma UniqueKeysPermutation(a: seq<Utxo>, b: seq<Utxo>)
    requires multiset(a) == multiset(b)
    requires UniqueKeys(a)
    ensures UniqueKeys(b)
  {
    forall i, j | 0 <= i < j < |b|
      ensures b[i].txid != b[j].txid || b[i].vout != b[j].vout
    {
      assert b[i] in multiset(a) && b[j] in multiset(a);
      if b[i] == b[j] {
        assert b == b[..j] + [b[j]] + b[j + 1..];
        assert b[i] in b[..j];
        assert multiset(b)[b[j]] >= 2;
        UniqueKeysNoRepeats(a, b[j]);
        assert false;
      } else {
        DistinctRecordsDistinctKeys(a, b[i], b[j]);
      }
    }
  }
}
