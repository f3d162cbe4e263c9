/** `walletSync`: the query service's unspent list becomes the wallet's store,
    ordered by value from largest to smallest. */
module Sync {
  import opened Wrappers
  import opened Ledger
  import opened Reconcile

  /** One entry of `GET /address/{address}/unspent`. */
  datatype UnspentEntry = UnspentEntry(txHash: TxId, txPos: nat, value: nat)

  /** The `map` from query entries to records, all locked by `script`. */
  function ToRecords(entries: seq<UnspentEntry>, script: ScriptHex): seq<Utxo>
  {
    seq(|entries|, i requires 0 <= i < |entries| => Utxo(entries[i].txHash, entries[i].txPos, script, entries[i].value))
  }

  /** Ordered by `satoshis`, largest first. */
  predicate NonIncreasing(utxos: seq<Utxo>)
  {
    forall p, q :: 0 <= p < q < |utxos| ==> utxos[p].satoshis >= utxos[q].satoshis
  }

  /** The first `n` records of `a` are ordered largest first. */
  ghost predicate SortedPrefix(a: array<Utxo>, n: int)
    reads a
  {
    forall p, q :: 0 <= p < q < n && q < a.Length ==> a[p].satoshis >= a[q].satoshis
  }

  /** `utxos.sort((a, b) => b.satoshis - a.satoshis)`, as an in-place
      insertion sort. */
  method SortBySatoshis(a: array<Utxo>)
    modifies a
    ensures NonIncreasing(a[..])
    ensures multiset(a[..]) == multiset(old(a[..]))
  {
    var i := 0;
    while i < a.Length
      invariant 0 <= i <= a.Length
      invariant SortedPrefix(a, i)
      invariant multiset(a[..]) == multiset(old(a[..]))
    {
      Insert(a, i);
      i := i + 1;
    }
  }

  /** Moves `a[i]` left past every strictly smaller record, so that the first
      `i + 1` records are ordered. */
  method Insert(a: array<Utxo>, i: nat)
    requires i < a.Length
    requires SortedPrefix(a, i)
    modifies a
    ensures SortedPrefix(a, i + 1)
    ensures multiset(a[..]) == multiset(old(a[..]))
    ensures forall m :: i < m < a.Length ==> a[m] == old(a[m])
  {
    var j := i;
    while j > 0 && a[j - 1].satoshis < a[j].satoshis
      invariant 0 <= j <= i
      invariant forall p, q :: 0 <= p < q <= i && p != j && q != j ==> a[p].satoshis >= a[q].satoshis
      invariant forall q :: j < q <= i ==> a[j].satoshis > a[q].satoshis
      invariant multiset(a[..]) == multiset(old(a[..]))
      invariant forall m :: i < m < a.Length ==> a[m] == old(a[m])
    {
      Swap(a, j);
      j := j - 1;
    }
  }

  /** Exchanges `a[j - 1]` and `a[j]`. */
  method Swap(a: array<Utxo>, j: nat)
    requires 0 < j < a.Length
    modifies a
    ensures a[j - 1] == old(a[j]) && a[j] == old(a[j - 1])
    ensures forall m :: 0 <= m < a.Length && m != j - 1 && m != j ==> a[m] == old(a[m])
    ensures multiset(a[..]) == multiset(old(a[..]))
  {
    a[j - 1], a[j] := a[j], a[j - 1];
  }

  /** `walletSync`: on testnet throw "no testnet api" before anything is read;
      otherwise map the entries, sort them, store them and report the balance
      of the new store. Keys the query service reports unique stay unique. */
  method WalletSync(wallet: Wallet, testnet: bool, entries: seq<UnspentEntry>, script: ScriptHex)
    returns (r: Result<nat, Error>)
    modifies wallet
    ensures testnet <==> r.Failure?
    ensures r.Failure? ==> r.error == NoTestnetApi && wallet.utxos == old(wallet.utxos)
    ensures r.Success? ==> NonIncreasing(wallet.utxos)
    ensures r.Success? ==> multiset(wallet.utxos) == multiset(ToRecords(entries, script))
    ensures r.Success? ==> r.value == Balance(wallet.utxos) == Balance(ToRecords(entries, script))
    ensures r.Success? && UniqueKeys(ToRecords(entries, script)) ==> UniqueKeys(wallet.utxos)
    ensures wallet.updates == old(wallet.updates)
  {
    if testnet {
      return Failure(NoTestnetApi);
    }
    var records := ToRecords(entries, script);
    var a := new Utxo[|records|](i requires 0 <= i < |records| => records[i]);
    assert a[..] == records;
    SortBySatoshis(a);
    wallet.utxos := a[..];
    BalancePermutation(wallet.utxos, records);
    if UniqueKeys(records) {
      UniqueKeysPermutation(records, wallet.utxos);
    }
    return Success(Balance(wallet.utxos));
  }
}
