/** Broadcasting with retry (`broadcast`): post the transaction until the node
    accepts it, retrying only on the transient "too-long-mempool-chain"
    rejection, and reconcile the wallet once, after the accepted post. The
    node's answers are a finite script of responses, one per post. */
module Broadcaster {
  import opened Wrappers
  import opened Ledger
  import opened Reconcile

  /** The substring that marks the transient mempool-chain-depth rejection. */
  const TooLongMempoolChain := "too-long-mempool-chain"

  /** `s.includes(sub)`. */
  predicate Includes(s: string, sub: string)
    decreases |s|
  {
    |sub| <= |s| && (s[..|sub|] == sub || (|s| > 0 && Includes(s[1..], sub)))
  }

  /** `sub` occurs in `s` at position `i`. */
  predicate OccursAt(s: string, sub: string, i: int)
  {
    0 <= i <= |s| - |sub| && s[i..i + |sub|] == sub
  }

  /** `Includes` holds exactly when `sub` occurs at some position of `s`. */
  lemma {:induction false} IncludesIff(s: string, sub: string)
    ensures Includes(s, sub) <==> exists i :: OccursAt(s, sub, i)
  {
    if |sub| <= |s| && |s| > 0 {
      IncludesIff(s[1..], sub);
      if s[..|sub|] == sub {
        assert OccursAt(s, sub, 0);
      } else if Includes(s[1..], sub) {
        var i :| OccursAt(s[1..], sub, i);
        assert s[i + 1..i + 1 + |sub|] == s[1..][i..i + |sub|];
        assert OccursAt(s, sub, i + 1);
      }
      if exists i :: OccursAt(s, sub, i) {
        var i :| OccursAt(s, sub, i);
        if i > 0 {
          assert s[1..][i - 1..i - 1 + |sub|] == s[i..i + |sub|];
          assert OccursAt(s[1..], sub, i - 1);
        } else {
          assert s[..|sub|] == s[0..|sub|];
        }
      }
    } else if |sub| <= |s| {
      assert OccursAt(s, sub, 0);
    }
  }

  /** One answer of the node to one post: accepted, or an error whose
      `response.data.error.message` may be missing. */
  datatype Response = Accepted | Rejected(message: Option<string>)

  /** `msg && msg.includes('too-long-mempool-chain')`: the only errors retried. */
  predicate IsTransient(message: Option<string>)
  {
    message.Some? && Includes(message.value, TooLongMempoolChain)
  }

  /** How the retry loop ends, and after how many posts. `Pending` means the
      script ran out while every answer was transient; the real loop would go on. */
  datatype Outcome = Sent(attempts: nat) | Fatal(attempts: nat, message: Option<string>) | Pending(attempts: nat)

  /** The retry loop from post number `i` on. */
  function PostFrom(responses: seq<Response>, i: nat): Outcome
    requires i <= |responses|
    decreases |responses| - i
  {
    if i == |responses| then Pending(i)
    else
      match responses[i]
      case Accepted => Sent(i + 1)
      case Rejected(m) => if IsTransient(m) then PostFrom(responses, i + 1) else Fatal(i + 1, m)
  }

  /** Every answer in `responses[lo..hi]` is a transient rejection. */
  predicate AllTransient(responses: seq<Response>, lo: nat, hi: nat)
    requires lo <= hi <= |responses|
  {
    forall j :: lo <= j < hi ==> responses[j].Rejected? && IsTransient(responses[j].message)
  }

  /** The loop stops with success at post `n` exactly when post `n` is accepted
      and every earlier post was rejected as transient. */
  lemma {:induction false} SentIff(responses: seq<Response>, i: nat, n: nat)
    requires i <= |responses|
    ensures PostFrom(responses, i) == Sent(n) <==>
            i < n <= |responses| && responses[n - 1] == Accepted && AllTransient(responses, i, n - 1)
    decreases |responses| - i
  {
    if i < |responses| && responses[i].Rejected? && IsTransient(responses[i].message) {
      SentIff(responses, i + 1, n);
    }
  }

  /** The loop rethrows at post `n` exactly when post `n` is rejected with a
      message that is not the transient one (or none) and every earlier post
      was rejected as transient. */
  lemma {:induction false} FatalIff(responses: seq<Response>, i: nat, n: nat, m: Option<string>)
    requires i <= |responses|
    ensures PostFrom(responses, i) == Fatal(n, m) <==>
            i < n <= |responses| && responses[n - 1] == Rejected(m) && !IsTransient(m) &&
            AllTransient(responses, i, n - 1)
    decreases |responses| - i
  {
    if i < |responses| && responses[i].Rejected? && IsTransient(responses[i].message) {
      FatalIff(responses, i + 1, n, m);
    }
  }

  /** The loop is still retrying when the script ends exactly when every
      answer was a transient rejection. */
  lemma {:induction false} PendingIff(responses: seq<Response>, i: nat)
    requires i <= |responses|
    ensures PostFrom(responses, i).Pending? <==> AllTransient(responses, i, |responses|)
    ensures PostFrom(responses, i).Pending? ==> PostFrom(responses, i).attempts == |responses|
    decreases |responses| - i
  {
    if i < |responses| && responses[i].Rejected? && IsTransient(responses[i].message) {
      PendingIff(responses, i + 1);
    }
  }

  /** The node's own transient message is retried; an error without a
      message, or with a message too short to hold the marker, is not. */
  lemma TransientExamples()
    ensures IsTransient(Some("256: " + TooLongMempoolChain))
    ensures !IsTransient(None)
    ensures !IsTransient(Some("bad-txns-inputs-spent"))
  {
    var msg := "256: " + TooLongMempoolChain;
    assert msg[5..5 + |TooLongMempoolChain|] == TooLongMempoolChain;
    assert OccursAt(msg, TooLongMempoolChain, 5);
    IncludesIff(msg, TooLongMempoolChain);
  }

  /** A transient rejection followed by acceptance ends in success after two
      posts of the same transaction. */
  lemma RetryThenAccept()
    ensures PostFrom([Rejected(Some("256: " + TooLongMempoolChain)), Accepted], 0) == Sent(2)
  {
    TransientExamples();
  }

  /** The `while (true)` loop of `broadcast`, over the scripted answers. */
  method PostWithRetry(responses: seq<Response>) returns (outcome: Outcome)
    ensures outcome == PostFrom(responses, 0)
  {
    var i := 0;
    while i < |responses|
      invariant 0 <= i <= |responses|
      invariant PostFrom(responses, 0) == PostFrom(responses, i)
    {
      match responses[i]
      case Accepted =>
        return Sent(i + 1);
      case Rejected(m) =>
        if !IsTransient(m) {
          return Fatal(i + 1, m);
        }
      i := i + 1;
    }
    return Pending(i);
  }

  /** `broadcast(tx)`: retry the post, and only after an accepted post read the
      wallet, apply `updateWallet` once and write it back. A fatal error leaves
      the wallet untouched. */
  method Broadcast(wallet: Wallet, tx: Tx, responses: seq<Response>) returns (outcome: Outcome)
    modifies wallet
    ensures outcome == PostFrom(responses, 0)
    ensures outcome.Sent? ==> wallet.utxos == Reconciled(old(wallet.utxos), wallet.address, tx)
    ensures outcome.Sent? ==> wallet.updates == old(wallet.updates) + 1
    ensures !outcome.Sent? ==> wallet.utxos == old(wallet.utxos) && wallet.updates == old(wallet.updates)
  {
    outcome := PostWithRetry(responses);
    if outcome.Sent? {
      wallet.UpdateWallet(tx);
    }
  }
}
