/** The trade feed: the snapshot's transaction history, oldest first, turned
    into the most recent trades, newest first, at most `limit` of them. */
module MatchHistory {
  import opened Wrappers
  import opened Wire

  /** The number of trades shown when the component gets no `limit`. */
  const DefaultLimit: int := 15

  /** The history in reverse order. */
  function Reversed(txs: seq<Transaction>): (r: seq<Transaction>)
    ensures |r| == |txs|
    ensures forall i :: 0 <= i < |r| ==> r[i] == txs[|txs| - 1 - i]
  {
    if txs == [] then [] else [txs[|txs| - 1]] + Reversed(txs[..|txs| - 1])
  }

  /** The end index `Array.prototype.slice(0, end)` uses on a list of
      `length` elements: a negative end counts back from the length. */
  function SliceEnd(length: nat, end: int): (e: nat)
    ensures e <= length
  {
    if end < 0 then (if length + end > 0 then length + end else 0)
    else if end < length then end
    else length
  }

  /** The feed: a reversed copy of the history cut to its first `limit`
      entries. */
  function RecentTransactions(txs: seq<Transaction>, limit: int): (r: seq<Transaction>)
    ensures 0 <= limit ==> |r| == if limit < |txs| then limit else |txs|
    ensures limit < 0 ==> |r| == if |txs| + limit > 0 then |txs| + limit else 0
    ensures forall i :: 0 <= i < |r| ==> r[i] == txs[|txs| - 1 - i]
  {
    Reversed(txs)[..SliceEnd(|txs|, limit)]
  }

  /** No history, no trades: the feed shows its "No transactions yet" row. */
  lemma EmptyHistory(limit: int)
    ensures RecentTransactions([], limit) == []
  {
  }

  /** A new trade goes to the top of the feed and pushes the rest down by
      one. */
  lemma NewTradeOnTop(txs: seq<Transaction>, t: Transaction, limit: int)
    requires limit >= 1
    ensures RecentTransactions(txs + [t], limit) == [t] + RecentTransactions(txs, limit - 1)
  {
    var lhs := RecentTransactions(txs + [t], limit);
    var rhs := [t] + RecentTransactions(txs, limit - 1);
    assert |lhs| == |rhs|;
    forall i | 0 <= i < |lhs|
      ensures lhs[i] == rhs[i]
    {
      if i > 0 {
        assert rhs[i] == RecentTransactions(txs, limit - 1)[i - 1];
      }
    }
  }

  /** A sequence that holds `s` back to front is `Reversed(s)`. */
  lemma ReversedByIndex(s: seq<Transaction>, t: seq<Transaction>)
    requires |t| == |s|
    requires forall k :: 0 <= k < |t| ==> t[k] == s[|s| - 1 - k]
    ensures t == Reversed(s)
  {
  }

  /** `Array.prototype.reverse`: the array is reversed in place. */
  method ReverseInPlace(a: array<Transaction>)
    modifies a
    ensures a[..] == Reversed(old(a[..]))
  {
    ghost var original := a[..];
    var n := a.Length;
    var i := 0;
    while i < n / 2
      invariant 0 <= i <= n / 2
      invariant forall k :: 0 <= k < i ==> a[k] == original[n - 1 - k]
      invariant forall k :: n - i <= k < n ==> a[k] == original[n - 1 - k]
      invariant forall k :: i <= k < n - i ==> a[k] == original[k]
    {
      var j := n - 1 - i;
      assert i < j;
      var tmp := a[i];
      a[i] := a[j];
      a[j] := tmp;
      i := i + 1;
    }
    ReversedByIndex(original, a[..]);
  }

  /** The spread copy, in-place reversal and slice the component performs:
      the result is the feed, and the caller's array is left as it was. */
  method RecentCopy(txs: array<Transaction>, limit: int) returns (recent: seq<Transaction>)
    ensures recent == RecentTransactions(txs[..], limit)
  {
    var copy := new Transaction[txs.Length](i reads txs requires 0 <= i < txs.Length => txs[i]);
    assert copy[..] == txs[..];
    ReverseInPlace(copy);
    recent := copy[..SliceEnd(copy.Length, limit)];
  }

  /** The feed component: the trades it shows, recomputed on every
      successful poll. */
  class TradeFeed {
    const limit: int
    var transactions: seq<Transaction>

    constructor (limitProp: Option<int>)
      ensures limit == limitProp.GetOr(DefaultLimit)
      ensures transactions == []
    {
      limit := limitProp.GetOr(DefaultLimit);
      transactions := [];
    }

    /** One poll. `response` is the decoded snapshot, or None when the
        request or the decoding failed; a failure keeps the shown trades. */
    method FetchData(response: Option<Snapshot>)
      modifies this`transactions
      ensures transactions == if response.Some? then RecentTransactions(response.value.transactions, limit)
                              else old(transactions)
      ensures response.Some? && response.value.transactions == [] ==> ShowsEmptyState()
    {
      if response.Some? {
        var txs := response.value.transactions;
        var decoded := new Transaction[|txs|](i requires 0 <= i < |txs| => txs[i]);
        assert decoded[..] == txs;
        transactions := RecentCopy(decoded, limit);
        if txs == [] {
          EmptyHistory(limit);
        }
      }
    }

    /** Whether the "No transactions yet" row is shown instead of the table. */
    function ShowsEmptyState(): (r: bool)
      reads this
      ensures r <==> transactions == []
    {
      |transactions| == 0
    }
  }
}
