/**
 * The snapshot truncator of the blotter service host: the `Select` lambda that
 * shapes every trade batch before it is sent to a client.
 */
module SnapshotTruncation {

  /** The largest number of trades a state-of-the-world batch may carry when sent. */
  const MaxSotwTrades: nat := 50

  /**
   * A batch of trades as the blotter service emits it. `trades` is in feed
   * order; a state-of-the-world batch replaces the client's whole view, any
   * other batch is a delta. Trades are opaque: only their number and order matter.
   */
  datatype TradeBatch<T> = TradeBatch(trades: seq<T>, isStateOfTheWorld: bool, isStale: bool)

  /** A state-of-the-world batch too large to be sent as it is. */
  predicate Oversized<T>(b: TradeBatch<T>)
  {
    b.isStateOfTheWorld && |b.trades| > MaxSotwTrades
  }

  /**
   * The truncation lambda: an oversized snapshot is replaced by a fresh
   * (not stale) snapshot of its last `MaxSotwTrades` trades; every other
   * batch is passed through as it is.
   */
  function Truncate<T>(x: TradeBatch<T>): (r: TradeBatch<T>)
    ensures Oversized(x) ==> |r.trades| == MaxSotwTrades && r.isStateOfTheWorld && !r.isStale
    ensures Oversized(x) ==>
      forall i :: 0 <= i < MaxSotwTrades ==> r.trades[i] == x.trades[|x.trades| - MaxSotwTrades + i]
    ensures !Oversized(x) ==> r == x
    ensures r.isStateOfTheWorld == x.isStateOfTheWorld
    ensures !Oversized(r)
  {
    if Oversized(x) then
      TradeBatch(x.trades[|x.trades| - MaxSotwTrades..], true, false)
    else
      x
  }

  /** A batch is left alone exactly when it is not an oversized snapshot. */
  lemma TruncateChangesOnlyOversized<T>(x: TradeBatch<T>)
    ensures Truncate(x) == x <==> !Oversized(x)
  {
    if Oversized(x) {
      assert |Truncate(x).trades| < |x.trades|;
    }
  }

  /** Truncating an already truncated batch changes nothing. */
  lemma TruncateIdempotent<T>(x: TradeBatch<T>)
    ensures Truncate(Truncate(x)) == Truncate(x)
  {
    TruncateChangesOnlyOversized(Truncate(x));
  }

  /** The retained trades are a suffix of the input's trades, so their order is kept. */
  lemma TruncateKeepsSuffix<T>(x: TradeBatch<T>)
    ensures |Truncate(x).trades| <= |x.trades|
    ensures Truncate(x).trades == x.trades[|x.trades| - |Truncate(x).trades|..]
  {
    var r := Truncate(x);
    if Oversized(x) {
      var n := |x.trades|;
      assert forall i :: 0 <= i < |r.trades| ==> r.trades[i] == x.trades[n - |r.trades|..][i];
    }
  }
}
