/**
 * The per-request delivery chain of `GetTradesStream`: the service's trade
 * stream, mapped through the truncator (`Select`), cut off by the endpoint's
 * termination signal (`TakeUntil`) and handed to the endpoint (`Subscribe`).
 *
 * A run of the chain is modelled as a finite trace: the interleaving, in the
 * order the chain observes them, of the batches the service emits and the
 * firings of the endpoint's termination signal.
 */
module DeliveryPipeline {
  import opened SnapshotTruncation

  /** One observation of the chain: a batch from the service, or the termination signal. */
  datatype Event<T> = Emit(batch: TradeBatch<T>) | Terminate

  /** The position of the first termination signal in a trace, or its length when none fires. */
  function FirstTermination<T>(trace: seq<Event<T>>): (k: nat)
    ensures k <= |trace|
    ensures forall i :: 0 <= i < k ==> trace[i].Emit?
    ensures k < |trace| ==> trace[k].Terminate?
  {
    if trace == [] || trace[0].Terminate? then 0 else 1 + FirstTermination(trace[1..])
  }

  /** Rx `Select`: each emitted batch is transformed by `f`; termination signals pass by untouched. */
  function Select<T>(f: TradeBatch<T> -> TradeBatch<T>, trace: seq<Event<T>>): (r: seq<Event<T>>)
    ensures |r| == |trace|
    ensures forall i :: 0 <= i < |trace| ==> r[i].Emit? == trace[i].Emit?
    ensures forall i :: 0 <= i < |trace| && trace[i].Emit? ==> r[i].batch == f(trace[i].batch)
  {
    if trace == [] then []
    else
      var head := if trace[0].Emit? then Emit(f(trace[0].batch)) else Terminate;
      [head] + Select(f, trace[1..])
  }

  /**
   * Rx `TakeUntil` followed by the subscribing endpoint: the batches that reach
   * the endpoint are those emitted before the termination signal first fires.
   */
  function TakeUntil<T>(trace: seq<Event<T>>): (r: seq<TradeBatch<T>>)
    ensures |r| == FirstTermination(trace)
    ensures forall i :: 0 <= i < |r| ==> trace[i] == Emit(r[i])
  {
    if trace == [] || trace[0].Terminate? then []
    else [trace[0].batch] + TakeUntil(trace[1..])
  }

  /** The three facts in the contract of `FirstTermination` determine it. */
  lemma FirstTerminationUnique<T>(trace: seq<Event<T>>, k: nat)
    requires k <= |trace|
    requires forall i :: 0 <= i < k ==> trace[i].Emit?
    requires k < |trace| ==> trace[k].Terminate?
    ensures FirstTermination(trace) == k
  {
  }

  /** Two traces that agree on which positions are emissions agree on where termination first fires. */
  lemma FirstTerminationBySignals<T>(a: seq<Event<T>>, b: seq<Event<T>>)
    requires |a| == |b|
    requires forall i :: 0 <= i < |a| ==> a[i].Emit? == b[i].Emit?
    ensures FirstTermination(a) == FirstTermination(b)
  {
    FirstTerminationUnique(a, FirstTermination(b));
  }

  /**
   * What the endpoint receives from one run of the chain. Its contract is the
   * reference reading of the chain: one batch per emission before the first
   * termination signal, in source order, each truncated; hence no snapshot
   * larger than `MaxSotwTrades` ever reaches the endpoint.
   */
  function Delivered<T>(trace: seq<Event<T>>): (r: seq<TradeBatch<T>>)
    ensures |r| == FirstTermination(trace)
    ensures forall i :: 0 <= i < |r| ==> trace[i].Emit? && r[i] == Truncate(trace[i].batch)
    ensures forall b :: b in r ==> !Oversized(b)
  {
    var selected := Select(Truncate, trace);
    FirstTerminationBySignals(selected, trace);
    TakeUntil(selected)
  }

  /** The first termination signal in a prefix is the first one in any extension of it. */
  lemma FirstTerminationExtended<T>(pre: seq<Event<T>>, post: seq<Event<T>>)
    ensures FirstTermination(pre) < |pre| ==> FirstTermination(pre + post) == FirstTermination(pre)
    ensures FirstTermination(pre) == |pre| ==> FirstTermination(pre + post) == |pre| + FirstTermination(post)
  {
    var k := FirstTermination(pre);
    if k < |pre| {
      FirstTerminationUnique(pre + post, k);
    } else {
      var kpost := FirstTermination(post);
      assert forall i :: |pre| <= i < |pre| + kpost ==> (pre + post)[i] == post[i - |pre|];
      FirstTerminationUnique(pre + post, |pre| + kpost);
    }
  }

  /** Delivery is incremental: what is delivered for a prefix of a trace is never withdrawn or reordered later. */
  lemma DeliveredPrefix<T>(pre: seq<Event<T>>, post: seq<Event<T>>)
    ensures Delivered(pre) <= Delivered(pre + post)
  {
    FirstTerminationExtended(pre, post);
    var d, e := Delivered(pre), Delivered(pre + post);
    assert forall i :: 0 <= i < |d| ==> (pre + post)[i] == pre[i];
    assert d == e[..|d|];
  }

  /** Once the termination signal has fired, nothing that follows it in the trace is delivered. */
  lemma NothingDeliveredAfterTermination<T>(pre: seq<Event<T>>, post: seq<Event<T>>)
    requires Terminate in pre
    ensures Delivered(pre + post) == Delivered(pre)
  {
    var j :| 0 <= j < |pre| && pre[j] == Terminate;
    assert FirstTermination(pre) <= j;
    DeliveredPrefix(pre, post);
    FirstTerminationExtended(pre, post);
  }

  /** Before termination, each emitted batch is delivered as soon as it is emitted, after those before it. */
  lemma DeliveredStep<T>(pre: seq<Event<T>>, b: TradeBatch<T>)
    requires Terminate !in pre
    ensures Delivered(pre + [Emit(b)]) == Delivered(pre) + [Truncate(b)]
  {
    FirstTerminationUnique(pre, |pre|);
    FirstTerminationExtended(pre, [Emit(b)]);
    DeliveredPrefix(pre, [Emit(b)]);
    var e := Delivered(pre + [Emit(b)]);
    assert (pre + [Emit(b)])[|pre|] == Emit(b);
    assert e == e[..|pre|] + [e[|pre|]];
  }

  /**
   * A state-of-the-world batch of 80 trades followed by a delta of 3 reaches
   * the endpoint as two batches: the last 50 snapshot trades, marked fresh,
   * then the delta unchanged.
   */
  lemma SnapshotThenDeltaExample<T>(snapshot: seq<T>, delta: seq<T>, stale: bool, deltaStale: bool)
    requires |snapshot| == 80 && |delta| == 3
    ensures Delivered([Emit(TradeBatch(snapshot, true, stale)), Emit(TradeBatch(delta, false, deltaStale))])
         == [TradeBatch(snapshot[30..], true, false), TradeBatch(delta, false, deltaStale)]
  {
    var trace := [Emit(TradeBatch(snapshot, true, stale)), Emit(TradeBatch(delta, false, deltaStale))];
    assert FirstTermination(trace[2..]) == 0;
    assert FirstTermination(trace[1..]) == 1;
  }
}
