/**
 * The blotter service host's own state: the handle of the pipeline it last
 * subscribed, which `GetTradesStream` overwrites and `Dispose` releases.
 */
module BlotterHost {
  import opened SnapshotTruncation
  import opened DeliveryPipeline

  /** What a `getTradesStream` request carries: where and under which correlation id to reply. */
  datatype RequestContext = RequestContext(replyTo: string, correlationId: string)

  /**
   * The handle `Subscribe` returns for one request's pipeline. It records the
   * private endpoint (reply address and correlation id) the pipeline feeds.
   */
  class Subscription {
    const replyTo: string
    const correlationId: string

    constructor (replyTo: string, correlationId: string)
      ensures this.replyTo == replyTo && this.correlationId == correlationId
    {
      this.replyTo := replyTo;
      this.correlationId := correlationId;
    }
  }

  class BlotterServiceHost {
    /** The `_subscription` field: the handle of the most recently started pipeline, if any. */
    var subscription: Subscription?
    /** Every handle this host has stored, oldest first. */
    ghost var started: seq<Subscription>
    /** Every call of `Dispose` this host has made on a handle, in order. */
    ghost var disposeCalls: seq<Subscription>

    ghost predicate Valid()
      reads this
    {
      && (subscription == null <==> started == [])
      && (subscription != null ==> subscription == started[|started| - 1])
      && (forall i, j :: 0 <= i < j < |started| ==> started[i] != started[j])
      && (forall s :: s in disposeCalls ==> s in started)
    }

    /** The handles this host has started and never released. */
    ghost function Unreleased(): set<Subscription>
      reads this
    {
      set s | s in started && s !in disposeCalls
    }

    /** A new host holds no subscription (the field starts out null). */
    constructor ()
      ensures Valid()
      ensures subscription == null && started == [] && disposeCalls == []
    {
      subscription := null;
      started := [];
      disposeCalls := [];
    }

    /**
     * Handles one `getTradesStream` request: opens the private endpoint of the
     * request, subscribes it to the truncating, termination-bounded chain and
     * stores the new handle in place of the old one, which is not released.
     * `trace` is the run of the chain; `forwarded` is what the endpoint receives.
     */
    method GetTradesStream<T>(context: RequestContext, trace: seq<Event<T>>) returns (forwarded: seq<TradeBatch<T>>)
      requires Valid()
      modifies this
      ensures Valid()
      ensures subscription != null && fresh(subscription)
      ensures subscription.replyTo == context.replyTo && subscription.correlationId == context.correlationId
      ensures started == old(started) + [subscription]
      ensures disposeCalls == old(disposeCalls)
      ensures Unreleased() == old(Unreleased()) + {subscription}
      ensures old(subscription) != null && old(subscription) in old(Unreleased()) ==>
                old(subscription) in Unreleased() && old(subscription) != subscription
      ensures forwarded == Delivered(trace)
    {
      forwarded := Delivered(trace);
      subscription := new Subscription(context.replyTo, context.correlationId);
      started := started + [subscription];
    }

    /**
     * Host disposal (`_subscription?.Dispose()`): calls `Dispose` on the held
     * handle, if there is one, and on nothing else. The field keeps its value,
     * so a second disposal calls `Dispose` on the same handle again.
     */
    method Dispose()
      requires Valid()
      modifies this
      ensures Valid()
      ensures subscription == old(subscription) && started == old(started)
      ensures disposeCalls == old(disposeCalls) + (if subscription == null then [] else [subscription])
      ensures Unreleased() == old(Unreleased()) - (if subscription == null then {} else {subscription})
    {
      if subscription != null {
        disposeCalls := disposeCalls + [subscription];
      }
    }
  }

  /**
   * Two requests on one host followed by its disposal: the second handle is
   * released, the first is left unreleased.
   */
  method TwoRequestsThenDispose<T>(first: RequestContext, second: RequestContext, trace: seq<Event<T>>)
    returns (host: BlotterServiceHost, a: Subscription, b: Subscription)
    ensures host.Valid()
    ensures a != b && host.started == [a, b] && host.subscription == b
    ensures host.disposeCalls == [b]
    ensures host.Unreleased() == {a}
  {
    host := new BlotterServiceHost();
    var _ := host.GetTradesStream(first, trace);
    a := host.subscription;
    var _ := host.GetTradesStream(second, trace);
    b := host.subscription;
    host.Dispose();
  }
}
