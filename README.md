# Blotter trade-stream host, modelled in Dafny

This project models the core of the blotter service host of Reactive Trader
(`BlotterServiceHost`). A client sends a `getTradesStream` request. The host
opens a private endpoint for the request's reply address and correlation id.
It then subscribes that endpoint to the blotter service's trade stream, after
two steps:

- every batch passes through a snapshot truncator, so a state-of-the-world
  batch of more than `MaxSotwTrades` (50) trades is cut down to its last 50
  trades and marked not stale;
- the stream is cut off when the endpoint's termination signal fires
  (`TakeUntil`).

The host keeps the handle of the last subscription in its `_subscription`
field. When the host is disposed, that handle is disposed.

The project has three modules:

- `SnapshotTruncation` (`truncation.dfy`) holds the trade batch and the
  truncation lambda. It is pure.
- `DeliveryPipeline` (`delivery.dfy`) models one run of the `Select` /
  `TakeUntil` / `Subscribe` chain over a finite trace. A trace is the
  interleaving of the service's emissions (`Emit`) and the firings of the
  termination signal (`Terminate`), in the order the chain sees them. It is
  pure. `Delivered` is proved equal to a reference reading: one truncated
  batch per emission before the first termination, in source order. Further
  lemmas prove that delivery only grows with the trace, and that nothing after
  termination is delivered.
- `BlotterHost` (`host.dfy`) holds the host as a class. Its mutable
  `subscription` field (the `_subscription` field) is paired with two ghost
  logs:
  - `started`: the handles the host has stored;
  - `disposeCalls`: the `Dispose` calls it has made.

  `GetTradesStream` and `Dispose` are methods whose contracts give the whole
  new state.

The design description of this service says two things the code does not do:

- a new stream request releases the previous subscription;
- disposal releases a subscription at most once.

In the code, `GetTradesStream` overwrites `_subscription` without disposing
the handle it held. `Dispose` calls `Dispose` on whatever handle the field
holds, and leaves the field set. The model follows the code:

- after `GetTradesStream`, the earlier handle stays in `Unreleased()`;
- a second `Dispose` on the host logs a second dispose call on the same handle.

`TwoRequestsThenDispose` shows the first of these end to end. This is not
listed as a defect. One host serves many clients, and disposing the previous
handle on each request would cut off another client's feed. Each pipeline
already ends on its own endpoint's termination signal.

## Model

| member | source | states |
|---|---|---|
| `SnapshotTruncation.Truncate` | src/server/dotNet/Adaptive.ReactiveTrader.Server.Blotter/BlotterServiceHost.cs:39-46 | An oversized snapshot (state of the world and more than 50 trades) becomes a batch of exactly 50 trades. Its i-th trade is the input's trade at `Count - 50 + i`, so the last 50 are kept in their order. The result has `isStateOfTheWorld = true` and `isStale = false`. Every other batch is returned unchanged. The snapshot flag is always kept. No result is an oversized snapshot. |
| `SnapshotTruncation.TruncateChangesOnlyOversized` | src/server/dotNet/Adaptive.ReactiveTrader.Server.Blotter/BlotterServiceHost.cs:41-45 | The output equals the input if and only if the input is not an oversized snapshot. This covers deltas of any size and snapshots of at most 50 trades, including exactly 50. |
| `SnapshotTruncation.TruncateIdempotent` | src/server/dotNet/Adaptive.ReactiveTrader.Server.Blotter/BlotterServiceHost.cs:41-45 | Truncating twice gives the same batch as truncating once. |
| `SnapshotTruncation.TruncateKeepsSuffix` | src/server/dotNet/Adaptive.ReactiveTrader.Server.Blotter/BlotterServiceHost.cs:43 | The retained trades are never more than the input's. They are exactly the input's suffix of that length (`Skip(Count - n)`), so nothing is reordered. |
| `DeliveryPipeline.FirstTermination` | src/server/dotNet/Adaptive.ReactiveTrader.Server.Blotter/BlotterServiceHost.cs:52 | The returned position is within the trace. Every event before it is an emission. If the position is inside the trace, the event there is a termination signal. |
| `DeliveryPipeline.FirstTerminationUnique` | src/server/dotNet/Adaptive.ReactiveTrader.Server.Blotter/BlotterServiceHost.cs:52 | Any position meeting those three conditions is the position of the first termination signal. |
| `DeliveryPipeline.Select` | src/server/dotNet/Adaptive.ReactiveTrader.Server.Blotter/BlotterServiceHost.cs:38-46 | The `Select` stage gives one event per event. Emissions stay emissions at the same place, each with its batch transformed. Termination signals stay where they were. |
| `DeliveryPipeline.TakeUntil` | src/server/dotNet/Adaptive.ReactiveTrader.Server.Blotter/BlotterServiceHost.cs:52-54 | The endpoint receives one batch per event before the first termination signal. The i-th batch received is the batch of the i-th event. |
| `DeliveryPipeline.FirstTerminationBySignals` | src/server/dotNet/Adaptive.ReactiveTrader.Server.Blotter/BlotterServiceHost.cs:39-52 | Transforming the batches before `TakeUntil` does not move the point where delivery stops. |
| `DeliveryPipeline.Delivered` | src/server/dotNet/Adaptive.ReactiveTrader.Server.Blotter/BlotterServiceHost.cs:38-54 | The whole chain delivers as many batches as there are events before the first termination signal. All of those events are emissions. The i-th delivered batch is the truncation of the i-th emitted batch, so source order is kept. No delivered state-of-the-world batch has more than 50 trades. |
| `DeliveryPipeline.FirstTerminationExtended` | src/server/dotNet/Adaptive.ReactiveTrader.Server.Blotter/BlotterServiceHost.cs:52 | If termination fires within a prefix, later events do not move it. If it does not, it fires at the prefix length plus its position in the rest. |
| `DeliveryPipeline.DeliveredPrefix` | src/server/dotNet/Adaptive.ReactiveTrader.Server.Blotter/BlotterServiceHost.cs:38-54 | What is delivered for a prefix of a trace is a prefix of what is delivered for the whole trace. Delivered batches are never withdrawn or reordered. |
| `DeliveryPipeline.NothingDeliveredAfterTermination` | src/server/dotNet/Adaptive.ReactiveTrader.Server.Blotter/BlotterServiceHost.cs:52 | Once a termination signal is in the trace, no later event changes what is delivered. |
| `DeliveryPipeline.DeliveredStep` | src/server/dotNet/Adaptive.ReactiveTrader.Server.Blotter/BlotterServiceHost.cs:38-54 | Before termination, a new emission adds exactly its truncated batch at the end of what was delivered. |
| `DeliveryPipeline.SnapshotThenDeltaExample` | src/server/dotNet/Adaptive.ReactiveTrader.Server.Blotter/BlotterServiceHost.cs:38-54 | A snapshot of 80 trades followed by a delta of 3 is delivered as two batches. The first holds the snapshot's last 50 trades and is a fresh snapshot. The second is the delta, unchanged. |
| `BlotterHost.Subscription.constructor` | src/server/dotNet/Adaptive.ReactiveTrader.Server.Blotter/BlotterServiceHost.cs:36-38 | A pipeline handle is bound to the request's reply address and correlation id. |
| `BlotterHost.BlotterServiceHost.constructor` | src/server/dotNet/Adaptive.ReactiveTrader.Server.Blotter/BlotterServiceHost.cs:17 | A new host holds no subscription and has disposed nothing. |
| `BlotterHost.BlotterServiceHost.GetTradesStream` | src/server/dotNet/Adaptive.ReactiveTrader.Server.Blotter/BlotterServiceHost.cs:29-58 | The field now holds a fresh handle for the request's endpoint. That handle is appended to the handles started. No dispose call is made. The previously held handle, if it was unreleased, stays unreleased and differs from the new one. The endpoint receives exactly `Delivered(trace)`. |
| `BlotterHost.BlotterServiceHost.Dispose` | src/server/dotNet/Adaptive.ReactiveTrader.Server.Blotter/BlotterServiceHost.cs:60-64 | Exactly one dispose call is made, on the held handle, or none when no stream was ever started. The field and the started handles are unchanged. Only the held handle leaves the unreleased set. |
| `BlotterHost.TwoRequestsThenDispose` | src/server/dotNet/Adaptive.ReactiveTrader.Server.Blotter/BlotterServiceHost.cs:38-63 | After two requests and a disposal, the host has started two distinct handles. Only the second has been disposed, and the first is left unreleased. |

## Left out

- Logging (`LogContext.PushProperty`, `Log.Debug` on receipt, in the `Do` stage and in the `Finally` stage). This is observability only and changes no output. The `Do` and `Finally` stages are identities in the model, and the username in the request context is not modelled.
- The broker and its private endpoint (`GetPrivateEndPoint`, the endpoint as an observer). These are foreign calls. The endpoint appears only as the consumer of `Delivered` and as the source of `Terminate` events in the trace.
- The service's trade stream (`IBlotterService.GetTradesStream`). It is external, so each run of it is a parameter, a finite trace.
- Rx scheduling and threads, including the race between an in-flight emission and the termination signal. A trace fixes one interleaving.
- Completion or failure of the service's stream. A trace simply ends. Errors are not modelled.
- The effect of disposing a handle on a pipeline that is still running. The model records the dispose calls the host makes, not how the Rx subscription reacts to them.
- `ServiceHostBase`: the base constructor, `RegisterCall`, `StartHeartBeat` and `base.Dispose()`. Their code is not part of this model.
- The `Task.CompletedTask` returned by `GetTradesStream`. It carries no data.
