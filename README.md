# minsig slot table

A model of the rendezvous table at the heart of `minsig`, the minimal WebRTC
signalling broker. Two peers agree on a slot name (the request path) and both
post a session description `{type, sdp}` to it. The table maps each slot key to
the session in flight on it: the offer that opened the slot and, later, the
answer. A post is dispatched on whether the key is present and on the posted
`type`:

- free key, type not `offer`: rejected (HTTP 400), nothing changes;
- free key, `offer`: a session holding that offer is inserted and the caller
  waits until an answer is stored, then returns it and deletes the key;
- taken key, `offer`: the stored offer is returned, nothing changes;
- taken key, `answer`: the answer is stored, overwriting any earlier one, and
  a wake-up is broadcast to the waiting offerer;
- taken key, any other type: nothing happens.

The blocking offerer is split into two sequential steps: `Post`, which inserts
its offer, and `Collect`, which it can perform only once its session holds an
answer (the exit condition of its wait loop), returning that answer and
removing the key. The SDP payload is opaque and never inspected.

`slots.dfy` (module `Slots`) holds the entities, the pure specification of one
post (`Dispatch`) and of one completion (`Complete`), the `SlotTable` class
whose methods are proved against them, and lemmas about short exchanges.
`schedules.dfy` (module `Schedules`) runs serialised schedules of posts and
completions and proves what holds across them.

## Model

| member | source | states |
|---|---|---|
| Slots.Dispatch | cmd/minsig/minsig.go:64-111 | Rejected exactly when the key is free and the type is not "offer"; BecameOfferer exactly when it is free and the type is "offer", and then the key holds a session with that offer and no answer; ReflectedOffer exactly for an offer to a taken key, carrying the slot's stored offer; AnswerStored exactly for an answer to a taken key, and then the slot's answer is the posted message whatever it held before; only the posted key is ever touched; an existing slot keeps its offer; every other outcome leaves the table unchanged; stored offers stay offers and stored answers stay answers |
| Slots.Complete | cmd/minsig/minsig.go:83-96 | on a key whose session holds an answer, the offerer receives exactly that answer, the key is absent afterwards and every other key is unchanged |
| Slots.SlotTable.constructor | cmd/minsig/minsig.go:35-38 | the table starts empty |
| Slots.SlotTable.Post | cmd/minsig/minsig.go:64-111 | the outcome and the new table are those `Dispatch` gives for the old table; the well-formedness invariant is kept |
| Slots.SlotTable.Collect | cmd/minsig/minsig.go:83-96 | callable only when the key's session holds an answer; returns that answer and leaves the table `Complete` gives |
| Slots.RaceHasOneWinner | cmd/minsig/minsig.go:64-105 | of two offers to a free key the first becomes the offerer and the second is shown the first's offer, without any further change to the table |
| Slots.RendezvousRoundTrip | cmd/minsig/minsig.go:64-111 | offer then answer then completion on a free key: the offerer receives exactly the answer and the table is exactly as before the offer |
| Slots.ReuseAfterCompletion | cmd/minsig/minsig.go:65-96 | after completion, every post to the key is dispatched exactly as on the table with the key never present; an offer makes its poster the new offerer |
| Slots.RoomScenario | cmd/minsig/minsig.go:215-226 | A offers X, B's offer Y is answered with X, C's answer Z is stored, A collects Z, and the room is free afterwards |
| Schedules.Apply | cmd/minsig/minsig.go:64-111 | a post can always happen; a completion can happen exactly when the key's session holds an answer; well-formedness is kept |
| Schedules.Run | cmd/minsig/minsig.go:64-111 | any feasible schedule of posts and completions keeps every stored offer of type "offer" and every stored answer of type "answer" |
| Schedules.OccupiedIffOpened | cmd/minsig/minsig.go:66-96 | from the empty table, a key is present exactly when an offer was posted to it since its last completion |
| Schedules.OfferFixedUntilDelivered | cmd/minsig/minsig.go:75-111 | a slot stays present and keeps its offer through any schedule in which its offerer does not complete |
| Schedules.LastAnswer | cmd/minsig/minsig.go:106-109 | the answer it picks, when there is one, is of type "answer" and was posted to the key in the schedule |
| Schedules.AnswerIsLastPosted | cmd/minsig/minsig.go:97-111 | through any schedule in which its offerer does not complete, a slot stays present and holds the last answer posted to its key, or its initial answer when none was posted, whatever else is posted in between |
| Schedules.OffererReceivesLastAnswer | cmd/minsig/minsig.go:66-96 | an offerer that opened a free key and then completes, after any schedule without its own completion, receives exactly the last answer posted to that key, and such an answer exists |
| Schedules.RunSplit | cmd/minsig/minsig.go:64-96 | running a schedule in two parts gives the same table as running it whole, and a feasible schedule has a feasible prefix |

## Left out

- HTTP plumbing: routing on method and path, the index page, the CORS header, and the handler going on after answering "invalid method" for a non-POST request.
- JSON decoding of the request body and encoding of the reply; a body that does not decode never reaches the table.
- Slots.Complete: models only the path where the answer is written back to the offerer; when that encoding fails the source returns without deleting the key, so the slot stays taken for good, and this leak is not modelled.
- The locks, the per-session condition variable (`Wait`/`Broadcast`) and the unsynchronised write of a session's answer: the model is sequential, each post and each completion one atomic step, whereas in the source a completion is two critical sections (the answer is written back under the session's lock at lines 87-88, the key is deleted under the table lock at lines 94-96).
- Three interleavings of the source that this sequential model excludes, so that `Slots.RendezvousRoundTrip`, `Slots.ReuseAfterCompletion` and `Schedules.OffererReceivesLastAnswer` do not describe them: (1) a lost wake-up: the answer is written and broadcast at lines 108-109 without the session's lock, so an answer posted after the offerer's nil check at line 83 but before it joins the wait at line 84 leaves the offerer asleep with an answer stored, until another answer is posted; (2) a post landing between the write-back at lines 87-88 and the delete at lines 94-96 is dispatched against a slot whose offerer already has its answer, so an offer gets the old offer reflected and an answer is stored and never delivered; (3) an answer written at line 108 into a session already deleted at line 95 is lost, although its poster gets a success reply.
- Cancellation: an offerer whose client goes away stays in the table in the source as well; the model has no event for it.
- Sessions are held by pointer in the source; the model stores them as values in the map, which is equivalent because a key keeps pointing to the same session until its offerer deletes it.
- `main`: flags, certificate management, TLS and the listeners.
