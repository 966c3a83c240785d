/**
 The slot rendezvous table of the minsig signalling broker.

 The broker keeps one table from slot key (the request path) to the session
 in flight on that key. A posted session description is dispatched on two
 things only: whether the key is present, and the description's `type`.
 The blocking offerer is split into two sequential steps: `Post`, which
 registers its offer, and `Collect`, which it performs once an answer has
 been stored, returning that answer and freeing the key.
 */
module Slots {

  datatype Option<+T> = None | Some(value: T)

  /** A posted session description: its `type` field and its opaque SDP payload. */
  datatype SessionDesc = SessionDesc(kind: string, sdp: string)

  const OfferKind := "offer"
  const AnswerKind := "answer"

  /** A rendezvous in flight: the offer that opened the slot and the answer, once one is posted. */
  datatype Session = Session(offer: SessionDesc, answer: Option<SessionDesc>)

  type Table = map<string, Session>

  /** What a post tells its caller. */
  datatype Outcome =
    | Rejected                         // client error: nothing to answer
    | BecameOfferer                    // the caller now waits for an answer
    | ReflectedOffer(desc: SessionDesc) // the slot is taken: here is its offer
    | AnswerStored                     // the answer is in the slot for its offerer
    | Ignored                          // any other type on a taken slot

  datatype Step = Step(outcome: Outcome, table: Table)

  datatype Delivery = Delivery(answer: SessionDesc, table: Table)

  function Lookup(t: Table, key: string): Option<Session>
  {
    if key in t then Some(t[key]) else None
  }

  /** Every stored offer was posted as an offer, every stored answer as an answer. */
  predicate WellFormed(t: Table)
  {
    forall k :: k in t ==>
      && t[k].offer.kind == OfferKind
      && (t[k].answer.Some? ==> t[k].answer.value.kind == AnswerKind)
  }

  /** The offerer waiting on `key` may proceed: its session holds an answer. */
  predicate Ready(t: Table, key: string)
  {
    key in t && t[key].answer.Some?
  }

  /**
   The dispatch of one posted description on the table. Only the posted key
   is ever touched, a slot's offer is never rewritten, and only an offer can
   open a slot.
   */
  function Dispatch(t: Table, key: string, msg: SessionDesc): (r: Step)
    // the five outcomes, by presence of the key and the posted type
    ensures r.outcome == Rejected <==> key !in t && msg.kind != OfferKind
    ensures r.outcome == BecameOfferer <==> key !in t && msg.kind == OfferKind
    ensures r.outcome.ReflectedOffer? <==> key in t && msg.kind == OfferKind
    ensures r.outcome == AnswerStored <==> key in t && msg.kind == AnswerKind
    // a slot appears only for a new offerer, and no slot ever disappears here
    ensures r.table.Keys == if r.outcome == BecameOfferer then t.Keys + {key} else t.Keys
    ensures forall k :: k != key ==> Lookup(r.table, k) == Lookup(t, k)
    // a new slot holds exactly the posted offer and no answer
    ensures r.outcome == BecameOfferer ==> Lookup(r.table, key) == Some(Session(msg, None))
    // an existing slot keeps its offer, which is what a second offerer is shown
    ensures key in t ==> key in r.table && r.table[key].offer == t[key].offer
    ensures r.outcome.ReflectedOffer? ==> r.outcome.desc == t[key].offer
    // an answer replaces whatever answer the slot held before
    ensures r.outcome == AnswerStored ==> r.table[key].answer == Some(msg)
    // every other outcome leaves the table as it was
    ensures r.outcome != BecameOfferer && r.outcome != AnswerStored ==> r.table == t
    ensures WellFormed(t) ==> WellFormed(r.table)
  {
    if key !in t then
      if msg.kind != OfferKind then Step(Rejected, t)
      else Step(BecameOfferer, t[key := Session(msg, None)])
    else if msg.kind == OfferKind then
      Step(ReflectedOffer(t[key].offer), t)
    else if msg.kind == AnswerKind then
      Step(AnswerStored, t[key := t[key].(answer := Some(msg))])
    else
      Step(Ignored, t)
  }

  /**
   The offerer's completion: once its session holds an answer, it hands that
   answer to its caller and removes the slot, leaving every other slot alone.
   */
  function Complete(t: Table, key: string): (r: Delivery)
    requires Ready(t, key)
    ensures Some(r.answer) == t[key].answer
    ensures key !in r.table
    ensures forall k :: k != key ==> Lookup(r.table, k) == Lookup(t, k)
    ensures WellFormed(t) ==> WellFormed(r.table) && r.answer.kind == AnswerKind
  {
    Delivery(t[key].answer.value, t - {key})
  }

  /** The process-wide table of slots, accessed one request at a time. */
  class SlotTable {
    var slots: Table

    ghost predicate Valid()
      reads this
    {
      WellFormed(slots)
    }

    constructor ()
      ensures Valid() && slots == map[]
    {
      slots := map[];
    }

    /** A request posting `msg` to the slot `key`. */
    method Post(key: string, msg: SessionDesc) returns (o: Outcome)
      requires Valid()
      modifies this
      ensures Valid()
      ensures Dispatch(old(slots), key, msg) == Step(o, slots)
    {
      if key !in slots {
        if msg.kind != OfferKind {
          return Rejected;
        }
        slots := slots[key := Session(msg, None)];
        return BecameOfferer;
      }
      var slot := slots[key];
      if msg.kind == OfferKind {
        o := ReflectedOffer(slot.offer);
      } else if msg.kind == AnswerKind {
        slots := slots[key := slot.(answer := Some(msg))];
        o := AnswerStored;
      } else {
        o := Ignored;
      }
    }

    /** The offerer of `key`, once its session holds an answer, returns it and frees the slot. */
    method Collect(key: string) returns (answer: SessionDesc)
      requires Valid()
      requires Ready(slots, key)
      modifies this
      ensures Valid()
      ensures Complete(old(slots), key) == Delivery(answer, slots)
    {
      answer := slots[key].answer.value;
      slots := slots - {key};
    }
  }

  /**
   Two offers to a free key: the first becomes the waiting offerer, the
   second is shown the first's offer and the table does not change again.
   */
  lemma RaceHasOneWinner(t: Table, key: string, first: SessionDesc, second: SessionDesc)
    requires key !in t
    requires first.kind == OfferKind && second.kind == OfferKind
    ensures Dispatch(t, key, first).outcome == BecameOfferer
    ensures var s := Dispatch(Dispatch(t, key, first).table, key, second);
            s.outcome == ReflectedOffer(first) && s.table == Dispatch(t, key, first).table
  {
  }

  /**
   A complete rendezvous on a free key: offer, answer, completion. The
   offerer receives exactly the answer and the table is as it was before.
   */
  lemma RendezvousRoundTrip(t: Table, key: string, offer: SessionDesc, answer: SessionDesc)
    requires key !in t
    requires offer.kind == OfferKind && answer.kind == AnswerKind
    ensures var s1 := Dispatch(t, key, offer);
            var s2 := Dispatch(s1.table, key, answer);
            && s1.outcome == BecameOfferer
            && s2.outcome == AnswerStored
            && Ready(s2.table, key)
            && Complete(s2.table, key) == Delivery(answer, t)
  {
  }

  /**
   Once an offerer has collected its answer, its key behaves towards any
   later post exactly as a key that was never used.
   */
  lemma ReuseAfterCompletion(t: Table, key: string, msg: SessionDesc)
    requires Ready(t, key)
    ensures Dispatch(Complete(t, key).table, key, msg) == Dispatch(t - {key}, key, msg)
    ensures msg.kind == OfferKind ==>
      Dispatch(Complete(t, key).table, key, msg).outcome == BecameOfferer
  {
  }

  /**
   The exchange on one room: A offers X and waits, B's offer Y is answered
   with X, C answers Z, and A is handed Z; the room is then free again.
   */
  method RoomScenario(x: string, y: string, z: string)
    returns (a: Outcome, b: Outcome, c: Outcome, got: SessionDesc, free: bool)
    ensures a == BecameOfferer
    ensures b == ReflectedOffer(SessionDesc(OfferKind, x))
    ensures c == AnswerStored
    ensures got == SessionDesc(AnswerKind, z)
    ensures free
  {
    var table := new SlotTable();
    a := table.Post("/room1", SessionDesc(OfferKind, x));
    b := table.Post("/room1", SessionDesc(OfferKind, y));
    c := table.Post("/room1", SessionDesc(AnswerKind, z));
    got := table.Collect("/room1");
    free := "/room1" !in table.slots;
  }
}
