/**
 Serialised schedules of requests against the slot table: every post and
 every offerer's completion happens one at a time, in the order the table's
 lock admits them. Properties of the table that hold across many requests
 are stated here.
 */
module Schedules {
  import opened Slots

  /** One serialised step: a post, or the completion of the offerer waiting on a key. */
  datatype Event = Submit(key: string, msg: SessionDesc) | Deliver(key: string)

  /**
   The table after one event, or None when the event cannot happen: an
   offerer completes only once its session holds an answer.
   */
  function Apply(t: Table, e: Event): (r: Option<Table>)
    ensures e.Submit? ==> r.Some?
    ensures e.Deliver? ==> (r.Some? <==> Ready(t, e.key))
    ensures WellFormed(t) && r.Some? ==> WellFormed(r.value)
  {
    match e
    case Submit(k, m) => Some(Dispatch(t, k, m).table)
    case Deliver(k) => if Ready(t, k) then Some(Complete(t, k).table) else None
  }

  /** The table after a schedule, or None when some completion in it cannot happen. */
  function Run(t: Table, evs: seq<Event>): (r: Option<Table>)
    ensures WellFormed(t) && r.Some? ==> WellFormed(r.value)
    decreases |evs|
  {
    if evs == [] then Some(t)
    else
      match Run(t, evs[..|evs| - 1])
      case None => None
      case Some(t1) => Apply(t1, evs[|evs| - 1])
  }

  /**
   Since the last completion on `key` (or since the start), an offer has
   been posted to it: the rendezvous on `key` is still in flight.
   */
  predicate OpenedSinceLastDelivery(evs: seq<Event>, key: string)
    decreases |evs|
  {
    if evs == [] then false
    else
      match evs[|evs| - 1]
      case Deliver(k) => k != key && OpenedSinceLastDelivery(evs[..|evs| - 1], key)
      case Submit(k, m) =>
        (k == key && m.kind == OfferKind) || OpenedSinceLastDelivery(evs[..|evs| - 1], key)
  }

  /**
   Starting from the empty table, a key is present exactly when an offer was
   posted to it and its offerer has not yet collected the answer.
   */
  lemma {:induction false} OccupiedIffOpened(evs: seq<Event>, key: string)
    requires Run(map[], evs).Some?
    ensures key in Run(map[], evs).value <==> OpenedSinceLastDelivery(evs, key)
    decreases |evs|
  {
    if evs != [] {
      var prefix := evs[..|evs| - 1];
      OccupiedIffOpened(prefix, key);
      var t1 := Run(map[], prefix).value;
      match evs[|evs| - 1]
      case Deliver(k) =>
        assert Run(map[], evs).value == Complete(t1, k).table;
      case Submit(k, m) =>
        assert Run(map[], evs).value == Dispatch(t1, k, m).table;
    }
  }

  /**
   A slot keeps its offer for as long as its offerer has not completed:
   nothing posted in between removes the slot or rewrites its offer.
   */
  lemma {:induction false} OfferFixedUntilDelivered(t: Table, evs: seq<Event>, key: string)
    requires key in t
    requires Run(t, evs).Some?
    requires Deliver(key) !in evs
    ensures key in Run(t, evs).value && Run(t, evs).value[key].offer == t[key].offer
    decreases |evs|
  {
    if evs != [] {
      var prefix := evs[..|evs| - 1];
      assert forall e :: e in prefix ==> e in evs;
      OfferFixedUntilDelivered(t, prefix, key);
      var t1 := Run(t, prefix).value;
      match evs[|evs| - 1]
      case Deliver(k) =>
        assert k != key;
        assert Lookup(Run(t, evs).value, key) == Lookup(t1, key);
      case Submit(k, m) =>
        assert Run(t, evs).value == Dispatch(t1, k, m).table;
    }
  }

  /** The last answer posted to `key` in the schedule, if any. */
  function LastAnswer(evs: seq<Event>, key: string): (r: Option<SessionDesc>)
    ensures r.Some? ==> r.value.kind == AnswerKind && Submit(key, r.value) in evs
    decreases |evs|
  {
    if evs == [] then None
    else
      match evs[|evs| - 1]
      case Submit(k, m) =>
        if k == key && m.kind == AnswerKind then Some(m)
        else LastAnswer(evs[..|evs| - 1], key)
      case Deliver(_) => LastAnswer(evs[..|evs| - 1], key)
  }

  /**
   The partner of OfferFixedUntilDelivered for answers: while its offerer has
   not completed, a slot holds the last answer posted to its key, or the
   answer it held at the start when none was posted. Whatever else happens
   in between (posts to other keys, reflected offers, ignored posts) does not
   matter.
   */
  lemma {:induction false} AnswerIsLastPosted(t: Table, evs: seq<Event>, key: string)
    requires key in t
    requires Run(t, evs).Some?
    requires Deliver(key) !in evs
    ensures key in Run(t, evs).value
    ensures Run(t, evs).value[key].answer ==
            if LastAnswer(evs, key).Some? then LastAnswer(evs, key) else t[key].answer
    decreases |evs|
  {
    if evs != [] {
      var prefix := evs[..|evs| - 1];
      assert forall e :: e in prefix ==> e in evs;
      AnswerIsLastPosted(t, prefix, key);
      var t1 := Run(t, prefix).value;
      match evs[|evs| - 1]
      case Deliver(k) =>
        assert k != key;
        assert Lookup(Run(t, evs).value, key) == Lookup(t1, key);
      case Submit(k, m) =>
        assert Run(t, evs).value == Dispatch(t1, k, m).table;
        if k == key && m.kind == AnswerKind {
          assert Dispatch(t1, k, m).outcome == AnswerStored;
        } else if k == key {
          assert Dispatch(t1, k, m).table == t1;
        } else {
          assert Lookup(Run(t, evs).value, key) == Lookup(t1, key);
        }
    }
  }

  /**
   What an offerer receives: on any schedule where its slot was opened by its
   own offer and it has not yet completed, completing hands over exactly the
   last answer posted to its key.
   */
  lemma {:induction false} OffererReceivesLastAnswer(t: Table, key: string, offer: SessionDesc, evs: seq<Event>)
    requires key !in t
    requires offer.kind == OfferKind
    requires Deliver(key) !in evs
    requires Run(t, [Submit(key, offer)] + evs + [Deliver(key)]).Some?
    ensures LastAnswer(evs, key).Some?
    ensures var before := Run(t, [Submit(key, offer)] + evs).value;
            Complete(before, key).answer == LastAnswer(evs, key).value
  {
    var opening := [Submit(key, offer)];
    var whole := opening + evs + [Deliver(key)];
    assert whole[..|whole| - 1] == opening + evs;
    RunSplit(t, opening, evs);
    var t0 := Run(t, opening).value;
    assert opening[..0] == [];
    assert t0 == Dispatch(t, key, offer).table;
    assert t0[key].answer == None;
    AnswerIsLastPosted(t0, evs, key);
  }

  /** Running a schedule in two parts is running it whole. */
  lemma {:induction false} RunSplit(t: Table, first: seq<Event>, rest: seq<Event>)
    requires Run(t, first + rest).Some?
    ensures Run(t, first).Some?
    ensures Run(Run(t, first).value, rest) == Run(t, first + rest)
    decreases |rest|
  {
    if rest == [] {
      assert first + rest == first;
    } else {
      var whole := first + rest;
      assert whole[..|whole| - 1] == first + rest[..|rest| - 1];
      assert whole[|whole| - 1] == rest[|rest| - 1];
      RunSplit(t, first, rest[..|rest| - 1]);
    }
  }
}
