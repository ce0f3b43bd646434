/** The submit/settle cycle shared by the itinerary generator and the phrasebook:
    an `isLoading` flag, a result slot (`itinerary` or `translation`) and the one
    request awaiting the hosted model. */
module ResultSlot {
  import opened Outcomes

  /** `result` is the page's result state, `isLoading` its in-flight flag and
      `inFlight` the request whose call has not settled yet. */
  datatype Slot<Req, Res> = Slot(result: Option<Res>, isLoading: bool, inFlight: Option<Req>)

  /** The page as first rendered: no result, not loading, nothing sent. */
  function Initial<Req, Res>(): Slot<Req, Res> {
    Slot(None, false, None)
  }

  /** The flag is up exactly while a call is in flight, and the slot is empty then. */
  ghost predicate Consistent<Req, Res>(s: Slot<Req, Res>) {
    && (s.isLoading <==> s.inFlight.Some?)
    && (s.isLoading ==> s.result.None?)
  }

  /** A press of the submit button. `request` is the validated request, or None
      when validation rejected the form. The button is disabled while loading,
      and an invalid form never reaches `onSubmit`; otherwise the flag is raised,
      the previous result is cleared and the request is sent. */
  function Press<Req, Res>(s: Slot<Req, Res>, request: Option<Req>): (r: Slot<Req, Res>)
    ensures s.isLoading || request.None? ==> r == s
    ensures !s.isLoading && request.Some? ==>
      r.isLoading && r.result.None? && r.inFlight == request
    ensures Consistent(s) ==> Consistent(r)
  {
    if s.isLoading || request.None? then s else Slot(None, true, request)
  }

  /** The awaited call settles. On success the slot receives the value; on failure
      it is left as it is (the `catch` only raises a notification); the `finally`
      clears the flag either way. With nothing in flight there is nothing to settle. */
  function Settle<Req, Res>(s: Slot<Req, Res>, outcome: Outcome<Res>): (r: Slot<Req, Res>)
    ensures s.inFlight.None? ==> r == s
    ensures s.inFlight.Some? ==> !r.isLoading && r.inFlight.None?
    ensures s.inFlight.Some? && outcome.Success? ==> r.result == Some(outcome.result)
    ensures s.inFlight.Some? && outcome.Failure? ==> r.result == s.result
    ensures Consistent(s) ==> Consistent(r)
  {
    match s.inFlight
    case None => s
    case Some(_) =>
      match outcome
      case Success(v) => Slot(Some(v), false, None)
      case Failure => s.(isLoading := false, inFlight := None)
  }

  /** One submission from an idle page: whatever the page showed before, the slot
      ends holding the call's value on success and nothing on failure, and the
      flag is down. */
  lemma SubmitOutcome<Req, Res>(s: Slot<Req, Res>, request: Req, outcome: Outcome<Res>)
    requires Consistent(s) && !s.isLoading
    ensures var r := Settle(Press(s, Some(request)), outcome);
      && !r.isLoading
      && r.inFlight.None?
      && (outcome.Success? ==> r.result == Some(outcome.result))
      && (outcome.Failure? ==> r.result.None?)
  {
  }

  /** The page as first rendered is consistent. */
  lemma InitialConsistent<Req, Res>()
    ensures Consistent(Initial<Req, Res>())
    ensures !Initial<Req, Res>().isLoading && Initial<Req, Res>().result.None?
  {
  }

  /** What the user can do to the page: press submit (with the validated request,
      or None for a rejected form), or have the pending call settle. */
  datatype Event<Req, Res> = Pressed(request: Option<Req>) | Settled(outcome: Outcome<Res>)

  function Step<Req, Res>(s: Slot<Req, Res>, e: Event<Req, Res>): Slot<Req, Res> {
    match e
    case Pressed(request) => Press(s, request)
    case Settled(outcome) => Settle(s, outcome)
  }

  function Run<Req, Res>(s: Slot<Req, Res>, es: seq<Event<Req, Res>>): Slot<Req, Res>
    decreases |es|
  {
    if |es| == 0 then s else Run(Step(s, es[0]), es[1..])
  }

  /** Every reachable page state is consistent: the flag is up only between a
      submission and its settlement, and a second press in between changes nothing. */
  lemma {:induction false} RunConsistent<Req, Res>(s: Slot<Req, Res>, es: seq<Event<Req, Res>>)
    requires Consistent(s)
    ensures Consistent(Run(s, es))
    decreases |es|
  {
    if |es| > 0 {
      RunConsistent(Step(s, es[0]), es[1..]);
    }
  }

  /** Every state reachable from the page as first rendered is consistent, and its
      slot holds only a value some successful call returned. */
  lemma ReachableFromInitial<Req, Res>(es: seq<Event<Req, Res>>)
    ensures Consistent(Run(Initial<Req, Res>(), es))
    ensures var r := Run(Initial<Req, Res>(), es);
      r.result.Some? ==> exists i :: 0 <= i < |es| && es[i] == Settled(Success(r.result.value))
  {
    RunConsistent(Initial<Req, Res>(), es);
    RunResultFromSuccess(Initial<Req, Res>(), es);
  }

  /** The slot only ever holds a value that the starting state already held or that
      some successful call returned: results are set only on success. */
  lemma {:induction false} RunResultFromSuccess<Req, Res>(s: Slot<Req, Res>, es: seq<Event<Req, Res>>)
    ensures var r := Run(s, es);
      r.result.Some? ==>
        r.result == s.result
        || exists i :: 0 <= i < |es| && es[i] == Settled(Success(r.result.value))
    decreases |es|
  {
    if |es| > 0 {
      var t := Step(s, es[0]);
      RunResultFromSuccess(t, es[1..]);
      var r := Run(s, es);
      assert r == Run(t, es[1..]);
      if r.result.Some? && r.result != t.result {
        var i :| 0 <= i < |es[1..]| && es[1..][i] == Settled(Success(r.result.value));
        assert es[i + 1] == Settled(Success(r.result.value));
      } else if r.result.Some? && t.result != s.result {
        assert es[0] == Settled(Success(r.result.value));
      }
    }
  }
}
