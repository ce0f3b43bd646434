/** The travel assistant page: a chat log with an optimistic user message that is
    answered on success and retracted on failure. */
module AssistantPage {
  import opened Outcomes

  datatype AssistantForm = AssistantForm(destination: string, question: string)

  /** The form's `defaultValues`. */
  const DefaultForm: AssistantForm := AssistantForm("", "")

  datatype Field = DestinationField | QuestionField

  /** The form schema: destination of at least 2 characters, question of at least
      10; the failing fields in schema order. */
  function Validate(f: AssistantForm): (r: seq<Field>)
    ensures DestinationField in r <==> |f.destination| < 2
    ensures QuestionField in r <==> |f.question| < 10
    ensures r == [] <==> |f.destination| >= 2 && |f.question| >= 10
  {
    (if |f.destination| >= 2 then [] else [DestinationField])
    + (if |f.question| >= 10 then [] else [QuestionField])
  }

  datatype Role = User | Assistant

  /** A chat entry; only user messages carry a destination label. */
  datatype Message = Message(role: Role, content: string, destination: Option<string>)

  function UserMessage(f: AssistantForm): Message {
    Message(User, f.question, Some(f.destination))
  }

  function AssistantMessage(answer: string): Message {
    Message(Assistant, answer, None)
  }

  /** `Array.prototype.slice(0, -1)`: everything but the last element; empty stays empty. */
  function DropLast<T>(xs: seq<T>): (r: seq<T>)
    ensures |xs| > 0 ==> |r| == |xs| - 1 && xs == r + [xs[|xs| - 1]]
    ensures |xs| == 0 ==> r == []
  {
    if |xs| == 0 then [] else xs[..|xs| - 1]
  }

  /** `messages`, `isLoading`, the form's current values, and the values whose call
      has not settled yet. */
  datatype ChatState = ChatState(
    messages: seq<Message>,
    isLoading: bool,
    form: AssistantForm,
    inFlight: Option<AssistantForm>)

  const Initial: ChatState := ChatState([], false, DefaultForm, None)

  /** The log is a run of answered exchanges: user messages at even positions, each
      with a destination, assistant messages at odd positions, without one. */
  ghost predicate Answered(msgs: seq<Message>) {
    && |msgs| % 2 == 0
    && forall i :: 0 <= i < |msgs| ==>
         if i % 2 == 0 then msgs[i].role == User && msgs[i].destination.Some?
         else msgs[i].role == Assistant && msgs[i].destination.None?
  }

  /** Outside a call the log is answered and the flag is down; during a call the
      flag is up and the log is answered but for the pending user message at its end. */
  ghost predicate Consistent(s: ChatState) {
    match s.inFlight
    case None => !s.isLoading && Answered(s.messages)
    case Some(q) =>
      && s.isLoading
      && |s.messages| >= 1
      && Answered(s.messages[..|s.messages| - 1])
      && s.messages[|s.messages| - 1] == UserMessage(q)
  }

  /** The user edits the inputs; they stay enabled while a call is in flight. */
  function Type(s: ChatState, f: AssistantForm): (r: ChatState)
    ensures r.form == f
    ensures r.messages == s.messages && r.isLoading == s.isLoading && r.inFlight == s.inFlight
  {
    s.(form := f)
  }

  /** The send button. Disabled while loading; an invalid form is rejected by
      `handleSubmit`; otherwise the user message is appended at once, the form is
      reset to the same destination and an empty question, and the call is made. */
  function Press(s: ChatState): (r: ChatState)
    ensures s.isLoading || Validate(s.form) != [] ==> r == s
    ensures !s.isLoading && Validate(s.form) == [] ==>
      && r.messages == s.messages + [UserMessage(s.form)]
      && r.form == AssistantForm(s.form.destination, "")
      && r.isLoading
      && r.inFlight == Some(s.form)
  {
    if s.isLoading || Validate(s.form) != [] then s
    else ChatState(s.messages + [UserMessage(s.form)], true,
                   AssistantForm(s.form.destination, ""), Some(s.form))
  }

  /** The call settles: the answer is appended as an assistant message on success,
      the last message is dropped on failure, and the flag goes down either way. */
  function Settle(s: ChatState, outcome: Outcome<string>): (r: ChatState)
    ensures s.inFlight.None? ==> r == s
    ensures s.inFlight.Some? ==> !r.isLoading && r.inFlight.None? && r.form == s.form
    ensures s.inFlight.Some? && outcome.Success? ==>
      r.messages == s.messages + [AssistantMessage(outcome.result)]
    ensures s.inFlight.Some? && outcome.Failure? && |s.messages| > 0 ==>
      s.messages == r.messages + [s.messages[|s.messages| - 1]]
  {
    match s.inFlight
    case None => s
    case Some(_) =>
      var msgs := match outcome
                  case Success(answer) => s.messages + [AssistantMessage(answer)]
                  case Failure => DropLast(s.messages);
      ChatState(msgs, false, s.form, None)
  }

  /** A successful submission from an idle page adds exactly the user's question and
      the answer, leaves the earlier log untouched and keeps only the destination
      in the form. */
  lemma SubmitAnswered(s: ChatState, answer: string)
    requires Consistent(s) && !s.isLoading && Validate(s.form) == []
    ensures var r := Settle(Press(s), Success(answer));
      && r.messages == s.messages
           + [Message(User, s.form.question, Some(s.form.destination)), Message(Assistant, answer, None)]
      && r.form == AssistantForm(s.form.destination, "")
      && !r.isLoading
  {
  }

  /** A failed submission retracts the optimistic user message: the log is what it
      was before the press, while the form stays reset. */
  lemma SubmitFailed(s: ChatState)
    requires Consistent(s) && !s.isLoading && Validate(s.form) == []
    ensures var r := Settle(Press(s), Failure);
      && r.messages == s.messages
      && r.form == AssistantForm(s.form.destination, "")
      && !r.isLoading
  {
    var p := Press(s);
    assert p.messages[..|p.messages| - 1] == s.messages;
  }

  datatype Event = Typed(form: AssistantForm) | Pressed | Settled(outcome: Outcome<string>)

  function Step(s: ChatState, e: Event): ChatState {
    match e
    case Typed(f) => Type(s, f)
    case Pressed => Press(s)
    case Settled(outcome) => Settle(s, outcome)
  }

  function Run(s: ChatState, es: seq<Event>): ChatState
    decreases |es|
  {
    if |es| == 0 then s else Run(Step(s, es[0]), es[1..])
  }

  lemma AnsweredExtend(msgs: seq<Message>, q: AssistantForm, answer: string)
    requires Answered(msgs)
    ensures Answered(msgs + [UserMessage(q)] + [AssistantMessage(answer)])
  {
    var m := msgs + [UserMessage(q)] + [AssistantMessage(answer)];
    forall i | 0 <= i < |m|
      ensures if i % 2 == 0 then m[i].role == User && m[i].destination.Some?
              else m[i].role == Assistant && m[i].destination.None?
    {
      if i < |msgs| {
        assert m[i] == msgs[i];
      }
    }
  }

  /** Each step keeps the state consistent. */
  lemma StepConsistent(s: ChatState, e: Event)
    requires Consistent(s)
    ensures Consistent(Step(s, e))
  {
    match e
    case Typed(f) =>
    case Pressed =>
      var r := Press(s);
      if r != s {
        assert r.messages[..|r.messages| - 1] == s.messages;
      }
    case Settled(outcome) =>
      if s.inFlight.Some? {
        var prefix := s.messages[..|s.messages| - 1];
        assert s.messages == prefix + [UserMessage(s.inFlight.value)];
        match outcome
        case Success(answer) => AnsweredExtend(prefix, s.inFlight.value, answer);
        case Failure =>
      }
  }

  /** Along any sequence of edits, presses and settlements the state stays
      consistent: at rest the log holds only answered exchanges, so a failed call
      never leaves its question behind and never removes an earlier message. */
  lemma {:induction false} RunConsistent(s: ChatState, es: seq<Event>)
    requires Consistent(s)
    ensures Consistent(Run(s, es))
    decreases |es|
  {
    if |es| > 0 {
      StepConsistent(s, es[0]);
      RunConsistent(Step(s, es[0]), es[1..]);
    }
  }

  /** One step from an idle page either leaves the log alone or starts a call whose
      user message is the only addition. */
  lemma StepFromIdle(s: ChatState, e: Event)
    requires Consistent(s) && !s.isLoading
    ensures var t := Step(s, e);
      && (t.isLoading ==> |t.messages| >= 1 && t.messages[..|t.messages| - 1] == s.messages)
      && (!t.isLoading ==> t.messages == s.messages)
  {
    match e
    case Typed(f) =>
    case Pressed =>
      var t := Press(s);
      if t.isLoading {
        assert t.messages[..|t.messages| - 1] == s.messages;
      }
    case Settled(outcome) =>
  }

  /** One step during a call either leaves the log alone or settles the call, which
      keeps everything before the pending user message. */
  lemma StepFromPending(s: ChatState, e: Event)
    requires Consistent(s) && s.isLoading
    ensures var t := Step(s, e);
      && (t.isLoading ==> t.messages == s.messages)
      && (!t.isLoading ==> s.messages[..|s.messages| - 1] <= t.messages)
  {
    match e
    case Typed(f) =>
    case Pressed =>
    case Settled(outcome) =>
      var prefix := s.messages[..|s.messages| - 1];
      assert s.messages == prefix + [s.messages[|s.messages| - 1]];
  }

  /** Messages once shown are never changed: every step keeps the log's answered
      prefix, so only the pending user message can ever be taken back. */
  lemma {:induction false} RunKeepsAnsweredLog(s: ChatState, es: seq<Event>)
    requires Consistent(s) && !s.isLoading
    ensures s.messages <= Run(s, es).messages
    decreases |es|
  {
    if |es| > 0 {
      var t := Step(s, es[0]);
      StepConsistent(s, es[0]);
      StepFromIdle(s, es[0]);
      if t.isLoading {
        RunFromPendingKeeps(t, es[1..]);
      } else {
        RunKeepsAnsweredLog(t, es[1..]);
      }
    }
  }

  /** From a pending state, the log before the pending message is never lost. */
  lemma {:induction false} RunFromPendingKeeps(s: ChatState, es: seq<Event>)
    requires Consistent(s) && s.isLoading
    ensures s.messages[..|s.messages| - 1] <= Run(s, es).messages
    decreases |es|
  {
    if |es| > 0 {
      var t := Step(s, es[0]);
      StepConsistent(s, es[0]);
      StepFromPending(s, es[0]);
      if t.isLoading {
        RunFromPendingKeeps(t, es[1..]);
      } else {
        RunKeepsAnsweredLog(t, es[1..]);
      }
    }
  }

  /** The page as first rendered is consistent: an empty log, no call in flight. */
  lemma InitialConsistent()
    ensures Consistent(Initial)
    ensures Initial.messages == [] && !Initial.isLoading
  {
  }

  /** Every state reachable from the page as first rendered is consistent: at rest
      its log alternates user and assistant messages, and during a call it ends
      with the pending question. */
  lemma ReachableFromInitial(es: seq<Event>)
    ensures Consistent(Run(Initial, es))
  {
    RunConsistent(Initial, es);
  }
}
