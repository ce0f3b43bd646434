/** The itinerary generator page: its form schema, default values, interest
    checkboxes and submission. */
module ItineraryPage {
  import opened Outcomes
  import Text
  import ItineraryFlow
  import ResultSlot

  /** The ids of the six interest checkboxes, in display order. */
  const InterestIds: seq<string> :=
    ["adventure", "culture", "food", "relaxation", "nightlife", "history"]

  datatype Budget = Low | Medium | High
  datatype TravelStyle = Relaxed | FastPaced | FamilyFriendly

  function BudgetName(b: Budget): string {
    match b
    case Low => "low"
    case Medium => "medium"
    case High => "high"
  }

  function TravelStyleName(t: TravelStyle): string {
    match t
    case Relaxed => "relaxed"
    case FastPaced => "fast-paced"
    case FamilyFriendly => "family-friendly"
  }

  /** `z.enum(['low', 'medium', 'high'])`: exactly one of the three spellings. */
  function ParseBudget(s: string): (r: Option<Budget>)
    ensures r.Some? ==> BudgetName(r.value) == s
    ensures r.None? <==> forall b: Budget :: BudgetName(b) != s
  {
    if s == "low" then Some(Low)
    else if s == "medium" then Some(Medium)
    else if s == "high" then Some(High)
    else None
  }

  /** `z.enum(['relaxed', 'fast-paced', 'family-friendly'])`. */
  function ParseTravelStyle(s: string): (r: Option<TravelStyle>)
    ensures r.Some? ==> TravelStyleName(r.value) == s
    ensures r.None? <==> forall t: TravelStyle :: TravelStyleName(t) != s
  {
    if s == "relaxed" then Some(Relaxed)
    else if s == "fast-paced" then Some(FastPaced)
    else if s == "family-friendly" then Some(FamilyFriendly)
    else None
  }

  /** Each enumeration value reads back as itself. */
  lemma EnumRoundTrip(b: Budget, t: TravelStyle)
    ensures ParseBudget(BudgetName(b)) == Some(b)
    ensures ParseTravelStyle(TravelStyleName(t)) == Some(t)
  {
    match b
    case Low =>
    case Medium =>
    case High =>
  }

  /** The regular expression `^\d{4}-\d{2}-\d{2}$`: a four-digit, a two-digit and a
      two-digit run separated by hyphens, and nothing else. */
  ghost predicate MatchesDatePattern(s: string) {
    exists y: string, m: string, d: string
      {:trigger Text.AllDigits(y), Text.AllDigits(m), Text.AllDigits(d)} ::
      && |y| == 4 && |m| == 2 && |d| == 2
      && Text.AllDigits(y) && Text.AllDigits(m) && Text.AllDigits(d)
      && s == y + "-" + m + "-" + d
  }

  /** The date check, position by position: ten characters, hyphens at 4 and 7,
      ASCII digits elsewhere. There is no month or day range check. */
  predicate IsDateShape(s: string) {
    && |s| == 10
    && forall i :: 0 <= i < 10 ==> if i == 4 || i == 7 then s[i] == '-' else Text.IsDigit(s[i])
  }

  /** A string of the date's shape splits into the pattern's three digit runs. */
  lemma ShapeMatchesPattern(s: string)
    requires IsDateShape(s)
    ensures MatchesDatePattern(s)
  {
    var y, m, d := s[..4], s[5..7], s[8..];
    assert Text.AllDigits(y) by {
      forall i | 0 <= i < 4 ensures Text.IsDigit(y[i]) {
        assert y[i] == s[i];
      }
    }
    assert Text.AllDigits(m) by {
      forall i | 0 <= i < 2 ensures Text.IsDigit(m[i]) {
        assert m[i] == s[i + 5];
      }
    }
    assert Text.AllDigits(d) by {
      forall i | 0 <= i < 2 ensures Text.IsDigit(d[i]) {
        assert d[i] == s[i + 8];
      }
    }
    assert s == y + "-" + m + "-" + d;
  }

  /** Three digit runs of lengths 4, 2 and 2 joined by hyphens have the date's shape. */
  lemma PatternHasShape(y: string, m: string, d: string)
    requires |y| == 4 && |m| == 2 && |d| == 2
    requires Text.AllDigits(y) && Text.AllDigits(m) && Text.AllDigits(d)
    ensures IsDateShape(y + "-" + m + "-" + d)
  {
    var s := y + "-" + m + "-" + d;
    forall i | 0 <= i < 10
      ensures if i == 4 || i == 7 then s[i] == '-' else Text.IsDigit(s[i])
    {
      if i < 4 {
        assert s[i] == y[i];
      } else if 4 < i < 7 {
        assert s[i] == m[i - 5];
      } else if 7 < i {
        assert s[i] == d[i - 8];
      }
    }
  }

  /** The positional check accepts exactly the strings the pattern matches. */
  lemma DateShapeIsPattern(s: string)
    ensures IsDateShape(s) <==> MatchesDatePattern(s)
  {
    if IsDateShape(s) {
      ShapeMatchesPattern(s);
    }
    if MatchesDatePattern(s) {
      var y: string, m: string, d: string :|
        && |y| == 4 && |m| == 2 && |d| == 2
        && Text.AllDigits(y) && Text.AllDigits(m) && Text.AllDigits(d)
        && s == y + "-" + m + "-" + d;
      PatternHasShape(y, m, d);
    }
  }

  /** `value.some((item) => item)`: some interest is a truthy, that is non-empty, string. */
  function AnyTruthy(xs: seq<string>): (r: bool)
    ensures r <==> exists i :: 0 <= i < |xs| && xs[i] != ""
    decreases |xs|
  {
    if |xs| == 0 then false
    else xs[0] != "" || (assert forall i :: 0 <= i < |xs| - 1 ==> xs[1..][i] == xs[i + 1]; AnyTruthy(xs[1..]))
  }

  /** The form's values as the inputs hold them. */
  datatype ItineraryForm = ItineraryForm(
    destination: string,
    startDate: string,
    endDate: string,
    interests: seq<string>,
    budget: string,
    travelStyle: string)

  /** The form's values once the schema has accepted them. */
  datatype ItineraryRequest = ItineraryRequest(
    destination: string,
    startDate: string,
    endDate: string,
    interests: seq<string>,
    budget: Budget,
    travelStyle: TravelStyle)

  datatype Field =
    | DestinationField | StartDateField | EndDateField
    | InterestsField | BudgetField | TravelStyleField

  /** Whether one field satisfies its rule in the form schema. */
  predicate FieldOk(f: ItineraryForm, field: Field) {
    match field
    case DestinationField => |f.destination| >= 2
    case StartDateField => IsDateShape(f.startDate)
    case EndDateField => IsDateShape(f.endDate)
    case InterestsField => AnyTruthy(f.interests)
    case BudgetField => ParseBudget(f.budget).Some?
    case TravelStyleField => ParseTravelStyle(f.travelStyle).Some?
  }

  function Check(f: ItineraryForm, field: Field): seq<Field> {
    if FieldOk(f, field) then [] else [field]
  }

  /** The form schema: the request when every field passes, otherwise the failing
      fields in schema order. No rule relates the two dates to each other. */
  function Validate(f: ItineraryForm): (r: Result<ItineraryRequest, seq<Field>>)
    ensures r.Ok? <==> forall field :: FieldOk(f, field)
    ensures r.Err? ==> forall field :: field in r.error <==> !FieldOk(f, field)
    ensures r.Ok? ==>
      && r.value.destination == f.destination
      && r.value.startDate == f.startDate && r.value.endDate == f.endDate
      && r.value.interests == f.interests
      && BudgetName(r.value.budget) == f.budget
      && TravelStyleName(r.value.travelStyle) == f.travelStyle
  {
    var issues :=
      Check(f, DestinationField) + Check(f, StartDateField) + Check(f, EndDateField)
      + Check(f, InterestsField) + Check(f, BudgetField) + Check(f, TravelStyleField);
    if issues == [] then
      Ok(ItineraryRequest(f.destination, f.startDate, f.endDate, f.interests,
                          ParseBudget(f.budget).value, ParseTravelStyle(f.travelStyle).value))
    else
      Err(issues)
  }

  /** The form's `defaultValues`. */
  const DefaultForm: ItineraryForm := ItineraryForm("", "", "", [], "medium", "relaxed")

  /** The untouched form is rejected on destination, both dates and interests,
      and accepted on budget and travel style. */
  lemma DefaultFormRejected()
    ensures Validate(DefaultForm) == Err([DestinationField, StartDateField, EndDateField, InterestsField])
  {
    var f := DefaultForm;
    assert !FieldOk(f, DestinationField) && !FieldOk(f, StartDateField) && !FieldOk(f, EndDateField);
    assert !FieldOk(f, InterestsField);
    assert ParseBudget("medium") == Some(Medium) && ParseTravelStyle("relaxed") == Some(Relaxed);
    assert Check(f, BudgetField) == [] && Check(f, TravelStyleField) == [];
    var issues :=
      Check(f, DestinationField) + Check(f, StartDateField) + Check(f, EndDateField)
      + Check(f, InterestsField) + Check(f, BudgetField) + Check(f, TravelStyleField);
    assert issues == [DestinationField, StartDateField, EndDateField, InterestsField];
  }

  /** No interest list without a non-empty entry (`[]`, `[""]`, ...) gets past
      validation, so no such request is ever sent. */
  lemma BlankInterestsRejected(f: ItineraryForm)
    requires forall i :: 0 <= i < |f.interests| ==> f.interests[i] == ""
    ensures Validate(f).Err? && InterestsField in Validate(f).error
  {
  }

  /** The request handed to the flow: the enumerations widen back to strings. */
  function ToFlowInput(req: ItineraryRequest): ItineraryFlow.ItineraryInput {
    ItineraryFlow.ItineraryInput(req.destination, req.startDate, req.endDate,
                                 req.interests, BudgetName(req.budget),
                                 TravelStyleName(req.travelStyle))
  }

  /** Every accepted form reaches the flow with its values unchanged. */
  lemma AcceptedFormIsFlowInput(f: ItineraryForm)
    requires Validate(f).Ok?
    ensures ToFlowInput(Validate(f).value)
      == ItineraryFlow.ItineraryInput(f.destination, f.startDate, f.endDate,
                                      f.interests, f.budget, f.travelStyle)
  {
  }

  /** Drops every occurrence of `x`, keeping the other items in their order. */
  function RemoveAll(xs: seq<string>, x: string): (r: seq<string>)
    ensures x !in r
    ensures forall y :: y != x ==> multiset(r)[y] == multiset(xs)[y]
    ensures IsSubsequence(r, xs)
    decreases |xs|
  {
    if |xs| == 0 then []
    else
      var rest := RemoveAll(xs[1..], x);
      assert xs == [xs[0]] + xs[1..];
      if xs[0] == x then
        assert |rest| > 0 ==> rest[0] != xs[0];
        rest
      else
        assert ([xs[0]] + rest)[1..] == rest;
        [xs[0]] + rest
  }

  /** `a` is `b` with some items left out and the rest kept in order. */
  ghost predicate IsSubsequence(a: seq<string>, b: seq<string>)
    decreases |b|
  {
    || |a| == 0
    || (&& |b| > 0
        && if a[0] == b[0] then IsSubsequence(a[1..], b[1..]) else IsSubsequence(a, b[1..]))
  }

  /** A checkbox's `onCheckedChange`: checking appends the id at the end, unchecking
      filters out every occurrence of it. */
  function Toggle(values: seq<string>, id: string, checked: bool): (r: seq<string>)
    ensures checked ==> |r| == |values| + 1 && r[..|values|] == values && r[|values|] == id
    ensures !checked ==> id !in r && IsSubsequence(r, values)
    ensures !checked ==> forall y :: y != id ==> multiset(r)[y] == multiset(values)[y]
  {
    if checked then values + [id] else RemoveAll(values, id)
  }

  /** Removing an id from a list that does not hold it changes nothing. */
  lemma {:induction false} RemoveAbsent(xs: seq<string>, x: string)
    requires x !in xs
    ensures RemoveAll(xs, x) == xs
    decreases |xs|
  {
    if |xs| > 0 {
      RemoveAbsent(xs[1..], x);
      assert xs == [xs[0]] + xs[1..];
    }
  }

  /** Removing from a list with one more copy of the id at its end removes that copy too. */
  lemma {:induction false} RemoveAppended(xs: seq<string>, x: string)
    ensures RemoveAll(xs + [x], x) == RemoveAll(xs, x)
    decreases |xs|
  {
    if |xs| == 0 {
      assert [x][1..] == [];
    } else {
      assert (xs + [x])[1..] == xs[1..] + [x];
      RemoveAppended(xs[1..], x);
    }
  }

  /** Checking then unchecking a box leaves the list without that id; when the id
      was not selected before, it restores the list exactly. */
  lemma CheckThenUncheck(values: seq<string>, id: string)
    ensures Toggle(Toggle(values, id, true), id, false) == RemoveAll(values, id)
    ensures id !in values ==> Toggle(Toggle(values, id, true), id, false) == values
  {
    RemoveAppended(values, id);
    if id !in values {
      RemoveAbsent(values, id);
    }
  }

  /** Checking any box satisfies the interests rule; after unchecking one, the rule
      holds exactly when some other non-empty interest remains. */
  lemma ToggleAndInterestsRule(values: seq<string>, i: nat)
    requires i < |InterestIds|
    ensures AnyTruthy(Toggle(values, InterestIds[i], true))
    ensures AnyTruthy(Toggle(values, InterestIds[i], false))
        <==> exists j :: 0 <= j < |values| && values[j] != "" && values[j] != InterestIds[i]
  {
    var id := InterestIds[i];
    assert id != "";
    var r := Toggle(values, id, true);
    assert r[|values|] == id;
    var u := Toggle(values, id, false);
    if exists j :: 0 <= j < |values| && values[j] != "" && values[j] != id {
      var j :| 0 <= j < |values| && values[j] != "" && values[j] != id;
      assert values[j] in multiset(values);
      assert values[j] in multiset(u);
      assert values[j] in u;
    }
    if AnyTruthy(u) {
      var k :| 0 <= k < |u| && u[k] != "";
      assert u[k] in multiset(u);
      assert u[k] in multiset(values);
      assert u[k] in values;
    }
  }

  /** The page's state: the `itinerary` slot, the `isLoading` flag and the request in flight. */
  type PageState = ResultSlot.Slot<ItineraryFlow.ItineraryInput, ItineraryFlow.ItineraryOutput>

  /** The submit button pressed with form values `f`: `handleSubmit` validates, and
      `onSubmit` raises the flag, clears the itinerary and calls the flow. */
  function Press(s: PageState, f: ItineraryForm): (r: PageState)
    ensures s.isLoading || !(forall field :: FieldOk(f, field)) ==> r == s
    ensures !s.isLoading && (forall field :: FieldOk(f, field)) ==>
      && r.isLoading && r.result.None?
      && r.inFlight == Some(ItineraryFlow.ItineraryInput(f.destination, f.startDate, f.endDate,
                                                         f.interests, f.budget, f.travelStyle))
  {
    ResultSlot.Press(s, match Validate(f)
                        case Ok(req) => Some(ToFlowInput(req))
                        case Err(_) => None)
  }

  /** The flow's call settles: `setItinerary(result)` on success, the notification
      on failure, and `setIsLoading(false)` either way. */
  function Settle(s: PageState, outcome: Outcome<ItineraryFlow.ItineraryOutput>): (r: PageState)
    ensures s.inFlight.Some? ==> !r.isLoading
    ensures s.inFlight.Some? && outcome.Success? ==> r.result == Some(outcome.result)
    ensures s.inFlight.Some? && outcome.Failure? ==> r.result == s.result
  {
    ResultSlot.Settle(s, outcome)
  }

  /** A whole submission of a valid form from an idle page: the itinerary is the
      call's result on success and absent on failure, and the flag is down. */
  lemma SubmitItinerary(s: PageState, f: ItineraryForm, outcome: Outcome<ItineraryFlow.ItineraryOutput>)
    requires ResultSlot.Consistent(s) && !s.isLoading
    requires forall field :: FieldOk(f, field)
    ensures var r := Settle(Press(s, f), outcome);
      && !r.isLoading
      && (outcome.Success? ==> r.result == Some(outcome.result))
      && (outcome.Failure? ==> r.result.None?)
  {
  }
}
