/** What the itinerary generator page shows for a given state. */
module ItineraryView {
  import opened Outcomes
  import ItineraryFlow
  import ItineraryPage
  import ResultSlot

  /** JavaScript truthiness of an optional string: present and non-empty. */
  predicate Truthy(o: Option<string>) {
    o.Some? && o.value != ""
  }

  /** An activity as drawn: the location line and the recommendations box appear
      only when their field is truthy. */
  datatype ActivityView = ActivityView(
    time: string,
    description: string,
    location: Option<string>,
    recommendations: Option<string>)

  datatype DayView = DayView(dayNumber: real, date: string, activities: seq<ActivityView>)

  /** The three panels of the result card. */
  datatype Panel =
    | Spinner
    | Plan(name: string, summary: string, days: seq<DayView>, notes: Option<string>)
    | Placeholder

  function Shown(o: Option<string>): (r: Option<string>)
    ensures r.Some? <==> Truthy(o)
    ensures r.Some? ==> r == o
  {
    if Truthy(o) then o else None
  }

  function ViewActivity(a: ItineraryFlow.Activity): (r: ActivityView)
    ensures r.time == a.time && r.description == a.description
    ensures r.location.Some? <==> Truthy(a.location)
    ensures r.recommendations.Some? <==> Truthy(a.recommendations)
    ensures r.location.Some? ==> r.location == a.location
    ensures r.recommendations.Some? ==> r.recommendations == a.recommendations
  {
    ActivityView(a.time, a.description, Shown(a.location), Shown(a.recommendations))
  }

  /** `day.activities.map(...)`: one view per activity, in the order received. */
  function ViewActivities(acts: seq<ItineraryFlow.Activity>): (r: seq<ActivityView>)
    ensures |r| == |acts|
    ensures forall j :: 0 <= j < |acts| ==> r[j] == ViewActivity(acts[j])
    decreases |acts|
  {
    if |acts| == 0 then [] else [ViewActivity(acts[0])] + ViewActivities(acts[1..])
  }

  function ViewDay(d: ItineraryFlow.Day): (r: DayView)
    ensures r.dayNumber == d.dayNumber && r.date == d.date
    ensures |r.activities| == |d.activities|
    ensures forall j :: 0 <= j < |d.activities| ==> r.activities[j] == ViewActivity(d.activities[j])
  {
    DayView(d.dayNumber, d.date, ViewActivities(d.activities))
  }

  /** `itinerary.days.map(...)`: the i-th accordion item holds the i-th day, and
      within it the j-th line holds that day's j-th activity. Which item is expanded
      (one at a time, the first by default) is not modelled. */
  function ViewDays(days: seq<ItineraryFlow.Day>): (r: seq<DayView>)
    ensures |r| == |days|
    ensures forall i :: 0 <= i < |days| ==>
      && r[i].dayNumber == days[i].dayNumber
      && r[i].date == days[i].date
      && |r[i].activities| == |days[i].activities|
      && forall j :: 0 <= j < |days[i].activities| ==>
           r[i].activities[j] == ViewActivity(days[i].activities[j])
    decreases |days|
  {
    if |days| == 0 then [] else [ViewDay(days[0])] + ViewDays(days[1..])
  }

  /** The plan panel drawn for an itinerary: name, summary, the days in order and
      the notes box only when the notes are truthy. */
  function PlanOf(it: ItineraryFlow.ItineraryOutput): (r: Panel)
    ensures r.Plan? && r.name == it.itineraryName && r.summary == it.summary
    ensures |r.days| == |it.days|
    ensures forall i :: 0 <= i < |it.days| ==> r.days[i] == ViewDay(it.days[i])
    ensures r.notes.Some? <==> Truthy(it.notes)
    ensures r.notes.Some? ==> r.notes == it.notes
  {
    Plan(it.itineraryName, it.summary, ViewDays(it.days), Shown(it.notes))
  }

  /** The result card's content: a spinner while loading, the plan when an itinerary
      is held, and the placeholder when neither. */
  function View(s: ItineraryPage.PageState): (r: seq<Panel>)
    ensures Spinner in r <==> s.isLoading
    ensures Placeholder in r <==> !s.isLoading && s.result.None?
    ensures s.result.Some? ==> PlanOf(s.result.value) in r
    ensures forall p :: p in r && p.Plan? ==> s.result.Some? && p == PlanOf(s.result.value)
  {
    (if s.isLoading then [Spinner] else [])
    + (match s.result
       case Some(it) => [PlanOf(it)]
       case None => [])
    + (if !s.isLoading && s.result.None? then [Placeholder] else [])
  }

  /** In every consistent page state the card shows exactly one panel. */
  lemma OnePanel(s: ItineraryPage.PageState)
    requires ResultSlot.Consistent(s)
    ensures |View(s)| == 1
  {
  }

  /** A plan with two days numbered 1 and 2 is drawn day 1 first, then day 2, each
      with its activities in the order received. */
  lemma TwoDayPlanInOrder(d1: ItineraryFlow.Day, d2: ItineraryFlow.Day)
    requires d1.dayNumber == 1.0 && d2.dayNumber == 2.0
    ensures var v := ViewDays([d1, d2]);
      && |v| == 2 && v[0].dayNumber == 1.0 && v[1].dayNumber == 2.0
      && v[0].activities == ViewActivities(d1.activities)
      && v[1].activities == ViewActivities(d2.activities)
  {
  }
}
