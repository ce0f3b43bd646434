/** The itinerary flow: its input and output record shapes and the part of its
    prompt template that this system computes, the rendering of the interests. */
module ItineraryFlow {
  import opened Outcomes
  import Text

  /** The flow's input. Its schema is looser than the page's form: budget and
      travel style are plain strings here, and interests may be empty. */
  datatype ItineraryInput = ItineraryInput(
    destination: string,
    startDate: string,
    endDate: string,
    interests: seq<string>,
    budget: string,
    travelStyle: string)

  /** One planned activity; location and recommendations are optional. */
  datatype Activity = Activity(
    time: string,
    description: string,
    location: Option<string>,
    recommendations: Option<string>)

  /** One day of the plan. `dayNumber` is a JavaScript number. */
  datatype Day = Day(dayNumber: real, date: string, activities: seq<Activity>)

  /** The flow's output, as the hosted model returns it; `notes` is optional. */
  datatype ItineraryOutput = ItineraryOutput(
    itineraryName: string,
    summary: string,
    days: seq<Day>,
    notes: Option<string>)

  /** What the template writes between two consecutive interests. */
  const Separator: string := ", "

  /** The template fragment `{{#each interests}}{{{this}}}{{#unless @last}}, {{/unless}}{{/each}}`:
      every item in turn, each followed by the separator unless it is the last. The
      result is the interests joined by the separator: an empty list renders as the
      empty string, and a non-empty rendering begins with the first interest and
      ends with the last. */
  method RenderInterests(interests: seq<string>) returns (r: string)
    ensures r == Text.Join(interests, Separator)
  {
    r := "";
    var i := 0;
    while i < |interests|
      invariant 0 <= i <= |interests|
      invariant r == Text.Join(interests[..i], Separator)
                     + (if 0 < i < |interests| then Separator else "")
    {
      var isLast := i == |interests| - 1;
      if i > 0 {
        Text.JoinSnoc(interests[..i], interests[i], Separator);
        assert interests[..i + 1] == interests[..i] + [interests[i]];
      } else {
        assert interests[..1] == [interests[0]];
      }
      r := r + interests[i];
      if !isLast {
        r := r + Separator;
      }
      i := i + 1;
    }
    assert interests[..i] == interests;
  }

  /** Cuts a rendered list back into its items at every occurrence of the separator. */
  function SplitList(s: string): (r: seq<string>)
    ensures |r| >= 1
    decreases |s|
  {
    if |s| == 0 then [""]
    else if |s| >= 2 && s[..2] == Separator then [""] + SplitList(s[2..])
    else
      var rest := SplitList(s[1..]);
      [[s[0]] + rest[0]] + rest[1..]
  }

  /** A prefix without commas cannot hold a separator, so it joins the first piece. */
  lemma {:induction false} SplitCommaFreePrefix(x: string, t: string)
    requires ',' !in x
    ensures SplitList(x + t) == [x + SplitList(t)[0]] + SplitList(t)[1..]
    decreases |x|
  {
    if |x| > 0 {
      var s := x + t;
      assert s[0] == x[0] && s[0] != ',';
      assert s[1..] == x[1..] + t;
      SplitCommaFreePrefix(x[1..], t);
      assert [x[0]] + (x[1..] + SplitList(t)[0]) == x + SplitList(t)[0];
    } else {
      var r := SplitList(t);
      assert x + t == t && x + r[0] == r[0];
      assert r == [r[0]] + r[1..];
    }
  }

  /** The empty list and the list holding one empty interest render alike, as the
      empty string, which splits back as the one-item list. */
  lemma EmptyListsRenderAlike()
    ensures Text.Join([], Separator) == "" && Text.Join([""], Separator) == ""
    ensures SplitList("") == [""]
  {
  }

  /** Each rendered interest is recovered in its input order, once per occurrence,
      when the interests hold no comma (the page's interest ids hold none). */
  lemma {:induction false} SplitRenderedInterests(xs: seq<string>)
    requires |xs| >= 1
    requires forall i :: 0 <= i < |xs| ==> ',' !in xs[i]
    ensures SplitList(Text.Join(xs, Separator)) == xs
    decreases |xs|
  {
    if |xs| == 1 {
      SplitCommaFreePrefix(xs[0], "");
      assert xs[0] + "" == xs[0];
    } else {
      var t := Text.Join(xs[1..], Separator);
      assert Text.Join(xs, Separator) == xs[0] + (Separator + t);
      SplitCommaFreePrefix(xs[0], Separator + t);
      assert (Separator + t)[..2] == Separator && (Separator + t)[2..] == t;
      SplitRenderedInterests(xs[1..]);
      var pieces := SplitList(Separator + t);
      assert pieces == [""] + xs[1..];
      assert SplitList(Text.Join(xs, Separator)) == [xs[0] + pieces[0]] + pieces[1..];
      assert xs[0] + pieces[0] == xs[0] && pieces[1..] == xs[1..];
      assert xs == [xs[0]] + xs[1..];
    }
  }
}
