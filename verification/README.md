# Travel-Ai page logic in Dafny

This project models the state-bearing rules of the Travel-Ai web application's three
AI-backed pages — the itinerary generator, the travel assistant and the phrasebook —
and of the itinerary flow's prompt template. Every call to the hosted language model
is an abstract `Outcome<T>`: `Success(result)` or `Failure`. The model's content is
never inspected.

Modules, one per page or flow, plus three shared modules:

- `Outcomes` (`outcomes.dfy`): `Outcome`, `Option` and `Result`.
- `Text` (`text.dfy`): ASCII digits, lower-casing and separator joins.
- `ResultSlot` (`result_slot.dfy`): the submit/settle cycle shared by the itinerary and
  phrasebook pages. A page holds an `isLoading` flag, a result slot and the request
  whose call is still in flight. The module proves that every reachable state is
  consistent. It also proves the slot only ever holds its starting value or a value
  a successful call returned; from the initial page, that means a successful call's value.
- `ItineraryFlow` (`itinerary_flow.dfy`): the flow's input and output records, and the
  Handlebars rendering of the interests list. It includes a splitter that recovers a
  non-empty list of comma-free interests from its rendering. The lists `[]` and `[""]`
  both render as the empty string. Neither passes the page's form, but the flow's
  looser schema accepts both.
- `ItineraryPage` (`itinerary_page.dfy`): the form schema, the default values, the
  interest checkbox toggle, and submit/settle.
- `ItineraryView` (`itinerary_view.dfy`): what the result card holds, including the
  days and activities in the order received and JavaScript truthiness of optional fields.
- `AssistantPage` (`assistant_page.dfy`): the form schema and the chat log. A user
  message is appended optimistically, the answer is appended on success, and the last
  message is dropped on failure. The module proves an invariant over any sequence of
  edits, presses and settlements.
- `PhrasebookPage` (`phrasebook_page.dfy`): the form schema, the translation pairing,
  the language-to-locale lookup and the speech guard.

In four places the code is looser than a reading of the features' intent suggests. The model follows the code:

- The phrasebook schema accepts any target-language string. Only the select list
  offers the eight languages.
- The itinerary interests rule is "some entry is a non-empty string" over a list that
  may hold duplicates. It is not "a non-empty set".
- The date rule is the shape `dddd-dd-dd` only. There is no calendar check and no
  ordering of start and end dates.
- A successful translation is shown with whatever text the model returned, even an
  empty one. Nothing checks that the translated phrase is non-empty.

## Model

| member | source | states |
|---|---|---|
| ItineraryFlow.RenderInterests | src/ai/flows/generate-personalized-itinerary.ts:59 | emitting each interest followed by ", " unless it is the last yields exactly the interests joined by ", " |
| Text.JoinEnds | src/ai/flows/generate-personalized-itinerary.ts:59 | a non-empty rendering begins with the first interest and ends with the last; the template adds nothing before the first item or after the last |
| Text.JoinLength | src/ai/flows/generate-personalized-itinerary.ts:59 | n rendered interests contribute their characters plus exactly n - 1 separators |
| ItineraryFlow.SplitRenderedInterests | src/ai/flows/generate-personalized-itinerary.ts:59 | splitting the rendering of a non-empty list of comma-free interests at ", " gives back the interests in input order, one per occurrence |
| ItineraryFlow.EmptyListsRenderAlike | src/ai/flows/generate-personalized-itinerary.ts:59 | `[]` and `[""]` both render as the empty string, which splits back as `[""]`, so the round trip needs a non-empty list |
| ItineraryPage.ParseBudget | src/app/itinerary-generator/page.tsx:36 | budget is accepted iff it is one of low, medium, high, and the parsed value spells the input |
| ItineraryPage.ParseTravelStyle | src/app/itinerary-generator/page.tsx:37 | travel style is accepted iff it is one of relaxed, fast-paced, family-friendly |
| ItineraryPage.EnumRoundTrip | src/app/itinerary-generator/page.tsx:36-37 | every budget and travel-style value parses back from its spelling |
| ItineraryPage.DateShapeIsPattern | src/app/itinerary-generator/page.tsx:31-32 | the positional date check accepts exactly the strings matching four digits, '-', two digits, '-', two digits, in both directions |
| ItineraryPage.AnyTruthy | src/app/itinerary-generator/page.tsx:33-35 | the interests rule holds iff some entry is a non-empty string |
| ItineraryPage.Validate | src/app/itinerary-generator/page.tsx:29-38 | the form is accepted iff every field rule holds; otherwise the failing fields are listed, exactly those; an accepted request carries the form's values |
| ItineraryPage.DefaultFormRejected | src/app/itinerary-generator/page.tsx:47-54 | the default values fail on destination, both dates and interests, in that order, and pass on budget and travel style |
| ItineraryPage.BlankInterestsRejected | src/app/itinerary-generator/page.tsx:33-35 | a form whose interests are all empty strings, including [] and [""], is rejected on interests |
| ItineraryPage.AcceptedFormIsFlowInput | src/ai/flows/generate-personalized-itinerary.ts:13-20 | every accepted form reaches the looser flow input with the same strings |
| ItineraryPage.RemoveAll | src/app/itinerary-generator/page.tsx:156-160 | filtering out an id leaves no occurrence of it, keeps every other item's count, and keeps the rest in order |
| ItineraryPage.Toggle | src/app/itinerary-generator/page.tsx:153-161 | checking appends the id after the unchanged list; unchecking removes every occurrence and keeps the other items in order |
| ItineraryPage.CheckThenUncheck | src/app/itinerary-generator/page.tsx:153-161 | check then uncheck of an id removes it everywhere, and restores the list exactly when the id was absent |
| ItineraryPage.ToggleAndInterestsRule | src/app/itinerary-generator/page.tsx:20-35 | checking any listed interest satisfies the interests rule; after unchecking, the rule holds iff another non-empty interest remains |
| ItineraryPage.Press | src/app/itinerary-generator/page.tsx:57-59 | a press while loading or with an invalid form changes nothing and sends nothing; otherwise loading is set, the itinerary cleared and the form's values sent |
| ItineraryPage.Settle | src/app/itinerary-generator/page.tsx:60-72 | when the call settles loading clears; success stores the result, failure leaves the itinerary as it was |
| ItineraryPage.SubmitItinerary | src/app/itinerary-generator/page.tsx:57-73 | a submission from an idle page ends with the call's result on success, no itinerary on failure, and loading false |
| ResultSlot.Press | src/app/itinerary-generator/page.tsx:221 | the submit button does nothing while loading; an accepted request raises the flag and empties the slot; consistency is kept |
| ResultSlot.Settle | src/app/phrasebook/page.tsx:53-69 | settling with nothing in flight changes nothing; otherwise the flag clears, success fills the slot and failure keeps it; consistency is kept |
| ResultSlot.SubmitOutcome | src/app/itinerary-generator/page.tsx:57-73 | whatever was shown before, one submission leaves the slot holding the success value or nothing, with the flag down |
| ResultSlot.RunConsistent | src/app/itinerary-generator/page.tsx:57-73 | along any sequence of presses and settlements, loading is true exactly while a call is in flight, and the slot is empty then |
| ResultSlot.InitialConsistent | src/app/itinerary-generator/page.tsx:41-42 | the page as first rendered has no result, is not loading and is consistent |
| ResultSlot.ReachableFromInitial | src/app/itinerary-generator/page.tsx:41-73 | every state reachable from the first render is consistent, and its slot holds only a value some successful call returned |
| ResultSlot.RunResultFromSuccess | src/app/itinerary-generator/page.tsx:58-62 | the slot only ever holds the starting value or a value some successful call returned |
| ItineraryView.Shown | src/app/itinerary-generator/page.tsx:282-287 | an optional text is drawn iff it is present and non-empty, and then unchanged |
| ItineraryView.ViewActivity | src/app/itinerary-generator/page.tsx:264-274 | time and description are always drawn; location and recommendations only when truthy |
| ItineraryView.ViewActivities | src/app/itinerary-generator/page.tsx:261-276 | the j-th activity line holds the j-th activity received |
| ItineraryView.ViewDay | src/app/itinerary-generator/page.tsx:250-261 | a day's accordion item holds its number, its date and its activities in order |
| ItineraryView.ViewDays | src/app/itinerary-generator/page.tsx:250-280 | the i-th accordion item holds the i-th day received, with that day's activities in the order received |
| ItineraryView.PlanOf | src/app/itinerary-generator/page.tsx:243-287 | the plan shows the itinerary's name and summary, the i-th day view for the i-th day, and the notes only when they are present and non-empty |
| ItineraryView.View | src/app/itinerary-generator/page.tsx:237-295 | the spinner shows iff loading; the plan shows iff an itinerary is held; the placeholder shows iff neither |
| ItineraryView.OnePanel | src/app/itinerary-generator/page.tsx:237-295 | in every consistent page state exactly one panel is shown |
| ItineraryView.TwoDayPlanInOrder | src/app/itinerary-generator/page.tsx:250-261 | a plan with days numbered 1 and 2 holds day 1 in the first accordion item and day 2 in the second, each with its activities in order |
| AssistantPage.Validate | src/app/travel-assistant/page.tsx:19-22 | destination fails iff shorter than 2; question fails iff shorter than 10; the form passes iff neither fails |
| AssistantPage.DropLast | src/app/travel-assistant/page.tsx:74 | slice(0, -1) removes exactly the last message, and an empty log stays empty |
| AssistantPage.Type | src/app/travel-assistant/page.tsx:132-157 | editing the inputs changes only the form values |
| AssistantPage.Press | src/app/travel-assistant/page.tsx:54-58 | an accepted press appends exactly one user message with the question and the destination, keeps the destination, clears the question, and sets loading |
| AssistantPage.Settle | src/app/travel-assistant/page.tsx:60-77 | success appends one assistant message holding the answer, failure drops the last message, and loading clears |
| AssistantPage.SubmitAnswered | src/app/travel-assistant/page.tsx:54-66 | a successful submission leaves the old log followed by the user message and an assistant message without a destination |
| AssistantPage.SubmitFailed | src/app/travel-assistant/page.tsx:54-77 | a failed submission leaves the log equal to the log before the press (no net growth), with the question cleared |
| AssistantPage.StepConsistent | src/app/travel-assistant/page.tsx:54-77 | each edit, press or settlement keeps the log as answered exchanges plus, during a call, the pending user message |
| AssistantPage.InitialConsistent | src/app/travel-assistant/page.tsx:31-42 | the page as first rendered has an empty log, is not loading and is consistent |
| AssistantPage.ReachableFromInitial | src/app/travel-assistant/page.tsx:31-77 | every state reachable from the first render is consistent |
| AssistantPage.RunConsistent | src/app/travel-assistant/page.tsx:54-77 | along any sequence of events, loading is true exactly while a call is in flight, and the log at rest alternates user and assistant messages |
| AssistantPage.RunKeepsAnsweredLog | src/app/travel-assistant/page.tsx:57-74 | from an idle page, the existing log stays a prefix of the log after any sequence of events |
| AssistantPage.RunFromPendingKeeps | src/app/travel-assistant/page.tsx:57-74 | during a call, the log before the pending user message stays a prefix of the log after any sequence of events |
| PhrasebookPage.Validate | src/app/phrasebook/page.tsx:28-31 | the form passes iff the phrase is non-empty and some target language is selected; the request carries both unchanged |
| PhrasebookPage.DefaultFormRejected | src/app/phrasebook/page.tsx:43-48 | the default form, with an empty phrase and no language, is rejected on both fields in schema order |
| PhrasebookPage.UnlistedLanguageAccepted | src/app/phrasebook/page.tsx:30 | a language outside the eight listed still passes the schema |
| PhrasebookPage.Press | src/app/phrasebook/page.tsx:50-52 | an accepted press sets loading, clears the translation and sends the phrase and language; otherwise nothing changes |
| PhrasebookPage.Settle | src/app/phrasebook/page.tsx:53-69 | success pairs the submitted phrase and language with the model's text; failure keeps the slot; loading clears |
| PhrasebookPage.SubmitTranslation | src/app/phrasebook/page.tsx:50-70 | from an idle page, success shows the original phrase unchanged beside the translation, failure shows none, and loading is false |
| Text.Lower | src/app/phrasebook/page.tsx:87 | lower-casing keeps the length, maps each character, and leaves no upper-case ASCII letter |
| PhrasebookPage.LocaleFor | src/app/phrasebook/page.tsx:84-87 | the fallback en-US is chosen iff the lower-cased name is not a map key; otherwise the locale is the map's entry for the lower-cased name |
| PhrasebookPage.LocaleIgnoresCase | src/app/phrasebook/page.tsx:87 | names that lower-case alike get the same locale |
| PhrasebookPage.ListedLanguagesHaveLocales | src/app/phrasebook/page.tsx:17-26 | the i-th listed language is spoken in the i-th locale of es, fr, de, it, ja, zh-CN, ko, ar, so none falls back to en-US |
| PhrasebookPage.FallbackExactlyUnlisted | src/app/phrasebook/page.tsx:84-87 | en-US is chosen iff the name matches no listed language in any ASCII letter case |
| PhrasebookPage.HandleSpeak | src/app/phrasebook/page.tsx:72-97 | without a client or a synthesizer only the "not available" notification results; a throwing synthesizer gives the "failed" notification; otherwise the text is spoken in the mapped locale |

## Left out

- The hosted model calls are left out. This covers the flows in src/ai/flows/get-travel-recommendations.ts and src/ai/flows/translate-travel-phrases.ts and the call inside the itinerary flow. They pass requests through to a nondeterministic external service, so each call is an `Outcome` parameter.
- The prompt text around the interests is not modelled. Apart from the interests line, the template only substitutes the fields verbatim.
- Browser speech synthesis, the scroll-to-bottom effect and console logging are left out because they are side effects or foreign APIs. Speech availability, client mounting and a throwing synthesizer are boolean parameters of `HandleSpeak`.
- Toast notifications are modelled only in `HandleSpeak`, where a notification is the whole result. The pages' error toasts after a failed call are not modelled; the state they leave is.
- The AR scanner, community, map, landing, layout and navigation pages, the map widget and the development bootstrap are left out. They are static, timer-driven or third-party UI.
- Zod and react-hook-form internals are left out; only the stated constraints are modelled. String length is sequence length, whereas zod counts UTF-16 code units.
- The validation messages shown under failing fields are not modelled. Validators return which fields failed, not the message texts.
- Text.Lower: lower-cases ASCII letters only. JavaScript's `toLowerCase` covers all of Unicode and can map non-ASCII characters onto ASCII ones. For example, U+212A KELVIN SIGN becomes 'k', so the source speaks "\u212Aorean" as ko where `LocaleFor` gives en-US. `FallbackExactlyUnlisted` is therefore about ASCII letter case only. This does not matter for the page: the speaker button passes `translation.language`, which is one of the select's eight ASCII values (src/app/phrasebook/page.tsx:140-144, 191).
- PhrasebookPage.LocaleFor: does not model keys inherited from `Object.prototype` (such as "constructor"). In JavaScript such a key finds a truthy inherited value instead of the fallback. The select list never offers these keys.
- ItineraryView.ViewDays: which accordion item is open is not modelled. The model gives every item's content, while the page's single collapsible accordion expands one day at a time, day 1 first (src/app/itinerary-generator/page.tsx:249).
- ItineraryFlow.Day: `dayNumber` is a `real`, so JavaScript's NaN and infinities are not represented.
- A `Success` outcome always carries a record. The flow's `output!` is a type-level assertion only, and a null model output is not modelled.
- Settling with no call in flight is a no-op in `ResultSlot.Settle`, `PhrasebookPage.Settle` and `AssistantPage.Settle`. The source cannot reach that case.
- The checkbox's "indeterminate" state is not modelled. It is truthy in the source, so it would append like `checked == true`. `Toggle` takes a boolean.
- React's batched and functional state updates are modelled as one sequential step per event. Only one call can be in flight because the submit button is disabled while loading.
