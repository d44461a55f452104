# Restaurant-choose: the decision core in Dafny

Restaurant-choose is a small React Native app that helps a group pick a
restaurant. People and restaurants are kept in the device's key-value
store. Under the layout code the app has four pieces of sequential logic,
and this project models each as pure functions over immutable values:

- **The choice session** (`screens/RestaurantChoiceScreen.js`), module `Choice` with `Filters`.
  - The five-criterion filter: style text, price tier, delivery, area text and minimum rating.
  - The candidate pool: the filtered list minus the restaurant ids rejected in this session.
  - A random pick from the pool. The random draw is a parameter `i < |pool|`.
  - The per-participant accept/reject ballot.
  - The reset when the screen regains focus, and dismissal of the vote card.

  Every handler is one transition `Handle(session, event)`. It returns the next session and what the user or the navigator is told.
- **The restaurant list** (`screens/RestaurantsScreen.js`), module `Restaurants`.
  - The ordered chain of field checks before a save.
  - Append on success.
  - Delete by id.
  - Filling in missing ids when the list is loaded.
- **The people list** (`screens/PeopleScreen.js`), module `People`.
  - The non-empty check and the name pattern `^[A-Z][a-zA-Z\s]*$`. The pattern runs as a three-state matcher, which is proved equal to its plain reading.
  - Append, and delete by id.
- **Picking who is going** (`screens/WhoIsGoingScreen.js`), module `WhoIsGoing`.
  - Toggling a person's id in the selection.
  - Mapping the selected ids to the participants handed to the choice session.

Shared modules:
- `Text`: ASCII trim, lower-casing, substring search and decimal rendering of a number.
- `Seqs`: `filter`, the subsequence relation and duplicate freedom.
- `Records`: the stored records and the result of a store read.

The store is a parameter:
- A read is `Absent`, `Stored(value)` or `ReadFailed`.
- A write is answered by `writeOk`.
- Every handler that writes returns the list it wrote, or `None` when the store was left alone.

The clock is a parameter:
- A save's `Date.now()` becomes a `now: nat`, rendered with `Decimal`.
- The id backfill on load reads the clock once per record, so there it becomes a function `clock` from the record's position to its reading.

Points of the code worth stating explicitly, each of which the model follows:
- An accept appends the current **voter's** id to the accepted list, not the restaurant's.
- A reject closes the ballot but does not clear the accepted list. The next pick clears it.
- The last accept closes the ballot. It leaves the voter index at the last voter.
- Regaining focus does three things:
  - it reloads the list;
  - it shows the whole list again while keeping the filter form as edited;
  - it clears the rejections, the voter index and the accepted list.

  It does not close an open vote card.
- Closing the vote card by the system back action only shows a reminder. It is neither a cancel nor an implicit reject.

## Model

| member | source | states |
|---|---|---|
| Seqs.Filter | screens/PeopleScreen.js:58 | `filter` keeps exactly the elements the predicate accepts, in their original order, and is never longer |
| Seqs.FilterCounts | screens/RestaurantsScreen.js:173 | every kept element keeps its multiplicity and every dropped one disappears entirely |
| Text.Trim | screens/RestaurantsScreen.js:49-51 | the trimmed text is empty exactly for blank input and otherwise has no whitespace at either end |
| Text.TrimIsPiece | screens/RestaurantsScreen.js:49-51 | the trimmed text occurs in the input with only whitespace before and after it, so trimming removes nothing but leading and trailing whitespace |
| Text.TrimIdempotent | screens/RestaurantChoiceScreen.js:65-66 | a general property of `trim`, which both the truthiness test and the match of a filter text apply: trimming twice is trimming once |
| Text.DecimalRoundTrip | screens/RestaurantsScreen.js:128 | the decimal text of a timestamp reads back as the same number |
| Filters.TextActiveIffTrimmed | screens/RestaurantChoiceScreen.js:65 | a text criterion is active exactly when its trimmed text is not empty |
| Filters.Apply | screens/RestaurantChoiceScreen.js:60-89 | the five filter passes, in the handler's order, keep a restaurant exactly when it is stored and meets every active criterion, and never lengthen the list |
| Filters.ApplyIsFilterByMatches | screens/RestaurantChoiceScreen.js:60-93 | the five successive filter passes keep exactly the restaurants meeting every active criterion judged on its own, in stored order |
| Filters.ApplySelectsMatches | screens/RestaurantChoiceScreen.js:61-89 | the filtered list is an order-preserving subsequence of all restaurants, no longer than it, and a restaurant is in it iff it matches |
| Filters.NarrowingShrinks | screens/RestaurantChoiceScreen.js:61-89 | adding a criterion, or tightening one (a search text containing the old one, a higher minimum rating), never enlarges the result, which stays a subsequence of the wider result |
| Filters.RaisingMinimumNarrows | screens/RestaurantChoiceScreen.js:85-88 | raising the minimum rating with every other criterion kept is a narrowing, so `NarrowingShrinks` applies to it |
| Filters.AnyCriteriaKeepsAll | screens/RestaurantChoiceScreen.js:105-111 | with every criterion at its default the filter keeps the whole list, as the reset shows it |
| Filters.MinimumRatingExample | screens/RestaurantChoiceScreen.js:85-88 | a minimum rating of 4 keeps the restaurants rated 4 and 5 and drops the one rated 3 |
| Choice.StartValid | screens/RestaurantChoiceScreen.js:11-21 | the session invariant holds at the start exactly when there is at least one participant |
| Choice.Focus | screens/RestaurantChoiceScreen.js:31-57 | regaining focus loads the stored restaurants (none on a missing or failed read), shows all of them, clears the rejections, the voter index and the accepts, so every loaded restaurant is a candidate; the filter form and the vote card are left alone |
| Choice.ApplyCriteria | screens/RestaurantChoiceScreen.js:60-93 | applying replaces the shown list and clears the rejections, so every shown restaurant is a candidate; nothing else changes |
| Choice.Reset | screens/RestaurantChoiceScreen.js:105-114 | resetting sets every criterion to its default, shows every stored restaurant and clears the rejections, so every stored restaurant is a candidate; nothing else changes |
| Choice.Pool | screens/RestaurantChoiceScreen.js:117-119 | the candidates are exactly the shown restaurants whose id was not rejected, in the order shown |
| Choice.FiltersShowMatches | screens/RestaurantChoiceScreen.js:60-115 | applying shows exactly the matching stored restaurants and clears the rejections; resetting shows what the default criteria select and clears them too |
| Choice.Choose | screens/RestaurantChoiceScreen.js:117-137 | an empty pool changes nothing and reports no options; otherwise the pick comes from the shown list, is not rejected, and opens a fresh ballot at voter 0 with no accepts, all else unchanged |
| Choice.Vote | screens/RestaurantChoiceScreen.js:140-170 | a vote never changes the participants, the restaurants, the filter or the candidate; an accept records the voter's id and keeps the rejections; the card stays open exactly after a non-last accept, which hands the turn on; the last accept confirms the candidate with all participants; a reject closes the card, adds the candidate's id to the rejections and names the voter |
| Choice.AcceptAdvances | screens/RestaurantChoiceScreen.js:144-156 | a non-last accept moves the turn on by exactly one, appends that voter's id, keeps the rejections, and the voter index stays in range |
| Choice.LastAcceptConfirms | screens/RestaurantChoiceScreen.js:150-153 | the last accept closes the ballot and emits the selected restaurant with the unchanged participants, every participant id accepted in order |
| Choice.RejectExcludes | screens/RestaurantChoiceScreen.js:158-170 | a reject at any index closes the ballot, appends exactly the selected id, keeps the rejections free of duplicates, and excludes that restaurant from the next pool |
| Choice.NoMoreOptionsAfterRejections | screens/RestaurantChoiceScreen.js:117-124 | with the button enabled only while something is shown (line 230), "no more options" is reported exactly when every shown restaurant has been rejected |
| Choice.RejectionPersists | screens/RestaurantChoiceScreen.js:117-170 | a rejected restaurant stays rejected, and out of every pool, through any run of inputs until focus, apply or reset clears the rejections |
| Choice.Handle | screens/RestaurantChoiceScreen.js:31-170 | no handler changes the participants; only an accept from the last voter navigates on, with the candidate and the participants; only a reject blames a voter; "no more options" is reported exactly when a draw finds no candidate |
| Choice.HandleKeepsValid | screens/RestaurantChoiceScreen.js:31-170 | every handler keeps the invariant: a participant exists, the shown list comes from the stored one, no rejection twice, and while the ballot is open the voter is in range, the candidate is not rejected and exactly the earlier voters have accepted |
| Choice.RejectionsOnlyGrow | screens/RestaurantChoiceScreen.js:31-40 | rejections grow by at most one per handler and are cleared only by focus, apply and reset; focus also restarts the turns; dismissing the vote card changes nothing |
| Choice.UnanimousAcceptance | screens/RestaurantChoiceScreen.js:140-156 | from any open ballot, accepts from all remaining voters confirm the restaurant with every participant id accepted in order |
| Choice.SingleRejection | screens/RestaurantChoiceScreen.js:140-170 | any number of accepts followed by one reject closes the ballot with exactly one id added to the rejections, blamed on the rejecting voter |
| Choice.ChooseThenAllAccept | screens/RestaurantChoiceScreen.js:117-156 | a pick followed by one accept per participant confirms the picked restaurant |
| Choice.AliceBobScenario | screens/RestaurantChoiceScreen.js:140-170 | Alice accepts (turn passes to Bob), Bob rejects: the ballot closes with "Pizza Place" as the only rejection |
| People.NamePatternIsWellFormed | screens/PeopleScreen.js:34 | the matcher for `^[A-Z][a-zA-Z\s]*$` accepts exactly names that start with an upper-case ASCII letter followed only by ASCII letters and whitespace |
| People.ValidateName | screens/PeopleScreen.js:21-42 | a blank name is refused as empty, a non-blank one failing the pattern as malformed, and an accepted name is the trimmed input, starts upper-case and has no digit |
| People.SavePerson | screens/PeopleScreen.js:20-50 | a save succeeds iff the trimmed name is well formed and the write succeeds, then appends exactly one person with a timestamp id and the trimmed name, keeping earlier entries, and clears the field; otherwise nothing changes and nothing is written |
| People.DeletePerson | screens/PeopleScreen.js:52-64 | a confirmed delete with a successful write keeps exactly the people with another id, in order; otherwise nothing changes |
| People.DeleteKeepsOthers | screens/PeopleScreen.js:58-60 | every person with another id survives a delete as often as before |
| People.EditsKeepNamesWellFormed | screens/PeopleScreen.js:45-48 | saving and deleting keep every listed name well formed |
| People.DigitNameRefused | screens/PeopleScreen.js:34-42 | a name holding a digit anywhere after trimming is refused as malformed |
| People.LowerCaseStartRefused | screens/PeopleScreen.js:34-42 | a name whose trimmed form starts with a lower-case letter is refused as malformed |
| People.PaddedNameAccepted | screens/PeopleScreen.js:21-45 | a well-formed name typed with a space on each side is accepted as the name without them |
| People.DigitNameExample | screens/PeopleScreen.js:34-42 | "Bob2" is refused as malformed |
| People.LowerCaseNameExample | screens/PeopleScreen.js:34-42 | "bob" is refused as malformed |
| People.AcceptedNameExample | screens/PeopleScreen.js:21-45 | "Mary Ann" with a space on each side is accepted as "Mary Ann" |
| Restaurants.FirstFailure | screens/RestaurantsScreen.js:49-122 | the check chain passes exactly the acceptable forms, and each error is reported iff its check fails while every earlier one passes |
| Restaurants.DigitAreaRefused | screens/RestaurantsScreen.js:100-109 | the area "1234" fails the all-digits check, not the later length check |
| Restaurants.ShortAreaRefused | screens/RestaurantsScreen.js:114-122 | with name "Luigi" and style "Italian", the area "12b" passes the all-digits check and fails the length check |
| Restaurants.SaveRestaurant | screens/RestaurantsScreen.js:48-154 | a save succeeds iff the form is acceptable and the write succeeds, then appends exactly one record with the trimmed texts and the chosen price, delivery and rating, keeps earlier entries in place and resets the form; a failed check or write leaves the list and store alone |
| Restaurants.DeleteRestaurant | screens/RestaurantsScreen.js:156-218 | an unknown id is reported and changes nothing; a confirmed delete with a successful write keeps exactly the others, in order, and shortens the list; the web and native branches compute the same list |
| Restaurants.DeleteKeepsOthers | screens/RestaurantsScreen.js:173-177 | every restaurant with another id survives a delete as often as before |
| Restaurants.LoadRestaurants | screens/RestaurantsScreen.js:27-46 | a stored list is loaded with its length and order, entries with an id untouched and every other entry given a non-empty id; nothing stored or a failed read leaves the list as it was |
| Restaurants.BackfilledIdsDiffer | screens/RestaurantsScreen.js:33-39 | two entries given ids in the same load get different ids, whatever clock readings and random suffixes they got |
| WhoIsGoing.Toggle | screens/WhoIsGoingScreen.js:38-46 | tapping an unselected id appends it; tapping a selected id removes it; the selection changes by exactly that id |
| WhoIsGoing.ToggleKeepsNoDup | screens/WhoIsGoingScreen.js:40-44 | tapping never makes an id appear twice |
| WhoIsGoing.ToggleTwice | screens/WhoIsGoingScreen.js:38-46 | tapping twice restores the same set of ids, exactly the original sequence for an unselected id, the id moved to the end for a selected one |
| WhoIsGoing.Focus | screens/WhoIsGoingScreen.js:13-36 | regaining focus loads exactly the stored people in stored order, none on a missing or failed read, and keeps the selection unchanged |
| WhoIsGoing.Participants | screens/WhoIsGoingScreen.js:54 | the participants are exactly the loaded people whose id is selected, as a subsequence of the loaded list |
| WhoIsGoing.LoadedOrderExample | screens/WhoIsGoingScreen.js:54-57 | selecting Bob then Alice passes Alice then Bob, in loaded order |
| WhoIsGoing.NextAsWritten | screens/WhoIsGoingScreen.js:48-99 | as written, the button is disabled exactly when no id is selected or nobody is loaded, so the handler's alert never shows, and an enabled press navigates with the participants, possibly none |
| WhoIsGoing.Next | screens/WhoIsGoingScreen.js:48-99 | with the handler's guard on the participants, the button is disabled as before, an enabled press alerts exactly when no selected person is loaded, and it navigates exactly when there are participants, starting a valid choice session |
| WhoIsGoing.GuardsDisagreeOnStaleSelection | screens/WhoIsGoingScreen.js:49-54 | the two versions disagree exactly when the button is enabled but no selected id belongs to a loaded person |
| WhoIsGoing.LoadedSelectionAgrees | screens/WhoIsGoingScreen.js:49-54 | when every selected id belongs to a loaded person the screen's guard is right |
| WhoIsGoing.NextStartsValidSession | screens/WhoIsGoingScreen.js:57 | after the corrected Next, the choice screen's first focus leaves a valid session whatever the store holds |
| WhoIsGoing.StaleSelectionScenario | screens/WhoIsGoingScreen.js:13-15 | selecting Alice, removing her from the store and refocusing leaves her id selected; Next as written navigates with no participants, the corrected one alerts |
| WhoIsGoing.EmptyParticipantsBreakBallot | screens/RestaurantChoiceScreen.js:141 | with no participants no session is valid, and a drawn restaurant opens a ballot whose voter index is past the end of the participant list |

## Left out

- Storage I/O and JSON encoding.
  - A read is a `Read` value and a write is a `writeOk` answer.
  - A stored value that does not decode counts as `ReadFailed`.
- Unicode.
  - `trim`, `toLowerCase` and the regex `\s` are modelled on ASCII whitespace and ASCII letters.
  - `.length` is modelled as the number of characters, not UTF-16 code units. So the five-character minimum for the area can differ on text outside the Basic Multilingual Plane: "ab😀c" passes it in the app and fails it in the model.
  - A rating is an integer 1..5, as the picker offers. The string form and `parseInt` are not modelled.
- Random choices.
  - `Math.random` in the pick is any index into the pool. Whether the pick is uniform is not modelled.
  - The random suffix of a backfilled id is an arbitrary string per position.
- Alerts and confirmations.
  - `Alert.alert`, `window.alert`, `window.confirm` and the `Platform` branches become a report value and a `confirmed` flag.
  - The "Filters Applied" and "No Results" messages after applying filters are not modelled.
- The "Filter Restaurants" button is disabled while no restaurant is loaded. The model does not gate editing, applying or resetting the filter on it. On an empty list these show nothing either way.
- Presentation state. Loading spinners, modals, pickers and list rendering are not modelled. The exceptions are the vote card's visibility (`ballotOpen`) and its dismissal.
- `loadPeople` in `screens/PeopleScreen.js`: it replaces the list with what is stored and is not modelled. The picker's reload is modelled as `WhoIsGoing.Focus`.
- React state batching and async callbacks. Each handler is one atomic transition on the state at render time.
- A store write that only half happens cannot occur in the model. Each write either replaces the stored list or fails and leaves it alone.
- Restaurants.SaveRestaurant: the id is `Decimal(now)`. Two saves within the same millisecond would share an id, which the model does not rule out.
- People.SavePerson: has the same millisecond id collision as Restaurants.SaveRestaurant, also not ruled out.
- The other screens are navigation and display with no logic of their own:
  - `screens/DecisionScreen.js` (an unrouted older flow);
  - `screens/DecisionStartScreen.js`;
  - `screens/EnjoyMealScreen.js`;
  - `navigation/AppNavigator.js`;
  - `App.js`;
  - `components/CustomButton.js`.

## Findings

| source | as written | input that shows it | evidently intended | confidence | as-written member | corrected member |
|---|---|---|---|---|---|---|
| screens/WhoIsGoingScreen.js:49 | Next refuses only an empty id list, then navigates with whichever loaded people match the ids | with Alice and Bob stored, select Alice, delete her on the People tab and return: the people reload on focus (Bob is still loaded, so Next stays enabled) and the selection keeps `"a"`; Next navigates with `participants = []`, and as soon as a restaurant is drawn the vote card renders `participants[0].name` of an empty list (screens/RestaurantChoiceScreen.js:326) | navigate only when at least one selected person is still loaded | not executed | WhoIsGoing.NextAsWritten, WhoIsGoing.StaleSelectionScenario | WhoIsGoing.Next |
