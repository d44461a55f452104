/** The restaurant-choice session: the filtered list, the ids rejected in this
    session, the restaurant on the ballot and the per-participant accept/reject
    ballot. Every handler of the screen is one transition on an explicit
    session value. */
module Choice {
  import opened Seqs
  import opened Records
  import opened Filters

  datatype Session = Session(
    participants: seq<Person>,    // the route parameter; never changes
    all: seq<Restaurant>,         // every stored restaurant
    filtered: seq<Restaurant>,    // the list shown, after filtering
    criteria: Criteria,           // the filter form as currently edited
    rejected: seq<string>,        // restaurant ids rejected in this session
    selected: Option<Restaurant>, // the restaurant on the ballot
    ballotOpen: bool,             // the vote card is showing
    voterIndex: nat,              // whose turn it is
    accepted: seq<string>)        // ids of the participants who accepted so far

  /** What a transition reports to the user or the navigator. */
  datatype Event =
    | Quiet
    | NoMoreOptions
    | Confirmed(restaurant: Restaurant, participants: seq<Person>)
    | Rejected(voter: Person, restaurant: Restaurant)

  datatype Step = Step(next: Session, event: Event)

  /** The user's inputs to the screen. `draw` is the random index. */
  datatype UiEvent =
    | Focused(read: Read<seq<Restaurant>>)
    | EditCriteria(criteria: Criteria)
    | ApplyFilters
    | ResetFilters
    | ChooseForMe(draw: nat)
    | CastVote(accept: bool)
    | DismissVote

  /** The session as the screen is first built. */
  function Start(participants: seq<Person>): Session {
    Session(participants, [], [], AnyCriteria, [], None, false, 0, [])
  }

  /** The invariant of the session: someone can vote, the shown list comes
      from the stored one, no id is rejected twice, and while the ballot is
      open the voter index is in range, the candidate has not been rejected and
      exactly the participants before the current voter have accepted. */
  predicate Valid(s: Session) {
    && |s.participants| > 0
    && IsSubsequence(s.filtered, s.all)
    && NoDup(s.rejected)
    && (s.ballotOpen ==>
          && s.selected.Some?
          && s.voterIndex < |s.participants|
          && s.selected.value.id !in s.rejected
          && s.accepted == Ids(s.participants[..s.voterIndex]))
  }

  function LoadedList(read: Read<seq<Restaurant>>): seq<Restaurant> {
    match read
    case Stored(rs) => rs
    case _ => []
  }

  /** Regaining focus reloads the restaurants (a failed or empty read leaves
      none), shows all of them, and clears the session's voting state, so
      every loaded restaurant is a candidate again. The filter form and the
      vote card are left as they were. */
  function Focus(s: Session, read: Read<seq<Restaurant>>): (r: Session)
    ensures read.Stored? ==> r.all == read.value
    ensures !read.Stored? ==> r.all == []
    ensures Pool(r) == r.filtered == r.all
    ensures r.rejected == [] && r.voterIndex == 0 && r.accepted == []
    ensures r == s.(all := r.all, filtered := r.filtered, rejected := [], voterIndex := 0, accepted := [])
  {
    var rs := LoadedList(read);
    FilterKeepsAllOf(rs, NotRejected([]));
    s.(all := rs, filtered := rs, rejected := [], voterIndex := 0, accepted := [])
  }

  /** Applying the filter form replaces the shown list and forgets the
      rejections, so every shown restaurant is a candidate again; nothing
      else changes (`FiltersShowMatches` says what is shown). */
  function ApplyCriteria(s: Session): (r: Session)
    ensures r.rejected == [] && Pool(r) == r.filtered
    ensures r == s.(filtered := r.filtered, rejected := [])
  {
    var shown := Apply(s.all, s.criteria);
    FilterKeepsAllOf(shown, NotRejected([]));
    s.(filtered := shown, rejected := [])
  }

  /** Resetting puts every criterion back to its default and shows, as
      candidates, every stored restaurant; nothing else changes. */
  function Reset(s: Session): (r: Session)
    ensures r.criteria == AnyCriteria && r.rejected == []
    ensures Pool(r) == r.filtered == s.all
    ensures r == s.(criteria := AnyCriteria, filtered := s.all, rejected := [])
  {
    FilterKeepsAllOf(s.all, NotRejected([]));
    s.(criteria := AnyCriteria, filtered := s.all, rejected := [])
  }

  function NotRejected(rejected: seq<string>): Restaurant -> bool {
    (r: Restaurant) => r.id !in rejected
  }

  /** The candidates: the shown restaurants whose id was not rejected in this
      session, in the order shown. */
  function Pool(s: Session): (r: seq<Restaurant>)
    ensures IsSubsequence(r, s.filtered)
    ensures forall x :: x in r <==> x in s.filtered && x.id !in s.rejected
  {
    Filter(s.filtered, NotRejected(s.rejected))
  }

  /** Picks the `i`-th candidate and opens a fresh ballot on it; with no
      candidate left nothing changes. */
  function Choose(s: Session, i: nat): (r: Step)
    requires |Pool(s)| == 0 || i < |Pool(s)|
    ensures |Pool(s)| == 0 ==> r == Step(s, NoMoreOptions)
    ensures |Pool(s)| > 0 ==>
      && r.event == Quiet
      && r.next.selected.Some?
      && r.next.selected.value in s.filtered
      && r.next.selected.value.id !in s.rejected
      && r.next == s.(selected := r.next.selected, ballotOpen := true, voterIndex := 0, accepted := [])
  {
    var pool := Pool(s);
    if |pool| == 0 then Step(s, NoMoreOptions)
    else
      assert pool[i] in pool;
      Step(s.(voterIndex := 0, accepted := [], selected := Some(pool[i]), ballotOpen := true), Quiet)
  }

  /** A vote is possible only on the open vote card, which shows the selected
      restaurant and the current voter. */
  predicate CanVote(s: Session) {
    s.ballotOpen && s.selected.Some? && s.voterIndex < |s.participants|
  }

  /** The current voter accepts or rejects the selected restaurant. A vote
      leaves the participants, the restaurants, the filter and the candidate
      alone. An accept records the voter's id and either hands the turn on
      or, from the last voter, closes the card and confirms the restaurant
      with all participants. A reject closes the card, adds the restaurant's
      id to the rejections and names the voter. */
  function Vote(s: Session, accept: bool): (r: Step)
    requires CanVote(s)
    ensures r.next == r.next.(participants := s.participants, all := s.all, filtered := s.filtered,
      criteria := s.criteria, selected := s.selected)
    ensures accept ==> r.next.accepted == s.accepted + [s.participants[s.voterIndex].id] && r.next.rejected == s.rejected
    ensures !accept ==>
      && r.next.accepted == s.accepted
      && r.next.voterIndex == s.voterIndex
      && r.next.rejected == s.rejected + [s.selected.value.id]
      && r.event == Rejected(s.participants[s.voterIndex], s.selected.value)
    ensures r.next.ballotOpen <==> accept && s.voterIndex + 1 < |s.participants|
    ensures r.next.ballotOpen ==> r.next.voterIndex == s.voterIndex + 1 && r.event == Quiet
    ensures r.event.Confirmed? <==> accept && s.voterIndex + 1 == |s.participants|
    ensures r.event.Confirmed? ==> r.event == Confirmed(s.selected.value, s.participants)
  {
    var voter := s.participants[s.voterIndex];
    if accept then
      if s.voterIndex == |s.participants| - 1 then
        Step(s.(accepted := s.accepted + [voter.id], ballotOpen := false), Confirmed(s.selected.value, s.participants))
      else
        Step(s.(accepted := s.accepted + [voter.id], voterIndex := s.voterIndex + 1), Quiet)
    else
      Step(s.(rejected := s.rejected + [s.selected.value.id], ballotOpen := false), Rejected(voter, s.selected.value))
  }

  /** Whether the control for an input is on screen and enabled: the
      "Choose For Me!" button is disabled while nothing is shown, the draw
      lands inside the pool, and the vote buttons exist only on the open vote
      card. */
  predicate Enabled(s: Session, e: UiEvent) {
    match e
    case ChooseForMe(i) => s.filtered != [] && (|Pool(s)| == 0 || i < |Pool(s)|)
    case CastVote(_) => CanVote(s)
    case _ => true
  }

  /** One handler run. Dismissing the vote card only shows a reminder. The
      participants never change; only the last accept navigates on, with the
      candidate and the participants; only a reject blames a voter; and "no
      more options" is reported exactly when a draw finds no candidate. */
  function Handle(s: Session, e: UiEvent): (r: Step)
    requires Enabled(s, e)
    ensures r.next.participants == s.participants
    ensures r.event.Confirmed? ==>
      && e == CastVote(true)
      && s.voterIndex + 1 == |s.participants|
      && Some(r.event.restaurant) == s.selected
      && r.event.participants == s.participants
    ensures r.event.Rejected? ==> e == CastVote(false)
    ensures r.event == NoMoreOptions <==> e.ChooseForMe? && Pool(s) == []
  {
    match e
    case Focused(read) => Step(Focus(s, read), Quiet)
    case EditCriteria(c) => Step(s.(criteria := c), Quiet)
    case ApplyFilters => Step(ApplyCriteria(s), Quiet)
    case ResetFilters => Step(Reset(s), Quiet)
    case ChooseForMe(i) => Choose(s, i)
    case CastVote(accept) => Vote(s, accept)
    case DismissVote => Step(s, Quiet)
  }

  /** "No more options" is shown only when something is shown and every
      shown restaurant has been rejected in this session. */
  lemma NoMoreOptionsAfterRejections(s: Session, i: nat)
    requires Enabled(s, ChooseForMe(i))
    ensures Handle(s, ChooseForMe(i)).event == NoMoreOptions <==>
      s.filtered != [] && forall r :: r in s.filtered ==> r.id in s.rejected
  {
    if Pool(s) != [] {
      assert Pool(s)[0] in Pool(s);
    }
  }

  /** The handlers that clear the session's rejections. */
  predicate Clears(e: UiEvent) {
    e.Focused? || e.ApplyFilters? || e.ResetFilters?
  }

  /** Runs the inputs in order; an input whose control is not on screen
      (`Enabled` fails) does nothing. */
  function Run(s: Session, es: seq<UiEvent>): Session
    decreases |es|
  {
    if es == [] then s
    else if Enabled(s, es[0]) then Run(Handle(s, es[0]).next, es[1..])
    else Run(s, es[1..])
  }

  /** A rejected restaurant stays rejected, and out of every pool, through
      any run of inputs that does not clear the rejections. */
  lemma {:induction false} RejectionPersists(s: Session, es: seq<UiEvent>, id: string)
    requires id in s.rejected
    requires forall k :: 0 <= k < |es| ==> !Clears(es[k])
    ensures id in Run(s, es).rejected
    ensures forall r :: r in Pool(Run(s, es)) ==> r.id != id
    decreases |es|
  {
    if es != [] {
      var t := if Enabled(s, es[0]) then Handle(s, es[0]).next else s;
      if Enabled(s, es[0]) {
        RejectionsOnlyGrow(s, es[0]);
      }
      assert id in t.rejected;
      assert forall k :: 0 <= k < |es[1..]| ==> es[1..][k] == es[k + 1];
      RejectionPersists(t, es[1..], id);
    }
  }

  lemma IdsPrefixGrows(ps: seq<Person>, k: nat)
    requires k < |ps|
    ensures Ids(ps[..k + 1]) == Ids(ps[..k]) + [ps[k].id]
  {
  }

  /** A session can start only with at least one participant. */
  lemma StartValid(participants: seq<Person>)
    ensures Valid(Start(participants)) <==> |participants| > 0
  {
  }

  /** Applying the filter shows exactly the stored restaurants that match
      every active criterion, in stored order, and forgets the rejections;
      resetting shows what applying the default criteria would show. */
  lemma FiltersShowMatches(s: Session)
    ensures IsSubsequence(ApplyCriteria(s).filtered, s.all)
    ensures forall r :: r in ApplyCriteria(s).filtered <==> r in s.all && Matches(s.criteria, r)
    ensures ApplyCriteria(s).rejected == []
    ensures Reset(s).filtered == Apply(s.all, Reset(s).criteria)
    ensures Reset(s).rejected == []
  {
    ApplySelectsMatches(s.all, s.criteria);
    AnyCriteriaKeepsAll(s.all);
  }

  /** An accept from a voter who is not the last moves the turn on by exactly
      one and records that voter's id (not the restaurant's); the rejections
      stay as they were. */
  lemma AcceptAdvances(s: Session)
    requires Valid(s) && s.ballotOpen
    requires s.voterIndex + 1 < |s.participants|
    ensures CanVote(s)
    ensures var t := Vote(s, true).next;
      && t.ballotOpen
      && t.voterIndex == s.voterIndex + 1 < |t.participants|
      && t.accepted == s.accepted + [s.participants[s.voterIndex].id]
      && t.accepted == Ids(s.participants[..s.voterIndex + 1])
      && t.rejected == s.rejected
      && t.selected == s.selected
  {
    IdsPrefixGrows(s.participants, s.voterIndex);
  }

  /** An accept from the last voter closes the ballot and hands on the
      selected restaurant with the unchanged participants; by then every
      participant has accepted, in order. */
  lemma LastAcceptConfirms(s: Session)
    requires Valid(s) && s.ballotOpen
    requires s.voterIndex + 1 == |s.participants|
    ensures CanVote(s)
    ensures var step := Vote(s, true);
      && !step.next.ballotOpen
      && step.event == Confirmed(s.selected.value, s.participants)
      && step.next.accepted == Ids(s.participants)
      && step.next.rejected == s.rejected
  {
    IdsPrefixGrows(s.participants, s.voterIndex);
    assert s.participants[..s.voterIndex + 1] == s.participants;
  }

  /** A reject, at any voter index, closes the ballot and adds exactly the
      selected restaurant's id, which was not yet rejected, so the list keeps
      no duplicate and the restaurant cannot be drawn again. */
  lemma RejectExcludes(s: Session)
    requires Valid(s) && s.ballotOpen
    ensures CanVote(s)
    ensures var step := Vote(s, false);
      && !step.next.ballotOpen
      && step.next.rejected == s.rejected + [s.selected.value.id]
      && NoDup(step.next.rejected)
      && step.event == Rejected(s.participants[s.voterIndex], s.selected.value)
      && forall r :: r in Pool(step.next) ==> r.id != s.selected.value.id
  {
    NoDupAppend(s.rejected, s.selected.value.id);
  }

  /** Every handler keeps the session invariant. */
  lemma HandleKeepsValid(s: Session, e: UiEvent)
    requires Valid(s) && Enabled(s, e)
    ensures Valid(Handle(s, e).next)
  {
    match e
    case Focused(read) =>
      SubsequenceReflexive(LoadedList(read));
    case EditCriteria(c) =>
    case ApplyFilters =>
      ApplySelectsMatches(s.all, s.criteria);
    case ResetFilters =>
      SubsequenceReflexive(s.all);
    case ChooseForMe(i) =>
    case CastVote(accept) =>
      if !accept {
        RejectExcludes(s);
      } else if s.voterIndex + 1 < |s.participants| {
        AcceptAdvances(s);
      }
    case DismissVote =>
  }

  /** Within a session the rejection list only grows, by at most the one
      rejected restaurant per handler; only focusing, applying and resetting
      the filters clear it, and focusing also restarts the turn order. */
  lemma RejectionsOnlyGrow(s: Session, e: UiEvent)
    requires Enabled(s, e)
    ensures var t := Handle(s, e).next;
      if e.Focused? || e.ApplyFilters? || e.ResetFilters? then
        t.rejected == [] && (e.Focused? ==> t.voterIndex == 0 && t.accepted == [])
      else
        && s.rejected <= t.rejected
        && |t.rejected| <= |s.rejected| + 1
        && (e.DismissVote? ==> t == s)
  {
  }

  /** `n` accept votes. */
  function Accepts(n: nat): (votes: seq<bool>)
    ensures |votes| == n && forall i :: 0 <= i < n ==> votes[i]
  {
    if n == 0 then [] else [true] + Accepts(n - 1)
  }

  /** Runs the votes in order while the ballot stays open. */
  function Ballot(s: Session, votes: seq<bool>): Step
    decreases |votes|
  {
    if votes == [] || !CanVote(s) then Step(s, Quiet)
    else
      var step := Vote(s, votes[0]);
      if step.next.ballotOpen then Ballot(step.next, votes[1..]) else step
  }

  /** From any valid open ballot, accepts from all remaining voters confirm
      the selected restaurant with every participant's id recorded in order. */
  lemma {:induction false} UnanimousAcceptance(s: Session)
    requires Valid(s) && s.ballotOpen
    ensures var step := Ballot(s, Accepts(|s.participants| - s.voterIndex));
      && step.event == Confirmed(s.selected.value, s.participants)
      && !step.next.ballotOpen
      && step.next.accepted == Ids(s.participants)
      && step.next.rejected == s.rejected
    decreases |s.participants| - s.voterIndex
  {
    var votes := Accepts(|s.participants| - s.voterIndex);
    if s.voterIndex + 1 == |s.participants| {
      LastAcceptConfirms(s);
    } else {
      AcceptAdvances(s);
      var t := Vote(s, true).next;
      HandleKeepsValid(s, CastVote(true));
      assert votes[1..] == Accepts(|t.participants| - t.voterIndex);
      UnanimousAcceptance(t);
    }
  }

  /** `k` accepts followed by a reject, at any point of the ballot, close it
      with exactly the selected restaurant added to the rejections. */
  lemma {:induction false} SingleRejection(s: Session, k: nat)
    requires Valid(s) && s.ballotOpen
    requires s.voterIndex + k < |s.participants|
    ensures var step := Ballot(s, Accepts(k) + [false]);
      && !step.next.ballotOpen
      && step.next.rejected == s.rejected + [s.selected.value.id]
      && step.event == Rejected(s.participants[s.voterIndex + k], s.selected.value)
    decreases k
  {
    var votes := Accepts(k) + [false];
    if k == 0 {
      RejectExcludes(s);
    } else {
      AcceptAdvances(s);
      var t := Vote(s, true).next;
      HandleKeepsValid(s, CastVote(true));
      assert votes[1..] == Accepts(k - 1) + [false];
      SingleRejection(t, k - 1);
    }
  }

  /** A pick followed by accepts from every participant confirms the picked
      restaurant with all participant ids accepted in order. */
  lemma ChooseThenAllAccept(s: Session, i: nat)
    requires Valid(s) && 0 < |Pool(s)| && i < |Pool(s)|
    ensures var chosen := Choose(s, i).next;
      var step := Ballot(chosen, Accepts(|s.participants|));
      && step.event == Confirmed(chosen.selected.value, s.participants)
      && step.next.accepted == Ids(s.participants)
  {
    var chosen := Choose(s, i).next;
    HandleKeepsValid(s, ChooseForMe(i));
    UnanimousAcceptance(chosen);
  }

  /** Alice accepts and Bob rejects "Pizza Place": the turn passes to Bob,
      then the ballot closes with that restaurant's id as the only rejection. */
  lemma AliceBobScenario()
    ensures
      var alice := Person("1", "Alice");
      var bob := Person("2", "Bob");
      var pizza := Restaurant("pizza", "Pizza Place", "Italian", Price2, true, "Downtown", 4);
      var s := Session([alice, bob], [pizza], [pizza], AnyCriteria, [], Some(pizza), true, 0, []);
      var afterAlice := Vote(s, true).next;
      && afterAlice.ballotOpen && afterAlice.voterIndex == 1 && afterAlice.accepted == ["1"]
      && var afterBob := Vote(afterAlice, false);
      && !afterBob.next.ballotOpen
      && afterBob.next.rejected == ["pizza"]
      && afterBob.event == Rejected(bob, pizza)
  {
  }
}
