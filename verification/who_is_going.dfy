/** Picking who is going: toggling people in and out of the selection, and
    moving on to the restaurant choice with the selected people, in the order
    they were loaded. */
module WhoIsGoing {
  import opened Seqs
  import opened Records
  import opened Choice

  /** The loaded people and the ids selected so far, in selection order. */
  datatype Picker = Picker(people: seq<Person>, selected: seq<string>)

  function OtherId(id: string): string -> bool {
    (x: string) => x != id
  }

  /** Tapping a person: a selected id is deselected everywhere it occurs, any
      other id is appended to the selection. The result differs from the
      selection by exactly the tapped id. */
  function Toggle(selected: seq<string>, id: string): (r: seq<string>)
    ensures id !in selected ==> r == selected + [id]
    ensures id in selected ==> IsSubsequence(r, selected) && |r| < |selected|
    ensures forall x :: x in r <==> (x in selected <==> x != id)
  {
    if id in selected then
      var k :| 0 <= k < |selected| && selected[k] == id;
      FilterDropsSome(selected, OtherId(id), k);
      Filter(selected, OtherId(id))
    else selected + [id]
  }

  /** A selection built by tapping never lists an id twice. */
  lemma ToggleKeepsNoDup(selected: seq<string>, id: string)
    requires NoDup(selected)
    ensures NoDup(Toggle(selected, id))
  {
    if id in selected {
      NoDupFilter(selected, OtherId(id));
    } else {
      NoDupAppend(selected, id);
    }
  }

  /** Tapping the same person twice restores an unselected person's selection
      exactly; a selected person ends up selected again, moved to the end. */
  lemma ToggleTwice(selected: seq<string>, id: string)
    ensures id !in selected ==> Toggle(Toggle(selected, id), id) == selected
    ensures id in selected ==> Toggle(Toggle(selected, id), id) == Filter(selected, OtherId(id)) + [id]
    ensures forall x :: x in Toggle(Toggle(selected, id), id) <==> x in selected
  {
    if id !in selected {
      FilterAppend(selected, id, OtherId(id));
      FilterKeepsAllOf(selected, OtherId(id));
    }
  }

  function LoadedPeople(read: Read<seq<Person>>): seq<Person> {
    match read
    case Stored(ps) => ps
    case _ => []
  }

  /** Regaining focus reloads the people (nothing stored or a failed read
      leaves none) and keeps the selection as it was, including ids of people
      that are no longer stored. */
  function Focus(p: Picker, read: Read<seq<Person>>): (r: Picker)
    ensures r.selected == p.selected
    ensures read.Stored? ==> r.people == read.value
    ensures !read.Stored? ==> r.people == []
  {
    Picker(LoadedPeople(read), p.selected)
  }

  function SelectedIn(ids: seq<string>): Person -> bool {
    (x: Person) => x.id in ids
  }

  /** The loaded people whose id is selected, in loaded order. */
  function Participants(p: Picker): (r: seq<Person>)
    ensures IsSubsequence(r, p.people)
    ensures forall x :: x in r <==> x in p.people && x.id in p.selected
  {
    Filter(p.people, SelectedIn(p.selected))
  }

  /** The Next button is enabled only while some id is selected and some
      person is loaded. */
  predicate NextEnabled(p: Picker) {
    p.selected != [] && p.people != []
  }

  /** What pressing Next does: nothing while the button is disabled, an
      alert, or navigation to the restaurant choice with the participants. */
  datatype Outcome = Disabled | NothingSelected | Navigate(participants: seq<Person>)

  /** Next as the screen has it: the button's enabling condition, then the
      handler, whose guard looks at the selected ids, not at the people they
      resolve to. Behind the enabled button that guard never fires, so the
      handler's alert is never shown. */
  function NextAsWritten(p: Picker): (r: Outcome)
    ensures r == Disabled <==> !NextEnabled(p)
    ensures r != NothingSelected
    ensures r.Navigate? ==> r.participants == Participants(p)
  {
    if !NextEnabled(p) then Disabled
    else if p.selected == [] then NothingSelected
    else Navigate(Participants(p))
  }

  /** Next with the handler's guard on the resolved participants: it
      navigates exactly when someone selected is still loaded, and then the
      choice screen starts from a valid session. */
  function Next(p: Picker): (r: Outcome)
    ensures r == Disabled <==> !NextEnabled(p)
    ensures r == NothingSelected <==> NextEnabled(p) && Participants(p) == []
    ensures r.Navigate? <==> Participants(p) != []
    ensures r.Navigate? ==> r.participants == Participants(p) && Valid(Start(r.participants))
  {
    var ps := Participants(p);
    StartValid(ps);
    assert ps != [] ==> ps[0] in p.people && ps[0].id in p.selected;
    if !NextEnabled(p) then Disabled
    else if ps == [] then NothingSelected
    else Navigate(ps)
  }

  /** The two versions disagree exactly when the button is enabled but no
      selected id belongs to a loaded person. */
  lemma GuardsDisagreeOnStaleSelection(p: Picker)
    ensures NextAsWritten(p) != Next(p) <==> NextEnabled(p) && Participants(p) == []
  {
  }

  /** When every selected id belongs to a loaded person, the screen's guard is
      right: both versions of Next agree. */
  lemma LoadedSelectionAgrees(p: Picker)
    requires forall i :: 0 <= i < |p.selected| ==> exists x :: x in p.people && x.id == p.selected[i]
    ensures NextAsWritten(p) == Next(p)
  {
    if p.selected != [] {
      var x :| x in p.people && x.id == p.selected[0];
      assert x in Participants(p);
    }
  }

  /** After the corrected Next, the choice screen's first focus leaves a valid
      session, whatever the restaurant store holds. */
  lemma NextStartsValidSession(p: Picker, read: Read<seq<Restaurant>>)
    requires Next(p).Navigate?
    ensures Valid(Choice.Focus(Start(Next(p).participants), read))
  {
    var s := Start(Next(p).participants);
    HandleKeepsValid(s, Focused(read));
  }

  /** The selected people travel in loaded order, not in selection order. */
  lemma LoadedOrderExample()
    ensures var alice := Person("a", "Alice");
      var bob := Person("b", "Bob");
      Next(Picker([alice, bob], ["b", "a"])) == Navigate([alice, bob])
  {
    var alice := Person("a", "Alice");
    var bob := Person("b", "Bob");
    var ps := [alice, bob];
    assert ps[1..] == [bob] && [bob][1..] == [];
    assert Participants(Picker(ps, ["b", "a"])) == [alice] + [bob] + [];
  }

  /** Alice is selected, then deleted on the people screen; back on this
      screen the people reload but the selection keeps her id. The screen's
      Next then navigates with no participants, and the choice screen, once
      a restaurant is drawn, opens a vote card whose voter does not exist.
      The corrected Next shows the alert instead. */
  lemma StaleSelectionScenario()
    ensures var alice := Person("a", "Alice");
      var bob := Person("b", "Bob");
      var p := Focus(Picker([alice, bob], Toggle([], "a")), Stored([bob]));
      && p == Picker([bob], ["a"])
      && NextAsWritten(p) == Navigate([])
      && Next(p) == NothingSelected
  {
    var bob := Person("b", "Bob");
    assert [bob][1..] == [];
    assert Participants(Picker([bob], ["a"])) == [];
  }

  /** With no participants, a drawn restaurant opens a ballot whose voter
      index is already past the end of the participant list, and no session
      with no participants is valid. */
  lemma EmptyParticipantsBreakBallot(r: Restaurant)
    ensures !Valid(Start([]))
    ensures var s := Choice.Focus(Start([]), Stored([r]));
      var step := Choose(s, 0);
      step.next.ballotOpen && step.next.voterIndex >= |step.next.participants|
  {
    var s := Choice.Focus(Start([]), Stored([r]));
    assert Pool(s) == [r] by {
      assert s.filtered == [r] && [r][1..] == [];
    }
  }
}
