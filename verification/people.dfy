/** The people list: adding a person after validating the name, and deleting
    by id. The name pattern `^[A-Z][a-zA-Z\s]*$` is run as a three-state
    matcher and proved equal to its plain reading. */
module People {
  import opened Text
  import opened Seqs
  import opened Records

  /** States of the matcher for `^[A-Z][a-zA-Z\s]*$`. */
  datatype NameState = Begin | Rest | Fail

  function NameStep(q: NameState, ch: char): NameState {
    match q
    case Begin => if IsUpper(ch) then Rest else Fail
    case Rest => if IsLetter(ch) || IsSpace(ch) then Rest else Fail
    case Fail => Fail
  }

  function RunName(q: NameState, s: string): NameState
    decreases |s|
  {
    if s == [] then q else RunName(NameStep(q, s[0]), s[1..])
  }

  /** The regex test: the matcher ends in its accepting state. */
  predicate NamePatternMatches(s: string) {
    RunName(Begin, s) == Rest
  }

  /** What the pattern means: an upper-case ASCII letter, then only ASCII
      letters and whitespace. */
  predicate WellFormedName(s: string) {
    && |s| > 0
    && IsUpper(s[0])
    && forall i :: 1 <= i < |s| ==> IsLetter(s[i]) || IsSpace(s[i])
  }

  lemma {:induction false} FailIsFinal(s: string)
    ensures RunName(Fail, s) == Fail
    decreases |s|
  {
    if s != [] {
      FailIsFinal(s[1..]);
    }
  }

  lemma {:induction false} RestAccepts(s: string)
    ensures RunName(Rest, s) == Rest <==> forall i :: 0 <= i < |s| ==> IsLetter(s[i]) || IsSpace(s[i])
    decreases |s|
  {
    if s != [] {
      RestAccepts(s[1..]);
      if !(IsLetter(s[0]) || IsSpace(s[0])) {
        FailIsFinal(s[1..]);
      } else {
        assert forall i :: 1 <= i < |s| ==> s[i] == s[1..][i - 1];
      }
    }
  }

  /** The matcher accepts exactly the well-formed names. */
  lemma NamePatternIsWellFormed(s: string)
    ensures NamePatternMatches(s) <==> WellFormedName(s)
  {
    if s != [] {
      if IsUpper(s[0]) {
        RestAccepts(s[1..]);
        assert forall i :: 1 <= i < |s| ==> s[i] == s[1..][i - 1];
      } else {
        FailIsFinal(s[1..]);
      }
    }
  }

  datatype NameError = EmptyName | BadNameFormat

  datatype NameVerdict = Accept(name: string) | Refuse(error: NameError)

  /** The two checks of the save handler, on the trimmed name, in order. An
      accepted name is the trimmed input; it starts with a capital letter and
      holds no digit. */
  function ValidateName(raw: string): (v: NameVerdict)
    ensures v == Refuse(EmptyName) <==> AllSpaces(raw)
    ensures v == Refuse(BadNameFormat) <==> !AllSpaces(raw) && !WellFormedName(Trim(raw))
    ensures v.Accept? <==> WellFormedName(Trim(raw))
    ensures v.Accept? ==> v.name == Trim(raw) && IsUpper(v.name[0])
    ensures v.Accept? ==> forall i :: 0 <= i < |v.name| ==> !IsDigit(v.name[i])
  {
    var t := Trim(raw);
    NamePatternIsWellFormed(t);
    if t == [] then
      assert !WellFormedName(t);
      Refuse(EmptyName)
    else if !NamePatternMatches(t) then
      Refuse(BadNameFormat)
    else
      WellFormedHasNoDigit(t);
      Accept(t)
  }

  lemma WellFormedHasNoDigit(s: string)
    requires WellFormedName(s)
    ensures forall i :: 0 <= i < |s| ==> !IsDigit(s[i])
  {
  }

  /** The screen's list and the text in its name field. */
  datatype PeopleScreen = PeopleScreen(people: seq<Person>, draft: string)

  datatype Report = Done | NotSaved(error: NameError) | WriteFailed | Cancelled

  /** A handler's effect: the screen afterwards, the list written to the
      store (`None` when the store is left as it was), and the report. */
  datatype PeopleChange = PeopleChange(screen: PeopleScreen, written: Option<seq<Person>>, report: Report)

  /** Every stored person's name passed validation. */
  predicate AllWellFormed(people: seq<Person>) {
    forall i :: 0 <= i < |people| ==> WellFormedName(people[i].name)
  }

  /** Saves the drafted person with a timestamp id, if the name passes and the
      store accepts the new list; only then is the in-memory list replaced. */
  function SavePerson(screen: PeopleScreen, now: nat, writeOk: bool): (r: PeopleChange)
    ensures r.report.NotSaved? <==> !WellFormedName(Trim(screen.draft))
    ensures r.report == Done <==> WellFormedName(Trim(screen.draft)) && writeOk
    ensures r.report != Done ==> r.screen == screen && r.written == None
    ensures r.report == Done ==>
      && |r.screen.people| == |screen.people| + 1
      && r.screen.people[..|screen.people|] == screen.people
      && r.screen.people[|screen.people|] == Person(Decimal(now), Trim(screen.draft))
      && r.written == Some(r.screen.people)
      && r.screen.draft == ""
  {
    match ValidateName(screen.draft)
    case Refuse(e) => PeopleChange(screen, None, NotSaved(e))
    case Accept(name) =>
      var updated := screen.people + [Person(Decimal(now), name)];
      if writeOk then PeopleChange(PeopleScreen(updated, ""), Some(updated), Done)
      else PeopleChange(screen, None, WriteFailed)
  }

  function OtherId(id: string): Person -> bool {
    (p: Person) => p.id != id
  }

  /** Deletes every person with the id once the user confirms and the store
      accepts the shorter list. */
  function DeletePerson(screen: PeopleScreen, id: string, confirmed: bool, writeOk: bool): (r: PeopleChange)
    ensures r.report == Done <==> confirmed && writeOk
    ensures r.report != Done ==> r.screen == screen && r.written == None
    ensures r.report == Done ==>
      && r.screen.draft == screen.draft
      && r.written == Some(r.screen.people)
      && IsSubsequence(r.screen.people, screen.people)
      && (forall p :: p in r.screen.people <==> p in screen.people && p.id != id)
  {
    if !confirmed then PeopleChange(screen, None, Cancelled)
    else
      var updated := Filter(screen.people, OtherId(id));
      if writeOk then PeopleChange(screen.(people := updated), Some(updated), Done)
      else PeopleChange(screen, None, WriteFailed)
  }

  /** A delete keeps every other person exactly as often as before. */
  lemma DeleteKeepsOthers(screen: PeopleScreen, id: string, p: Person)
    requires p.id != id
    ensures var r := DeletePerson(screen, id, true, true);
      multiset(r.screen.people)[p] == multiset(screen.people)[p]
  {
    FilterCounts(screen.people, OtherId(id), p);
  }

  /** Saving and deleting keep every listed name well formed: every person
      added here has a non-empty name starting with a capital letter. */
  lemma EditsKeepNamesWellFormed(screen: PeopleScreen, now: nat, id: string, confirmed: bool, writeOk: bool)
    requires AllWellFormed(screen.people)
    ensures AllWellFormed(SavePerson(screen, now, writeOk).screen.people)
    ensures AllWellFormed(DeletePerson(screen, id, confirmed, writeOk).screen.people)
  {
    SaveKeepsNamesWellFormed(screen, now, writeOk);
    DeleteKeepsNamesWellFormed(screen, id, confirmed, writeOk);
  }

  lemma SaveKeepsNamesWellFormed(screen: PeopleScreen, now: nat, writeOk: bool)
    requires AllWellFormed(screen.people)
    ensures AllWellFormed(SavePerson(screen, now, writeOk).screen.people)
  {
    var r := SavePerson(screen, now, writeOk);
    if r.report == Done {
      var n := |screen.people|;
      forall i | 0 <= i < |r.screen.people|
        ensures WellFormedName(r.screen.people[i].name)
      {
        if i < n {
          assert r.screen.people[i] == r.screen.people[..n][i] == screen.people[i];
        }
      }
    }
  }

  lemma DeleteKeepsNamesWellFormed(screen: PeopleScreen, id: string, confirmed: bool, writeOk: bool)
    requires AllWellFormed(screen.people)
    ensures AllWellFormed(DeletePerson(screen, id, confirmed, writeOk).screen.people)
  {
    var r := DeletePerson(screen, id, confirmed, writeOk);
    forall i | 0 <= i < |r.screen.people|
      ensures WellFormedName(r.screen.people[i].name)
    {
      var x := r.screen.people[i];
      assert x in screen.people;
      var j :| 0 <= j < |screen.people| && screen.people[j] == x;
    }
  }

  /** A name holding a digit anywhere after trimming is refused as malformed. */
  lemma DigitNameRefused(raw: string, i: nat)
    requires i < |Trim(raw)| && IsDigit(Trim(raw)[i])
    ensures ValidateName(raw) == Refuse(BadNameFormat)
  {
    assert !AllSpaces(raw);
  }

  /** A name starting with a lower-case letter after trimming is refused as
      malformed. */
  lemma LowerCaseStartRefused(raw: string)
    requires Trim(raw) != [] && IsLower(Trim(raw)[0])
    ensures ValidateName(raw) == Refuse(BadNameFormat)
  {
    assert !AllSpaces(raw);
  }

  /** A well-formed name typed with a space on each side is accepted as the
      name without them. */
  lemma PaddedNameAccepted(name: string)
    requires WellFormedName(name) && !IsSpace(name[|name| - 1])
    ensures ValidateName([' '] + name + [' ']) == Accept(name)
  {
    TrimPadded(name);
  }

  /** "Bob2" is refused for its digit. */
  lemma DigitNameExample(name: string)
    requires name == "Bob2"
    ensures ValidateName(name) == Refuse(BadNameFormat)
  {
    assert name == ['B', 'o', 'b', '2'];
    TrimUntouched(name);
    DigitNameRefused(name, 3);
  }

  /** "bob" is refused for its lower-case start. */
  lemma LowerCaseNameExample(name: string)
    requires name == "bob"
    ensures ValidateName(name) == Refuse(BadNameFormat)
  {
    assert name == ['b', 'o', 'b'];
    TrimUntouched(name);
    LowerCaseStartRefused(name);
  }

  lemma MaryAnnWellFormed(name: string)
    requires name == "Mary Ann"
    ensures WellFormedName(name)
  {
    assert name == ['M', 'a', 'r', 'y', ' ', 'A', 'n', 'n'];
    forall i | 1 <= i < |name|
      ensures IsLetter(name[i]) || IsSpace(name[i])
    {
      assert i in {1, 2, 3, 4, 5, 6, 7};
    }
  }

  /** "Mary Ann" typed with a space on each side is accepted as "Mary Ann". */
  lemma AcceptedNameExample(name: string)
    requires name == "Mary Ann"
    ensures ValidateName([' '] + name + [' ']) == Accept("Mary Ann")
  {
    MaryAnnWellFormed(name);
    PaddedNameAccepted(name);
  }
}
