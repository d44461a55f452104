/** The restaurants list: the ordered chain of field checks before a save,
    appending on success, deleting by id, and giving ids to stored records
    that lack one when the list is loaded. */
module Restaurants {
  import opened Text
  import opened Seqs
  import opened Records

  /** The add form. Price and rating come from pickers. */
  datatype Form = Form(name: string, style: string, price: Price, delivery: bool, area: string, rating: Rating)

  /** The form as it is first shown and after a save: '$$', no delivery, 3 stars. */
  const BlankForm := Form("", "", Price2, false, "", 3)

  /** The save handler's checks, in the order it runs them. */
  datatype FieldError = EmptyName | EmptyStyle | StyleHasDigit | EmptyArea | AreaAllDigits | AreaTooShort

  /** The shortest area accepted. */
  const MinAreaLength := 5

  predicate HasDigit(s: string) {
    exists i | 0 <= i < |s| :: IsDigit(s[i])
  }

  /** The checks on the trimmed fields, in the order the save handler runs
      them; the first that fails is reported. */
  function Checks(name: string, style: string, area: string): Option<FieldError> {
    if name == [] then Some(EmptyName)
    else if style == [] then Some(EmptyStyle)
    else if HasDigit(style) then Some(StyleHasDigit)
    else if area == [] then Some(EmptyArea)
    else if AllDigits(area) then Some(AreaAllDigits)
    else if |area| < MinAreaLength then Some(AreaTooShort)
    else None
  }

  /** What an acceptable form is, judged field by field: a non-blank name, a
      non-blank style without digits, and an area of at least five characters
      after trimming that is not all digits. */
  predicate Acceptable(f: Form) {
    && Trim(f.name) != []
    && Trim(f.style) != [] && !HasDigit(Trim(f.style))
    && Trim(f.area) != [] && !AllDigits(Trim(f.area)) && |Trim(f.area)| >= MinAreaLength
  }

  /** The first check the form fails, if any: the chain passes exactly the
      acceptable forms, and each error names a check that failed while every
      earlier check passed. */
  function FirstFailure(f: Form): (r: Option<FieldError>)
    ensures r == None <==> Acceptable(f)
    ensures r == Some(EmptyName) <==> AllSpaces(f.name)
    ensures r == Some(EmptyStyle) <==> !AllSpaces(f.name) && AllSpaces(f.style)
    ensures r == Some(StyleHasDigit) <==> Trim(f.name) != [] && Trim(f.style) != [] && HasDigit(Trim(f.style))
    ensures r == Some(EmptyArea) <==>
      Trim(f.name) != [] && Trim(f.style) != [] && !HasDigit(Trim(f.style)) && AllSpaces(f.area)
    ensures r == Some(AreaAllDigits) <==>
      Trim(f.name) != [] && Trim(f.style) != [] && !HasDigit(Trim(f.style))
      && Trim(f.area) != [] && AllDigits(Trim(f.area))
    ensures r == Some(AreaTooShort) <==>
      Trim(f.name) != [] && Trim(f.style) != [] && !HasDigit(Trim(f.style))
      && Trim(f.area) != [] && !AllDigits(Trim(f.area)) && |Trim(f.area)| < MinAreaLength
  {
    Checks(Trim(f.name), Trim(f.style), Trim(f.area))
  }

  /** The screen's list and its add form. */
  datatype RestaurantsScreen = RestaurantsScreen(restaurants: seq<Restaurant>, form: Form)

  datatype Report = Done | NotSaved(error: FieldError) | NotFound | WriteFailed | Cancelled

  /** A handler's effect: the screen afterwards, the list written to the
      store (`None` when the store is left as it was), and the report. */
  datatype RestaurantsChange = RestaurantsChange(screen: RestaurantsScreen, written: Option<seq<Restaurant>>, report: Report)

  /** The record a valid form saves, with a timestamp id. */
  function Record(f: Form, now: nat): Restaurant {
    Restaurant(Decimal(now), Trim(f.name), Trim(f.style), f.price, f.delivery, Trim(f.area), f.rating)
  }

  /** Saves the form if every check passes and the store accepts the longer
      list; only then is the list replaced and the form cleared. */
  function SaveRestaurant(screen: RestaurantsScreen, now: nat, writeOk: bool): (r: RestaurantsChange)
    ensures r.report == Done <==> Acceptable(screen.form) && writeOk
    ensures r.report.NotSaved? <==> !Acceptable(screen.form)
    ensures r.report != Done ==> r.screen == screen && r.written == None
    ensures r.report == Done ==>
      && |r.screen.restaurants| == |screen.restaurants| + 1
      && r.screen.restaurants[..|screen.restaurants|] == screen.restaurants
      && r.written == Some(r.screen.restaurants)
      && r.screen.form == BlankForm
      && var added := r.screen.restaurants[|screen.restaurants|];
        && added.id != ""
        && added.name == Trim(screen.form.name) && added.style == Trim(screen.form.style)
        && added.area == Trim(screen.form.area) && added.price == screen.form.price
        && added.delivery == screen.form.delivery && added.rating == screen.form.rating
  {
    match FirstFailure(screen.form)
    case Some(e) => RestaurantsChange(screen, None, NotSaved(e))
    case None =>
      var updated := screen.restaurants + [Record(screen.form, now)];
      if writeOk then RestaurantsChange(RestaurantsScreen(updated, BlankForm), Some(updated), Done)
      else RestaurantsChange(screen, None, WriteFailed)
  }

  function OtherId(id: string): Restaurant -> bool {
    (r: Restaurant) => r.id != id
  }

  predicate Listed(rs: seq<Restaurant>, id: string) {
    exists i | 0 <= i < |rs| :: rs[i].id == id
  }

  /** Deletes every restaurant with the id: an unknown id is reported and
      nothing else happens; otherwise, once the user confirms and the store
      accepts the shorter list, the list is replaced. The web and the native
      confirmation compute the same list. */
  function DeleteRestaurant(screen: RestaurantsScreen, id: string, confirmed: bool, writeOk: bool): (r: RestaurantsChange)
    ensures !Listed(screen.restaurants, id) ==> r == RestaurantsChange(screen, None, NotFound)
    ensures r.report == Done <==> Listed(screen.restaurants, id) && confirmed && writeOk
    ensures r.report != Done ==> r.screen == screen && r.written == None
    ensures r.report == Done ==>
      && r.screen.form == screen.form
      && r.written == Some(r.screen.restaurants)
      && |r.screen.restaurants| < |screen.restaurants|
      && IsSubsequence(r.screen.restaurants, screen.restaurants)
      && (forall x :: x in r.screen.restaurants <==> x in screen.restaurants && x.id != id)
  {
    if !Listed(screen.restaurants, id) then RestaurantsChange(screen, None, NotFound)
    else if !confirmed then RestaurantsChange(screen, None, Cancelled)
    else
      var updated := Filter(screen.restaurants, OtherId(id));
      var k :| 0 <= k < |screen.restaurants| && screen.restaurants[k].id == id;
      FilterDropsSome(screen.restaurants, OtherId(id), k);
      if writeOk then RestaurantsChange(screen.(restaurants := updated), Some(updated), Done)
      else RestaurantsChange(screen, None, WriteFailed)
  }

  /** A delete keeps every other restaurant exactly as often as before. */
  lemma DeleteKeepsOthers(screen: RestaurantsScreen, id: string, x: Restaurant)
    requires x.id != id && Listed(screen.restaurants, id)
    ensures var r := DeleteRestaurant(screen, id, true, true);
      multiset(r.screen.restaurants)[x] == multiset(screen.restaurants)[x]
  {
    FilterCounts(screen.restaurants, OtherId(id), x);
  }

  /** The id given on load to the record at `index` that has none:
      timestamp, index and random suffix, joined by dashes. */
  function Stamp(now: nat, index: nat, salt: string): string {
    Decimal(now) + "-" + Decimal(index) + "-" + salt
  }

  /** Gives every record without an id a stamped one and leaves the others
      as they are. The callback reads the clock once per record, so `clock(i)`
      is the reading taken for the record at `i`, and `salt(i)` stands for the
      random suffix drawn for it. */
  function Backfill(stored: seq<Restaurant>, clock: nat -> nat, salt: nat -> string): (r: seq<Restaurant>)
    ensures |r| == |stored|
    ensures forall i :: 0 <= i < |stored| && stored[i].id != "" ==> r[i] == stored[i]
    ensures forall i :: 0 <= i < |stored| ==> r[i].id != "" && r[i] == stored[i].(id := r[i].id)
  {
    var r := seq(|stored|, i requires 0 <= i < |stored| =>
      if stored[i].id == "" then stored[i].(id := Stamp(clock(i), i, salt(i))) else stored[i]);
    assert forall i :: 0 <= i < |stored| ==> |Stamp(clock(i), i, salt(i))| > 0;
    r
  }

  /** Loading replaces the list with the stored one, ids filled in; with
      nothing stored, or a failed read, the list stays as it was. */
  function LoadRestaurants(screen: RestaurantsScreen, read: Read<seq<Restaurant>>, clock: nat -> nat, salt: nat -> string): (r: RestaurantsScreen)
    ensures r.form == screen.form
    ensures !read.Stored? ==> r == screen
    ensures read.Stored? ==>
      && |r.restaurants| == |read.value|
      && forall i :: 0 <= i < |read.value| ==>
           r.restaurants[i].id != "" && r.restaurants[i] == read.value[i].(id := r.restaurants[i].id)
           && (read.value[i].id != "" ==> r.restaurants[i] == read.value[i])
  {
    match read
    case Stored(rs) => screen.(restaurants := Backfill(rs, clock, salt))
    case _ => screen
  }

  /** In a digit run followed by a dash, the dash is the first non-digit. */
  lemma DashAfterDigits(a: string, x: string)
    requires AllDigits(a)
    ensures var u := a + "-" + x;
      (forall k :: 0 <= k < |a| ==> IsDigit(u[k])) && u[|a|] == '-' && !IsDigit(u[|a|])
  {
  }

  /** Two digit runs followed by a dash and anything are equal only if the
      digit runs are. */
  lemma DigitsBeforeDash(a: string, b: string, x: string, y: string)
    requires AllDigits(a) && AllDigits(b)
    requires a + "-" + x == b + "-" + y
    ensures a == b
  {
    var u := a + "-" + x;
    DashAfterDigits(a, x);
    DashAfterDigits(b, y);
    assert |a| == |b|;
    assert a == u[..|a|] == b;
  }

  /** Records stamped at different positions get different ids, whatever
      clock readings and suffixes they were given. */
  lemma StampsDiffer(m: nat, n: nat, i: nat, j: nat, x: string, y: string)
    requires i != j
    ensures Stamp(m, i, x) != Stamp(n, j, y)
  {
    if Stamp(m, i, x) == Stamp(n, j, y) {
      var u := Decimal(i) + "-" + x;
      var v := Decimal(j) + "-" + y;
      assert Stamp(m, i, x) == Decimal(m) + "-" + u;
      assert Stamp(n, j, y) == Decimal(n) + "-" + v;
      DigitsBeforeDash(Decimal(m), Decimal(n), u, v);
      DecimalInjective(m, n);
      var p := Decimal(m) + "-";
      assert u == Stamp(m, i, x)[|p|..];
      assert v == Stamp(n, j, y)[|p|..];
      DigitsBeforeDash(Decimal(i), Decimal(j), x, y);
      DecimalInjective(i, j);
    }
  }

  /** Two records that had no id get different ids in the same load, even
      when the clock moves between them. */
  lemma BackfilledIdsDiffer(stored: seq<Restaurant>, clock: nat -> nat, salt: nat -> string, i: nat, j: nat)
    requires i < j < |stored| && stored[i].id == "" && stored[j].id == ""
    ensures var r := Backfill(stored, clock, salt); r[i].id != r[j].id
  {
    StampsDiffer(clock(i), clock(j), i, j, salt(i), salt(j));
  }

  /** No whitespace at either end of a non-empty field. */
  predicate Untrimmed(s: string) {
    s != [] && !IsSpace(s[0]) && !IsSpace(s[|s| - 1])
  }

  /** A form whose fields need no trimming is judged on its fields as typed. */
  lemma FirstFailureOfUntrimmed(f: Form)
    requires Untrimmed(f.name) && Untrimmed(f.style) && Untrimmed(f.area)
    ensures FirstFailure(f) == Checks(f.name, f.style, f.area)
  {
    TrimUntouched(f.name);
    TrimUntouched(f.style);
    TrimUntouched(f.area);
  }

  lemma ItalianHasNoDigit()
    ensures !HasDigit("Italian")
  {
    var s := "Italian";
    assert s == ['I', 't', 'a', 'l', 'i', 'a', 'n'];
  }

  /** The chain on the already-trimmed fields of the two examples below. */
  lemma LuigiChecks()
    ensures Checks("Luigi", "Italian", "1234") == Some(AreaAllDigits)
    ensures Checks("Luigi", "Italian", "12b") == Some(AreaTooShort)
  {
    ItalianHasNoDigit();
    var area := "1234";
    assert area == ['1', '2', '3', '4'];
    assert !IsDigit("12b"[2]);
  }

  /** "1234" is refused as all digits even though it is also too short. */
  lemma DigitAreaRefused()
    ensures FirstFailure(Form("Luigi", "Italian", Price2, false, "1234", 3)) == Some(AreaAllDigits)
  {
    FirstFailureOfUntrimmed(Form("Luigi", "Italian", Price2, false, "1234", 3));
    LuigiChecks();
  }

  /** The length check only sees areas with a non-digit, such as "12b". */
  lemma ShortAreaRefused()
    ensures FirstFailure(Form("Luigi", "Italian", Price2, false, "12b", 3)) == Some(AreaTooShort)
  {
    FirstFailureOfUntrimmed(Form("Luigi", "Italian", Price2, false, "12b", 3));
    LuigiChecks();
  }
}
