/**
 * The tournaments page: the create-tournament form, its validation, the record
 * a successful submission adds to the active list, and the filter bar reset.
 */
module Tournaments {
  import opened Wrappers
  import Text

  datatype Round = Round(name: string, completed: bool)

  /** A tournament card; `rounds` is empty for the upcoming ones, which show none. */
  datatype Tournament = Tournament(
    id: int,
    name: string,
    banner: string,
    format: string,
    prizePool: string,
    currentParticipants: nat,
    maxParticipants: int,
    deadline: string,
    skillLevel: string,
    status: string,
    justCreated: bool,
    rounds: seq<Round>)

  /** The fields of the create modal, all bound to text inputs or selects. */
  datatype TournamentForm = TournamentForm(
    name: string,
    description: string,
    format: string,
    startDate: string,
    endDate: string,
    registrationDeadline: string,
    prizePool: string,
    maxParticipants: string,
    skillLevel: string)

  /** The form as the page opens it and as a successful creation leaves it. */
  const DefaultForm := TournamentForm("", "", "single", "", "", "", "", "", "intermediate")

  datatype DateRange = DateRange(start: string, end: string)

  datatype TournamentsPage = TournamentsPage(
    selectedFilter: string,
    searchQuery: string,
    dateRange: DateRange,
    skillLevel: string,
    showCreateModal: bool,
    showRegisterModal: bool,
    form: TournamentForm,
    activeTournaments: seq<Tournament>,
    upcomingTournaments: seq<Tournament>)

  /** The reasons a creation is refused, each with the message the page shows. */
  datatype FormError = NameRequired | DescriptionRequired | StartDateRequired | EndDateRequired {
    function Message(): string {
      match this
      case NameRequired => "Tournament name is required"
      case DescriptionRequired => "Description is required"
      case StartDateRequired => "Start date is required"
      case EndDateRequired => "End date is required"
    }
  }

  /** The errors for one field: the error when the field is empty, nothing otherwise. */
  function Require(field: string, error: FormError): seq<FormError> {
    if field == "" then [error] else []
  }

  /** Errors listed in the order the validator makes its checks. */
  predicate InCheckOrder(errors: seq<FormError>) {
    forall i, j :: 0 <= i < j < |errors| ==> Rank(errors[i]) < Rank(errors[j])
  }

  /** A later check appended to errors of earlier checks keeps them in check order. */
  lemma AppendLaterCheck(errors: seq<FormError>, field: string, error: FormError)
    requires InCheckOrder(errors)
    requires forall k :: 0 <= k < |errors| ==> Rank(errors[k]) < Rank(error)
    ensures InCheckOrder(errors + Require(field, error))
    ensures forall k :: 0 <= k < |errors + Require(field, error)| ==>
              Rank((errors + Require(field, error))[k]) <= Rank(error)
  {
  }

  /**
   * The validation of `handleCreateTournament`: name, description, start date
   * and end date are required; the other fields never are.
   */
  function Validate(form: TournamentForm): (errors: seq<FormError>)
    ensures NameRequired in errors <==> form.name == ""
    ensures DescriptionRequired in errors <==> form.description == ""
    ensures StartDateRequired in errors <==> form.startDate == ""
    ensures EndDateRequired in errors <==> form.endDate == ""
  {
    Require(form.name, NameRequired)
    + Require(form.description, DescriptionRequired)
    + Require(form.startDate, StartDateRequired)
    + Require(form.endDate, EndDateRequired)
  }

  /** The errors come out one per failed check, at most four, in the order of the checks. */
  lemma ValidateInCheckOrder(form: TournamentForm)
    ensures |Validate(form)| <= 4
    ensures forall i, j :: 0 <= i < j < |Validate(form)| ==> Rank(Validate(form)[i]) < Rank(Validate(form)[j])
  {
    var name := Require(form.name, NameRequired);
    AppendLaterCheck(name, form.description, DescriptionRequired);
    var two := name + Require(form.description, DescriptionRequired);
    AppendLaterCheck(two, form.startDate, StartDateRequired);
    var three := two + Require(form.startDate, StartDateRequired);
    AppendLaterCheck(three, form.endDate, EndDateRequired);
  }

  /** The position of each check in the validator. */
  function Rank(e: FormError): nat {
    match e
    case NameRequired => 0
    case DescriptionRequired => 1
    case StartDateRequired => 2
    case EndDateRequired => 3
  }

  /** Registration deadline, prize pool, participant limit, format and skill level never make a form invalid. */
  lemma OptionalFieldsNeverRequired(form: TournamentForm, deadline: string, prize: string, max: string,
                                    format: string, skill: string)
    ensures Validate(form.(registrationDeadline := deadline, prizePool := prize, maxParticipants := max,
                           format := format, skillLevel := skill)) == Validate(form)
  {
  }

  /** `value || fallback` on a string: the empty string is falsy. */
  function OrDefault(value: string, fallback: string): (r: string)
    ensures value != "" ==> r == value
    ensures value == "" ==> r == fallback
  {
    if value == "" then fallback else value
  }

  /**
   * `Number.parseInt(maxParticipants) || 32`: the parsed integer, unless it is
   * `NaN` or zero, both falsy, in which case 32.
   */
  function MaxParticipants(field: string): (n: int)
    ensures n != 0
  {
    match Text.ParseInt(field)
    case Some(v) => if v != 0 then v else 32
    case None => 32
  }

  /** A typed-in nonzero number, negative ones included, is taken as the limit; an empty or zero field gives 32. */
  lemma MaxParticipantsDefaults(n: int)
    ensures MaxParticipants(Text.IntToString(n)) == if n == 0 then 32 else n
    ensures MaxParticipants("") == 32
  {
    Text.ParseIntOfIntToString(n);
  }

  const CreatedBanner := "https://public.readdy.ai/ai/img_res/31970d23a436bc8380f77cc87c0af10b.jpg"

  /** The three empty rounds a new tournament starts with. */
  const FreshRounds := [Round("Quarter Finals", false), Round("Semi Finals", false), Round("Finals", false)]

  /** The record a valid form produces; `id` is the `Date.now()` of the click. */
  function NewTournament(form: TournamentForm, id: int): (t: Tournament)
    ensures t.id == id && t.name == form.name && t.deadline == form.endDate
    ensures t.currentParticipants == 0 && t.status == "Registration Open" && t.justCreated
    ensures t.prizePool == (if form.prizePool == "" then "$5,000" else form.prizePool)
    ensures t.format == (if form.format == "" then "Single Elimination" else form.format)
    ensures t.skillLevel == (if form.skillLevel == "" then "Intermediate" else form.skillLevel)
    ensures t.maxParticipants == MaxParticipants(form.maxParticipants)
    ensures |t.rounds| == 3 && forall k :: 0 <= k < 3 ==> !t.rounds[k].completed
  {
    Tournament(
      id := id,
      name := form.name,
      banner := CreatedBanner,
      format := OrDefault(form.format, "Single Elimination"),
      prizePool := OrDefault(form.prizePool, "$5,000"),
      currentParticipants := 0,
      maxParticipants := MaxParticipants(form.maxParticipants),
      deadline := form.endDate,
      skillLevel := OrDefault(form.skillLevel, "Intermediate"),
      status := "Registration Open",
      justCreated := true,
      rounds := FreshRounds)
  }

  /**
   * `handleCreateTournament`: with any validation error the page is left as it
   * is; otherwise the new record goes in front of the active list, the form
   * returns to its defaults and the create modal closes.
   */
  function HandleCreateTournament(page: TournamentsPage, now: int): (r: TournamentsPage)
    ensures Validate(page.form) != [] ==> r == page
    ensures Validate(page.form) == [] ==>
              && |r.activeTournaments| == |page.activeTournaments| + 1
              && r.activeTournaments[0] == NewTournament(page.form, now)
              && r.activeTournaments[1..] == page.activeTournaments
              && r.form == DefaultForm
              && !r.showCreateModal
    ensures r.upcomingTournaments == page.upcomingTournaments
    ensures r.searchQuery == page.searchQuery && r.skillLevel == page.skillLevel
    ensures r.dateRange == page.dateRange && r.selectedFilter == page.selectedFilter
    ensures r.showRegisterModal == page.showRegisterModal
  {
    if Validate(page.form) != [] then page
    else
      page.(
        activeTournaments := [NewTournament(page.form, now)] + page.activeTournaments,
        form := TournamentForm("", "", "single", "", "", "", "", "", "intermediate"),
        showCreateModal := false)
  }

  /** No two tournaments in the list share an id. */
  predicate UniqueIds(s: seq<Tournament>) {
    forall i, j :: 0 <= i < j < |s| ==> s[i].id != s[j].id
  }

  /** Every tournament id on the page, active or upcoming, occurs once. */
  predicate DistinctIds(page: TournamentsPage) {
    UniqueIds(page.activeTournaments + page.upcomingTournaments)
  }

  /** Putting a tournament with an unused id in front keeps the ids unique. */
  lemma {:induction false} PrependKeepsIdsUnique(t: Tournament, s: seq<Tournament>)
    requires UniqueIds(s)
    requires forall k :: 0 <= k < |s| ==> s[k].id != t.id
    ensures UniqueIds([t] + s)
  {
    var all := [t] + s;
    forall i, j | 0 <= i < j < |all|
      ensures all[i].id != all[j].id
    {
      assert all[j] == s[j - 1];
      if i > 0 {
        assert all[i] == s[i - 1];
      }
    }
  }

  /** After a valid creation the page lists the new record followed by everything it listed before. */
  lemma CreatePrepends(page: TournamentsPage, now: int)
    requires Validate(page.form) == []
    ensures var r := HandleCreateTournament(page, now);
            r.activeTournaments + r.upcomingTournaments
            == [NewTournament(page.form, now)] + page.activeTournaments + page.upcomingTournaments
  {
  }

  /** A creation whose clock reading is not yet an id keeps the ids distinct. */
  lemma {:induction false} CreateKeepsIdsDistinct(page: TournamentsPage, now: int)
    requires DistinctIds(page)
    requires forall t :: t in page.activeTournaments + page.upcomingTournaments ==> t.id != now
    ensures DistinctIds(HandleCreateTournament(page, now))
  {
    if Validate(page.form) == [] {
      var before := page.activeTournaments + page.upcomingTournaments;
      var t := NewTournament(page.form, now);
      assert forall k :: 0 <= k < |before| ==> before[k].id != t.id;
      PrependKeepsIdsUnique(t, before);
      assert [t] + before == [t] + page.activeTournaments + page.upcomingTournaments;
      CreatePrepends(page, now);
    }
  }

  /** `resetFilters`: search, skill level and date range go back to their initial values. */
  function ResetFilters(page: TournamentsPage): (r: TournamentsPage)
    ensures r.searchQuery == "" && r.skillLevel == "all" && r.dateRange == DateRange("", "")
    ensures r.selectedFilter == page.selectedFilter
    ensures r.activeTournaments == page.activeTournaments && r.upcomingTournaments == page.upcomingTournaments
    ensures r.form == page.form && r.showCreateModal == page.showCreateModal
    ensures r.showRegisterModal == page.showRegisterModal
  {
    page.(searchQuery := "", skillLevel := "all", dateRange := DateRange("", ""))
  }

  /** Resetting twice is resetting once. */
  lemma ResetFiltersIdempotent(page: TournamentsPage)
    ensures ResetFilters(ResetFilters(page)) == ResetFilters(page)
  {
  }
}
