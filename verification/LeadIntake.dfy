// A flight request from the website becomes a lead (createWebsiteFlightLead in
// src/server/lead-intake.ts). Any number of requests run at once, are repeated, fail or die;
// each access to the store is one step. The submission key fixes the lead's primary key, and
// the primary key decides which of several requests for one submission creates the lead.
module LeadIntake {
  import opened Text
  import opened ContactResolution

  // ---- the row that is stored ------------------------------------------------------------

  datatype TripType = OneWay | RoundTrip | MultiCity

  datatype Leg = Leg(departure: string, arrival: string, date: Option<string>)

  datatype Inquiry = Inquiry(
    person: Person,
    submissionId: Option<string>,
    departure: Option<string>,
    arrival: Option<string>,
    departureDate: Option<string>,
    returnDate: Option<string>,
    legs: seq<Leg>,
    tripType: TripType)

  datatype Segment = Segment(sequence: nat, departure: Option<nat>, arrival: Option<nat>, date: Option<string>)

  datatype LeadRow = LeadRow(
    departure: Option<nat>,
    arrival: Option<nat>,
    departureDate: Option<string>,
    returnDate: Option<string>,
    tripType: TripType,
    segments: seq<Segment>)

  /** Airport ids by code, which is upper-cased first; a code may be unknown. */
  type Airports = string -> Option<nat>

  predicate IsMultiCity(q: Inquiry) {
    |q.legs| > 1 || (q.tripType == MultiCity && |q.legs| > 0)
  }

  method MapLegs(airports: Airports, legs: seq<Leg>) returns (segments: seq<Segment>)
    ensures segments == Segments(airports, legs)
  {
    segments := [];
    for i := 0 to |legs|
      invariant segments == Segments(airports, legs[..i])
    {
      assert legs[..i + 1] == legs[..i] + [legs[i]];
      segments := segments + [Segment(i + 1, airports(legs[i].departure), airports(legs[i].arrival), legs[i].date)];
    }
    assert legs[..|legs|] == legs;
  }

  function Segments(airports: Airports, legs: seq<Leg>): seq<Segment> {
    if legs == [] then []
    else
      var last := legs[|legs| - 1];
      Segments(airports, legs[..|legs| - 1])
      + [Segment(|legs|, airports(last.departure), airports(last.arrival), last.date)]
  }

  function Lookup(airports: Airports, code: Option<string>): Option<nat> {
    if code.Some? && code.value != "" then airports(code.value) else None
  }

  function RowOf(airports: Airports, q: Inquiry): LeadRow {
    if IsMultiCity(q) then
      LeadRow(airports(q.legs[0].departure), airports(q.legs[0].arrival), q.legs[0].date, None, MultiCity,
              Segments(airports, q.legs))
    else
      LeadRow(Lookup(airports, q.departure), Lookup(airports, q.arrival), q.departureDate, q.returnDate, q.tripType, [])
  }

  /** Every leg is stored, in order and numbered from 1, and the lead-level route is that of leg 1. */
  lemma {:induction false} LegsAreKept(airports: Airports, legs: seq<Leg>, i: nat)
    requires i < |legs|
    ensures |Segments(airports, legs)| == |legs|
    ensures Segments(airports, legs)[i]
            == Segment(i + 1, airports(legs[i].departure), airports(legs[i].arrival), legs[i].date)
  {
    var n := |legs| - 1;
    if n > 0 {
      LegsAreKept(airports, legs[..n], if i < n then i else 0);
    }
  }

  lemma RouteIsFirstLeg(airports: Airports, q: Inquiry)
    requires IsMultiCity(q)
    ensures var row := RowOf(airports, q);
            && |row.segments| == |q.legs|
            && row.departure == row.segments[0].departure && row.arrival == row.segments[0].arrival
            && row.departureDate == row.segments[0].date && row.returnDate.None? && row.tripType == MultiCity
  {
    LegsAreKept(airports, q.legs, 0);
  }

  /** The airport of a code: none for a missing, empty or unknown one. */
  predicate IsAirportOf(airports: Airports, airport: Option<nat>, code: Option<string>) {
    if code.None? || code.value == "" then airport.None? else airport == airports(code.value)
  }

  /**
   * The row holds what was sent. More than one leg, or one of a multi-city request, are stored as segments, of which
   * the first also gives the lead's own route and date; any other request is stored as its own route and dates.
   */
  predicate HoldsInquiry(airports: Airports, row: LeadRow, q: Inquiry) {
    if |q.legs| > 1 || (|q.legs| == 1 && q.tripType == MultiCity) then
      && |row.segments| == |q.legs|
      && (forall i: nat :: i < |q.legs| ==> HoldsLeg(airports, row.segments[i], i, q.legs[i]))
      && row.departure == airports(q.legs[0].departure) && row.arrival == airports(q.legs[0].arrival)
      && row.departureDate == q.legs[0].date && row.returnDate.None? && row.tripType == MultiCity
    else
      && row.segments == []
      && IsAirportOf(airports, row.departure, q.departure) && IsAirportOf(airports, row.arrival, q.arrival)
      && row.departureDate == q.departureDate && row.returnDate == q.returnDate && row.tripType == q.tripType
  }

  predicate HoldsLeg(airports: Airports, segment: Segment, i: nat, leg: Leg) {
    && segment.sequence == i + 1 && segment.date == leg.date
    && segment.departure == airports(leg.departure) && segment.arrival == airports(leg.arrival)
  }

  lemma RowHoldsInquiry(airports: Airports, q: Inquiry)
    ensures HoldsInquiry(airports, RowOf(airports, q), q)
  {
    hide Segments;
    if IsMultiCity(q) {
      LegsAreKept(airports, q.legs, 0);
      forall i: nat | i < |q.legs| ensures HoldsLeg(airports, Segments(airports, q.legs)[i], i, q.legs[i]) {
        LegsAreKept(airports, q.legs, i);
      }
    }
  }

  // ---- which database errors mean "already saved" -----------------------------------------

  datatype Columns = NoColumns | Text(text: string) | List(names: seq<string>)

  /** A known request error of the client library, with the metadata it carries; anything else thrown. */
  datatype DbError = Known(code: string, modelName: Option<string>, constraint: Columns, target: Columns) | Unknown

  function WithoutLeadingQuote(v: string): (w: string)
    ensures v == w || v == ['"'] + w
  {
    if v != [] && v[0] == '"' then v[1..] else v
  }

  function WithoutTrailingQuote(v: string): (w: string)
    ensures v == w || v == w + ['"']
  {
    if v != [] && v[|v| - 1] == '"' then v[..|v| - 1] else v
  }

  /** One quotation mark is dropped at either end. */
  function Unquote(v: string): string {
    WithoutTrailingQuote(WithoutLeadingQuote(v))
  }

  predicate IsLeadIdCollision(err: DbError) {
    && err.Known? && err.code == "P2002"
    && err.modelName == Some("Lead")
    && var columns := if err.constraint.NoColumns? then err.target else err.constraint;
       match columns
       case List(names) => |names| == 1 && Unquote(names[0]) == "id"
       case Text(text) => Unquote(text) == "id" || text == "Lead_pkey"
       case NoColumns => false
  }

  lemma LeadingQuote(v: string, w: string)
    requires w != [] && w[0] != '"'
    ensures WithoutLeadingQuote(v) == w <==> v == w || v == ['"'] + w
  {
  }

  lemma TrailingQuote(v: string, w: string)
    requires w != [] && w[|w| - 1] != '"'
    ensures WithoutTrailingQuote(v) == w <==> v == w || v == w + ['"']
  {
  }

  /** The texts that name the id column, quoted on neither, either or both sides. */
  lemma UnquotedId(v: string)
    ensures Unquote(v) == "id" <==> v in ID_SPELLINGS
  {
    hide WithoutLeadingQuote, WithoutTrailingQuote;
    assert "id" + ['"'] == "id\"" && ['"'] + "id" == "\"id" && ['"'] + "id\"" == "\"id\"";
    TrailingQuote(WithoutLeadingQuote(v), "id");
    LeadingQuote(v, "id");
    LeadingQuote(v, "id\"");
  }

  const ID_SPELLINGS := ["id", "\"id", "id\"", "\"id\""]

  /** The metadata names the id column alone, as a list or as a text, or names the key's constraint. */
  predicate NamesLeadKey(columns: Columns) {
    || (columns.List? && exists v :: v in ID_SPELLINGS && columns.names == [v])
    || (columns.Text? && (columns.text in ID_SPELLINGS || columns.text == "Lead_pkey"))
  }

  /**
   * Exactly which errors count as "already saved": a uniqueness violation on Lead whose constraint names the primary
   * key or, only if no constraint is given, whose target does. Other tables, other or several columns, and other errors
   * never do.
   */
  lemma OnlyTheLeadKeyCollides(err: DbError)
    ensures IsLeadIdCollision(err) <==>
              && err.Known? && err.code == "P2002" && err.modelName == Some("Lead")
              && (NamesLeadKey(err.constraint) || (err.constraint.NoColumns? && NamesLeadKey(err.target)))
  {
    if err.Known? {
      hide Unquote;
      var columns := if err.constraint.NoColumns? then err.target else err.constraint;
      match columns
      case List(names) =>
        if |names| == 1 {
          UnquotedId(names[0]);
          assert names == [names[0]];
        }
      case Text(text) => UnquotedId(text);
      case NoColumns =>
    }
  }

  // ---- requests as interleaved steps ---------------------------------------------------------

  /** The functions the program takes from elsewhere. */
  datatype Setup = Setup(lib: Library, airports: Airports, derive: string -> string)

  /** A stored lead with the number of the request that stored it. */
  datatype Lead = Lead(author: nat, contact: nat, row: LeadRow, agent: Option<nat>)

  /** Thrown: the error of the first lookup, which is outside the try block. */
  datatype Reply = Created(id: string) | Duplicate(id: string) | Failed | Thrown | NoReply

  datatype Phase =
    | Arrived
    | Resolving
    | Resolved(contact: nat, isNew: bool)
    | Ready(contact: nat, agent: Option<nat>)
    | Collided
    | Stored(id: string)
    | Announced(id: string)
    | Replied(reply: Reply)

  datatype Request = Request(inquiry: Inquiry, phase: Phase)

  /**
   * `madeFor` says for whom a contact was created by a request; `activities` lists the leads of the LEAD_CREATED
   * activities, `distributed` the leads whose distribution was started.
   */
  datatype State = State(
    contacts: seq<Contact>,
    madeFor: seq<Option<Person>>,
    leads: map<string, Lead>,
    activities: seq<string>,
    distributed: seq<string>,
    requests: seq<Request>)

  datatype Step =
    | Arrive(inquiry: Inquiry)
    | LookUp(r: nat)
    | Resolve(r: nat)
    | ReadOwner(r: nat)
    | Insert(r: nat, made: string)
    | InsertUnanswered(r: nat, made: string)   // stored, but the request sees an error
    | Reread(r: nat)
    | Announce(r: nat)                          // distribution is started if nobody owns the lead
    | Finish(r: nat)
    | Fail(r: nat)                              // any other error of the store
    | Die(r: nat)
    | SetOwner(contact: nat, owner: Option<nat>) // somebody else assigns a contact

  function IdOf(setup: Setup, q: Inquiry, made: string): string {
    if q.submissionId.Some? then setup.derive(q.submissionId.value) else made
  }

  function PhaseOf(s: State, r: nat): Phase {
    if r < |s.requests| then s.requests[r].phase else Replied(NoReply)
  }

  /** An id made up for a request without a key is new, and never one derived from a key. */
  ghost predicate IsFresh(setup: Setup, s: State, q: Inquiry, made: string) {
    q.submissionId.None? ==> made !in s.leads && forall key :: setup.derive(key) != made
  }

  ghost predicate Enabled(setup: Setup, s: State, step: Step) {
    match step
    case Arrive(q) => IsReachable(setup.lib, q.person)
    case LookUp(r) => PhaseOf(s, r).Arrived?
    case Resolve(r) => PhaseOf(s, r).Resolving?
    case ReadOwner(r) => PhaseOf(s, r).Resolved? && PhaseOf(s, r).contact < |s.contacts|
    case Insert(r, made) => PhaseOf(s, r).Ready? && IsFresh(setup, s, s.requests[r].inquiry, made)
    case InsertUnanswered(r, made) =>
      && PhaseOf(s, r).Ready? && IsFresh(setup, s, s.requests[r].inquiry, made)
      && IdOf(setup, s.requests[r].inquiry, made) !in s.leads
    case Reread(r) => PhaseOf(s, r).Collided? && s.requests[r].inquiry.submissionId.Some?
    case Announce(r) => PhaseOf(s, r).Stored? && PhaseOf(s, r).id in s.leads
    case Finish(r) => PhaseOf(s, r).Announced?
    case Fail(r) => r < |s.requests| && !PhaseOf(s, r).Stored? && !PhaseOf(s, r).Announced? && !PhaseOf(s, r).Replied?
    case Die(r) => r < |s.requests| && !PhaseOf(s, r).Replied?
    case SetOwner(contact, _) => contact < |s.contacts|
  }

  function WithPhase(s: State, r: nat, phase: Phase): State
    requires r < |s.requests|
  {
    s.(requests := s.requests[r := s.requests[r].(phase := phase)])
  }

  function StoreLead(setup: Setup, s: State, r: nat, id: string): State
    requires PhaseOf(s, r).Ready?
  {
    var phase := PhaseOf(s, r);
    s.(leads := s.leads[id := Lead(r, phase.contact, RowOf(setup.airports, s.requests[r].inquiry), phase.agent)],
       activities := s.activities + [id])
  }

  function Next(setup: Setup, s: State, step: Step): State
    requires Enabled(setup, s, step)
  {
    match step
    case Arrive(q) => s.(requests := s.requests + [Request(q, Arrived)])
    case LookUp(r) =>
      var key := s.requests[r].inquiry.submissionId;
      if key.Some? && setup.derive(key.value) in s.leads
      then WithPhase(s, r, Replied(Duplicate(setup.derive(key.value))))
      else WithPhase(s, r, Resolving)
    case Resolve(r) =>
      var p := s.requests[r].inquiry.person;
      if HasMatch(setup.lib, s.contacts, p)
      then WithPhase(s, r, Phase.Resolved(FirstMatch(setup.lib, s.contacts, p), false))
      else WithPhase(s, r, Phase.Resolved(|s.contacts|, true))
           .(contacts := FindOrCreate(setup.lib, s.contacts, p), madeFor := s.madeFor + [Some(p)])
    case ReadOwner(r) =>
      var phase := PhaseOf(s, r);
      WithPhase(s, r, Ready(phase.contact, if phase.isNew then None else s.contacts[phase.contact].owner))
    case Insert(r, made) =>
      var id := IdOf(setup, s.requests[r].inquiry, made);
      if id in s.leads then WithPhase(s, r, Collided) else WithPhase(StoreLead(setup, s, r, id), r, Stored(id))
    case InsertUnanswered(r, made) =>
      WithPhase(StoreLead(setup, s, r, IdOf(setup, s.requests[r].inquiry, made)), r, Replied(Failed))
    case Reread(r) =>
      var id := setup.derive(s.requests[r].inquiry.submissionId.value);
      WithPhase(s, r, Replied(if id in s.leads then Duplicate(id) else Failed))
    case Announce(r) =>
      var id := PhaseOf(s, r).id;
      WithPhase(s, r, Announced(id))
      .(distributed := if s.leads[id].agent.None? then s.distributed + [id] else s.distributed)
    case Finish(r) => WithPhase(s, r, Replied(Created(PhaseOf(s, r).id)))
    case Fail(r) => WithPhase(s, r, Replied(if PhaseOf(s, r).Arrived? then Thrown else Failed))
    case Die(r) => WithPhase(s, r, Replied(NoReply))
    case SetOwner(contact, owner) => s.(contacts := s.contacts[contact := s.contacts[contact].(owner := owner)])
  }

  /** What comes from outside: a request to be served, with all that was sent, and a new owner of a contact. */
  lemma OutsideSteps(setup: Setup, s: State, q: Inquiry, contact: nat, owner: Option<nat>)
    ensures IsReachable(setup.lib, q.person) ==>
              Next(setup, s, Arrive(q)) == s.(requests := s.requests + [Request(q, Arrived)])
    ensures contact < |s.contacts| ==>
              var after := Next(setup, s, SetOwner(contact, owner)).contacts;
              && |after| == |s.contacts| && after[contact] == s.contacts[contact].(owner := owner)
              && forall i :: 0 <= i < |after| && i != contact ==> after[i] == s.contacts[i]
  {
  }

  // ---- the invariant ---------------------------------------------------------------------------

  ghost predicate RequestOk(setup: Setup, s: State, r: nat)
    requires r < |s.requests|
  {
    var q := s.requests[r].inquiry;
    match s.requests[r].phase
    case Arrived => true
    case Resolving => true
    case Resolved(c, _) => c < |s.contacts| && Matches(setup.lib, s.contacts[c], q.person)
    case Ready(c, _) => c < |s.contacts| && Matches(setup.lib, s.contacts[c], q.person)
    case Collided => q.submissionId.Some? && setup.derive(q.submissionId.value) in s.leads
    case Stored(id) => id in s.leads && s.leads[id].author == r
    case Announced(id) => id in s.leads && s.leads[id].author == r
    case Replied(Created(id)) => id in s.leads && s.leads[id].author == r
    case Replied(Duplicate(id)) => q.submissionId.Some? && id == setup.derive(q.submissionId.value) && id in s.leads
    case Replied(_) => true
  }

  ghost predicate LeadOk(setup: Setup, s: State, id: string)
    requires id in s.leads
  {
    var lead := s.leads[id];
    && lead.author < |s.requests| && lead.contact < |s.contacts|
    && var q := s.requests[lead.author].inquiry;
    && lead.row == RowOf(setup.airports, q)
    && Matches(setup.lib, s.contacts[lead.contact], q.person)
    && (if q.submissionId.Some? then id == setup.derive(q.submissionId.value)
        else forall key :: setup.derive(key) != id)
    && s.requests[lead.author].phase in {Stored(id), Announced(id), Replied(Created(id)), Replied(Failed),
                                         Replied(NoReply)}
  }

  ghost predicate Distinct(ids: seq<string>) {
    forall i, j :: 0 <= i < j < |ids| ==> ids[i] != ids[j]
  }

  /**
   * Exactly one creation activity for every lead. Distribution is started at most once for a lead, only for one without
   * agent and by its own request, and always before that request replies "created".
   */
  ghost predicate RecordsOk(s: State) {
    && Distinct(s.activities) && (forall id :: id in s.activities <==> id in s.leads)
    && Distinct(s.distributed)
    && (forall id :: id in s.distributed ==> MayBeDistributed(s, id))
    && (forall id :: IsDistributed(s, id) ==> id in s.distributed)
  }

  predicate MayBeDistributed(s: State, id: string) {
    && id in s.leads && s.leads[id].agent.None?
    && PhaseOf(s, s.leads[id].author) in {Announced(id), Replied(Created(id)), Replied(NoReply)}
  }

  predicate IsDistributed(s: State, id: string) {
    && id in s.leads && s.leads[id].agent.None?
    && PhaseOf(s, s.leads[id].author) in {Announced(id), Replied(Created(id))}
  }

  /** A contact is only created when no earlier one matches the person it is created for. */
  ghost predicate ContactsOk(setup: Setup, s: State) {
    && |s.madeFor| == |s.contacts|
    && (forall i :: 0 <= i < |s.contacts| && s.madeFor[i].Some? ==>
          Matches(setup.lib, s.contacts[i], s.madeFor[i].value))
    && (forall i, j :: 0 <= i < j < |s.contacts| && s.madeFor[j].Some? ==>
          !Matches(setup.lib, s.contacts[i], s.madeFor[j].value))
  }

  ghost predicate Inv(setup: Setup, s: State) {
    && (forall r: nat :: r < |s.requests| ==> RequestOk(setup, s, r))
    && (forall r: nat :: r < |s.requests| ==> IsReachable(setup.lib, s.requests[r].inquiry.person))
    && (forall id :: id in s.leads ==> LeadOk(setup, s, id))
    && RecordsOk(s)
    && ContactsOk(setup, s)
  }

  lemma SameMatches(lib: Library, c: Contact, owner: Option<nat>, p: Person)
    ensures Matches(lib, c.(owner := owner), p) <==> Matches(lib, c, p)
  {
  }

  /** Where a request may go on by itself: a stored lead is only given up, an announced one is given up or reported. */
  predicate MayBecome(before: Phase, phase: Phase) {
    && !before.Replied? && !phase.Announced?
    && (before.Stored? ==> phase == Replied(NoReply))
    && (before.Announced? ==> phase in {Replied(Created(before.id)), Replied(NoReply)})
    && (phase.Replied? && phase.reply.Created? ==> before.Announced?)
  }

  /** Steps that only move one request on. */
  lemma PhaseStepInv(setup: Setup, s: State, r: nat, phase: Phase)
    requires Inv(setup, s) && r < |s.requests| && RequestOk(setup, WithPhase(s, r, phase), r)
    requires MayBecome(s.requests[r].phase, phase)
    ensures Inv(setup, WithPhase(s, r, phase))
  {
    hide RowOf, Matches, IsReachable, LeadOk, RecordsOk, MayBecome;
    var s' := WithPhase(s, r, phase);
    forall q: nat | q < |s'.requests| ensures RequestOk(setup, s', q) {
      assert RequestOk(setup, s, q);
    }
    forall id | id in s'.leads ensures LeadOk(setup, s', id) {
      LeadStaysOk(setup, s, r, phase, id);
    }
    RecordsStayOk(s, r, phase);
  }

  lemma LeadStaysOk(setup: Setup, s: State, r: nat, phase: Phase, id: string)
    requires r < |s.requests| && MayBecome(s.requests[r].phase, phase)
    requires id in s.leads && LeadOk(setup, s, id)
    ensures LeadOk(setup, WithPhase(s, r, phase), id)
  {
    hide RowOf, Matches, IsReachable;
  }

  lemma RecordsStayOk(s: State, r: nat, phase: Phase)
    requires r < |s.requests| && MayBecome(s.requests[r].phase, phase) && RecordsOk(s)
    ensures RecordsOk(WithPhase(s, r, phase))
  {
    var s' := WithPhase(s, r, phase);
    forall id | id in s'.distributed ensures MayBeDistributed(s', id) {
      assert MayBeDistributed(s, id);
    }
    forall id | IsDistributed(s', id) ensures id in s'.distributed {
      assert IsDistributed(s, id);
    }
  }

  lemma ArriveInv(setup: Setup, s: State, q: Inquiry)
    requires Inv(setup, s) && IsReachable(setup.lib, q.person)
    ensures Inv(setup, Next(setup, s, Arrive(q)))
  {
    hide RowOf, Matches, IsReachable;
    var s' := Next(setup, s, Arrive(q));
    forall r: nat | r < |s'.requests| ensures RequestOk(setup, s', r) {
      assert r < |s.requests| ==> RequestOk(setup, s, r);
    }
    forall id | id in s'.leads ensures LeadOk(setup, s', id) {
      assert LeadOk(setup, s, id);
    }
  }

  lemma ResolveInv(setup: Setup, s: State, r: nat)
    requires Inv(setup, s) && Enabled(setup, s, Resolve(r))
    ensures Inv(setup, Next(setup, s, Resolve(r)))
  {
    hide RowOf, Matches;
    var p := s.requests[r].inquiry.person;
    if HasMatch(setup.lib, s.contacts, p) {
      PhaseStepInv(setup, s, r, Phase.Resolved(FirstMatch(setup.lib, s.contacts, p), false));
    } else {
      ContactAddedInv(setup, s, p);
      var added := s.(contacts := FindOrCreate(setup.lib, s.contacts, p), madeFor := s.madeFor + [Some(p)]);
      NewContactMatches(setup.lib, p);
      assert added.contacts == s.contacts + [NewContact(setup.lib, p)];
      PhaseStepInv(setup, added, r, Phase.Resolved(|s.contacts|, true));
    }
  }

  lemma ContactAddedInv(setup: Setup, s: State, p: Person)
    requires Inv(setup, s) && IsReachable(setup.lib, p) && !HasMatch(setup.lib, s.contacts, p)
    ensures Inv(setup, s.(contacts := s.contacts + [NewContact(setup.lib, p)], madeFor := s.madeFor + [Some(p)]))
  {
    hide RowOf, Matches;
    var s' := s.(contacts := s.contacts + [NewContact(setup.lib, p)], madeFor := s.madeFor + [Some(p)]);
    NewContactMatches(setup.lib, p);
    forall r: nat | r < |s'.requests| ensures RequestOk(setup, s', r) {
      assert RequestOk(setup, s, r);
    }
    forall id | id in s'.leads ensures LeadOk(setup, s', id) {
      assert LeadOk(setup, s, id);
    }
  }

  lemma SetOwnerInv(setup: Setup, s: State, contact: nat, owner: Option<nat>)
    requires Inv(setup, s) && contact < |s.contacts|
    ensures Inv(setup, Next(setup, s, SetOwner(contact, owner)))
  {
    var s' := Next(setup, s, SetOwner(contact, owner));
    forall i, p | 0 <= i < |s.contacts|
      ensures Matches(setup.lib, s'.contacts[i], p) <==> Matches(setup.lib, s.contacts[i], p)
    {
      SameMatches(setup.lib, s.contacts[i], owner, p);
    }
    SameMatchesInv(setup, s, s');
  }

  lemma SameMatchesInv(setup: Setup, s: State, s': State)
    requires Inv(setup, s) && s' == s.(contacts := s'.contacts) && |s'.contacts| == |s.contacts|
    requires forall i, p :: 0 <= i < |s.contacts| ==>
             (Matches(setup.lib, s'.contacts[i], p) <==> Matches(setup.lib, s.contacts[i], p))
    ensures Inv(setup, s')
  {
    hide RowOf, Matches, IsReachable;
    forall r: nat | r < |s'.requests| ensures RequestOk(setup, s', r) {
      assert RequestOk(setup, s, r);
    }
    forall id | id in s'.leads ensures LeadOk(setup, s', id) {
      assert LeadOk(setup, s, id);
    }
  }

  /** The insert of a lead whose id is not taken, with its creation activity; the request then has the given phase. */
  lemma StoreInv(setup: Setup, s: State, r: nat, made: string, phase: Phase)
    requires Inv(setup, s) && PhaseOf(s, r).Ready? && IsFresh(setup, s, s.requests[r].inquiry, made)
    requires var id := IdOf(setup, s.requests[r].inquiry, made);
             id !in s.leads && phase in {Stored(id), Replied(Failed)}
    ensures Inv(setup, WithPhase(StoreLead(setup, s, r, IdOf(setup, s.requests[r].inquiry, made)), r, phase))
  {
    hide RowOf, Matches, IsReachable, LeadOk, RecordsOk;
    var id := IdOf(setup, s.requests[r].inquiry, made);
    var s' := WithPhase(StoreLead(setup, s, r, id), r, phase);
    forall q: nat | q < |s'.requests| ensures RequestOk(setup, s', q) {
      assert RequestOk(setup, s, q);
    }
    forall other | other in s'.leads ensures LeadOk(setup, s', other) {
      if other == id {
        NewLeadOk(setup, s, r, made, phase);
      } else {
        OldLeadOk(setup, s, r, id, phase, other);
      }
    }
    StoredRecordsOk(setup, s, r, id, phase);
  }

  lemma NewLeadOk(setup: Setup, s: State, r: nat, made: string, phase: Phase)
    requires PhaseOf(s, r).Ready? && RequestOk(setup, s, r) && IsFresh(setup, s, s.requests[r].inquiry, made)
    requires phase in {Stored(IdOf(setup, s.requests[r].inquiry, made)), Replied(Failed)}
    ensures var id := IdOf(setup, s.requests[r].inquiry, made);
            LeadOk(setup, WithPhase(StoreLead(setup, s, r, id), r, phase), id)
  {
    hide RowOf, Matches, IsReachable;
  }

  lemma OldLeadOk(setup: Setup, s: State, r: nat, id: string, phase: Phase, other: string)
    requires PhaseOf(s, r).Ready? && other != id && other in s.leads && LeadOk(setup, s, other)
    ensures LeadOk(setup, WithPhase(StoreLead(setup, s, r, id), r, phase), other)
  {
    hide RowOf, Matches, IsReachable;
  }

  lemma StoredRecordsOk(setup: Setup, s: State, r: nat, id: string, phase: Phase)
    requires PhaseOf(s, r).Ready? && id !in s.leads && RecordsOk(s) && phase in {Stored(id), Replied(Failed)}
    ensures RecordsOk(WithPhase(StoreLead(setup, s, r, id), r, phase))
  {
    hide RowOf;
  }

  lemma AnnounceInv(setup: Setup, s: State, r: nat)
    requires Inv(setup, s) && Enabled(setup, s, Announce(r))
    ensures Inv(setup, Next(setup, s, Announce(r)))
  {
    hide RowOf, Matches, IsReachable, RecordsOk;
    var s' := Next(setup, s, Announce(r));
    assert RequestOk(setup, s, r);
    forall q: nat | q < |s'.requests| ensures RequestOk(setup, s', q) {
      assert RequestOk(setup, s, q);
    }
    forall other | other in s'.leads ensures LeadOk(setup, s', other) {
      assert LeadOk(setup, s, other);
    }
    AnnouncedRecordsOk(setup, s, r);
  }

  lemma AnnouncedRecordsOk(setup: Setup, s: State, r: nat)
    requires RecordsOk(s) && Enabled(setup, s, Announce(r)) && RequestOk(setup, s, r)
    requires forall id :: id in s.leads ==> LeadOk(setup, s, id)
    ensures RecordsOk(Next(setup, s, Announce(r)))
  {
    hide RowOf, Matches, IsReachable;
    var s' := Next(setup, s, Announce(r));
    var id := PhaseOf(s, r).id;
    assert id !in s.distributed by {
      assert !MayBeDistributed(s, id);
    }
    forall other | other in s'.distributed ensures MayBeDistributed(s', other) {
      assert other != id ==> MayBeDistributed(s, other);
    }
    forall other | IsDistributed(s', other) ensures other in s'.distributed {
      assert LeadOk(setup, s, other);
      assert other != id ==> IsDistributed(s, other);
    }
  }

  lemma StepInv(setup: Setup, s: State, step: Step)
    requires Inv(setup, s) && Enabled(setup, s, step)
    ensures Inv(setup, Next(setup, s, step))
  {
    hide RowOf, Matches, IsReachable, LeadOk, RecordsOk, ContactsOk;
    match step
    case Arrive(q) => ArriveInv(setup, s, q);
    case LookUp(r) =>
      PhaseStepInv(setup, s, r, PhaseOf(Next(setup, s, step), r));
    case Resolve(r) => ResolveInv(setup, s, r);
    case ReadOwner(r) =>
      assert RequestOk(setup, s, r);
      PhaseStepInv(setup, s, r, PhaseOf(Next(setup, s, step), r));
    case Insert(r, made) =>
      var id := IdOf(setup, s.requests[r].inquiry, made);
      if id in s.leads {
        PhaseStepInv(setup, s, r, Collided);
      } else {
        StoreInv(setup, s, r, made, Stored(id));
      }
    case InsertUnanswered(r, made) => StoreInv(setup, s, r, made, Replied(Failed));
    case Reread(r) => PhaseStepInv(setup, s, r, PhaseOf(Next(setup, s, step), r));
    case Announce(r) => AnnounceInv(setup, s, r);
    case Finish(r) =>
      assert RequestOk(setup, s, r);
      PhaseStepInv(setup, s, r, Replied(Created(PhaseOf(s, r).id)));
    case Fail(r) => PhaseStepInv(setup, s, r, PhaseOf(Next(setup, s, step), r));
    case Die(r) => PhaseStepInv(setup, s, r, Replied(NoReply));
    case SetOwner(contact, owner) => SetOwnerInv(setup, s, contact, owner);
  }

  // ---- whole runs --------------------------------------------------------------------------------

  /** A database before the first request: any contacts, no website lead yet. */
  predicate IsStart(s: State) {
    && s.requests == [] && s.leads == map[] && s.activities == [] && s.distributed == []
    && s.madeFor == seq(|s.contacts|, _ => None)
  }

  ghost predicate IsRun(setup: Setup, states: seq<State>, steps: seq<Step>) {
    && |states| == |steps| + 1 && IsStart(states[0])
    && forall k :: 0 <= k < |steps| ==>
         Enabled(setup, states[k], steps[k]) && states[k + 1] == Next(setup, states[k], steps[k])
  }

  lemma {:induction false} RunInv(setup: Setup, states: seq<State>, steps: seq<Step>, n: nat)
    requires IsRun(setup, states, steps) && n < |states|
    ensures Inv(setup, states[n])
    decreases n
  {
    if n > 0 {
      RunInv(setup, states, steps, n - 1);
      assert Enabled(setup, states[n - 1], steps[n - 1]) && states[n] == Next(setup, states[n - 1], steps[n - 1]);
      StepInv(setup, states[n - 1], steps[n - 1]);
    }
  }

  /** One step never changes or removes a stored lead. */
  lemma StepKeepsLead(setup: Setup, s: State, step: Step, id: string)
    requires Inv(setup, s) && Enabled(setup, s, step) && id in s.leads
    ensures id in Next(setup, s, step).leads && Next(setup, s, step).leads[id] == s.leads[id]
  {
    hide RowOf, Matches, IsReachable, LeadOk, RecordsOk, ContactsOk, RequestOk, FindOrCreate, FirstMatch, HasMatch;
  }

  /** One step never changes a given reply. */
  lemma StepKeepsReply(setup: Setup, s: State, step: Step, r: nat)
    requires Enabled(setup, s, step) && r < |s.requests| && s.requests[r].phase.Replied?
    ensures r < |Next(setup, s, step).requests| && Next(setup, s, step).requests[r] == s.requests[r]
  {
    hide RowOf, Matches, IsReachable, FindOrCreate, FirstMatch, HasMatch, IsFresh;
  }

  /** A stored lead stays as it is for the rest of the run. */
  lemma {:induction false} LeadStays(setup: Setup, states: seq<State>, steps: seq<Step>, i: nat, j: nat, id: string)
    requires IsRun(setup, states, steps) && i <= j < |states| && id in states[i].leads
    ensures id in states[j].leads && states[j].leads[id] == states[i].leads[id]
    decreases j - i
  {
    hide Next, Enabled, Inv;
    if i < j {
      LeadStays(setup, states, steps, i, j - 1, id);
      RunInv(setup, states, steps, j - 1);
      assert Enabled(setup, states[j - 1], steps[j - 1]) && states[j] == Next(setup, states[j - 1], steps[j - 1]);
      StepKeepsLead(setup, states[j - 1], steps[j - 1], id);
    }
  }

  /** A given reply is never revised. */
  lemma {:induction false} ReplyStays(setup: Setup, states: seq<State>, steps: seq<Step>, i: nat, j: nat, r: nat)
    requires IsRun(setup, states, steps) && i <= j < |states|
    requires r < |states[i].requests| && states[i].requests[r].phase.Replied?
    ensures r < |states[j].requests| && states[j].requests[r] == states[i].requests[r]
    decreases j - i
  {
    hide Next, Enabled;
    if i < j {
      ReplyStays(setup, states, steps, i, j - 1, r);
      assert Enabled(setup, states[j - 1], steps[j - 1]) && states[j] == Next(setup, states[j - 1], steps[j - 1]);
      StepKeepsReply(setup, states[j - 1], steps[j - 1], r);
    }
  }

  /**
   * Any number of requests with one submission key: all their "created" and "duplicate" replies carry the same id, that
   * lead is stored, and only one of the replies is "created".
   */
  lemma OneLeadPerSubmission(setup: Setup, states: seq<State>, steps: seq<Step>, n: nat, r1: nat, r2: nat)
    requires IsRun(setup, states, steps) && n < |states| && r1 < |states[n].requests| && r2 < |states[n].requests|
    requires states[n].requests[r1].inquiry.submissionId.Some?
    requires states[n].requests[r1].inquiry.submissionId == states[n].requests[r2].inquiry.submissionId
    requires IsSaved(PhaseOf(states[n], r1)) && IsSaved(PhaseOf(states[n], r2))
    ensures var id := PhaseOf(states[n], r1).reply.id;
            && id == PhaseOf(states[n], r2).reply.id == setup.derive(states[n].requests[r1].inquiry.submissionId.value)
            && id in states[n].leads
    ensures PhaseOf(states[n], r1).reply.Created? && PhaseOf(states[n], r2).reply.Created? ==> r1 == r2
  {
    hide RowOf, Matches, IsReachable, RecordsOk, ContactsOk, Next, Enabled;
    RunInv(setup, states, steps, n);
    var s := states[n];
    assert RequestOk(setup, s, r1) && RequestOk(setup, s, r2);
    assert LeadOk(setup, s, PhaseOf(s, r1).reply.id) && LeadOk(setup, s, PhaseOf(s, r2).reply.id);
  }

  predicate IsSaved(phase: Phase) {
    phase.Replied? && (phase.reply.Created? || phase.reply.Duplicate?)
  }

  /**
   * Different submissions get different leads, when the ids derived from the keys differ: the lead of a saved request
   * is made from a request with its own key.
   */
  lemma LeadIsOfThisSubmission(setup: Setup, states: seq<State>, steps: seq<Step>, n: nat, r: nat)
    requires IsRun(setup, states, steps) && n < |states| && r < |states[n].requests| && IsSaved(PhaseOf(states[n], r))
    requires forall k1, k2 :: setup.derive(k1) == setup.derive(k2) ==> k1 == k2
    ensures var s := states[n];
            PhaseOf(s, r).reply.id in s.leads &&
            var lead := s.leads[PhaseOf(s, r).reply.id];
            && lead.author < |s.requests|
            && s.requests[lead.author].inquiry.submissionId == s.requests[r].inquiry.submissionId
            && HoldsInquiry(setup.airports, lead.row, s.requests[lead.author].inquiry)
            && lead.contact < |s.contacts|
            && Matches(setup.lib, s.contacts[lead.contact], s.requests[lead.author].inquiry.person)
  {
    hide RowOf, HoldsInquiry, Matches, IsReachable, RecordsOk, ContactsOk, Next, Enabled;
    RunInv(setup, states, steps, n);
    assert RequestOk(setup, states[n], r);
    var id := PhaseOf(states[n], r).reply.id;
    assert LeadOk(setup, states[n], id);
    RowHoldsInquiry(setup.airports, states[n].requests[states[n].leads[id].author].inquiry);
  }

  /**
   * A request whose lead has been stored by another one is told so: the insert runs into the key, and the row that is
   * read again is there.
   */
  lemma CollisionIsDuplicate(setup: Setup, s: State, r: nat, made: string)
    requires Inv(setup, s) && PhaseOf(s, r).Ready? && s.requests[r].inquiry.submissionId.Some?
    requires setup.derive(s.requests[r].inquiry.submissionId.value) in s.leads
    ensures var id := setup.derive(s.requests[r].inquiry.submissionId.value);
            && Enabled(setup, s, Insert(r, made)) && !Enabled(setup, s, InsertUnanswered(r, made))
            && var s' := Next(setup, s, Insert(r, made));
            && Enabled(setup, s', Reread(r))
            && Next(setup, s', Reread(r)) == WithPhase(s, r, Replied(Duplicate(id)))
  {
    hide RowOf, Matches, IsReachable, LeadOk, RecordsOk, ContactsOk, RequestOk, FindOrCreate, FirstMatch, HasMatch;
  }

  /**
   * The contact of a request is one that matches its sender: an existing one and nothing is added, or, if there is
   * none, a new one that belongs to nobody.
   */
  lemma ContactIsResolved(setup: Setup, s: State, r: nat)
    requires Inv(setup, s) && Enabled(setup, s, Resolve(r))
    ensures var s', p := Next(setup, s, Resolve(r)), s.requests[r].inquiry.person;
            var phase := PhaseOf(s', r);
            && phase.Resolved? && phase.contact < |s'.contacts|
            && Matches(setup.lib, s'.contacts[phase.contact], p)
            && (if exists i :: 0 <= i < |s.contacts| && Matches(setup.lib, s.contacts[i], p)
                then s'.contacts == s.contacts && !phase.isNew
                else s'.contacts[..|s.contacts|] == s.contacts && phase.isNew && phase.contact == |s.contacts|
                     && s'.contacts[phase.contact].owner.None?)
  {
    hide RowOf, Matches, LeadOk, RecordsOk, ContactsOk, RequestOk;
    NewContactMatches(setup.lib, s.requests[r].inquiry.person);
  }

  /** The agent is the owner the contact had when it was read, or nobody for a new contact. */
  ghost predicate AgentWasOwner(states: seq<State>, n: nat, r: nat, contact: nat, agent: Option<nat>) {
    exists k :: 0 <= k < n && k < |states| && OwnerWas(states[k], r, contact, agent)
  }

  predicate OwnerWas(s: State, r: nat, contact: nat, agent: Option<nat>) {
    && PhaseOf(s, r).Resolved? && PhaseOf(s, r).contact == contact && contact < |s.contacts|
    && agent == (if PhaseOf(s, r).isNew then None else s.contacts[contact].owner)
  }

  lemma StepToReady(setup: Setup, s: State, step: Step, r: nat)
    requires Enabled(setup, s, step) && PhaseOf(Next(setup, s, step), r).Ready?
    ensures var phase := PhaseOf(Next(setup, s, step), r);
            PhaseOf(s, r) == phase || OwnerWas(s, r, phase.contact, phase.agent)
  {
    hide RowOf, Matches, IsReachable, FindOrCreate, FirstMatch, HasMatch, IsFresh;
  }

  lemma {:induction false} ReadyAgent(setup: Setup, states: seq<State>, steps: seq<Step>, n: nat, r: nat)
    requires IsRun(setup, states, steps) && n < |states| && PhaseOf(states[n], r).Ready?
    ensures AgentWasOwner(states, n, r, PhaseOf(states[n], r).contact, PhaseOf(states[n], r).agent)
    decreases n
  {
    hide Next, Enabled, OwnerWas;
    if n > 0 {
      assert Enabled(setup, states[n - 1], steps[n - 1]) && states[n] == Next(setup, states[n - 1], steps[n - 1]);
      StepToReady(setup, states[n - 1], steps[n - 1], r);
      if PhaseOf(states[n - 1], r) == PhaseOf(states[n], r) {
        ReadyAgent(setup, states, steps, n - 1, r);
      }
    }
  }

  lemma StepToLead(setup: Setup, s: State, step: Step, id: string)
    requires Inv(setup, s) && Enabled(setup, s, step) && id in Next(setup, s, step).leads
    ensures var lead := Next(setup, s, step).leads[id];
            (id in s.leads && lead == s.leads[id]) || PhaseOf(s, lead.author) == Ready(lead.contact, lead.agent)
  {
    hide RowOf, Matches, IsReachable, LeadOk, RecordsOk, ContactsOk, RequestOk, FindOrCreate, FirstMatch, HasMatch;
  }

  /** A lead belongs to the owner its contact had when its request looked, and to nobody if the contact was new. */
  lemma {:induction false} LeadFollowsContact(setup: Setup, states: seq<State>, steps: seq<Step>, n: nat, id: string)
    requires IsRun(setup, states, steps) && n < |states| && id in states[n].leads
    ensures var lead := states[n].leads[id]; AgentWasOwner(states, n, lead.author, lead.contact, lead.agent)
    decreases n
  {
    hide Next, Enabled, Inv, OwnerWas;
    if n > 0 {
      RunInv(setup, states, steps, n - 1);
      assert Enabled(setup, states[n - 1], steps[n - 1]) && states[n] == Next(setup, states[n - 1], steps[n - 1]);
      StepToLead(setup, states[n - 1], steps[n - 1], id);
      var lead := states[n].leads[id];
      if id in states[n - 1].leads && lead == states[n - 1].leads[id] {
        LeadFollowsContact(setup, states, steps, n - 1, id);
      } else {
        ReadyAgent(setup, states, steps, n - 1, lead.author);
      }
    }
  }

  /** Requests that fail, die or are repeated never make a second contact for the same person. */
  lemma OneContactPerPerson(setup: Setup, states: seq<State>, steps: seq<Step>, n: nat, i: nat, j: nat)
    requires IsRun(setup, states, steps) && n < |states| && i < |states[n].contacts| && j < |states[n].contacts|
    requires |states[n].madeFor| == |states[n].contacts| && states[n].madeFor[i].Some?
             && states[n].madeFor[i] == states[n].madeFor[j]
    ensures i == j
  {
    hide RowOf, Matches, IsReachable, RecordsOk, LeadOk, RequestOk, Next, Enabled;
    RunInv(setup, states, steps, n);
  }

  /** A request was sent for this person. */
  ghost predicate SentARequest(s: State, who: Option<Person>) {
    exists r :: 0 <= r < |s.requests| && who == Some(s.requests[r].inquiry.person)
  }

  /** Contacts are only made for people who sent a request. */
  ghost predicate MadeForRequests(s: State, before: nat) {
    && |s.madeFor| == |s.contacts| && before <= |s.contacts|
    && (forall i :: before <= i < |s.contacts| ==> SentARequest(s, s.madeFor[i]))
  }

  /** Requests are only added, and none forgets what was sent. */
  lemma RequestsStay(setup: Setup, s: State, step: Step)
    requires Enabled(setup, s, step)
    ensures |s.requests| <= |Next(setup, s, step).requests|
    ensures forall r :: 0 <= r < |s.requests| ==> Next(setup, s, step).requests[r].inquiry == s.requests[r].inquiry
  {
    hide RowOf, Matches, IsReachable, IsFresh, FirstMatch, HasMatch, FindOrCreate;
  }

  /** Only the step that resolves a contact makes one, and then for the sender of its request. */
  lemma ContactsStep(setup: Setup, s: State, step: Step)
    requires |s.madeFor| == |s.contacts| && Enabled(setup, s, step)
    ensures var s' := Next(setup, s, step);
            && |s'.madeFor| == |s'.contacts|
            && (|| s'.madeFor == s.madeFor
                || (step.Resolve? && step.r < |s.requests|
                    && s'.madeFor == s.madeFor + [Some(s.requests[step.r].inquiry.person)]))
  {
    hide RowOf, Matches, IsReachable, IsFresh, FirstMatch;
  }

  lemma SenderStays(s: State, s': State, who: Option<Person>)
    requires SentARequest(s, who) && |s.requests| <= |s'.requests|
    requires forall r :: 0 <= r < |s.requests| ==> s'.requests[r].inquiry == s.requests[r].inquiry
    ensures SentARequest(s', who)
  {
    var r :| 0 <= r < |s.requests| && who == Some(s.requests[r].inquiry.person);
    assert s'.requests[r].inquiry == s.requests[r].inquiry;
  }

  lemma MadeForStep(setup: Setup, s: State, step: Step, before: nat)
    requires MadeForRequests(s, before) && Enabled(setup, s, step)
    ensures MadeForRequests(Next(setup, s, step), before)
  {
    hide Next, Enabled, SentARequest;
    var s' := Next(setup, s, step);
    RequestsStay(setup, s, step);
    ContactsStep(setup, s, step);
    forall i | before <= i < |s'.contacts| ensures SentARequest(s', s'.madeFor[i]) {
      if i == |s.contacts| {
        SenderIsRequest(s, step.r);
        SenderStays(s, s', s'.madeFor[i]);
      } else {
        SenderStays(s, s', s.madeFor[i]);
      }
    }
  }

  lemma SenderIsRequest(s: State, r: nat)
    requires r < |s.requests|
    ensures SentARequest(s, Some(s.requests[r].inquiry.person))
  {
  }

  lemma {:induction false} MadeForRun(setup: Setup, states: seq<State>, steps: seq<Step>, n: nat)
    requires IsRun(setup, states, steps) && n < |states|
    ensures MadeForRequests(states[n], |states[0].contacts|)
    decreases n
  {
    hide Next, Enabled, SentARequest;
    if n > 0 {
      MadeForRun(setup, states, steps, n - 1);
      assert Enabled(setup, states[n - 1], steps[n - 1]) && states[n] == Next(setup, states[n - 1], steps[n - 1]);
      MadeForStep(setup, states[n - 1], steps[n - 1], |states[0].contacts|);
    }
  }

  /**
   * A submission sent any number of times, however often it fails and whatever else is going on: whatever lead came of
   * it has the id of its key and holds what was sent, and no two contacts were made for its sender.
   */
  lemma ResendingIsHarmless(setup: Setup, states: seq<State>, steps: seq<Step>, n: nat, q: Inquiry)
    requires IsRun(setup, states, steps) && n < |states| && q.submissionId.Some?
    requires forall r :: 0 <= r < |states[n].requests| ==> HasOnePayload(states[n].requests[r].inquiry, q)
    ensures forall id :: id in states[n].leads && IsOfSubmission(states[n], id, q.submissionId) ==>
              id == setup.derive(q.submissionId.value) && HoldsInquiry(setup.airports, states[n].leads[id].row, q)
    ensures forall i, j :: 0 <= i < j < |states[n].madeFor| ==>
            !(states[n].madeFor[i] == states[n].madeFor[j] == Some(q.person))
  {
    hide RowOf, HoldsInquiry, Matches, IsReachable, RecordsOk, Next, Enabled;
    var s := states[n];
    RunInv(setup, states, steps, n);
    RowHoldsInquiry(setup.airports, q);
    forall id | id in s.leads && IsOfSubmission(s, id, q.submissionId)
      ensures id == setup.derive(q.submissionId.value) && HoldsInquiry(setup.airports, s.leads[id].row, q)
    {
      assert LeadOk(setup, s, id);
    }
    forall i, j | 0 <= i < j < |s.madeFor| ensures !(s.madeFor[i] == s.madeFor[j] == Some(q.person)) {
      if s.madeFor[i] == s.madeFor[j] == Some(q.person) {
        OneContactPerPerson(setup, states, steps, n, i, j);
      }
    }
  }

  /** The same key means the same payload. */
  predicate HasOnePayload(p: Inquiry, q: Inquiry) {
    p.submissionId == q.submissionId ==> p == q
  }

  /** A request with this key stored the lead. */
  predicate IsOfSubmission(s: State, id: string, key: Option<string>) {
    id in s.leads && s.leads[id].author < |s.requests| && s.requests[s.leads[id].author].inquiry.submissionId == key
  }

  /** If nothing but one submission is ever sent, it leaves at most one lead and one new contact. */
  lemma OneSubmissionAlone(setup: Setup, states: seq<State>, steps: seq<Step>, n: nat, q: Inquiry)
    requires IsRun(setup, states, steps) && n < |states| && q.submissionId.Some?
    requires forall r :: 0 <= r < |states[n].requests| ==> states[n].requests[r].inquiry == q
    ensures states[n].leads.Keys <= {setup.derive(q.submissionId.value)}
    ensures |states[n].contacts| <= |states[0].contacts| + 1
  {
    hide RowOf, Matches, IsReachable, RecordsOk, ContactsOk, Next, Enabled;
    var s := states[n];
    RunInv(setup, states, steps, n);
    MadeForRun(setup, states, steps, n);
    forall id | id in s.leads ensures id == setup.derive(q.submissionId.value) {
      assert LeadOk(setup, s, id);
    }
    var first := |states[0].contacts|;
    if |s.contacts| > first + 1 {
      assert SentARequest(s, s.madeFor[first]) && SentARequest(s, s.madeFor[first + 1]);
      OneContactPerPerson(setup, states, steps, n, first, first + 1);
    }
  }

  /**
   * In every state of a run each lead has its creation activity once and nothing else has one. Distribution was started
   * at most once for a lead, for none that has an agent, and once for every unowned lead reported as created.
   */
  lemma OneActivityPerLead(setup: Setup, states: seq<State>, steps: seq<Step>, n: nat, id: string)
    requires IsRun(setup, states, steps) && n < |states|
    ensures multiset(states[n].activities)[id] == (if id in states[n].leads then 1 else 0)
    ensures multiset(states[n].distributed)[id] <= 1
    ensures IsDistributed(states[n], id) ==> multiset(states[n].distributed)[id] == 1
    ensures multiset(states[n].distributed)[id] == 1 ==> MayBeDistributed(states[n], id)
  {
    hide RowOf, Matches, IsReachable, RequestOk, LeadOk, ContactsOk, Next, Enabled;
    RunInv(setup, states, steps, n);
    DistinctOccursOnce(states[n].activities, id);
    DistinctOccursOnce(states[n].distributed, id);
  }

  lemma {:induction false} DistinctOccursOnce(ids: seq<string>, id: string)
    requires Distinct(ids)
    ensures multiset(ids)[id] == (if id in ids then 1 else 0)
  {
    if ids != [] {
      var n := |ids| - 1;
      DistinctOccursOnce(ids[..n], id);
      assert ids == ids[..n] + [ids[n]];
    }
  }

  // ---- one request, undisturbed by others ----------------------------------------------------------

  datatype InsertOutcome = Inserts | InsertErrors | StoresButErrors

  /** What fails around one request, and the id the client library makes up. */
  datatype Environment = Environment(lookupFails: bool, contactFails: bool, ownerFails: bool, insert: InsertOutcome,
                                     made: string)

  ghost predicate Reaches(setup: Setup, s: State, steps: seq<Step>, s': State)
    decreases |steps|
  {
    if steps == [] then s == s'
    else Enabled(setup, s, steps[0]) && Reaches(setup, Next(setup, s, steps[0]), steps[1..], s')
  }

  lemma {:induction false} ReachesOneMore(setup: Setup, s: State, steps: seq<Step>, s': State, step: Step)
    requires Reaches(setup, s, steps, s') && Enabled(setup, s', step)
    ensures Reaches(setup, s, steps + [step], Next(setup, s', step))
    decreases |steps|
  {
    hide Next, Enabled;
    if steps == [] {
      assert (steps + [step])[1..] == [];
    } else {
      ReachesOneMore(setup, Next(setup, s, steps[0]), steps[1..], s', step);
      assert (steps + [step])[1..] == steps[1..] + [step];
    }
  }

  /** The lead that a request inserts. */
  function LeadOf(setup: Setup, r: nat, request: Request): Lead
    requires request.phase.Ready?
  {
    Lead(r, request.phase.contact, RowOf(setup.airports, request.inquiry), request.phase.agent)
  }

  function InsertedPhase(env: Environment, id: string): Phase {
    if env.insert.Inserts? then Stored(id) else Replied(Failed)
  }

  /** The tables a request touches; `requests` are those in progress. */
  class Store {
    var contacts: seq<Contact>
    var madeFor: seq<Option<Person>>
    var leads: map<string, Lead>
    var activities: seq<string>
    var distributed: seq<string>
    var requests: seq<Request>

    function Now(): State
      reads this
    {
      State(contacts, madeFor, leads, activities, distributed, requests)
    }

    /** Set the phase of a request, and note the step it took. */
    method Enter(setup: Setup, r: nat, phase: Phase, ghost step: Step, ghost start: State, ghost steps: seq<Step>)
      returns (ghost longer: seq<Step>)
      requires r < |requests| && Enabled(setup, Now(), step) && Reaches(setup, start, steps, Now())
      requires Next(setup, Now(), step) == WithPhase(Now(), r, phase)
      modifies this`requests
      ensures requests == old(requests)[r := old(requests)[r].(phase := phase)]
      ensures Reaches(setup, start, longer, Now())
    {
      ReachesOneMore(setup, start, steps, Now(), step);
      longer := steps + [step];
      requests := requests[r := requests[r].(phase := phase)];
    }

    /** resolveContactForNewLead, as one transaction. */
    method ResolveContact(setup: Setup, r: nat, ghost start: State, ghost steps: seq<Step>)
      returns (contact: nat, isNew: bool, ghost longer: seq<Step>)
      requires r < |requests| && requests[r].phase.Resolving? && IsReachable(setup.lib, requests[r].inquiry.person)
      requires Reaches(setup, start, steps, Now())
      modifies this`contacts, this`madeFor, this`requests
      ensures contacts == FindOrCreate(setup.lib, old(contacts), old(requests)[r].inquiry.person)
              && contact < |contacts|
      ensures isNew <==> contact == |old(contacts)|
      ensures Matches(setup.lib, contacts[contact], old(requests)[r].inquiry.person)
      ensures requests == old(requests)[r := old(requests)[r].(phase := Phase.Resolved(contact, isNew))]
      ensures Reaches(setup, start, longer, Now())
    {
      hide Matches, NewContact;
      ReachesOneMore(setup, start, steps, Now(), Resolve(r));
      longer := steps + [Resolve(r)];
      var person := requests[r].inquiry.person;
      NewContactMatches(setup.lib, person);
      contact := FirstMatch(setup.lib, contacts, person);
      isNew := contact == |contacts|;
      if isNew {
        contacts := contacts + [NewContact(setup.lib, person)];
        madeFor := madeFor + [Some(person)];
      }
      requests := requests[r := requests[r].(phase := Phase.Resolved(contact, isNew))];
    }

    /** prisma.lead.create with the legs and the creation activity, which are one insert. */
    method InsertLead(setup: Setup, r: nat, env: Environment, ghost start: State, ghost steps: seq<Step>)
      returns (ghost longer: seq<Step>)
      requires r < |requests| && requests[r].phase.Ready? && env.insert != InsertErrors
      requires IsFresh(setup, Now(), requests[r].inquiry, env.made)
      requires IdOf(setup, requests[r].inquiry, env.made) !in leads && Reaches(setup, start, steps, Now())
      modifies this`leads, this`activities, this`requests
      ensures var id := IdOf(setup, old(requests)[r].inquiry, env.made);
              && leads == old(leads)[id := LeadOf(setup, r, old(requests)[r])]
              && activities == old(activities) + [id]
              && requests == old(requests)[r := old(requests)[r].(phase := InsertedPhase(env, id))]
      ensures Reaches(setup, start, longer, Now())
    {
      hide RowOf, IsFresh;
      ghost var step := if env.insert.Inserts? then Insert(r, env.made) else InsertUnanswered(r, env.made);
      ReachesOneMore(setup, start, steps, Now(), step);
      longer := steps + [step];
      var id := IdOf(setup, requests[r].inquiry, env.made);
      var phase := requests[r].phase;
      leads := leads[id := Lead(r, phase.contact, RowOf(setup.airports, requests[r].inquiry), phase.agent)];
      activities := activities + [id];
      requests := requests[r := requests[r].(phase := InsertedPhase(env, id))];
    }

    method FinishCreated(setup: Setup, r: nat, ghost start: State, ghost steps: seq<Step>)
      returns (ghost longer: seq<Step>)
      requires r < |requests| && requests[r].phase.Stored? && requests[r].phase.id in leads
               && Reaches(setup, start, steps, Now())
      modifies this`distributed, this`requests
      ensures var id := old(requests)[r].phase.id;
              && requests == old(requests)[r := old(requests)[r].(phase := Replied(Created(id)))]
              && distributed == if leads[id].agent.None? then old(distributed) + [id] else old(distributed)
      ensures Reaches(setup, start, longer, Now())
    {
      ReachesOneMore(setup, start, steps, Now(), Announce(r));
      longer := steps + [Announce(r)];
      var id := requests[r].phase.id;
      if leads[id].agent.None? {
        distributed := distributed + [id];
      }
      requests := requests[r := requests[r].(phase := Announced(id))];
      longer := Enter(setup, r, Replied(Created(id)), Finish(r), start, longer);
    }

    /** The contact is known; what is left of the try block. */
    method SaveLead(setup: Setup, r: nat, env: Environment, contact: nat, isNew: bool, ghost start: State,
                    ghost steps: seq<Step>)
      returns (reply: Reply, ghost longer: seq<Step>)
      requires r < |requests| && requests[r].phase == Phase.Resolved(contact, isNew) && contact < |contacts|
      requires IsFresh(setup, Now(), requests[r].inquiry, env.made)
      requires IdOf(setup, requests[r].inquiry, env.made) !in leads && Reaches(setup, start, steps, Now())
      modifies this`leads, this`activities, this`distributed, this`requests
      ensures Reaches(setup, start, longer, Now())
      ensures requests == old(requests)[r := old(requests)[r].(phase := Replied(reply))]
      ensures SavedAs(setup, old(Now()), Now(), r, env,
                      Lead(r, contact, RowOf(setup.airports, old(requests)[r].inquiry),
                           if isNew then None else contacts[contact].owner), reply)
    {
      hide RowOf, Next, IsFresh;
      StepsOfOne(setup, Now(), r);
      reply := Failed;
      if env.ownerFails {
        longer := Enter(setup, r, Replied(reply), Fail(r), start, steps);
        return;
      }
      var agent := if isNew then None else contacts[contact].owner;
      longer := Enter(setup, r, Ready(contact, agent), ReadOwner(r), start, steps);
      if env.insert.InsertErrors? {
        StepsOfOne(setup, Now(), r);
        longer := Enter(setup, r, Replied(reply), Fail(r), start, longer);
        return;
      }
      FreshStays(setup, old(Now()), Now(), requests[r].inquiry, env.made);
      longer := InsertLead(setup, r, env, start, longer);
      if env.insert.Inserts? {
        reply := Created(requests[r].phase.id);
        longer := FinishCreated(setup, r, start, longer);
      }
    }

    /** createWebsiteFlightLead. */
    method CreateWebsiteFlightLead(setup: Setup, r: nat, env: Environment)
      returns (reply: Reply, ghost steps: seq<Step>)
      requires r < |requests| && requests[r].phase.Arrived? && IsReachable(setup.lib, requests[r].inquiry.person)
      requires IsFresh(setup, Now(), requests[r].inquiry, env.made)
      modifies this
      ensures Reaches(setup, old(Now()), steps, Now())
      ensures requests == old(requests)[r := old(requests)[r].(phase := Replied(reply))]
      ensures var q := old(requests)[r].inquiry;
              var id := IdOf(setup, q, env.made);
              if env.lookupFails then reply == Thrown && UnchangedTables(old(Now()), Now())
              else if id !in old(leads) && env.contactFails then reply == Failed && UnchangedTables(old(Now()), Now())
              else if id in old(leads) then reply == Duplicate(id) && UnchangedTables(old(Now()), Now())
              else
                && contacts == FindOrCreate(setup.lib, old(contacts), q.person)
                && exists contact: nat :: contact < |contacts| && Matches(setup.lib, contacts[contact], q.person)
                     && SavedAs(setup, old(Now()), Now(), r, env,
                                Lead(r, contact, RowOf(setup.airports, q),
                                     if contact < |old(contacts)| then old(contacts)[contact].owner else None), reply)
      ensures var q := old(requests)[r].inquiry;
              var id := IdOf(setup, q, env.made);
              id in leads && id !in old(leads) ==> HoldsInquiry(setup.airports, leads[id].row, q)
    {
      hide RowOf, HoldsInquiry, Matches, NewContact, SavedAs, HasMatch, Reaches, IsFresh, IsReachable;
      ghost var start := Now();
      var q := requests[r].inquiry;
      KeylessIdIsNew(setup, start, r, env.made);
      steps := [];
      assert Reaches(setup, start, steps, Now()) by { ReachesSelf(setup, start); }
      if env.lookupFails {
        reply := Thrown;
        steps := Enter(setup, r, Replied(reply), Fail(r), start, steps);
        return;
      }
      if q.submissionId.Some? && setup.derive(q.submissionId.value) in leads {
        reply := Duplicate(setup.derive(q.submissionId.value));
        steps := Enter(setup, r, Replied(reply), LookUp(r), start, steps);
        return;
      }
      steps := Enter(setup, r, Resolving, LookUp(r), start, steps);
      reply := Failed;
      if env.contactFails {
        steps := Enter(setup, r, Replied(reply), Fail(r), start, steps);
        return;
      }
      var contact, isNew;
      contact, isNew, steps := ResolveContact(setup, r, start, steps);
      FreshStays(setup, start, Now(), q, env.made);
      ghost var resolved := Now();
      reply, steps := SaveLead(setup, r, env, contact, isNew, start, steps);
      ghost var lead := Lead(r, contact, RowOf(setup.airports, q),
                             if contact < |start.contacts| then start.contacts[contact].owner else None);
      SavedAsFrom(setup, start, resolved, Now(), r, env, lead, reply);
      RowHoldsInquiry(setup.airports, q);
      SavedLead(setup, start, Now(), r, env, lead, reply);
    }
  }

  /**
   * What a request whose id is not taken leaves behind once its contact is known: nothing, or `lead` with its activity
   * and perhaps its distribution.
   */
  ghost predicate SavedAs(setup: Setup, s: State, s': State, r: nat, env: Environment, lead: Lead, reply: Reply)
    requires r < |s.requests|
  {
    var id := IdOf(setup, s.requests[r].inquiry, env.made);
    if env.ownerFails || env.insert.InsertErrors? then
      reply == Failed && s'.leads == s.leads && s'.activities == s.activities && s'.distributed == s.distributed
    else
      && s'.leads == s.leads[id := lead] && s'.activities == s.activities + [id]
      && (if env.insert.StoresButErrors? then reply == Failed && s'.distributed == s.distributed
          else reply == Created(id)
               && s'.distributed == if lead.agent.None? then s.distributed + [id] else s.distributed)
  }

  lemma SavedAsFrom(setup: Setup, s: State, resolved: State, s': State, r: nat, env: Environment, lead: Lead,
                    reply: Reply)
    requires r < |s.requests| && r < |resolved.requests| && resolved.requests[r].inquiry == s.requests[r].inquiry
    requires resolved.leads == s.leads && resolved.activities == s.activities && resolved.distributed == s.distributed
    requires SavedAs(setup, resolved, s', r, env, lead, reply)
    ensures SavedAs(setup, s, s', r, env, lead, reply)
  {
  }

  lemma SavedLead(setup: Setup, s: State, s': State, r: nat, env: Environment, lead: Lead, reply: Reply)
    requires r < |s.requests| && SavedAs(setup, s, s', r, env, lead, reply)
    ensures var id := IdOf(setup, s.requests[r].inquiry, env.made);
            id in s'.leads && id !in s.leads ==> s'.leads[id] == lead
  {
  }

  lemma StepsOfOne(setup: Setup, s: State, r: nat)
    requires r < |s.requests|
    ensures Enabled(setup, s, Fail(r)) && !s.requests[r].phase.Arrived? ==>
              Next(setup, s, Fail(r)) == WithPhase(s, r, Replied(Failed))
    ensures s.requests[r].phase.Resolved? && s.requests[r].phase.contact < |s.contacts| ==>
              var phase := s.requests[r].phase;
              Next(setup, s, ReadOwner(r))
              == WithPhase(s, r, Ready(phase.contact, if phase.isNew then None else s.contacts[phase.contact].owner))
  {
  }

  lemma ReachesSelf(setup: Setup, s: State)
    ensures Reaches(setup, s, [], s)
  {
  }

  lemma KeylessIdIsNew(setup: Setup, s: State, r: nat, made: string)
    requires r < |s.requests| && IsFresh(setup, s, s.requests[r].inquiry, made)
    ensures s.requests[r].inquiry.submissionId.None? ==> IdOf(setup, s.requests[r].inquiry, made) !in s.leads
  {
  }

  lemma FreshStays(setup: Setup, s: State, s': State, q: Inquiry, made: string)
    requires IsFresh(setup, s, q, made) && s'.leads == s.leads
    ensures IsFresh(setup, s', q, made)
  {
  }

  predicate UnchangedTables(s: State, s': State) {
    s' == s.(requests := s'.requests)
  }
}
