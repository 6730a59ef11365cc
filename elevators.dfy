/**
 * api/elevators/route.ts: GET lists every elevator, newest first, each with
 * the number of its reports; POST creates an elevator owned by the caller.
 * Both need a signed-in caller.
 */
module ElevatorsRoute {
  import opened Common
  import opened Strings
  import opened Schema
  import opened Auth
  import ReportRoute
  import Db

  /** One row of the listing: the elevator's columns and report_count. */
  datatype ElevatorRow = ElevatorRow(elevator: Elevator, reportCount: nat)

  /** (SELECT COUNT(*) FROM reports r WHERE r.elevator_id = e.id). */
  function ReportCount(reports: seq<Report>, id: Id): (n: nat)
    ensures n <= |reports|
  {
    if reports == [] then 0
    else ReportCount(reports[..|reports| - 1], id) + (if reports[|reports| - 1].elevatorId == id then 1 else 0)
  }

  lemma ReportCountAppend(reports: seq<Report>, r: Report, id: Id)
    ensures ReportCount(reports + [r], id) == ReportCount(reports, id) + (if r.elevatorId == id then 1 else 0)
  {
    assert (reports + [r])[..|reports|] == reports;
  }

  /** An accepted report adds one to its elevator's report_count and leaves every other elevator's count alone; any other outcome changes no count. */
  lemma AcceptedReportIsCounted(elevators: seq<Elevator>, reports: seq<Report>, nextId: nat, req: ReportRoute.ReportRequest,
                                headers: ReportRoute.Headers, now: Timestamp, id: Id)
    ensures var r := ReportRoute.Submit(elevators, reports, nextId, req, headers, now);
            ReportCount(r.reports, id)
            == ReportCount(reports, id) + (if r.outcome == ReportRoute.Accepted && req.elevatorId.value.id == id then 1 else 0)
  {
    var r := ReportRoute.Submit(elevators, reports, nextId, req, headers, now);
    if r.outcome == ReportRoute.Accepted {
      ReportCountAppend(reports, ReportRoute.NewReport(nextId, req, headers, now), id);
    }
  }

  /** ORDER BY created_at DESC. */
  predicate NewestFirst(es: seq<Elevator>) {
    forall i, j :: 0 <= i < j < |es| ==> es[i].createdAt >= es[j].createdAt
  }

  function InsertByNewest(e: Elevator, es: seq<Elevator>): (r: seq<Elevator>)
    ensures |r| == |es| + 1
    ensures multiset(r) == multiset(es) + multiset{e}
    ensures r[0] == e || (es != [] && r[0] == es[0])
  {
    if es == [] || e.createdAt >= es[0].createdAt then [e] + es
    else
      assert es == [es[0]] + es[1..];
      [es[0]] + InsertByNewest(e, es[1..])
  }

  lemma {:induction false} InsertKeepsNewestFirst(e: Elevator, es: seq<Elevator>)
    requires NewestFirst(es)
    ensures NewestFirst(InsertByNewest(e, es))
  {
    if es != [] && e.createdAt < es[0].createdAt {
      var rest := InsertByNewest(e, es[1..]);
      InsertKeepsNewestFirst(e, es[1..]);
      assert rest[0].createdAt <= es[0].createdAt;
      var r := [es[0]] + rest;
      forall i, j | 0 <= i < j < |r| ensures r[i].createdAt >= r[j].createdAt {
        if i == 0 && j > 1 {
          assert rest[0].createdAt >= rest[j - 1].createdAt;
        }
      }
    }
  }

  /** An insertion sort standing for the database's sort; rows with equal created_at may come in any order there. */
  function SortByNewest(es: seq<Elevator>): (r: seq<Elevator>)
    ensures |r| == |es|
    ensures multiset(r) == multiset(es)
  {
    if es == [] then []
    else
      assert es == [es[0]] + es[1..];
      InsertByNewest(es[0], SortByNewest(es[1..]))
  }

  lemma {:induction false} SortIsNewestFirst(es: seq<Elevator>)
    ensures NewestFirst(SortByNewest(es))
  {
    if es != [] {
      SortIsNewestFirst(es[1..]);
      InsertKeepsNewestFirst(es[0], SortByNewest(es[1..]));
    }
  }

  function ElevatorsOf(rows: seq<ElevatorRow>): (es: seq<Elevator>)
    ensures |es| == |rows| && forall i :: 0 <= i < |rows| ==> es[i] == rows[i].elevator
  {
    if rows == [] then [] else [rows[0].elevator] + ElevatorsOf(rows[1..])
  }

  /** The result of the listing query. */
  function Listing(elevators: seq<Elevator>, reports: seq<Report>): (rows: seq<ElevatorRow>)
    ensures |rows| == |elevators|
    ensures multiset(ElevatorsOf(rows)) == multiset(elevators)
    ensures forall i, j :: 0 <= i < j < |rows| ==> rows[i].elevator.createdAt >= rows[j].elevator.createdAt
    ensures forall i :: 0 <= i < |rows| ==> rows[i].reportCount == ReportCount(reports, rows[i].elevator.id)
  {
    var sorted := SortByNewest(elevators);
    SortIsNewestFirst(elevators);
    var rows := seq(|sorted|, i requires 0 <= i < |sorted| => ElevatorRow(sorted[i], ReportCount(reports, sorted[i].id)));
    assert ElevatorsOf(rows) == sorted;
    rows
  }

  /** The listing is not scoped to the caller: every elevator of the table appears in it, whoever owns it. */
  lemma ListingShowsEveryElevator(elevators: seq<Elevator>, reports: seq<Report>, k: nat)
    requires k < |elevators|
    ensures exists i :: 0 <= i < |Listing(elevators, reports)| && Listing(elevators, reports)[i].elevator == elevators[k]
  {
    var rows := Listing(elevators, reports);
    var es := ElevatorsOf(rows);
    assert elevators[k] in multiset(elevators);
    assert elevators[k] in multiset(es);
    var i :| 0 <= i < |es| && es[i] == elevators[k];
    assert rows[i].elevator == elevators[k];
  }

  datatype ListResponse = ListUnauthorized | Rows(rows: seq<ElevatorRow>)

  /** GET /api/elevators; caller is getAdmin's result. It reads the store and changes nothing. */
  method Get(store: Db.Store, caller: Option<AdminPayload>) returns (response: ListResponse)
    ensures caller.None? ==> response == ListUnauthorized
    ensures caller.Some? ==> response == Rows(Listing(store.elevators, store.reports))
  {
    if caller.None? {
      return ListUnauthorized;
    }
    response := Rows(Listing(store.elevators, store.reports));
  }

  datatype CreateResponse =
    | CreateUnauthorized   // 401
    | NameRequired         // 400
    | CreateError          // 500: the INSERT threw
    | Created(elevator: Elevator)
  {
    function Status(): int {
      match this
      case CreateUnauthorized => 401
      case NameRequired => 400
      case CreateError => 500
      case Created(_) => 200
    }
  }

  datatype CreateResult = CreateResult(response: CreateResponse, elevators: seq<Elevator>, nextId: nat)

  /** The INSERT fails on a value longer than its column or an admin_id naming no admin. */
  predicate CanInsertElevator(admins: seq<Admin>, e: Elevator) {
    |e.name| <= NameWidth && FitsOpt(e.location, LocationWidth) && HasAdmin(admins, e.adminId)
  }

  /** The POST handler: the response and the elevators table afterwards. */
  function Create(admins: seq<Admin>, elevators: seq<Elevator>, nextId: nat, caller: Option<AdminPayload>,
                  name: Option<string>, location: Option<string>, now: Timestamp): (r: CreateResult)
    ensures r.response == CreateUnauthorized <==> caller.None?
    ensures r.response == NameRequired <==> caller.Some? && !Truthy(name)
    ensures !r.response.Created? ==> r.elevators == elevators && r.nextId == nextId
    ensures r.response.Created? ==>
              && caller.Some? && Truthy(name)
              && r.response.elevator == Elevator(nextId, name.value, OrNull(location), caller.value.id, now)
              && r.elevators == elevators + [r.response.elevator] && r.nextId == nextId + 1
    ensures r.response == CreateError <==>
              caller.Some? && Truthy(name)
              && !CanInsertElevator(admins, Elevator(nextId, name.value, OrNull(location), caller.value.id, now))
  {
    if caller.None? then CreateResult(CreateUnauthorized, elevators, nextId)
    else if !Truthy(name) then CreateResult(NameRequired, elevators, nextId)
    else
      var e := Elevator(nextId, name.value, OrNull(location), caller.value.id, now);
      if !CanInsertElevator(admins, e) then CreateResult(CreateError, elevators, nextId)
      else CreateResult(Created(e), elevators + [e], nextId + 1)
  }

  /** A new elevator is owned by the caller and a fresh row; the new elevator appears in the next listing with no reports yet. */
  lemma CreatedElevatorIsListed(admins: seq<Admin>, links: seq<MagicLink>, elevators: seq<Elevator>, reports: seq<Report>, nextId: nat,
                                caller: Option<AdminPayload>, name: Option<string>, location: Option<string>, now: Timestamp)
    requires Consistent(admins, links, elevators, reports, nextId)
    requires Create(admins, elevators, nextId, caller, name, location, now).response.Created?
    ensures var r := Create(admins, elevators, nextId, caller, name, location, now);
            var rows := Listing(r.elevators, reports);
            exists i :: 0 <= i < |rows| && rows[i].elevator == r.response.elevator && rows[i].reportCount == 0
  {
    var r := Create(admins, elevators, nextId, caller, name, location, now);
    ListingShowsEveryElevator(r.elevators, reports, |elevators|);
    forall i | 0 <= i < |reports| ensures reports[i].elevatorId != nextId {
      var k :| 0 <= k < |elevators| && elevators[k].id == reports[i].elevatorId;
    }
    NoReportsCountZero(reports, nextId);
  }

  /** An elevator no report refers to has report_count 0. */
  lemma {:induction false} NoReportsCountZero(reports: seq<Report>, id: Id)
    requires forall i :: 0 <= i < |reports| ==> reports[i].elevatorId != id
    ensures ReportCount(reports, id) == 0
  {
    if reports != [] {
      NoReportsCountZero(reports[..|reports| - 1], id);
    }
  }

  lemma CreatePreservesConsistency(admins: seq<Admin>, links: seq<MagicLink>, elevators: seq<Elevator>, reports: seq<Report>, nextId: nat,
                                   caller: Option<AdminPayload>, name: Option<string>, location: Option<string>, now: Timestamp)
    requires Consistent(admins, links, elevators, reports, nextId)
    ensures var r := Create(admins, elevators, nextId, caller, name, location, now);
            Consistent(admins, links, r.elevators, reports, r.nextId)
  {
    var r := Create(admins, elevators, nextId, caller, name, location, now);
    if r.response.Created? {
      AddElevatorKeepsConsistent(admins, links, elevators, reports, nextId, r.response.elevator);
    }
  }

  /** POST /api/elevators; caller is getAdmin's result. */
  method Post(store: Db.Store, caller: Option<AdminPayload>, name: Option<string>, location: Option<string>, now: Timestamp)
    returns (response: CreateResponse)
    requires store.Valid()
    modifies store
    ensures store.Valid()
    ensures var r := Create(old(store.admins), old(store.elevators), old(store.nextId), caller, name, location, now);
            response == r.response && store.elevators == r.elevators && store.nextId == r.nextId
    ensures store.admins == old(store.admins) && store.links == old(store.links) && store.reports == old(store.reports)
  {
    CreatePreservesConsistency(store.admins, store.links, store.elevators, store.reports, store.nextId, caller, name, location, now);
    if caller.None? {
      return CreateUnauthorized;
    }
    if !Truthy(name) {
      return NameRequired;
    }
    var e := Elevator(store.nextId, name.value, OrNull(location), caller.value.id, now);
    if !CanInsertElevator(store.admins, e) {
      return CreateError;
    }
    store.elevators := store.elevators + [e];
    store.nextId := store.nextId + 1;
    response := Created(e);
  }
}
