/**
 * api/report/route.ts, POST: the public report intake gate. A fixed-order
 * decision (honeypot, validation, elevator lookup, per-device cooldown,
 * per-address limit) that appends at most one row to the reports table.
 */
module ReportRoute {
  import opened Common
  import opened Strings
  import opened Schema
  import Db

  const ValidIssues: seq<string> := ["stopped_unexpectedly", "rumbled_occupied", "rumbled_arrival"]

  /** Reports per address accepted in the trailing hour. */
  const IpLimit: nat := 5

  /** The elevator_id the client sent: a UUID naming a row id, or some other text, which PostgreSQL cannot compare with a uuid column. */
  datatype ElevatorRef = Uuid(id: Id) | Text(text: string)

  /** The JSON body; honeypot is the truthiness of the hidden form field. */
  datatype ReportRequest = ReportRequest(elevatorId: Option<ElevatorRef>, issueType: Option<string>, deviceHash: Option<string>, honeypot: bool)

  /** The x-forwarded-for and x-real-ip request headers. */
  datatype Headers = Headers(forwardedFor: Option<string>, realIp: Option<string>)

  datatype Outcome =
    | Suppressed        // honeypot filled: answered like an acceptance, nothing stored
    | InvalidRequest    // 400
    | ElevatorNotFound  // 404
    | Cooldown          // 429 with cooldown: true
    | ServerError       // 500: a query or the insert threw
    | Accepted          // 200, one report stored
  {
    function Status(): int {
      match this
      case Suppressed => 200
      case InvalidRequest => 400
      case ElevatorNotFound => 404
      case Cooldown => 429
      case ServerError => 500
      case Accepted => 200
    }

    /** The body carries { ok: true }. */
    predicate Ok() {
      Suppressed? || Accepted?
    }
  }

  predicate RefTruthy(r: Option<ElevatorRef>) {
    r.Some? && (r.value.Uuid? || r.value.text != "")
  }

  /** The validation check: elevator_id and issue_type truthy, issue_type one of the three known issues. */
  function WellFormed(req: ReportRequest): (b: bool)
    ensures b ==> req.elevatorId.Some? && req.issueType.Some? && req.issueType.value != ""
    ensures b ==> |req.issueType.value| <= IssueTypeWidth
  {
    RefTruthy(req.elevatorId) && Truthy(req.issueType) && req.issueType.value in ValidIssues
  }

  /** The address the limit is keyed on: the first x-forwarded-for entry, trimmed; else x-real-ip; else "unknown". An empty value falls through to the next source. */
  function ClientIp(h: Headers): (ip: string)
    ensures ip != ""
    ensures h.forwardedFor.Some? && Trim(FirstField(h.forwardedFor.value)) != "" ==>
              ip == Trim(FirstField(h.forwardedFor.value)) && ',' !in ip
              && !IsJsWhitespace(ip[0]) && !IsJsWhitespace(ip[|ip| - 1])
    ensures (h.forwardedFor.None? || AllWhitespace(FirstField(h.forwardedFor.value))) ==>
              ip == (if Truthy(h.realIp) then h.realIp.value else "unknown")
  {
    var first := if h.forwardedFor.Some? then Trim(FirstField(h.forwardedFor.value)) else "";
    if first != "" then first
    else if Truthy(h.realIp) then h.realIp.value
    else "unknown"
  }

  /** created_at > NOW() - INTERVAL '1 hour'. */
  predicate IsRecent(createdAt: Timestamp, now: Timestamp) {
    createdAt > now - Hour
  }

  /** Rows of the address-limit COUNT query: same ip_address, recent. */
  predicate FromAddress(r: Report, ip: string, now: Timestamp) {
    r.ipAddress == ip && IsRecent(r.createdAt, now)
  }

  /** Rows of the device-cooldown query: same elevator, same device_hash, recent. */
  predicate FromDevice(r: Report, elevatorId: Id, device: string, now: Timestamp) {
    r.elevatorId == elevatorId && r.deviceHash == Some(device) && IsRecent(r.createdAt, now)
  }

  function RecentFromAddress(reports: seq<Report>, ip: string, now: Timestamp): (n: nat)
    ensures n <= |reports|
  {
    if reports == [] then 0
    else RecentFromAddress(reports[..|reports| - 1], ip, now) + (if FromAddress(reports[|reports| - 1], ip, now) then 1 else 0)
  }

  function RecentFromDevice(reports: seq<Report>, elevatorId: Id, device: string, now: Timestamp): (n: nat)
    ensures n <= |reports|
  {
    if reports == [] then 0
    else RecentFromDevice(reports[..|reports| - 1], elevatorId, device, now) + (if FromDevice(reports[|reports| - 1], elevatorId, device, now) then 1 else 0)
  }

  /** The device query returns a row exactly when some report matches it. */
  lemma {:induction false} RecentFromDevicePositive(reports: seq<Report>, elevatorId: Id, device: string, now: Timestamp)
    ensures RecentFromDevice(reports, elevatorId, device, now) > 0
            <==> exists i :: 0 <= i < |reports| && FromDevice(reports[i], elevatorId, device, now)
  {
    if reports != [] {
      var init := reports[..|reports| - 1];
      RecentFromDevicePositive(init, elevatorId, device, now);
      if exists i :: 0 <= i < |init| && FromDevice(init[i], elevatorId, device, now) {
        var i :| 0 <= i < |init| && FromDevice(init[i], elevatorId, device, now);
        assert reports[i] == init[i];
      }
      if exists i :: 0 <= i < |reports| && FromDevice(reports[i], elevatorId, device, now) {
        var i :| 0 <= i < |reports| && FromDevice(reports[i], elevatorId, device, now);
        if i < |init| { assert init[i] == reports[i]; }
      }
    }
  }

  lemma RecentFromAddressAppend(reports: seq<Report>, r: Report, ip: string, now: Timestamp)
    ensures RecentFromAddress(reports + [r], ip, now) == RecentFromAddress(reports, ip, now) + (if FromAddress(r, ip, now) then 1 else 0)
  {
    assert (reports + [r])[..|reports|] == reports;
  }

  lemma RecentFromDeviceAppend(reports: seq<Report>, r: Report, elevatorId: Id, device: string, now: Timestamp)
    ensures RecentFromDevice(reports + [r], elevatorId, device, now)
            == RecentFromDevice(reports, elevatorId, device, now) + (if FromDevice(r, elevatorId, device, now) then 1 else 0)
  {
    assert (reports + [r])[..|reports|] == reports;
  }

  /** The trailing window only loses rows as the clock advances. */
  lemma {:induction false} RecentFromAddressAntitone(reports: seq<Report>, ip: string, t1: Timestamp, t2: Timestamp)
    requires t1 <= t2
    ensures RecentFromAddress(reports, ip, t2) <= RecentFromAddress(reports, ip, t1)
  {
    if reports != [] {
      RecentFromAddressAntitone(reports[..|reports| - 1], ip, t1, t2);
    }
  }

  lemma {:induction false} RecentFromDeviceAntitone(reports: seq<Report>, elevatorId: Id, device: string, t1: Timestamp, t2: Timestamp)
    requires t1 <= t2
    ensures RecentFromDevice(reports, elevatorId, device, t2) <= RecentFromDevice(reports, elevatorId, device, t1)
  {
    if reports != [] {
      RecentFromDeviceAntitone(reports[..|reports| - 1], elevatorId, device, t1, t2);
    }
  }

  /** The row the INSERT INTO reports adds; created_at defaults to NOW(). */
  function NewReport(id: Id, req: ReportRequest, headers: Headers, now: Timestamp): Report
    requires WellFormed(req) && req.elevatorId.value.Uuid?
  {
    Report(id, req.elevatorId.value.id, req.issueType.value, OrNull(req.deviceHash), ClientIp(headers), now)
  }

  /** The INSERT succeeds only when every value fits its column. */
  predicate FitsColumns(r: Report) {
    |r.issueType| <= IssueTypeWidth && FitsOpt(r.deviceHash, DeviceHashWidth) && |r.ipAddress| <= IpAddressWidth
  }

  predicate DeviceCooling(reports: seq<Report>, req: ReportRequest, now: Timestamp)
    requires WellFormed(req) && req.elevatorId.value.Uuid?
  {
    Truthy(req.deviceHash) && RecentFromDevice(reports, req.elevatorId.value.id, req.deviceHash.value, now) > 0
  }

  /** The gate's verdict on one submission, in the order the handler checks. */
  function Decide(elevators: seq<Elevator>, reports: seq<Report>, req: ReportRequest, headers: Headers, now: Timestamp): (o: Outcome)
    ensures o == Suppressed <==> req.honeypot
    ensures o == InvalidRequest <==> !req.honeypot && !WellFormed(req)
    ensures o == ElevatorNotFound <==>
              && !req.honeypot && WellFormed(req) && req.elevatorId.value.Uuid?
              && !HasElevator(elevators, req.elevatorId.value.id)
    ensures o == Cooldown <==>
              && !req.honeypot && WellFormed(req) && req.elevatorId.value.Uuid?
              && HasElevator(elevators, req.elevatorId.value.id)
              && (DeviceCooling(reports, req, now) || RecentFromAddress(reports, ClientIp(headers), now) >= IpLimit)
    ensures o == ServerError <==>
              && !req.honeypot && WellFormed(req)
              && (|| req.elevatorId.value.Text?
                  || (&& HasElevator(elevators, req.elevatorId.value.id)
                      && !DeviceCooling(reports, req, now)
                      && RecentFromAddress(reports, ClientIp(headers), now) < IpLimit
                      && !FitsColumns(NewReport(0, req, headers, now))))
    ensures o == Accepted <==>
              && !req.honeypot && WellFormed(req) && req.elevatorId.value.Uuid?
              && HasElevator(elevators, req.elevatorId.value.id)
              && !DeviceCooling(reports, req, now)
              && RecentFromAddress(reports, ClientIp(headers), now) < IpLimit
              && FitsColumns(NewReport(0, req, headers, now))
  {
    if req.honeypot then Suppressed
    else if !WellFormed(req) then InvalidRequest
    else if req.elevatorId.value.Text? then ServerError
    else if !HasElevator(elevators, req.elevatorId.value.id) then ElevatorNotFound
    else if DeviceCooling(reports, req, now) then Cooldown
    else if RecentFromAddress(reports, ClientIp(headers), now) >= IpLimit then Cooldown
    else if !FitsColumns(NewReport(0, req, headers, now)) then ServerError
    else Accepted
  }

  /** A suppressed honeypot submission gets exactly the answer of an accepted one. */
  lemma SuppressedLooksAccepted()
    ensures Suppressed.Status() == Accepted.Status() && Suppressed.Ok() && Accepted.Ok()
  {
  }

  /** The state a submission leaves behind. */
  datatype Intake = Intake(outcome: Outcome, reports: seq<Report>, nextId: nat)

  /** One submission: the verdict, and exactly one new row on acceptance and none otherwise. */
  function Submit(elevators: seq<Elevator>, reports: seq<Report>, nextId: nat, req: ReportRequest, headers: Headers, now: Timestamp): (r: Intake)
    ensures r.outcome == Decide(elevators, reports, req, headers, now)
    ensures r.outcome != Accepted ==> r.reports == reports && r.nextId == nextId
    ensures r.outcome == Accepted ==>
              WellFormed(req) && req.elevatorId.value.Uuid?
              && r.reports == reports + [NewReport(nextId, req, headers, now)] && r.nextId == nextId + 1
  {
    var o := Decide(elevators, reports, req, headers, now);
    if o == Accepted then Intake(o, reports + [NewReport(nextId, req, headers, now)], nextId + 1)
    else Intake(o, reports, nextId)
  }

  /** Accepting a report keeps every constraint of the schema. */
  lemma SubmitPreservesConsistency(admins: seq<Admin>, links: seq<MagicLink>, elevators: seq<Elevator>, reports: seq<Report>, nextId: nat, req: ReportRequest, headers: Headers, now: Timestamp)
    requires Consistent(admins, links, elevators, reports, nextId)
    ensures var r := Submit(elevators, reports, nextId, req, headers, now);
            Consistent(admins, links, elevators, r.reports, r.nextId)
  {
    var r := Submit(elevators, reports, nextId, req, headers, now);
    if r.outcome == Accepted {
      var row := NewReport(nextId, req, headers, now);
      assert FitsColumns(row) by {
        assert NewReport(0, req, headers, now).(id := nextId) == row;
      }
      AddReportKeepsConsistent(admins, links, elevators, reports, nextId, row);
    }
  }

  /** A submission as it arrives at some instant. */
  datatype Submission = Submission(request: ReportRequest, headers: Headers, at: Timestamp)

  /** The reports table after the submissions are handled one after another. */
  function Run(elevators: seq<Elevator>, reports: seq<Report>, nextId: nat, subs: seq<Submission>): seq<Report>
    decreases |subs|
  {
    if subs == [] then reports
    else
      var r := Submit(elevators, reports, nextId, subs[0].request, subs[0].headers, subs[0].at);
      Run(elevators, r.reports, r.nextId, subs[1..])
  }

  predicate InTimeOrder(subs: seq<Submission>) {
    forall i, j :: 0 <= i < j < |subs| ==> subs[i].at <= subs[j].at
  }

  /** One submission never lifts an address's window count above the limit (or above what it already was). */
  lemma SubmitAddressStep(elevators: seq<Elevator>, reports: seq<Report>, nextId: nat, s: Submission, ip: string)
    ensures RecentFromAddress(Submit(elevators, reports, nextId, s.request, s.headers, s.at).reports, ip, s.at)
            <= Max(IpLimit, RecentFromAddress(reports, ip, s.at))
  {
    var r := Submit(elevators, reports, nextId, s.request, s.headers, s.at);
    if r.outcome == Accepted {
      RecentFromAddressAppend(reports, NewReport(nextId, s.request, s.headers, s.at), ip, s.at);
    }
  }

  /**
   * Five per address per hour: however many submissions arrive, in time
   * order, the reports from one address in the trailing hour of the last one
   * number at most five, unless there were already more before the first.
   */
  lemma {:induction false} AddressLimitHolds(elevators: seq<Elevator>, reports: seq<Report>, nextId: nat, subs: seq<Submission>, ip: string)
    requires subs != [] && InTimeOrder(subs)
    ensures RecentFromAddress(Run(elevators, reports, nextId, subs), ip, subs[|subs| - 1].at)
            <= Max(IpLimit, RecentFromAddress(reports, ip, subs[0].at))
    decreases |subs|
  {
    var s := subs[0];
    var r := Submit(elevators, reports, nextId, s.request, s.headers, s.at);
    SubmitAddressStep(elevators, reports, nextId, s, ip);
    if |subs| == 1 {
      assert Run(elevators, reports, nextId, subs) == Run(elevators, r.reports, r.nextId, []);
    } else {
      var rest := subs[1..];
      assert InTimeOrder(rest);
      assert s.at <= rest[0].at;
      AddressLimitHolds(elevators, r.reports, r.nextId, rest, ip);
      RecentFromAddressAntitone(r.reports, ip, s.at, rest[0].at);
      assert Run(elevators, reports, nextId, subs) == Run(elevators, r.reports, r.nextId, rest);
      assert subs[|subs| - 1] == rest[|rest| - 1];
    }
  }

  /** One submission never lifts a device's window count on an elevator above one (or above what it already was). */
  lemma SubmitDeviceStep(elevators: seq<Elevator>, reports: seq<Report>, nextId: nat, s: Submission, elevatorId: Id, device: string)
    ensures RecentFromDevice(Submit(elevators, reports, nextId, s.request, s.headers, s.at).reports, elevatorId, device, s.at)
            <= Max(1, RecentFromDevice(reports, elevatorId, device, s.at))
  {
    var r := Submit(elevators, reports, nextId, s.request, s.headers, s.at);
    if r.outcome == Accepted {
      var row := NewReport(nextId, s.request, s.headers, s.at);
      RecentFromDeviceAppend(reports, row, elevatorId, device, s.at);
      if FromDevice(row, elevatorId, device, s.at) {
        assert !DeviceCooling(reports, s.request, s.at);
      }
    }
  }

  /** One report per device per elevator per hour, over any time-ordered run of submissions. */
  lemma {:induction false} DeviceLimitHolds(elevators: seq<Elevator>, reports: seq<Report>, nextId: nat, subs: seq<Submission>, elevatorId: Id, device: string)
    requires subs != [] && InTimeOrder(subs)
    ensures RecentFromDevice(Run(elevators, reports, nextId, subs), elevatorId, device, subs[|subs| - 1].at)
            <= Max(1, RecentFromDevice(reports, elevatorId, device, subs[0].at))
    decreases |subs|
  {
    var s := subs[0];
    var r := Submit(elevators, reports, nextId, s.request, s.headers, s.at);
    SubmitDeviceStep(elevators, reports, nextId, s, elevatorId, device);
    if |subs| == 1 {
      assert Run(elevators, reports, nextId, subs) == Run(elevators, r.reports, r.nextId, []);
    } else {
      var rest := subs[1..];
      assert InTimeOrder(rest);
      assert s.at <= rest[0].at;
      DeviceLimitHolds(elevators, r.reports, r.nextId, rest, elevatorId, device);
      RecentFromDeviceAntitone(r.reports, elevatorId, device, s.at, rest[0].at);
      assert Run(elevators, reports, nextId, subs) == Run(elevators, r.reports, r.nextId, rest);
      assert subs[|subs| - 1] == rest[|rest| - 1];
    }
  }

  /** A second report from the same device on the same elevator less than an hour after an accepted one is turned away. */
  lemma RepeatWithinHourCoolsDown(elevators: seq<Elevator>, reports: seq<Report>, nextId: nat, first: Submission, second: Submission)
    requires Submit(elevators, reports, nextId, first.request, first.headers, first.at).outcome == Accepted
    requires Truthy(first.request.deviceHash)
    requires !second.request.honeypot && WellFormed(second.request)
    requires second.request.elevatorId == first.request.elevatorId && second.request.deviceHash == first.request.deviceHash
    requires first.at <= second.at < first.at + Hour
    ensures var r := Submit(elevators, reports, nextId, first.request, first.headers, first.at);
            Decide(elevators, r.reports, second.request, second.headers, second.at) == Cooldown
  {
    var r := Submit(elevators, reports, nextId, first.request, first.headers, first.at);
    var row := NewReport(nextId, first.request, first.headers, first.at);
    RecentFromDeviceAppend(reports, row, row.elevatorId, first.request.deviceHash.value, second.at);
  }

  /** Once its last report has left the trailing hour, a device may report on the elevator again, provided its address is under the limit. */
  lemma RepeatAfterHourAccepted(elevators: seq<Elevator>, reports: seq<Report>, nextId: nat, first: Submission, second: Submission)
    requires Submit(elevators, reports, nextId, first.request, first.headers, first.at).outcome == Accepted
    requires !second.request.honeypot && WellFormed(second.request)
    requires second.request.elevatorId == first.request.elevatorId && second.request.deviceHash == first.request.deviceHash
    requires second.at >= first.at + Hour
    requires Truthy(first.request.deviceHash) ==>
               RecentFromDevice(reports, first.request.elevatorId.value.id, first.request.deviceHash.value, second.at) == 0
    requires var r := Submit(elevators, reports, nextId, first.request, first.headers, first.at);
             RecentFromAddress(r.reports, ClientIp(second.headers), second.at) < IpLimit
    requires |ClientIp(second.headers)| <= IpAddressWidth
    ensures var r := Submit(elevators, reports, nextId, first.request, first.headers, first.at);
            Decide(elevators, r.reports, second.request, second.headers, second.at) == Accepted
  {
    var r := Submit(elevators, reports, nextId, first.request, first.headers, first.at);
    var req := second.request;
    var row := NewReport(nextId, first.request, first.headers, first.at);
    assert r.reports == reports + [row];
    assert req.elevatorId.value.Uuid? && HasElevator(elevators, req.elevatorId.value.id);
    if Truthy(req.deviceHash) {
      RecentFromDeviceAppend(reports, row, row.elevatorId, req.deviceHash.value, second.at);
      assert !IsRecent(row.createdAt, second.at);
    }
    assert !DeviceCooling(r.reports, req, second.at);
    var earlier := NewReport(0, first.request, first.headers, first.at);
    var probe := NewReport(0, req, second.headers, second.at);
    assert FitsColumns(earlier);
    assert probe.deviceHash == earlier.deviceHash;
    assert |probe.issueType| <= IssueTypeWidth;
    assert FitsColumns(probe);
  }

  /** POST /api/report. */
  method Post(store: Db.Store, req: ReportRequest, headers: Headers, now: Timestamp) returns (outcome: Outcome)
    requires store.Valid()
    modifies store
    ensures store.Valid()
    ensures var r := Submit(old(store.elevators), old(store.reports), old(store.nextId), req, headers, now);
            outcome == r.outcome && store.reports == r.reports && store.nextId == r.nextId
    ensures store.admins == old(store.admins) && store.links == old(store.links) && store.elevators == old(store.elevators)
  {
    SubmitPreservesConsistency(store.admins, store.links, store.elevators, store.reports, store.nextId, req, headers, now);
    ghost var expected := Submit(store.elevators, store.reports, store.nextId, req, headers, now);
    if req.honeypot {
      assert expected.outcome == Suppressed;
      return Suppressed;
    }
    if !WellFormed(req) {
      assert expected.outcome == InvalidRequest;
      return InvalidRequest;
    }
    var ref := req.elevatorId.value;
    if ref.Text? {
      // the uuid cast in the lookup query throws; the catch answers 500
      assert expected.outcome == ServerError;
      return ServerError;
    }
    if !HasElevator(store.elevators, ref.id) {
      assert expected.outcome == ElevatorNotFound;
      return ElevatorNotFound;
    }
    var ip := ClientIp(headers);
    if Truthy(req.deviceHash) {
      var recent := RecentFromDevice(store.reports, ref.id, req.deviceHash.value, now);
      if recent > 0 {
        assert DeviceCooling(store.reports, req, now);
        assert expected.outcome == Cooldown;
        return Cooldown;
      }
    }
    var count := RecentFromAddress(store.reports, ip, now);
    assert !DeviceCooling(store.reports, req, now);
    if count >= IpLimit {
      assert expected.outcome == Cooldown;
      return Cooldown;
    }
    var row := Report(store.nextId, ref.id, req.issueType.value, OrNull(req.deviceHash), ip, now);
    assert row == NewReport(store.nextId, req, headers, now);
    assert FitsColumns(row) <==> FitsColumns(NewReport(0, req, headers, now));
    if !FitsColumns(row) {
      assert expected.outcome == ServerError;
      return ServerError;
    }
    assert expected.outcome == Accepted;
    store.reports := store.reports + [row];
    store.nextId := store.nextId + 1;
    return Accepted;
  }
}
