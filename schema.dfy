/**
 * The four tables the routes read and write, with the column widths and the
 * UNIQUE and REFERENCES constraints the schema declares.
 */
module Schema {
  import opened Common
  import opened Strings

  datatype Admin = Admin(id: Id, email: string, invitedBy: Option<Id>, createdAt: Timestamp)

  /** A magic link. usedAt is NULL until the link has been consumed. */
  datatype MagicLink = MagicLink(id: Id, adminId: Id, token: string, expiresAt: Timestamp, usedAt: Option<Timestamp>, createdAt: Timestamp)

  datatype Elevator = Elevator(id: Id, name: string, location: Option<string>, adminId: Id, createdAt: Timestamp)

  datatype Report = Report(id: Id, elevatorId: Id, issueType: string, deviceHash: Option<string>, ipAddress: string, createdAt: Timestamp)

  // Widths of the VARCHAR columns; PostgreSQL refuses an INSERT whose value is longer.
  const EmailWidth: nat := 255
  const TokenWidth: nat := 64
  const NameWidth: nat := 255
  const LocationWidth: nat := 500
  const IssueTypeWidth: nat := 50
  const DeviceHashWidth: nat := 64
  const IpAddressWidth: nat := 45

  predicate FitsOpt(s: Option<string>, width: nat) {
    s.None? || |s.value| <= width
  }

  predicate HasAdmin(admins: seq<Admin>, id: Id) {
    exists i :: 0 <= i < |admins| && admins[i].id == id
  }

  predicate HasEmail(admins: seq<Admin>, email: string) {
    exists i :: 0 <= i < |admins| && admins[i].email == email
  }

  predicate HasToken(links: seq<MagicLink>, token: string) {
    exists i :: 0 <= i < |links| && links[i].token == token
  }

  predicate HasElevator(elevators: seq<Elevator>, id: Id) {
    exists i :: 0 <= i < |elevators| && elevators[i].id == id
  }

  /** admins: primary key, email UNIQUE NOT NULL VARCHAR(255), invited_by REFERENCES admins; the routes store emails lower-cased. */
  predicate AdminsOk(admins: seq<Admin>, nextId: nat) {
    && (forall i :: 0 <= i < |admins| ==>
          admins[i].id < nextId && |admins[i].email| <= EmailWidth && IsLowerCase(admins[i].email))
    && (forall i :: 0 <= i < |admins| && admins[i].invitedBy.Some? ==> HasAdmin(admins, admins[i].invitedBy.value))
    && (forall i, j :: 0 <= i < j < |admins| ==> admins[i].id != admins[j].id && admins[i].email != admins[j].email)
  }

  /** magic_links: primary key, admin_id REFERENCES admins, token UNIQUE NOT NULL VARCHAR(64). */
  predicate LinksOk(links: seq<MagicLink>, admins: seq<Admin>, nextId: nat) {
    && (forall i :: 0 <= i < |links| ==>
          links[i].id < nextId && |links[i].token| <= TokenWidth && HasAdmin(admins, links[i].adminId))
    && (forall i, j :: 0 <= i < j < |links| ==> links[i].id != links[j].id && links[i].token != links[j].token)
  }

  /** elevators: primary key, name VARCHAR(255), location VARCHAR(500), admin_id REFERENCES admins. */
  predicate ElevatorsOk(elevators: seq<Elevator>, admins: seq<Admin>, nextId: nat) {
    && (forall i :: 0 <= i < |elevators| ==>
          elevators[i].id < nextId && |elevators[i].name| <= NameWidth
          && FitsOpt(elevators[i].location, LocationWidth) && HasAdmin(admins, elevators[i].adminId))
    && (forall i, j :: 0 <= i < j < |elevators| ==> elevators[i].id != elevators[j].id)
  }

  /** reports: primary key, elevator_id REFERENCES elevators, issue_type VARCHAR(50), device_hash VARCHAR(64), ip_address VARCHAR(45). */
  predicate ReportsOk(reports: seq<Report>, elevators: seq<Elevator>, nextId: nat) {
    && (forall i :: 0 <= i < |reports| ==>
          reports[i].id < nextId && |reports[i].issueType| <= IssueTypeWidth
          && FitsOpt(reports[i].deviceHash, DeviceHashWidth) && |reports[i].ipAddress| <= IpAddressWidth
          && HasElevator(elevators, reports[i].elevatorId))
    && (forall i, j :: 0 <= i < j < |reports| ==> reports[i].id != reports[j].id)
  }

  /** Every constraint at once; nextId is larger than every id handed out so far. */
  predicate Consistent(admins: seq<Admin>, links: seq<MagicLink>, elevators: seq<Elevator>, reports: seq<Report>, nextId: nat) {
    && AdminsOk(admins, nextId)
    && LinksOk(links, admins, nextId)
    && ElevatorsOk(elevators, admins, nextId)
    && ReportsOk(reports, elevators, nextId)
  }

  /** Adding rows keeps every reference to an existing admin valid. */
  lemma HasAdminGrows(admins: seq<Admin>, more: seq<Admin>, id: Id)
    requires HasAdmin(admins, id)
    ensures HasAdmin(admins + more, id)
  {
    var i :| 0 <= i < |admins| && admins[i].id == id;
    assert (admins + more)[i].id == id;
  }

  /** Appending a new admin with a fresh id, a new lower-cased email that fits its column, and an inviter that exists keeps every constraint. */
  lemma AddAdminKeepsConsistent(admins: seq<Admin>, links: seq<MagicLink>, elevators: seq<Elevator>, reports: seq<Report>, nextId: nat, a: Admin)
    requires Consistent(admins, links, elevators, reports, nextId)
    requires a.id == nextId && |a.email| <= EmailWidth && IsLowerCase(a.email) && !HasEmail(admins, a.email)
    requires a.invitedBy.None? || HasAdmin(admins, a.invitedBy.value)
    ensures Consistent(admins + [a], links, elevators, reports, nextId + 1)
  {
    var more := admins + [a];
    assert forall i :: 0 <= i < |admins| ==> more[i] == admins[i];
    assert more[|admins|] == a;
    forall id | HasAdmin(admins, id) ensures HasAdmin(more, id) {
      HasAdminGrows(admins, [a], id);
    }
    forall i, j | 0 <= i < j < |more| ensures more[i].id != more[j].id && more[i].email != more[j].email {
      if j == |admins| {
        assert admins[i].email != a.email;
      }
    }
    assert AdminsOk(more, nextId + 1);
    assert LinksOk(links, more, nextId + 1);
    assert ElevatorsOk(elevators, more, nextId + 1);
  }

  /** Appending a link with a fresh id and a new token that fits its column, for an existing admin, keeps every constraint. */
  lemma AddLinkKeepsConsistent(admins: seq<Admin>, links: seq<MagicLink>, elevators: seq<Elevator>, reports: seq<Report>, nextId: nat, l: MagicLink)
    requires Consistent(admins, links, elevators, reports, nextId)
    requires l.id == nextId && |l.token| <= TokenWidth && !HasToken(links, l.token) && HasAdmin(admins, l.adminId)
    ensures Consistent(admins, links + [l], elevators, reports, nextId + 1)
  {
    var more := links + [l];
    assert forall i :: 0 <= i < |links| ==> more[i] == links[i];
    assert more[|links|] == l;
    forall i, j | 0 <= i < j < |more| ensures more[i].id != more[j].id && more[i].token != more[j].token {
      if j == |links| {
        assert links[i].token != l.token;
      }
    }
    assert LinksOk(more, admins, nextId + 1);
    assert AdminsOk(admins, nextId + 1);
    assert ElevatorsOk(elevators, admins, nextId + 1);
    assert ReportsOk(reports, elevators, nextId + 1);
  }

  /** Appending an elevator with a fresh id, values that fit their columns and an existing owner keeps every constraint. */
  lemma AddElevatorKeepsConsistent(admins: seq<Admin>, links: seq<MagicLink>, elevators: seq<Elevator>, reports: seq<Report>, nextId: nat, e: Elevator)
    requires Consistent(admins, links, elevators, reports, nextId)
    requires e.id == nextId && |e.name| <= NameWidth && FitsOpt(e.location, LocationWidth) && HasAdmin(admins, e.adminId)
    ensures Consistent(admins, links, elevators + [e], reports, nextId + 1)
  {
    var more := elevators + [e];
    assert forall i :: 0 <= i < |elevators| ==> more[i] == elevators[i];
    assert more[|elevators|] == e;
    forall id | HasElevator(elevators, id) ensures HasElevator(more, id) {
      var i :| 0 <= i < |elevators| && elevators[i].id == id;
      assert more[i].id == id;
    }
    assert ElevatorsOk(more, admins, nextId + 1);
    assert AdminsOk(admins, nextId + 1);
    assert LinksOk(links, admins, nextId + 1);
    assert ReportsOk(reports, more, nextId + 1);
  }

  /** Appending a report with a fresh id, values that fit their columns and an existing elevator keeps every constraint. */
  lemma AddReportKeepsConsistent(admins: seq<Admin>, links: seq<MagicLink>, elevators: seq<Elevator>, reports: seq<Report>, nextId: nat, r: Report)
    requires Consistent(admins, links, elevators, reports, nextId)
    requires r.id == nextId && |r.issueType| <= IssueTypeWidth && FitsOpt(r.deviceHash, DeviceHashWidth)
    requires |r.ipAddress| <= IpAddressWidth && HasElevator(elevators, r.elevatorId)
    ensures Consistent(admins, links, elevators, reports + [r], nextId + 1)
  {
    var more := reports + [r];
    assert forall i :: 0 <= i < |reports| ==> more[i] == reports[i];
    assert more[|reports|] == r;
    assert ReportsOk(more, elevators, nextId + 1);
    assert AdminsOk(admins, nextId + 1);
    assert LinksOk(links, admins, nextId + 1);
    assert ElevatorsOk(elevators, admins, nextId + 1);
  }
}
