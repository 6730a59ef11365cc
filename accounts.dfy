/**
 * The steps the signup and invite routes share: the email check, the
 * SELECT-then-INSERT that finds or creates an admin by lower-cased email, and
 * the INSERT of a magic link.
 */
module Accounts {
  import opened Common
  import opened Strings
  import opened Schema
  import Db

  /** What the mail API call did: answered 2xx, answered with an error status, or the fetch itself rejected. */
  datatype Delivery = Delivered | Refused | Unreachable

  /** !email || !email.includes('@') rejects the request. */
  function ValidEmail(email: Option<string>): (b: bool)
    ensures b ==> email.Some? && |email.value| > 0
    ensures b ==> |Lower(email.value)| > 0 && '@' in Lower(email.value)
  {
    if Truthy(email) then LowerKeepsAt(email.value); '@' in email.value else false
  }

  /** SELECT ... FROM admins WHERE email = $1: the position of the admin with this email. */
  function FindByEmail(admins: seq<Admin>, email: string): (r: Option<nat>)
    ensures r.Some? ==> r.value < |admins| && admins[r.value].email == email
    ensures r.None? <==> !HasEmail(admins, email)
  {
    if admins == [] then None
    else if admins[0].email == email then Some(0)
    else
      match FindByEmail(admins[1..], email)
      case Some(i) => Some(i + 1)
      case None =>
        assert forall i :: 1 <= i < |admins| ==> admins[i] == admins[1..][i - 1];
        None
  }

  /** SELECT ... FROM admins WHERE id = $1: the position of the admin with this id. */
  function FindById(admins: seq<Admin>, id: Id): (r: Option<nat>)
    ensures r.Some? ==> r.value < |admins| && admins[r.value].id == id
    ensures r.None? <==> !HasAdmin(admins, id)
  {
    if admins == [] then None
    else if admins[0].id == id then Some(0)
    else
      match FindById(admins[1..], id)
      case Some(i) => Some(i + 1)
      case None =>
        assert forall i :: 1 <= i < |admins| ==> admins[i] == admins[1..][i - 1];
        None
  }

  /** The admins table after the lookup, and the id of the admin found or created (None when the INSERT failed). */
  datatype AdminPick = AdminPick(admins: seq<Admin>, nextId: nat, adminId: Option<Id>)

  /** The INSERT fails on an email longer than the column or on an invited_by naming no admin. */
  predicate CanInsertAdmin(admins: seq<Admin>, email: string, invitedBy: Option<Id>) {
    |email| <= EmailWidth && (invitedBy.None? || HasAdmin(admins, invitedBy.value))
  }

  /** Find-or-create: an existing admin is reused untouched; otherwise one new admin with invited_by is appended, if the INSERT succeeds. */
  function FindOrCreate(admins: seq<Admin>, nextId: nat, email: string, invitedBy: Option<Id>, now: Timestamp): (r: AdminPick)
    ensures HasEmail(admins, email) ==> r.admins == admins && r.nextId == nextId && r.adminId.Some?
    ensures !HasEmail(admins, email) && CanInsertAdmin(admins, email, invitedBy) ==>
              r.admins == admins + [Admin(nextId, email, invitedBy, now)] && r.nextId == nextId + 1 && r.adminId == Some(nextId)
    ensures r.adminId.None? <==> !HasEmail(admins, email) && !CanInsertAdmin(admins, email, invitedBy)
    ensures r.adminId.None? ==> r.admins == admins && r.nextId == nextId
    ensures r.adminId.Some? ==> exists i :: 0 <= i < |r.admins| && r.admins[i].id == r.adminId.value && r.admins[i].email == email
  {
    match FindByEmail(admins, email)
    case Some(i) => AdminPick(admins, nextId, Some(admins[i].id))
    case None =>
      if CanInsertAdmin(admins, email, invitedBy) then
        var a := Admin(nextId, email, invitedBy, now);
        assert (admins + [a])[|admins|] == a;
        AdminPick(admins + [a], nextId + 1, Some(nextId))
      else AdminPick(admins, nextId, None)
  }

  /** The admin found or created is a row of the table and nothing else changes about the existing rows; with lower-cased emails the table keeps one admin per email. */
  lemma FindOrCreatePreservesConsistency(admins: seq<Admin>, links: seq<MagicLink>, elevators: seq<Elevator>, reports: seq<Report>,
                                         nextId: nat, email: string, invitedBy: Option<Id>, now: Timestamp)
    requires Consistent(admins, links, elevators, reports, nextId) && IsLowerCase(email)
    ensures var r := FindOrCreate(admins, nextId, email, invitedBy, now);
            && Consistent(r.admins, links, elevators, reports, r.nextId)
            && (r.adminId.Some? ==> HasAdmin(r.admins, r.adminId.value))
            && r.admins[..|admins|] == admins
  {
    var r := FindOrCreate(admins, nextId, email, invitedBy, now);
    if r.admins != admins {
      AddAdminKeepsConsistent(admins, links, elevators, reports, nextId, Admin(nextId, email, invitedBy, now));
    }
  }

  /** The links table after an INSERT, and whether the INSERT succeeded. */
  datatype LinkIssue = LinkIssue(links: seq<MagicLink>, nextId: nat, issued: bool)

  /** INSERT INTO magic_links: refused when the token is already present (UNIQUE) or too long for its column. */
  function IssueLink(links: seq<MagicLink>, nextId: nat, adminId: Id, token: string, expiresAt: Timestamp, now: Timestamp): (r: LinkIssue)
    ensures r.issued <==> !HasToken(links, token) && |token| <= TokenWidth
    ensures r.issued ==> r.links == links + [MagicLink(nextId, adminId, token, expiresAt, None, now)] && r.nextId == nextId + 1
    ensures !r.issued ==> r.links == links && r.nextId == nextId
  {
    if HasToken(links, token) || |token| > TokenWidth then LinkIssue(links, nextId, false)
    else LinkIssue(links + [MagicLink(nextId, adminId, token, expiresAt, None, now)], nextId + 1, true)
  }

  lemma IssueLinkPreservesConsistency(admins: seq<Admin>, links: seq<MagicLink>, elevators: seq<Elevator>, reports: seq<Report>,
                                      nextId: nat, adminId: Id, token: string, expiresAt: Timestamp, now: Timestamp)
    requires Consistent(admins, links, elevators, reports, nextId) && HasAdmin(admins, adminId)
    ensures var r := IssueLink(links, nextId, adminId, token, expiresAt, now);
            Consistent(admins, r.links, elevators, reports, r.nextId)
  {
    var r := IssueLink(links, nextId, adminId, token, expiresAt, now);
    if r.issued {
      AddLinkKeepsConsistent(admins, links, elevators, reports, nextId, MagicLink(nextId, adminId, token, expiresAt, None, now));
    }
  }

  /** A token is consumed: some link carries it and every link that carries it has been used. */
  predicate Consumed(links: seq<MagicLink>, token: string) {
    HasToken(links, token) && forall i :: 0 <= i < |links| && links[i].token == token ==> links[i].usedAt.Some?
  }

  /** The INSERT of a new link never revives a consumed token: a duplicate token is refused by the UNIQUE constraint. */
  lemma IssueLinkKeepsConsumed(links: seq<MagicLink>, nextId: nat, adminId: Id, token: string, expiresAt: Timestamp, now: Timestamp, consumed: string)
    requires Consumed(links, consumed)
    ensures Consumed(IssueLink(links, nextId, adminId, token, expiresAt, now).links, consumed)
  {
    var r := IssueLink(links, nextId, adminId, token, expiresAt, now);
    if r.issued {
      var i :| 0 <= i < |links| && links[i].token == consumed;
      assert r.links[i] == links[i];
    }
  }

  /** The SELECT and the conditional INSERT INTO admins, on the store. */
  method FindOrCreateAdmin(store: Db.Store, email: string, invitedBy: Option<Id>, now: Timestamp) returns (adminId: Option<Id>)
    requires store.Valid() && IsLowerCase(email)
    modifies store
    ensures store.Valid()
    ensures var r := FindOrCreate(old(store.admins), old(store.nextId), email, invitedBy, now);
            adminId == r.adminId && store.admins == r.admins && store.nextId == r.nextId
    ensures adminId.Some? ==> HasAdmin(store.admins, adminId.value)
    ensures store.links == old(store.links) && store.elevators == old(store.elevators) && store.reports == old(store.reports)
  {
    var admins, nextId := store.admins, store.nextId;
    FindOrCreatePreservesConsistency(admins, store.links, store.elevators, store.reports, nextId, email, invitedBy, now);
    var found := FindByEmail(admins, email);
    if found.Some? {
      return Some(admins[found.value].id);
    }
    if !CanInsertAdmin(admins, email, invitedBy) {
      return None;
    }
    store.admins, store.nextId := admins + [Admin(nextId, email, invitedBy, now)], nextId + 1;
    adminId := Some(nextId);
  }

  /** INSERT INTO magic_links, on the store. */
  method InsertLink(store: Db.Store, adminId: Id, token: string, expiresAt: Timestamp, now: Timestamp) returns (issued: bool)
    requires store.Valid() && HasAdmin(store.admins, adminId)
    modifies store
    ensures store.Valid()
    ensures var r := IssueLink(old(store.links), old(store.nextId), adminId, token, expiresAt, now);
            issued == r.issued && store.links == r.links && store.nextId == r.nextId
    ensures store.admins == old(store.admins) && store.elevators == old(store.elevators) && store.reports == old(store.reports)
  {
    IssueLinkPreservesConsistency(store.admins, store.links, store.elevators, store.reports, store.nextId, adminId, token, expiresAt, now);
    if HasToken(store.links, token) || |token| > TokenWidth {
      return false;
    }
    store.links := store.links + [MagicLink(store.nextId, adminId, token, expiresAt, None, now)];
    store.nextId := store.nextId + 1;
    issued := true;
  }
}
