/**
 * api/admin/invite/route.ts, POST: a signed-in admin invites an email. The
 * admin is created with invited_by set to the inviter only if no admin has
 * the lower-cased email; a 24-hour magic link is issued and mailed. The
 * answer is ok whatever status the mail API replies with; only a fetch that
 * throws (the request never reaches the API) ends in a 500.
 */
module InviteRoute {
  import opened Common
  import opened Strings
  import opened Schema
  import opened Auth
  import opened Accounts
  import Db

  const LinkLifetime: int := 24 * Hour

  datatype InviteResponse =
    | InviteOk
    | Unauthorized   // 401
    | InvalidEmail   // 400
    | ServerError    // 500: an INSERT or the fetch threw and nothing catches it
  {
    function Status(): int {
      match this
      case InviteOk => 200
      case Unauthorized => 401
      case InvalidEmail => 400
      case ServerError => 500
    }
  }

  datatype InviteResult = InviteResult(response: InviteResponse, admins: seq<Admin>, links: seq<MagicLink>, nextId: nat)

  /** The handler, given the caller getAdmin found and the token generateToken produced. */
  function Invite(admins: seq<Admin>, links: seq<MagicLink>, nextId: nat, caller: Option<AdminPayload>, email: Option<string>,
                  token: string, delivery: Delivery, now: Timestamp): (r: InviteResult)
    ensures r.response == Unauthorized <==> caller.None?
    ensures r.response == InvalidEmail <==> caller.Some? && !ValidEmail(email)
    ensures r.response == Unauthorized || r.response == InvalidEmail ==> r.admins == admins && r.links == links && r.nextId == nextId
    ensures r.admins == admins
            || (caller.Some? && ValidEmail(email) && !HasEmail(admins, Lower(email.value))
                && r.admins == admins + [Admin(nextId, Lower(email.value), Some(caller.value.id), now)])
    ensures r.links == links || (|r.links| == |links| + 1 && r.links[..|links|] == links)
    ensures |r.links| == |links| + 1 ==>
              && caller.Some? && ValidEmail(email)
              && var l := r.links[|links|];
                 && l.token == token && l.expiresAt == now + LinkLifetime && l.usedAt.None? && l.createdAt == now
                 && exists i :: 0 <= i < |r.admins| && r.admins[i].id == l.adminId && r.admins[i].email == Lower(email.value)
    ensures caller.Some? && ValidEmail(email) && !HasEmail(admins, Lower(email.value))
            && CanInsertAdmin(admins, Lower(email.value), Some(caller.value.id)) ==>
              r.admins == admins + [Admin(nextId, Lower(email.value), Some(caller.value.id), now)]
    ensures caller.Some? && ValidEmail(email) && !HasEmail(admins, Lower(email.value))
            && !CanInsertAdmin(admins, Lower(email.value), Some(caller.value.id)) ==>
              r.admins == admins && r.links == links && r.nextId == nextId && r.response == ServerError
    ensures caller.Some? && ValidEmail(email) ==>
              if && (HasEmail(admins, Lower(email.value)) || CanInsertAdmin(admins, Lower(email.value), Some(caller.value.id)))
                 && !HasToken(links, token) && |token| <= TokenWidth
              then |r.links| == |links| + 1
              else r.links == links && r.response == ServerError
    ensures r.response == InviteOk <==> |r.links| == |links| + 1 && delivery != Unreachable
  {
    if caller.None? then InviteResult(Unauthorized, admins, links, nextId)
    else if !ValidEmail(email) then InviteResult(InvalidEmail, admins, links, nextId)
    else
      var pick := FindOrCreate(admins, nextId, Lower(email.value), Some(caller.value.id), now);
      if pick.adminId.None? then InviteResult(ServerError, pick.admins, links, pick.nextId)
      else
        var issue := IssueLink(links, pick.nextId, pick.adminId.value, token, now + LinkLifetime, now);
        if !issue.issued then InviteResult(ServerError, pick.admins, links, issue.nextId)
        else
          assert issue.links[..|links|] == links;
          InviteResult(if delivery == Unreachable then ServerError else InviteOk, pick.admins, issue.links, issue.nextId)
  }

  /** An invitation never rewrites an existing admin: every earlier row, its invited_by included, is kept as it was. */
  lemma InviteKeepsExistingAdmins(admins: seq<Admin>, links: seq<MagicLink>, nextId: nat, caller: Option<AdminPayload>, email: Option<string>,
                                  token: string, delivery: Delivery, now: Timestamp)
    ensures var r := Invite(admins, links, nextId, caller, email, token, delivery, now);
            |r.admins| >= |admins| && forall i :: 0 <= i < |admins| ==> r.admins[i] == admins[i]
  {
  }

  /** Inviting an existing admin creates no admin and leaves the table as it was. */
  lemma InviteOfExistingAdmin(admins: seq<Admin>, links: seq<MagicLink>, nextId: nat, caller: Option<AdminPayload>, email: Option<string>,
                              token: string, delivery: Delivery, now: Timestamp)
    requires ValidEmail(email) && HasEmail(admins, Lower(email.value))
    ensures Invite(admins, links, nextId, caller, email, token, delivery, now).admins == admins
  {
  }

  /** Invitation keeps the schema's constraints and never revives a consumed token. */
  lemma InvitePreservesConsistency(admins: seq<Admin>, links: seq<MagicLink>, elevators: seq<Elevator>, reports: seq<Report>, nextId: nat,
                                   caller: Option<AdminPayload>, email: Option<string>, token: string, delivery: Delivery, now: Timestamp)
    requires Consistent(admins, links, elevators, reports, nextId)
    ensures var r := Invite(admins, links, nextId, caller, email, token, delivery, now);
            && Consistent(r.admins, r.links, elevators, reports, r.nextId)
            && forall t :: Consumed(links, t) ==> Consumed(r.links, t)
  {
    if caller.Some? && ValidEmail(email) {
      var e := Lower(email.value);
      LowerNormalizes(email.value);
      FindOrCreatePreservesConsistency(admins, links, elevators, reports, nextId, e, Some(caller.value.id), now);
      var pick := FindOrCreate(admins, nextId, e, Some(caller.value.id), now);
      if pick.adminId.Some? {
        IssueLinkPreservesConsistency(pick.admins, links, elevators, reports, pick.nextId, pick.adminId.value, token, now + LinkLifetime, now);
        forall t | Consumed(links, t)
          ensures Consumed(IssueLink(links, pick.nextId, pick.adminId.value, token, now + LinkLifetime, now).links, t)
        {
          IssueLinkKeepsConsumed(links, pick.nextId, pick.adminId.value, token, now + LinkLifetime, now, t);
        }
      }
    }
  }

  /** POST /api/admin/invite; caller is getAdmin's result, draws the Math.random values, delivery what the mail API did. */
  method Post(store: Db.Store, caller: Option<AdminPayload>, email: Option<string>, draws: seq<real>, delivery: Delivery, now: Timestamp)
    returns (response: InviteResponse)
    requires store.Valid() && ValidDraws(draws)
    modifies store
    ensures store.Valid()
    ensures var r := Invite(old(store.admins), old(store.links), old(store.nextId), caller, email, TokenOf(draws), delivery, now);
            response == r.response && store.admins == r.admins && store.links == r.links && store.nextId == r.nextId
    ensures store.elevators == old(store.elevators) && store.reports == old(store.reports)
  {
    if caller.None? {
      return Unauthorized;
    }
    if !ValidEmail(email) {
      return InvalidEmail;
    }
    var address := Lower(email.value);
    LowerNormalizes(email.value);
    var adminId := FindOrCreateAdmin(store, address, Some(caller.value.id), now);
    if adminId.None? {
      return ServerError;
    }
    var token := GenerateToken(draws);
    var issued := InsertLink(store, adminId.value, token, now + LinkLifetime, now);
    if !issued {
      return ServerError;
    }
    // the mail API's answer is not inspected; only a rejected fetch escapes
    response := if delivery == Unreachable then ServerError else InviteOk;
  }
}
