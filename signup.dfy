/**
 * api/auth/signup/route.ts, POST: finds or creates the admin for a
 * lower-cased email and issues a 15-minute magic link, then mails it. The
 * rows are written before the mail is sent, so a failed send keeps them.
 */
module SignupRoute {
  import opened Common
  import opened Strings
  import opened Schema
  import opened Auth
  import opened Accounts
  import Db

  const LinkLifetime: int := 15 * Minute

  datatype SignupResponse =
    | SignupOk
    | InvalidEmail   // 400
    | SendFailed     // 500 'Failed to send email'
    | ServerError    // 500 from the catch: an INSERT or the fetch threw
  {
    function Status(): int {
      match this
      case SignupOk => 200
      case InvalidEmail => 400
      case SendFailed => 500
      case ServerError => 500
    }
  }

  datatype SignupResult = SignupResult(response: SignupResponse, admins: seq<Admin>, links: seq<MagicLink>, nextId: nat)

  /** The response to the mail API's answer, once the rows are written. */
  function AfterSend(d: Delivery): (r: SignupResponse)
    ensures r != InvalidEmail
    ensures r == SignupOk <==> d == Delivered
    ensures r.Status() == 500 <==> d != Delivered
  {
    match d
    case Delivered => SignupOk
    case Refused => SendFailed
    case Unreachable => ServerError
  }

  /** The handler, given the token generateToken produced. */
  function Signup(admins: seq<Admin>, links: seq<MagicLink>, nextId: nat, email: Option<string>, token: string, delivery: Delivery, now: Timestamp): (r: SignupResult)
    ensures r.response == InvalidEmail <==> !ValidEmail(email)
    ensures r.response == InvalidEmail ==> r.admins == admins && r.links == links && r.nextId == nextId
    ensures r.admins == admins
            || (ValidEmail(email) && !HasEmail(admins, Lower(email.value)) && r.admins == admins + [Admin(nextId, Lower(email.value), None, now)])
    ensures r.links == links || (|r.links| == |links| + 1 && r.links[..|links|] == links)
    ensures ValidEmail(email) && !HasEmail(admins, Lower(email.value)) && CanInsertAdmin(admins, Lower(email.value), None) ==>
              r.admins == admins + [Admin(nextId, Lower(email.value), None, now)]
    ensures ValidEmail(email) && !HasEmail(admins, Lower(email.value)) && !CanInsertAdmin(admins, Lower(email.value), None) ==>
              r.admins == admins && r.links == links && r.nextId == nextId && r.response == ServerError
    ensures ValidEmail(email) ==>
              if && (HasEmail(admins, Lower(email.value)) || CanInsertAdmin(admins, Lower(email.value), None))
                 && !HasToken(links, token) && |token| <= TokenWidth
              then |r.links| == |links| + 1 && r.response == AfterSend(delivery)
              else r.links == links && r.response == ServerError
    ensures r.response == SignupOk <==> |r.links| == |links| + 1 && delivery == Delivered
    ensures r.response == SendFailed <==> |r.links| == |links| + 1 && delivery == Refused
    ensures r.response == SignupOk || r.response == SendFailed ==>
              && ValidEmail(email) && |r.links| == |links| + 1 && r.links[..|links|] == links
              && var l := r.links[|links|];
                 && l.token == token && l.expiresAt == now + LinkLifetime && l.usedAt.None? && l.createdAt == now
                 && exists i :: 0 <= i < |r.admins| && r.admins[i].id == l.adminId && r.admins[i].email == Lower(email.value)
  {
    if !ValidEmail(email) then SignupResult(InvalidEmail, admins, links, nextId)
    else
      var pick := FindOrCreate(admins, nextId, Lower(email.value), None, now);
      if pick.adminId.None? then SignupResult(ServerError, pick.admins, links, pick.nextId)
      else
        var issue := IssueLink(links, pick.nextId, pick.adminId.value, token, now + LinkLifetime, now);
        if !issue.issued then SignupResult(ServerError, pick.admins, links, issue.nextId)
        else
          assert issue.links[..|links|] == links;
          SignupResult(AfterSend(delivery), pick.admins, issue.links, issue.nextId)
  }

  /** Emails that differ only in letter case sign in to the same admin: the whole outcome is the same. */
  lemma SignupIgnoresCase(admins: seq<Admin>, links: seq<MagicLink>, nextId: nat, e1: string, e2: string, token: string, delivery: Delivery, now: Timestamp)
    requires SameIgnoringCase(e1, e2)
    ensures Signup(admins, links, nextId, Some(e1), token, delivery, now) == Signup(admins, links, nextId, Some(e2), token, delivery, now)
  {
    LowerEqualIff(e1, e2);
    LowerKeepsAt(e1);
    LowerKeepsAt(e2);
  }

  /** The rows written do not depend on the mail API: a failed send leaves the admin and the link in place. */
  lemma SignupWritesBeforeSending(admins: seq<Admin>, links: seq<MagicLink>, nextId: nat, email: Option<string>, token: string, d1: Delivery, d2: Delivery, now: Timestamp)
    ensures var r1 := Signup(admins, links, nextId, email, token, d1, now);
            var r2 := Signup(admins, links, nextId, email, token, d2, now);
            r1.admins == r2.admins && r1.links == r2.links && r1.nextId == r2.nextId
  {
  }

  /** Signup keeps the schema's constraints, among them one admin per (lower-cased) email, and never revives a consumed token. */
  lemma SignupPreservesConsistency(admins: seq<Admin>, links: seq<MagicLink>, elevators: seq<Elevator>, reports: seq<Report>, nextId: nat,
                                   email: Option<string>, token: string, delivery: Delivery, now: Timestamp)
    requires Consistent(admins, links, elevators, reports, nextId)
    ensures var r := Signup(admins, links, nextId, email, token, delivery, now);
            && Consistent(r.admins, r.links, elevators, reports, r.nextId)
            && forall t :: Consumed(links, t) ==> Consumed(r.links, t)
  {
    if ValidEmail(email) {
      var e := Lower(email.value);
      LowerNormalizes(email.value);
      FindOrCreatePreservesConsistency(admins, links, elevators, reports, nextId, e, None, now);
      var pick := FindOrCreate(admins, nextId, e, None, now);
      if pick.adminId.Some? {
        IssueLinkPreservesConsistency(pick.admins, links, elevators, reports, pick.nextId, pick.adminId.value, token, now + LinkLifetime, now);
        forall t | Consumed(links, t)
          ensures Consumed(IssueLink(links, pick.nextId, pick.adminId.value, token, now + LinkLifetime, now).links, t)
        {
          IssueLinkKeepsConsumed(links, pick.nextId, pick.adminId.value, token, now + LinkLifetime, now, t);
        }
      }
    }
  }

  /** POST /api/auth/signup; draws are the Math.random values generateToken consumes, delivery what the mail API did. */
  method Post(store: Db.Store, email: Option<string>, draws: seq<real>, delivery: Delivery, now: Timestamp) returns (response: SignupResponse)
    requires store.Valid() && ValidDraws(draws)
    modifies store
    ensures store.Valid()
    ensures var r := Signup(old(store.admins), old(store.links), old(store.nextId), email, TokenOf(draws), delivery, now);
            response == r.response && store.admins == r.admins && store.links == r.links && store.nextId == r.nextId
    ensures store.elevators == old(store.elevators) && store.reports == old(store.reports)
  {
    if !ValidEmail(email) {
      return InvalidEmail;
    }
    var address := Lower(email.value);
    LowerNormalizes(email.value);
    var adminId := FindOrCreateAdmin(store, address, None, now);
    if adminId.None? {
      return ServerError;
    }
    var token := GenerateToken(draws);
    var issued := InsertLink(store, adminId.value, token, now + LinkLifetime, now);
    if !issued {
      return ServerError;
    }
    response := AfterSend(delivery);
  }
}
