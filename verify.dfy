/**
 * api/auth/verify/route.ts, GET: consumes a magic link. A token is accepted
 * only if some link carries it, has not expired and has not been used; it is
 * then marked used and a 30-day session is issued for the link's admin.
 */
module VerifyRoute {
  import opened Common
  import opened Strings
  import opened Schema
  import opened Auth
  import opened Accounts
  import Db

  /** The session cookie: the JWT's payload and the cookie's attributes (secure only in production). */
  datatype SessionCookie = SessionCookie(payload: AdminPayload, maxAge: int, httpOnly: bool, secure: bool, sameSite: string, path: string)

  datatype VerifyResponse =
    | RedirectInvalid     // no token in the query string
    | RedirectExpired     // no usable link with that token
    | SignedIn(cookie: SessionCookie)
  {
    function Location(): string {
      match this
      case RedirectInvalid => "/admin/login?error=invalid"
      case RedirectExpired => "/admin/login?error=expired"
      case SignedIn(_) => "/admin"
    }
  }

  datatype VerifyResult = VerifyResult(response: VerifyResponse, links: seq<MagicLink>)

  /** The WHERE clause of the lookup: this token, expires_at > NOW(), used_at IS NULL. */
  predicate Usable(l: MagicLink, token: string, now: Timestamp) {
    l.token == token && l.expiresAt > now && l.usedAt.None?
  }

  /** A usable link that also survives the JOIN with admins. */
  predicate Joinable(admins: seq<Admin>, l: MagicLink, token: string, now: Timestamp) {
    Usable(l, token, now) && HasAdmin(admins, l.adminId)
  }

  predicate HasUsable(admins: seq<Admin>, links: seq<MagicLink>, token: string, now: Timestamp) {
    exists i :: 0 <= i < |links| && Joinable(admins, links[i], token, now)
  }

  /** The first row the lookup query returns. */
  function FindUsable(admins: seq<Admin>, links: seq<MagicLink>, token: string, now: Timestamp): (r: Option<nat>)
    ensures r.Some? ==> r.value < |links| && Joinable(admins, links[r.value], token, now)
    ensures r.None? <==> !HasUsable(admins, links, token, now)
  {
    if links == [] then None
    else if Joinable(admins, links[0], token, now) then Some(0)
    else
      match FindUsable(admins, links[1..], token, now)
      case Some(i) => Some(i + 1)
      case None =>
        assert forall i :: 1 <= i < |links| ==> links[i] == links[1..][i - 1];
        None
  }

  /** UPDATE magic_links SET used_at = NOW() WHERE token = $1: every row with the token is stamped, no other row changes. */
  function MarkUsed(links: seq<MagicLink>, token: string, now: Timestamp): (r: seq<MagicLink>)
    ensures |r| == |links|
    ensures forall i :: 0 <= i < |links| ==>
              r[i] == if links[i].token == token then links[i].(usedAt := Some(now)) else links[i]
  {
    if links == [] then []
    else [if links[0].token == token then links[0].(usedAt := Some(now)) else links[0]] + MarkUsed(links[1..], token, now)
  }

  function Session(admins: seq<Admin>, l: MagicLink, production: bool): (c: SessionCookie)
    requires HasAdmin(admins, l.adminId)
    ensures c.payload.id == l.adminId
    ensures exists j :: 0 <= j < |admins| && admins[j].id == l.adminId && admins[j].email == c.payload.email
    ensures c.maxAge == SessionLifetime && c.httpOnly && c.secure == production
    ensures c.sameSite == "lax" && c.path == "/"
  {
    var a := FindById(admins, l.adminId).value;
    SessionCookie(AdminPayload(l.adminId, admins[a].email), SessionLifetime, true, production, "lax", "/")
  }

  /** The handler: the response and the magic_links table afterwards. */
  function Verify(admins: seq<Admin>, links: seq<MagicLink>, token: Option<string>, now: Timestamp, production: bool): (r: VerifyResult)
    ensures r.response == RedirectInvalid <==> !Truthy(token)
    ensures Truthy(token) && !HasUsable(admins, links, token.value, now) ==> r.response == RedirectExpired
    ensures r.response.SignedIn? <==> Truthy(token) && HasUsable(admins, links, token.value, now)
    ensures r.response.Location() ==
              if !Truthy(token) then "/admin/login?error=invalid"
              else if HasUsable(admins, links, token.value, now) then "/admin"
              else "/admin/login?error=expired"
    ensures !r.response.SignedIn? ==> r.links == links
    ensures r.response.SignedIn? ==> r.links == MarkUsed(links, token.value, now)
    ensures r.response.SignedIn? ==>
              var c := r.response.cookie;
              && c.maxAge == SessionLifetime && c.httpOnly && c.path == "/" && c.sameSite == "lax" && c.secure == production
              && exists i, j :: 0 <= i < |links| && 0 <= j < |admins| && Joinable(admins, links[i], token.value, now)
                                && links[i].adminId == c.payload.id && admins[j].id == c.payload.id && admins[j].email == c.payload.email
  {
    if !Truthy(token) then VerifyResult(RedirectInvalid, links)
    else
      match FindUsable(admins, links, token.value, now)
      case None => VerifyResult(RedirectExpired, links)
      case Some(i) =>
        var c := Session(admins, links[i], production);
        assert admins[FindById(admins, links[i].adminId).value].id == c.payload.id;
        VerifyResult(SignedIn(c), MarkUsed(links, token.value, now))
  }

  /** A successful verify consumes its token. */
  lemma VerifyConsumes(admins: seq<Admin>, links: seq<MagicLink>, token: Option<string>, now: Timestamp, production: bool)
    requires Verify(admins, links, token, now, production).response.SignedIn?
    ensures Consumed(Verify(admins, links, token, now, production).links, token.value)
  {
    var r := Verify(admins, links, token, now, production).links;
    var i := FindUsable(admins, links, token.value, now).value;
    assert r[i].token == token.value;
  }

  /** A consumed token is refused at any later time, and stays consumed. */
  lemma ConsumedIsRefused(admins: seq<Admin>, links: seq<MagicLink>, token: string, now: Timestamp, production: bool)
    requires Consumed(links, token)
    ensures !Verify(admins, links, Some(token), now, production).response.SignedIn?
    ensures token != "" ==> Verify(admins, links, Some(token), now, production).response == RedirectExpired
    ensures Verify(admins, links, Some(token), now, production).links == links
  {
  }

  /** Single use: after a successful verify, verifying the same token again always fails. */
  lemma SingleUse(admins: seq<Admin>, links: seq<MagicLink>, token: Option<string>, now1: Timestamp, now2: Timestamp, production: bool)
    requires Verify(admins, links, token, now1, production).response.SignedIn?
    ensures Verify(admins, Verify(admins, links, token, now1, production).links, token, now2, production).response == RedirectExpired
  {
    VerifyConsumes(admins, links, token, now1, production);
    ConsumedIsRefused(admins, Verify(admins, links, token, now1, production).links, token.value, now2, production);
  }

  /** A freshly issued link signs its admin in at any time before its expiry and at none after. */
  lemma FreshLinkUsableUntilExpiry(admins: seq<Admin>, links: seq<MagicLink>, nextId: nat, adminId: Id, token: string,
                                   expiresAt: Timestamp, now: Timestamp, t: Timestamp, production: bool)
    requires token != ""
    requires IssueLink(links, nextId, adminId, token, expiresAt, now).issued && HasAdmin(admins, adminId)
    ensures var after := IssueLink(links, nextId, adminId, token, expiresAt, now).links;
            Verify(admins, after, Some(token), t, production).response.SignedIn? <==> t < expiresAt
  {
    var after := IssueLink(links, nextId, adminId, token, expiresAt, now).links;
    var added := after[|links|];
    assert added.token == token && added.expiresAt == expiresAt && added.usedAt.None? && added.adminId == adminId;
    assert forall i :: 0 <= i < |links| ==> after[i] == links[i];
    if t < expiresAt {
      assert Joinable(admins, after[|links|], token, t);
    } else {
      forall i | 0 <= i < |after| ensures !Joinable(admins, after[i], token, t) {
        if i < |links| {
          assert !(links[i].token == token);
        }
      }
    }
  }

  /** With tokens unique, the session names the admin who owns the link carrying the token. */
  lemma SessionOfLinkOwner(admins: seq<Admin>, links: seq<MagicLink>, elevators: seq<Elevator>, reports: seq<Report>, nextId: nat,
                           token: Option<string>, now: Timestamp, production: bool, k: nat)
    requires Consistent(admins, links, elevators, reports, nextId)
    requires Verify(admins, links, token, now, production).response.SignedIn?
    requires k < |links| && links[k].token == token.value
    ensures var p := Verify(admins, links, token, now, production).response.cookie.payload;
            p.id == links[k].adminId && exists j :: 0 <= j < |admins| && admins[j].id == p.id && admins[j].email == p.email
  {
    var i := FindUsable(admins, links, token.value, now).value;
    assert links[i].token == links[k].token;
    assert i == k;
    var a := FindById(admins, links[i].adminId).value;
    assert admins[a].id == links[k].adminId;
  }

  /** Marking a link used keeps every constraint of the schema. */
  lemma VerifyPreservesConsistency(admins: seq<Admin>, links: seq<MagicLink>, elevators: seq<Elevator>, reports: seq<Report>, nextId: nat,
                                   token: Option<string>, now: Timestamp, production: bool)
    requires Consistent(admins, links, elevators, reports, nextId)
    ensures Consistent(admins, Verify(admins, links, token, now, production).links, elevators, reports, nextId)
    ensures forall t :: Consumed(links, t) ==> Consumed(Verify(admins, links, token, now, production).links, t)
  {
    if Truthy(token) {
      MarkUsedKeepsLinksOk(links, admins, nextId, token.value, now);
      forall t | Consumed(links, t) ensures Consumed(MarkUsed(links, token.value, now), t) {
        MarkUsedKeepsConsumed(links, token.value, now, t);
      }
    }
  }

  /** Stamping one token's rows leaves every other row as it was, so a token already consumed stays consumed. */
  lemma MarkUsedKeepsConsumed(links: seq<MagicLink>, token: string, now: Timestamp, t: string)
    requires Consumed(links, t)
    ensures Consumed(MarkUsed(links, token, now), t)
  {
    var r := MarkUsed(links, token, now);
    var k :| 0 <= k < |links| && links[k].token == t;
    assert r[k].token == t;
  }

  /** Stamping used_at changes no id, token or admin_id, so every constraint on the links table survives it. */
  lemma MarkUsedKeepsLinksOk(links: seq<MagicLink>, admins: seq<Admin>, nextId: nat, token: string, now: Timestamp)
    requires LinksOk(links, admins, nextId)
    ensures LinksOk(MarkUsed(links, token, now), admins, nextId)
  {
    var r := MarkUsed(links, token, now);
    forall i | 0 <= i < |r| ensures r[i].id < nextId && |r[i].token| <= TokenWidth && HasAdmin(admins, r[i].adminId) {
      assert r[i].id == links[i].id && r[i].token == links[i].token && r[i].adminId == links[i].adminId;
    }
    forall i, j | 0 <= i < j < |r| ensures r[i].id != r[j].id && r[i].token != r[j].token {
      assert r[i].id == links[i].id && r[i].token == links[i].token;
      assert r[j].id == links[j].id && r[j].token == links[j].token;
    }
  }

  /** GET /api/auth/verify?token=... */
  method Get(store: Db.Store, token: Option<string>, now: Timestamp, production: bool) returns (response: VerifyResponse)
    requires store.Valid()
    modifies store
    ensures store.Valid()
    ensures var r := Verify(old(store.admins), old(store.links), token, now, production);
            response == r.response && store.links == r.links
    ensures store.admins == old(store.admins) && store.elevators == old(store.elevators)
    ensures store.reports == old(store.reports) && store.nextId == old(store.nextId)
  {
    VerifyPreservesConsistency(store.admins, store.links, store.elevators, store.reports, store.nextId, token, now, production);
    if !Truthy(token) {
      return RedirectInvalid;
    }
    var row := FindUsable(store.admins, store.links, token.value, now);
    if row.None? {
      return RedirectExpired;
    }
    var link := store.links[row.value];
    store.links := MarkUsed(store.links, token.value, now);
    response := SignedIn(Session(store.admins, link, production));
  }
}
