/**
 * The `/webhook` handler: an authorization check against the optional
 * shared secret, extraction of the voter's id from the JSON body, then an
 * upsert of the vote and a best-effort role grant.
 *
 * JavaScript truthiness is modelled for the string-or-undefined values the
 * handler looks at: `undefined` is `None`, and the empty string is falsy.
 */
module Webhook {
  import opened Wrappers
  import opened Votes

  /**
   * The parts of a request the handler reads: the `Authorization` header,
   * `body.id` and `body.user?.id` (`None` when `body.user` is absent).
   */
  datatype Request = Request(authorization: Option<string>, id: Option<string>, userId: Option<string>)

  /** How the handler answers before any side effect. */
  datatype Decision = Unauthorized | MissingUserId | Accept(userId: string)

  /** What the best-effort grant step ended in; it never reaches the response. */
  datatype GrantOutcome =
    | Granted(notified: bool)  // role added; `notified` is whether the DM went through
    | RoleMissing              // the role is not in the guild's cache
    | GrantMemberNotFound      // the member fetch failed
    | GrantFailed              // adding the role threw
    | GrantGuildMissing        // no guild with the role in the cache

  /** A JavaScript string-or-undefined value is truthy when it is a non-empty string. */
  predicate Truthy(v: Option<string>)
  {
    v.Some? && v.value != ""
  }

  /**
   * The authorization check: with no secret configured (unset or empty)
   * every request passes; otherwise the header must equal the secret.
   */
  predicate Authorized(secret: Option<string>, authorization: Option<string>)
  {
    !Truthy(secret) || authorization == secret
  }

  /**
   * `body.id || body.user?.id`, kept only when truthy: a non-empty id,
   * `body.id` first and `body.user.id` as the fallback.
   */
  function ExtractUserId(req: Request): (r: Option<string>)
    ensures r.Some? <==> Truthy(req.id) || Truthy(req.userId)
    ensures r.Some? ==> r.value != "" && (r == req.id || r == req.userId)
    ensures Truthy(req.id) ==> r == req.id
  {
    if Truthy(req.id) then req.id
    else if Truthy(req.userId) then req.userId
    else None
  }

  /** The handler's decision: authorization first, then the id. */
  function Decide(secret: Option<string>, req: Request): (d: Decision)
    ensures d == Unauthorized <==> Truthy(secret) && req.authorization != secret
    ensures d == MissingUserId <==> Authorized(secret, req.authorization) && !Truthy(req.id) && !Truthy(req.userId)
    ensures d.Accept? ==> d.userId != ""
    ensures d.Accept? && Truthy(req.id) ==> Some(d.userId) == req.id
    ensures d.Accept? && !Truthy(req.id) ==> Some(d.userId) == req.userId
  {
    if !Authorized(secret, req.authorization) then Unauthorized
    else match ExtractUserId(req)
      case None => MissingUserId
      case Some(u) => Accept(u)
  }

  /** The HTTP status of each decision. */
  function StatusCode(d: Decision): int
  {
    match d
    case Unauthorized => 401
    case MissingUserId => 400
    case Accept(_) => 200
  }

  /**
   * Handles one POST: a rejected request leaves the store alone and grants
   * nothing; an accepted one upserts the voter's row and answers 200 whatever
   * the grant step does.  The status depends on the secret and the request
   * alone, never on `guildFound` or `grant`.
   */
  method HandleWebhook(store: VoteStore, secret: Option<string>, req: Request, now: int,
                       guildFound: bool, grant: string -> GrantOutcome)
    returns (status: int, granted: Option<GrantOutcome>)
    modifies store
    ensures status == StatusCode(Decide(secret, req))
    ensures status != 200 ==> store.votes == old(store.votes) && granted == None
    ensures status == 200 ==> store.votes == Upsert(old(store.votes), Decide(secret, req).userId, now)
    ensures status == 200 ==> granted == Some(if guildFound then grant(Decide(secret, req).userId) else GrantGuildMissing)
  {
    var decision := Decide(secret, req);
    if decision.Unauthorized? {
      return 401, None;
    }
    if decision.MissingUserId? {
      return 400, None;
    }
    var userId := decision.userId;
    var expiresAt := store.UpdateVote(userId, now);
    var outcome := if guildFound then grant(userId) else GrantGuildMissing;
    status, granted := 200, Some(outcome);
  }

  /** A request passes the authorization check exactly when it is not answered 401. */
  lemma AuthorizedExactlyWhenNot401(secret: Option<string>, req: Request)
    ensures Authorized(secret, req.authorization) <==> StatusCode(Decide(secret, req)) != 401
  {
  }

  /** A request with no usable id is rejected unless it was unauthorized first. */
  lemma NoIdMeansBadRequest(secret: Option<string>, req: Request)
    requires Authorized(secret, req.authorization)
    requires req.id == None || req.id == Some("")
    requires req.userId == None || req.userId == Some("")
    ensures StatusCode(Decide(secret, req)) == 400
  {
  }

  /** `body.id` wins over `body.user.id` whenever it is truthy. */
  lemma TopLevelIdTakesPrecedence(secret: Option<string>, req: Request, u: string)
    requires Authorized(secret, req.authorization)
    requires req.id == Some(u) && u != ""
    ensures Decide(secret, req) == Accept(u)
  {
  }

  /** A mismatched header is refused whenever a secret is configured, whatever the body holds. */
  lemma WrongSecretIsUnauthorized(secret: string, req: Request)
    requires secret != "" && req.authorization != Some(secret)
    ensures StatusCode(Decide(Some(secret), req)) == 401
  {
  }
}
