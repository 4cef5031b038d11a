/**
 * The per-request pipeline of `GrafanaTeamsEnforcer`: from the `X-Grafana-Id`
 * header to either a terminal HTTP status or a single hand-off to the next
 * handler carrying the user's team names in the claimed organization.
 *
 * The signature check of the token and the HTTP exchange with Grafana are
 * foreign code; their outcomes are parameters (`TokenCheck`, `UpstreamReply`).
 */
module Enforce {
  import opened Wrappers
  import opened GoStrings
  import opened GoStrconv
  import opened Teams

  const StatusOK := 200
  const StatusUnauthorized := 401
  const StatusNotFound := 404
  const StatusInternalServerError := 500

  /** What `GetSubject` or `GetAudience` gives back: a value, or an error for a claim of the wrong JSON type. */
  datatype Claim<+T> = Present(value: T) | Malformed

  /**
   * The registered claims the enforcer reads. The JWT library reports an
   * absent `sub` as the empty string and an absent `aud` as the empty list,
   * not as errors.
   */
  datatype Claims = Claims(subject: Claim<string>, audience: Claim<seq<string>>)

  /** The outcome of `jwt.Parse`: any parse, signature or validity failure, or the verified claims. */
  datatype TokenCheck = TokenInvalid | TokenValid(claims: Claims)

  /** What Grafana's `/api/users/<id>/teams` answers, when it is asked. */
  datatype UpstreamReply =
    | RequestFailed                                   // building or sending the request failed
    | Replied(statusCode: int, body: Option<seq<Team>>) // `body` is `None` when the JSON does not decode

  /** The result of `fetchTeamsForUser`. */
  datatype FetchResult = FetchFailed | Fetched(teams: seq<Team>)

  /**
   * What the handler does with the request: answer with a status, call `next`
   * once with these label values, or panic (an index out of range in the
   * claim split; `net/http` then drops the connection).
   */
  datatype Outcome = Reject(status: int) | Forward(labels: seq<string>) | Panic

  /** The claim-handling stage: the user and org, a status, or a panic. */
  datatype Identity = Identified(userId: string, orgId: int64) | Refused(status: int) | Crashed

  /**
   * Header check, token check, subject and audience claims, in the order the
   * handler performs them; the first failing step decides.
   */
  function Identify(token: string, check: TokenCheck): Identity
  {
    if token == "" then Refused(StatusUnauthorized)
    else match check
      case TokenInvalid => Refused(StatusUnauthorized)
      case TokenValid(claims) =>
        match claims.subject
        case Malformed => Refused(StatusInternalServerError)
        case Present(sub) =>
          match SecondField(sub)
          case None => Crashed
          case Some(userId) =>
            match claims.audience
            case Malformed => Refused(StatusInternalServerError)
            case Present(aud) =>
              if |aud| != 1 then Refused(StatusInternalServerError)
              else
                match SecondField(aud[0])
                case None => Crashed
                case Some(orgField) =>
                  match ParseInt(orgField)
                  case None => Refused(StatusInternalServerError)
                  case Some(orgId) => Identified(userId, orgId)
  }

  /** The answer of `fetchTeamsForUser` given the cache contents before the call. */
  function FetchFor(entries: map<string, seq<Team>>, userId: string, reply: UpstreamReply): FetchResult
  {
    if userId in entries then Fetched(entries[userId])
    else match reply
      case RequestFailed => FetchFailed
      case Replied(code, body) =>
        if code != StatusOK || body.None? then FetchFailed else Fetched(body.value)
  }

  /** The cache contents after `fetchTeamsForUser`: only a successful upstream answer is stored. */
  function CacheAfterFetch(entries: map<string, seq<Team>>, userId: string, reply: UpstreamReply): map<string, seq<Team>>
  {
    if userId !in entries && reply.Replied? && reply.statusCode == StatusOK && reply.body.Some? then
      entries[userId := reply.body.value]
    else
      entries
  }

  /** The whole effect of one request: what the handler does, the cache afterwards, and whether a fetch was attempted. */
  datatype Effect = Effect(outcome: Outcome, cache: map<string, seq<Team>>, requested: bool)

  /** One request through the handler, from the header to the hand-off. */
  function Handle(token: string, check: TokenCheck, entries: map<string, seq<Team>>, reply: UpstreamReply): Effect
  {
    match Identify(token, check)
    case Refused(status) => Effect(Reject(status), entries, false)
    case Crashed => Effect(Panic, entries, false)
    case Identified(userId, orgId) =>
      var after := CacheAfterFetch(entries, userId, reply);
      var requested := userId !in entries;
      match FetchFor(entries, userId, reply)
      case FetchFailed => Effect(Reject(StatusInternalServerError), after, requested)
      case Fetched(teams) =>
        var names := TeamNames(teams, orgId);
        if names == [] then Effect(Reject(StatusNotFound), after, requested)
        else Effect(Forward(names), after, requested)
  }

  /** The go-cache instance shared by all requests: user id to that user's full team list. */
  class TeamsCache {
    var entries: map<string, seq<Team>>

    constructor ()
      ensures entries == map[]
    {
      entries := map[];
    }

    /** `Cache.Get`: the stored list, if any. */
    method Get(userId: string) returns (cached: Option<seq<Team>>)
      ensures cached.Some? <==> userId in entries
      ensures cached.Some? ==> cached.value == entries[userId]
    {
      cached := if userId in entries then Some(entries[userId]) else None;
    }

    /** `Cache.Set`: store (or overwrite) the list of one user. */
    method Set(userId: string, teams: seq<Team>)
      modifies this
      ensures entries == old(entries)[userId := teams]
    {
      entries := entries[userId := teams];
    }
  }

  class GrafanaTeamsEnforcer {
    const cache: TeamsCache

    constructor (cache: TeamsCache)
      ensures this.cache == cache
    {
      this.cache := cache;
    }

    /**
     * `fetchTeamsForUser`: a cached list is returned without asking Grafana;
     * otherwise one fetch is attempted and only a 200 answer whose body
     * decodes is cached and returned. `requested` says whether the fetch was attempted.
     */
    method FetchTeamsForUser(userId: string, reply: UpstreamReply) returns (result: FetchResult, requested: bool)
      modifies cache
      ensures result == FetchFor(old(cache.entries), userId, reply)
      ensures cache.entries == CacheAfterFetch(old(cache.entries), userId, reply)
      ensures requested <==> userId !in old(cache.entries)
    {
      var cached := cache.Get(userId);
      if cached.Some? {
        return Fetched(cached.value), false;
      }
      requested := true;
      match reply {
        case RequestFailed =>
          return FetchFailed, requested;
        case Replied(code, body) =>
          if code != StatusOK {
            return FetchFailed, requested;
          }
          if body.None? {
            return FetchFailed, requested;
          }
          cache.Set(userId, body.value);
          result := Fetched(body.value);
      }
    }

    /**
     * The handler built by `ExtractLabel`, applied to one request: `token` is
     * the `X-Grafana-Id` header ("" when absent), `check` what `jwt.Parse`
     * makes of it, `reply` what Grafana answers if it is asked.
     */
    method ExtractLabel(token: string, check: TokenCheck, reply: UpstreamReply) returns (outcome: Outcome, requested: bool)
      modifies cache
      ensures Effect(outcome, cache.entries, requested) == Handle(token, check, old(cache.entries), reply)
    {
      match Identify(token, check) {
        case Refused(status) =>
          return Reject(status), false;
        case Crashed =>
          return Panic, false;
        case Identified(userId, orgId) =>
          var teams;
          teams, requested := FetchTeamsForUser(userId, reply);
          if teams.FetchFailed? {
            return Reject(StatusInternalServerError), requested;
          }
          var names := FilterTeamNames(teams.teams, orgId);
          if names == [] {
            outcome := Reject(StatusNotFound);
          } else {
            outcome := Forward(names);
          }
      }
    }
  }
}
