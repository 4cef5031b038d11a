/**
 * What one request through the enforcer can and cannot lead to: the order in
 * which the checks reject, the single-audience rule, the labels that reach
 * the next handler, and the discipline of the teams cache.
 */
module EnforceProperties {
  import opened Wrappers
  import opened GoStrings
  import opened GoStrconv
  import opened Teams
  import opened Enforce

  /** Without an `X-Grafana-Id` header the answer is 401, whatever the token would have verified to; no fetch is attempted. */
  lemma MissingHeaderRejected(check: TokenCheck, entries: map<string, seq<Team>>, reply: UpstreamReply)
    ensures Handle("", check, entries, reply) == Effect(Reject(StatusUnauthorized), entries, false)
  {
  }

  /** A token that does not parse or verify is answered 401 without reading any claim or asking Grafana. */
  lemma InvalidTokenRejected(token: string, entries: map<string, seq<Team>>, reply: UpstreamReply)
    requires token != ""
    ensures Handle(token, TokenInvalid, entries, reply) == Effect(Reject(StatusUnauthorized), entries, false)
  {
  }

  /**
   * A subject of the wrong type is a 500; a subject without a colon makes the
   * handler panic, whatever the audience says. Neither touches Grafana or the cache.
   */
  lemma SubjectRule(token: string, claims: Claims, entries: map<string, seq<Team>>, reply: UpstreamReply)
    requires token != ""
    ensures claims.subject.Malformed? ==>
      Handle(token, TokenValid(claims), entries, reply) == Effect(Reject(StatusInternalServerError), entries, false)
    ensures claims.subject.Present? && ':' !in claims.subject.value ==>
      Handle(token, TokenValid(claims), entries, reply) == Effect(Panic, entries, false)
  {
  }

  /**
   * Once the subject has a colon, an audience of the wrong type or with other
   * than exactly one value is a 500, and the team fetch is not attempted.
   */
  lemma SingleAudienceRule(token: string, sub: string, aud: Claim<seq<string>>, entries: map<string, seq<Team>>, reply: UpstreamReply)
    requires token != "" && ':' in sub
    requires aud.Malformed? || |aud.value| != 1
    ensures Handle(token, TokenValid(Claims(Present(sub), aud)), entries, reply)
      == Effect(Reject(StatusInternalServerError), entries, false)
  {
  }

  /**
   * Once the subject has a colon, a single audience value without a colon
   * makes the handler panic when it takes the org field; no fetch is attempted.
   */
  lemma AudienceWithoutColonPanics(token: string, sub: string, a: string, entries: map<string, seq<Team>>, reply: UpstreamReply)
    requires token != "" && ':' in sub && ':' !in a
    ensures Handle(token, TokenValid(Claims(Present(sub), Present([a]))), entries, reply) == Effect(Panic, entries, false)
  {
    assert SecondField(sub).Some?;
  }

  /** A single audience value whose org field does not parse as an int64 is a 500. */
  lemma OrgParseFailureRejected(token: string, sub: string, a: string, entries: map<string, seq<Team>>, reply: UpstreamReply)
    requires token != "" && ':' in sub && ':' in a
    requires ParseInt(SecondField(a).value).None?
    ensures Handle(token, TokenValid(Claims(Present(sub), Present([a]))), entries, reply)
      == Effect(Reject(StatusInternalServerError), entries, false)
  {
  }

  /**
   * A request is identified only through a non-empty header, a verified token,
   * a subject whose second colon field is the user id, and exactly one
   * audience value whose second colon field parses to the org id. Multiple
   * audience values are never resolved by picking one.
   */
  lemma IdentifiedClaims(token: string, check: TokenCheck)
    requires Identify(token, check).Identified?
    ensures token != "" && check.TokenValid?
    ensures check.claims.subject.Present?
    ensures SecondField(check.claims.subject.value) == Some(Identify(token, check).userId)
    ensures check.claims.audience.Present? && |check.claims.audience.value| == 1
    ensures var orgField := SecondField(check.claims.audience.value[0]);
      orgField.Some? && ParseInt(orgField.value) == Some(Identify(token, check).orgId)
  {
  }

  /** A fetch is attempted only for an identified request whose user is not cached. */
  lemma RequestOnlyOnMiss(token: string, check: TokenCheck, entries: map<string, seq<Team>>, reply: UpstreamReply)
    ensures Handle(token, check, entries, reply).requested <==>
      Identify(token, check).Identified? && Identify(token, check).userId !in entries
  {
  }

  /** A failed team fetch is a 500; the next handler is not called. */
  lemma FetchFailureRejected(token: string, check: TokenCheck, entries: map<string, seq<Team>>, reply: UpstreamReply)
    requires Identify(token, check).Identified?
    requires FetchFor(entries, Identify(token, check).userId, reply).FetchFailed?
    ensures Handle(token, check, entries, reply).outcome == Reject(StatusInternalServerError)
  {
  }

  /**
   * The next handler is called exactly when the request is identified, the
   * teams are fetched and some team is in the claimed org; it then receives
   * the names of those teams in fetch order. With no team in the org the
   * answer is 404 instead.
   */
  lemma ForwardedLabels(token: string, check: TokenCheck, entries: map<string, seq<Team>>, reply: UpstreamReply)
    requires Identify(token, check).Identified?
    requires FetchFor(entries, Identify(token, check).userId, reply).Fetched?
    ensures var names := TeamNames(FetchFor(entries, Identify(token, check).userId, reply).teams, Identify(token, check).orgId);
      Handle(token, check, entries, reply).outcome == if names == [] then Reject(StatusNotFound) else Forward(names)
  {
  }

  /**
   * Fail closed: whatever reaches the next handler is a non-empty list of
   * names of fetched teams of the claimed org, taken in fetch order, one per
   * such team.
   */
  lemma ForwardIsScoped(token: string, check: TokenCheck, entries: map<string, seq<Team>>, reply: UpstreamReply)
    returns (teams: seq<Team>, idx: seq<nat>)
    requires Handle(token, check, entries, reply).outcome.Forward?
    ensures Identify(token, check).Identified?
    ensures FetchFor(entries, Identify(token, check).userId, reply) == Fetched(teams)
    ensures var labels := Handle(token, check, entries, reply).outcome.labels;
      && labels != []
      && NamesAt(labels, teams, idx)
      && PositionsOf(teams, Identify(token, check).orgId, idx)
  {
    var id := Identify(token, check);
    teams := FetchFor(entries, id.userId, reply).teams;
    idx := TeamNamesSelect(teams, id.orgId);
  }

  /**
   * The cache discipline of `fetchTeamsForUser`: a hit is answered from the
   * cache, whatever Grafana would say, and leaves it as it is; a failed fetch
   * leaves the cache as it is (no negative caching); a successful fetch
   * stores the full, unfiltered list under the user id and changes no other key.
   */
  lemma FetchCacheDiscipline(entries: map<string, seq<Team>>, userId: string, reply: UpstreamReply)
    ensures userId in entries ==>
      FetchFor(entries, userId, reply) == Fetched(entries[userId]) && CacheAfterFetch(entries, userId, reply) == entries
    ensures FetchFor(entries, userId, reply).FetchFailed? ==> CacheAfterFetch(entries, userId, reply) == entries
    ensures userId !in entries && FetchFor(entries, userId, reply).Fetched? ==>
      && reply == Replied(StatusOK, Some(FetchFor(entries, userId, reply).teams))
      && CacheAfterFetch(entries, userId, reply) == entries[userId := FetchFor(entries, userId, reply).teams]
  {
  }

  /**
   * Two requests for the same user in a row: once the first has fetched the
   * teams, the second is served from the cache, attempts no fetch, and
   * comes to the same outcome whatever Grafana would now answer.
   */
  lemma SecondRequestServedFromCache(token: string, check: TokenCheck, entries: map<string, seq<Team>>, reply1: UpstreamReply, reply2: UpstreamReply)
    requires Handle(token, check, entries, reply1).outcome != Reject(StatusInternalServerError)
    ensures var first := Handle(token, check, entries, reply1);
      Handle(token, check, first.cache, reply2) == Effect(first.outcome, first.cache, false)
  {
  }

  /** The token of the worked examples: subject `user:42`, single audience `org:7`. */
  function ExampleCheck(): TokenCheck
  {
    TokenValid(Claims(Present("user:42"), Present(["org:7"])))
  }

  /** The claims of a token with one audience value decide the identity through the second colon fields. */
  lemma IdentifyFromFields(token: string, sub: string, a: string, userId: string, orgField: string, orgId: int64)
    requires token != ""
    requires SecondField(sub) == Some(userId) && SecondField(a) == Some(orgField)
    requires ParseInt(orgField) == Some(orgId)
    ensures Identify(token, TokenValid(Claims(Present(sub), Present([a])))) == Identified(userId, orgId)
  {
  }

  /** The org field of the worked examples' audience is `7`. */
  lemma ExampleOrgField()
    ensures SecondField("org:7") == Some("7")
  {
    SecondFieldOf("org", "7", "");
    assert "org" + [':'] + "7" + "" == "org:7";
  }

  /** The org field `7` parses to 7. */
  lemma ExampleOrgNumber()
    ensures ParseInt("7") == Some(7)
  {
    ParseIntDecimal(7);
    assert DecimalDigits(7) == "7";
  }

  /** Any header carrying the worked examples' token identifies user `42` claiming org 7. */
  lemma ExampleIdentity(token: string)
    requires token != ""
    ensures Identify(token, ExampleCheck()) == Identified("42", 7)
  {
    SecondFieldUser();
    ExampleOrgField();
    ExampleOrgNumber();
    IdentifyFromFields(token, "user:42", "org:7", "42", "7", 7);
  }

  /** An identified request: fetch, then filter, then forward or refuse. */
  lemma HandleIdentified(token: string, check: TokenCheck, entries: map<string, seq<Team>>, reply: UpstreamReply, userId: string, orgId: int64)
    requires Identify(token, check) == Identified(userId, orgId)
    ensures Handle(token, check, entries, reply).cache == CacheAfterFetch(entries, userId, reply)
    ensures Handle(token, check, entries, reply).requested == (userId !in entries)
    ensures FetchFor(entries, userId, reply).Fetched? ==>
      var names := TeamNames(FetchFor(entries, userId, reply).teams, orgId);
      Handle(token, check, entries, reply).outcome == if names == [] then Reject(StatusNotFound) else Forward(names)
  {
  }

  /**
   * The worked example: user 42 claiming org 7, with two teams in org 7 and a
   * third in org 3, gets exactly the names of the first two, in that order;
   * the cache then holds all three teams.
   */
  lemma ScenarioOrgScoping(token: string, a: Team, b: Team, c: Team)
    requires token != ""
    requires a.orgId == 7 && b.orgId == 7 && c.orgId == 3
    ensures Handle(token, ExampleCheck(), map[], Replied(StatusOK, Some([a, b, c])))
      == Effect(Forward([a.name, b.name]), map["42" := [a, b, c]], true)
  {
    var teams := [a, b, c];
    assert TeamNames([c], 7) == [] by {
      TeamNamesCons(c, [], 7);
      assert [c] + [] == [c];
    }
    assert TeamNames([b, c], 7) == [b.name] by {
      TeamNamesCons(b, [c], 7);
      assert [b] + [c] == [b, c];
    }
    assert TeamNames(teams, 7) == [a.name, b.name] by {
      TeamNamesCons(a, [b, c], 7);
      assert [a] + [b, c] == teams;
    }
    ExampleIdentity(token);
    HandleIdentified(token, ExampleCheck(), map[], Replied(StatusOK, Some(teams)), "42", 7);
  }

  /** The same user with only a team in org 3 is refused with 404 in org 7, and that team is still cached. */
  lemma ScenarioNoTeamInOrg(token: string, c: Team)
    requires token != ""
    requires c.orgId == 3
    ensures Handle(token, ExampleCheck(), map[], Replied(StatusOK, Some([c])))
      == Effect(Reject(StatusNotFound), map["42" := [c]], true)
  {
    assert TeamNames([c], 7) == [] by {
      TeamNamesCons(c, [], 7);
      assert [c] + [] == [c];
    }
    ExampleIdentity(token);
    HandleIdentified(token, ExampleCheck(), map[], Replied(StatusOK, Some([c])), "42", 7);
  }

  /** Two audience values are a 500 even when both name the same org. */
  lemma ScenarioTwoAudiences(entries: map<string, seq<Team>>, reply: UpstreamReply)
    ensures Handle("signed", TokenValid(Claims(Present("user:42"), Present(["org:7", "org:7"]))), entries, reply)
      == Effect(Reject(StatusInternalServerError), entries, false)
  {
    SecondFieldUser();
  }
}
