# prom-grafana-lbac: the Grafana teams enforcer

The proxy sits in front of a Prometheus-compatible query API. It restricts
every query to the label values a Grafana user may see. `GrafanaTeamsEnforcer`
in `pkg/teams/enforce.go` is the middleware that finds those values. It works
through one request as follows:

1. It reads the Grafana ID token from the `X-Grafana-Id` header. A missing
   header is answered 401.
2. It verifies the token. An invalid token is answered 401.
3. It takes the user id from the `sub` claim (`user:42`) and the org id from
   the single `aud` value (`org:7`). Each is the field after the first colon.
4. It fetches the user's teams from Grafana, or takes them from a
   process-wide cache.
5. It keeps the names of the teams that belong to the claimed org.
6. If that list is not empty, it hands it to the next handler as the allowed
   label values. If it is empty, the answer is 404.

The model has five modules:

- `Wrappers` has `Option`.
- `GoStrings` models `strings.Split` with a one-character separator and the
  `strings.Split(s, ":")[1]` idiom as `SecondField`.
- `GoStrconv` models `strconv.ParseInt(s, 0, 64)`: sign, `0b`/`0o`/`0x`
  prefixes, leading-zero octal, underscore placement and the int64 range. It
  also models `FormatInt`, its decimal inverse.
- `Teams` has the `Team` record. It has the specification `TeamNames` of the
  org filter, and the filter loop itself as the method `FilterTeamNames`.
- `Enforce` has the handler.
  - `Identify` is the claim stage, in the order the handler runs its checks.
  - `FetchFor` and `CacheAfterFetch` specify `fetchTeamsForUser`.
  - `Handle` is the whole request: outcome, cache afterwards, and whether
    a fetch was attempted.
  - `TeamsCache` is a class whose `entries` map plays go-cache.
  - `GrafanaTeamsEnforcer` is a class whose methods `FetchTeamsForUser` and
    `ExtractLabel` update that cache in place. Their contracts tie them to
    the specification functions.

`EnforceProperties` proves what a request can lead to. It is a separate
module.

Some inputs come from code outside this model, so they are passed in as
values:

- the header value (`""` when absent);
- what `jwt.Parse` and the claim getters make of the token (`TokenCheck`);
- what Grafana would answer if it were asked (`UpstreamReply`).

A handler outcome is one of three things:

- `Reject(status)`, a terminal HTTP status;
- `Forward(labels)`, one call of the next handler with these label values;
- `Panic`, the index-out-of-range panic of `strings.Split(s, ":")[1]` on a
  claim without a colon. `net/http` recovers it and drops the connection
  without answering.

An absent `sub` is not an error: the jwt library returns it as the empty
string. So a subject that is absent or has no colon reaches
`strings.Split(sub, ":")[1]` and panics (line 56). In the same way, a single
audience value without a colon panics at line 69. In the model, both cases
make `Identify` yield `Crashed` and `Handle` yield `Panic`.

The subject is answered 500 only when it has the wrong JSON type. The
audience is answered 500 in each of these cases:

- it has the wrong JSON type;
- it is absent (the library returns an empty list);
- it has other than exactly one value;
- its org field does not parse as an int64.

## Model

| member | source | states |
|---|---|---|
| Enforce.GrafanaTeamsEnforcer.ExtractLabel | pkg/teams/enforce.go:34-96 | One request changes the outcome, the cache and the upstream flag exactly as `Handle` says. The checks run in order: header, token, subject, audience, org id, fetch, filter, 404 or hand-off. |
| Enforce.GrafanaTeamsEnforcer.FetchTeamsForUser | pkg/teams/enforce.go:98-130 | A cached list is returned and no fetch is attempted. Otherwise a fetch is attempted, and only a 200 reply whose body decodes is returned and stored. The cache then gains exactly that key. Anything else fails and leaves the cache unchanged. |
| Enforce.TeamsCache.Get | pkg/teams/enforce.go:100-102 | Found exactly when the user id is a key, and then the stored list is returned. |
| Enforce.TeamsCache.Set | pkg/teams/enforce.go:126-127 | Stores the list under the user id and changes no other entry. |
| Teams.FilterTeamNames | pkg/teams/enforce.go:81-87 | The loop's result equals `TeamNames`: the names of the teams in the org, in list order. |
| Teams.TeamNamesCons | pkg/teams/enforce.go:83-87 | Adding one team in front adds its name exactly when it is in the org. |
| Teams.TeamNamesAppend | pkg/teams/enforce.go:82-87 | Filtering a concatenation concatenates the filtered parts, so each loop iteration extends the result. |
| Teams.TeamNamesSelect | pkg/teams/enforce.go:82-87 | The filtered names are the names of the in-org teams at strictly increasing positions. Every position of an in-org team is among them, and no other position is. |
| Teams.TeamNamesEmpty | pkg/teams/enforce.go:82-92 | The name list is empty (the 404 case) exactly when no fetched team belongs to the org. |
| GoStrings.SplitLength | pkg/teams/enforce.go:56 | `Split` gives one more piece than there are separators. |
| GoStrings.SplitPiecesSepFree | pkg/teams/enforce.go:56 | No piece of a split contains the separator. |
| GoStrings.JoinSplit | pkg/teams/enforce.go:56 | Joining the pieces of a split with the separator gives back the string. |
| GoStrings.SplitJoin | pkg/teams/enforce.go:56 | Splitting a join of separator-free pieces gives back the pieces. |
| GoStrings.SplitSepFreePrefix | pkg/teams/enforce.go:56 | A separator-free prefix is glued onto the first piece of the rest. |
| GoStrings.SecondField | pkg/teams/enforce.go:56 | `strings.Split(s, ":")[1]` panics exactly when `s` has no colon. Otherwise the field holds no colon and is shorter than `s`. |
| GoStrings.SecondFieldOf | pkg/teams/enforce.go:56 | In `k:v` or `k:v:…`, with `k` and `v` colon-free, the extracted field is `v`. |
| GoStrings.SecondFieldUser | pkg/teams/enforce.go:56 | `user:42` yields user id `42`. |
| GoStrings.SecondFieldIgnoresLaterFields | pkg/teams/enforce.go:56 | `user:42:x` also yields `42`. |
| GoStrings.SecondFieldEmpty | pkg/teams/enforce.go:69 | `org:` yields the empty field, not a panic. |
| GoStrings.SecondFieldMissing | pkg/teams/enforce.go:56 | `user` and the empty subject have no second field, so the handler panics. |
| GoStrconv.DigitValue | pkg/teams/enforce.go:69 | A digit is worth less than 36. A character is a decimal digit exactly when it is worth less than 10. |
| GoStrconv.BaseOf | pkg/teams/enforce.go:69 | The base of a base-0 literal is 2, 8, 10 or 16. It is 10 exactly when the literal does not start with `0`. |
| GoStrconv.ParseInt | pkg/teams/enforce.go:69 | Success implies a non-empty literal whose unsigned part parses. |
| GoStrconv.DecimalDigits | pkg/teams/enforce.go:69 | The decimal text of a number is non-empty and all digits. It starts with `0` only for zero. |
| GoStrconv.DecimalDigitsValue | pkg/teams/enforce.go:69 | Decimal text read back in base 10 is worth the number. |
| GoStrconv.UnderscoreScanDigits | pkg/teams/enforce.go:69 | A digits-only literal always passes the underscore check. |
| GoStrconv.ParseUnsignedDecimal | pkg/teams/enforce.go:69 | The decimal text of any natural number parses back to it, without a range limit. |
| GoStrconv.ParseIntDecimal | pkg/teams/enforce.go:69 | A decimal org id parses exactly when it fits in int64. |
| GoStrconv.ParseIntNegativeDecimal | pkg/teams/enforce.go:69 | A negative decimal parses exactly down to the int64 minimum. |
| GoStrconv.ParseIntFormatInt | pkg/teams/enforce.go:69 | Every int64 written in decimal parses back to itself. |
| GoStrconv.ParseIntHex | pkg/teams/enforce.go:69 | Base 0 accepts a hexadecimal prefix: `0x2a` is 42. |
| GoStrconv.ParseIntLeadingZeroOctal | pkg/teams/enforce.go:69 | A leading zero selects octal: `010` is 8. |
| GoStrconv.ParseIntSignedBinary | pkg/teams/enforce.go:69 | A sign combines with a prefix: `-0b101` is -5. |
| GoStrconv.ParseIntUnderscores | pkg/teams/enforce.go:69 | Underscores between digits are allowed with base 0: `1_000` is 1000. |
| GoStrconv.ParseIntRejects | pkg/teams/enforce.go:69-72 | These are rejected, and so answered 500: the empty field, a lone sign, a bare prefix, a misplaced or doubled underscore, a non-digit. |
| EnforceProperties.MissingHeaderRejected | pkg/teams/enforce.go:36-41 | With no header the answer is 401 whatever the token. No fetch is attempted and the cache is unchanged. |
| EnforceProperties.InvalidTokenRejected | pkg/teams/enforce.go:43-48 | A token that fails `jwt.Parse` is answered 401. No claim is read and nothing else changes. |
| EnforceProperties.SubjectRule | pkg/teams/enforce.go:50-56 | A subject of the wrong type is answered 500. A subject without a colon panics, whatever the audience. |
| EnforceProperties.SingleAudienceRule | pkg/teams/enforce.go:58-68 | An audience of the wrong type, or with other than exactly one value, is answered 500 before any fetch. |
| EnforceProperties.AudienceWithoutColonPanics | pkg/teams/enforce.go:69 | Once the subject has a colon, a single audience value without a colon panics. No fetch is attempted and the cache is unchanged. |
| EnforceProperties.OrgParseFailureRejected | pkg/teams/enforce.go:69-73 | An org field that does not parse as int64 is answered 500 before any fetch. |
| EnforceProperties.IdentifiedClaims | pkg/teams/enforce.go:36-73 | Identification needs all of: a header, a verified token, the subject's second field as the user id, and exactly one audience value whose second field parses to the org id. |
| EnforceProperties.RequestOnlyOnMiss | pkg/teams/enforce.go:75-79 | A fetch is attempted exactly when the request is identified and its user is not cached. |
| EnforceProperties.FetchFailureRejected | pkg/teams/enforce.go:75-79 | A failed fetch is answered 500. |
| EnforceProperties.ForwardedLabels | pkg/teams/enforce.go:82-94 | After a successful fetch, the answer is 404 when no team is in the org. Otherwise the next handler gets exactly the org's team names. |
| EnforceProperties.ForwardIsScoped | pkg/teams/enforce.go:75-94 | Anything forwarded is a non-empty list of the fetched teams' names, one per in-org team, in fetch order. It contains nothing else. |
| EnforceProperties.FetchCacheDiscipline | pkg/teams/enforce.go:98-130 | On a hit the cache answers and is unchanged. A failure stores nothing. A fresh success stores the full, unfiltered list under the user id only. |
| EnforceProperties.SecondRequestServedFromCache | pkg/teams/enforce.go:75-130 | Take a first request that did not end in 500. Repeating it attempts no fetch, keeps the cache, and gives the same outcome whatever Grafana would answer. |
| EnforceProperties.HandleIdentified | pkg/teams/enforce.go:75-94 | For an identified request, the cache and the upstream flag follow `fetchTeamsForUser`. A fetched list gives 404 or the hand-off. |
| EnforceProperties.IdentifyFromFields | pkg/teams/enforce.go:51-73 | The identity is the subject's second field plus the parsed second field of the single audience value. |
| EnforceProperties.ExampleOrgField | pkg/teams/enforce.go:69 | `org:7` yields the org field `7`. |
| EnforceProperties.ExampleOrgNumber | pkg/teams/enforce.go:69 | `7` parses to org id 7. |
| EnforceProperties.ExampleIdentity | pkg/teams/enforce.go:36-73 | A verified token with subject `user:42` and audience `org:7` identifies user `42` in org 7. |
| EnforceProperties.ScenarioOrgScoping | pkg/teams/enforce.go:75-130 | The user has teams in orgs 7, 7 and 3. From an empty cache, the two org-7 names are forwarded in order and the whole list is cached under `42`. |
| EnforceProperties.ScenarioNoTeamInOrg | pkg/teams/enforce.go:82-92 | A user whose only team is in another org is answered 404. The list is still cached. |
| EnforceProperties.ScenarioTwoAudiences | pkg/teams/enforce.go:64-68 | A token with two audience values is answered 500 even when they agree. No fetch is attempted. |

## Left out

- `main.go` is not part of this model. It covers flag parsing, building the JWKS key function, the cache, the HTTP client and the reverse proxy.
- Token verification is an input. This covers `jwt.Parse` with the JWKS key function (signature, algorithm, expiry) and the JSON types of the claims. Its result is `TokenCheck`.
- The exchange with Grafana is an input: URL building, basic auth, the HTTP client and its timeout, closing the body, JSON decoding. Its result is `UpstreamReply`. A failure to build the request and a failure to send it are the same `RequestFailed`.
- Cache expiry and the janitor of go-cache are not modelled. An expired entry behaves like a missing key, and `entries` holds only live entries.
- Concurrency is not modelled. Each request runs atomically against the cache, so go-cache's internal locking and interleaved fetches for the same user are not captured.
- `injectproxy.WithLabelValues` and the call of `next` are modelled as the `Forward(labels)` outcome. The request context is not.
- Logging through `slog` and the text of error responses are not modelled. Only the status codes are.
- After a handler panic, `net/http` recovers and closes the connection. This is the single `Panic` outcome.
- `GoStrings.Split` covers only a one-character separator, the only kind the enforcer uses.
- `GoStrconv.ParseInt` yields `None` for both of Go's error kinds, syntax and range. The handler answers both with the same 500.
- GoStrconv.ParseInt: its own contract only says that success needs a non-empty literal whose digits parse. The rest of its meaning is proved in the `ParseInt…` lemmas: the decimal round trip, range limits, prefixes, underscores and rejections.
