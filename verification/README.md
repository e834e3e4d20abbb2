# Threat-intelligence platform: verified core

A Dafny model of the parts of the platform whose behaviour is hand-written and
subtle, with proofs about every input, every run and every interleaving. Two
kinds of code are covered.

**Text that has to survive a transformation.** Defanging and the fifteen ordered
refang rules; the passes that claim spans of a document; the LIKE pattern of a
search; the STIX pattern exporter and the reader of its bundles. They all share
`Text.dfy`: one leftmost, non-overlapping replacement over tokens made of
character classes, with lemmas on what overlapping tokens can and cannot do to
one another.

**State machines that keep a summary of their past.** The login throttle with
and without Redis, the rate limiter and the proxy-aware client address that
selects its bucket, the circuit breaker with the retry inside it, token
revocation and rotation, the drop-oldest event bus, the indicator store, and the
guard on the last admin. Each is an imperative class tied to a step function;
the run theorems compare the state after any run with the full history of that
run, and derive the bound the component is there for. `Windows.dfy` holds the
counting argument the bounds share.

The scoring engine stands beside them, over exact reals.

`dafny verify dfyconfig.toml` checks the whole project. No proof depends on
Dafny's automatic induction: inductive lemmas spell theirs out, and lemmas that
take a function value switch it off, because Dafny can derive anything from an
induction hypothesis over function values.

## Where to start

| file | main results |
|---|---|
| `Indicators.dfy`, `Spellings.dfy` | `RoundTripIff`, `RoundTrip`, `RefangFixedIff`, `DefangedIsSafe`, one lemma for each spelling |
| `Extract.dfy`, `Harvest.dfy`, `DocumentOrder.dfy` | `EachSpanOnce`, `HarvestSound`, `CandidateOrderIff`, `ReturnedOrderIff` |
| `LikeSearch.dfy`, `Escaping.dfy` | `LiteralSearch`, `Filtered`, `EscapeInjective` |
| `Stix.dfy` | `OneLiteral`, `UnescapeIff`, `EqualPatternsIff`, `BundleRoundTrip` |
| `Throttle.dfy`, `LoginRuns.dfy`, `FleetRuns.dfy` | `ReplicaBound`, `FleetBound`, `RefusedIsEarned`, `FleetLockIsEarned` |
| `RateLimiter.dfy`, `ClientIp.dfy` | `DecidesAsRule`, `AtMostLimit`, `AdmittedAgainIff`, `ForgeryIsVainIff`, `ForgeryBuysNothing`, `ForgeryEscapesLimit` |
| `Resilience.dfy` | `AdmittedIff`, `OutageBound`, `OutageRequests` |
| `Events.dfy` | `FeedIsLogReader`, `ReceivedThenQueued`, `FeedsAreIndependent` |
| `Tokens.dfy` | `RejectedIff`, `RevokedTokenRevivesIff`, `LogoutLasts`, `OneUsableIff`, `WholeSecondsOneUsable`, `TwoUsable` |
| `IocStore.dfy` | `TableIsHistory`, `SightingsConserved`, `RerunHitsItsRow`, `RerunMissesItsRow` |
| `Scoring.dfy` | `ScoreMonotone`, `OnOffScore`, `ContributionsExplainScore` |
| `Accounts.dfy`, `AuthService.dfy` | `AlwaysAnAdmin`, `NobodyBecomesAdmin`, `GuardIsExact`, the service methods |

## What the code does that its promise does not say

- A value without any refang token can still be changed by defanging and
  refanging: `httpS` becomes `hxxpS`, which the case-insensitive `hxxps` rule
  turns into `https`. `RoundTripIff` gives the exact class of values that come
  back. It is larger than the documented one in the other direction: `[.]` and
  `[://]` inside a value are harmless.
- The STIX reader takes back the escape of a quote but not that of a backslash,
  so a value comes back from its own pattern exactly when it holds no backslash.
- A result limit below one still returns one indicator: the limit is looked at
  only after something was found (`LimitKeptIff`).
- The time to live of a revocation is truncated to whole seconds, so a revoked
  token is accepted again in its last second, unless it was revoked on a whole
  second or with at most a second left. A refresh token presented a second time
  in that second leaves two usable tokens of one login (`TwoUsable`).
  `OneUsableIff` says exactly when that happens before the margin, and `WholeSecondsOneUsable` that
  it never does on a clock of whole seconds.
- The guard on the last admin also refuses to demote or deactivate an admin who
  is already deactivated, as long as exactly one active admin exists.
- Extraction is documented to return indicators in the order of the document. It
  returns them in the order of the passes: from `evil.com http://a.com` first the
  URL, then the domain (`OrderIsNotKept`). `CandidateOrderIff` says when the two
  orders agree, and `ReturnedOrderIff` carries that to the returned values.
- Behind a trusted proxy, a client whose own address lies in a trusted network can
  write any address in front of the header and is taken for it, with a new
  rate-limit bucket each time (`ForgedHopTaken`, `ForgeryEscapesLimit`).
  `ForgeryIsVainIff` says that this is the only case.
- A client that returns after exactly the number of seconds in `Retry-After` is
  always rejected again; the advertised number is one too small.
- The scoring weights are documented as not needing to add up to one. They do, so
  the weighted average is the weighted sum.
- A re-run submits the stored value anew and therefore updates the row it was
  asked for exactly when the value still classifies as that row's type and value.
  The URL `http://a.com/[[.]]` is stored as `http://a.com/[.]`, and a re-run of that
  makes a second row.

## Model

| member | source | states |
|---|---|---|
| Text.CountsOccurrences | app/ioc/indicators.py:50 | a replacement pass is the identity when the token does not occur, and makes a replacement otherwise |
| Text.OccursThrough | app/ioc/indicators.py:45-50 | a pass neither creates nor destroys an occurrence of a token that can overlap neither what is replaced nor the replacement |
| Text.NoneLeft | app/ioc/indicators.py:45-50 | nothing is left of a replaced token when it cannot overlap its replacement |
| Text.Commute | app/ioc/indicators.py:45-50 | two passes that share no characters can be made in either order |
| Text.Inverse | app/ioc/indicators.py:45-59 | replacing back restores every text that did not already hold the inserted token |
| Text.InverseBracketed | app/ioc/indicators.py:26-33 | bracketing is always undone, even in a text that already holds the bracketed form |
| Text.StripTrims | app/ioc/indicators.py:43-51 | stripping leaves no outer whitespace, and changes nothing exactly when there is none |
| Indicators.Refang | app/ioc/indicators.py:41-51 | the loop over the table applies the fifteen rules in order to the stripped value, scheme rules in any letter case, and strips the result |
| Indicators.Defang | app/ioc/indicators.py:54-60 | the display form by the four replacements in their order, which refanging takes back if and only if the value survives |
| Indicators.SchemesIff | app/ioc/indicators.py:22-25 | the three scheme rules restore the schemes exactly when the value held neither `hxxp` nor `fxp` in any case, nor `http` before an `s` that only matches when case is ignored |
| Indicators.NoSchemeLeft | app/ioc/indicators.py:22-25 | none of those forms is left after the three scheme rules |
| Indicators.BracketsIff | app/ioc/indicators.py:26-38 | the remaining rules restore a bracketed text exactly when it held none of their tokens other than `[.]` and `[://]`, and otherwise leave it shorter |
| Indicators.RoundTripIff | app/ioc/indicators.py:22-60 | refanging a defanged value returns it if and only if it has no outer whitespace, no defanged scheme, no `http` before a capital S, and no literal token other than `[.]` and `[://]` |
| Indicators.RoundTrip | app/ioc/indicators.py:54-60 | the documented promise: a trimmed value without any of the fifteen tokens comes back, with the one exception it needs |
| Indicators.CapitalSIsLost | app/ioc/indicators.py:46-48 | the exception is real: `httpS` does not come back |
| Indicators.NoTokenInHttpS | app/ioc/indicators.py:22-38 | and it holds none of the fifteen tokens |
| Indicators.RefangFixedIff | app/ioc/indicators.py:41-51 | refanging leaves a value as it is if and only if it is trimmed and holds none of the fifteen tokens |
| Indicators.RefangTwice | app/ioc/indicators.py:41-51 | refanging is not idempotent: a URL whose refanged form holds a token, which refanging again takes away |
| Spellings.LiteralSpelling | app/ioc/indicators.py:26-38 | each literal token between plain texts becomes its replacement, and nothing else changes |
| Spellings.BracketedDot | app/ioc/indicators.py:26 | `u[.]v` is refanged to `u.v`, for all plain texts u and v |
| Spellings.ParenthesisedDot | app/ioc/indicators.py:27 | `u(.)v` to `u.v` |
| Spellings.BracedDot | app/ioc/indicators.py:28 | `u{.}v` to `u.v` |
| Spellings.BracketedDotWord | app/ioc/indicators.py:29 | `u[dot]v` to `u.v` |
| Spellings.ParenthesisedDotWord | app/ioc/indicators.py:30 | `u(dot)v` to `u.v` |
| Spellings.SpacedDotWord | app/ioc/indicators.py:31 | `u dot v` to `u.v` |
| Spellings.BracketedColon | app/ioc/indicators.py:32 | `u[:]v` to `u:v` |
| Spellings.BracketedSeparator | app/ioc/indicators.py:33 | `u[://]v` to `u://v` |
| Spellings.BracketedAtWord | app/ioc/indicators.py:34 | `u[at]v` to `u@v` |
| Spellings.ParenthesisedAtWord | app/ioc/indicators.py:35 | `u(at)v` to `u@v` |
| Spellings.BracketedAt | app/ioc/indicators.py:36 | `u[@]v` to `u@v` |
| Spellings.EscapedDot | app/ioc/indicators.py:37 | `u\.v` to `u.v` |
| Spellings.HttpSpelling | app/ioc/indicators.py:24 | `hxxp` in any letter case, not before an `s`, becomes `http` and nothing else changes |
| Spellings.HttpsSpelling | app/ioc/indicators.py:23 | `hxxps` in any letter case becomes `https` |
| Spellings.FtpSpelling | app/ioc/indicators.py:25 | `fxp` in any letter case becomes `ftp` |
| Spellings.DefangedIsSafe | app/ioc/indicators.py:54-60 | a defanged value holds no `http` and no at sign, and each dot and each `://` in it stands in square brackets |
| Escaping.EscapeFirst | app/repositories/ioc_repository.py:14-17 | replacing the escape character first is the one-pass escape of that character |
| Escaping.EscapeNext | app/repositories/ioc_repository.py:14-17 | each further replacement extends the one-pass escape by its character and touches nothing already escaped |
| Escaping.EscapeInjective | app/sharing/stix.py:47-49 | different texts have different escaped forms |
| LikeSearch.EscapeLike | app/repositories/ioc_repository.py:14-17 | the three sequential replacements equal a single per-character escape |
| LikeSearch.EscapedIsLiteral | app/repositories/ioc_repository.py:8-17 | an escaped text followed by a percent sign matches exactly the strings that begin with the text |
| LikeSearch.LeadingPercent | app/repositories/ioc_repository.py:51 | a leading percent sign matches any number of characters |
| LikeSearch.LiteralSearch | app/repositories/ioc_repository.py:50-57 | for every search text and every string, the pattern matches if and only if the text is a substring, wildcards and backslashes included |
| LikeSearch.PatternWellFormed | app/repositories/ioc_repository.py:51-55 | no search text yields a pattern the LIKE predicate rejects |
| LikeSearch.Filtered | app/repositories/ioc_repository.py:29-58 | the statement selects exactly the rows asked for: each given criterion, with an absent or empty one imposing nothing |
| LikeSearch.Where | app/repositories/ioc_repository.py:40-49 | adding a criterion intersects the selection with it |
| Harvest.Collect | app/ioc/extract.py:109-123 | the result is the distinct canonical forms in order of first appearance among the candidates, cut at the limit |
| Harvest.HarvestSound | app/ioc/extract.py:103-123 | every result comes from a candidate, none is returned twice, and below the limit none is missing |
| Harvest.LimitKeptIff | app/ioc/extract.py:119-122 | at most the limit is returned if and only if it is at least one, or it is zero and no candidate is valid |
| Harvest.FirstAppearance | app/ioc/extract.py:116-120 | whenever a returned value appears among the candidates, all values returned before it have appeared |
| Harvest.FoundStays | app/ioc/extract.py:119-122 | stopping early cuts the result off but never changes what was found before |
| Extract.LastLabel | app/ioc/extract.py:75 | the part after the last dot, or the whole text without one |
| Extract.TrimTrailing | app/ioc/extract.py:97 | the longest prefix that does not end in one of the trailing characters |
| Extract.ClosingPunctuation | app/ioc/extract.py:97 | exactly nine characters, written out, are dropped from the end of a match |
| Extract.PlausibleIff | app/ioc/extract.py:73-75 | a name is plausible if and only if what follows its last dot, lower-cased, is no listed suffix |
| Extract.FileNames | app/ioc/extract.py:46-57 | names that end in `.exe`, `.pdf`, `.zip` and others, in any letter case, are not plausible |
| Extract.DocumentPatterns | app/ioc/extract.py:59-70 | only the last pattern, for bare domains, checks plausibility |
| Extract.Blank | app/ioc/extract.py:87-94 | the chunks joined are the text with each match replaced by one blank |
| Extract.Yields | app/ioc/extract.py:96-100 | one candidate for each match that passes, trimmed, in order |
| Extract.RunPass | app/ioc/extract.py:82-100 | one pass yields its matches and leaves the text without them |
| Extract.Candidates | app/ioc/extract.py:78-100 | the passes run in order, each on what the earlier ones left |
| Extract.NoFileNames | app/ioc/extract.py:96-100 | the last pattern never yields a name with a listed suffix, in any letter case, whatever its matcher finds |
| Extract.ExtractFromText | app/ioc/extract.py:103-123 | refanging, candidates and collection composed |
| Extract.Contiguous | app/ioc/extract.py:85-94 | a match without blanks in what remains is a contiguous slice of the original text |
| Extract.PassCount | app/ioc/extract.py:82-94 | a pass removes exactly the characters it claims |
| Extract.LedgerAccounts | app/ioc/extract.py:78-100 | over all passes, every character is claimed once or survives once |
| Extract.LedgerIncreasing | app/ioc/extract.py:87-94 | the surviving characters keep their order |
| Extract.CandidatesAreClaimed | app/ioc/extract.py:96-100 | the candidates are the trimmed claimed slices of the original text, in the order of the passes |
| Extract.EachSpanOnce | app/ioc/extract.py:78-100 | the documented promise, for any number of passes and any matchers: all claimed slices are contiguous and pairwise disjoint, candidates are their trimmed texts, and the rest survives in order |
| DocumentOrder.PassInDocumentOrder | app/ioc/extract.py:82-100 | one pass claims its spans in the order of the document |
| DocumentOrder.ClaimOrderIff | app/ioc/extract.py:78-100 | for any choice of claims that matter and over all passes: they come in the order of the document if and only if none is overtaken, that is, no later pass claims one that starts before one of an earlier pass ends |
| DocumentOrder.CandidateOrderIff | app/ioc/extract.py:78-100 | the candidates are the texts of the claims that yield one, and those come in the order of the document if and only if none of them is overtaken |
| DocumentOrder.ReturnedOrderIff | app/ioc/extract.py:103-123 | the values returned come in order of first appearance in the document when no claim of a valid indicator is overtaken, and only then if no value is repeated and the limit leaves none out |
| DocumentOrder.OrderIsNotKept | app/ioc/extract.py:103-123 | a document and what the eight passes find in it for which the promised order is not kept: the domain in front is returned after the URL behind it |
| Stix.EscapeValueIsEach | app/sharing/stix.py:47-49 | the two replacements equal a single per-character escape of backslash and quote |
| Stix.EscapedBody | app/ioc/extract.py:168 | the literal reader stops at the closing quote of an escaped value, whatever the value |
| Stix.OneLiteral | app/sharing/stix.py:56-67 | for every type with a pattern and every value, scanning the pattern finds one literal, and its body is the escaped value |
| Stix.EqualPatternsEqualValues | app/sharing/stix.py:56-67 | equal patterns mean equal values, across types |
| Stix.EqualPatternsIff | app/sharing/stix.py:56-67 | patterns are equal if and only if value and type are, except that domain and host name are exported alike |
| Stix.UnescapeDoubles | app/ioc/extract.py:180 | the reader's replacement leaves each backslash of the value doubled |
| Stix.UnescapeIff | app/ioc/extract.py:180 | it returns the value if and only if the value holds no backslash |
| Stix.ToStixBundle | app/sharing/stix.py:164-186 | the identity first, then the objects of the rows that have one, in order |
| Stix.TypeParses | app/sharing/stix.py:92-96 | the name of each type is read as that type |
| Stix.ExportedById | app/sharing/stix.py:92-133 | a CVE becomes a vulnerability and a technique an attack pattern, each with its identifier; YARA and Sigma rules become nothing |
| Stix.ExportedAddress | app/sharing/stix.py:56-63 | the whole pattern of an address, domain, host name, URL or e-mail address, written out |
| Stix.ExportedHash | app/sharing/stix.py:64-66 | the whole pattern of a hash, which names its algorithm: MD5, SHA-1 or SHA-256 |
| Stix.ObjectReadsBackIff | app/sharing/stix.py:92-161 | the object of a row, read back, yields the row's value and nothing else if and only if the value holds no backslash, or, for a CVE or technique, is not empty |
| Stix.ExtractFromStix | app/ioc/extract.py:168-195 | the values of all objects in order, then classified, distinct, and cut at the limit |
| Stix.CollectAlways | app/ioc/extract.py:182-195 | looking at the limit after every candidate gives the same result as looking after each find |
| Stix.FixedDistinct | app/ioc/extract.py:182-192 | over values that classification leaves alone, distinct keys are distinct values |
| Stix.BundleReadsBack | app/sharing/stix.py:164-186 | reading an exported bundle yields the representable values in order |
| Stix.BundleRoundTrip | app/sharing/stix.py:164-186 | extraction from an exported bundle returns the representable values in order without duplicates, up to the limit |
| Throttle.InMemoryLoginThrottle.constructor | app/security/throttle.py:58-63 | a new throttle has no entries |
| Throttle.InMemoryLoginThrottle.IsLocked | app/security/throttle.py:65-73 | the answer, and the new entries: an elapsed lockout is forgiven together with its failures, nothing else changes |
| Throttle.InMemoryLoginThrottle.RetryAfter | app/security/throttle.py:75-79 | the whole seconds left of a lockout, and zero without one |
| Throttle.InMemoryLoginThrottle.RecordFailure | app/security/throttle.py:81-85 | one more failure, and a lock from the threshold on |
| Throttle.InMemoryLoginThrottle.RecordSuccess | app/security/throttle.py:87-88 | the entry of the identity is gone, the others stay |
| Throttle.RedisLoginThrottle.constructor | app/security/throttle.py:103-113 | the fallback shares the threshold and the lockout |
| Throttle.RedisLoginThrottle.IsLocked | app/security/throttle.py:118-124 | locked if Redis says so; otherwise, and on a failed call, the local throttle decides |
| Throttle.RedisLoginThrottle.RecordFailure | app/security/throttle.py:135-149 | the failure is recorded locally whatever Redis does, and the commands sent are those the answers call for |
| Throttle.RedisLoginThrottle.RecordSuccess | app/security/throttle.py:151-157 | cleared locally whatever Redis does, and one delete is sent |
| Throttle.ServerFailureEffect | app/security/throttle.py:135-149 | the effect of the commands on a server: the expiry is set on the first failure only, the lock from the threshold on |
| LoginRuns.RunTracks | app/services/auth_service.py:81-105 | in every run without a success, an entry counts the wrong passwords since the last lockout ended, and a full one is locked for a lockout after the last of them |
| LoginRuns.ReplicaBound | app/security/throttle.py:118-157 | one replica compares at most max_attempts times (whole lockouts in the window + 1) wrong passwords for an identity, whatever Redis answers and whichever calls fail |
| LoginRuns.LockIsEarned | app/security/throttle.py:65-88 | in every run, a lock means at least the threshold of wrong passwords since the last success, and it ends a lockout after the last login at the latest |
| LoginRuns.RefusedIsEarned | app/security/throttle.py:65-88 | in every run, however logins overlap: one that is refused although Redis reports no lock follows the threshold of wrong passwords since the last success, the last of them recorded less than a lockout ago |
| LoginRuns.FreshAttempts | app/security/throttle.py:65-73 | once a lock has ended, as many logins as a new identity has are let through |
| FleetRuns.ExtendedSpaced | app/security/throttle.py:142-147 | a counter window begins a lockout after the one before it, and after all the failures of that one |
| FleetRuns.FleetTracks | app/security/throttle.py:118-149 | in every run the shared counter counts the failures of the latest window, expires a lockout after its start, and a full counter comes with a lock that outlives it |
| FleetRuns.FleetBound | app/security/throttle.py:118-149 | with Redis up and any number of replicas, at most max_attempts times (whole lockouts in the window + 2) wrong passwords are compared for an identity |
| FleetRuns.FleetLockIsEarned | app/security/throttle.py:135-149 | a shared lock needs the threshold of wrong passwords since the last success at whichever replicas, and ends a lockout after the last one at the latest |
| RateLimiter.InMemoryRateLimiter.constructor | app/api/middleware.py:64-77 | a new limiter has seen nothing |
| RateLimiter.InMemoryRateLimiter.Dispatch | app/api/middleware.py:79-97 | the verdict and the whole new state; exempt paths change nothing |
| RateLimiter.InMemoryRateLimiter.MaybeSweep | app/api/middleware.py:99-105 | at most once in a window, exactly the stale clients are forgotten |
| RateLimiter.SweepKeeps | app/api/middleware.py:99-105 | sweeping loses no admission that still counts |
| RateLimiter.SweepForgets | app/api/middleware.py:99-105 | a sweep that is due leaves only clients admitted in the last 60 seconds |
| RateLimiter.RunRepresents | app/api/middleware.py:79-105 | after every run each deque is the tail of the client's admissions, and what it lacks has left the window |
| RateLimiter.DecidesAsRule | app/api/middleware.py:79-105 | the deques with pops and sweeps decide exactly as the rule that counts all past admissions of the last 60 seconds |
| RateLimiter.AdmissionsAreHistory | app/api/middleware.py:79-105 | in every run the admissions the limiter itself makes are those of the rule |
| RateLimiter.AtMostLimit | app/api/middleware.py:84-95 | in every run each closed 60-second window holds at most the limit of the limiter's own admissions of a client |
| RateLimiter.NoLimitNoService | app/api/middleware.py:87-89 | a limit below one admits nothing in any run and advertises 60 seconds |
| RateLimiter.RejectedState | app/api/middleware.py:87-89 | at a rejection the deque holds exactly the limit, all of it inside the window |
| RateLimiter.AdmittedAgainIff | app/api/middleware.py:84-95 | after a rejection a client that sends nothing in between is admitted if and only if the oldest admission in its deque has left the window, whatever others do meanwhile |
| RateLimiter.RetryAfterIsSound | app/api/middleware.py:87-94 | so a client that waits the advertised seconds and one more is admitted |
| RateLimiter.RetryAfterIsTooEarly | app/api/middleware.py:87-94 | and one that returns after exactly the advertised seconds is always rejected again |
| ClientIp.ProxyTrust.constructor | app/api/client_ip.py:27-33 | the networks that parse, in order; the others are ignored |
| ClientIp.NetworksSound | app/api/client_ip.py:27-33 | the networks are exactly those of the configured entries that parse |
| ClientIp.ProxyTrust.Trusts | app/api/client_ip.py:39-46 | trusted if and only if the address parses and lies in some network |
| ClientIp.ProxyTrust.ClientIp | app/api/client_ip.py:48-58 | the peer when it is untrusted or all hops are trusted, the right-most untrusted hop otherwise |
| ClientIp.DirectPeerIsItself | app/api/client_ip.py:50-52 | the header of a peer that is not trusted is not looked at: the address is the peer's own |
| ClientIp.TrustedPeerCases | app/api/client_ip.py:53-58 | behind a trusted peer the address is the hop that is untrusted with only trusted ones to its right, and the peer if all hops are trusted |
| ClientIp.PartsOfJoined | app/api/client_ip.py:55 | hops are separated by commas |
| ClientIp.PartsOfPadded | app/api/client_ip.py:55 | blanks around a hop are dropped |
| ClientIp.PartsOfEmpty | app/api/client_ip.py:55 | empty parts are left out |
| ClientIp.ResolvedIsSound | app/api/client_ip.py:54-58 | the hop returned is untrusted, and every hop to its right is trusted; without one, all are |
| ClientIp.ForgedPrefixIgnored | app/api/client_ip.py:39-58 | behind a trusted peer, anything put in front of a header with an untrusted hop leaves the address unchanged |
| ClientIp.ForgedHopTaken | app/api/client_ip.py:54-58 | behind a trusted peer, when the header holds only trusted hops, an untrusted address written in front is taken for the client's |
| ClientIp.ForgeryIsVainIff | app/api/client_ip.py:48-58 | for every peer, forged prefixes are irrelevant if and only if the peer is not trusted or the header holds an untrusted hop |
| ClientIp.KeyIsClient | app/api/middleware.py:82-84 | a request of a client whose own address is not trusted, sent directly with any header or passed on by a trusted proxy, is counted in the bucket of that address |
| ClientIp.AdmissionsAreCounted | app/api/middleware.py:82-97 | in every run, whoever else sends requests, the admitted requests of such a client, direct or passed on, are among the admissions of its one bucket |
| ClientIp.ForgeryBuysNothing | app/api/middleware.py:82-84 | whatever clients write in the header and whoever else sends requests, each closed 60-second window holds at most the limit of admissions of one real client whose own address is not trusted, whether it connects directly or through proxies |
| ClientIp.ForgeryEscapesLimit | app/api/middleware.py:82-84 | for clients whose own address is trusted there is no such bound: in a run of requests each with another forged address, all are admitted |
| Resilience.CircuitBreaker.constructor | app/core/resilience.py:33-46 | a new breaker is closed |
| Resilience.CircuitBreaker.CanAttempt | app/core/resilience.py:52-64 | whether a call is admitted, and the new state: the first call after the recovery time becomes the one probe |
| Resilience.CircuitBreaker.RecordSuccess | app/core/resilience.py:66-69 | the circuit closes and the count starts again |
| Resilience.CircuitBreaker.RecordFailure | app/core/resilience.py:71-77 | one more failure; the circuit opens on a failed probe and from the threshold on |
| Resilience.BreakerInvariant | app/core/resilience.py:52-92 | in every interleaving of calls: the count is that of the failures since the last success, closed if and only if it is below the threshold, half open if and only if a probe is in flight, and then nothing is admitted |
| Resilience.AdmittedIff | app/core/resilience.py:52-77 | in every interleaving and told from the events alone: a call is admitted if and only if fewer failures than the threshold came since the last success, or no probe is under way and the recovery time has passed since the last failure |
| Resilience.OpenAdmitsIff | app/core/resilience.py:55-60 | so an open circuit admits a call as soon as the recovery time has passed since the last failure, and not before |
| Resilience.OutageSpacing | app/core/resilience.py:52-92 | late results from earlier calls never let two admissions come closer than the recovery time |
| Resilience.OutageBound | app/core/resilience.py:52-92 | once open and until the next success, a window holds at most one admission for each whole recovery time and one more |
| Resilience.FirstDecisive | app/core/resilience.py:129-137 | the first attempt that is not retried |
| Resilience.AsyncRetry | app/core/resilience.py:114-143 | the result is that of the first decisive attempt or the last error, with that many requests, and waits that start at the base delay and double up to the maximum |
| Resilience.RequestsPerCall | app/collectors/http.py:27-54 | a call admitted by the breaker sends at most as many requests as the retry allows |
| Resilience.OutageRequests | app/collectors/http.py:27-54 | during an outage the admitted calls send at most attempts times (whole recovery times in the window + 1) requests |
| Resilience.ProviderOutage | app/collectors/http.py:21-54 | for the numbers a provider client uses: after five failures at most 3 * (whole half minutes in the window + 1) requests until the next success |
| Events.Queue.constructor | app/core/events.py:72 | a new queue is empty |
| Events.Queue.PutNowait | app/core/events.py:62-64 | refused exactly when full |
| Events.Queue.GetNowait | app/core/events.py:66 | the oldest event, if any |
| Events.EventBus.constructor | app/core/events.py:45-47 | a new bus has no subscribers |
| Events.EventBus.Subscribe | app/core/events.py:71-73 | a fresh, empty queue of the configured size joins |
| Events.EventBus.Unsubscribe | app/core/events.py:76-77 | the queue leaves, if it was there |
| Events.EventBus.Publish | app/core/events.py:53-56 | every subscriber is offered the event once, and no one else is touched |
| Events.EventBus.Offer | app/core/events.py:58-68 | the retry loop always ends, with the event enqueued and the oldest dropped as far as needed |
| Events.OfferedOnce | app/core/events.py:58-68 | at most one event is dropped for each one published |
| Events.FeedIsLogReader | app/core/events.py:53-77 | the queue is exactly the newest undelivered events up to the bound, and published = received + dropped + queued |
| Events.ReceivedThenQueued | app/core/events.py:53-77 | what was received followed by what is queued is a subsequence of what was published |
| Events.FeedsAreIndependent | app/core/events.py:53-77 | under any interleaving, a subscriber's feed depends only on what was published while it was subscribed and on its own reads |
| Tokens.InMemoryTokenStore.constructor | app/security/token_store.py:31-33 | nothing is revoked |
| Tokens.InMemoryTokenStore.Prune | app/security/token_store.py:35-37 | exactly the revocations that have ended are removed |
| Tokens.InMemoryTokenStore.Revoke | app/security/token_store.py:39-42 | revoked for at least a second, after pruning |
| Tokens.InMemoryTokenStore.IsRevoked | app/security/token_store.py:44-52 | whether a revocation is running, and only an ended one is forgotten |
| Tokens.RevocationAlmostOutlives | app/services/auth_service.py:34-35 | the truncated time to live ends less than a second before the token does |
| Tokens.RevocationOutlivesIff | app/services/auth_service.py:34-35 | a revocation lasts until the token expires if and only if at most a second was left or the clock stood at a whole second |
| Tokens.RevokedTokenRevivesIff | app/security/token_store.py:39-52 | for any store and token: it is accepted again between its revocation and its expiry if and only if more than a second was left and the clock stood between seconds |
| Tokens.StepFollowsLog | app/services/auth_service.py:107-137 | after every operation the store holds of each token exactly the end of its last revocation, unless that has passed, through pruning, queries and being revoked again |
| Tokens.RejectedIff | app/security/token_store.py:35-52 | at all times after every run the pruned store answers as the full log of revocations: rejected if and only if revoked and the last revocation has not ended |
| Tokens.RotatesIff | app/services/auth_service.py:107-114 | a refresh is accepted if and only if the token decodes, its user is active, and, if it was ever revoked, its last revocation has ended |
| Tokens.UncertainUntil | app/services/auth_service.py:34-35 | the last revocation of a token ends less than a second before it expires, and not before it expires on a clock of whole seconds |
| Tokens.SpentStaysRevoked | app/services/auth_service.py:107-137 | in every run, a token revoked by a refresh or a logout is rejected up to one second before it expires, and always on a clock of whole seconds |
| Tokens.LogoutRejects | app/services/auth_service.py:117-137 | after a logout the refresh token and the access token it was given are rejected, if they were of that kind and had not expired |
| Tokens.LogoutLasts | app/services/auth_service.py:117-137 | and they stay so through every later operation, up to the margin |
| Tokens.LoginIssues | app/services/auth_service.py:81-105 | a login issues one access and one refresh token and revokes nothing |
| Tokens.RefreshReplaces | app/services/auth_service.py:107-115 | an accepted refresh revokes the token presented and issues a pair for the same login |
| Tokens.RefusedRefresh | app/services/auth_service.py:107-113 | a refused one revokes nothing and issues nothing |
| Tokens.StepKeepsOneIff | app/services/auth_service.py:107-115 | an operation keeps at most one unspent refresh token of a login if and only if it accepts no refresh while another one is unspent |
| Tokens.OneUnspentIff | app/services/auth_service.py:107-115 | throughout a run each login has at most one unspent refresh token if and only if every accepted refresh presents that one, or comes when none is left; acceptance is in terms of claims, log and clock |
| Tokens.StepKeepsOneUsableIff | app/services/auth_service.py:107-115 | an operation keeps at most one usable refresh token of a login if and only if it does not split the login: an accepted refresh leaving another unspent token, with neither past its margin |
| Tokens.OneUsableIff | app/services/auth_service.py:107-115 | throughout a run, up to the margin, each login has at most one usable refresh token if and only if no refresh splits it, which is decided by token claims, the log of revocations and the clock |
| Tokens.OneUsable | app/services/auth_service.py:107-115 | each login has at most one usable refresh token, up to the margin, unless a revoked token is presented between the end of its last revocation and its expiry |
| Tokens.WholeSecondsNoReplay | app/services/auth_service.py:107-115 | on a clock of whole seconds no atomic refresh accepts a revoked token |
| Tokens.WholeSecondsOneUsable | app/services/auth_service.py:107-115 | there each login always has at most one usable refresh token until it expires, with no further condition |
| Tokens.TwoUsable | app/services/auth_service.py:107-115 | on other clocks it can have two: a concrete run in which a token is presented again in its last second |
| AuthService.Service.constructor | app/services/auth_service.py:44-61 | the service holds the stores it was given |
| AuthService.OneIdentity | app/services/auth_service.py:81-86 | two spellings of an address share one throttle entry if and only if they differ in letter case and outer blanks only |
| AuthService.Service.Authenticate | app/services/auth_service.py:81-105 | a login is exactly one step of the throttle runs: locked out with the wait to report, wrong, inactive or successful, with the commands sent to Redis |
| AuthService.Service.RetryAfter | app/security/throttle.py:126-133 | the remaining lock time of Redis when it is positive, and the local one otherwise |
| AuthService.Service.Refresh | app/services/auth_service.py:107-115 | a refresh is exactly one rotation step: accepted if and only if the token decodes, is not revoked and its user is active, and then revoked |
| AuthService.Service.Logout | app/services/auth_service.py:117-137 | a logout is exactly one logout step; tokens that do not decode are ignored |
| AuthService.Service.CountActiveWithRole | app/repositories/user_repository.py:26-32 | counts the active users of a role |
| AuthService.Service.SetUserRole | app/services/auth_service.py:149-171 | the refusal or the changed table, in the order of the checks |
| AuthService.Service.SetUserActive | app/services/auth_service.py:173-190 | the refusal or the changed table, in the order of the checks |
| AuthService.Service.Register | app/services/auth_service.py:64-79 | refused when closed or when the address is taken, and an active user of the given role otherwise |
| Accounts.StepKeepsAdmin | app/services/auth_service.py:149-190 | no single operation takes the last active admin away |
| Accounts.BootstrapGivesAdmin | app/scripts/create_admin.py:44-63 | after the bootstrap the named account is an active admin, whatever the table was |
| Accounts.AlwaysAnAdmin | app/services/auth_service.py:149-190 | from at least one active admin, every run of registrations, role changes, activations and bootstraps keeps at least one |
| Accounts.SetRoleEffect | app/services/auth_service.py:149-171 | a role change gives the named user that role and changes nothing else about anyone, unless it would take the caller's own admin role or that of the last admin |
| Accounts.SetActiveEffect | app/services/auth_service.py:173-190 | the same for activation |
| Accounts.UnknownUser | app/services/auth_service.py:149-177 | an unknown user is not found |
| Accounts.RegisterEffect | app/services/auth_service.py:64-79 | registration adds one active user with the given role and the lower-cased address when it is open and the address is new, and changes nobody |
| Accounts.BootstrapEffect | app/scripts/create_admin.py:44-63 | the bootstrap adds an active admin or promotes the account of that address, and changes nobody else |
| Accounts.NobodyBecomesAdmin | app/services/auth_service.py:64-190 | in every run that hands out the admin role to nobody, whoever is an admin at the end was one at the start |
| Accounts.NobodyIsReactivated | app/services/auth_service.py:173-190 | a deactivated account stays so in every run that activates nobody |
| Accounts.AlwaysKeyed | app/services/auth_service.py:64-79 | ids and e-mail addresses stay unique in every run |
| Accounts.AddressesAreLower | app/services/auth_service.py:68 | in every run addresses are stored in lower case |
| Accounts.AnySpelling | app/services/auth_service.py:82 | so an account is found under every spelling of its address that differs in letter case, and under no other |
| Accounts.NoSecondSpelling | app/services/auth_service.py:68-70 | and cannot be registered again under another one |
| Accounts.GuardIsExact | app/services/auth_service.py:159-183 | for every admin other than the caller, the guard refuses exactly when no active admin would be left, if and only if the admin is active or there is not exactly one active admin |
| Accounts.DeactivatedAdminIsProtected | app/services/auth_service.py:159-183 | the exception: one active admin cannot demote or deactivate a deactivated one, although an active admin would stay |
| Scoring.WeightsSumToOne | app/scoring/engine.py:22-32 | the nine weights add up to one |
| Scoring.WeightedSum | app/scoring/engine.py:135-150 | the sum, signal by signal with the nine weights |
| Scoring.OnOffScore | app/scoring/engine.py:22-32 | signals that are fully on or off score the sum of 22, 20, 14, 12, 10, 8, 6, 5 and 3 points over those that are on, and each is shown with its points |
| Scoring.LevelIffs | app/scoring/engine.py:123-132 | the level of a result is critical from 85, high from 65, medium from 40, low from 15 and clean below |
| Scoring.RoundMonotone | app/scoring/engine.py:151 | rounding half to even keeps order |
| Scoring.ScoreMonotone | app/scoring/engine.py:123-156 | raising any signals lowers neither the score nor the level |
| Scoring.ScoreInRange | app/scoring/engine.py:135-156 | the score lies between 0 and 100 whatever the signals |
| Scoring.LowestScore | app/scoring/engine.py:135-156 | 0 is reached when no signal is positive |
| Scoring.HighestScore | app/scoring/engine.py:135-156 | 100 is reached when every signal is at least one |
| Scoring.ContributionsExplainScore | app/scoring/engine.py:148-156 | the nine rounded contributions add up to the score, to within 0.5 + 9 * 0.005 |
| Scoring.SightingsNeverLower | app/enrichment/engine.py:64-94 | more sightings or a more recent one never lower the score |
| Scoring.DetectionsNeverLower | app/enrichment/engine.py:78-80 | more detections out of the same number of engines never lower the score |
| Scoring.SignalsMean | app/enrichment/engine.py:64-94 | what the raw material makes of the signals: one or two sources of four, detected engines of all, sightings of fifty, risky ports of three |
| IocStore.IocService.constructor | app/services/ioc_service.py:59-64 | an empty store |
| IocStore.IocService.Upsert | app/services/ioc_service.py:66-153 | the complete effect on the row of the type and value and on its engine record, or what a failure at each point leaves behind |
| IocStore.IocService.UpsertNested | app/services/ioc_service.py:196-207 | inside a savepoint, all of it or nothing |
| IocStore.IocService.IngestFromCollector | app/services/ioc_service.py:183-212 | the store after the guarded items in order; ingested + skipped is the number of items |
| IocStore.IocService.BulkImport | app/services/ioc_service.py:214-268 | the store after the guarded items in order, a report for each, and extracted = imported + failed = number of items |
| IocStore.IocService.ImportOne | app/services/ioc_service.py:239-262 | one guarded item and its report |
| IocStore.IocService.RerunEnrichment | app/services/ioc_service.py:299-308 | a re-run is an upsert of the stored value with the stored source, complete or interrupted |
| IocStore.IocService.Explain | app/services/ioc_service.py:292-297 | nothing without an engine record; in a consistent store every indicator has one, its contributions add up to its score within the rounding, and score and level are those of the row |
| IocStore.UpsertKeeps | app/services/ioc_service.py:105-143 | an upsert keeps type and value unique and every row explained, and adds one sighting |
| IocStore.BatchKeeps | app/services/ioc_service.py:195-211 | so does a batch, with one sighting for each item that succeeds |
| IocStore.ItemIsRow | app/services/ioc_service.py:251-258 | the report of an imported item shows the row it was written to |
| IocStore.SightingsConserved | app/services/ioc_service.py:86-268 | from an empty store, over any mix of upserts, re-runs, ingests and imports with any failures: (type, value) is unique, each row's level is that of its score and its stored contributions explain it, and total sightings equal successful upserts |
| IocStore.TableIsHistory | app/services/ioc_service.py:105-143 | from an empty store, the whole table and every engine record are a function of the submissions that went through: one row for each indicator, the number of them as sightings, the union of their tags, the first description and source, and the score of the latest for that number of sightings |
| IocStore.RunIsHistory | app/services/ioc_service.py:66-268 | the same for every run of single upserts, re-runs and batches |
| IocStore.RowsGrow | app/services/ioc_service.py:125-134 | no row moves, changes its indicator or source, loses a tag or a sighting, or changes a description it has |
| IocStore.RerunHitsItsRow | app/services/ioc_service.py:299-308 | a re-run updates the row it was asked for if and only if the stored value still classifies as that row's type and value |
| IocStore.RerunOfPlainValue | app/services/ioc_service.py:299-308 | it does when the stored value is trimmed and holds no refang token, for every classifier that begins by refanging |
| IocStore.RerunOfUrlIff | app/services/ioc_service.py:299-308 | for a stored URL it does if and only if the stored value is trimmed and holds no refang token |
| IocStore.RerunMissesItsRow | app/services/ioc_service.py:299-308 | it does not for a URL stored with a token that refanging left: the re-run adds a second row |

## Left out

- RoundTrip: needs the exception for `http` before a capital S that the documentation does not mention; `RoundTripIff` has the exact class.
- OneUsable: speaks of the time up to a second before expiry, and of runs without a replay of a revoked token after its revocation ended; `OneUsableIff` has the exact condition for all runs.
- SpentStaysRevoked: stops a second before expiry on a clock that ticks between seconds, because `RevokedTokenRevivesIff` shows it does not hold there; `RejectedIff` covers all times.
- WholeSecondsOneUsable: the clock is read once for decoding a token and looking it up, as in an atomic request.
- FleetBound: each login is atomic and Redis answers every call; its expiry clock is the shared clock.
- ReplicaBound: logins of one identity on one replica follow one another; two overlapping ones could both pass the check before either is recorded.
- ReturnedOrderIff: the only-if half speaks of documents in which no value is repeated and none is cut off, since a repeated value may come first in the document through a later pass and a value cut off has no place.
- ForgeryBuysNothing: speaks of clients whose own address is not trusted; `ForgeryEscapesLimit` shows it fails for the others.
- Harvest.Collect: a classifier accepts or rejects; the third outcome of `classify_indicator`, the `ValueError` that `urlsplit` raises on a candidate such as `http://[a`, is not modelled. The extractors do not catch it, so there the whole extraction fails.
- BundleRoundTrip: assumes, as it must by `UnescapeIff`, rows that read back (`ObjectReadsBackIff`) and that classification leaves unchanged.
- Regular-expression engines: each document pattern is any matcher returning ordered, disjoint, non-empty spans without blanks; only the STIX literal pattern and the case-insensitive scheme tokens are modelled themselves.
- `classify_indicator`, `ipaddress`, `urlsplit` and JSON parsing are parameters.
- Letter case outside ASCII: `Lower` covers ASCII only, where the code lower-cases all of Unicode; the case-insensitive match of `s` and the whitespace set are complete.
- Floating point: times, weights and scores are exact reals, so a weighted sum on a rounding boundary may round differently in the program.
- Recency and frequency curves are any monotone functions; the exponential and the logarithm are not modelled.
- Clocks are parameters that never go back; one clock serves token expiry and the revocation store.
- Concurrency: requests, throttle operations, limiter decisions and database transactions are atomic; only the breaker's calls interleave, as its lock is released during a call.
- Token identifiers are assumed never to repeat; signing and decoding reduce to identifier, kind and expiry, with the role and the subject's activity as parameters.
- Rows are values in a sequence with their index as id, so aliasing of ORM objects and sessions is not captured; each failed single upsert is rolled back with its request (app/database/session.py:46-59).
- Fields of an indicator row that no property mentions: confidence, severity, references, status and time stamps; correlation, audit and alerting are only places where an upsert can fail.
- STIX fields the reader does not look at: ids, names, descriptions, labels, confidence, external links and time stamps.
- The account bootstrap is a function on the user table; password hashing, audit records and API keys are not modelled.
- `RedisTokenStore`, whose two calls are the server's own expiry, and the Redis client itself beyond the five commands it is sent.
- CSV extraction and format sniffing, MISP, CSV and Markdown export, the threat graph, and role tables: library calls or single branches.
- The server-sent event stream with its heartbeat, the breaker registry, and the logging of all components.
- Liveness of the breaker after an abandoned probe: the code does not promise it.
