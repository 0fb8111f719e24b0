# Security guards of the chat backend, modelled in Dafny

This project models the in-memory security layer of a small FastAPI chat service, together
with the pure helpers around it:

- the **session store** (`SESSIONS`): resolving the `sid` cookie, creating sessions,
  rotating an id, sweeping expired records, and the sliding `sid` cookie;
- the **anti-replay guard** (`NONCES`): the rejection ladder for state-changing requests
  (missing headers, bad timestamp, stale timestamp, nonce reuse), the lazy purge, and the
  recording of admitted nonces;
- the **token-bucket rate limiter** (`_RATE_LIMIT_STATE`): refill, admit, reject;
- the **double-submit CSRF check** and the seeding of the `csrftoken` cookie;
- from the application module: `chunk_text`, `message_too_large`, the validation
  ladder of the chat endpoint, the `/me` answer and the HTTP error handler;
- from the settings module: `_env_int`, `get_settings` and `cors_origin_list`.

Each store that the source mutates in place is a class with a `map` field. Its methods are
imperative, for example the purge loops that collect expired keys and remove them one by
one. Each method is proved equal to a pure specification function of the old state:
`Resolved`, `Rotated`, `Swept`, `Purged`, `ReplayStep`, `Refilled` and `RateStep`. The
properties the source promises are then proved as lemmas about those functions, including
properties of several calls in a row (replays within the window, draining a burst).

Inputs that the source reads from the environment are parameters:

- the clock: `now`, as an `int` of whole seconds for anti-replay and a `real` elsewhere;
- random session ids and CSRF tokens: `freshSid` and `generated`;
- the `secure` cookie flag, which the source sets from `APP_ENV == "prod"`;
- the process environment: a `map<string, string>`.

Modules: `Wrappers` (Option), `Http` (mutating methods, cookies, a response object), `Text`
(Python's whitespace, `strip`, `split`, `join`), `Numerals` (base-10 integer literals:
the whitespace `int()` skips and its digit limit), `Utf8` (RFC 3629 encoding), `Sessions`, `AntiReplay`, `RateLimit`, `Csrf`,
`App` and `Settings`.

Three behaviours of the code that are easy to misread:

- On a rejection the rate limiter stores the refilled bucket, with its timestamp moved to
  `now`. It does not leave the bucket untouched.
- A failed CSRF check reaches the client as a 403 whose JSON body names the reason
  (`CSRF token missing` or `CSRF token mismatch`). See `App.CsrfRejectionBody`.
- Cookie seeding tests whether the `csrftoken` key is present, while the check treats an
  empty value as missing. So a client holding an empty `csrftoken` cookie is never
  reseeded, and all of its state-changing requests fail. See `Csrf.EmptyCookieAsymmetry`.

## Model

| member | source | states |
|---|---|---|
| Sessions.IsExpired | backend/core/sessions.py:30-32 | with a non-negative TTL, a record is never expired at or before the instant it was last seen |
| Sessions.ExpiryIsStrict | backend/core/sessions.py:30-32 | a record seen exactly `ttl` seconds ago is not expired; it is expired at every later instant |
| Sessions.NewSession | backend/core/sessions.py:38-42 | a fresh record is created and seen at `now`, has no user and no other fields, and is live at `now` for every non-negative TTL |
| Sessions.SessionStore.CreateSession | backend/core/sessions.py:35-44 | stores under the given id a record with `created_at == last_seen == now` and no user; every other entry is unchanged |
| Sessions.Resolved | backend/core/sessions.py:100-113 | the returned id is a key of the new store, bound to the returned record, whose `last_seen` is `now` and which is not expired; a session is created exactly when the cookie does not name a present, unexpired record |
| Sessions.SessionStore.Resolve | backend/core/sessions.py:100-113 | the imperative resolve logic (pop an expired record, create, or refresh `last_seen` in place) produces exactly `Resolved` of the old store |
| Sessions.SessionStore.Dispatch | backend/core/sessions.py:99-127 | resolves the cookie, then appends cookie `sid` = the resolved id with `httponly`, `samesite=lax`, `path=/` and `max_age` = TTL |
| Sessions.ResolveLive | backend/core/sessions.py:104-112 | a live id resolves to itself; only its `last_seen` changes, to `now`; `created_at`, `user_id`, the other fields and all other entries are unchanged |
| Sessions.ResolveTwice | backend/core/sessions.py:100-112 | resolving a live id twice, within the TTL and without going back in time, gives the same id and a non-decreasing `last_seen` |
| Sessions.ResolveCreates | backend/core/sessions.py:104-110 | without a live cookie, a fresh anonymous record is stored under the fresh id, an expired record named by the cookie is removed, and every other entry is kept |
| Sessions.Rotated | backend/core/sessions.py:47-56 | the rotated record sits under the new id with `last_seen == now` |
| Sessions.SessionStore.RotateSid | backend/core/sessions.py:47-56 | pop, create and copy-over produce exactly `Rotated` of the old store |
| Sessions.RotateMoves | backend/core/sessions.py:47-56 | with a new id different from the old one: the old id is gone; a present record moves with all its fields but `last_seen`; an absent one gives a fresh record; other entries are unchanged |
| Sessions.RotatedIdIsDead | backend/core/sessions.py:47-56 | after rotation the old id no longer resolves: presenting it creates a new session |
| Sessions.Swept | backend/core/sessions.py:63-66 | a sweep keeps exactly the records not expired at `now`, each with its key and value |
| Sessions.SessionStore.CollectGarbage | backend/core/sessions.py:63-66 | the collect-then-pop loop leaves exactly `Swept` of the old store |
| Sessions.SweepIdempotent | backend/core/sessions.py:63-66 | a second sweep at the same instant removes nothing more |
| AntiReplay.Purged | backend/core/anti_replay.py:58-61 | removes exactly the nonces whose expiry is `<= now` and keeps the rest with their expiries |
| AntiReplay.NonceStore.PurgeExpired | backend/core/anti_replay.py:58-61 | the collect-then-pop loop leaves exactly `Purged` of the old store |
| AntiReplay.ReplayStep | backend/core/anti_replay.py:24-71 | rejections other than nonce reuse leave the store unchanged; a nonce-reuse rejection leaves it purged; only state-changing requests are ever rejected |
| AntiReplay.NonceStore.Dispatch | backend/core/anti_replay.py:24-71 | the early-return ladder over `NONCES` yields exactly the verdict and store of `ReplayStep` |
| AntiReplay.Status | backend/core/anti_replay.py:34-68 | every rejection, whatever its reason, is answered 401; an admitted request gets no answer from the guard and goes on |
| AntiReplay.NonMutatingAdmitted | backend/core/anti_replay.py:25-26 | methods other than POST/PUT/PATCH/DELETE are admitted with the store untouched |
| AntiReplay.MissingHeadersRejected | backend/core/anti_replay.py:31-39 | a missing or empty `X-TS` or `X-Nonce` gives a missing-headers rejection with the store unchanged |
| AntiReplay.InvalidTimestampRejected | backend/core/anti_replay.py:41-48 | an `X-TS` that does not parse as an integer gives an invalid-timestamp rejection with the store unchanged |
| AntiReplay.OverlongTimestampRejected | backend/core/anti_replay.py:41-48 | an `X-TS` of more than 4300 digits is an invalid-timestamp rejection, with the store unchanged |
| AntiReplay.StalenessIsSymmetric | backend/core/anti_replay.py:50-56 | a timestamp more than `W` seconds in the past or the future is rejected as stale with the store unchanged; exactly `W` off either way is not stale |
| AntiReplay.NonceDecides | backend/core/anti_replay.py:58-71 | past the timestamp checks, a request is admitted iff its nonce is not in the purged store; admission records `now + W`; otherwise it is a nonce-reuse rejection that leaves the store purged |
| AntiReplay.AdmitRecordsNonce | backend/core/anti_replay.py:70-71 | an admitted state-changing request passed the timestamp checks and its nonce is stored with expiry `now + W` |
| AntiReplay.AdmittedLeavesOnlyLiveEntries | backend/core/anti_replay.py:58-71 | with `W > 0`, after an admitted state-changing request every stored expiry is later than `now` |
| AntiReplay.StepKeepsLiveEntry | backend/core/anti_replay.py:58-70 | no request removes or changes an entry whose expiry is later than that request's clock |
| AntiReplay.RunKeepsLiveEntry | backend/core/anti_replay.py:58-70 | the same holds over any sequence of requests whose clocks are all before that expiry |
| AntiReplay.ReplayRejectedWithinWindow | backend/core/anti_replay.py:58-70 | a nonce admitted at `t` is rejected as reused by any request before `t + W`, after any requests in between whose clocks are also before `t + W` |
| AntiReplay.ReuseAfterExpiry | backend/core/anti_replay.py:58-71 | a nonce that is absent or whose expiry is `<= now` is admitted once the timestamp checks pass |
| AntiReplay.ReuseAfterWindow | backend/core/anti_replay.py:58-71 | a nonce admitted at `t` is admitted again by a next request at `t' >= t + W` |
| Numerals.ParseInt | backend/core/anti_replay.py:41-43 | parsing succeeds iff the text, trimmed of the whitespace `int()` skips, is an optional sign followed by 1 to 4300 digits; a `-` sign gives a non-positive value, otherwise it is non-negative |
| Numerals.ParseShow | backend/settings.py:14-15 | parsing the decimal text of an integer gives that integer back when it has at most 4300 digits, and fails otherwise |
| Numerals.IntSpaceSkipped | backend/settings.py:14-15 | a valid literal with a character of `int()`'s whitespace on each side, ASCII or non-ASCII, parses as the bare literal |
| Numerals.FileSeparatorRejected | backend/settings.py:14-17 | U+001C, which `str.strip()` removes, makes `int()` fail, so a value like `"\x1c42"` is not read as 42 |
| Numerals.TooManyDigitsRejected | backend/core/anti_replay.py:41-43 | a literal of more than 4300 digits fails to parse, with or without a minus sign |
| RateLimit.Earned | backend/core/rate_limit.py:35-38 | the tokens earned since the last observation are never negative, and are zero when the clock has not moved forward |
| RateLimit.Refilled | backend/core/rate_limit.py:32-40 | the refilled bucket has `ts == now` and at most `burst` tokens; a first-seen client gets exactly `burst`; a backwards clock never removes tokens |
| RateLimit.RateStep | backend/core/rate_limit.py:24-52 | only the requesting client's bucket can change; every other bucket keeps its key and value |
| RateLimit.Status | backend/core/rate_limit.py:42-52 | a rejected request is answered 429; an admitted one gets no answer from the limiter and goes on |
| RateLimit.RateLimiter.constructor | backend/core/rate_limit.py:16-18 | burst is twice the rate, and the state starts empty and in range |
| RateLimit.RateLimiter.Dispatch | backend/core/rate_limit.py:24-52 | the in-place refill, reject or consume yields exactly `RateStep` and keeps every bucket within `[0, burst]` |
| RateLimit.DisabledAdmitsAll | backend/core/rate_limit.py:25-26 | with a rate of zero or below, every request is admitted and the state is unchanged |
| RateLimit.AdmitIffOneToken | backend/core/rate_limit.py:42-52 | a request is rejected iff the refilled bucket holds fewer than 1.0 tokens; on rejection the refilled bucket is stored as is; on admission it is stored with exactly one token fewer |
| RateLimit.StepKeepsRange | backend/core/rate_limit.py:34-51 | stored tokens stay in `[0, burst]` across every request, whatever the clock does |
| RateLimit.DrainAtOneInstant | backend/core/rate_limit.py:42-51 | a bucket refilled at this instant with `j` whole tokens admits exactly `j` requests at this instant and rejects the next |
| RateLimit.BurstThenReject | backend/core/rate_limit.py:17-51 | from a full bucket or a first-seen client, with a whole-number `burst = 2 * rps`: exactly `burst` requests at one instant are admitted, and the next is rejected |
| RateLimit.OneTokenPerPeriod | backend/core/rate_limit.py:34-51 | an empty bucket that waits `1 / rps` seconds admits exactly one more request |
| Csrf.RequireCsrf | backend/core/csrf.py:42-71 | passes iff the method is not state-changing, or the cookie is non-empty and the header equals it and is ASCII; missing iff state-changing and the cookie or the header is absent or empty; the comparison raises (an unhandled error) iff both are present and either has a non-ASCII character; a mismatch means both are present ASCII values that differ |
| Csrf.EnsureCsrfCookie | backend/core/csrf.py:27-39 | returns the supplied token if non-empty, otherwise the generated one, and appends exactly that value as cookie `csrftoken` with `httponly=False`, `samesite=lax`, `path=/` |
| Csrf.EnsureCsrfCookieFromRequest | backend/core/csrf.py:74-76 | a token cookie is appended iff the request has no `csrftoken` key; otherwise the response cookies are unchanged |
| Csrf.SafeMethodsPass | backend/core/csrf.py:45-46 | GET and every other method outside POST/PUT/PATCH/DELETE pass |
| Csrf.SeededTokenPasses | backend/core/csrf.py:62-71 | a request whose cookie and header both carry the same non-empty token passes when the token is ASCII; for a state-changing request with a non-ASCII token the comparison raises |
| Csrf.NonAsciiTokenUnhandled | backend/core/csrf.py:62 | a state-changing request that echoes a non-ASCII token does not pass: `compare_digest` raises |
| Csrf.EmptyCookieAsymmetry | backend/core/csrf.py:48-76 | an empty `csrftoken` cookie blocks reseeding, yet the check reports it as missing |
| App.ChunkText | backend/app.py:32-34 | for a positive size the chunks concatenate back to the text; every chunk but the last has exactly `size` characters and the last has 1 to `size`; there are no chunks iff the text is empty; a negative size gives none |
| App.ChunkCount | backend/app.py:32-34 | `n` chunks satisfy `(n - 1) * size < len <= n * size`, so there are `ceil(len / size)` of them |
| App.ChunkTextPieces | backend/app.py:32-34 | no chunk is empty and none is longer than `size` |
| App.StreamPlaceholder | backend/app.py:94-100 | the streamed chunks concatenate to the placeholder text, each 1 to 24 characters long |
| Utf8.EncodeChar | backend/app.py:37-38 | one character takes 1 to 4 bytes in its shortest form: one exactly below U+0080, three or more only from U+0800, four only from U+10000; the lead byte announces the width, the rest are continuation bytes, and decoding gives the code point back |
| Utf8.Encode | backend/app.py:38 | a string of `n` characters encodes to between `n` and `4n` bytes, and an ASCII string to exactly `n` |
| Utf8.DecodeEncode | backend/app.py:37-38 | decoding the UTF-8 encoding of a string gives back its code points |
| App.MessageTooLarge | backend/app.py:37-38 | a message of at most `max/4` characters is never too large, and one of more than `max` characters always is; for ASCII text, too large means more than `max` characters |
| App.MessageOf | backend/app.py:134 | the `message` field, when present, is never JSON null: null reads as absent |
| App.ValidateChat | backend/app.py:126-142 | an accepted message comes from a non-empty body whose decoded object holds it as a string; it is not blank and its UTF-8 length is within the limit; for messages without lone surrogates (which the model's strings cannot hold), the outcome is an unhandled error iff the body is non-empty and its bytes are not decodable text |
| App.LadderOrder | backend/app.py:126-142 | the checks apply in order (empty body, invalid JSON, undecodable bytes, no `message`, not a string, blank, too large); each failure gives its own 400 detail, except undecodable bytes, which escape unhandled; a message passing them all is accepted |
| App.BadRequestBody | backend/app.py:126-160 | a body the ladder turns down becomes a 400 whose JSON body is `{"detail": <the failing check>}` |
| App.Me | backend/app.py:108-115 | `anonymous` holds iff `user_id` is absent; with no usable session the answer is anonymous; otherwise `user_id` is the session's |
| App.NewSessionIsAnonymous | backend/app.py:110-115 | a freshly created session is reported as anonymous with no user |
| App.HandleHttpException | backend/app.py:154-160 | the body is always an object: a mapping detail is passed through, anything else is wrapped as `{"detail": d}`; existing headers are never overwritten; `X-Request-Id` is added only for a non-empty id |
| App.CsrfRejectionBody | backend/app.py:154-157 | a CSRF check that fails as missing or as a mismatch becomes a 403 whose body is `{"detail": <reason>}` |
| Text.Strip | backend/settings.py:36 | the result is empty iff the input is all whitespace, and otherwise neither starts nor ends with whitespace |
| Text.StripIsSlice | backend/settings.py:36 | the stripped text is one contiguous piece of the input; only whitespace lies before and after it |
| Text.Split | backend/settings.py:36 | there is at least one segment, no segment contains the separator, and joining the segments with it gives the input back |
| Text.SplitOfJoin | backend/settings.py:36 | splitting undoes joining for separator-free segments |
| Text.SplitAtSeparator | backend/settings.py:36 | the segments of `a + sep + b` are those of `a` followed by those of `b` |
| Settings.EnvInt | backend/settings.py:10-17 | an unset variable gives the default; a value that does not parse gives the default; otherwise the parsed value |
| Settings.EnvIntReadsBack | backend/settings.py:14-17 | a variable holding the decimal text of `n` reads as `n`, or as the default when `n` has more than 4300 digits |
| Settings.EnvStr | backend/settings.py:20-21 | a set variable gives its value, even when empty; only an unset one gives the default |
| Settings.GetSettings | backend/settings.py:39-47 | with an empty environment the result holds the source's defaults: port 8000, the local front-end origin, `info`, 80 ms, 10240 bytes |
| Settings.StrippedNonBlank | backend/settings.py:36 | every kept entry is non-empty and unpadded; no more entries come out than went in |
| Settings.CorsOriginList | backend/settings.py:34-36 | every origin is non-empty, has no leading or trailing whitespace and contains no comma |
| Settings.CorsOriginsAtComma | backend/settings.py:36 | the origins of `a,b` are the origins of `a` followed by those of `b`, so order is kept |
| Settings.CorsOriginsSingle | backend/settings.py:36 | a comma-free entry gives its stripped self, or nothing if it is blank |
| Settings.DefaultCorsOrigins | backend/settings.py:36-43 | by default the origin list is exactly `["http://localhost:5173"]` |

## Left out

- The session garbage collector's task machinery (`asyncio` start, sleep, cancellation and shutdown, and the 60-second interval; `backend/core/sessions.py:59-62,67-89`): only one sweep is modelled.
- Concurrency: each dispatch is one atomic step. The source takes no locks, and interleavings are not modelled.
- Randomness: `secrets.token_urlsafe`, `secrets.token_hex` and `uuid4` become parameters. Only `Sessions.ResolveCreates` assumes that the fresh id is not already a key.
- The clock: `now` is a parameter. The `now or time.time()` fallback, which treats a `now` of 0 as absent, is not modelled. `rotate_sid` reads the clock twice; the model uses one `now`.
- Numerals.ParseInt: it does not accept the `_` digit separators or the non-ASCII decimal digits that Python's `int()` accepts. The 4300-digit limit is the default in Python 3.11, and from the security releases 3.7.14, 3.8.14, 3.9.14 and 3.10.7 onwards; earlier versions have none.
- IEEE floating point in the rate limiter: tokens and times are exact reals, so float rounding is not modelled.
- Csrf.RequireCsrf: on ASCII values `secrets.compare_digest` is modelled as plain string equality; its constant-time behaviour is not. Its `TypeError` on other values is the `Unhandled` outcome; the resulting 500 response is not modelled further.
- Framework wiring and middleware order (`backend/app.py:41-91`): middleware registration, the request-id middleware and CORS are out. The middleware that seeds the CSRF cookie is covered only through `Csrf.EnsureCsrfCookieFromRequest`. No composed pipeline is claimed.
- HTTP details: headers are looked up by exact name, without case folding. Cookie parsing, status-code plumbing of `HTTPException`, and the logging calls are not modelled.
- Reading the request body and `json.loads`: the validation ladder takes the raw body and its decoding as a parameter. `JsonError` stands for a `JSONDecodeError` only. `EncodingError` stands for the `UnicodeDecodeError` on bytes that are not UTF-8, UTF-16 or UTF-32 text; it gives the `Unhandled` outcome, and the resulting 500 response is not modelled. Which byte strings decode is not modelled. A failure of `request.body()` itself is not modelled either.
- The streaming delay `delay_seconds` and the `/healthz` endpoint are not modelled.
- Tuning constants read from the environment at import time (`SESSION_TTL`, default 1800; `FRESHNESS_WINDOW`, default 300; `RATE_LIMIT_RPS`, default 10.0) are constructor parameters of the stores. How they are read is not modelled.
- Utf8.Encode: Dafny characters are Unicode scalar values. A Python string containing a lone surrogate, on which `encode("utf-8")` raises, cannot be expressed.
- App.ValidateChat: it misses a second unhandled path. A decodable body such as `{"message": "\ud800"}` gives a non-blank message holding a lone surrogate. `message_too_large` (backend/app.py:35-36, called at line 141) then raises `UnicodeEncodeError` in `encode("utf-8")`, which nothing catches, so the request ends in a server error. A message cannot hold a lone surrogate in the model, so this path is not represented.
- App.ChunkText: it requires a non-zero size. Python's `range` raises `ValueError` for a step of 0, and the only caller passes 24.
- Sessions: records are values, not shared references. The aliasing between `request.state.session` and the stored record, through which a handler's later writes reach the store, is not modelled. Free-form session fields are restricted to string values.
- `record.get("tokens", RATE_LIMIT_BURST)`: the default is never used, because every stored bucket has a `tokens` field.
- The `secure` cookie flag is a parameter. The model does not read `APP_ENV`.
