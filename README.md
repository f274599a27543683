# Metawar backend: NFT snapshot sync and its helpers

This project models the core of the Metawar backend, a TypeScript service:

- **NFT snapshot sync.** Three marketplace adapters (GameStop, OpenSea, Immutable X) turn marketplace records into the common asset shape. Each one walks its marketplace's pagination. The `nfts:fetch` job picks an adapter per collection, flattens the results, and replaces the asset table by delete-then-insert. A disabled flag stops two runs from overlapping. The agenda router starts that job by hand.
- **Smaller pieces around the sync:**
  - the verification-code state machine (`checkCode`, `resendVerificationCode`) and `getPublic`;
  - the pagination-query sanitiser `parsePaginable`;
  - the access middlewares (reCAPTCHA, authentication, roles);
  - the configuration decisions (CORS origin, code range, nonce TTL, JWT key sources, audience);
  - the public-profile projection `getPublicSession`;
  - the mail-address normaliser `getEmailData`;
  - the image-resizer link `getResizedImage`;
  - the Loopring helpers `getBalance` and `updateNFTs`.

How the outside world is modelled:

- **HTTP.** Each request is answered by an oracle: a sequence of replies indexed by request number. A reply is `Reply(status, body)` or `Rejected`: the fetch promise rejected because the body was not JSON or the response stream failed. A body of `None` stands for JSON that lacks the fields the code reads.
- **Pagination.** The walks are stated for oracles in which some reply ends the walk.
- **Time and randomness.** The current time (`now`) and the drawn verification code (`draw`) are parameters.
- **Timestamps.** A parsed timestamp is an `Option<int>`.
- **Database.** Tables are sequences held in the fields of a class (`Agenda.Scheduler`, `UserHelpers.CodeTable`).

State-changing code is modelled imperatively:

- the pagination loops, the job handler, the code table and the Loopring key collection;
- each is proved against specification functions, whose properties are proved as lemmas.

Expression-style code is modelled as functions with lemmas.

## Model

| member | source | states |
|---|---|---|
| GameStop.GetPublicLink | src/services/gamestop.service.ts:61-70 | a `public/` link becomes `https://static.gstop-content.com` followed by the rest after `public`; an `ipfs://` link becomes the gateway URL plus the rest; any other link, `''` included, is unchanged |
| GameStop.PublicLinkIdempotent | src/services/gamestop.service.ts:61-70 | a rewritten link is never rewritten again |
| GameStop.AssetToNFT | src/services/gamestop.service.ts:72-94 | the asset has `iid = tokenId`, `owner = ''`, `colId = collection.id`, `name` or `''`, the token-page `url`, and `image` from the thumbnail, then the media URI, then `''`, through `getPublicLink`; an unparsable timestamp becomes `now` and a valid one is kept |
| GameStop.MapAssets | src/services/gamestop.service.ts:117 | the page's items are mapped one by one, in order |
| GameStop.All | src/services/gamestop.service.ts:96-130 | the loop resolves or rejects exactly as `FetchAll` and makes exactly the calls of `CallLog` |
| GameStop.WalkClosedForm | src/services/gamestop.service.ts:102-129 | the unrolled loop gives the in-order concatenation of the mapped items of every accepted page up to the first reply that ends the walk: an empty page, `offset + limit >= totalNum`, or a failure |
| GameStop.CallLogShape | src/services/gamestop.service.ts:103-126 | the first request is at offset 0; request `k` is at `OffsetAt(k)`; a 600 ms wait separates requests, and none follows the last |
| GameStop.NonOkRetries | src/services/gamestop.service.ts:110-126 | a non-200 reply adds nothing and keeps the offset, so after the wait the same offset is requested again |
| GameStop.FetchAllBelongs | src/services/gamestop.service.ts:81-91 | every asset `all` resolves with has the walked collection's id and valid timestamps |
| OpenSea.AssetMeta | src/services/opensea.service.ts:40-45 | `meta` holds exactly `token_standard`, `metadata_url`, `is_disabled` and `is_nsfw`, taken from the record |
| OpenSea.AssetToNFT | src/services/opensea.service.ts:32-59 | the asset has `iid = identifier`, `image = image_url` or `''`, `owner = ''`, `name` or `''`, the four-key `meta`, the OpenSea asset `url`; an unparsable timestamp becomes `now` |
| OpenSea.MapAssets | src/services/opensea.service.ts:78 | the page's items are mapped one by one, in order |
| OpenSea.All | src/services/opensea.service.ts:61-91 | the loop resolves or rejects exactly as `FetchAll` and makes exactly the calls of `CallLog` |
| OpenSea.WalkClosedForm | src/services/opensea.service.ts:63-90 | every 200 page's items are appended, even an empty page; the walk stops at the first 200 page whose `next` is falsy |
| OpenSea.CallLogShape | src/services/opensea.service.ts:64-87 | the first request has an empty `next`; every request carries the API key; request `k` follows `TokenAt(k)` verbatim; the configured delay separates requests, and none follows the last |
| OpenSea.NonOkRetries | src/services/opensea.service.ts:75-87 | a non-200 reply adds nothing and keeps `next`, so after the delay the same cursor is requested again |
| OpenSea.FetchAllBelongs | src/services/opensea.service.ts:46-56 | every asset `all` resolves with has the walked collection's id and valid timestamps |
| Imx.AssetToNFT | src/services/imx.service.ts:38-60 | the asset has `iid = token_id`, `owner = user`, `image` or `''`, `name` or `''`, `meta = metadata`, the Immutable X asset `url`; an unparsable timestamp becomes `now` |
| Imx.MapAssets | src/services/imx.service.ts:78 | the page's items are mapped one by one, in order |
| Imx.All | src/services/imx.service.ts:62-83 | the loop resolves or rejects exactly as `FetchAll` and makes exactly the calls of `CallLog` |
| Imx.WalkClosedForm | src/services/imx.service.ts:64-82 | the unrolled loop gives the concatenation of the pages before the first empty one; the status is never read |
| Imx.CallLogShape | src/services/imx.service.ts:65-79 | the first request has an empty cursor; request `k` follows `data.cursor` verbatim; there is no wait |
| Imx.FetchAllBelongs | src/services/imx.service.ts:47-57 | every asset `all` resolves with has the walked collection's id and valid timestamps |
| Nft.Patched | src/services/gamestop.service.ts:87-91 | an Invalid Date becomes `now`; a valid date is kept; nothing else changes |
| Nft.PatchTimestamps | src/services/gamestop.service.ts:87-91 | the `forEach` over `updatedAt` and `createdAt` produces `Patched` |
| Agenda.ParseCollection | src/lib/agenda.ts:16-28 | `GAMESTOP`, `OPENSEA` and `IMX` collections are walked by their own adapter |
| Agenda.FetchedBelongs | src/lib/agenda.ts:16-28 | what a collection's adapter resolves with belongs to that collection |
| Agenda.Results | src/lib/agenda.ts:35 | one adapter result per collection, in collection order |
| Agenda.Gather | src/lib/agenda.ts:34-35 | the loop gives the flattening of the per-collection results, in collection order, or the first failure |
| Agenda.FlatSucceeds | src/lib/agenda.ts:35 | the flattening succeeds if and only if every collection's walk succeeds |
| Agenda.FlatPrefix | src/lib/agenda.ts:35 | the assets of the first `m` collections are a prefix of the flattened list |
| Agenda.GatheredFromCollections | src/lib/agenda.ts:34-35 | every gathered asset comes from a stored collection and has valid timestamps |
| Agenda.Snapshot | src/lib/agenda.ts:31-43 | a skipped or failed run leaves the asset table as it was; a successful one makes it exactly the gathered list |
| Agenda.RunEvents | src/lib/agenda.ts:31-45 | a skipped run touches nothing; otherwise the job is disabled and saved before the collections are read, delete-then-insert happens only on success, and the job is re-enabled last |
| Agenda.Scheduler.Fetch | src/lib/agenda.ts:30-46 | the `nfts:fetch` handler: jobs and collections are unchanged afterwards, the asset table is `Snapshot`, the journal grows by `RunEvents`, and every stored asset still comes from a stored collection |
| Agenda.Scheduler.Replace | src/lib/agenda.ts:38-40 | `deleteMany` then `createMany`: the table becomes exactly the new list |
| Agenda.Scheduler.SaveJob | src/lib/agenda.ts:32 | only the job's `disabled` flag changes, and the save is journalled |
| Agenda.Scheduler.GetJob | src/lib/agenda.ts:48-50 | the first job with the given name, or nothing |
| Agenda.FirstNamed | src/lib/agenda.ts:49 | the index of the first job with the name; no earlier job has it; `None` when none has it |
| AgendaRouter.Run | src/routers/agenda.router.ts:12-33 | in order: non-admins get FORBIDDEN, bad input gets BAD_REQUEST, a missing job gets NOT_FOUND, and none of them changes anything; otherwise the handler runs and `true` is returned |
| AgendaRouter.OnlyAdmins | src/routers/agenda.router.ts:13 | a missing user, or one without roles, is refused |
| AgendaRouter.OnlyFetchJobInput | src/routers/agenda.router.ts:15-20 | the input is accepted if and only if it is exactly `{ name: 'nfts:fetch' }` |
| UserHelpers.FindCode | src/helpers/user.helpers.ts:41-47 | the first row matching address, code (when given) and type, or nothing |
| UserHelpers.CodeTable.CheckCode | src/helpers/user.helpers.ts:29-101 | a missing row gives NOT_FOUND, as do too many tries and a try within `tryDelay`, and each of these changes nothing; otherwise the row is deleted and `true` returned; the wrong-code branch is unreachable |
| UserHelpers.ConsumedOnce | src/helpers/user.helpers.ts:94-100 | once a code has been consumed, the same check finds no row |
| UserHelpers.CodeTable.ResendVerificationCode | src/helpers/user.helpers.ts:103-195 | an active user asking for VALIDATE_EMAIL gets BAD_REQUEST with nothing changed; with no row, a row with the lower-cased address and the drawn code is created with 0 resends; otherwise too many resends or a resend within `tryDelay` is refused, or `nb_resends` goes up by 1, `last_resend_at` becomes now, and the code is unchanged |
| UserHelpers.GetPublic | src/helpers/user.helpers.ts:197-205 | `null` data gives null; a `'user'` payload gives the public session, null when the user is inactive; any other payload gives its data |
| Session.GetPublicSession | src/lib/session.ts:19-40 | an inactive user gives null; otherwise the listed columns are copied, `active` is true, an empty picture becomes the default logo, and `name` is first and last name joined by a space |
| Session.PublicPictureNonEmpty | src/lib/session.ts:36 | an active user's public picture is never empty |
| Paging.Skip | src/middlewares/common.middlewares.ts:8-11 | NaN or negative gives 0; otherwise the floor; never NaN or negative |
| Paging.Top | src/middlewares/common.middlewares.ts:9-12 | always a whole number in [0, 100]; NaN, negative or above 100 gives 100, not the nearest bound |
| Paging.SelectProperties | src/middlewares/common.middlewares.ts:13-16 | every kept name is trimmed, allowed and from the input; there are no duplicates; every allowed input name is kept; names come in the order of their last occurrences in the input |
| Paging.KeptComplete | src/middlewares/common.middlewares.ts:16 | an allowed name is kept when its last occurrence is among the pieces filtered |
| Paging.KeptOrder | src/middlewares/common.middlewares.ts:16 | kept names are ordered by the index of their last occurrence, so `"a,b,a"` gives `b` before `a` |
| Paging.SelectRoundTrip | src/middlewares/common.middlewares.ts:17 | splitting the joined `$select` on `,` gives back the kept names |
| Paging.ParsePage | src/middlewares/common.middlewares.ts:6-17 | `$skip` is never NaN or negative, and `$top` is in [0, 100] |
| Paging.Defaults | src/middlewares/common.middlewares.ts:6 | missing `$skip`, `$top` and `$select` give 0, 100 and `''` |
| Paging.ParsePaginable | src/middlewares/common.middlewares.ts:4-29 | the context keeps every field and gains only `page`, the sanitised query |
| Access.VerifyRecaptchaToken | src/middlewares/access.middlewares.ts:8-39 | disabled means `true` without reading the token; when enabled it returns `true` if and only if the token is present and non-empty and the reply is a 200 with a body whose score is not below `minScore` (a missing score counts as not below); a missing token, a rejected request, a status other than 200 and a low score each give FORBIDDEN with their own message; a `null` body gives a non-FORBIDDEN error |
| Access.FailedVerificationPasses | src/middlewares/access.middlewares.ts:33-38 | as written, a 200 reply reporting `success: false` with no score is accepted |
| Access.VerifyRecaptchaChecked | src/middlewares/access.middlewares.ts:8-39 | the corrected decision; disabled means `true` |
| Access.RecaptchaCheckedAccepts | src/middlewares/access.middlewares.ts:33-38 | when enabled, the corrected decision accepts exactly a present token verified with `success` and a score of at least `minScore`, and otherwise fails with FORBIDDEN |
| Access.RecaptchaCheckedStricter | src/middlewares/access.middlewares.ts:33-38 | the corrected decision accepts nothing the written one rejects |
| Access.IsAuthenticated | src/middlewares/access.middlewares.ts:41-45 | passes the user through if and only if it is present and active; otherwise FORBIDDEN |
| Access.CheckRoles | src/middlewares/access.middlewares.ts:47-58 | with no `allowed` list everything passes; with one, a user passes if and only if it holds a listed role |
| Access.CheckRolesRejects | src/middlewares/access.middlewares.ts:51-55 | a missing user or an empty `allowed` list is always refused |
| Access.ProtectedProcedure | src/middlewares/access.middlewares.ts:41-68 | passes if and only if both checks pass, handing on the context's own user; a role failure is reported whatever the authentication; when the role check passes, an authentication failure is the bare FORBIDDEN |
| Access.RolesCheckedFirst | src/middlewares/access.middlewares.ts:67-68 | for a missing user, the role check's error is the one reported |
| Config.FindPrefix | src/config/index.ts:84 | the first whitelist entry that is a prefix of the origin, or none |
| Config.CorsOrigin | src/config/index.ts:75-86 | `'*'` allows any origin whatever the request; no origin gives `false`; otherwise the origin is allowed if and only if the first comma-separated entry it starts with is non-empty, so an empty entry (a trailing comma) refuses every origin that no earlier entry matches |
| Config.CorsPrefixMatch | src/config/index.ts:83-85 | when no comma-separated entry is empty, a non-empty origin is allowed if and only if some entry is a prefix of it |
| Config.CorsAllowsExtendedOrigin | src/config/index.ts:83-85 | when no entry is empty, every origin that extends an entry (a longer host name, say) is allowed |
| Config.CodeRangeFor | src/config/index.ts:102-103 | `min = 10^(L-1)` and `max = 10^L - 1` |
| Config.CodeRangeDigits | src/config/index.ts:102-103 | every code in `[min, max)` has exactly L digits, and so has `max` |
| Config.NonceTtl | src/config/index.ts:56 | the TTL in milliseconds is the setting times 1000 |
| Config.KeySource | src/config/index.ts:25-38 | a setting starting with `-----BEGIN` is used verbatim; otherwise the file's content, or nothing when the file cannot be read |
| Config.JwtKeySources | src/config/index.ts:24-39 | each key is its setting's source, or the default `''` |
| Config.Audience | src/config/index.ts:134 | `aud` is the setting split on `,`: the pieces hold no comma and join back to the setting |
| Mailer.GetEmailData | src/lib/mailer.ts:30-42 | a falsy input gives undefined; a string becomes `{ email }`; an object is passed through; `isArray` wraps a single record; an array gives a list of the same length, each element normalised on its own |
| Mailer.Element | src/lib/mailer.ts:36-40 | reference definition of one array element |
| Mailer.NormalisedIsFixed | src/lib/mailer.ts:30-42 | normalising an already normalised value changes nothing |
| MiscHelpers.GetResizedImage | src/helpers/misc.helpers.ts:3-8 | an empty URL gives the broken-image URL; otherwise the link starts with `publicUrl + "/resizer/url="` |
| MiscHelpers.ResizedQuery | src/helpers/misc.helpers.ts:5-7 | the query splits on `&` into exactly the encoded URL and `w=` followed by the size, 640 by default; the encoded URL decodes back to the original |
| MiscHelpers.ImageParamRoundTrip | src/helpers/misc.helpers.ts:5-6 | percent-decoding, base64-decoding and UTF-8-decoding the parameter gives the URL back |
| MiscHelpers.ImageParamIsSafe | src/helpers/misc.helpers.ts:5-7 | the parameter holds no raw `&`, `=`, `+` or `/` |
| Encoding.Utf8RoundTrip | src/helpers/misc.helpers.ts:6 | UTF-8 decoding inverts `Buffer.from` |
| Encoding.Base64RoundTrip | src/helpers/misc.helpers.ts:6 | padded base64 (section 4 of RFC 4648) decodes back to its bytes |
| Encoding.URIRoundTrip | src/helpers/misc.helpers.ts:5 | `decodeURIComponent` inverts `encodeURIComponent` |
| Encoding.EncodedIsSafe | src/helpers/misc.helpers.ts:5 | `encodeURIComponent` output holds only `%` and unreserved characters |
| Loopring.CollectKeys | src/helpers/loopring.helpers.ts:28-39 | the `forEach` builds `Dedup` of the `nftData` values and of the `tokenAddress` values |
| Loopring.DedupMembers | src/helpers/loopring.helpers.ts:31-39 | a value is in the list if and only if it is non-empty and occurs in the input |
| Loopring.DedupDistinct | src/helpers/loopring.helpers.ts:32-36 | each value appears once |
| Loopring.DedupOrder | src/helpers/loopring.helpers.ts:31-39 | the values are in first-occurrence order |
| Loopring.GetBalance | src/helpers/loopring.helpers.ts:13-65 | with no active NFT it throws `No NFTs found` before any request; a non-200 account call stops after one request with `Error while fetching Loopring account ID`, and a rejected one rejects after one request; a 200 account reply with a `null` body rejects after one request; otherwise the second request carries the encoded account id and the joined key lists, a rejected second call rejects, and a non-200 second call throws the account-ID message again; it succeeds if and only if both calls return 200, with the balance body |
| Loopring.Active | src/helpers/loopring.helpers.ts:14-22 | exactly the active rows |
| Loopring.Candidates | src/helpers/loopring.helpers.ts:68-99 | exactly the active rows with non-empty `nftId`, `minter` and `tokenAddress` and no `nftData` |
| Loopring.Requests | src/helpers/loopring.helpers.ts:105-121 | one lookup per candidate, in order, with its `nftId`, `tokenAddress` and `minter` |
| Loopring.MatchId | src/helpers/loopring.helpers.ts:127-135 | the id of the first candidate matching `nftId`, `tokenAddress` and `minter` up to case; none if and only if no candidate matches |
| Loopring.MatchIgnoresCase | src/helpers/loopring.helpers.ts:127-131 | changing the case of the reply's fields does not change the matched row |
| Loopring.UpdatesAppend | src/helpers/loopring.helpers.ts:123-143 | the updates of two consecutive reply lists are the updates of the first followed by those of the second, so updates follow reply order |
| Loopring.UpdatesOfOne | src/helpers/loopring.helpers.ts:125-142 | one reply gives exactly one update when its status is 200 and none otherwise |
| Loopring.UpdatesFromOkReplies | src/helpers/loopring.helpers.ts:123-144 | every update comes from a 200 reply with its `nftData` and matched id; with no 200 reply there is no update |
| Loopring.UpdateNFTs | src/helpers/loopring.helpers.ts:67-147 | with no candidate it returns `true` without fetching; a rejected lookup or unreadable 200 body rejects with no update; otherwise one update per 200 reply, and the run resolves with `true` if and only if every 200 reply matches a candidate, rejecting otherwise because the database refuses an update with no `id` |
| Loopring.OkRepliesGiveUpdates | src/helpers/loopring.helpers.ts:123-143 | every 200 reply gives an update carrying its `nftData` and the id of the row it matches |
| Loopring.SucceedsIffEveryUpdateHasId | src/helpers/loopring.helpers.ts:123-146 | when every lookup succeeds, the run resolves with `true` if and only if every update names a row |

## Left out

- **Time and waits.** Clocks, `wait$` delays and `new Date()` are parameters. The waits appear as `Wait` entries in the adapters' call logs and have no other effect.
- **Concurrency.** `Promise.all` runs in parallel in the source; the model runs the collections, and the Loopring lookups, one after the other. When several requests fail, which rejection is reported first is not modelled.
- **Date parsing.** Parsing and floating-point dates are abstracted: a parsed timestamp is `Option<int>`.
- **URLs and logging.** Base URLs, fixed query parameters (`limit`, `sortBy`, `collectionId`, `page_size`) and logging are not part of the call logs. The logs record only what varies between requests: the offset, the cursor, the API key and the waits.
- **Connection failures.** `lib/fetch.ts` listens for `error` only on the response (lines 40-42), not on the request that `https.request` returns. A failure before any response arrives (DNS, refused connection, TLS) is therefore an unhandled `error` event: the promise never settles and the process ends. The model has no reply for that case. `Rejected` covers only unparseable JSON and response-stream errors, so the guarantees that such a failure is caught (the job re-enabled last by `Agenda.RunEvents`, "Error while verifying ReCaptcha token" from `Access.VerifyRecaptchaToken`) hold only for those.
- **Pagination termination.** The walks require some reply in the oracle to end the walk. An endless walk against a source that never stops is not modelled.
- **Background job.** `job.run()` is not awaited in the router. The model runs the handler to completion within `AgendaRouter.Run`, so a run that is already disabled does nothing, as the source does.
- Agenda: a database failure inside `deleteMany` or `createMany` is not modelled. Only adapter failures are caught before the table is touched.
- **Scheduling.** Agenda's scheduler (`start`, `every`) and the job store's persistence are not part of this model. Jobs are a sequence in `Agenda.Scheduler`.
- **Job name.** The job is named `nfts:fetch`, as the code has it, in the handler and in the router's input schema.
- AgendaRouter.Run: a zod rejection is modelled as BAD_REQUEST with the fixed message `Invalid input`. The zod error text is not modelled. Input values are `Nft.Scalar` values.
- **Text handling.**
  - `toLowerCase` is modelled on ASCII letters only (`Text.ToLower`).
  - Strings are sequences of Unicode scalar values. A JavaScript string holding a lone UTF-16 surrogate, which `Buffer.from` turns into U+FFFD, is not modelled.
- UserHelpers.CodeTable.ResendVerificationCode: `randomInt` is the `draw` parameter. The e-mail `notify` call and its template choice are left out.
- **Verification-code storage.** A new row's `nb_tries` and `last_try_at` take the schema defaults 0 and none.
- **Mail, tokens and crypto.** Sending mail (`sgSend`, `brevoSend`, `pmSend`, `notify`), bcrypt hashing, JWT signing and verification, and reading key files are abstract. Key files are a map from path to content.
- Access.VerifyRecaptchaToken: the score is a `real`. A reply body of JSON `null` is modelled as the TypeError the property access throws, which surfaces as INTERNAL_SERVER_ERROR. `withRecaptcha` only runs this check before the procedure and is not modelled separately.
- **Request values.**
  - `parsePaginable` numbers are `Paging.Number`: NaN, ±Infinity, or a finite real, after the unary `+`.
  - The getResizedImage `size` is a natural number.
- Mailer.GetEmailData: an object is passed through unchanged. The model does not check its fields.
- Loopring.UpdateNFTs: a 200 reply that matches no candidate gives an update with no id (`found?.id` is `undefined`); the database client refuses a `where` with no unique field, so the model settles such a run as rejected. Whether the other updates of that run are applied before the rejection is not modelled. When a 200 body cannot be read, the model rejects with no update; whether updates already built by `map` run anyway depends on the database client and is not modelled.
- Loopring.GetBalance: the balance reply's body is returned as it is, `None` when empty; its shape is a type parameter.
- **Other files.** Everything outside the files cited above is not part of this model: routers other than the agenda router, the Express and tRPC plumbing, and the mutex helper.

## Findings

| source | as written | input that shows it | evidently intended | confidence | as-written member | corrected member |
|---|---|---|---|---|---|---|
| src/middlewares/access.middlewares.ts:33-38 | only `status !== 200 \|\| data.score < minScore` rejects; `success` is never read, and a missing score compares as not below `minScore` | reCAPTCHA enabled, any non-empty token, and a 200 reply `{ success: false }` with no `score` (the usual answer for an invalid token): the token is accepted | accept only a reply with `success: true` and a score of at least `minScore` | not executed | Access.FailedVerificationPasses | Access.RecaptchaCheckedAccepts |
