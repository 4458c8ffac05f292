# Vote-role expiry tracker, modelled in Dafny

The bot gives a chat role to users who vote for it on a bot-list site and takes it
away a week later unless they vote again. Its core is a vote table, a sweep that
removes expired votes, and the `/webhook` handler. This project models that core:

- `votes.dfy`, module `Votes`: the vote table (one row per user id holding an expiry
  in epoch milliseconds) as a class over a `map<string, int>`, with `UpdateVote`,
  `RemoveVote` and `GetExpiredVotes`, specified by the functions `Upsert`, `Remove`
  and `Expired`, and lemmas about renewal, expiry and the sweep's net effect.
- `sweeper.dfy`, module `Sweeper`: the expiry checker as a class holding the
  `isChecking` flag and the table. A tick is split into the guard (`Begin`), one pass
  over the snapshot (`Sweep`) and the `finally` that clears the flag (`Finish`); `Tick`
  runs all three. In the program a second tick can only fire during the awaits inside
  the pass. Such a tick reads only the flag, which stays set for the whole pass, so
  the model places it between `Begin` and `Sweep`.
  The revoke call is a pure function value, so it cannot touch the table. Its
  outcome is recorded, and the row is deleted whatever it is.
- `webhook.dfy`, module `Webhook`: the pure decision steps (`Authorized`,
  `ExtractUserId`, `Decide`), with JavaScript truthiness for strings, and
  `HandleWebhook`, which answers 401, 400 or 200 and upserts the table only on 200.
  The grant step is a pure function value whose outcome never reaches the status.
- `scenarios.dfy`, module `Scenarios`: the one-week boundary, a vote with no secret
  configured, and a tick that fires while another tick's pass is running.
- `wrappers.dfy`: an `Option` type standing for "maybe `undefined`".

The clock (`Date.now()`) is the `now` argument of every operation that reads it.

## Model

| member | source | states |
|---|---|---|
| Votes.Upsert | index.js:41-50 | after an upsert the user maps to `now + VOTE_DURATION_MS`; the key set only gains that user (one row per user); every other row is unchanged |
| Votes.Remove | index.js:53-56 | the user has no row afterwards; every other row is kept with its expiry; deleting an absent user changes nothing |
| Votes.VoteStore.constructor | index.js:16-22 | the table starts empty |
| Votes.VoteStore.UpdateVote | index.js:41-50 | returns `now + VOTE_DURATION_MS`, and the table becomes `Upsert` of the old table, so the user's row holds exactly the returned expiry |
| Votes.VoteStore.RemoveVote | index.js:53-56 | the table becomes `Remove` of the old table |
| Votes.VoteStore.GetExpiredVotes | index.js:59-63 | the snapshot holds a user id if and only if that user has a row with `expires_at <= now`; each id appears once, so its length is the number of expired users; the table is not changed |
| Votes.RemoveUndoesUpsert | index.js:41-56 | deleting a user right after upserting them gives the same table as deleting alone |
| Votes.RenewalIsMonotonic | index.js:41-50 | a renewal at a later `now` never moves the expiry backwards and adds no second row |
| Votes.FreshVoteExpiresAfterOneWeek | index.js:41-63 | a vote recorded at `t` is expired at `now` exactly when `now >= t + VOTE_DURATION_MS` |
| Votes.ExpiredIsMonotonic | index.js:59-63 | a vote expired at some time is still expired at every later time |
| Votes.SweepKeepsOnlyLiveVotes | index.js:137-172 | deleting every expired row keeps exactly the rows with `expires_at > now`, with unchanged expiries, and leaves no expired row |
| Votes.SnapshotSize | index.js:137-140 | a snapshot without duplicates has as many ids as distinct users, which makes `expiredVotes.length` the number of expired users |
| Sweeper.ExpiryChecker.constructor | index.js:131 | the flag starts cleared |
| Sweeper.ExpiryChecker.Begin | index.js:133-134 | the tick enters if and only if no pass is running, and the flag is set afterwards either way |
| Sweeper.ExpiryChecker.Sweep | index.js:136-173 | each expired id is processed once; each processed id is expired; the table loses exactly the processed ids whatever the revoke outcomes; the flag is left alone; one outcome per id, from the revoke when the guild was found and `RevokeGuildMissing` otherwise |
| Sweeper.ExpiryChecker.Finish | index.js:176-178 | the flag is cleared |
| Sweeper.ExpiryChecker.Tick | index.js:131-179 | with a pass already running, nothing changes and nothing is revoked; otherwise the table loses exactly its expired rows, each expired id is attempted once, and the flag ends cleared |
| Sweeper.SweptIdsAreGone | index.js:145-172 | after a pass no processed id has a row, and every row outside the snapshot keeps its expiry |
| Webhook.AuthorizedExactlyWhenNot401 | index.js:71-74 | a request passes the authorization check (no secret configured, unset or empty, or a header equal to the secret) if and only if the handler does not answer 401 |
| Webhook.ExtractUserId | index.js:79-81 | an id is found if and only if `body.id` or `body.user.id` is a non-empty string; the id found is non-empty and is one of the two; `body.id` takes precedence |
| Webhook.Decide | index.js:70-84 | 401 exactly when a secret is configured and the header differs; 400 exactly when authorized but both ids are missing or empty; otherwise accept the non-empty id, `body.id` first |
| Webhook.HandleWebhook | index.js:66-123 | the status is a function of the secret and the request alone, whatever the grant does; on 401 and 400 the table is unchanged and no grant is attempted; on 200 the table is the upsert of the extracted id at `now` |
| Webhook.NoIdMeansBadRequest | index.js:79-84 | an authorized request whose two id fields are both missing or empty gets 400 |
| Webhook.TopLevelIdTakesPrecedence | index.js:79 | an authorized request with a non-empty `body.id` is accepted with that id, whatever `body.user.id` holds |
| Webhook.WrongSecretIsUnauthorized | index.js:71-74 | with a non-empty secret and a different or missing header, the answer is 401 whatever the body holds |
| Scenarios.ExpiryAroundOneWeek | index.js:41-63 | a vote recorded at `t0` is not yet expired at `t0 + 7d - 1ms`, and at `t0 + 7d + 1ms` the snapshot is exactly that user |
| Scenarios.VoteWithoutSecret | index.js:66-123 | a body `{"id": "u42"}` with no secret configured gets 200 and records `u42` until `now + 7d`, even when the grant fails |
| Scenarios.OverlappingTicks | index.js:131-179 | a tick that fires while another tick's pass is running does nothing; the first pass processes its batch exactly once; the table ends empty and the flag is cleared |

## Left out

- The Discord client is left out: the guild cache lookup, member fetch, role add and remove, and direct messages (index.js:24-32, 93-121, 143-168). These are network calls. The model keeps only whether the guild was found, plus a pure outcome function per user, so they cannot change the table.
- The Express server, body parsing, `app.listen` and login (index.js:34-36, 181-190) are HTTP and process plumbing.
- The SQLite file and table creation are left out. The table is an in-memory map, so durability across restarts is not modelled.
- Storage failure is not modelled. That covers the 500 response (index.js:124-127) and a sweep pass aborted part-way by an exception (index.js:174-175). An in-memory map cannot fail.
- `setInterval` timing, and interleavings of a webhook with a sweep pass paused at one of its awaits, are not modelled. In such an interleaving, a renewal arriving during a pass for a user already in the snapshot is deleted by that pass. A tick is sequential here. The only interleaving modelled is a second tick during a running pass (`Scenarios.OverlappingTicks`).
- Logging, `dotenv` configuration loading and the constants `ROLE_ID`, `PORT` and `IP` have no behaviour to verify.
- Webhook.ExtractUserId: only string-or-missing ids are modelled. A non-string `body.id` (a number, `null`, `false`, an object) is outside the model. A missing or `null` `body.user` is `None` for `body.user.id`.
- Integer width: timestamps are unbounded integers. JavaScript numbers represent epoch milliseconds exactly far beyond any realistic date, so nothing is lost.
