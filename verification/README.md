# wireops, verified

A Dafny model of the parts of wireops, a control plane for Docker stacks, where the
behaviour is hardest to see from the code: protocols that several goroutines run at once,
stores that encrypt and mask, two checkers that must agree, and string algorithms that
stand for something simpler. `dafny verify dfyconfig.toml` checks all of it.

How the model is laid out:

- **OAuth refresh** (`OAuthProtocol`, `OAuthSafety`, `OAuthReuse`, `OAuthRuns`,
  `OAuthStore`). One stored credential, any number of loads, a single-flight refresh body,
  a provider that rotates refresh tokens as in section 6 of RFC 6749, saves that fail,
  manual reconnects and the clock. Every atomic section of the code is an event of a state
  machine; the theorems are about every run. `OAuthStore.Process` is the refresh body as
  code on a heap, with other events allowed before each of its atomic sections; whatever it
  does is a run of the machine.
- **Integration configs** (`IntegrationModel`, `IntegrationRefinement`,
  `IntegrationStore`). Loading, masking and saving as values, the proof that the store is a
  plain map of plaintexts, and the code on a heap of maps, lists and entries, which never
  writes to an object of the caller. Encryption is any pair of functions with
  `open(seal(p, nonce)) = p`, nonces are parameters.
- **Environment variables** (`EnvSecrets`, `EnvOverlap`, `EnvBulk`, `EnvBulkLaws`). The record
  hooks over every history of writes, one after the other or overlapping, and the bulk
  upsert: a listing, whatever others write meanwhile, then the transaction. Saving a loaded record writes the fields that differ from what was
  loaded, as PocketBase does; saving one whose row is gone touches nothing, and deleting it
  succeeds, unless the database says otherwise.
- **Job runs** (`JobRuns`, `JobScheduler`). Runs as a state machine; the scheduler's sweeps
  and handlers as code with other events between any two locked sections.
- **Policy and lint** (`PathPolicy`, `PolicyChecks`, `ComposePolicy`, `ComposeSafety`, `Lint`,
  `LintRules`, `LintReport`, with `Ordering` for byte order and `Text` for string helpers).
  The fail-fast and the collecting checker, what their path tests mean, what acceptance of a
  config means, and what a lint report contains.
- **Smaller algorithms** (`RateLimiter`, `YamlWalk`, `YamlAmbiguity`, `LogBroker`,
  `LogChannels`, `LineWriter`, `LogTime`, `Utf8Tail`, with `Decimals`).

## Where the code falls short of the plain statement

- *A consumed refresh token is never redeemed again* is false of the code: a reconnect
  whose reply carries no refresh token leaves the stored one in place
  (`internal/routes/git_provider_routes.go:257-259` sets it only when there is one). If a
  newer token is pending or being saved for that row, or a running refresh is about to
  redeem the stored one, the next refresh redeems a consumed token.
  `OAuthReuse.BareReconnectReusesIffAtRisk` gives the exact condition, in terms of what the
  server itself holds; `OAuthReuse.BareReconnectExample` is a run. With a provider that
  always sends a refresh token the law holds (`OAuthReuse.RotatingProviderIsCareful`).
- *A pending pair is never used once the row stops matching its base* is false: a reconnect
  can land between the body's read of the row (`internal/git/credential_store.go:213`) and
  its look at the pending pair (line 234), and the pair is then compared with the row as
  read. `OAuthRuns.StalePairExample` is a run that redeems it,
  `OAuthRuns.StalePairIsUsedIffInFlight` the exact condition. It is never stored
  (`OAuthRuns.StalePairIsNeverStored`).
- *A load begun after a reconnect gets the new credential's token* is false when it joins a
  body that read the row before; `OAuthRuns.LoadBehindExample` is a run,
  `OAuthRuns.LoadGetsOldTokenIffBehind` the exact condition.
- *Saving back a masked config changes nothing* fails for a secret made of white space and
  for two entries under one key; `IntegrationRefinement.MaskedSaveKeepsStore` says exactly
  when it holds.
- *A replace leaves exactly the payload's keys* fails in two ways. The rows are listed
  (`internal/routes/env_var_routes.go:236`) before the transaction is opened (line 251), so a
  key added in between stays: of two replaces under way at once, both payloads can be left
  (`EnvBulkLaws.TwoReplacesLeaveBoth`). And the index keeps one row per key while nothing in
  the schema forbids two (`EnvBulkLaws.StrayKeySurvives`).
  `EnvBulkLaws.ReplaceLeavesPayload` is the exact condition on what was listed and what the
  transaction finds, `EnvBulkLaws.UndisturbedReplace` the one when nobody writes in between.
- *An append leaves the union of the keys* fails when a listed row with a payload key is
  gone, or renamed, by the time of the transaction: `EnvBulkLaws.AppendLeavesUnion`.
- *The counters of a replace account for the table* fails when a row to delete is gone
  already, since its deletion is counted all the same: `EnvBulkLaws.CountersAddUpIff`.
- *A secret keeps its effective provider* holds while every write loads the row as it then
  stands (`EnvSecrets.SecretsStaySecret`), or at least since it is secret
  (`EnvOverlap.LoadedSinceIsKept`). It fails for a record loaded before that: the hooks check
  it against the row as loaded (`internal/hooks/pb_hooks.go:1486-1505`), and a bulk request
  loads its rows before its transaction. `EnvOverlap.StaleSaveMovesProviderIff` is the exact
  condition for one save, `EnvOverlap.ProviderKeptIff` for every history,
  `EnvBulkLaws.StaleRequestMovesProvider` an instance. That a secret stays secret holds
  however writes overlap (`EnvOverlap.SecretForever`).
- *An internal secret's value is blank, the mask, or decryptable* holds under the same two
  hypotheses (`EnvSecrets.StoredSecretsStayDecryptable`) and fails when secret flag, provider
  and value come from different writes: `EnvOverlap.StaleSaveBreaksSecretIff` is the exact
  condition for one save, `EnvOverlap.DecryptableIff` for every history,
  `EnvBulkLaws.PlainValueInSecretRow` and `EnvBulkLaws.ReferenceInInternalSecret` are
  instances.
- *A masked field keeps the stored value* fails when another save of the same integration
  falls between this one's read of the row and its write
  (`internal/integrations/store.go:244-379` has no transaction): the ciphertext carried over
  is the one read. `IntegrationRefinement.OverlappingSaveLosesIff` is the exact condition,
  `IntegrationRefinement.OverlappingSaveExample` an instance.
- *A policy that blocks host volumes keeps the host's directories out* fails for a named
  volume bound to one by its driver options, which only the socket check looks at:
  `ComposeSafety.BoundPathsMeetOnlyTheSocketCheck`, with `ComposeSafety.BoundVolumeIsAccepted`
  for an instance.
- *What is read back is the value supplied* fails for a value that itself decrypts under the
  server's key: it is taken for a ciphertext and stored as it is
  (`internal/hooks/pb_hooks.go:1369-1371`), so its decryption is read back.
  `EnvSecrets.SuppliedIsPlaintextIff` is the exact condition,
  `EnvSecrets.CiphertextIsTakenAsSuch` the case of a ciphertext of the server's own.
- *After a sweep that reports no error no overdue run is left* fails for a run whose second
  read fails: it is passed over in silence (`internal/jobscheduler/scheduler.go:600-603`).
  `JobScheduler.SweepLeavesNoneIff` is the exact condition, `JobScheduler.UnreadRunStays` an
  instance.
- *Published outputs extend one another* fails for overlapping calls of `PublishLine` for
  one command: the buffer lock is released before the event is published, and
  `internal/worker/server.go:917` starts a goroutine per line, so overlap is the normal
  case. `LogBroker.OvertakingExample` is a run, `LogBroker.ChainIffAlwaysShortest` the exact
  condition over runs. For the same reason a line overtaken on its first delivery is lost:
  `LogBroker.NothingLostIffInOrder`, `LogBroker.OvertakenLineIsLost` for an instance.
- *A finding is reported at the line of the deepest existing element on its path* fails when
  a key with a dot or a bracket takes the text of the path: with services `my` and
  `my.image`, the image of `my` is reported at the other service's line
  (`YamlAmbiguity.DottedServiceTakesThePath`). `YamlAmbiguity.TextWalkIsRightIff` is the exact
  condition where lines tell elements apart, `YamlWalk.TextWalkFindsDeepest` the sufficient one
  without that.
- *An accepted mount lies under an allowed root* holds, but the allowed root "/" admits only
  "/" itself, because the test appends a second slash; `PathPolicy.UnderMeansInside` has
  this as part of its equivalence.

## Model

| member | source | states |
|---|---|---|
| `OAuthReuse.NeverRedeemsSpentToken` | internal/git/credential_store.go:212-294 | In every interleaving of loads, redeems, failed and retried saves and reconnects that do not leave an at-risk token in place, no redeem passes a refresh token that an earlier rotating redeem was given. |
| `OAuthReuse.RotatingProviderIsCareful` | internal/git/credential_store.go:256-276 | A provider that puts a refresh token into every reply makes every run meet that hypothesis. |
| `OAuthReuse.BareReconnectReusesIffAtRisk` | internal/routes/git_provider_routes.go:216-273 | In every state a careful run reaches, a reconnect without a refresh token can be followed by a second redeem of a consumed token if and only if a newer token is pending or being saved for the row, or the running body is about to redeem the stored one; the first of these says exactly that the provider has consumed it. |
| `OAuthReuse.BareReconnectReuses` | internal/routes/git_provider_routes.go:257-259 | From every such state a run without further reconnects redeems the token twice; the lemma builds it. |
| `OAuthReuse.BareReconnectExample` | internal/routes/git_provider_routes.go:257-259 | A concrete run from a first connect that redeems one refresh token twice. |
| `OAuthReuse.StepLive` | internal/git/credential_store.go:232-251 | Every event keeps the central invariant: the token that stands for the credential (being persisted, pending for this row, or stored) is not consumed, nor is the one the running body holds. |
| `OAuthReuse.SpentIffSuperseded` | internal/git/credential_store.go:232-251 | What the server holds tells exactly whether the provider has consumed the stored refresh token. |
| `OAuthSafety.StepInv` | internal/git/credential_store.go:302-364 | Every event keeps the structural invariant: ciphertexts tell rows apart, a pending pair matches the row or is stale, a read row of the same epoch is the row. |
| `OAuthRuns.AtMostOneRedeemPerExpiry` | internal/git/credential_store.go:161-251 | In every run, two redeems for one stored credential are never closer than the expiry obtained by the first, less the grace window. |
| `OAuthRuns.OneRedeemServesEveryLoad` | internal/git/credential_store.go:212-294 | Once a redeem's persist has ended, saved or not, no load redeems until its expiry enters the grace window or a reconnect lands, and every load begun later returns that access token; if reads of the row may fail, a load may instead return such a failure or the token it read itself. |
| `OAuthRuns.ReconnectIsNeverOverwritten` | internal/git/credential_store.go:340-364 | In every reachable state the stored access token is the last reconnect's own or was redeemed from the row of that reconnect. |
| `OAuthRuns.LoadsReturnIssuedTokens` | internal/git/credential_store.go:161-200 | A load whose first read of the row succeeded fails only when the expiry it read has passed; otherwise it returns an access token the provider issued for this credential, of whatever epoch. |
| `OAuthRuns.LoadGetsOldTokenIffBehind` | internal/git/credential_store.go:161-251 | In every reachable state, a load about to enter can come to return the token of a credential older than the one it read if and only if its own is due and the running body read an older row. |
| `OAuthRuns.LoadBehindExample` | internal/git/credential_store.go:177-179 | A concrete run in which a load begun after a reconnect gets the replaced credential's token. |
| `OAuthRuns.StaleIdentityStaysStale` | internal/git/credential_store.go:302-317 | An identity the row has moved on from never matches it again. |
| `OAuthRuns.StalePairIsUsedIffInFlight` | internal/git/credential_store.go:212-251 | Once the row has moved on, some run still uses the pending pair if and only if a body under way read the row before that. |
| `OAuthRuns.DecideKeepsPairIffItMatches` | internal/git/credential_store.go:232-267 | A body keeps the pending pair exactly when it belongs to the row the body has read, and when it then uses it. |
| `OAuthRuns.StalePairIsNeverStored` | internal/git/credential_store.go:340-364 | Once the row has moved on, no attempt of any run writes a pair redeemed from the row it replaced. |
| `OAuthRuns.StalePairExample` | internal/git/credential_store.go:213-251 | A concrete run that redeems a pending pair of a row already replaced. |
| `OAuthStore.Process.DoRefresh` | internal/git/credential_store.go:212-294 | The refresh body as code, with others acting before each atomic section: what it does is a run of the protocol that ends with the outcome returned. |
| `OAuthStore.Process.Persist` | internal/git/credential_store.go:340-364 | Up to four attempts, each on a fresh read; ends with the pair saved, discarded because the row moved on, or to be kept pending. |
| `OAuthStore.Process.Choose` | internal/git/credential_store.go:232-273 | Drops a stale pending pair, retries the save of a good one, else picks the refresh token to redeem. |
| `OAuthStore.Process.CodeKeepsTheProtocol` | internal/git/credential_store.go:161-294 | The run theorems hold of the heap after any sequence of these calls. |
| `IntegrationRefinement.ResolvesOnPlaintext` | internal/integrations/store.go:258-314 | A mask resolves against the stored row exactly when it resolves against its plaintext. |
| `IntegrationRefinement.SaveRefinesPlaintext` | internal/integrations/store.go:233-379 | Loading what a save stored is resolving the masks against what loading gave before: nothing is sealed twice, stays sealed or is lost. |
| `IntegrationRefinement.StoreRefinesPlaintextMap` | internal/integrations/store.go:115-379 | After any series of accepted and failed saves, loading gives the map of plaintexts the same series builds without any encryption. |
| `IntegrationRefinement.LoadReturnsLastSupplied` | internal/integrations/store.go:115-379 | What is loaded for a string field, or for an entry of a list field, is the last plaintext an accepted save supplied for it, masks skipped. |
| `IntegrationRefinement.OverlappingSaveLosesIff` | internal/integrations/store.go:244-379 | With another save between a save's read and its write, a masked field's new value is lost if and only if the config is written at all and the field was another one when it was read. |
| `IntegrationRefinement.OverlappingSaveExample` | internal/integrations/store.go:244-379 | A concrete pair of overlapping saves that brings an old ciphertext back. |
| `IntegrationRefinement.MaskedSaveKeepsStore` | internal/integrations/store.go:233-417 | Saving back the mask of a loaded config succeeds and leaves every stored value as it is if and only if no stored sensitive plaintext is blank and every masked entry is the one its key finds; it never needs the encryption key. |
| `IntegrationRefinement.DistinctKeysFindThemselves` | internal/integrations/store.go:275-286 | With distinct non-empty keys every entry is the one its key finds. |
| `IntegrationRefinement.BlankSecretIsLost` | internal/integrations/store.go:34-39 | A stored secret of one space comes back as the empty string. |
| `IntegrationRefinement.DuplicateKeyIsOverwritten` | internal/integrations/store.go:275-286 | Of two entries under one key, both get the last one's value. |
| `IntegrationStore.Store.Save` | internal/integrations/store.go:233-379 | Stores exactly what a save means, or fails with the right error and leaves the row alone; writes to no object that existed before but the row, which stays what the saves so far come to. |
| `IntegrationStore.Sealed` | internal/integrations/store.go:237-363 | On a copy of the caller's config: masks resolved, then secrets sealed; an unresolvable mask is reported before a bad key. |
| `IntegrationStore.Store.HoldsPlaintexts` | internal/integrations/store.go:99-379 | After any calls of `Save`, the row on the heap opens to the plaintexts last supplied. |
| `IntegrationStore.Store.Load` | internal/integrations/store.go:99-166 | Returns the stored config with every encrypted field opened, the empty config without a row, and otherwise the error of a failed query, an undecodable config or a value that does not open. |
| `IntegrationStore.Mask` | internal/integrations/store.go:384-417 | A fresh config in which every sensitive field is masked; the caller's objects are untouched. |
| `IntegrationStore.BuildLookup` | internal/integrations/store.go:275-286 | The table of stored entries by key: last one wins, empty keys skipped. |
| `IntegrationStore.ResolveList` | internal/integrations/store.go:274-312 | Copies a list with each mask replaced by the stored value it stands for, and reports which entries were carried over; fails exactly when one cannot be resolved. |
| `IntegrationStore.LoopsComputeSaved` | internal/integrations/store.go:258-363 | Resolving all sensitive fields, then sealing what was not carried over in the encrypted ones, is what a save means. |
| `EnvSecrets.WriteKeepsSecret` | internal/hooks/pb_hooks.go:1380-1505 | What one accepted write does to a secret: it stays secret with its provider, and its plaintext stays or becomes the value supplied. |
| `EnvSecrets.StoredSecretsStayDecryptable` | internal/hooks/pb_hooks.go:1361-1412 | In every history of writes each of which loads the row as it then stands, an internal secret's stored value is blank, the mask, or decryptable. |
| `EnvSecrets.SecretsStaySecret` | internal/hooks/pb_hooks.go:1469-1505 | Once secret, a record stays secret with the same effective provider, through any writes each of which loads the row as it then stands. |
| `EnvSecrets.PlaintextIsLastSupplied` | internal/hooks/pb_hooks.go:1361-1467 | Over any history of such writes an internal secret's plaintext is the last value supplied by an accepted write that was neither blank nor the mask; of a supplied value that itself decrypts under the server's key, its decryption. |
| `EnvSecrets.SuppliedIsPlaintextIff` | internal/hooks/pb_hooks.go:1361-1378 | After an accepted write of a value to an internal secret, the plaintext is that value if and only if it does not decrypt under the server's key to something else. |
| `EnvOverlap.SecretForever` | internal/hooks/pb_hooks.go:1469-1480 | However its writes overlap, a record that is secret stays secret. |
| `EnvOverlap.StaleSaveMovesProviderIff` | internal/hooks/pb_hooks.go:1486-1505 | Saving a record loaded earlier onto what is a secret by now leaves it secret, and moves its effective provider if and only if the save writes the provider, with another effective one. |
| `EnvOverlap.ProviderKeptIff` | internal/hooks/pb_hooks.go:1486-1505 | Over every history of overlapping writes, a secret keeps its effective provider if and only if no write meets that condition. |
| `EnvOverlap.StaleSaveBreaksSecretIff` | internal/hooks/pb_hooks.go:1380-1412 | Saving a record loaded earlier leaves an internal secret undecryptable if and only if the row ends up an internal secret with a value that does not open, taken from a row that was none; never when the record was secret as loaded and its provider has not moved since. |
| `EnvOverlap.DecryptableIff` | internal/hooks/pb_hooks.go:1361-1412 | Over every history of overlapping writes, every internal secret is blank, the mask, or decryptable if and only if no write meets that condition. |
| `EnvOverlap.LoadedSinceIsKept` | internal/hooks/pb_hooks.go:1380-1505 | Through overlapping writes that all loaded the record since it is secret, it stays a secret of its provider with a value that is blank, the mask, or decryptable. |
| `EnvOverlap.PlaintextIsLastSuppliedLate` | internal/hooks/pb_hooks.go:1361-1467 | However writes to an internal secret overlap, its plaintext is the last one supplied, blank and masked writes skipped; save that a mask sent for a record loaded blank erases a value supplied since. |
| `EnvOverlap.PromptIsAfter` | internal/hooks/pb_hooks.go:706-717 | Without overlap these histories are those of writes one after the other. |
| `EnvSecrets.Record.Prepare` | internal/hooks/pb_hooks.go:1380-1412 | The hook on a mutable record gives the prepared row or its error. |
| `EnvSecrets.Record.BeforeUpdate` | internal/hooks/pb_hooks.go:706-717 | The update hook: both locks first, then the preparation. |
| `EnvBulk.Parse` | internal/routes/env_var_routes.go:205-229 | Accepts exactly the payloads with a known mode and well-formed keys none of which occurs twice, and returns their keys. |
| `EnvBulk.ParsedKeys` | internal/routes/env_var_routes.go:205-229 | An accepted payload has distinct trimmed keys, and the set of them is what the transaction takes for the payload's keys. |
| `EnvBulk.EnvTable.RunBulkUpsert` | internal/routes/env_var_routes.go:235-307 | With others writing between the listing and the transaction: commits exactly when every write and delete succeeds; a failure leaves what the others left; the counters, and the number of rows after a commit. |
| `EnvBulk.WriteAll` | internal/routes/env_var_routes.go:256-288 | The writing loop gives what writing the entries one after the other to the table the transaction finds gives; the laws below are about that. |
| `EnvBulk.DeleteOthers` | internal/routes/env_var_routes.go:290-300 | The deleting loop removes exactly the rows indexed under keys outside the payload, in whatever order it walks the index, and counts the keys. |
| `EnvBulkLaws.ReplaceLeavesPayload` | internal/routes/env_var_routes.go:236-300 | Whatever others wrote since the listing, a committed replace leaves exactly the payload's keys if and only if every row of the target that the transaction finds and does not delete has a payload key, and every listed payload key still has such a row. |
| `EnvBulkLaws.UndisturbedReplace` | internal/routes/env_var_routes.go:236-300 | When nobody writes in between, it does so if and only if no key outside the payload is stored twice for the target. |
| `EnvBulkLaws.TwoReplacesLeaveBoth` | internal/routes/env_var_routes.go:236-251 | Two concrete replaces of one target that both list it before either commits leave the keys of both. |
| `EnvBulkLaws.StrayKeySurvives` | internal/routes/env_var_routes.go:240-300 | A concrete table, listing and payload for which every write and delete succeeds, nobody interferes, and a key outside the payload survives. |
| `EnvBulkLaws.AppendLeavesUnion` | internal/routes/env_var_routes.go:236-288 | A committed append leaves the union of the keys it finds and the payload's if and only if every listed payload key still has a row. |
| `EnvBulkLaws.CountersAddUpIff` | internal/routes/env_var_routes.go:251-300 | After a committed replace, rows = rows found + created - deleted if and only if every row it deletes was still there. |
| `EnvBulkLaws.EntriesAreCommitted` | internal/routes/env_var_routes.go:256-288 | After a commit each payload entry is where it belongs: a new row holds what the hooks made of it, a listed row that is still there the fields the save changed. |
| `EnvBulkLaws.OthersUntouched` | internal/routes/env_var_routes.go:235-307 | Rows that were not listed, of this target or another, are as the transaction found them; new rows belong to the target and the payload. |
| `EnvBulkLaws.BlankKeepsSecret` | internal/routes/env_var_routes.go:268-288 | A still-secret internal row sent blank or masked keeps the value it has by then, whatever others wrote. |
| `EnvBulkLaws.CommitIsLateWrite` | internal/routes/env_var_routes.go:236-288 | What a commit does to a listed row that is still there is a write of the record as listed, so the laws of overlapping histories hold of bulk requests. |
| `EnvBulkLaws.StaleRequestMovesProvider` | internal/routes/env_var_routes.go:236-288 | A concrete bulk request that lists a plain row and moves what has become an internal secret to another provider. |
| `EnvBulkLaws.ReferenceInInternalSecret` | internal/routes/env_var_routes.go:236-288 | A concrete bulk request whose external reference ends up as the value of an internal secret. |
| `EnvBulkLaws.PlainValueInSecretRow` | internal/routes/env_var_routes.go:236-288 | A concrete bulk request that lists a plain row and commits its plain value after the row was made secret. |
| `EnvBulkLaws.HooksKeepKey` | internal/hooks/pb_hooks.go:1380-1383 | The record hooks keep the trimmed key, which the laws above rely on. |
| `JobRuns.RunsNeverGoBack` | internal/jobscheduler/scheduler.go:537-951 | No interleaving of acks, completions, sweeps, heartbeats and disconnects moves a run that ended back to running or pending, or a started one back to pending. |
| `JobRuns.AckAfterCompletion` | internal/jobscheduler/scheduler.go:854-881 | An ack processed after a completion, with anything in between, changes nothing. |
| `JobRuns.RunIsLater` | internal/jobscheduler/scheduler.go:565-951 | Over any run of events a row not written since is the very same row, ids are never reused and no status falls back. |
| `JobRuns.Truncated` | internal/jobscheduler/scheduler.go:919-930 | Output over the limit becomes a head, the marker and a tail of exactly the limit; shorter output is kept. |
| `JobScheduler.Scheduler.MarkForgottenRuns` | internal/jobscheduler/scheduler.go:565-669 | Whatever others do meanwhile, if no error is reported then no running run is left that was last written over an hour before the sweep, nor a pending one over a quarter of an hour before its half, save runs whose second read failed; a failed first listing ends the call. |
| `JobScheduler.Scheduler.ForgetOldRuns` | internal/jobscheduler/scheduler.go:577-623 | The same for the running half; its own writes are to overdue runs alone, undisturbed exactly these change, and an error means the listing or a save failed. |
| `JobScheduler.Scheduler.UnstickOldRuns` | internal/jobscheduler/scheduler.go:625-669 | The same for the pending half. |
| `JobScheduler.SweepLeavesNoneIff` | internal/jobscheduler/scheduler.go:592-669 | An undisturbed sweep leaves no overdue run if and only if the second read and the save of every one succeed. |
| `JobScheduler.UnreadRunStays` | internal/jobscheduler/scheduler.go:600-603 | A concrete sweep without any failed save that leaves a run two hours old. |
| `JobScheduler.Scheduler.ReconcileActiveJobs` | internal/jobscheduler/scheduler.go:676-734 | Whatever others do meanwhile, the call's own writes are to running runs of the worker that the heartbeat does not list and that were not written within the last minute, and each of these has ended unless its second read or a save failed; undisturbed, exactly these change. |
| `JobScheduler.Scheduler.HandleWorkerDisconnect` | internal/jobscheduler/scheduler.go:1061-1091 | Changes exactly the running runs of the worker, under the lock, and reports an error exactly when the listing or a save failed. |
| `JobScheduler.Scheduler.DispatchToWorker` | internal/jobscheduler/scheduler.go:394-520 | Always a run of the machine in which no run falls back; undisturbed it writes the metadata and then one error or one ack. |
| `JobScheduler.Scheduler.HandleJobCompleted` | internal/jobscheduler/scheduler.go:537-551 | Writes the report on the run, whatever its status, and on no other. |
| `JobScheduler.Scheduler.CodeNeverGoesBack` | internal/jobscheduler/scheduler.go:394-1091 | After any of these calls no run has fallen back since the start. |
| `PathPolicy.UnderMeansInside` | internal/policy/policy.go:275-281 | For an absolute host path the string test means containment of lexically resolved components, except that the root "/" admits only itself. |
| `PathPolicy.AcceptedMountsAreContained` | internal/policy/policy.go:258-290 | With an allowlist an absolute bind mount is accepted exactly when host volumes are not blocked and it resolves to an allowed root or below one. |
| `PathPolicy.ValidateSingleVolume` | internal/policy/policy.go:258-290 | The early-exit loop gives the verdict of the whole allowlist. |
| `PathPolicy.ExposesMeansAncestor` | internal/policy/policy.go:425-442 | The socket test holds exactly of sources that are absolute and resolve to a socket path or a directory above it. |
| `PathPolicy.FirstSocketMount` | internal/policy/policy.go:425-442 | Reports the first mount that exposes a socket, and nothing only when none does. |
| `PathPolicy.FlatPrefix` | internal/policy/policy.go:275-281 | On rendered components, string equality is path equality and a prefix up to a separator is a proper path prefix. |
| `ComposePolicy.ValidateComposeConfig` | internal/policy/compose.go:230-275 | Succeeds exactly when the config has no violation, and otherwise returns the message of the first one. |
| `ComposePolicy.ComposeViolations` | internal/policy/compose.go:305-360 | Returns every violation, check by check in the order of the fail-fast checker. |
| `ComposePolicy.Extract` | internal/policy/compose.go:81-222 | Collects, for each check, the values of the services in name order; the socket check sees volumes, devices and the host paths behind named volumes. |
| `ComposePolicy.Validate` | internal/policy/compose.go:237-275 | A check's method, run on a list, returns the message of the first of all violations the check would report of it. |
| `ComposeSafety.AcceptedIff` | internal/policy/compose.go:230-275 | A config is accepted by an active policy if and only if no check has anything against any value it looks at. |
| `ComposeSafety.VolumesAreExtracted` | internal/policy/compose.go:81-222 | The volume check looks at exactly the volume sources of the services. |
| `ComposeSafety.MountsAreExtracted` | internal/policy/compose.go:81-222 | The socket check looks at exactly the volumes, the devices and the host paths behind named volumes of the services. |
| `ComposeSafety.AcceptedVolumesAreContained` | internal/policy/compose.go:230-275 | With a volume allowlist in force, every absolute volume source of an accepted config resolves to an allowed directory or below one, where the root directory admits only itself. |
| `ComposeSafety.BoundPathsMeetOnlyTheSocketCheck` | internal/policy/compose.go:206-275 | Whatever an accepted config's named volumes are bound to instead, it is accepted still if and only if the socket check, when on, has nothing against these paths. |
| `ComposeSafety.BoundVolumeIsAccepted` | internal/policy/compose.go:206-275 | For every host path, a config accepted by a policy that blocks host volumes in which a service mounts it. |
| `ComposeSafety.AcceptedMountsHideSockets` | internal/policy/compose.go:230-275 | With sockets blocked, nothing a service of an accepted config mounts, directly, as a device or behind a named volume, is a socket path or a directory above one. |
| `PolicyChecks.ValidateImages` | internal/policy/policy.go:319-334 | The reason against the first image refused, the tag tested before the list. |
| `PolicyChecks.ValidateVolumes` | internal/policy/policy.go:246-256 | The reason against the first volume refused. |
| `PolicyChecks.ValidateNetwork` | internal/policy/policy.go:294-310 | Refuses a named network that a non-empty list does not have. |
| `PolicyChecks.ValidatePrivileged` | internal/policy/policy.go:386-391 | With the flag on, refuses the first service; otherwise none. |
| `PolicyChecks.ValidateHostNetwork` | internal/policy/policy.go:394-399 | The same for the host network. |
| `PolicyChecks.ValidateHostPid` | internal/policy/policy.go:402-407 | The same for the host's process ids. |
| `PolicyChecks.ValidateHostIpc` | internal/policy/policy.go:410-415 | The same for the host's IPC namespace. |
| `PolicyChecks.ValidateDockerSocket` | internal/policy/policy.go:425-442 | The reason against the first mount that exposes a socket path. |
| `PolicyChecks.ValidateCapAdd` | internal/policy/policy.go:446-456 | The reason against the first capability not listed. |
| `PolicyChecks.ValidateDevices` | internal/policy/policy.go:460-470 | The reason against the first device not listed. |
| `PolicyChecks.ValidateSecurityOpt` | internal/policy/policy.go:474-484 | The reason against the first option not listed. |
| `Lint.ArrangedSpec` | internal/lint/lint.go:384-393 | The sort is a permutation in severity, rule, service order, and stable. |
| `Lint.Run` | internal/lint/lint.go:356-396 | The report is the sorted findings of all rules, and its three counts are exact and add up to its length. |
| `Lint.RegistrationOrderIsImmaterial` | internal/lint/lint.go:356-396 | With distinct rule ids the order of registration does not affect the report. |
| `Lint.NewConfig` | internal/lint/lint.go:163-182 | The services that are objects, in name order. |
| `LintRules.RulePolicyViolations` | internal/lint/rules_policy.go:54-75 | One error finding per violation, in order, for an active policy; none otherwise. |
| `LintRules.RulePrivileged` | internal/lint/rules_advisory.go:258-276 | One warning per privileged service, none when the policy blocks them. |
| `LintRules.RuleHostNamespace` | internal/lint/rules_advisory.go:280-319 | One warning per host namespace a service shares and the policy does not block. |
| `LintRules.OneFindingPerCondition` | internal/lint/rules_advisory.go:258-319 | Each privileged or host-namespace condition of a service yields exactly one finding among the three rules: a policy error when blocked, a warning otherwise. |
| `LintRules.ReportHasOneFinding` | internal/lint/lint.go:356-396 | The same in the whole sorted report, with any other rules that do not speak about the condition. |
| `LintReport.RuleAddsItsFindings` | internal/lint/lint.go:356-396 | Registering a rule, anywhere among others, adds exactly its findings to the report. |
| `LintReport.PolicyAddsItsViolations` | internal/lint/rules_policy.go:54-75 | Registering the policy rule adds exactly one error finding per violation of an active policy, and no warning. |
| `LintReport.ViolationsAreErrors` | internal/lint/rules_policy.go:54-75 | Each violation of an active policy is an error finding of the report with its check, service and message, and there are at least as many errors as violations. |
| `RateLimiter.NoWindowOverTheLimit` | internal/routes/auth.go:64-86 | In every run with a clock that does not go back, no window of the configured length holds more than `limit` requests of an address that the limiter granted. |
| `RateLimiter.RefusedOnlyAtTheLimit` | internal/routes/auth.go:64-86 | The limiter refuses a request exactly when `limit` requests it granted lie in the window that ends with it. |
| `RateLimiter.CleanupsAreInvisible` | internal/routes/auth.go:45-86 | Two runs with the same requests get the same answers, wherever their cleanups fall. |
| `RateLimiter.GrantedIsGrants` | internal/routes/auth.go:45-86 | What the limiter grants from its pruned memory is what a limiter that forgets nothing grants. |
| `RateLimiter.Limiter.Allow` | internal/routes/auth.go:64-86 | The answer, and the record it leaves, of the event model above. |
| `RateLimiter.Limiter.Cleanup` | internal/routes/auth.go:45-62 | Leaves exactly the live times of each address and drops addresses without any. |
| `YamlWalk.TextWalkFindsDeepest` | internal/lint/source.go:59-166 | For trees without aliases and any path, dots and brackets in keys and names included: where at no mapping on the way a longer key than the one named, or any key when that one is absent, takes the rest of the text, the greedy walk gives the line of the deepest existing element, 0 when there is none. |
| `YamlWalk.DeepestIsWalk` | internal/lint/source.go:59-166 | Under that condition the walk over the text, from any node, is the walk over the path's steps. |
| `YamlWalk.PlainWalkFindsDeepest` | internal/lint/source.go:59-166 | Without dots and brackets in keys and names the condition always holds. |
| `YamlAmbiguity.TextWalkIsRightIff` | internal/lint/source.go:59-135 | Where lines tell elements apart, the walk gives the line of the deepest existing element if and only if that condition holds. |
| `YamlAmbiguity.WalksAgreeIffUnambiguous` | internal/lint/source.go:59-135 | The same from any node and line. |
| `YamlAmbiguity.DottedServiceTakesThePath` | internal/lint/source.go:96-135 | A concrete tree and path for which the walk gives line 5 and the deepest element is on line 3. |
| `YamlWalk.DeepestLine` | internal/lint/source.go:59-74 | The loop computes the walk, and ends on every tree and path. |
| `YamlWalk.Descend` | internal/lint/source.go:78-135 | Longest key first, first match wins; a match always uses up some of the path. |
| `YamlWalk.DescendIndices` | internal/lint/source.go:139-166 | The bracketed indices, and the line of the last one that exists. |
| `YamlWalk.LongestFirstSpec` | internal/lint/source.go:101-103 | The candidates are sorted by falling key length, none lost, none added. |
| `YamlWalk.SortKeepsFirst` | internal/lint/source.go:101-103 | The sort keeps the first entry of every key first, so repeated keys resolve to the first. |
| `LogBroker.RedeliveryIsHarmless` | internal/logstream/broker.go:118-148 | Redelivering an already seen line at any point leaves the final buffer as it is. |
| `LogBroker.BufferIsContent` | internal/logstream/broker.go:118-148 | What the buffer holds does not depend on when its lines arrived. |
| `LogBroker.OutputsExtend` | internal/logstream/broker.go:118-148 | Every earlier output is a prefix of every later one. |
| `LogBroker.BufferIsCapped` | internal/logstream/broker.go:118-148 | The buffer passes its limit by less than one formatted line. |
| `LogBroker.ChainIffAlwaysShortest` | internal/logstream/broker.go:118-148 | Over every run of a command's calls that ends with nothing waiting, the outputs sent extend one another if and only if every send picks one that is a prefix of all that wait. |
| `LogBroker.OvertakingExample` | internal/logstream/broker.go:118-148 | A concrete run from an empty buffer that sends the longer output first. |
| `LogBroker.BufferIsKeptLines` | internal/logstream/broker.go:129-141 | The buffer holds exactly the lines numbered above all earlier ones, while there is room, in the order of delivery. |
| `LogBroker.NothingLostIffInOrder` | internal/logstream/broker.go:129-141 | No line is lost if and only if first deliveries come in rising order while there is room. |
| `LogBroker.OvertakenLineIsLost` | internal/logstream/broker.go:129-141 | Of two deliveries, line 2 first, line 1 never reaches the buffer. |
| `LogBroker.PublishedOutputsExtend` | internal/logstream/broker.go:118-148 | Calls that happen not to overlap meet the condition for an ordered run. |
| `LogChannels.Broker.PublishLine` | internal/logstream/broker.go:118-148 | Appends, sweeps and publishes the whole buffer; what was in it stays in front, a line delivered before adds nothing, and the command is never swept by its own line. |
| `LogChannels.Broker.LiveBuffer` | internal/logstream/broker.go:118-169 | In every state of the broker a live buffer is made of the kept lines delivered since the command was last forgotten or swept, and passes its limit by less than one formatted line. |
| `LogChannels.Broker.Publish` | internal/logstream/broker.go:92-105 | Every subscriber of the stack with room gets the event; only open channels are sent on. |
| `LogChannels.Broker.Unsubscribe` | internal/logstream/broker.go:64-87 | Closes a registered channel once and forgets it; a second call closes nothing. |
| `LogChannels.Broker.SweepLive` | internal/logstream/broker.go:162-169 | Evicts exactly the buffers idle for longer than the retention. |
| `LineWriter.WriteAll` | internal/compose/linewriter.go:24-55 | Whatever the chunks, writing them and flushing emits the split of the whole stream. |
| `LineWriter.LinesOfConcat` | internal/compose/linewriter.go:24-42 | The lines of two stretches are those of the first, then those of its rest and the second. |
| `LineWriter.SplitIsComplete` | internal/compose/linewriter.go:24-55 | The raw lines and a rest without a newline make up the stream. |
| `LineWriter.LinesAreTrimmed` | internal/compose/linewriter.go:24-62 | Each raw line ends in its only newline, and what is emitted is that line trimmed. |
| `LineWriter.TrimNewlineSpec` | internal/compose/linewriter.go:57-62 | Trimming removes the trailing newlines and returns, and nothing else. |
| `LogTime.PrintParseRoundTrip` | internal/routes/container_log_filters.go:52-87 | Printing an instant from the epoch on with a fractional part and parsing the text gives the instant back, to the nanosecond. |
| `LogTime.ParsePrintKeepsInstant` | internal/routes/container_log_filters.go:52-87 | Any accepted text of such an instant can be parsed and printed afresh without moving it. |
| `LogTime.IsAsciiDigits` | internal/routes/container_log_filters.go:90-100 | True of exactly the non-empty strings of ASCII digits. |
| `Utf8Tail.TailLogOutput` | internal/routes/container_log_filters.go:145-154 | For well-formed UTF-8 (section 4 of RFC 3629) the answer is the longest well-formed suffix within the limit; for any bytes it fits, and is well formed when something was cut. |
| `Utf8Tail.SuffixIsValid` | internal/routes/container_log_filters.go:150-152 | In well-formed bytes a suffix is well formed exactly when it does not begin with a continuation byte. |
| `Utf8Tail.CapLogOutput` | internal/routes/container_log_filters.go:137-143 | The response fits 64 KiB and is flagged exactly when something was left out. |

## Left out

- PocketBase itself, SQL, migrations, the frontend, HTTP handlers, notifiers, git and Docker calls, the worker WebSocket: a row is a value, a save succeeds or fails as a whole.
- AES-GCM, regular expressions, globs, the YAML and JSON parsers: lawful functions, predicates or parameters; the glob of the image allowlist is a parameter of the policy (networks are compared as they are).
- A restart of the process between a redeem and its save, and a redeem whose reply is lost: `pendingRefreshes` is kept in memory only.
- OAuth rows: the account login, the time of the last refresh and the text of the recorded error are not modelled; one find, match and save is one atomic step, and so is recording an error.
- OAuthRuns.LoadsReturnIssuedTokens: the lookup and decryption at the start of a load, before the refresh, may also fail; that part is not modelled.
- IntegrationRefinement.StoreRefinesPlaintextMap: saves do not overlap in it, nor in the heap model of the store; two lemmas say what one overlap does to a masked field.
- `LoadAll` and `EnabledWith` of the integration store, which repeat `Load` per row.
- Integration descriptors that break `Conforms`: an encrypted field that is not sensitive, which `ValidateDescriptor` refuses, or a key declared twice, which it does not. That the keys are distinct is this model's own hypothesis: `Save` would seal a twice declared field twice (`internal/integrations/store.go:316-336`).
- The retry of a bulk transaction by the database layer, and the size limit and JSON decoding of its request body.
- Job runs: times are whole milliseconds; the repair of pending runs at boot, registration, manual triggers and cancelling are not modelled. `patchJobRunMeta`, which runs outside the lock, writes its two fields and the time of the write; it falls before or after a worker's disconnect, not into it.
- JobScheduler.Scheduler.ReconcileActiveJobs: what the table is afterwards is said only for the case that nobody else acts during the call, since others may change anything.
- Relative allowed roots and relative bind mounts: `PathPolicy` says what the tests mean for absolute host paths; `filepath.Clean` is lexical resolution of components.
- Error texts of policy checks are structured values (check, reason, value), not formatted strings; loading a policy and merging it with the global one is not modelled.
- All lint rules but the three that share a condition with the policy, rule titles, summaries and environment keys.
- LintRules.ReportHasOneFinding: assumes that the other registered rules do not report about the condition.
- The Go runtime's scheduling of the rate limiter's cleanup goroutine: cleanups fall anywhere in a run. The clock does not go back.
- YAML aliases in the reference walk (the code's handling of them is in the model), paths whose indices exceed a 64-bit integer, and the converse of the text walk's condition for trees where two elements begin on one line.
- Channels of the log broker are mutable buffers with a closed flag.
- Instants at a whole second or before the epoch in the timestamp round trip: the former print without a point and are read by another parser, the latter go out as RFC 3339.
- Role checks, deploy metrics and backups: true but nearly one-branch.
