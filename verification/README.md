# Model of whaleshell-runtime

A Dafny 4.11 model of the stateful parts of whaleshell-runtime, with proofs of what they
keep over every run. `dafny verify dfyconfig.toml` checks the whole project.

The modules follow the program's components:

| file | what it models |
|---|---|
| `Crypto.dfy`, `Kek.dfy` | the libraries as parameters; reading `WHALESHELL_SECRETS_KEK`, choosing the key |
| `SecretSpec.dfy`, `SecretStore.dfy`, `SecretRuns.dfy`, `Providers.dfy`, `ProviderRuns.dfy` | the encrypted store: meaning of its file and operations, the class that updates cache and files in place, its crash-prone runs, provider credentials |
| `Environment.dfy`, `SshSession.dfy` | the environment merge and allowlist; the request state machine of an SSH session |
| `ExitProtocol.dfy`, `Relay.dfy` | goroutine interleavings: draining, reaping and exit status; the direct-tcpip relay |
| `Jwks.dfy`, `Jws.dfy`, `OidcCache.dfy` | key sets, tokens, and the key cache under concurrent Validate calls |
| `CappedBuffer.dfy`, `Backoff.dfy`, `RelayClient.dfy` | bounded job output; reconnect waits |
| `Paths.dfy`, `HomeSeeds.dfy` | lexical paths; staging and installing home seeds |
| `Wrappers.dfy`, `Strings.dfy`, `Base64.dfy`, `Int64.dfy` | result types, Go string operations, base64 and hex (RFC 4648), 64-bit wrap-around |

Objects whose methods update fields are classes (`LocalEncrypted`, `DataDir`, `Session`,
`Validator`, `CappedBuffer`, `Config`), each method tied to a function of the old state.
Protocols are total step functions over states: a run is an arbitrary sequence of scheduler
choices, and a choice that is not enabled changes nothing, so a lemma over all sequences of
choices is a statement about every interleaving, failure and crash. The results of system calls,
HTTP requests, clocks and random sources are parameters or choices. AES-GCM, SHA-256, UTF-8
conversion and JSON are fields of `Crypto.Library`, of which only `Lawful` is used: opening undoes
sealing, decoding undoes encoding, digests have 32 bytes. RSA and JSON parsing of tokens are fields
of `Jws.Library`, of which nothing is assumed.

## Where the code differs from what it promises

Each of these is a proved statement about the code as it is, with the exact condition.

- The comment on `ParseEnvKEK` (secrets/kek.go:64-65) offers hexadecimal of at least 16 bytes. An
  even number of bytes is always read as base64 instead (`HexReading`, `HexMaterialRecoveredIff`).
- `loadOrCreateKEK` treats a failed read of the key file like a missing one and overwrites it
  (`SoundKeyOverwrittenIff`); a store then loses its key (`KeyKeptIff`, `MisreadLosesKey`), and
  `Inspect` names another branch (`InspectPredictsIff`).
- `Put` trims its key and `Delete` does not, so a secret can outlive its deletion
  (`DeleteUndoesPutIff`, `PutSurvivesDelete`).
- Two providers can share a credential, exactly when one's name continues the other's after a slash
  (`SharedKeyIff`, `SlashesCollide`).
- Dropped output goes unmarked when a boundary between two writes falls on the cap
  (`LossMarkedIff`, `BoundaryHidesLoss`).
- A JWK without a kid can overwrite one whose kid looks made up (`MadeUpNameCollides`, `NoKeyLostIff`).
- The refresh for an unknown kid is skipped when the cache holds one key, so a rotation goes unnoticed
  until that key is stale (`RefreshForcedIff`, `SoleKeyHidesRotation`, `RotationMissed`).
- An unknown kid whose refetch fails makes a filled, young cache useless to every new call until a fetch
  succeeds (`YoungIsFreshIff`, `FreshnessLostIff`, `LostUntilFetched`).
- The login switch is looked up in the client's entries only, and the first decides, while the child's
  environment starts from the base and the last entry wins. A child can therefore run against the
  switch in its own environment in two ways: the client sent it more than once, differently, or the
  base turns it on and the client sent nothing (`SwitchAgreesIff`, `SwitchedOffTooLate`,
  `SwitchInBaseIgnored`).
- A directory source whose base name is a dot is copied one level too high; with a destination
  that adds nothing to the home it lands outside the home (`LandsOnDestIff`, `SeedStaysHomeIff`,
  `DotEntryEscapes`).
- Doubling the wait overflows once a bound reaches 2^62 ns, and then some reconnects come without a wait
  (`NeverOverflowsIff`, `WaitSkippedIff`, `ZeroStays`, `LargestBoundStopsWaiting`).

## Model

| member | source | states |
|---|---|---|
| Base64.Alphabets | secrets/kek.go:71 | the two alphabets, letter by letter (sections 4 and 5 of RFC 4648) |
| Base64.EncodeVectors | secrets/local.go:136 | test vectors of section 10 of RFC 4648, one for each kind of tail |
| Base64.DecodeExact | secrets/kek.go:71 | whatever decodes is, line breaks aside, the encoding of the result but for unused bits: no other character, length or padding is accepted |
| Base64.HexDigits | secrets/kek.go:74 | the digits of section 8 of RFC 4648 |
| Base64.HexExact | secrets/kek.go:74 | text decodes to bytes exactly when it spells them, in capital or small letters |
| Kek.ParseEnvTotal | secrets/kek.go:66-78 | every value that is not blank gives 32 bytes, blank ones are refused, and white space around a value is irrelevant |
| Kek.ShortIsPassphrase | secrets/kek.go:66-78 | fewer than 24 characters are always a passphrase, whose bytes are digested as they are |
| Kek.HexReading | secrets/kek.go:71-77 | for every string of hex digits, by the number n of bytes it spells: base64 iff n is even and at least 12, hex iff n is odd and at least 17 |
| Kek.Base64MaterialRecovered | secrets/kek.go:71-73 | 16 or more bytes in standard base64 derive the key they would derive directly |
| Kek.HexMaterialRecoveredIff | secrets/kek.go:71-77 | 16 or more bytes in hex are recovered exactly when their number is odd |
| Kek.InspectPredictsIff | secrets/kek.go:40-54 | Inspect names the branch that opening takes, except exactly when a sound key file cannot be read; a key is pinned exactly when it comes from the environment, and only otherwise has a path |
| SecretSpec.DecryptEncrypt | secrets/local.go:130-153 | decrypting undoes encrypting for every plaintext, 32-byte key and 12-byte nonce, through base64(nonce, ciphertext) |
| SecretSpec.DecryptMeaning | secrets/local.go:139-153 | an entry decrypts exactly when it is base64 of a 12-byte nonce and a text that the cipher opens under that nonce |
| SecretSpec.StoreLayout | secrets/local.go:109-137 | the file is a document of version 1 with one entry for each key of the cache, base64 of nonce then ciphertext |
| SecretSpec.LoadStore | secrets/local.go:87-128 | loading the bytes a flush writes gives back the whole map, whatever nonces were drawn |
| SecretSpec.LoadMeaning | secrets/local.go:87-107 | any file loads exactly when it parses and each of its entries decrypts, as the map of their texts |
| SecretSpec.UnreadableStoreRefused | secrets/local.go:36-61 | a store that does not parse, or one of whose entries does not decrypt under the key found, is not opened and stays as it is |
| SecretSpec.FlushMeaning | secrets/local.go:109-128 | after a flush that succeeds the file loads as the cache; after any other it is the old one, with at most the beginning of a new one beside it |
| SecretSpec.DeleteUndoesPutIff | secrets/local.go:170-191 | deleting a new key takes its Put back exactly when the key has no white space at its ends |
| SecretSpec.PutSurvivesDelete | secrets/local.go:170-191 | a secret put under a name with a trailing space survives the Delete of that name |
| SecretSpec.ApplyMeaning | secrets/local.go:170-203 | every key after an operation, trimmed or not: put, dropped or as before |
| SecretSpec.LookupAfter | secrets/local.go:155-203 | what Get reads after each mutating operation: the value put, nothing for deleted names, and what it read before for every other name, up to surrounding white space; blank names are always refused |
| SecretStore.LoadOrCreateKek | secrets/local.go:63-85 | the key and the key file afterwards, in every outcome of read, random source and write: from the environment, the first 32 bytes of the file, or new bytes that are the key only when all are written |
| SecretStore.LocalEncrypted.DecryptEntries | secrets/local.go:97-104 | the loop succeeds exactly when every entry decrypts, with all plaintexts |
| SecretStore.LocalEncrypted.OpenLocal | secrets/local.go:36-61 | the opened store, or the error, and the files afterwards, in every outcome, a directory that cannot be made included |
| SecretStore.LocalEncrypted.FlushLocked | secrets/local.go:109-128 | succeeds exactly when every nonce is drawn, the write completes and the rename works; otherwise the store file is untouched |
| SecretStore.LocalEncrypted.Put | secrets/local.go:171-183 | a refused Put touches nothing; an accepted one changes the cache even if its flush fails |
| SecretStore.LocalEncrypted.Delete | secrets/local.go:186-191 | removes exactly the untrimmed key, then flushes |
| SecretStore.LocalEncrypted.DeletePrefix | secrets/local.go:194-203 | the loop removes exactly the keys with the prefix, then flushes |
| SecretStore.LocalEncrypted.PutProviderCredentials | secrets/local.go:210-222 | cache, files and result are those of the puts in some iteration order up to the first failed flush; only offered credentials of the provider change; also after a failure the store file is the old one or one whole such cache; on success every offered credential is held and stored |
| Providers.FirstFailureStops | secrets/local.go:217-219 | nothing is put after the first flush that fails |
| SecretStore.LocalEncrypted.GetProviderCredentials | secrets/local.go:226-242 | the loop returns the specified selection of the cache |
| SecretRuns.ReopenLoadsDurable | secrets/local.go:36-128 | after any run with failures and crashes at any step, failed reads of the key file included wherever no store depends on it, reopening succeeds and loads the replay, in order, of operations that include every acknowledged one |
| SecretRuns.KeyKeptIff | secrets/local.go:63-128 | along every run a store file comes with the key that opens all of it, so that a key is generated only when nothing is stored, exactly when no opening fails to read the sound key file of a store |
| SecretRuns.MisreadLosesKey | secrets/local.go:68-84 | a run that loses it: an acknowledged secret stays sealed under the first key while the key file holds a second |
| SecretRuns.SoundKeyOverwrittenIff | secrets/local.go:36-85 | opening destroys a sound key file, by a whole or partial write, exactly when no key comes from the environment, the read fails, and what comes before the write succeeds: the directory made, random bytes drawn, the file opened |
| SecretRuns.DoKeepsInv | secrets/local.go:36-203 | every single step, including crashes and partial writes, keeps the store invariant, unless it loses a store's key in that way |
| SecretRuns.OperationIsRun | secrets/local.go:109-203 | Put, Delete and DeletePrefix are such runs: same files, same cache, acknowledged exactly when the flush succeeds |
| ProviderRuns.PutAllIsRun | secrets/local.go:210-222 | so is PutProviderCredentials, in every order and with flushes that fail: all its puts acknowledged, except a last one that failed |
| SecretRuns.OpeningIsRun | secrets/local.go:36-107 | so is OpenLocal, whichever of its system calls fail |
| Providers.ProviderKeyInjective | secrets/local.go:205-208 | slash-free provider names never share a key |
| Providers.SharedKeyIff | secrets/local.go:205-208 | two credentials of whatever providers share a key exactly when they are the same or one provider's name continues the other's after a slash and the credential names make up for it |
| Providers.SlashesCollide | secrets/local.go:193-208 | such a pair, which deleting one of the providers hits as well |
| Providers.DeletePrefixHitsIff | secrets/local.go:193-208 | deleting a slash-free provider's prefix hits the keys of q exactly when q is it or continues it after a slash |
| Providers.DeleteProvider | secrets/local.go:193-208 | it removes all of that provider's credentials and leaves every other slash-free provider's alone |
| Providers.PutThenGet | secrets/local.go:210-242 | reading after writing gives an offered value under each offered name that is asked for, in whatever white space, older ones elsewhere, and every other provider unchanged |
| Providers.CredentialsMeaning | secrets/local.go:224-242 | reading returns exactly the asked, present, non-empty credentials |
| Environment.KeyMeaning | sshserver/server.go:446-449 | which entries have a name, and which: the text before an equals sign, if it is not empty |
| Environment.LastEntryMeaning | sshserver/server.go:450-453 | the value of a name is the entry that no later entry for it follows |
| Environment.FirstKeysOrder | sshserver/server.go:454-455 | names are ranked by their first occurrences |
| Environment.Add | sshserver/server.go:445-456 | one entry keeps the index map an exact bijection onto output positions and the output the merge so far |
| Environment.MergeEnv | sshserver/server.go:442-464 | the indexed merge is the merge of base followed by extra: unique names in first-occurrence order with their last entries |
| Environment.MergedKeepsMeaning | sshserver/server.go:442-464 | merging keeps the names, their order and every name's value |
| Environment.MergedSpells | sshserver/server.go:445-456 | the merge has one well-formed entry for each name and nothing else: entries without an equals sign or a name are dropped |
| Environment.TwoStagesAreOne | sshserver/server.go:403-409 | merging twice is merging once over the concatenation; merging is idempotent |
| Environment.AcceptedEntrySetsAllowedName | sshserver/server.go:34-42 | an accepted request sets an allowed name even when the requested name contains an equals sign |
| SshSession.ScanNoLogin | sshserver/server.go:393-401 | the scan obeys the first entry for the switch |
| SshSession.ChildEnv | sshserver/server.go:403-409 | the two merges amount to one last-wins pass over base, TERM and client entries |
| SshSession.ChildEnvMeaning | sshserver/server.go:403-409 | for every run and every name: the client's last accepted entry, else the terminal's TERM, else the base environment's entry |
| SshSession.SentReachesChild | sshserver/server.go:324-332 | the last value sent for an allowed name before the start is the child's |
| SshSession.TerminalReachesChild | sshserver/server.go:316-323 | the last terminal asked for before the start is the child's |
| SshSession.ArgvMeaning | sshserver/server.go:373-391 | for every run that starts a child, its whole command line: init wrapper exactly when configured and present, shell, -l or -lc or -c, command |
| SshSession.Session.Start | sshserver/server.go:411-433 | a start that succeeds sets the child once; a failed or second one changes nothing but the reply |
| SshSession.Session.Handle | sshserver/server.go:314-371 | each request's whole effect on environment, terminal, child, replies and controls |
| SshSession.Session.Serve | sshserver/server.go:303-305 | the request loop is the fold of the steps |
| SshSession.RunMeaning | sshserver/server.go:308-440 | for every request sequence: one reply per request that wants one, in order; at most one start granted, the first that can succeed; the child made of the requests before it; resizes and signals reach it only after its start |
| SshSession.ChildDependsOnAcceptedOnly | sshserver/server.go:373-433 | equal accepted settings before equal starts give equal children |
| SshSession.ProtectedNamesUntouched | sshserver/server.go:34-42 | no request sequence changes, in the child, a name other than the six listed ones and LC_* |
| SshSession.SwitchAgreesIff | sshserver/server.go:374-409 | for every run that starts a command: it runs without a login shell exactly when the client's first entry for the switch is truthy, and this agrees with the switch in the child's environment exactly when the client's first and last entries are equally truthy or, if it sent none, the base's value is not truthy |
| SshSession.SwitchedOffTooLate | sshserver/server.go:393-409 | a run in which they disagree: sent on, then off |
| SshSession.SwitchInBaseIgnored | sshserver/server.go:393-409 | another: on in the base environment, not sent |
| ExitProtocol.ExitStatusOnceAndLast | sshserver/process_linux.go:119-138 | in every interleaving at most one exit status, after all tracked copiers, the reaping and the store; on an open channel after all output |
| ExitProtocol.CodeIsTheChilds | sshserver/process_linux.go:127-137 | its code is that of the first exit in the run: the child's own, 128 plus its signal, or 255 when waiting failed |
| ExitProtocol.KillsWereAsked | sshserver/process_linux.go:150-164 | the child is killed with no signal that was not asked for |
| ExitProtocol.SignalsGetThrough | sshserver/process_linux.go:150-164 | a signal or hangup asked for before the store of exited is sent, after it is not |
| ExitProtocol.NoKillDecidedAfterStore | sshserver/process_linux.go:150-164 | every kill goes back to a load that precedes the store of exited |
| ExitProtocol.KillAfterReapIsPossible | sshserver/process_linux.go:119-164 | a kill can still follow the reaping, in the window before the store |
| ExitProtocol.DeliveredIsPrefix | sshserver/process_linux.go:84-116 | each copier has delivered a prefix of what the child wrote |
| ExitProtocol.DoKeepsInv | sshserver/process_linux.go:84-164 | every step of copiers, child, waiter and request loop keeps the protocol invariant |
| ExitProtocol.StepWorks | sshserver/process_linux.go:84-138 | once the child is gone no step adds work, and every step of copiers or waiter that does something takes some away |
| ExitProtocol.NeverStuck | sshserver/process_linux.go:84-138 | once the child is gone they have a next step until the waiter has finished |
| ExitProtocol.ChildCanSpeak | sshserver/process_linux.go:84-116 | every output and every ending of a child occurs in a run that reaches that point |
| ExitProtocol.ExitStatusSent | sshserver/server.go:435-439 | from any point at which the child has exited and its write ends are closed, however signals, hangup and the peer interfere, copiers and waiter stop after boundedly many steps with the exit-status request made and the channel closed; on an open channel and after all output, if nobody else closed it |
| Relay.RefusedOnlyByDial | sshserver/server.go:208-243 | in every run a request with a valid port on a loopback host is refused only when its dial fails, and any other is never dialled |
| Relay.SetupSucceeds | sshserver/server.go:208-243 | checks, dial and accept that succeed lead to a relay with its target open; an accept that fails closes the target |
| Relay.ReceivedIsPrefix | sshserver/server.go:244-257 | each end has received a prefix of what the other sent, all of it if the copier ended cleanly |
| Relay.ClosesInOrder | sshserver/server.go:208-261 | half-closes follow their copiers, full closes follow both; the target is closed on every path that dialled it; only permitted requests are dialled |
| Relay.OwnStepWorks | sshserver/server.go:246-260 | once both sources have ended, every effective step lowers the work left, I/O errors included |
| Relay.NeverStuck | sshserver/server.go:246-260 | until it has ended, a relay whose sources have ended has a next step |
| Relay.BothCanSpeak | sshserver/server.go:208-257 | such requests have runs in which both sides send anything and end |
| Relay.AlwaysEnds | sshserver/server.go:244-261 | from there, however it is scheduled and whichever reads and writes fail, a relay stops after boundedly many steps with both sides closed |
| Relay.EverythingDelivered | sshserver/server.go:244-261 | and without I/O errors with every byte delivered both ways |
| Jwks.BigEndianHead | idp/oidc.go:257-264 | the value of bytes, from the most significant one |
| Jwks.AccumulateExponent | idp/oidc.go:257-263 | the loop computes the big-endian value as a wrapping 64-bit integer, 65537 standing in for zero |
| Jwks.ExponentExactIff | idp/oidc.go:257-263 | the exponent is the encoded value exactly when that is positive and fits 63 bits |
| Jwks.SevenBytesExact | idp/oidc.go:257-263 | seven significant bytes after any leading zeros are read exactly |
| Jwks.KeyRoundTrip | idp/oidc.go:248-265 | a JWK gives back the modulus and the exponent it was made of |
| Jwks.CollectKeys | idp/oidc.go:174-188 | the loop builds the set of usable keys, later names replacing earlier ones |
| Jwks.DocumentRoundTrip | idp/oidc.go:174-188 | a document of keys under different names yields exactly those keys, each under its name with its own modulus and exponent |
| Jwks.UnusableIsSkipped | idp/oidc.go:175-181 | an entry that is not a complete, decodable RSA key is as if it were not there |
| Jwks.NoKeyLostIff | idp/oidc.go:174-188 | every usable key is kept under its positional name exactly when those names are distinct |
| Jwks.PlainDocumentsLoseNothing | idp/oidc.go:183-187 | nothing is lost when all kids are given and differ, or none is given: key i is then under its kid or under key-i |
| Jwks.MadeUpNameCollides | idp/oidc.go:183-187 | a kid that looks made up can cost a key |
| Jws.SplitPayload | idp/jwt_verify.go:27-34 | the scan returns what follows the first dot |
| Jws.PayloadIsWhatWasSigned | idp/jwt_verify.go:24-34 | for every three-part token the text decoded as payload is exactly the middle part of the text under the signature |
| Jws.KidMeaning | idp/oidc.go:70-88 | a token has a key id exactly when it has three parts whose first decodes to an RS256 header, and it is that header's |
| Jws.TruncateMeaning | idp/oidc.go:281-285 | an expiry is cut to whole seconds towards zero |
| Jws.AcceptedIff | idp/oidc.go:112-134 | with a key, a token is accepted exactly when its signed middle part decodes to unexpired claims of the right issuer and audience, and is reported as what these claims say |
| OidcCache.AcceptedUnderFreshKeys | idp/oidc.go:62-195 | in every interleaving, acceptance uses the key of the token's kid (or the sole key) in a set younger than the TTL at that call's last ensureKeys or in a later one; at most two JWKS requests per call |
| OidcCache.AcceptedClaimsWereSigned | idp/oidc.go:62-135 | the returned claims come from exactly the text that key's signature covers |
| OidcCache.CacheOnlyImproves | idp/oidc.go:137-195 | keys once present never become empty, a URI once set never changes |
| OidcCache.EnsureAllOrNothing | idp/oidc.go:137-195 | a failed ensureKeys leaves keys and time alone, a successful one leaves a fresh non-empty set; a URI once discovered is kept although the fetch fails |
| OidcCache.YoungIsFreshIff | idp/oidc.go:97-103 | in every reachable state a key set younger than the TTL is fresh exactly unless an unknown kid has zeroed its time since it was installed |
| OidcCache.CallMeaning | idp/oidc.go:62-195 | a whole call on any cache, fresh, stale, zeroed or empty: refused without keys in force; decided by the key in force for its kid, else by a sole key in force, else by the key a second request yields for that kid; and the keys it leaves |
| OidcCache.FreshCallMeaning | idp/oidc.go:89-111 | a call on a fresh cache, with the time and URI it leaves as well |
| OidcCache.RefreshForcedIff | idp/oidc.go:89-111 | that call makes a JWKS request exactly when its kid is unknown and other than one key is cached |
| OidcCache.SoleKeyHidesRotation | idp/oidc.go:89-96 | with one fresh key of another name a token under the issuer's published key is refused, which an empty cache accepts |
| OidcCache.RotationMissed | idp/oidc.go:62-135 | an issuer, a token and libraries for which this happens, with the checks Validate makes |
| OidcCache.FreshnessLostIff | idp/oidc.go:97-106 | a call takes the freshness of a cache exactly when its kid is unknown, other than one key is cached and the refetch yields nothing |
| OidcCache.LostUntilFetched | idp/oidc.go:62-141 | from then on, in every interleaving, no call that arrives gets past its first ensureKeys until a fetch succeeds |
| OidcCache.Validator.Refresh | idp/oidc.go:137-195 | ensureKeys on the struct: result, fields and time in every outcome |
| OidcCache.FindMeaning | idp/oidc.go:89-106 | the lookup finds exactly the key of that name or, the first time only, the set's only key |
| OidcCache.Validator.KeyFor | idp/oidc.go:89-111 | the lookup with one refresh |
| OidcCache.Validator.Validate | idp/oidc.go:62-135 | an uninterrupted call: result and cache |
| OidcCache.ValidateIsRun | idp/oidc.go:62-135 | that call is one of the interleaved runs, from any state |
| CappedBuffers.CappedBuffer.Write | internal/app/agent/run.go:146-163 | after any sequence of writes the buffer holds the first max bytes of all written, and the marker iff one write straddled the cap; each write reports its length |
| CappedBuffers.LossMarkedIff | internal/app/agent/run.go:146-163 | lost output is marked exactly when no boundary between writes falls on the cap |
| CappedBuffers.BoundaryHidesLoss | internal/app/agent/run.go:146-163 | the same bytes lost without a mark in two writes and with one in a single write |
| CappedBuffers.MarkerText | internal/app/agent/run.go:157 | the marker is a new line, an ellipsis, the bracketed word and a new line, in UTF-8 |
| CappedBuffers.CaptureBounded | internal/app/agent/run.go:136-163 | the capture exceeds a cap by at most the 16-byte marker, is complete within it or without one, and beyond it is the first bytes up to it with or without the marker |
| CappedBuffers.RunJob | internal/app/agent/run.go:114-134 | the captured output and the exit code for every ending of the command |
| RelayClient.Run | relayclient/relayclient.go:40-98 | refuses exactly a blank address, sandbox or token; otherwise the loop's waits, with wrapping arithmetic, under the configured bounds or their defaults, up to the first cancellation; the caller's configuration is left alone |
| RelayClient.UnsetWaits | relayclient/relayclient.go:44-49 | without configured bounds the waits are 1, 2, 4, 8, 16 and then 30 seconds |
| Backoff.WaitsAreCappedPowers | relayclient/relayclient.go:68-97 | every wait is Min doubled once per session since the last long one, capped at Max, and lies between them |
| Backoff.NeverOverflowsIff | relayclient/relayclient.go:93-96 | doubling never overflows exactly when both bounds are below 2^62 |
| Backoff.WaitSkippedIff | relayclient/relayclient.go:68-97 | some run meets a wait that is not positive exactly when one of the bounds is 2^62 or more |
| Backoff.ZeroStays | relayclient/relayclient.go:93-96 | once a wait is zero so is every later one up to the next long session |
| Backoff.LargestBoundStopsWaiting | relayclient/relayclient.go:93-96 | with the largest maximum, 64 short sessions bring the wait to zero from any minimum |
| Paths.JoinAppends | agentconfig/install.go:122 | joining a path without dot-dot to an absolute one only appends components |
| Paths.DirDropsLast | agentconfig/install.go:123 | Dir of a clean absolute path drops exactly its last component |
| Paths.DotDotGoesUp | agentconfig/stage.go:343-352 | joining two dots to an absolute path drops its last component |
| Paths.CleanRelative | agentconfig/stage.go:343-352 | a relative path without two dots is cleaned to the components that count |
| Paths.BaseOfAbs | agentconfig/stage.go:164 | Base of a clean absolute path is its last component |
| HomeSeeds.StageHome | agentconfig/stage.go:153-168 | the loop stages all entries in order or returns the first error |
| HomeSeeds.StageAllMeaning | agentconfig/stage.go:153-168 | staging succeeds exactly when every entry passes, in order; otherwise the error is that of the first that does not |
| HomeSeeds.StagingMeaning | agentconfig/stage.go:153-168 | staging succeeds exactly when every destination is given, relative and free of two dots in a row and every directory keeps its base name, and stages each entry as resolved |
| HomeSeeds.SourceMeaning | agentconfig/stage.go:343-352 | a relative source lies below the manifest's directory, an absolute one is itself |
| HomeSeeds.InstallHome | agentconfig/install.go:120-134 | for every sequence of answers of the guest, the effects carried out are the plan, or its part before the first refused effect |
| HomeSeeds.PlanAt | agentconfig/install.go:120-134 | the plan has two effects for each seed, seed after seed |
| HomeSeeds.EffectsMeaning | agentconfig/install.go:120-134 | they are making the directory above the destination and copying the staged source, a file to the destination, a directory into the one just made |
| HomeSeeds.DestUnderHome | agentconfig/install.go:121-123 | every accepted destination is the home with components added |
| HomeSeeds.LandsOnDestIff | agentconfig/install.go:127-131 | each copy lands on its destination, exactly unless a directory is copied under the base name "." |
| HomeSeeds.SeedStaysHomeIff | agentconfig/install.go:121-131 | each copy lands inside the home, exactly unless it is such a directory and its destination adds nothing to the home |
| HomeSeeds.DotEntryEscapes | agentconfig/stage.go:153-168 | an entry that passes every check and lands in the home's parent |
| HomeSeeds.AcceptedSeedsStayHome | agentconfig/stage.go:153-168 | staging and installing together: all copies land inside the home exactly when no staged seed is a directory called by a dot whose destination adds nothing |

## Left out

- Cipher, digest, RSA and JSON internals: parameters only. JSON's replacement of invalid UTF-8 is not modelled; strings are sequences of Unicode scalar values.
- Power loss: a crash stops the process between system calls; writes that completed are on disk, since the code never syncs.
- SecretRuns.ReopenLoadsDurable: one opener at a time and the same environment throughout; two openers that generate keys at once are not modelled.
- SecretStore.LocalEncrypted.PutProviderCredentials: which iteration order the map takes is left open, and with it which of two values is kept when their names trim alike.
- SecretStore.LocalEncrypted.Put: mutual exclusion is taken for granted; concurrent calls are the sequences of operations in SecretRuns.
- ExitProtocol.ExitStatusSent: no promise that a child ends, that its write ends get closed, or that a step that can be taken is: a peer that never opens its SSH window (flow control is not modelled) can hold up a copier's write for ever. The same goes for Relay. The table of signal names, the standard-input copier, terminal set-up and window sizes are left out, as nothing here depends on them.
- Relay: IsLoopbackHost is a given truth value, because it rests on an address parser outside the repository; dial and accept are outcomes.
- OidcCache: discovery's own checks and HTTP are outcomes. NewOIDC's default of ten minutes makes the TTL positive, which the lemmas require.
- Jws.AcceptedIff: expiry numbers are reals cut towards zero; floating-point rounding and values beyond 64 bits are not modelled.
- SshSession: ToLower is ASCII lower-casing, which decides the comparison with the three ASCII words; startProcess is an outcome.
- RelayClient.Run: the keepalive timeout is a constant of another repository; whether a session was long is given.
- HomeSeeds.SeedStaysHomeIff: that CopyTo puts a directory under its own base name into an existing one is an assumption about the guest, whose implementation is not in this repository; all placement results rest on it.
- HomeSeeds: os.Stat gives the same answer when staging and when installing; file copying and the shell scripts of Install are not modelled. The guest home's value is a parameter.
- Not part of this model: idp/pkce.go (interactive login), sandbox (creating and destroying sandboxes through a driver), inference (listing model providers), refresh (reading credentials from the host environment), internal/harden (Landlock and dropping privileges), internal/config, internal/audit and internal/logging (environment settings and log records), cmd and images (command lines, container image).
