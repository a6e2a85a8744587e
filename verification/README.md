# Verification of the Tabbify service supervisor

A Dafny model of the parts of the supervisor whose correctness depends on
order, crashes and hostile inputs, with proofs over every input, every run or
every reachable state. `dafny verify dfyconfig.toml` checks all of it.

What the modules cover:

- **Image pulls.** `Transport` and `ResumeProofs`: the resumable download, its
  file and its stall budget. `OciPull` and `OciPullProofs`: blobs, manifests,
  index selection and the OCI layout directory. `Challenge`, `Auth` and their
  proofs: the Bearer challenge, the token URL and the token cache.
  `AuthedDownload`: the download with its authenticated GETs. `OciRef`: the two
  reference splitters.
- **Dev sessions and workspaces.** `Lifecycle` and `LifecycleProofs`: the four
  stores as interleaved steps with crashes. `DevSessions` and its proofs: the
  registries, the sweep, re-adoption and ages. `CapReuse`: capability tokens
  over the generations of a workspace record. `AtomicRecord`: replacing a
  record file, one system call at a time.
- **Forwarder and artifact cache.** `Forwarder` and `Fetcher` with their proofs.

How the outside world appears: a registry, a disk or a scheduler is a script of
the outcomes its operations have (`Turn`, `Pass`, `Fetch`, `Script`, `Faults`,
`Event`, `Step`), universally quantified in every statement. A script that is
used up is a call observed half-way, so a statement about all scripts is also a
statement about every intermediate state and every crash point. Code that
updates files, maps or counters is a class or a method with loops, proved equal
to a step function; the theorems are then about that function. SHA-256, JSON and
TOML parsing are uninterpreted parameters; collision-freeness is assumed only
where a lemma requires it.

Promises that are false of the code, with the exact condition under which they hold:

- The doc comment at src/oci_pull_transport.rs:167-173 promises a wall-clock
  bound. The deadline is read only when a try made no progress, so a server that
  ignores `Range` over a link that breaks after each first byte keeps the loop
  going for ever (`ResumeNeedNotTerminate`). With ranges honoured the deadline
  does end it (`DeadlineHolds`); in general each ignored range buys one more
  budget, so only ranges ignored without bound make a run unbounded
  (`TriesBounded`, `PastDeadline`).
- "Ok" means the file is the blob if and only if the last flush, whose result is
  ignored, lost nothing (`ResumeSafety`).
- A blob heals if and only if one of three passes resumes a prefix, or starts
  afresh, and loses nothing (`BlobSelfHeals`); otherwise it depends on the unlink
  whose result is ignored (`DiscardDecides`, `UnlinkFailureKeepsJunk`).
- A tag pull returns the served manifest if and only if the scratch file had been
  a prefix of it or some reply restarted at byte 0, and nothing was lost; a stale
  scratch file is spliced in otherwise (`TagManifestExact`, `StaleScratchSplices`).
  A rename leaves no scratch file (`RenamedThenTag`); the copying fallback does, and
  so spoils the next pull of a tag that has moved on (`CopiedThenTagSplices`).
- A closed layout directory survives a further pull if and only if that reaches no
  cut-short write of index.json, of the marker, or of a manifest copy the index
  needs (`ClosedStaysClosed`, `TornIndexBreaks`, `TornCopyBreaks`); a later Ok pull
  repairs all of it (`PullOkCloses`).
- The bearer cache re-exchanges a rejected token if and only if the token cached
  for that challenge is missing or the newest; with two keys an expired token is
  replayed for ever (`CallSends`, `StaleTokenReplayed`, `TwoKeysReachStale`).
- The doc comment at src/oci_pull_auth.rs:104 calls parameters comma or space
  separated; only a comma, or the end, ends an unquoted value (`BareValueExactly`).
- The token URL carries service and scope if and only if the realm has no fragment
  (`TokenUrlRoundTrip`).
- The two reference splitters agree if and only if `CutsAgree` holds of the parts;
  a capitalised tag together with a digest is a failing family
  (`SplittersAgreeExactly`, `TagAndDigestDisagree`).
- A live runner keeps its sidecar as long as creates name fresh app uuids, sidecar
  saves succeed, no delete or sweep overlaps a pending deploy, and the runner
  listing at re-adoption omits no live runner, as it does for a record it cannot
  parse (`PurgeBeforeForget`); a failure of any one of the four breaks it
  (`RepeatedUuidStrands`, `UnsavedSidecarStrands`, `DeleteDuringDeployStrands`,
  `IncompleteListingStrands`), and an incomplete listing strands exactly the
  omitted runners (`StrandedExactly`). A refresh that overlaps a delete leaves an
  orphan sidecar until the next re-adoption (`RefreshRevivesSidecar`).
- A repository keeps its capability token if and only if the workspace record was
  never removed - by a failed deploy, a delete, or a re-adoption whose listing
  omitted the live runner - nor replaced by an ensure that could not read it
  (`TokenStable`).
- The artifact cache stays faithful if and only if no write stops short
  (`FetchFaithfulExactly`, `TornWriteIsServed`).

## Model

| member | source | states |
|---|---|---|
| Transport.WriteChunks | src/oci_pull_transport.rs:246-252 | the chunk loop leaves the file extended by exactly the accepted bytes, in order, up to the first failing write, and reports that failure |
| Transport.Pump | src/oci_pull_transport.rs:242-293 | opening, truncating or appending, writing and flushing one body has the effect and the clean-end verdict of one pump, and touches no other file |
| Transport.HandleReply | src/oci_pull_transport.rs:208-235 | one iteration: 200 restarts, 206 appends, 416 completes, 429/5xx and no-progress breaks stall, any progress resets the stall count, any other status fails |
| Transport.DownloadResumable | src/oci_pull_transport.rs:182-237 | the in-place loop ends with the file and outcome of the specified run, and asks for the specified ranges; all other files are untouched |
| ResumeProofs.PumpContinues | src/oci_pull_transport.rs:242-263 | pumping served bytes never leaves anything but a continuation of what was there, and a clean end leaves everything but the unflushed tail |
| ResumeProofs.StepContinues | src/oci_pull_transport.rs:197-236 | one iteration continues the same base or restarts from nothing; an Ok one leaves the whole document spliced onto the base, minus the lost tail |
| ResumeProofs.RunContinues | src/oci_pull_transport.rs:182-237 | the same over every run, from an arbitrary file |
| ResumeProofs.ResumeSafety | src/oci_pull_transport.rs:167-237 | from an absent file or a prefix, the file is a prefix of the blob at every point of every honest run, and an Ok return leaves exactly the blob if and only if the final flush lost nothing |
| ResumeProofs.StaleFileExact | src/oci_pull_transport.rs:198-227 | from an arbitrary file, Ok leaves the served document if and only if a reply restarted at byte 0 or the file was a prefix of it; otherwise it leaves the splice |
| ResumeProofs.StepSpendsBudget | src/oci_pull_transport.rs:228-235 | an iteration that does not return lowers 40 * missing bytes + remaining tries, unless it ignored a range, and never leaves more than one whole budget |
| ResumeProofs.RunWithinBudget | src/oci_pull_transport.rs:197-236 | from any point of any honest run the iterations are at most that budget and one more whole budget for each ignored range |
| ResumeProofs.TriesBounded | src/oci_pull_transport.rs:197-236 | every honest run returns within 40 * (blob length + 1) tries and as many again, and one, for each ranged request answered with a full body: only ranges ignored without bound make it unbounded |
| ResumeProofs.ResumeTerminates | src/oci_pull_transport.rs:167-237 | with ranges honoured, every honest run returns within 40 * (blob length + 1) iterations |
| ResumeProofs.PastDeadline | src/oci_pull_transport.rs:267-271 | once the deadline has passed, a run returns within the missing bytes and one more try, and within the whole blob and two more for each ignored range |
| ResumeProofs.DeadlineHolds | src/oci_pull_transport.rs:167-173 | so with ranges honoured the wall-clock deadline does end the download, from any point on, within the missing bytes and one more try |
| ResumeProofs.ResumeNeedNotTerminate | src/oci_pull_transport.rs:208-235 | for every n there is an honest run of n iterations, all past the deadline, that has not returned: ranges ignored, a break after one byte |
| ResumeProofs.StallingExactly | src/oci_pull_transport.rs:200-234 | the tries without progress are exactly: transport errors, transient statuses, and bodies that break or cannot be written before their first byte; a full body whose file cannot be opened counts as progress while bytes are on disk |
| ResumeProofs.FortiethTry | src/oci_pull_transport.rs:267-276 | whatever mixture of those the tries are, before the deadline the call fails at the fortieth in a row and not before |
| ResumeProofs.StallCount | src/oci_pull_transport.rs:228-233 | over every run: while the call runs its count is exactly the number of tries without progress since the last one that made some, and it ends stalled only on a row of forty of them |
| ResumeProofs.ProgressBuysForty | src/oci_pull_transport.rs:230-231 | one try with progress, from any count, buys forty more: the call fails at the fortieth stalling try after it and not before |
| ResumeProofs.StatusFates | src/oci_pull_transport.rs:208-224 | by number: 416 completes, 429 and 500 to 599 stall, every other status but 200 and 206 fails, and none of them touches the file |
| ResumeProofs.WrittenExactly | src/oci_pull_transport.rs:246-252 | chunks are written in order and in full; of the first refused one stays what was written of it, and nothing of the later ones |
| ResumeProofs.AsksForTheRest | src/oci_pull_transport.rs:198-200 | every iteration asks for exactly the bytes after those on disk at that moment, and for everything while there are none |
| OciPull.VerifyFile | src/oci_pull_transport.rs:306-328 | chunked hashing, whatever sizes the reads return, tells a match from a difference; a missing file differs, and one that cannot be opened or read is an error |
| OciPull.Attempt | src/oci_pull.rs:346-357 | one download and verification, discarding a file that fails it |
| OciPull.PullBlobInto | src/oci_pull.rs:328-360 | the attempt loop ends with the file, verdict and number of downloads of the specified pull, touching no other blob |
| OciPull.FetchManifestInto | src/oci_pull.rs:251-284 | a manifest goes through the scratch file, the digest check, and the rename or its copying fallback, as specified |
| OciPull.LayoutDir.PullAll | src/oci_pull.rs:213-224 | config and layers are pulled in order, stopping at the first that fails |
| OciPull.LayoutDir.Pull | src/oci_pull.rs:174-236 | the whole pull, the two layout markers last, has the specified effect on files, marker and index |
| OciPullProofs.RepullBounds | src/oci_pull.rs:345-359 | from attempt k on at most 4 - k downloads happen, and a pulled verdict means the file verifies |
| OciPullProofs.BlobIntegrity | src/oci_pull.rs:328-360 | against any registry at all: Ok implies the stored file hashes to the digest, after at most three downloads, and none if it already did |
| OciPullProofs.PassHealsExactly | src/oci_pull.rs:346-357 | one honest download ends with exactly the blob if and only if it lost nothing of its tail and resumed a prefix or restarted; otherwise it fails verification |
| OciPullProofs.BlobSelfHeals | src/oci_pull.rs:324-360 | whatever bytes are on disk, with an honest registry and downloads that return Ok the pull ends with exactly the blob if it was there or one of three passes heals, and fails in all other cases |
| OciPullProofs.DiscardHeals | src/oci_pull.rs:345-357 | two downloads do when the first file could be unlinked and the second download lost nothing; a third one does when the second file could be unlinked |
| OciPullProofs.DiscardDecides | src/oci_pull.rs:352-357 | over range-honouring, lossless downloads the pull succeeds if and only if the old bytes were a prefix or one of the first two files could be unlinked |
| OciPullProofs.UnlinkFailureKeepsJunk | src/oci_pull.rs:357-359 | any junk at least as long as the blob survives three honest downloads when the unlink, whose result is ignored, fails |
| OciPullProofs.ManifestIntegrity | src/oci_pull.rs:266-283 | a returned manifest is stored under its own hash, and has the pinned digest if one was pinned, whatever the scratch file held |
| OciPullProofs.TagManifestExact | src/oci_pull.rs:259-266 | for a tag, the returned bytes are the served document if and only if the last flush lost nothing and the scratch file was absent, empty or a prefix of it, or a reply restarted; otherwise the stale bytes are spliced in |
| OciPullProofs.StaleScratchSplices | src/oci_pull.rs:259-263 | every scratch file that is no prefix of the document makes an honest, range-honouring registry return a splice |
| OciPullProofs.ScratchLeft | src/oci_pull.rs:259-278 | a fetch leaves no scratch file after a rename or an unlinked mismatch, and otherwise all that was downloaded |
| OciPullProofs.RenamedThenTag | src/oci_pull.rs:274 | after a renamed manifest, whatever was there before it, a tag fetch returns the served document if and only if its own last flush lost nothing |
| OciPullProofs.CopiedThenTagSplices | src/oci_pull.rs:274-278 | after the copying fallback, which leaves the scratch file, a tag that has moved on to any document the old one is no prefix of yields a splice of the two |
| OciPullProofs.ChildSelection | src/oci_pull.rs:289-313 | an index is a document with manifests and no layers; the digest chosen is that of the first child for this host, else of the first child, and selection fails exactly when there is no such digest |
| OciPullProofs.BlobsAreListed | src/oci_pull.rs:205-224 | the blobs to pull are exactly the config and, when there is a layer array, every layer in it; without a config there is no pull |
| OciPullProofs.ConfigThenLayers | src/oci_pull.rs:213-224 | the config is pulled first, the layers follow only once it is there, and marker and index only once these are |
| OciPullProofs.StopsInOrder | src/oci_pull.rs:217-224 | blobs are pulled in the listed order: where a pull stops short every earlier one is intact and no later one was touched |
| OciPullProofs.HexOfDigest | src/oci_pull.rs:337-340 | a digest names a blob file exactly when it is sha256: and that name |
| OciPullProofs.PullBlobsKeeps | src/oci_pull.rs:213-224 | pulling blobs keeps every intact file, and on success every listed blob is intact |
| OciPullProofs.IntactBlobsNotPulled | src/oci_pull.rs:341-343 | blobs that are all intact are not downloaded again and nothing changes; only a failing read can stop the pull |
| OciPullProofs.ContentsLeave | src/oci_pull.rs:205-235 | what follows the manifest keeps every intact file, and leaves exactly the marker and the index that the writes reached make of them |
| OciPullProofs.ContentsClosedExactly | src/oci_pull.rs:226-234 | of a closed layout it makes an open one if and only if it cuts short index.json, or the marker of an existing index |
| OciPullProofs.LayoutClosure | src/oci_pull.rs:174-236 | into a directory without an index every pull leaves, wherever it stops or crashes: if and only if it returned Ok an index whose manifest, config and layers are all present and hash to their names; a torn index if and only if the write of index.json was reached and cut short; none otherwise |
| OciPullProofs.PullOkCloses | src/oci_pull.rs:205-235 | an Ok pull closes the layout and names an image, whatever the directory was before: torn index, torn marker, broken blobs |
| OciPullProofs.PulledIntact | src/oci_pull.rs:205-235 | after an Ok pull into any directory the stored manifest, its config and every layer it lists are there and hash to their names, and index.json names that manifest by hash, size and media type |
| OciPullProofs.PendingExactly | src/oci_pull.rs:174-236 | a pull is pending exactly while the download of its manifest, of the selected child or of a blob has not returned |
| OciPullProofs.FetchKeepsExactly | src/oci_pull.rs:266-278 | a manifest fetch keeps every intact file if and only if it does not cut one short in the copy that replaces a failed rename |
| OciPullProofs.ClosedStaysClosed | src/oci_pull.rs:174-284 | a closed layout stays closed through any further pull of any reference, wherever it stops, if and only if the pull reaches no cut-short write of index.json, of the marker of an existing index, or of a manifest copy that the existing index needs |
| OciPullProofs.TornCopyBreaks | src/oci_pull.rs:273-278 | a copy of the named manifest cut short at its start breaks every closed layout that has an index |
| OciPullProofs.TornIndexBreaks | src/oci_pull.rs:395-397 | so does pulling again what the index names with no failure but a write of index.json that is cut short |
| OciPullProofs.PinnedManifestUnique | src/oci_pull.rs:194-203 | two resolutions of one pinned digest, over different networks and disks, that both return, return the same manifest |
| OciPullProofs.RepeatPullsNoBlob | src/oci_pull.rs:341-343 | after an Ok pull of a digest reference, pulling it again into that directory downloads no blob |
| OciRefProofs.AsciiLowering | src/oras.rs:102-113 | ASCII lowercasing is idempotent, keeps the separators and works apart on both sides of a slash or an at sign: the laws assumed of lowercasing everywhere else |
| OciRefProofs.LowercaseIdempotent | src/oras.rs:102-113 | lowercasing a reference twice is lowercasing it once |
| OciRefProofs.PartsAgreeExactly | src/oras.rs:95-113 | for every lowercasing with those laws and any parts, parsing the lowercased text is the lowercased parse if and only if the cuts of the two splitters agree |
| OciRefProofs.SplittersAgreeExactly | src/oci_pull.rs:78-111 | the same for every string, with and without a slash |
| OciRefProofs.SplittersAgree | src/oci_pull.rs:75-111 | on every reference with a digest or a tag but not both, in its last segment, the two splitters agree: host and repository lowercased, reference unchanged |
| OciRefProofs.TagAndDigestDisagree | src/oras.rs:106-110 | a tag together with a digest makes them disagree whenever lowercasing the path with the tag does not leave the tag alone |
| OciRefProofs.AsciiTagWithDigestDisagrees | src/oras.rs:106-110 | in ASCII, that is every tag with a capital |
| OciRefProofs.CapitalTagWithDigest | src/oras.rs:106-110 | one such reference, spelled out |
| OciRefProofs.NoAt | src/oci_pull.rs:94-110 | without a digest the tag is what follows the first colon of the last segment, and "latest" when there is none |
| OciRefProofs.AtInMark | src/oci_pull.rs:82-93 | with an at sign in the last segment the digest is what follows the last one, and must be a sha256 |
| OciRefProofs.AtInDirs | src/oci_pull.rs:82-93 | the same when the last at sign stands in an earlier segment |
| OciRefProofs.PinsExactly | src/oci_pull.rs:66-93 | a digest is pinned exactly by an at sign after the host, and is what follows the last one; a tag pins nothing |
| OciRefProofs.PrintThenParse | src/oci_pull.rs:78-111 | printing a parsed reference and parsing it again gives the same reference |
| Challenge.TokeniseAuthParams | src/oci_pull_auth.rs:108-154 | the index walk terminates on every text and collects what the tokeniser specifies |
| Challenge.QuotedLoop | src/oci_pull_auth.rs:130-141 | the quoted-value loop resolves escapes and consumes the closing quote, as specified |
| Challenge.EncodeLoop | src/oci_pull_auth.rs:158-169 | the byte loop prints the percent-encoding |
| ChallengeProofs.ParamsRoundTrip | src/oci_pull_auth.rs:108-154 | any list of parameters, in any order, quoted and escaped or bare, with any separators, is read back with trimmed values |
| ChallengeProofs.BareValueExactly | src/oci_pull_auth.rs:142-147 | a value without quotes is read back if and only if a comma or the end follows it; white space does not end it |
| ChallengeProofs.UnclosedTaken | src/oci_pull_auth.rs:130-141 | without a closing quote the value goes on to the end, a last lone backslash included |
| ChallengeProofs.FlagEnds | src/oci_pull_auth.rs:121-129 | a name without a value ends the list |
| ChallengeProofs.UnnamedSkipped | src/oci_pull_auth.rs:148-151 | a value without a name is passed over |
| ChallengeProofs.TrimExactly | src/oci_pull_auth.rs:148-151 | trimming takes white space off both ends, and all of it |
| ChallengeProofs.OnlyBearer | src/oci_pull_auth.rs:82-90 | white space in front is skipped, and a header of any other scheme than Bearer, in any casing, is no challenge |
| ChallengeProofs.FirstOfName | src/oci_pull_auth.rs:91-96 | of several parameters of one name the first counts |
| ChallengeProofs.ChallengeReadsBack | src/oci_pull_auth.rs:78-102 | a printed challenge, in any parameter order, quoting and scheme casing, reads back with values trimmed, empty ones absent and an empty realm fatal |
| ChallengeProofs.ChallengeRoundTrip | src/oci_pull_auth.rs:82-154 | that round trip is the identity if and only if the values are non-empty and trim-stable |
| ChallengeProofs.PercentRoundTrip | src/oci_pull_auth.rs:158-169 | percent-decoding undoes the encoding of every byte string |
| ChallengeProofs.PercentEncodeInjective | src/oci_pull_auth.rs:158-169 | different byte strings are encoded differently |
| ChallengeProofs.PercentEncodeEmits | src/oci_pull_auth.rs:156-169 | the encoding consists of unreserved characters and %XX only, and contains no delimiter |
| ChallengeProofs.EncodesExactly | src/oci_pull_auth.rs:161-165 | the unreserved characters, and only they, stand for themselves |
| ChallengeProofs.TokenUrlRoundTrip | src/oci_pull_auth.rs:59-75 | splitting and decoding the query of the token URL gives the realm's own parameters followed by exactly the service and the scope, if and only if the realm has no fragment or there is nothing to send |
| Auth.ReadBody | src/oci_pull_auth.rs:309-318 | the draining loop returns the whole body unless it breaks or exceeds the cap |
| Auth.ExchangeToken | src/oci_pull_auth.rs:281-306 | an exchange yields the token, or its alias when there is no token, and only from a 2xx reply with a whole, parseable body |
| Auth.BearerCache.GetAuthedWith | src/oci_pull_auth.rs:232-277 | one call has the specified result, cache update and requests |
| AuthProofs.CallSends | src/oci_pull_auth.rs:219-277 | at most three GETs; the token endpoint is asked at most once, and exactly when the cached token is missing or the newest; the retry carries the token then cached |
| AuthProofs.HeadersSent | src/oci_pull_auth.rs:240-277 | the first GET carries the newest token, or the Basic credential when there is none yet, or nothing without a credential; the token endpoint gets the credential and never a bearer; a retry carries a bearer; the caller gets the first reply when it is no challenge, and else the retried one or a failure |
| AuthProofs.PullCarries | src/oci_pull_auth.rs:219-290 | over every run: all requests carry the credential, nothing when there is none, or - never to the token endpoint - a token cached to begin with or minted in that run |
| AuthProofs.FirstShowsCredential | src/oci_pull_auth.rs:240-248 | the first request of a pull shows the credential |
| AuthProofs.MintsExactly | src/oci_pull_auth.rs:281-318 | a token comes exactly from a 2xx whose whole body is within 64 KiB and parses to a non-empty string under "token", or under "access_token" when there is no "token" at all |
| AuthProofs.KeysAgreeExactly | src/oci_pull_auth.rs:50-56 | two challenges share a token exactly when realm, service and scope agree, an absent service counting as an empty one |
| AuthProofs.CallKeepsNewestCached | src/oci_pull_auth.rs:204-208 | a call keeps the newest token the current entry of some key |
| AuthProofs.NewestAlwaysCached | src/oci_pull_auth.rs:179-215 | so it is over every run of calls |
| AuthProofs.CallRefinesOneToken | src/oci_pull_auth.rs:232-277 | with a single challenge key one call is a step of the one-optional-token machine, requests included |
| AuthProofs.PullRefinesOneToken | src/oci_pull_auth.rs:171-215 | and a whole pull is a run of it |
| AuthProofs.ExchangesBounded | src/oci_pull_auth.rs:173-177 | any stretch of a pull over one key, from whatever token it starts with, exchanges successfully at most once per rejected cached bearer, and once more only to get its first token |
| AuthProofs.StaleTokenReplayed | src/oci_pull_auth.rs:262-271 | a cached token that is not the newest is replayed on every later call, for any number of calls, without an exchange |
| AuthProofs.TwoKeysReachStale | src/oci_pull_auth.rs:260-271 | two challenges with different keys and tokens lead from the empty cache into that state |
| AuthedDownload.PlayLeg | src/oci_pull_transport.rs:198-235 | one iteration with its authenticated GET |
| AuthedDownload.DownloadAuthed | src/oci_pull_transport.rs:182-237 | the loop over the shared file and the shared cache, as specified |
| AuthedDownloadProofs.AuthIsTransparent | src/oci_pull_transport.rs:174-178 | the file evolves as under the plain loop fed with the replies authentication lets through, and the requests and cache are those of the calls made |
| AuthedDownloadProofs.LoopSees | src/oci_pull_auth.rs:245-277 | a reply that is no challenge reaches the resume loop with its own body; a challenged one is replaced by the retry and its body, or by a transport error when no token was to be had |
| AuthedDownloadProofs.AuthedResume | src/oci_pull_transport.rs:167-178 | from whatever token the pull holds: prefix safety and exact completion of the authenticated download, at most 120 * (blob length + 1) GETs when ranges are honoured, and exchanges bounded by the rejections and a missing first token |
| AuthedDownloadProofs.AuthedPull | src/oci_pull.rs:187-224 | all downloads of a pull, sharing the cache: each delivers, and together they exchange successfully at most once, and once more per rejected bearer |
| AuthedDownloadProofs.ExpiryKeepsProgress | src/oci_pull_transport.rs:176-178 | a bearer that expires mid-blob is re-exchanged and the retried range counts as if asked for first |
| AuthedDownloadProofs.StaleTokenEndsDownload | src/oci_pull_auth.rs:262-276 | a stale token that is not the newest ends the download with a 401, without an exchange |
| DevSessions.GitSessions.RefreshToken | src/api/git_proxy.rs:94-119 | refreshing re-arms a known capability, keeping its upstream; an unknown one stays unknown and is reported |
| DevSessionsProofs.BumpDefersIdleExpiry | src/api/dev_sessions.rs:114-122 | a bumped session expires by idling only after one more idle time, and otherwise by its unchanged age alone; its identity stays |
| DevSessions.ReadoptDevSessions | src/api/dev_session_record.rs:214-298 | the re-adoption loop has the specified effect on all three stores and counts adopted and collected records |
| DevSessions.WorkspaceStore.RegisterCaps | src/api/workspace_record.rs:205-215 | every capability of a record is registered with an expired placeholder |
| DevSessions.WorkspaceStore.ReadoptAll | src/api/workspace_record.rs:171-230 | the workspace re-adoption loop has the specified effect and counts adopted and collected records |
| DevSessions.SweepExpired | src/api/dev_sessions.rs:694-752 | a sweep removes session, capability and sidecar of precisely the expired sessions of the snapshot whose purge succeeded, and nothing else |
| DevSessionsProofs.ReadoptLeaves | src/api/dev_session_record.rs:246-298 | one pass over any stores: each live session has every field of its record, createdAt rebuilt from the creation stamp and lastActivity from the activity stamp, each live capability is a placeholder on its own repository, and every other entry is untouched |
| DevSessionsProofs.RecordsLeft | src/api/dev_session_record.rs:247-256 | and of the sidecars exactly the orphans that could be unlinked are gone |
| DevSessionsProofs.ReadoptRebuilds | src/api/dev_session_record.rs:190-298 | after a crash a pass over the whole directory yields exactly the sessions with a live marked runner, field by field as recorded, and counts them; each capability on its own repository and unusable at any later instant, orphans gone |
| DevSessionsProofs.ReadoptIdempotent | src/api/dev_session_record.rs:209-298 | a second pass over what the first left rebuilds the same sessions, identities and all, and the same capabilities on the same upstreams, and unlinks nothing |
| DevSessionsProofs.CapabilityFate | src/api/git_proxy.rs:64-143 | under any history without a new registration a capability is gone once revoked, and otherwise leads to its first upstream with the token and expiry of its last refresh |
| DevSessionsProofs.ReadoptedCapability | src/api/dev_session_record.rs:258-267 | a re-adopted capability is unusable until refreshed, and then gives exactly its own repository with the refreshed token until that expires |
| DevSessionsProofs.RegisterAllLeads | src/api/workspace_record.rs:205-215 | registering a whole record leads each capability to its own repository and disturbs no other |
| DevSessionsProofs.WorkspacesRebuilt | src/api/workspace_record.rs:154-230 | re-adoption restores exactly the live workspaces, field by field, with all their capabilities in order and on their own repositories, each an expired placeholder, and removes the orphans |
| DevSessionsProofs.WorkspaceCapsUnusable | src/api/workspace_record.rs:205-215 | no re-adopted capability of a workspace is usable at any later instant, and a refresh makes it give exactly its own repository |
| DevSessionsProofs.WorkspacesIdempotent | src/api/workspace_record.rs:164-230 | a second pass over what the first left rebuilds the same workspaces and capabilities on the same upstreams, and no others, and unlinks nothing |
| DevSessionsProofs.RebuiltAge | src/api/dev_session_record.rs:180-188 | an age rebuilt after a restart is within one second of the true age, exactly unless the wall clock was set back or the instants do not reach back that far; then it restarts from 0 |
| DevSessionsProofs.RestartExpiresNotEarly | src/api/dev_session_record.rs:184-298 | so a session that re-adoption rebuilt from its record expires, by idleness or by age, not more than one second early, and not more than one second late where both ages can be rebuilt |
| DevSessionsProofs.SweepLeaves | src/api/dev_sessions.rs:694-752 | a sweep leaves every session, capability and sidecar but those of a snapshot entry that was idle or old beyond the limit and was purged, a sidecar also when it could not be unlinked |
| LifecycleProofs.StepKeepsInv | src/api/dev_sessions.rs:437-509 | as long as creates name fresh app uuids, sidecar saves succeed, no delete or sweep overlaps that session's pending deploy and runner listings are complete, every step of create, deploy, delete, sweep, refresh, crash and re-adopt keeps the invariant over the four stores |
| LifecycleProofs.RunKeepsInv | src/api/dev_sessions.rs:338-752 | under the same four assumptions, so does every run |
| LifecycleProofs.PurgeBeforeForget | src/api/dev_sessions.rs:594-636 | as long as creates name fresh app uuids, sidecar saves succeed, no delete or sweep overlaps that session's pending deploy and runner listings are complete: at every point of every run, crashes anywhere, a live marked runner has its sidecar; while serving after a complete re-adoption it is also listed and its capability leads to its repository |
| LifecycleProofs.EffectIsSafe | src/api/dev_sessions.rs:494-505 | a handle is only ever dropped when its runner is gone and no deploy can still bring one |
| LifecycleProofs.RepeatedUuidStrands | src/api/dev_sessions.rs:338-362 | of two creates naming one app uuid, which the caller supplies and nothing checks, the failed deploy of the first unlinks the sidecar of the second while the second brings up its runner |
| LifecycleProofs.UnsavedSidecarStrands | src/api/dev_sessions.rs:470-472 | a run in which the sidecar save fails leaves a runner without a sidecar |
| LifecycleProofs.DeleteDuringDeployStrands | src/api/dev_sessions.rs:608-636 | so does a delete that completes inside the pending deploy |
| LifecycleProofs.StrandedExactly | src/api/dev_session_record.rs:227-256 | when a re-adoption has visited every sidecar it could read, in whatever order, the runners left without one are exactly those the runner listing did not name, by failing or by skipping a record |
| LifecycleProofs.IncompleteListingStrands | src/orchestrator/handle.rs:234-265 | from every good state and for every incomplete listing there is a run that strands exactly the omitted runners |
| LifecycleProofs.RestartRestores | src/api/dev_session_record.rs:209-298 | a crash at any point of any run and a complete re-adoption, visiting the sidecars in any order, serve exactly the sessions of the live runners, with their capabilities and sidecars and no others |
| LifecycleProofs.CreateBuilds | src/api/dev_sessions.rs:437-491 | a create that runs alone leaves runner, sidecar, session and capability, and changes nothing else |
| LifecycleProofs.FailedDeployUndoes | src/api/dev_sessions.rs:489-509 | a failed deploy takes back all four once the VM is purged, and keeps every handle when it could not be |
| LifecycleProofs.ReapForgets | src/api/dev_sessions.rs:594-636 | a delete or sweep forgets exactly those of its sessions whose VM it could purge, everywhere, and leaves every handle of the others |
| LifecycleProofs.RefreshRevivesSidecar | src/api/dev_sessions.rs:557-572 | a refresh that overlaps a delete puts the sidecar back without its runner: an orphan until the next re-adoption |
| CapReuseProofs.PriorIsRow | src/api/workspace_cap_reuse.rs:44-50 | the reused token is that of a row for exactly this repository with a token-shaped capability, and none is found only if there is none |
| CapReuseProofs.PriorExactly | src/api/workspace_cap_reuse.rs:30-50 | it is the first such row, a token being 64 lower-case hexadecimal digits |
| CapReuseProofs.IssuedExactly | src/api/workspaces.rs:552-661 | a generation hands out one row per request, in order, with the token the repository holds in the record it could read and else the fresh mint; what is recorded is these rows and the old ones of repositories not mentioned |
| CapReuseProofs.NextKeepsToken | src/api/workspaces.rs:583-661 | a new generation keeps the token of every repository the record knows, unless the record is removed or replaced by an ensure that could not read it |
| CapReuseProofs.TokenStable | src/api/workspaces.rs:552-661 | over any chain of ensures, additions and removals of the record (by a failed deploy, a delete, or a re-adoption that takes it for an orphan) a repository keeps its token if and only if the record was never removed, nor replaced by an ensure that could not read it; after either, the token never returns |
| CapReuseProofs.ReissuedExactly | src/api/workspaces.rs:589-599 | a generation hands out the token a repository has if and only if it could read the record |
| CapReuseProofs.NextOrigin | src/api/workspaces.rs:194-213 | every row handed out or recorded by a generation is an old row or a fresh mint for a requested repository |
| CapReuseProofs.NoTokenForTwoRepos | src/api/workspace_cap_reuse.rs:12-17 | over any chain of generations, records readable or not, saved or not and removed in between, no token is ever recorded or registered for two repositories |
| CapReuseProofs.RegisteringNeverRedirects | src/api/workspace_record.rs:205-215 | so registering the record of any generation leads each token to its own repository |
| AtomicRecord.RecordDir.Save | src/api/atomic_record.rs:16-46 | the save issues exactly the specified calls in order, and is Ok only if every one succeeded |
| AtomicRecord.RecordDir.WriteAll | src/api/atomic_record.rs:43 | the contents are written piece by piece, in order |
| AtomicRecordProofs.RenameTracked | src/api/atomic_record.rs:44-45 | renaming a synced temporary file over a record adds exactly the new contents to what a crash may leave of it, and keeps every record whole |
| AtomicRecordProofs.UnlinkTracked | src/api/dev_session_record.rs:130-136 | removing a record adds only its absence to what a crash may leave |
| AtomicRecordProofs.SaveThroughout | src/api/atomic_record.rs:28-46 | every prefix of a save, successful or failing, from any directory, keeps every record whole and as tracked |
| AtomicRecordProofs.SaveTracksExactly | src/api/atomic_record.rs:16-46 | up to any of its calls a save changes nothing, or has the new contents in place and possible, or in place and certain: exactly as it has renamed and synced the directory |
| AtomicRecordProofs.SaveIsAtomic | src/api/atomic_record.rs:16-46 | from any directory, at every crash point, whatever becomes of the unsynced: the record is wholly what it might have been before or wholly the new contents, every other record what it might have been before, and nothing else is listed |
| AtomicRecordProofs.SaveAtRestIsAtomic | src/api/atomic_record.rs:16-46 | where nothing is unsynced the listing is exactly the old records or those with the new one in place |
| AtomicRecordProofs.SaveOkIsDurable | src/api/atomic_record.rs:16-26 | Ok means new and durable, from any directory: afterwards every record is certain, whatever was unsynced before |
| AtomicRecordProofs.SaveErrShows | src/api/atomic_record.rs:16-46 | a failed save is visible to a listing if and only if it got as far as the rename |
| AtomicRecordProofs.HistoryTracked | src/api/atomic_record.rs:9-46 | over any history of saves of the same or of different records - Ok, failing or cut off, their calls interleaved in any way - of removals and of crashes, every record stays whole and as tracked, and every save in flight finds its temporary file as it made it |
| AtomicRecordProofs.OnlyWhatWasStored | src/api/dev_session_record.rs:144-168 | over any such history whatever is listed, or left by a crash, is for every record what it was at the start, wholly the contents of one save begun under its name, or absent because it was removed |
| AtomicRecordProofs.OkSaveIsCertain | src/api/atomic_record.rs:16-26 | an Ok save among others: its directory sync makes every record certain as it then reads, and its own record the new contents unless another save or a removal of that record came after its rename |
| AtomicRecordProofs.RenameBeforeSyncTears | src/api/atomic_record.rs:43-45 | renaming before the sync would let a crash leave neither the old nor the new contents |
| AtomicRecordProofs.RenameUnsyncedTears | src/api/atomic_record.rs:43-45 | renaming any unsynced file over any record lets a crash leave anything in it |
| AtomicRecordProofs.TempLeftExactly | src/api/atomic_record.rs:28-46 | a save leaves its temporary file behind exactly when it made it, did not get as far as the rename and could not unlink it |
| AtomicRecordProofs.SaveAlone | src/api/atomic_record.rs:16-46 | begun among other saves, which then stand still, a save makes exactly its own calls in order |
| AtomicRecordProofs.RecordNamesExactly | src/api/dev_session_record.rs:150-154 | records are the files with something in front of .json |
| Forwarder.StepKeepsInv | src/tcp_forward.rs:111-169 | every step of the accept loop, of a connection task, of a swap and of the drop keeps permits and connections accounted for |
| ForwarderProofs.Accounting | src/tcp_forward.rs:111-142 | in every interleaving free permits and active connections make sixteen, accepted is waiting plus active plus finished plus abandoned, each connection in exactly one place, at most one waits, and it waits only while sixteen are active |
| ForwarderProofs.LoopFollows | src/tcp_forward.rs:111-142 | in every interleaving the accept loop is where its own last event put it, a failed accept making it wait, and it has ended if and only if the forwarder was dropped |
| ForwarderProofs.LoopGoesOn | src/tcp_forward.rs:123-139 | wherever a run without a drop has got to, at most three events that are waits coming to their end lead the loop back to accepting: a failed accept by its back-off alone, a waiting connection, which then becomes active, as soon as fewer than sixteen are |
| ForwarderProofs.UpstreamIsTargetAtDial | src/tcp_forward.rs:144-149 | a connection's upstream is the last target stored before its own dial, whatever is stored later |
| ForwarderProofs.UpstreamComesFromDial | src/tcp_forward.rs:144-149 | every upstream is the result of a dial |
| ForwarderProofs.DialsOnce | src/tcp_forward.rs:147-149 | no connection dials twice |
| ForwarderProofs.DialsFollowTheLastSwap | src/tcp_forward.rs:50-54 | once the swapping stops, every dial goes to the last target |
| ForwarderProofs.DropOnlyDrains | src/tcp_forward.rs:171-202 | after the drop nothing is accepted or spawned and the active connections drain: but for swaps exactly as many steps remain as work is left, at most two for each, some step is possible as long as one is active, and once the work is done all sixteen permits are back |
| Fetcher.S3Fetcher.ManifestFor | src/fetcher.rs:164-177 | the manifest is served from the cache, or fetched, parsed and only then cached |
| Fetcher.S3Fetcher.EntryFile | src/fetcher.rs:190-194 | the entry file is fetched and written only when missing |
| Fetcher.S3Fetcher.ImageTar | src/fetcher.rs:286-309 | the optional image is fetched only when missing; its absence is no error |
| Fetcher.S3Fetcher.Fetch | src/fetcher.rs:160-217 | the whole fetch has the specified result and effect on the cache |
| FetcherProofs.FetchFaithfulExactly | src/fetcher.rs:160-217 | a call keeps every cached file equal to the remote object, and every cached manifest parseable, if and only if none of the writes it gets to stops short |
| FetcherProofs.FetchReturnsPublished | src/fetcher.rs:134-217 | from a faithful cache a call that succeeds, under whatever faults, returns exactly what the store publishes as this version, defined without cache or steps; a call without faults does so in every case, errors included |
| FetcherProofs.FetchCaches | src/fetcher.rs:160-217 | a successful fetch leaves manifest and entry cached, and the image of a docker app if the store has it |
| FetcherProofs.ImageIsOptional | src/fetcher.rs:251-309 | once manifest and entry are there, a docker app is fetched with or without its image, absent or refused; only a broken transport or a failing write is an error |
| FetcherProofs.UnreadableIsAnError | src/fetcher.rs:166-199 | a cached file that cannot be read is an error, never a reason to fetch it again or to go on without it |
| FetcherProofs.CacheIsTransparent | src/fetcher.rs:134-217 | after any history of fetches, failures and purges without a torn write the cache is faithful and every fetch ends as published, which is also how a fetch with nothing cached ends |
| FetcherProofs.FetchNeverRewrites | src/fetcher.rs:338-349 | a fetch never changes a file that is already cached |
| FetcherProofs.OnlyPurgeRemoves | src/fetcher.rs:102-115 | over any history only a purge of the app removes a cached file |
| FetcherProofs.TornWriteIsServed | src/fetcher.rs:338-349 | for every published version that is loaded into memory from an entry of its own, and wherever the write of that entry is cut short, the next fetch without any fault returns Ok with the torn bytes |
| FetcherProofs.PurgeRepairs | src/fetcher.rs:102-115 | after a completed purge even a torn cache fetches as published, and every other app is left alone |
| FetcherProofs.RefetchIsOffline | src/fetcher.rs:137-138 | once fetched, a version is served again whatever the network does, unless it is a docker app without an image |

## Left out

- HTTP, TLS, sockets, axum routing, request and response bodies of the API, logging: a server is the outcomes its replies have.
- URLs of manifest and blob GETs, `Accept` headers, the retry sleeps, and the creation of directories, which is taken to succeed.
- Cryptography, JSON, TOML and base64: parameters. `read_basic_auth` and `host_arch` only choose a credential and an architecture.
- Transport.DownloadResumable: the size of an existing file is taken to be readable, and the replies are arbitrary; the authenticated GET around them is in AuthedDownload.
- OciPullProofs.LayoutClosure: a crash ends the process and keeps every byte written; a pull syncs nothing, so what a power loss does to unsynced data is not covered here, only in AtomicRecord.
- OciRef: Unicode lowercasing itself is a parameter with four laws, of which ASCII lowercasing is proved to be one.
- OciPull: path separators inside a digest or an entry name, which would lead outside the blob directory, are not modelled; nor are two pulls into one directory at once.
- ChallengeProofs.TokenUrlRoundTrip: service and scope are their UTF-8 bytes; the encoding of characters to bytes is not modelled.
- Lifecycle: git tokens and activity times are in DevSessions, not in the interleaved state; deploy and purge are abstract steps that may fail; the monitor's respawn, the idle timer and the handlers for workspaces are not part of it.
- DevSessions: the SSH jump of a session, its port and the listing endpoint; a record is taken to be stored under its own app uuid.
- CapReuse: `prior_authkeys_cap`, the branches kept beside the rows, and the cap-files inside the guest.
- AtomicRecord: the temporary names of saves in flight are taken to differ, being random; permission bits, the creation of the record directory, and record files changed by anything but a save; a failing call is taken to have had no effect, except for a write, which may have written any part, and a sync, after which the file may hold anything.
- Forwarder: the copying of bytes between the two ends, and a runtime shutdown that kills connection tasks.
- Fetcher: resolving `latest`, path separators in an entry name, and two fetches of one version at once.
- The remaining modules (orchestrator, Firecracker and docker runtimes, link allocation, build overlays, self-update, configuration, mesh, git and forge proxies) are not modelled: thin wrappers, or engines outside this repository.
