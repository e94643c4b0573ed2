# go-beacon: a verified model

go-beacon keeps one outbound tunnel from each agent to a relay, and everything an operator does rides that
tunnel. What is hard about it is not any one function but what stays true across interleavings, faults and
restarts. This project models those parts in Dafny and proves them.

| part | modules | what it is about |
|---|---|---|
| agent identity | `Challenges`, `AgentKeys`, `Identity`, `Vault`, `VaultKv`, `Enrollment`, `IdentityProtocol` | single-use nonces, who owns an id, assertions signed by Vault, the check on every connect, and whole runs of all of it |
| session takeover | `Registry`, `Sessions` | last connection wins, under every interleaving of `serveSession` threads, stale closes and kicks |
| self-update | `Disk`, `Update` | replace, restart, verify, roll back, with any file operation failing and a stop after any of them |
| wire formats and hand-offs | `Text`, `Strconv`, `Base64`, `Streams`, `Forward`, `Duplex`, `Handshake`, `PtyFrames`, `FrameWriter`, `Protocol` | lines, status lines, terminal frames, the byte-exact hand-off from a buffered reader to the raw stream, and two copies that close each other |
| stores | `StateFile`, `Operator`, `Auth`, `OperatorRuns`, `EventBus`, `LogShip` | the operator record in memory, Vault and cache; sessions; the event feed; log shipping |
| reconnecting | `AgentState`, `Supervisor` | the backoff schedule and the status it reports |

Entities the source mutates are classes. Most of their methods are proved equal to a step function on values, and
the theorems are about those step functions and about runs of them; the loops and stream readers state what they
compute directly. Two run models keep history beside the state: `EventBus` shares with its class the functions that
trim, offer and receive, and `FrameWriter` and `Duplex` take one wire write as a step. Clocks, random draws, network answers and
faults are parameters, so every theorem ranges over all of them. A Go string is a sequence of bytes, an instant a
whole number of nanoseconds. Signatures are symbolic: `made` is the set of (key, message, signature) triples that
have been produced, and a signature verifies when it is in the set.

## Where the code does not keep the obvious promise

Each of these is proved, with the exact condition under which the promise does hold.

- **A misread ownership store.** `kvGet` takes any error whose text contains `404` for a missing document, so a
  dial error naming port 8404 makes the next claim overwrite every other owner. A claim is lawful exactly unless
  such a misread endangers a record (`AgentKeys.ClaimIsLawfulExactlyUnlessMisread`,
  `AgentKeys.AMisreadErasesAnotherOwner`).
- **An interrupted update.** A stop between the two renames leaves the working build only at `.old`, and the next
  update begins by deleting `.old`. Replacement conserves the build exactly when it starts at the target
  (`Update.ReplaceConservesExactlyFromTheTarget`, `Update.StopThenUpdateLosesTheBuild`).
- **A retired session key.** After a password change whose cache write failed, a restart that cannot reach Vault
  restores the old record and with it every old session (`OperatorRuns.AnEarlierSessionValidatesAgain`). Over whole
  runs an earlier session comes to validate again if and only if some restart meets no answer from Vault while the
  cache, or its absence, leads back to an earlier key (`OperatorRuns.EarlierSessionsReviveExactlyByFallback`).
- **Very late expiries.** The addition inside `time.Unix` wraps, so a session whose expiry lies past
  MaxInt64 - 62135596800 is never valid (`Auth.ExpiryIsInWholeSeconds`). The relay itself never mints such an
  expiry and nobody else can tag one; the bound only completes the statement for every 64-bit value.
- **Rebinding revokes nothing.** `verifyAgent` does not consult the ownership record. A displaced key is accepted
  under the id while the record names another owner (`IdentityProtocol.RebindDoesNotRevoke`), for as long as it
  holds an unexpired assertion (`IdentityProtocol.HolderConnects`). Nor does a rebind recall an enrolment whose
  claim came before it: that one is signed after it, however long after, and the displaced key has a fresh assertion
  (`IdentityProtocol.FlightOutlivesTheRebind`). The exact bound, short of a misread or a rebind back to the same key
  bytes: a displaced key gets at most as many assertions as were being signed for it when it was displaced, and no
  other assertion lets it pass a check more than 90 days after that moment
  (`IdentityProtocol.DisplacedKeyIsBounded`).
- **The embedded shell.** Service `dev` is handed the raw stream instead of the buffered reader. It sees the whole
  session exactly when the newline of the target line ends the chunk it arrived in
  (`Forward.ShellSeesEverythingExactlyWhenTheTargetEndsAChunk`). A client that waits for the status line, as
  `bridge` does, loses nothing (`Forward.WaitingClientLosesNothing`); one that does not may
  (`Forward.EagerClientLosesAByte`).
- **Half-closes on the agent.** Both copies of `pipeStream` share a guard that closes both connections when either
  ends. The direction that ends first is complete, the other stops where it was
  (`Duplex.FirstToEndIsComplete`, `Duplex.HalfCloseCutsTheOtherSide`). So a side may end its sending half exactly
  when it has by then received everything the other will ever send: then, and only then, does every way on without a
  fault leave both directions complete (`Duplex.EndingIsSafeExactlyWhenAllHasArrived`). `bridge` guards one
  direction only and never loses the reply this way (`Duplex.BridgeDeliversTheReply`).
- **Ambiguous key exports.** Two version texts with one numeric value (`"1"` and `"01"`) make Go's map order decide
  which key wins (`Vault.TwoTextsOfOneVersionAreAmbiguous`). Cache and live keys agree exactly when the export is
  unambiguous (`Vault.SelectionIsUniqueExactlyWhenUnambiguous`).
- **Forward targets.** The writer accepts names with outer white space, the reader trims them. A target arrives as
  itself exactly when it is non-empty and already trimmed (`Forward.TargetArrivesExactlyWhenTrimmed`); `" ssh"` does
  not (`Forward.PaddedTargetsChange`).
- **Backoff after a healthy session.** The window is reset before the delay is drawn and doubled after it, so the
  first short attempt after a healthy one already waits up to two seconds: the window is
  min(2^n, 30) seconds with n counted from the healthy attempt, and min(2^(n-1), 30) from the start
  (`Supervisor.BaseDoublesToTheCeiling`, `Supervisor.ShortAttemptsFromTheStart`).

## Assumptions

- JSON: `unmarshal` undoes `marshal` (`Identity.Faithful`). HMAC (section 2 of RFC 2104): a tag comes from one key
  and one message (`Auth.Unforgeable`). argon2id: a hash verifies its own password only (`Operator.Sound`).
- Vault's transit key signs nothing but what the relay asks for, rotates to keys that have signed nothing, and
  exports what it holds (`IdentityProtocol.Enabled`).
- The operator session key drawn at a save is fresh (`OperatorRuns.Enabled`).
- One update runs at a time and nothing else touches the four files.
- Wall clock and monotonic clock are one clock that does not go back.

## Model

| member | source | states |
|---|---|---|
| IdentityProtocol.EveryAcceptanceIsTraced | server/enroll.go:131-254 | in every interleaved run of challenges, enrolments with any number in flight, signatures that come or fail, rotations, restarts, account changes, replays and clock steps, with each connect a check and a later redemption, every accepted connection traces to an assertion the relay had signed for exactly that id and key, unexpired when it was checked, an earlier claim binding them, a nonce issued at most two minutes before, and a signature by that key over that nonce |
| IdentityProtocol.HandshakeIsNotReplayable | server/enroll.go:77-86 | in every run a nonce admits no more connections than times it was issued, so a captured handshake is accepted at most once |
| IdentityProtocol.RebindDoesNotRevoke | server/enroll.go:220-254 | a run in which an agent enrols, its id is rebound to another key, and the displaced key is then accepted under the id while the store names the other key as owner |
| IdentityProtocol.DisplacedKeyIsBounded | server/enroll.go:160-254 | over every run without a misread or a rebind back to the same key bytes, a displaced key gets at most as many new assertions as were being signed for it when it was displaced, and every other assertion of its passes its last check at most 90 days after that moment |
| IdentityProtocol.FlightOutlivesTheRebind | server/enroll.go:160-188 | a run in which an enrolment claimed before a rebind is drawn up and signed any time after it, giving the displaced key an assertion of that later date |
| IdentityProtocol.HolderConnects | server/enroll.go:220-254 | whoever holds an unexpired assertion and its key is accepted under its id from any world with room for a challenge, whatever the ownership record says |
| IdentityProtocol.BindMeansOwnership | server/enroll.go:138-180 | a claim recorded as granted was authorised by the account or the token of that moment and leaves exactly the requested key as the stored owner of the trimmed id, whatever faults it met |
| IdentityProtocol.HonestAgentConnects | server/agent.go:35-60 | from any world an entitled enrolment, its signature, a challenge, the answer to it, the check and the redemption form an enabled run that ends with the agent accepted under the enrolled id |
| Enrollment.AuthorisedExactlyByPasswordOrToken | server/enroll.go:139-142 | an enrolment is authorised if and only if it carries the account's name and password, or the admin token under an empty name |
| Enrollment.Server.EnrollClaim | server/enroll.go:131-180 | the reply and the new ownership store are those of the claim step: credentials, trimmed id of 1 to 128 bytes, a 32-byte key, then the claim |
| Enrollment.ClaimRepliesExactly | server/enroll.go:141-180 | over a readable store each reply has exactly its condition: unauthorised, unusable id, unusable key, conflict with the bound time, claimed, store failure |
| Enrollment.Server.HandleEnroll | server/enroll.go:131-207 | Vault is asked to sign exactly when the claim was granted, and exactly the 90-day grant of the claimed id and key; no assertion is signed after a claim that returned an error |
| Enrollment.EnrolledMeansOwnedAndReadable | server/enroll.go:160-206 | an enrolment succeeds exactly when claim and signing do; the text handed out then parses back to the grant of the requested id and key, and the store names that key as owner |
| Enrollment.Server.VerifyAgent | server/enroll.go:220-254 | the verdict and the remaining challenges are those of the specification, every refusal in the source's order |
| Enrollment.Server.HandleAgentConnect | server/agent.go:35-60 | the challenges left and the answer are those of the connect step: a bad hello costs no challenge, and the id served is the verified one |
| Enrollment.HelloHasNoInfluenceOnIdentity | server/agent.go:36-56 | any two well-formed announcements in front of one proof leave the same challenges and get the same refusal, or service under the same id |
| Enrollment.AnnouncedIdTakesOverNobody | server/agent.go:53-56 | announcing another agent's id changes no record in the registry but that of the id in a genuine assertion, whose session the connection becomes |
| Enrollment.AcceptedExactlyWhenProven | server/enroll.go:220-254 | a well-formed proof is accepted if and only if its assertion carries a genuine Vault signature and has not expired, its nonce is live, and the agent's key signed it |
| Enrollment.VerdictsExactly | server/enroll.go:220-254 | for every proof the refusal is that of the first check that fails, in the source's order |
| Enrollment.ServedExactly | server/agent.go:35-60 | served if and only if the announcement is usable, the proof accepted and an upgrade asked for; the announcement stands, trimmed, but for the id; each other answer has exactly its condition |
| Enrollment.VerifyingOnlySpends | server/enroll.go:237-240 | a connection attempt adds no challenge, and an accepted one has used its own up |
| Enrollment.NonceIsSpentOnlyByAGenuineAssertion | server/enroll.go:225-240 | the challenge pool changes only behind a genuine, unexpired assertion, and then loses exactly the expired nonces and the one presented |
| Challenges.Challenges.ExpireLocked | server/enroll.go:88-95 | the sweep keeps exactly the nonces issued within the last two minutes |
| Challenges.Challenges.Issue | server/enroll.go:48-73 | failed randomness changes nothing; a full pool refuses the newcomer and evicts nobody |
| Challenges.Challenges.Redeem | server/enroll.go:77-86 | true exactly for a live nonce, which is then gone |
| Challenges.PoolIsBounded | server/enroll.go:68-70 | after every run the pool holds at most 4096 nonces |
| Challenges.NothingExpiredIsKept | server/enroll.go:88-95 | whatever a request comes to, it leaves no expired nonce behind |
| Challenges.NoNonceIsRedeemedTwicePerIssue | server/enroll.go:77-86 | over every run a nonce is redeemed at most as often as it was issued |
| Challenges.SweepingIsInvisible | server/enroll.go:88-95 | the swept pool answers every request as a ledger that never forgets and only compares ages: the sweep is a refinement |
| Challenges.HeldUntilRedeemed | server/enroll.go:60-70 | whatever flood of issues follows, a nonce stays redeemable for its two minutes unless it is redeemed |
| Challenges.RedeemedMeansRecentlyIssued | server/enroll.go:77-95 | a redemption that succeeds was preceded by an issue at most two minutes old with no redemption in between |
| AgentKeys.AgentKeys.Claim | server/agentkeys.go:69-100 | the read-modify-write of the stored map equals the claim step, for every read and write fault |
| AgentKeys.AgentKeys.LoadLocked | server/agentkeys.go:102-112 | a missing document is an empty map, an unreadable one an error |
| AgentKeys.GrantedExactlyWhenEntitled | server/agentkeys.go:69-100 | when the store can be read, a claim is granted if and only if the key already owns the id, or the id is free or rebind is asked and the write is acknowledged; it is a conflict if and only if another key owns the id and no rebind is asked |
| AgentKeys.OnlyChangesAreWritten | server/agentkeys.go:83-87 | a renewal, a refusal and a failed read write nothing at all; every other claim writes once |
| AgentKeys.ChangeIsRecorded | server/agentkeys.go:81-99 | a granted change records exactly the key, the moment, the operator and one more rebind; a failed write reports its own text |
| AgentKeys.FailedReadFailsTheClaim | server/agentkeys.go:72-75 | any other failed read fails the claim with its text and changes nothing |
| AgentKeys.RecordNamesItsClaim | server/agentkeys.go:69-100 | over every run without a misread each record names a claim made for its id, with that key, moment and operator, and has stood unchanged since |
| AgentKeys.ClaimIsLawfulExactlyUnlessMisread | server/vault.go:343-365 | a claim changes no record but its own, and that one only on first claim or rebind, if and only if it is not a misread that endangers a record |
| AgentKeys.AMisreadErasesAnotherOwner | server/vault.go:352-358 | a concrete dial error text whose "404" erases another id's owner |
| AgentKeys.RebindsCountOwnerChanges | server/agentkeys.go:88-97 | over every run of claims with any faults but misreads, the rebind counter equals the owner changes after the first |
| AgentKeys.OwnerIsDisplacedOnlyByRebind | server/agentkeys.go:88-91 | over every run an owner once recorded keeps its whole record until a claim for that id asks for a rebind |
| VaultKv.KvStore.Get | server/vault.go:343-365 | not found is recognised by "404" anywhere in the error text |
| VaultKv.FailedReadsExactly | server/vault.go:351-358 | a failed read counts as "not found" if and only if its text has 404 somewhere in it, and otherwise keeps its text |
| VaultKv.ReadFindsTheLastLandedWrite | server/vault.go:367-373 | over every run of writes, a read finds the last one that was not refused, whatever its caller was told, and otherwise what was there before |
| Protocol.HelloArrivesExactlyWhenFit | internal/protocol/protocol.go:43-67 | what is read from headers is trimmed with an id of 1 to 128 bytes, and an announcement arrives as itself if and only if it is already so |
| Text.SpaceRunesAreWhiteSpace | internal/protocol/protocol.go:52-67 | what counts as white space is the UTF-8 form of Unicode's White_Space, and all of it |
| Text.TrimTakesExactlyTheOuterSpace | internal/protocol/protocol.go:52-67 | trimming takes white space off both ends and nothing else, and leaves none there |
| Identity.ParsePrinted | internal/protocol/identity.go:58-79 | parsing printed text returns the exact document bytes and signature when the document decodes with an id and a key, and the right error otherwise |
| Identity.PrintIsInjective | internal/protocol/identity.go:58-60 | two different signed assertions never share a text |
| Identity.ParsesExactly | internal/protocol/identity.go:62-79 | a text parses to a document, signature and assertion if and only if it is the base64url of the document, a dot and the signature, and the document decodes to that assertion with an id and a key |
| Identity.KeyRoundTrip | internal/protocol/identity.go:82-91 | a key text is usable exactly when it encodes 32 bytes |
| Identity.ExpiresExactly | internal/protocol/identity.go:93-95 | expired exactly after the last instant, and never without an expiry |
| Base64.RoundTrip | internal/protocol/identity.go:58-79 | both base64 forms (sections 4 and 5 of RFC 4648) decode what they encode and never contain a dot, a colon or a line break |
| Base64.SymbolsAreLetters | internal/protocol/identity.go:58-79 | every sextet is written as its letter of the alphabets of sections 4 and 5 of RFC 4648, and a byte is read as a sextet exactly when it is its letter |
| Base64.DecodesExactlySpelledText | server/vault.go:187-190 | a text decodes to given bytes if and only if, line breaks aside, it is the letters of some sextets with their padding and the bytes are the number those sextets spell, without the excess bits |
| Base64.EncodingSpellsTheBytes | internal/protocol/identity.go:58-60 | the encoding is the letters and padding of exactly the number of the bytes, the excess bits zero |
| Base64.LineBreakIsSkipped | server/enroll.go:241-243 | a line break anywhere in a text makes no difference to what it decodes to |
| Base64.PaddingFillsTheGroup | server/vault.go:187-190 | padded text fills its last group of four with at most two pads, unpadded text has none |
| Strconv.ParseFormatInt | server/auth.go:153-177 | decimal print then parse is the identity on every 64-bit integer and fails outside |
| Strconv.ParsesIntExactly | server/vault.go:183-186 | a text reads as a number if and only if it is an optional sign and digits of that value and the value fits 64 bits |
| Strconv.DigitsArePositional | server/vault.go:183-186 | digits count for their place, and nothing but digits is read |
| Strconv.FormatHasNoLeadingZero | server/auth.go:153-156 | numbers are printed without leading zeros |
| Strconv.FormatIntSign | server/auth.go:153-156 | a minus stands before negative numbers only, and a plus never |
| Vault.ParsePrintedSignature | server/vault.go:178-192 | the parser inverts `vault:vN:` plus base64 for every N from 1 and every 64-byte signature, and refuses every other N and length |
| Vault.ParsesSignatureExactly | server/vault.go:178-192 | a text parses to a version and signature if and only if it is `vault:v`, a number from 1, a colon and the base64 of 64 bytes |
| Vault.Vault.Verify | server/vault.go:162-174 | true exactly when the text parses, its version is known and that key made the signature |
| Vault.Vault.RefreshKeys | server/vault.go:197-226 | a failed call or an export without a usable key changes nothing; otherwise the keys are a selection of the export and the cache is written with that export |
| Vault.Vault.SaveCachedKeys | server/vault.go:230-244 | success, and the file, for every way a write can fail |
| Vault.Vault.LoadCachedKeys | server/vault.go:248-280 | succeeds exactly when the cache is readable and has a usable key, and then holds a selection of it |
| Vault.CollectKeys | server/vault.go:208-221 | whatever order the map is read in, the result is a selection of the usable entries |
| Vault.SelectionIsUniqueExactlyWhenUnambiguous | server/vault.go:208-221 | the reading order cannot matter if and only if no two usable entries give one version number different keys |
| Vault.CachedKeysJudgeAlike | server/vault.go:248-280 | a process that loads the cache gives the same verdict on every message and signature as the one that refreshed |
| Vault.RotationKeepsVerdicts | server/vault.go:197-226 | a refresh whose export keeps the old versions never turns an accepted signature into a rejected one |
| Vault.CanonicalVersionsAreUnambiguous | server/vault.go:208-221 | canonical version numbers are enough for an unambiguous export |
| Vault.TwoTextsOfOneVersionAreAmbiguous | server/vault.go:208-221 | with different keys under "1" and "01" two reads of one export disagree on a signature |
| Registry.Registry.Connect | server/registry.go:90-119 | the records, the reconnect answer and the session to close are those of the connect step, every other record untouched |
| Registry.Registry.Disconnect | server/registry.go:124-136 | succeeds exactly for the session the record holds while it is online, and then only marks it offline |
| Registry.Registry.Session | server/registry.go:139-148 | the current session of an online agent |
| Registry.Registry.Counts | server/registry.go:190-201 | the loop counts exactly the records and the online ones |
| Sessions.RegistryRefinesLatestConnect | server/registry.go:90-148 | in every interleaving of threads, stale closes, kicks and deaths the registry answers with the session of the latest connect unless that session's own disconnect has run, and reconnects is connects minus one |
| Sessions.RecordsNameTheLatestConnect | server/registry.go:96-134 | in every interleaving each record carries the hello, arrival and session of the latest connect of its id, online since that connect or offline since the end of that very session |
| Sessions.ReconnectExactlyAfterAConnect | server/registry.go:94-103 | a connect is reported as a reconnect, with a session to close, if and only if its id connected before, and that session is the latest one's |
| Sessions.OnlineIsWhoseSessionLives | server/registry.go:190-201 | the ids counted as online are exactly those whose latest session has not ended, the ids counted at all exactly those that ever connected |
| Sessions.DisconnectSucceedsExactlyForTheLatest | server/agent.go:123-149 | a disconnect succeeds if and only if its session is the latest to have connected under its id, and no session disconnects twice |
| Sessions.AtMostOneOpenOnceClosesDrain | server/registry.go:94-103 | once the scheduled closes have run, at most one session per id is open and it is the one the registry names |
| Sessions.OfflineMeansClosed | server/agent.go:140-149 | an agent shown offline has no open session left but superseded ones already scheduled to close |
| Update.ReplaceBinary | client/update.go:193-223 | the states passed through and the result are those of the trace specification, for every choice of faults |
| Update.Rollback | client/updateapply.go:119-133 | likewise for the rollback |
| Update.WaitForAgent | client/updateapply.go:108-117 | true if and only if some poll begun before the deadline is answered, after at most sixty polls |
| Update.RestartAndVerify | client/updateapply.go:80-103 | the outcome and the states passed through, for every start, stop, answer and rename outcome |
| Update.RestartOutcomesExactly | client/updateapply.go:80-103 | an update is kept, untouched, if and only if the service starts and a poll begun in time is answered; each other outcome has exactly its condition on start, answer, rollback and second start |
| Update.PollsInTime | client/updateapply.go:108-117 | polls begin three seconds plus their own time apart: an agent that answers the first is always in time, of instantaneous polls exactly the first sixty count |
| Update.ReplaceSucceedsExactly | client/update.go:193-223 | a replacement succeeds if and only if writing, making executable, moving aside what is there and renaming do, and then the new build stands at the target |
| Update.RollbackSucceedsExactly | client/updateapply.go:119-133 | a rollback succeeds if and only if both builds are there and both renames work; a stale .failed goes first |
| Update.ReplaceConserves | client/update.go:193-223 | at every intermediate point the starting build survives whole at the target or at .old and the target is never a partial file; success puts the new build at the target and the old at .old |
| Update.ReplaceConservesExactlyFromTheTarget | client/update.go:205-205 | a surviving build survives every further replacement if and only if it is at the target |
| Update.StopThenUpdateLosesTheBuild | client/update.go:205-216 | a stop between the renames leaves the build where the next update deletes it |
| Update.MisreportingStatLosesTheBuild | client/update.go:207-207 | conservation needs os.Stat to report existence truthfully |
| Update.RollbackConserves | client/updateapply.go:119-133 | every point of a rollback keeps the old build whole; success puts it at the target with the new one at .failed, failure leaves it at .old |
| Update.RestartEndsInOneOfThreeStates | client/updateapply.go:80-103 | nil means the new build at the target and an agent that answered; restored or rolled back means old at target and new at .failed; any other error leaves the old build at .old |
| Update.UpdateConserves | client/updateapply.go:80-133 | replacement, restart and rollback together never lose the working build at any point |
| Streams.BufReader.ReadLine | internal/protocol/protocol.go:130-140 | for every chunking and read-ahead a line is exactly the bytes through the first newline, nothing behind it is consumed, and only whole chunks up to the one that brings the newline are pulled in |
| Streams.BufReader.ReadFull | internal/protocol/pty.go:39-56 | n bytes or all that were left, for every chunking |
| Streams.WithBuffered | internal/protocol/protocol.go:74-80 | the connection handed on yields exactly what the reader had not returned |
| Streams.PrefixConn.Read | internal/protocol/protocol.go:87-95 | every read returns the next bytes of buffer then wire, none twice and none skipped |
| Streams.Copy | client/forward.go:112-113 | the destination gets all of the source if and only if it has room for it, which the result says, and otherwise exactly what it has room for |
| Streams.CountingConn.Read | internal/protocol/protocol.go:99-103 | counts exactly the bytes delivered, in 64 bits |
| Streams.CountingConn.Write | internal/protocol/protocol.go:105-109 | counts exactly the bytes sent, also on a short write |
| Forward.ReadName | internal/protocol/forward.go:87-97 | the trimmed line, or an error for an empty or unterminated one; what follows stays unread |
| Forward.TargetArrivesExactlyWhenTrimmed | internal/protocol/forward.go:40-46 | an accepted target arrives as itself if and only if it is non-empty and trimmed, and swallows nothing of what follows |
| Forward.TargetIsRefusedExactly | internal/protocol/forward.go:40-46 | the writer refuses exactly names with a line feed or carriage return in them |
| Forward.PaddedTargetsChange | internal/protocol/forward.go:87-97 | " ssh" is accepted by the writer and read as "ssh", a lone space is accepted and read as an error |
| Forward.ForwardHeaderArrives | internal/protocol/protocol.go:124-140 | the stream header line arrives as itself |
| Forward.WriteForwardStatus | internal/protocol/forward.go:58-69 | the status line of the cause goes out if and only if it fits, otherwise as much as does |
| Forward.ReadForwardStatus | internal/protocol/forward.go:74-84 | takes exactly one line and interprets it, or reports that none came |
| Forward.StatusIsOneLine | internal/protocol/forward.go:58-69 | for every error text the writer emits exactly one line and the reader takes exactly that line |
| Forward.StatusRoundTrip | internal/protocol/forward.go:58-84 | success is read only for a nil cause; a failure carries the flattened, truncated, trimmed text, UTF-8 white space included |
| Forward.FailureTextIs | internal/protocol/forward.go:63-67 | the text of a failure is the cause's, every line feed a space, cut at 512 bytes |
| Forward.OnlyOkIsSuccess | internal/protocol/forward.go:79-83 | only "ok", white space aside, is success; anything else is a failure with the text after a leading "error" |
| Forward.SetServices | client/forward.go:38-48 | operator entries win over defaults and an empty address withdraws a service, whatever the map order |
| Forward.HandleForward | client/forward.go:53-93 | the outcome is the plan of the arriving bytes; the operator gets status then service bytes, the local service the payload, each exactly as far as there is room; each direction reports whether it went through |
| Forward.PipeStream | client/forward.go:99-115 | each direction delivers exactly what the other side has room for, the inward one from the buffered reader, and reports whether that was all |
| Forward.HandleStream | client/session.go:202-226 | header, target and payload are split exactly through one buffered reader, each direction delivers exactly what there is room for, and the shell is left what the chunking model says |
| Forward.RelayForward | server/forward.go:24-65 | the agent gets the two opening lines and then the operator's bytes, the operator the agent's, each exactly as far as there is room; a refused name sends the header alone |
| Forward.Bridge | client/forwardcmd.go:115-172 | nothing moves in either direction unless the status is success; then each side gets exactly what it has room for of what the other sent |
| Forward.OperatorBytesReachTheService | client/forward.go:53-93 | what the operator sends behind the opening reaches the named service byte for byte, and a withheld or dead service is refused with its reason |
| Forward.OtherStreamsAreNotForwarded | client/session.go:202-226 | a stream of another kind, or whose lines are blank or do not come, is not taken for a forward |
| Forward.RelayedBytesReachTheService | server/forward.go:34-64 | relay to agent to service, wherever the relay's copy stops: the service gets a prefix of the operator's bytes, all that was relayed |
| Forward.ServiceBytesReachTheOperator | client/forwardcmd.go:135-146 | agent to relay to operator, wherever the relay's copy stops: no answer while the status line is incomplete, from then on the right status and a prefix of the service's bytes |
| Forward.ForwardedConnection | server/forward.go:24-65 | both directions composed, each cut anywhere: the service gets a prefix of the operator's bytes, the operator a prefix of the service's, all of them where nothing was cut, and a refusal arrives with its own reason |
| Forward.ShellSeesEverythingExactlyWhenTheTargetEndsAChunk | client/forward.go:62-69 | for every chunking of a stream to the embedded shell, the shell sees the whole payload if and only if a chunk ends exactly behind the target line, and otherwise misses a first part of it |
| Forward.WaitingClientLosesNothing | client/forwardcmd.go:139-146 | a client that sends nothing before the status line loses nothing to the shell |
| Forward.EagerClientLosesAByte | client/forward.go:62-69 | a chunking of "dev" and one byte behind it in which the shell never sees that byte |
| Duplex.FirstToEndIsComplete | client/forward.go:99-115 | in every interleaving without a fault, the direction whose end closed both connections has delivered everything; the other stands where it was, and what it loses is exactly what it had not delivered |
| Duplex.EndingIsSafeExactlyWhenAllHasArrived | client/forward.go:112-113 | at any reachable moment at which a side may end its half, every unfaulted way on that closes the connections leaves both directions complete if and only if that side has by then received everything the other will ever send |
| Duplex.CopiesDeliverPrefixes | client/forward.go:99-115 | in every interleaving with any faults each direction delivers a prefix, and all of it when it ended with its source |
| Duplex.ClosedIsFinal | client/forward.go:100-106 | after the guard has run nothing more is delivered either way |
| Duplex.HalfCloseCutsTheOtherSide | client/forward.go:112-113 | a side that sends its bytes and ends its half gets, in every continuation, nothing the other had not delivered |
| Duplex.BridgeDeliversTheReply | client/forwardcmd.go:153-171 | under bridge's guard the end of the client's bytes never costs a byte of the reply |
| Handshake.Upgrade | client/session.go:153-198 | a tunnel exists exactly behind a complete well-formed head whose status line says 101, and yields exactly what follows the blank line |
| Handshake.TunnelStartsAfterTheHead | client/session.go:177-197 | for every status line and headers, a tunnel is taken up if and only if the code is 101, and all bytes pipelined behind the handshake (section 7.8 of RFC 9110) belong to it |
| Handshake.UnfinishedHeadIsNone | client/session.go:177-186 | a head without its blank line yields no tunnel, however much of it has come |
| Handshake.MalformedStatusHasNoCode | client/session.go:177-190 | a status line without a space, or with a code of other than three characters, has no code |
| Handshake.BareLineFeedsWillDo | client/session.go:177-197 | lines that end in a line feed alone are as good |
| PtyFrames.WritePTYFrame | internal/protocol/pty.go:24-36 | an oversized frame is refused before anything is written; any other goes out whole if and only if it fits, and otherwise as much of it as does |
| PtyFrames.ReadPTYFrame | internal/protocol/pty.go:39-56 | for every chunking the frame, the remaining stream and the error are those of the decoder |
| PtyFrames.FrameLayout | internal/protocol/pty.go:24-36 | a frame on the wire is its type, its length in four bytes, most significant first, and its payload |
| PtyFrames.OversizedIsRefused | internal/protocol/pty.go:44-47 | a length is refused as too large if and only if it is over 2^20, whatever follows |
| PtyFrames.EveryPrefixDecodesToItsWholeFrames | internal/protocol/pty.go:24-56 | every prefix of an encoded list decodes to exactly the frames whole in it, then an error, end-of-stream only at a frame start or right after a header |
| PtyFrames.WholeFramesAreCounted | internal/protocol/pty.go:24-56 | the frames counted as whole are exactly as many as fit, all of them in the full encoding |
| PtyFrames.RoundTrip | internal/protocol/pty.go:24-56 | the whole encoding decodes to the whole list |
| PtyFrames.SizeRoundTrip | internal/protocol/pty.go:59-72 | every 16-bit size survives, and every four-byte payload is the encoding of the size read from it |
| PtyFrames.SizeLayout | internal/protocol/pty.go:59-64 | columns, then rows, each most significant byte first |
| PtyFrames.HandlePTY | client/pty.go:47-69 | the terminal is fed exactly the data payloads of the frames that arrive whole, in order, as far as it takes input, and given exactly the sizes before it stops; the loop ends cleanly if and only if the terminal takes them all |
| PtyFrames.TerminalGetsTheWholeFrames | client/pty.go:47-69 | end to end, for every cut of the operator's encoded frames in transit |
| FrameWriter.FrameWriter.Data | client/sshcmd.go:126-130 | one whole data frame if and only if it fits, otherwise as much of it as does, and nothing of an oversized one |
| FrameWriter.FrameWriter.Resize | client/sshcmd.go:132-140 | nothing without a terminal, else one resize frame, whole if and only if it fits |
| FrameWriter.ResizeCarriesTheSize | client/sshcmd.go:132-140 | the size of the operator's terminal is the one the agent's terminal is given |
| FrameWriter.GesturesArrive | client/sshcmd.go:121-140 | for every list of what an operator types and resizes, the terminal at the other end is fed those bytes and given those sizes, cut to sixteen bits |
| FrameWriter.OtherFramesDoNothing | client/pty.go:57-68 | frames of any other type, and sizes of another length, do nothing |
| FrameWriter.WireDecodesToAMerge | client/sshcmd.go:121-140 | at every moment of every interleaving of any number of writers, one wire write at a time, the wire decodes to a merge: every frame belongs to one of the writers, and each writer's frames are intact and in order, complete unless the connection broke |
| FrameWriter.BrokenExactlyByAShortWrite | client/sshcmd.go:121-140 | in every interleaving the connection is broken if and only if some write got out less than it was given |
| Operator.OperatorStore.Load | server/operator.go:68-87 | Vault first, cache second, memory unchanged otherwise, the cache rewritten from Vault |
| Operator.OperatorStore.Save | server/operator.go:127-163 | the whole new state of memory, Vault and cache for every fault |
| Operator.OperatorStore.Verify | server/operator.go:105-122 | trimmed name equal and password accepted by the stored hash |
| Operator.SaveAgreesWithVaultOrChangesNothing | server/operator.go:127-163 | a successful save leaves memory equal to Vault, a failed one leaves memory and cache as they were |
| Operator.SavedCredentialsAreTheOnlyOnes | server/operator.go:105-122 | after a save exactly the saved name and password are accepted |
| Operator.SavedRecordSurvivesARestart | server/operator.go:68-87 | a saved record comes back after a restart that can read Vault, or the cache the save wrote |
| Operator.LoadFindsExactly | server/operator.go:68-87 | Vault's record when it answers with one, else the cache's when usable, else what memory held; only Vault's record is written to the cache |
| Operator.LoadedRecordSurvivesALossOfVault | server/operator.go:68-87 | a start that reaches Vault prepares the next one that does not |
| Operator.SaveSucceedsExactly | server/operator.go:127-163 | each result has exactly its condition, and the record made is exactly the trimmed name, the salted hash, the moment, and the old session key if it is kept or else the new one |
| StateFile.SavedExactly | server/operator.go:219-233 | a save that reports success has put exactly the value in the file, one that fails has left or garbled it |
| OperatorRuns.CacheHoldsOnlyVaultRecords | server/operator.go:206-251 | over every run with any faults the readable cache and memory only ever hold a record that was once in Vault |
| OperatorRuns.AtMostOneBootstrapPerLife | server/auth.go:228-264 | within one process life at most one bootstrap succeeds and none once an account exists |
| OperatorRuns.OnlyTheEntitledWrite | server/auth.go:228-302 | in every state no step but one with the admin token, or for a change the current password, touches Vault's record or succeeds |
| OperatorRuns.AccountBeginsWithTheToken | server/auth.go:241-245 | over every run, where there is a record in Vault, memory or the cache, someone bootstrapped with the admin token |
| OperatorRuns.NoEarlierSessionEverValidates | server/auth.go:269-302 | after a successful bootstrap or password change no text that validated under any earlier key ever validates again, through any later changes, failures and restarts, with or without Vault, unless a restart falls back to an earlier key |
| OperatorRuns.EarlierSessionsReviveExactlyByFallback | server/operator.go:68-87 | over every run after a success, the relay comes to honour an earlier session if and only if some restart meets no answer from Vault while the cache, or its absence, leads back to an earlier key |
| OperatorRuns.CachedChangeSurvivesARestart | server/operator.go:155-163 | when the cache write of a success worked, not even a restart without Vault falls back |
| OperatorRuns.RestartRevivesExactlyByFallback | server/operator.go:68-87 | a restart brings a retired key back if and only if Vault does not answer and the cache, or its absence, leads back to it |
| OperatorRuns.StaleCacheRevivesTheOldKey | server/operator.go:155-163 | any password change whose cache write fails is undone, for sessions, by a restart without Vault |
| OperatorRuns.AnEarlierSessionValidatesAgain | server/operator.go:68-87 | a concrete run in which a session minted before a password change validates after it |
| Auth.Auth.Mint | server/auth.go:153-162 | expiry, dot, tag under the current key |
| Auth.Auth.IsValid | server/auth.go:164-177 | the verdict of the session specification under the current key |
| Auth.Auth.HandleBootstrap | server/auth.go:228-264 | reply and whole new state, every refusal in the source's order |
| Auth.BootstrapSucceedsExactly | server/auth.go:228-264 | a bootstrap succeeds if and only if there is no account, the trimmed credential is the non-empty admin token, the passwords agree, name and password are within their lengths, the draws come and Vault acknowledges; without the token, or with an account, nothing changes; each refusal has exactly its condition |
| Auth.Auth.HandleChangePassword | server/auth.go:269-302 | reply and whole new state; the old password or the admin token authorises |
| Auth.ChangeSucceedsExactly | server/auth.go:269-302 | a change succeeds if and only if there is an account, the current password or the admin token is given, and the form can be saved; without either nothing changes |
| Auth.SessionIsValidExactlyWhile | server/auth.go:153-177 | for every 64-bit expiry a minted session is valid if and only if the key is unchanged and the expiry is ahead |
| Auth.ExpiryIsInWholeSeconds | server/auth.go:164-177 | ahead means now before the expiry second, if and only if the expiry does not wrap inside time.Unix |
| Auth.ValidExactlyWhenTaggedWithTheCurrentKey | server/auth.go:164-177 | a text validates, minted or not, if and only if it is a decimal expiry that is ahead, a dot and the current key's tag of that very text |
| Auth.SessionsCountUnder | server/auth.go:75-82 | sessions count under the admin token until there is an account with a key of its own, and from then on only under that key |
| EventBus.EventBus.Publish | server/events.go:33-50 | the backlog gains the stamped event and keeps its last hundred; every subscriber with room gets it |
| EventBus.EventBus.Subscribe | server/events.go:54-67 | the history handed over is the backlog, and the new channel misses nothing after it |
| EventBus.BacklogIsTheTailOfTheLog | server/events.go:33-50 | in every interleaving the backlog is the last min(100, n) of n published events |
| EventBus.LogIsWhatWasPublished | server/events.go:33-38 | the log behind the backlog and the subscribers is exactly what was published, in order |
| EventBus.StampAddsATimeOnly | server/events.go:34-36 | an event keeps what it carries, its own time included if it came with one |
| EventBus.UnsubscribedGetsNoMore | server/events.go:61-66 | after unsubscribing nothing more is ever sent |
| EventBus.SubscribersSeeTheLogInOrder | server/events.go:33-67 | in every interleaving a subscriber receives the log at strictly increasing positions after its history, and the exact contiguous run from its backlog onward while nothing was dropped |
| EventBus.NothingMissedExactlyWhileThereIsRoom | server/events.go:43-48 | in every interleaving a live subscriber has missed nothing since its history if and only if no publish found 64 events waiting in its channel |
| LogShip.LogSink.Attach | client/logship.go:79-83 | the attached stream is the current one, the queue unchanged |
| LogShip.LogSink.Detach | client/logship.go:85-91 | only the current stream can be detached |
| LogShip.LogSink.Pop | client/logship.go:95-97 | the writer receives the oldest line, and looks for a stream only afterwards |
| LogShip.LogSink.Handle | client/logship.go:46-65 | warnings and errors are queued while there is room, everything else is left alone |
| LogShip.LatestStreamStaysCurrent | client/logship.go:79-111 | in every interleaving the last attached stream is current until that very stream is detached or fails a write |
| LogShip.StreamsReceiveInOrder | client/logship.go:95-111 | in every interleaving each stream receives lines that were queued, unchanged, in order and without repeats |
| LogShip.WarningsAreQueuedExactlyWhileThereIsRoom | client/logship.go:46-65 | in every interleaving exactly warnings and errors are queued, all of them if and only if none finds 128 waiting |
| LogShip.EveryQueuedLineIsDelivered | client/logship.go:95-111 | a current stream that is never detached and never fails receives every queued line, in order |
| AgentState.AgentState.MarkConnected | client/control.go:77-87 | the whole status after a tunnel comes up |
| AgentState.AgentState.MarkDisconnected | client/control.go:89-108 | the whole status after an attempt ends; Since moves only when it was connected |
| AgentState.AgentState.MarkConnecting | client/control.go:112-117 | the whole status when an attempt begins |
| AgentState.StatusIsTruthful | client/control.go:77-117 | over every orderly run Connected holds exactly with a session held, excludes Connecting and a pending retry, and Since is the last change of Connected or start-up |
| AgentState.StatusIsComplete | client/control.go:77-117 | the error reported is that of the last attempt that ended with one since the last connection, the retry that of the attempt that just ended, the session that of the connection that is up |
| AgentState.FailedAttemptsLeaveSince | client/control.go:89-108 | any number of failed attempts leaves Since where it was |
| Supervisor.SuperviseSessions | client/run.go:154-198 | the loop tells the agent's state exactly the specified calls at the specified instants, attempt by attempt |
| Supervisor.SupervisedCallsAreOrderly | client/run.go:158-197 | the supervisor keeps the order the status relies on, and each attempt ends announcing the next |
| Supervisor.SupervisedStatus | client/run.go:158-197 | between attempts the status is offline with the true retry time; during one it is connected exactly when the tunnel came up |
| Supervisor.BaseDoublesToTheCeiling | client/run.go:177-196 | the backoff window is min(2^n, 30) seconds, n attempts after the last healthy one or the start, always within 1 and 30 seconds |
| Supervisor.ShortAttemptsFromTheStart | client/run.go:177-196 | after n short attempts from the start the window is min(2^(n-1), 30) seconds |
| Supervisor.JitterKeepsHalf | client/run.go:202-204 | a delay is at least half its window and less than all of it |
| Supervisor.JitterSpreads | client/run.go:202-204 | the delay grows with the draw, and every whole delay from half the window up to it can be drawn |
| Supervisor.WaitsAreDrawnFromTheWindow | client/run.go:184-192 | the wait after each attempt lies between half its window and all of it, and the next attempt starts when it is over |
| Supervisor.AttemptsInAWindow | client/run.go:154-204 | any window of T seconds holds at most 2T + 1 attempts |

## Left out

- Cryptography (ed25519, HMAC, argon2id, SHA-256) and the random source: symbolic, with the assumptions above.
- yamux, websockets, HTTP, TLS, the embedded ssh server and sftp: a session can open, accept or end, and a stream is a sequence of bytes; an HTTP head is its lines through the blank one.
- JSON: taken as a codec with parse after print equal to identity, so its own error paths are the `None` of `unmarshal`.
- Vault's HTTP API, login, token renewal and seal status: key-value reads and writes, signing and export are answers that may fail.
- Service managers, install and uninstall, downloads, checksums, the restart helper and the choice of how to restart: reduced to whether start, stop and the agent's answer succeed.
- Dashboard, terminal page, MCP tools, RPC file operations, configuration precedence and URL building: user interface and thin wrappers.
- `Snapshot`, its sorting and the displayed round-trip time: a superseded session's ping loop may still write into the shared record, so no freshness is claimed.
- Truly concurrent bootstrap requests: each handler is one atomic step, while the source checks for an account and saves it separately.
- handleLogin, cookies and the sign-in page: they only call the session functions modelled here.
- Enrollment.Server.EnrollClaim: the 500 ms delay after a refusal and the published events are not modelled.
- Duplex: the relay's own pump is not an instance, since what a half-closed yamux stream still yields is foreign; `Forward.RelayForward` bounds it in each direction. Closing a connection takes effect at once on both copies.
- Handshake.Upgrade: whatever else net/http may object to in a head, such as a bad version or header syntax, is one boolean.
- FrameWriter.WireDecodesToAMerge: after a write has failed the connection stays broken and later writes send nothing, as a closed websocket behaves.
- Streams.Sink.Write: why a connection stops taking bytes is not modelled; how many it still takes is a number in each sink, and a write fails exactly when it does not fit.
- Disk.Disk.WriteFile: a torn file is a single value, without saying which bytes are in it.
- Supervisor.Jitter: computed over the reals; the rounding of float64, which can reach the whole window, is not modelled.
- Supervisor.SuperviseSessions: the script of attempts stands for what the surroundings do and its end for the cancelled context; a panic inside a session is one of its errors.
- Sessions: the accept loop's work on each stream is left out; only the life of the session is modelled.
- OperatorRuns.NoEarlierSessionEverValidates: runs in which a restart falls back to an earlier key are excluded, because there it fails; `OperatorRuns.EarlierSessionsReviveExactlyByFallback` says so exactly.
- IdentityProtocol: an enrolment in flight when the relay restarts may still be signed, as Vault may have been asked already; how long a signature may take is not bounded.
