# Device-bound licensing: a verified model

licensecc's device-bound licensing engine keeps a signed lease on a device, decides offline whether a feature may run,
and renews the lease online. This project models that engine and the codecs it signs, and proves what each part keeps
over every run. It also models the streaming scanner that counts rows in SQL database dumps for backups.

The parts, and the modules that hold them:

- **Checkpoint store** (`Checkpoint`, `CheckpointStore`, `Device`). Two storage slots, each with the content a reader
  sees and the set of contents a crash may leave behind. Storage calls fail nondeterministically, or take effect and
  still report an error. The main result is `NoRollback`: over every run of saves, loads and crashes, a load never
  returns a statement older than an acknowledged one.
- **Clock anchor, lease session, renewal client** (`Anchor`, `Lease`, `SessionModel`, `Session`, `Client`). The session is
  a class whose methods make the changes of a value-level model; a ghost history of authentications, grants and stops
  states what no run may do.
- **Processes on a device** (`DeviceRun`, `PublicClient`, `PublicResults`, `FeatureSession`). Processes resume sessions
  from the store, renew, authorise and save. `DeviceRun` proves over every run of calls, exits and power losses that no
  later session resumes below an acknowledged save and that no later grant rests on a lease it supersedes. Its steps
  are in the contracts of the methods.
- **Enrollment** (`Operations`, `EnrollmentModel`, `Enrollment`, `Callback`). A stage machine with admission windows and
  secrets that are wiped at every ending.
- **Codecs** (`Texts`, `Base64`, `Url64Accumulator`, `CanonicalBase64`, `UrlFields`, `LineBase64`, `P256`, `Der`,
  `SafeIntegers`, `Utf8`, `TextRules`, `Loopback`, `JsonGrammar`, `JsonParser`, `JsonDocument`, `JsonText`,
  `JsonPrinter`, `BoundWire`, `Transcript`, `LeasePayload`, `CanonicalPayload`). Each codec is proved against a reference
  definition. The JSON parser is proved to accept exactly the documents within its limits, in every spelling, each as
  what it says. Each signed text is proved to determine what it was built from, and its lines are stated one by one.
- **SQL inventory** (`SqlLexer`, `SqlInterpreter`, `SqlDump`, `SqlScanner`). Every text whose quotes and comments end is
  the layout of some list of statements, well-formed or not, and its scan computes the tally of these statements, in
  every chunking.

## How to read the model

- Signature verification, lease decoding, SHA-256, key possession, randomness, clocks, transports and storage faults are
  parameters or nondeterministic choices. Nothing is assumed about them, except that decoded claims satisfy the payload
  grammar. `LeasePayload.DecodingAuthority` is that parameter for the real decoder.
- A character below 256 stands for a byte in the text codecs. Bit masks and shifts are division and remainder; 32-bit
  and 64-bit widths are explicit where they matter (`Url64Accumulator`, `Anchor`).
- Each public method is one atomic step. A process that dies in a save is a save whose remaining storage calls fail,
  followed by a crash.
- Every proof by induction is written out: no lemma rests on automatic induction (`{:induction false}`).
- `Kept` predicates say what every step keeps. They are transitive, so they hold across every run.
- A `DeviceRun.LocalStep` is what one call does to the storage, to the acknowledged saves and to the calling process.
  Every public method of `PublicClient` ensures one, and every call on an open feature session ensures a sequence of them
  (`LeadsTo`). A `WorldRun` interleaves the steps of any number of processes with power losses.

## Three findings

- **A definition after an insert resets the count.** The scanner sets a table's count to zero when it meets the table's
  definition (`services/cloudflare-d1-backup/src/snapshot-inventory.ts:159`). `SqlDump.DefinitionResets` shows that rows
  followed by the definition of their table are counted as none, in every layout.
- **A clause after the rows is counted as rows.** Every outermost parenthesis after VALUES counts as a row
  (`services/cloudflare-d1-backup/src/snapshot-inventory.ts:124-133`), also one of a conflict clause.
  `SqlDump.ClauseAdds` shows it in every layout. `SqlDump.InventoryCounts` gives the exact condition for both findings:
  a count is the number of rows printed if and only if the groups of such clauses equal what the definition forgets.
  `SqlDump.WrongCounts` is one concrete dump for each: `insert into orders values (1); create table orders` is reported
  as no row, and `create table orders; insert into orders values (1) on conflict (id) do nothing` as two.
- **The equivalence behind "unchanged" is coarser than equality of bytes.** Two statements that differ only in lease and
  operation identifiers compare as unchanged (`src/library/device_identity/bound_checkpoint.cpp:40-46`). The winner of
  the two slots is therefore unique only up to that equivalence (`CheckpointStore.WinnerIsUniqueUpToEquivalence`), which
  is enough for `NoRollback`. `Checkpoint.DecisionMeans` states the equivalence exactly.

## Model

| member | source | states |
|---|---|---|
| Checkpoint.ReplaceIsNewer | src/library/device_identity/bound_checkpoint.cpp:22-51 | replacement is exactly "same binding and strictly newer in (floor, issue time)"; replace and stale are dual, unchanged and conflict are symmetric |
| Checkpoint.DecisionMeans | src/library/device_identity/bound_checkpoint.cpp:22-51 | the exact meaning of all six decisions: replace and stale by the order of (floor, issue time), unchanged exactly for the same bytes or equal statements, conflict exactly for another binding or different statements at equal floor and time |
| Checkpoint.ReplaceIsLexicographic | src/library/device_identity/bound_checkpoint.cpp:38-43 | within one binding, replacement is the lexicographic order of floor and issue time |
| Checkpoint.ReplaceIsStrictWeakOrder | src/library/device_identity/bound_checkpoint.cpp:22-51 | within one binding, replacement is a strict weak order and unchanged is an equivalence |
| CheckpointStore.Storage.Publish | src/library/device_identity/bound_checkpoint.hpp:40-57 | the storage contract: the other slot is flushed first and never changed; success means durable; an error may still have made the bytes visible |
| CheckpointStore.Storage.Confirm | src/library/device_identity/bound_checkpoint.hpp:40-57 | success means that exactly these bytes were there and are now durable; nothing is replaced |
| CheckpointStore.Store.ReadSlots | src/library/device_identity/bound_checkpoint_store.cpp:34-55 | success gives the visible contents and a winner that dominates the other slot; every other status is a fault or an unorderable pair |
| CheckpointStore.Store.PublishAndReadBack | src/library/device_identity/bound_checkpoint_store.cpp:56-77 | saved means durable in the target with the other slot settled; a storage error means nothing was replaced; anything else is commit-unknown |
| CheckpointStore.Store.Load | src/library/device_identity/bound_checkpoint_store.cpp:93-109 | returns a slot's content that dominates the other slot; leaves the disk alone; conflict and invalid only if the slots cannot be ordered |
| CheckpointStore.Store.Save | src/library/device_identity/bound_checkpoint_store.cpp:110-162 | every status is truthful about both slots: conflict only if some slot clashes with the candidate, stale only if some slot is newer, unchanged only for an equal statement already in the winner; a fault-free save of an admissible candidate over orderable slots ends with it durable in both |
| CheckpointStore.Store.PublishBoth | src/library/device_identity/bound_checkpoint_store.cpp:143-158 | the losing slot is written first; at every failure the disk is untouched, half written with the winner settled, or mirrored with the candidate settled |
| CheckpointStore.Store.ConfirmBoth | src/library/device_identity/bound_checkpoint_store.cpp:130-142 | unchanged means both slots durably hold the candidate; nothing is ever replaced |
| CheckpointStore.WinnerIsUniqueUpToEquivalence | src/library/device_identity/bound_checkpoint_store.cpp:44-54 | two contents that could both be selected compare as unchanged, so slot numbering does not matter |
| CheckpointStore.AdmissibleAgainstWinner | src/library/device_identity/bound_checkpoint_store.cpp:125-129 | comparing with the winner alone is enough: a candidate it admits is neither stale nor in conflict with either slot |
| CheckpointStore.StepKeepsSane | src/library/device_identity/bound_checkpoint_store.cpp:110-162 | no save, load or crash makes the two slots conflict, whatever a crash leaves |
| CheckpointStore.RunKeepsSane | src/library/device_identity/bound_checkpoint_store.cpp:58-162 | over every run from slots that can be ordered, the slots can always be ordered |
| CheckpointStore.StepKeepsProtected | src/library/device_identity/bound_checkpoint_store.cpp:58-162 | every step keeps some slot that, whatever a crash leaves, is at least as new as an acknowledged statement |
| CheckpointStore.AcknowledgmentProtects | src/library/device_identity/bound_checkpoint_store.cpp:110-162 | saved, unchanged and mirror-pending each leave the candidate protected |
| CheckpointStore.RunKeepsProtected | src/library/device_identity/bound_checkpoint_store.cpp:58-162 | protection lasts over every run of steps |
| CheckpointStore.LoadFromProtected | src/library/device_identity/bound_checkpoint_store.cpp:93-109 | a load from a protected disk returns something at least as new, or reports busy or a storage error |
| CheckpointStore.NoRollback | src/library/device_identity/bound_checkpoint_store.cpp:93-162 | in every run with any faults and crashes, a load after an acknowledged save returns the same binding, not older, and never reports missing, invalid or conflict |
| CheckpointStore.SaveAfterRun | src/library/device_identity/bound_checkpoint_store.cpp:110-162 | convergence: after any run of faulty saves, loads and crashes, one save without faults of an admissible candidate leaves it durable in both slots |
| Device.Device.Save | src/library/device_identity/bound_public.cpp:42-48 | a step of the checkpoint store; exactly an acknowledged candidate joins the acknowledged saves, all of which stay protected; invalid-candidate is reported exactly for unverified bytes |
| Device.Device.Load | src/library/device_identity/bound_public.cpp:197-203 | what is loaded is at least as new as every acknowledged save of the device |
| Device.Device.PowerLoss | src/library/device_identity/bound_checkpoint.hpp:40-57 | a power loss loses no acknowledged save |
| Anchor.EffectiveTimeRoundsUp | src/library/device_identity/bound_anchor.cpp:24-32 | the effective time is the least whole second not passed by the elapsed ticks, and it is refused only beyond the safe range |
| Anchor.EffectiveTimeMonotone | src/library/device_identity/bound_anchor.cpp:24-32 | a later reading never gives an earlier effective time |
| Anchor.TimeNeverRunsBack | src/library/device_identity/bound_anchor.cpp:76-110 | over the life of an anchor, times reported for one token never decrease, and an accepted token had not expired at any earlier check |
| Anchor.ExpiredStaysRejected | src/library/device_identity/bound_anchor.cpp:76-110 | once a token was checked at a reading at which it had expired, that check and every later one reject it |
| Anchor.AcceptedWithinADay | src/library/device_identity/bound_anchor.cpp:76-110 | no acceptance more than 86399 seconds of inclusive time after the anchor was created |
| Anchor.BiasesAgree | src/library/device_identity/bound_anchor.cpp:53-70 | the true clock offsets behind any two accepted samples differ by at most 200000 ticks |
| Anchor.ValidSamples | src/library/device_identity/bound_anchor.cpp:11-16 | a sample is valid exactly if some bias that is not negative explains it, it took at most 10 milliseconds and its times fit 63 bits |
| Anchor.FitsIsInterval | src/library/device_identity/bound_anchor.cpp:60-69 | one constant bias explains all samples exactly when the greatest lower bound does not exceed the least upper bound |
| Anchor.FittingBiases | src/library/device_identity/bound_anchor.cpp:17-22 | the biases that explain all samples are exactly the kept interval |
| Anchor.BoundLeaseAnchor.Create | src/library/device_identity/bound_anchor.cpp:33-52 | a new anchor is live, with a 256-bit operation token, exactly one valid sample and an empty log |
| Anchor.BoundLeaseAnchor.Observe | src/library/device_identity/bound_anchor.cpp:53-70 | accepts a sample exactly when the anchor was live, the sample follows the last one and one constant bias still explains all of them; otherwise the anchor is dead for good |
| Anchor.BoundLeaseAnchor.Check | src/library/device_identity/bound_anchor.cpp:76-110 | unless continuity is lost, a lease of this operation is accepted exactly if it is authentic, expected and unexpired at the last reading, and either decision is logged with that reading; another operation is rejected without a reading |
| Lease.AcceptedIsExpected | src/library/device_identity/bound_lease.cpp:91-97 | a lease is accepted exactly if it is authentic, unexpired, not superseded and names all that was expected, the operation included |
| Lease.StatementIsOfItsContext | src/library/device_identity/bound_lease.cpp:182-197 | a resume statement verifies exactly in the context its claims name, and says exactly what they say |
| SessionModel.GrantsAreCurrent | src/library/device_identity/bound_session.cpp:338-352 | over the whole history: after a higher revocation sequence was authenticated no superseded lease is granted, and after a stop only operations begun afterwards are |
| SessionModel.NewestBounds | src/library/device_identity/bound_session.cpp:158-159 | the running maximum bounds every authenticated revocation sequence and every stop |
| SessionModel.KeptTransitive | src/library/device_identity/bound_session.cpp:137-402 | what a step keeps (floor, pins, context, history, a denial without pins, no operation brought back), every run keeps |
| SessionModel.LoseKeeps | src/library/device_identity/bound_session.cpp:137-142 | losing continuity and being denied keep the invariant, drop both operations and record a stop |
| SessionModel.PromoteKeeps | src/library/device_identity/bound_session.cpp:156-159 | an authenticated lease makes the floor equal to its revocation sequence, and a response becomes the statement to resume from |
| SessionModel.PinKeeps | src/library/device_identity/bound_session.cpp:299-308 | the first authenticated enrollment lease pins the binding and keeps the invariant |
| SessionModel.InstallKeeps | src/library/device_identity/bound_session.cpp:333-336 | installing a lease at the current floor keeps the invariant |
| SessionModel.GrantKeeps | src/library/device_identity/bound_session.cpp:338-352 | a grant at the current floor is current in the history |
| Session.ContextRules | src/library/device_identity/bound_session.cpp:15-42 | the rules on contexts, literally: the identity, names, texts and key, and pins and a floor or none at all |
| Session.ContextsAreOf | src/library/device_identity/bound_session.cpp:54-121 | what an enrolling session starts from, and what a resuming one takes from its statement, field by field |
| Session.BoundRenewalSession.Create | src/library/device_identity/bound_session.cpp:12-42 | created exactly for contexts that satisfy the identity, text and binding rules, with the floor the context demands and no lease |
| Session.BoundRenewalSession.CreateForEnrollment | src/library/device_identity/bound_session.cpp:12-66 | created exactly for valid enrollment contexts: an unpinned session in the enrollment phase |
| Session.BoundRenewalSession.CreateForResume | src/library/device_identity/bound_session.cpp:88-121 | created exactly from statements of at most 8192 bytes that verify and give a valid context; takes their floor and pins, and holds no lease and no operation |
| Session.BoundRenewalSession.CaptureResumeStatement | src/library/device_identity/bound_session.cpp:125-135 | an exported statement carries exactly the current floor and the pinned binding |
| Session.BoundRenewalSession.Check | src/library/device_identity/bound_session.cpp:143-162 | authentication raises the floor to the lease's revocation sequence before anything later can fail; a lost continuity drops everything |
| Session.BoundRenewalSession.BeginRenewal | src/library/device_identity/bound_session.cpp:167-187 | a retry returns the operation in hand with its first clock sample; otherwise a fresh one is begun |
| Session.BoundRenewalSession.BeginEnrollment | src/library/device_identity/bound_session.cpp:188-225 | the same for enrollment: invalid-response exactly for invalid drafts, conflict exactly for a draft other than the one in hand, denied and no-pending exactly in those phases |
| Session.BoundRenewalSession.AbandonRenewal | src/library/device_identity/bound_session.cpp:248-259 | drops exactly the named operation and its secrets, and keeps the accepted lease |
| Session.BoundRenewalSession.Accept | src/library/device_identity/bound_session.cpp:315-337 | success installs the response at the current floor after one proof of key possession; every failure installs nothing |
| Session.BoundRenewalSession.AcceptRenewal | src/library/device_identity/bound_session.cpp:260-269 | the same, only outside enrollment, only for the operation in hand, and only with a lease that names this operation; each refusal has its exact status |
| Session.BoundRenewalSession.PinBinding | src/library/device_identity/bound_session.cpp:275-309 | only authenticated claims introduce the pins |
| Session.BoundRenewalSession.AcceptEnrollment | src/library/device_identity/bound_session.cpp:270-314 | success ends the enrollment, wipes its secrets and leaves a lease of exactly this operation accepted; any other outcome installs nothing |
| Session.BoundRenewalSession.AuthorizeOperation | src/library/device_identity/bound_session.cpp:338-352 | success only undenied, with an accepted lease of its own operation at the current floor, begun after the latest stop, whose key was proved; recorded as a grant. Denied exactly for a denied session, online-required exactly without an accepted lease; invalid response and provider error each from the step that failed |
| Session.BoundRenewalSession.RecordOutcome | src/library/device_identity/bound_session.cpp:369-402 | a denial drops everything at once; an expiry drops only the named pending operation; a transient changes nothing; each outcome has its exact status |
| Session.BoundRenewalSession.PendingEnrollmentIsLive | src/library/device_identity/bound_session.cpp:361-368 | an enrollment in hand is never denied |
| Client.BoundRenewalClient.Exchange | src/library/device_identity/bound_client.cpp:72-123 | whatever the transport answers, the client can still name the operation in hand, and a denial reaches the session |
| Client.BoundRenewalClient.TakeAnswer | src/library/device_identity/bound_client.cpp:84-121 | each decoded answer has exactly one status and one effect on the session; denied only for a denied session; a denial and an expiry also make the client forget the operation |
| Client.BoundRenewalClient.Renew | src/library/device_identity/bound_client.cpp:124-151 | success means that the operation in hand when called, or the one begun, became the accepted lease; no operation is ever replaced |
| Client.BoundRenewalClient.Activate | src/library/device_identity/bound_client.cpp:152-192 | success ends the enrollment with an accepted lease and wiped secrets |
| Client.BoundRenewalClient.AbandonRenewal | src/library/device_identity/bound_client.cpp:194-204 | afterwards no operation is pending; online-required is reported exactly when one was |
| DeviceRun.RunKeepsValid | src/library/device_identity/bound_public.cpp:22-208 | over every run of processes and power losses: acknowledged saves stay protected and are never forgotten, and every live session is pinned and has reached all that its process knows |
| DeviceRun.ResumedReachesSaved | src/library/device_identity/bound_public.cpp:42-208 | whoever resumes after an acknowledged save, through anything in between, has its binding and at least its floor, and at least the floor of the session that saved its own statement |
| DeviceRun.GrantsRespectSaves | src/library/device_identity/bound_public.cpp:42-208 | after an acknowledged save, the saver and every process that was not open at some moment since grant only on leases of its binding with at least its floor as revocation sequence |
| DeviceRun.CallsGrow | src/library/device_identity/bound_public.cpp:359-403 | over any sequence of calls of one process, its floor never falls, its pins stay and no acknowledged save is forgotten |
| PublicClient.BoundPublicClient.OpenResume | src/library/device_identity/bound_public.cpp:197-208 | a resuming step: the new session has the binding and the floor of what was loaded, and at least the floor of every acknowledged save of the device |
| PublicClient.BoundPublicClient.Save | src/library/device_identity/bound_public.cpp:22-48 | a saving step: never offers the store an unverified statement; a session offers its own, with exactly its floor; an acknowledged one becomes known to the process and the device |
| PublicClient.BoundPublicClient.AuthorizeSession | src/library/device_identity/bound_public.cpp:100-113 | a granting step that leaves the storage alone: a grant rests on a lease of this context and binding that no save known to the process supersedes |
| PublicClient.BoundPublicClient.Authorize | src/library/device_identity/bound_public.cpp:100-113 | success only with a session that is not cancelled, refused exactly for a denied one; busy, cancelled and unenrolled clients change nothing |
| PublicClient.BoundPublicClient.Renew | src/library/device_identity/bound_public.cpp:359-369 | one step of renewing and saving: the session only moves on, no acknowledged save is forgotten, and what was renewed is what is saved; busy, cancelled and unenrolled clients change nothing at all |
| PublicClient.BoundPublicClient.AbandonPending | src/library/device_identity/bound_public.cpp:380-393 | the same for giving up the operation in hand: afterwards none is pending |
| PublicClient.BoundPublicClient.Cancel | src/library/device_identity/bound_public.cpp:394-403 | stops the session but keeps its statement, with its floor, for a later save |
| PublicResults.ResultOfRenewal | src/library/device_identity/bound_public_results.cpp:29-88 | a session decision is reported the same through a renewal as directly; success, retry, denial and conflict are each reported for exactly one status |
| FeatureSession.EndedStaysEnded | src/library/device_identity/feature_session.cpp:26-49 | over every run of calls, denied, failed and stopped sessions never become active again |
| FeatureSession.AfterOnline | src/library/device_identity/feature_session.cpp:109-139 | a session becomes active only by a successful renewal and a successful authorisation; busy changes nothing |
| FeatureSession.LccFeatureSession.LeadsToSinceOpened | src/library/device_identity/feature_session.cpp:109-204 | no call brings back an operation from before the handle was opened, and no floor, pin or acknowledged save is lost |
| FeatureSession.LccFeatureSession.GrantedIsBacked | src/library/device_identity/feature_session.cpp:167-204 | a granted authorisation is of this feature and of an operation begun since this handle was opened |
| FeatureSession.LccFeatureSession.Open | src/library/device_identity/feature_session.cpp:77-107 | a handle owns a new session with no lease and no operation, for the configured feature |
| FeatureSession.LccFeatureSession.Start | src/library/device_identity/feature_session.cpp:163-166 | becoming active takes exactly a renewal and an authorisation in this one call; refused elsewhere without effect |
| FeatureSession.LccFeatureSession.Renew | src/library/device_identity/feature_session.cpp:205-209 | the same from active or needs-online; refused elsewhere without effect |
| FeatureSession.LccFeatureSession.Authorize | src/library/device_identity/feature_session.cpp:167-204 | success only for the handle's feature, only while active, only on a lease of its own session begun since opening; a handle becomes denied only if its session was denied; every refusal has its exact result |
| FeatureSession.LccFeatureSession.Stop | src/library/device_identity/feature_session.cpp:210-224 | always ends stopped, with the client cancelled |
| EnrollmentModel.EndKeeps | src/library/device_identity/bound_enrollment.cpp:56-68 | ending at any stage wipes all secrets and keeps the invariant, by which every ending stage holds none |
| EnrollmentModel.KeptTransitive | src/library/device_identity/bound_enrollment.cpp:80-318 | state, verifier, challenge, handle and code stay fixed from when they are set until wiped, over every run |
| EnrollmentModel.TakeCodeKeeps | src/library/device_identity/bound_enrollment.cpp:199-203 | the code is set once, inside the window |
| EnrollmentModel.AttemptKeeps | src/library/device_identity/bound_enrollment.cpp:231-246 | the recovery origin is set once, at the first owned attempt, and every attempt lies in the 300-second window or within 48 hours of that origin |
| EnrollmentModel.AttemptsAreBounded | src/library/device_identity/bound_enrollment.cpp:231-246 | in ticks: the code is taken within 300 seconds of the start, the first attempt lies within them too, and every later one within 48 hours of the first |
| Enrollment.SameState | src/library/device_identity/bound_enrollment.cpp:18-24 | the comparison without early exit is equality of 43-character texts |
| Enrollment.BoundEnrollmentFlow.Begin | src/library/device_identity/bound_enrollment.cpp:80-165 | a view is shown only for a code computed here from exactly these inputs, only for the redirect first given, and only inside the window; every refusal says what the registration answered |
| Enrollment.BoundEnrollmentFlow.CheckBrowserReady | src/library/device_identity/bound_enrollment.cpp:209-218 | ready exactly while awaiting the callback inside the window; otherwise expired and wiped |
| Enrollment.BoundEnrollmentFlow.ReceiveCallback | src/library/device_identity/bound_enrollment.cpp:166-208 | received means that the URI spells this state and the code now held |
| Enrollment.BoundEnrollmentFlow.Activate | src/library/device_identity/bound_enrollment.cpp:231-270 | from the code-ready stage, the status tells the stage: connected with a lease, renewal-ready, failed for refusals and expiry, code-ready for everything else; without effect outside it |
| Enrollment.BoundEnrollmentFlow.Settle | src/library/device_identity/bound_enrollment.cpp:247-264 | of the answers that leave the session alone, exactly success and required renewal end the flow |
| Enrollment.BoundEnrollmentFlow.FinishExchange | src/library/device_identity/bound_enrollment.cpp:271-282 | the session forgets the exchange, secrets are wiped, and the stage follows the session's phase |
| Enrollment.BoundEnrollmentFlow.AbandonExchange | src/library/device_identity/bound_enrollment.cpp:283-292 | only an exchange that has begun can be abandoned |
| Enrollment.BoundEnrollmentFlow.Cancel | src/library/device_identity/bound_enrollment.cpp:293-305 | from every stage but transferred, the client and all secrets are gone |
| Enrollment.BoundEnrollmentFlow.TakeClient | src/library/device_identity/bound_enrollment.cpp:306-318 | the client is handed out at most once, able to renew and without enrollment secrets; always from connected and renewal-ready |
| Enrollment.BoundEnrollmentFlow.ClosedHoldsNothing | src/library/device_identity/bound_enrollment.cpp:56-68 | once ended, neither the flow nor its session holds a secret |
| Callback.CallbackDetermines | src/library/device_identity/bound_enrollment.cpp:178-198 | a callback is accepted exactly when it is the redirect with one code and one state of 32 bytes, in either order, in at most 2048 bytes |
| Base64.BytesOfSextets | src/library/device_identity/spki.cpp:221-283 | decoding the reference encoding gives the bytes back |
| Base64.SextetsOfBytes | src/library/device_identity/spki.cpp:244-283 | only the canonical spelling of some bytes decodes |
| Base64.SextetsAreBits | src/library/device_identity/spki.cpp:221-242 | the digits are the bits of the bytes, most significant first, filled up with zero bits |
| Base64.UrlAlphabet | src/library/device_identity/bound_encoding.cpp:97-106 | the digits are written as in table 2 of RFC 4648 |
| Base64.Url64Injective | src/library/device_identity/bound_encoding.cpp:97-106 | base64url texts determine their bytes |
| Url64Accumulator.AppendUrl64 | src/library/device_identity/bound_protocol.cpp:52-64 | the wrapping bit accumulator appends exactly unpadded base64url |
| Url64Accumulator.RestIsSextets | src/library/device_identity/bound_protocol.cpp:52-64 | taking bits byte by byte gives the digits of the reference |
| CanonicalBase64.EncodeCanonicalBase64 | src/library/device_identity/spki.cpp:221-242 | the 24-bit word loop writes exactly padded base64 |
| CanonicalBase64.DecodeCanonicalBase64 | src/library/device_identity/spki.cpp:244-283 | succeeds on exactly the nonempty canonical texts, with their bytes |
| CanonicalBase64.UnpadOfPadded | src/library/device_identity/spki.cpp:221-283 | decoding undoes encoding |
| CanonicalBase64.PaddedOfUnpad | src/library/device_identity/spki.cpp:275-277 | a text that decodes is the encoding of what it decodes to |
| UrlFields.Base64Url | src/library/device_identity/bound_encoding.cpp:97-106 | replacing characters and dropping padding gives exactly base64url |
| UrlFields.DecodeBase64Url | src/library/device_identity/bound_encoding.cpp:124-143 | the exact inverse: succeeds on the base64url texts of at most the maximum, and on no other |
| UrlFields.TokenIsImage | src/library/device_identity/bound_encoding.cpp:107-123 | tokens are exactly the base64url texts of 16 or 32 bytes |
| Loopback.LoopbackIsSpelled | src/library/device_identity/bound_encoding.cpp:9-23 | accepts exactly an explicit loopback address, a decimal port other than 80 and a valid path |
| Loopback.DotSegmentsFound | src/library/device_identity/bound_encoding.cpp:24-39 | the segment loop rejects exactly the paths with a dot segment after some slash |
| LineBase64.Encode | src/library/base/base64.cpp:89-145 | with its line breaks removed, the output is the canonical text; the breaks stand exactly after every line of lineLength - 1 characters (one, if the length is 1) and at the end, or nowhere for zero |
| LineBase64.ValidateBase64Spelling | src/library/base/base64.cpp:59-87 | decides the spelling rules and counts the padding |
| LineBase64.SpelledIsCanonical | src/library/base/base64.cpp:59-87 | the spelling rules accept exactly the texts that the other codec accepts |
| LineBase64.Unbase64 | src/library/base/base64.cpp:147-190 | gives the bytes of a canonical text, line breaks ignored, and nothing for any other text |
| LineBase64.EncodeThenDecode | src/library/base/base64.cpp:89-190 | decoding undoes encoding for every line length |
| LineBase64.IsCanonicalBase64 | src/library/base/base64.cpp:202-209 | true for exactly the nonempty texts that the canonical codec accepts |
| P256.LexLessIsLess | src/library/device_identity/spki.cpp:23-32 | byte order of scalars is numeric order |
| P256.ScalarInRange | src/library/device_identity/spki.cpp:23-32 | decides 0 < scalar < n |
| P256.Halve | src/library/device_identity/spki.cpp:120-125 | the byte loop with a carry halves the number |
| P256.SignatureIsLowS | src/library/device_identity/spki.cpp:118-127 | decides that s is in range and at most n - s |
| P256.SubtractFromOrder | src/library/device_identity/spki.cpp:134-139 | the borrow loop computes n - s |
| P256.NormalizeLowS | src/library/device_identity/spki.cpp:129-143 | keeps r, sets s to the smaller of s and n - s, refuses exactly what is out of range, and leaves a low-S signature as it is |
| P256.LowSIsUnique | src/library/device_identity/spki.cpp:129-143 | a signature has one low-S form |
| P256.NormalizedTwice | src/library/device_identity/spki.cpp:129-143 | a signature and its counterpart with n - s normalise to the same, and normalising twice changes nothing |
| Der.AppendDerInteger | src/library/device_identity/spki.cpp:83-96 | appends the minimal two's-complement INTEGER of section 8.3 of X.690 |
| Der.P1363ToDer | src/library/device_identity/spki.cpp:200-219 | encodes exactly the signatures in range |
| Der.DerToP1363 | src/library/device_identity/spki.cpp:176-198 | accepts exactly the encodings of signatures in range, each as the signature encoded |
| Der.ReadOfSignature | src/library/device_identity/spki.cpp:53-81 | reading what was written gives the signature back |
| Der.ReadIsSignature | src/library/device_identity/spki.cpp:53-81 | whatever can be read is the encoding of what was read |
| Der.DerSignatureInjective | src/library/device_identity/spki.cpp:176-219 | two signatures in range never share an encoding |
| SafeIntegers.SafeIntegerIsDecimal | src/library/device_identity/bound_encoding.cpp:86-96 | accepts exactly the printed forms of the safe integers |
| TextRules.FieldCharacters | src/library/device_identity/bound_encoding.cpp:40-53 | digests, key identifiers and names by their literal characters and lengths |
| Utf8.Utf8Text | src/library/device_identity/bound_encoding.cpp:56-85 | accepts exactly the nonempty texts within the limit that encode Unicode scalar values |
| Utf8.Utf8IsWellFormed | src/library/device_identity/bound_encoding.cpp:56-85 | the checker's rules describe exactly the encodings of section 3 of RFC 3629 |
| Utf8.EncodedBits | src/library/device_identity/bound_encoding.cpp:60-82 | the table of section 3 of RFC 3629: how many bytes a scalar value takes, and where its bits go |
| Utf8.FirstOfEncode | src/library/device_identity/bound_encoding.cpp:60-82 | an encoded scalar value is read back |
| Utf8.EncodeOfFirst | src/library/device_identity/bound_encoding.cpp:60-82 | what is read is the encoding of what was read: no overlong form, no surrogate |
| JsonParser.Parser.ReadUnicode | src/library/device_identity/bound_json.cpp:36-62 | four digits or a surrogate pair become the UTF-8 of one scalar value |
| JsonParser.Parser.ReadString | src/library/device_identity/bound_json.cpp:63-107 | the string loop reads what the grammar says |
| JsonParser.Parser.ReadValue | src/library/device_identity/bound_json.cpp:108-129 | the value rules, with numbers as safe integers |
| JsonParser.Parser.ReadObject | src/library/device_identity/bound_json.cpp:130-145 | the object rules: depth, field count, key length, no duplicate key |
| JsonParser.ParseText | src/library/device_identity/bound_json.cpp:154-165 | computes the grammar's reading of a whole text, whose exact meaning is `JsonDocument.ParseIsMeaning` |
| JsonDocument.ParseIsMeaning | src/library/device_identity/bound_json.cpp:36-165 | the parser accepts exactly the UTF-8 texts of at most 16384 bytes that are one object with white space around it: at most 4 levels and 32 members, keys of at most 1024 bytes that differ, integers up to 9007199254740991, and strings in any spelling of section 7 of RFC 8259; it returns what the document says |
| JsonDocument.LiteralReads | src/library/device_identity/bound_json.cpp:63-107 | each character raw, as its short escape or in UTF-16 units with digits of either case: every spelling of a text is read as the text |
| JsonDocument.LiteralIsSpelled | src/library/device_identity/bound_json.cpp:63-107 | whatever is read as a string is such a spelling of what was read |
| JsonDocument.MeaningIsUnique | src/library/device_identity/bound_json.cpp:108-165 | a text is a document in one meaning only |
| JsonText.StringBodyUtf8 | src/library/device_identity/bound_json.cpp:63-107 | strings cut at quotes and escapes are cut between characters |
| JsonText.ParsedIsUtf8 | src/library/device_identity/bound_json.cpp:154-165 | every key and text of a parsed object is well-formed UTF-8 |
| JsonPrinter.AppendQuoted | src/library/device_identity/bound_wire.cpp:111-126 | the quoting loop writes the quoted form |
| JsonPrinter.QuotedReads | src/library/device_identity/bound_wire.cpp:111-126 | the parser reads a quoted string back, for every string |
| JsonPrinter.PrintedParses | src/library/device_identity/bound_json.cpp:108-165 | the parser reads every compactly printed object within its limits as exactly what was printed |
| BoundWire.EncodeBoundAuthorization | src/library/device_identity/bound_wire.cpp:277-315 | succeeds for exactly the valid inputs; the appended text is the printed object of the nine members and fits the reserved 16384 bytes |
| BoundWire.AuthorizationParses | src/library/device_identity/bound_wire.cpp:277-315 | the request parses to exactly its nine fields, each under its own key |
| BoundWire.TextsParse | src/library/device_identity/bound_json.cpp:108-165 | an object of texts with distinct keys parses to exactly these texts |
| BoundWire.EncodeBoundRenewChallenge | src/library/device_identity/bound_wire.cpp:316-327 | the unquoted concatenation parses to exactly the purpose, the binding and the operation, because the validated alphabets need no escapes |
| BoundWire.EncodeBoundExchangeChallenge | src/library/device_identity/bound_wire.cpp:342-359 | the same for the attempt of an enrollment, only with a loopback redirect |
| Transcript.AppendFields | src/library/device_identity/bound_protocol.cpp:41-49 | one base64url line per field, refusing exactly the fields that are not texts |
| Transcript.SemanticBody | src/library/device_identity/bound_protocol.cpp:71-95 | the JSON array of base64url texts and one integer |
| Transcript.BoundOperationBody | src/library/device_identity/bound_protocol.cpp:153-170 | succeeds for exactly the valid operations |
| Transcript.BoundOperationDigestInput | src/library/device_identity/bound_protocol.cpp:96-111 | the digest text of exactly the valid operations and keys |
| Transcript.BoundProofInput | src/library/device_identity/bound_protocol.cpp:206-228 | the proof text of exactly the valid inputs |
| Transcript.EnrollmentComparisonInput | src/library/device_identity/bound_protocol.cpp:230-248 | the comparison text of exactly the valid inputs |
| Transcript.BodyDetermines | src/library/device_identity/bound_protocol.cpp:71-95 | two valid operations have the same body exactly when they are equal |
| Transcript.OperationRules | src/library/device_identity/bound_protocol.cpp:153-170 | the rules on the inputs of an exchange and of a renewal, by widths and limits |
| Transcript.TextDetermines | src/library/device_identity/bound_protocol.cpp:41-248 | two valid statements have the same text exactly when they are equal, within one kind and across the three kinds |
| Transcript.OperationLayout | src/library/device_identity/bound_protocol.cpp:96-111 | the lines of a digest input: domain, purpose, key and body |
| Transcript.ProofLayout | src/library/device_identity/bound_protocol.cpp:206-228 | the lines of a proof input, in order, and the two paths that are proved for |
| Transcript.ComparisonLayout | src/library/device_identity/bound_protocol.cpp:230-248 | the lines of a comparison input, in order |
| Transcript.RenewLayout | src/library/device_identity/bound_protocol.cpp:71-95 | the elements of the body of a renewal, in order |
| Transcript.ExchangeLayout | src/library/device_identity/bound_protocol.cpp:71-95 | the elements of the body of an exchange, in order |
| LeasePayload.SplitFields | src/library/device_identity/bound_lease.cpp:22-33 | the line loop reads the named fields in order and nothing else |
| LeasePayload.SplitOfPrinted | src/library/device_identity/bound_lease.cpp:22-33 | printed fields are read back |
| LeasePayload.PrintedOfSplit | src/library/device_identity/bound_lease.cpp:22-33 | only printed fields are read |
| LeasePayload.ClaimsOf | src/library/device_identity/bound_lease.cpp:34-62 | the claims that 17 values spell, if any; there is at most one such set |
| LeasePayload.ClaimRules | src/library/device_identity/bound_lease.cpp:34-62 | the rules on claims: at most a day, and 120 seconds more fit a safe integer |
| LeasePayload.PayloadClaims | src/library/device_identity/bound_lease.cpp:18-63 | succeeds on exactly the payloads of valid claims, so the claims determine every byte |
| LeasePayload.DecodeBoundLease | src/library/device_identity/bound_lease.cpp:150-165 | succeeds on exactly the tokens of a valid payload and a 384-byte signature, each as what it spells; computes the decoding that the session model takes as a parameter |
| LeasePayload.PayloadDetermines | src/library/device_identity/bound_lease.cpp:18-63 | two valid sets of claims have the same payload exactly when they are equal |
| LeasePayload.PayloadLayout | src/library/device_identity/bound_lease.cpp:18-63 | the 17 lines of a payload, each with its name and its value |
| LeasePayload.TokenLayout | src/library/device_identity/bound_lease.cpp:150-165 | the three parts of a token and the limits on their sizes |
| LeasePayload.EnvelopeUnique | src/library/device_identity/bound_lease.cpp:150-165 | a token spells at most one payload, signature and set of claims |
| LeasePayload.ClaimsDetermineTheSignedBytes | src/library/device_identity/bound_lease.cpp:18-63 | equal claims were signed as equal bytes, and satisfy all that the session assumes of them |
| CanonicalPayload.FieldTextsDetermine | src/library/base/v201_canonical_payload.cpp:217-233 | length-framed fields determine the list of fields |
| CanonicalPayload.BuildCanonicalPayload | src/library/base/v201_canonical_payload.cpp:287-346 | builds the payload of exactly the acceptable lists |
| CanonicalPayload.PayloadLayout | src/library/base/v201_canonical_payload.cpp:223-235 | the domain, the order of the fields and the parts of a frame |
| CanonicalPayload.FrameIsHexadecimal | src/library/base/v201_canonical_payload.cpp:217-221 | a frame length is written as eight lower-case hexadecimal digits, most significant first |
| CanonicalPayload.AcceptableRules | src/library/base/v201_canonical_payload.cpp:287-346 | the demands on the fields, with their limits and the keys that are needed |
| CanonicalPayload.PayloadIgnoresOrder | src/library/base/v201_canonical_payload.cpp:287-346 | reordering the fields changes neither acceptance nor the payload |
| CanonicalPayload.PayloadDetermines | src/library/base/v201_canonical_payload.cpp:287-346 | two accepted lists share a payload exactly when they hold the same fields |
| SqlLexer.RunConcat | services/cloudflare-d1-backup/src/snapshot-inventory.ts:236-240 | lexing in pieces is lexing the whole |
| SqlLexer.PrintedLexes | services/cloudflare-d1-backup/src/snapshot-inventory.ts:266-392 | printed words, literals, quoted identifiers, spaces and comments lex to exactly their tokens |
| SqlLexer.LexesExactly | services/cloudflare-d1-backup/src/snapshot-inventory.ts:394-419 | a text lexes exactly if it is printed from separated pieces: every quotation and block comment in it ends |
| SqlLexer.CappedIsCut | services/cloudflare-d1-backup/src/snapshot-inventory.ts:242-252 | what is kept of a name is its shortest beginning of at least 256 UTF-16 code units, or all of it |
| SqlLexer.CharacterClasses | services/cloudflare-d1-backup/src/snapshot-inventory.ts:268-276 | the characters of words and of white space, by code point |
| SqlInterpreter.InterpretConcat | services/cloudflare-d1-backup/src/snapshot-inventory.ts:63-147 | interpreting in pieces is interpreting the whole |
| SqlDump.StatementRuns | services/cloudflare-d1-backup/src/snapshot-inventory.ts:63-187 | one statement, well-formed or not, changes the tally by exactly its rows or its definition, with the same errors |
| SqlDump.DumpRuns | services/cloudflare-d1-backup/src/snapshot-inventory.ts:63-209 | a sequence of statements gives their tally, whether or not the last is terminated |
| SqlDump.PrintedInventory | services/cloudflare-d1-backup/src/snapshot-inventory.ts:212-419 | the inventory of the printed text of every dump is the tally of its statements, in every layout |
| SqlDump.WrittenInventory | services/cloudflare-d1-backup/src/snapshot-inventory.ts:212-419 | with names of at most 256 code units, the same for the names as they are written |
| SqlDump.EveryInventory | services/cloudflare-d1-backup/src/snapshot-inventory.ts:212-419 | every text that ends between tokens is a layout of some dump, and its inventory is the tally of that dump |
| SqlDump.TallyCounts | services/cloudflare-d1-backup/src/snapshot-inventory.ts:149-178 | the tally holds the rows and clause groups after the definition |
| SqlDump.InventoryCounts | services/cloudflare-d1-backup/src/snapshot-inventory.ts:149-209 | exactly the defined counted tables are listed; a count is the number of rows printed if and only if the clause groups equal what precedes the definition |
| SqlDump.DefinitionResets | services/cloudflare-d1-backup/src/snapshot-inventory.ts:149-178 | rows before the definition of their table are counted as none, in every layout |
| SqlDump.ClauseAdds | services/cloudflare-d1-backup/src/snapshot-inventory.ts:124-133 | the outermost groups of a clause after the rows are counted as rows, in every layout |
| SqlDump.WrongCounts | services/cloudflare-d1-backup/src/snapshot-inventory.ts:149-178 | two concrete dumps: one row reported as none, and one row reported as two |
| SqlScanner.SnapshotInventoryInterpreter.HandleToken | services/cloudflare-d1-backup/src/snapshot-inventory.ts:63-147 | the token switch makes the step of the reference interpreter |
| SqlScanner.SnapshotInventoryInterpreter.FinishInventory | services/cloudflare-d1-backup/src/snapshot-inventory.ts:189-209 | ends the last statement, refuses inserts without a definition, and reports the counts |
| SqlScanner.StreamingSqlTokenizer.WriteCharacter | services/cloudflare-d1-backup/src/snapshot-inventory.ts:266-392 | the reprocessing loop makes one step of the reference lexer and feeds the interpreter its tokens |
| SqlScanner.StreamingSqlTokenizer.FinishScan | services/cloudflare-d1-backup/src/snapshot-inventory.ts:394-419 | completes the last token, or reports an invalid stream |
| SqlScanner.ScanChunks | services/cloudflare-d1-backup/src/snapshot-inventory.ts:230-240 | the result is the scan of the whole text, whatever the chunks, errors included; `SqlDump.WrittenInventory` says what that is |
| SqlScanner.CountedAreRequired | services/cloudflare-d1-backup/scripts/restore-drill.mjs:34-58 | the scan counts the tables that a restore drill compares |

## Left out

- Platform storage, HTTP, browser, sockets, TPM providers and directory rules: operating-system calls. The storage
  contract of `bound_checkpoint.hpp` and the clock interface of `bound_anchor.hpp` are modelled.
- Mutexes, exceptions, allocation failures: each public method is one atomic step. Busy results of the client's lock
  appear where a renewal, an authorisation or an abandonment reports them; elsewhere, and for the inner lock of the
  renewal client, a busy lock is a call not made. Internal errors that only exceptions cause do not appear.
- Signing an enrollment or a renewal (`bound_session.cpp:226-247`) is a nondeterministic success in `Client`.
- RSA verification and its trust ring, DER public keys, SHA-256, P-256 verification: uninterpreted.
- The provider policy and the validity of the trust ring are booleans of `Session.Setup`; key identifiers are texts.
- Enrollment through the public client (`bound_public.cpp:257-358`): `PublicClient` models processes that resume.
- Session.BoundRenewalSession.Accept: an internal error of hashing is a nondeterministic failure after authentication.
- CanonicalPayload.BuildCanonicalPayload: the validators of single values and of field combinations are a parameter, and
  which error message is given first is not modelled; the results hold for every choice of validators.
- The requests that carry a proof (`bound_wire.cpp:328-341`, `bound_wire.cpp:360-385`), the label rule and the reading of
  response fields are not modelled; the canonical form of public keys is a parameter of `BoundWire`.
- SqlScanner.ScanChunks: works on characters; byte decoding and its byte-order mark are left to the platform's decoder, and
  lower-casing is a parameter.
- SqlDump.PrintedInventory: what stands between two semicolons is one statement, as for the scanner; the statements of a
  trigger body are read as statements of the dump.
- Wiping memory is modelled as clearing the field.
- Only `verify_bound_lease` and the resume statement are modelled of lease verification; the `verify` shorthand of the
  anchor is a call of `check`.
