# Minimal Router: a verified model

A Dafny model of the parts of Minimal Router whose correctness spans many
steps, processes or sessions, and proofs about all of their runs. Verify it with
`dafny verify dfyconfig.toml`.

| area | modules |
|---|---|
| firewall snapshots: what two rulesets must share to compare equal | `Rewriting`, `CounterReadings`, `CounterPlaces`, `Firewall`, `FirewallTrace`, `FirewallObserver`, `FirewallPolicy`, `FirewallMinimal` |
| DNS names, questions and answers on the wire | `DnsName`, `DnsMessage`, `DnsWire` |
| release precedence, the journalled A/B slots, the updater | `Versions`, `VersionOrder`, `SlotDisk`, `Slots`, `SlotRuns`, `Update` |
| the privileged helper, the configuration transaction engine, routerd's start | `Helper`, `Engine`, `Startup` |
| editing by many sessions | `Editing`, `Sections` |
| the tool bridge: escaping, cookies, sessions | `Pairs`, `Percent`, `Cookies`, `Bridge` |
| certificate names, certificate cache, device panel | `Certificates`, `CertificateNames`, `CertificateCache`, `Devices` |
| lab tools: structural diff, fuzzer, contract suite | `Differences`, `Mutations`, `Contracts` |
| shared vocabulary | `Text`, `Json`, `Reachability` |

## Main results

- **Trace equivalence** (`FirewallTrace.TraceEquivalence`, `FirewallObserver.Compare`):
  the snapshot comparison passes exactly when finitely many permitted rewrites lead
  from one ruleset to the other. `Rewriting` proves the theorem for any
  reading, blocks and item changes; `NftLawful` shows that nftables listings are an instance. Which
  rulesets are accepted at all is stated on their raw items (`FirewallPolicy.AcceptedIff`).
- **The visited set is exact** (`DnsName.VisitedSetExact`): it refuses exactly the names
  whose compression chain never ends, and a compressed suffix decodes like the plain one. What is decoded,
  which responses answer a query and with which addresses is stated byte by byte, both ways
  (`DnsWire.MoveIff`, `NameIff`, `FoundIff`, `QuestionIff`).
- **The version floor never falls** (`SlotRuns.RunsKeepFloor`): over every run of slot commands in
  which any write may fail, take effect although it reports an error, or be the last before a crash. A command
  succeeds if and only if it is acceptable and none of its writes fails (`Slots`), and which commands are
  acceptable on which disks is stated in terms of precedence alone (`StagingAccepted`, `ActivationAccepted`,
  `RollbackAccepted`, `InstallationAccepted`, `JournalTrusted`, `ReadIff`).
- **The service pair never mixes slots** (`Update.Updater.ActivateAndRestart`), at any step, for every
  pattern of service failures; and what each report of the updater means by what failed.
- **The router runs what is stored** (`Engine.Engine.Serve`): whenever the engine admits a change, the
  helper's fallback and the newest stored revision are one configuration, and a helper that serves runs it,
  whatever answers were lost and wherever the helper died or restarted on the way; the kept revisions are the newest 100 of a history in which each one was
  admitted as a change of the one before.
- **A repeated request takes effect once** (`Helper.Ask`): however often it is sent, whatever is lost and
  wherever the helper dies, a request other than a reconciliation is executed at most once. A verified
  answer describes what now runs and is recorded, exactly unless it is that of a provisional apply recorded
  by an earlier helper process. While another transaction is unresolved nothing but a reconciliation is
  executed.
- **No lost update** (`Editing.Serializable`, `Editing.NoLostUpdate`, `Sections.MixedCommitsChain`): for any
  number of sessions and any interleaving, commits form one sequential history, and consecutive saves of
  a section chain exactly when the earlier draft reads back as written.
- **A covering certificate** (`CertificateNames.CoversIff`): a certificate covers the router if and only if it
  carries every address and every name that the router asks for.
- **Reported places suffice and are needed** (`Differences.ReportedSuffices`, `ReportedNeeded`): taking over
  all of them yields the other document, and leaving any one out never does.

## What the code does not do

Properties one might expect that fail, each with its exact condition.

- `SlotRuns.StagingStrands`: the writes of a staging can end with a pending version that has no slot (its
  state file written although the write reported an error). A rollback or another activation is accepted
  if and only if, besides its other conditions, a pending version still has its slot
  (`RollbackAccepted`, `ActivationAccepted`).
- `Update.ReactivationRollsPast`: "automatically rolled back" restores the earlier pointer if and only
  if the activated version was not already current (the equivalence is an `ensures` of `ActivateAndRestart`).
- `Helper.AnsweredAfterDeath`: a helper that dies between recording a verified answer and sending it restarts on
  the last-good configuration, and the repeated request is still answered as verified. What it asked for runs
  and is recorded if and only if it was no provisional apply, or the process that executed it still serves
  (`Helper.Handle`, `Ask`); so a change can await confirmation that does not run (`Engine.Process`).
- `Helper.DeliverTwice`: a request delivered twice is executed twice if and only if it is a reconciliation, the
  helper died after executing it and the restarted helper cannot read its record; every other request is
  answered as broken there instead, so only a reconciliation can come back refused after it took effect.
- `Engine.RollbackStuck`: a run in which the retry of a rollback does not restore the previous configuration
  although nothing goes wrong with it. With a cooperative helper, a retry restores it if and only if nothing
  blocks it (`Expire`), a confirmation whose candidate is stored succeeds under the same condition
  (`Confirm`), and a reconciliation always does (`Reconciled`). An attempt that one helper process executed
  and answered as broken blocks every other id (`Expire`, `Helper.Handle`), and while the record on disk is
  unresolved every retry fails, restarts or not, until recovery is demanded (`Retry`, `ServeBlocked`).
- `Startup.UncreatedMarker`: a start that cannot create the marker and fails to reconcile leaves the hash for
  the next one, which becomes ready over a mixture. A skipping start is right if the helper has executed
  nothing since the hash was written (`Start`), which is so if no start fails to create a missing marker
  (`Respawn`). This condition is sufficient only: a failed reconciliation may leave the right configuration
  running.
- `Editing.AcknowledgedDraftExact`: after an acknowledged save and a refresh, the draft is still shown if and
  only if a change awaiting confirmation asked for nothing new, or an applied one reads back as written.
  The comment that a refresh never discards an edited draft holds of drafts that differ from their base
  (`EditedDraftKept`).
- `Sections.PasswordChangeUnseen`: a WAN save cannot see another session's password change; it
  survives if and only if the draft leaves the password blank or names the same one.
- `Sections.SharedIdOverwrites`: nothing keeps rule ids unique, and saving a rule overwrites every other
  rule of its id; only the opened rule changes if and only if the others already equal the candidate
  (`RuleEditExact`).
- `Sections.SaveReadsBack`, `Sections.SavingUnchanged`: when a saved section reads back as its draft, and when
  saving an untouched section changes nothing (saving the resolvers always turns router DNS off, and
  `UnspacedReadsBackSpaced` shows a text that comes back different).
- `CertificateCache.FailedLoadSticks`, `CertificateCache.MovedLanOvertaken`: a cache hit serves a certificate
  that covers the current inputs if and only if the certificate loaded last covers what the newest refresh
  asked for, and a valid one if and only if that one is still valid (`HitExact`, `HitBeforeLoad`,
  `HitAtStart`; `LapsedServed` is a renewal that does not load). A pair that does not load, or two handshakes that
  install in the opposite order, can break it (`OvertakenInstall` says exactly when); a dropped change does
  not, because the pair on disk is used again (`DroppedChange`).
- `CertificateCache.AddressNamedHost`: handshakes one at a time serve a covering certificate if and only if no
  host name asked for reads as an address that is not the router's, or the pair was used again
  (`OrderlyHits`); that is when a new certificate covers its own inputs (`Certificates.MadeCovers`).
- `Certificates.KeyForgetsKind`: the cache key determines the list of extra names, not which of them
  are addresses (`KeyExact` is the equivalence).
- `Percent.DotSegmentsPass`: `.` and `..` are not escaped and remain dot segments of the path.

## Environment

Disk writes are single steps that are atomic (write to a temporary file, then rename); each may report an
error after taking effect and the process may stop after any of them. A failed database transaction
stores nothing. Service commands may fail leaving a service as it was, stopped or started; no supervisor
starts a service between two commands of one restart. The privileged helper's primitive steps are trusted
for their own answers: a verification that passes means that the configuration is active, a restoration that
passes means that the previous one is. A helper serves only after it has restored its last-good configuration
and dropped the pending record; it may die at any step and restart at any time. How the steps of
an execution go, which faults a delivery meets and whether the store accepts may be given in advance; then the
outcome is exact. A cooperative helper is one whose own steps all succeed and to which no message is lost. Hashes of different configurations differ, and
only root can leave a regular file that neither group nor others can write at the path of the start hash;
nothing is executed for routerd before it has an administrator. Clocks, time stamps, HTTP and TLS
transport, signatures and hashes are parameters or nondeterministic results. White space is a parameter of every
trimming function, and so is how a text is read as an address or an address range. One refresh of the
certificate reads the clock once.

## Model

| member | source | states |
|---|---|---|
| `CounterReadings.WithoutCounterReadings` | scripts/gh-lab/firewall_observer.py:20-37 | every reading in a "counter" object is removed, at any depth; fails exactly on a reading that is not a non-negative integer |
| `CounterReadings.ReadingStepForgotten` | scripts/gh-lab/firewall_observer.py:20-37 | adding, removing or changing one reading does not change the result or whether there is one |
| `CounterReadings.StripReached` | scripts/gh-lab/firewall_observer.py:20-37 | conversely, a value reaches its stripped form by finitely many such single changes |
| `CounterPlaces.ValidIff` | scripts/gh-lab/firewall_observer.py:20-37 | the readings of a document are accepted if and only if every packet or byte count directly inside a counter, wherever it stands, is a non-negative integer |
| `CounterPlaces.StripAt` | scripts/gh-lab/firewall_observer.py:20-37 | for every path, what stands there afterwards: nothing at or below a reading, everything else as it was |
| `Rewriting.ReachKeeps` | scripts/gh-lab/firewall_observer.py:40-94 | for any lawful rules, rewriting never changes a block's entries or their order |
| `Rewriting.NormalReached` | scripts/gh-lab/firewall_observer.py:40-94 | for any lawful rules, every readable listing reaches its sorted normal form by permitted steps |
| `FirewallTrace.NftLawful` | scripts/gh-lab/firewall_observer.py:16-94 | handles, readings, metainfo and table interleaving satisfy the rewriting laws |
| `FirewallTrace.ReachSound` | scripts/gh-lab/firewall_observer.py:40-94 | permitted rewrites keep a listing accepted and its canonical form unchanged |
| `FirewallTrace.TraceEquivalence` | scripts/gh-lab/firewall_observer.py:40-94 | two accepted listings have equal forms if and only if permitted rewrites connect them |
| `FirewallTrace.RelistCanonical` | scripts/gh-lab/firewall_observer.py:86-94 | listing a canonical form again is accepted and gives the same form |
| `FirewallTrace.FormFixesBlocks` | scripts/gh-lab/firewall_observer.py:86-94 | equal forms hold the same objects of each table in the same order |
| `FirewallTrace.ReorderSeen` | scripts/gh-lab/firewall_observer.py:86-94 | exchanging two different objects of one table always changes the form |
| `FirewallTrace.RemovalSeen` | scripts/gh-lab/firewall_observer.py:86-94 | removing or adding any object changes the form |
| `FirewallObserver.Scan` | scripts/gh-lab/firewall_observer.py:43-76 | the scan fails on an unreadable or clashing object and otherwise tracks tables, chains and objects exactly |
| `FirewallObserver.CheckHooks` | scripts/gh-lab/firewall_observer.py:79-85 | accepts exactly when the three fail-closed chains and the pause chain exist |
| `FirewallObserver.AppendObjects` | scripts/gh-lab/firewall_observer.py:86-89 | the loop over objects fails exactly on an unresolved rule or a bad reading and builds both listings in order |
| `FirewallObserver.Markers` | scripts/gh-lab/firewall_observer.py:90-92 | counts the revision markers, failing on a counter whose name is not text |
| `FirewallObserver.Canonical` | scripts/gh-lab/firewall_observer.py:40-94 | returns the canonical form of exactly the accepted documents and an error for all others; which those are is `FirewallPolicy.AcceptedIff` |
| `FirewallObserver.Compare` | scripts/gh-lab/firewall_observer.py:101-107 | passes if and only if both documents are accepted and permitted rewrites connect them |
| `FirewallPolicy.AcceptedIff` | scripts/gh-lab/firewall_observer.py:40-94 | a listing is accepted if and only if, on its raw items, every object is of a known kind in one of the two tables, both tables are declared, no table or chain twice and no two base chains at one hook and priority, counter readings are numbers, every rule names a listed chain, the input, forward and output chains sit at their hooks and drop, the pause chain sits at forward with priority -10 and accepts, and there is exactly one revision marker |
| `FirewallPolicy.RuleAdded` | scripts/gh-lab/firewall_observer.py:63-85 | a rule may be added to an accepted listing if and only if its counters are readable and it names a listed chain |
| `FirewallMinimal.AdditionSeen` | scripts/gh-lab/firewall_observer.py:40-94 | any accepted ruleset stays accepted with one more set, map or other object that acceptance ignores, and the form changes |
| `FirewallMinimal.ObjectIsExtra` | scripts/gh-lab/firewall_observer.py:43-62 | every set, map, quota, limit and flowtable of either table is such an object |
| `FirewallMinimal.OrderSeen` | scripts/gh-lab/firewall_observer.py:40-94 | two such objects of one table may be added in either order, and the forms differ |
| `FirewallMinimal.MinimalAccepted` | scripts/gh-lab/firewall_observer.py:40-94 | the two tables, four required base chains and one marker are accepted, so the comparison is not vacuous |
| `DnsName.ReadName` | scripts/gh-lab/dns_stress.py:20-39 | terminates on every byte string and returns what following the name gives, or an error |
| `DnsName.VisitedSetExact` | scripts/gh-lab/dns_stress.py:20-39 | a name is decoded if and only if some finite chain of labels and pointers, without a visited set, decodes it |
| `DnsName.CycleNeverEnds` | scripts/gh-lab/dns_stress.py:20-39 | a chain that returns to an offset is never decoded with any number of moves |
| `DnsName.ShortEnough` | scripts/gh-lab/dns_stress.py:20-39 | a decodable name needs at most one move per unvisited byte |
| `DnsName.EndInside` | scripts/gh-lab/dns_stress.py:20-39 | the end offset lies after the start and within the message |
| `DnsName.LabelsRead` | scripts/gh-lab/dns_stress.py:13-39 | encoded labels are read back wherever they stand and whatever follows |
| `DnsName.PointerTransparent` | scripts/gh-lab/dns_stress.py:20-39 | replacing a suffix by a pointer to equal labels decodes to the same labels and ends two bytes after the pointer starts |
| `DnsMessage.QuestionRoundTrip` | scripts/gh-lab/dns_stress.py:13-39 | decoding inverts `question` up to ASCII case and trailing dots |
| `DnsMessage.RecordsSpan` | scripts/gh-lab/dns_stress.py:54-64 | records are contiguous disjoint spans of at least eleven bytes inside the message |
| `DnsMessage.ReadHead` | scripts/gh-lab/dns_stress.py:43-52 | accepts exactly a response header and question that echo the query |
| `DnsMessage.ReadRecord` | scripts/gh-lab/dns_stress.py:55-64 | reads the record at an offset without leaving the buffer, or fails |
| `DnsMessage.ReadAddresses` | scripts/gh-lab/dns_stress.py:53-64 | collects exactly the matching A records' data in order, failing when any record is malformed |
| `DnsMessage.Answer` | scripts/gh-lab/dns_stress.py:42-70 | succeeds exactly when the message answers the query with the expected addresses, and returns their texts |
| `DnsMessage.AnswerCountBound` | scripts/gh-lab/dns_stress.py:42-64 | the answer count bounds the length of an accepted message from below |
| `DnsMessage.ResponseCollected` | scripts/gh-lab/dns_stress.py:42-70 | a response made of the question and n pointed A records yields exactly those n addresses in order |
| `DnsMessage.AddressTextInjective` | scripts/gh-lab/dns_stress.py:62-69 | comparing texts of addresses compares the addresses |
| `DnsWire.MoveIff` | scripts/gh-lab/dns_stress.py:24-39 | which bytes are a label, which a pointer to which of the 16,384 offsets and which the end; everything else is malformed |
| `DnsWire.NameIff` | scripts/gh-lab/dns_stress.py:20-39 | a text and an end are decoded if and only if a finite chain of labels and pointers spells them in ASCII and the text is its lower case |
| `DnsWire.SameNameIff` | scripts/gh-lab/dns_stress.py:34-50 | two names are taken for one if and only if they differ at most in the case of ASCII letters |
| `DnsWire.FoundIff` | scripts/gh-lab/dns_stress.py:42-64 | addresses are found if and only if the bytes say so: id, response bit, no truncation, no error code, one question for the same name, and the data of exactly the A records of class IN with that owner and four bytes |
| `DnsWire.SatisfiedIff` | scripts/gh-lab/dns_stress.py:65-70 | "public" means one address at least and all of them public; a text means exactly one address with that text |
| `DnsWire.AddressTextReads` | scripts/gh-lab/dns_stress.py:62-62 | the text of an address is its four bytes in decimal without leading zeros |
| `DnsWire.QuestionWritten` | scripts/gh-lab/dns_stress.py:13-17 | the bytes of the query for a domain with any number of trailing dots |
| `DnsWire.QuestionIff` | scripts/gh-lab/dns_stress.py:13-17 | there is a query if and only if the id fits and the name is ASCII labels of 1 to 63 characters with dots between and behind them |
| `Versions.CompareNumericIsNumeric` | rust/crates/mr-core/src/firmware/mod.rs:377-389 | comparing digit strings compares their values, for any length and leading zeros |
| `Versions.ValueReads` | rust/crates/mr-core/src/firmware/mod.rs:377-389 | the value of a run of digits is the decimal number it writes |
| `Versions.CompareFlip` | rust/crates/mr-core/src/firmware/mod.rs:391-419 | exchanging the versions reverses the order, and comparison fails in both directions or neither |
| `Versions.CompareComposes` | rust/crates/mr-core/src/firmware/mod.rs:391-419 | the order composes across three versions |
| `Versions.PrecedenceIsTotalPreorder` | rust/crates/mr-core/src/firmware/mod.rs:345-419 | release precedence is a total preorder on the parsable versions |
| `VersionOrder.ParsesIff` | rust/crates/mr-core/src/firmware/mod.rs:350-371 | a text parses to a version if and only if it is an optional v, three numbers, and an optional hyphen with identifiers or plus with build metadata |
| `VersionOrder.PrecedenceIff` | rust/crates/mr-core/src/firmware/mod.rs:391-419 | a version compares as less if and only if its numbers go first, or they are equal and it is a prerelease of the other or of an earlier prerelease: numbers by value, before words, words by text |
| `SlotDisk.ReleasePrecedenceLawful` | rust/crates/mr-core/src/firmware/mod.rs:391-433 | release precedence meets the laws the slot proofs assume |
| `SlotDisk.SoundReads` | rust/crates/mr-core/src/firmware/slots.rs:184-212 | every disk a command can leave behind is read, to a state of release versions |
| `SlotDisk.UnderWayReads` | rust/crates/mr-core/src/firmware/slots.rs:239-331 | a disk with a journal reads as the next state exactly when the current pointer has moved, whatever else was written |
| `Slots.SlotManager.RestoreLinks` | rust/crates/mr-core/src/firmware/slots.rs:400-409 | touches only the two pointers, the current one always selecting its old or its new version; success sets both |
| `Slots.SlotManager.Recover` | rust/crates/mr-core/src/firmware/slots.rs:239-245 | recovery settles the journal without changing what the disk reads as |
| `Slots.RecoverKeeps` | rust/crates/mr-core/src/firmware/slots.rs:239-257 | wherever settling a journal is interrupted, the disk reads as before |
| `Slots.SlotManager.Commit` | rust/crates/mr-core/src/firmware/slots.rs:214-237 | a journalled operation ends at its target if and only if it is valid and no write fails; failed or interrupted anywhere, the disk reads as the old or the new state |
| `Slots.SlotManager.ActivateSlot` | rust/crates/mr-core/src/firmware/slots.rs:131-157 | success selects the version and remembers the one before, and comes if and only if the activation is acceptable and no write fails; anything else leaves the old or the new state readable |
| `Slots.SlotManager.RollBackSlot` | rust/crates/mr-core/src/firmware/slots.rs:159-182 | success swaps to the previous slot with the floor recorded, and comes if and only if the rollback is acceptable and no write fails; anything else leaves the old or the new state readable |
| `Slots.SlotManager.StageSlot` | rust/crates/mr-core/src/firmware/slots.rs:83-129 | success adds the slot and makes it the pending version, and comes if and only if the release is authentic, acceptable and no write fails; a failure or crash leaves the old state or the pending one; no other slot is added or removed |
| `Slots.SlotManager.StageOnto` | rust/crates/mr-core/src/firmware/slots.rs:112-129 | stays inside the three writes of a staging: slot, state file, and removal after an error |
| `Slots.SlotManager.RaiseFence` | rust/crates/mr-core/src/firmware/slots.rs:451-458 | success puts up the fence with that minimum; a failure or crash leaves the old state or the fenced one |
| `Slots.SlotManager.InstallSlot` | rust/crates/mr-core/src/firmware/slots.rs:463-512 | success leaves the baseline state; a failure or crash leaves the old state, the fence or the baseline; no other slot is added or removed |
| `SlotRuns.FloorNeverFalls` | rust/crates/mr-core/src/firmware/slots.rs:52-182 | no command lowers the version floor, however it ends |
| `SlotRuns.RunsKeepFloor` | rust/crates/mr-core/src/firmware/slots.rs:52-257 | over every run with failures and crashes the disk stays readable and the floor never falls |
| `SlotRuns.RollbackUndoesActivation` | rust/crates/mr-core/src/firmware/slots.rs:131-182 | after an activation that moved the pointer, rollback is accepted and returns to the slot before it |
| `SlotRuns.RollbackAccepted` | rust/crates/mr-core/src/firmware/slots.rs:159-182 | a rollback is accepted if and only if no installation is under way, another previous slot exists, the current slot is no baseline without a minimum and a pending version has its slot |
| `SlotRuns.ActivationAccepted` | rust/crates/mr-core/src/firmware/slots.rs:131-157 | an activation is accepted if and only if no installation is under way and the version has a slot and is current, or goes after the minimum and the current version while the two pointers differ and a pending version has its slot; and what it leaves |
| `SlotRuns.StagingAccepted` | rust/crates/mr-core/src/firmware/slots.rs:83-111 | a staging is accepted if and only if no installation is under way and a release without a slot goes after the minimum and the current version |
| `SlotRuns.RollbackReaches` | rust/crates/mr-core/src/firmware/slots.rs:159-182 | a rollback exchanges the slots, drops what was pending and records a minimum below neither the current version nor the minimum before |
| `SlotRuns.InstallationAccepted` | rust/crates/mr-core/src/firmware/slots.rs:451-512 | an installation is announced and its baseline installed if and only if the proposed minimum is none or a release, below nothing that is installed |
| `SlotRuns.BaselineRefuses` | rust/crates/mr-core/src/firmware/slots.rs:52-182 | a baseline installed without a minimum refuses every staging, every other activation and every rollback |
| `SlotRuns.JournalTrusted` | rust/crates/mr-core/src/firmware/slots.rs:275-331 | a journal is trusted if and only if both its states can be there, the later one has nothing pending and upholds the floor, and the move is an installation, an activation of a later version or a rollback |
| `SlotRuns.ReadIff` | rust/crates/mr-core/src/firmware/slots.rs:184-331 | for every disk, sound or not, exactly which state it reads as |
| `SlotRuns.StrandedPending` | rust/crates/mr-core/src/firmware/slots.rs:131-182 | a pending version without a slot shuts out every rollback and every other activation |
| `SlotRuns.StagingStrands` | rust/crates/mr-core/src/firmware/slots.rs:112-129 | the writes of a staging reach a readable disk whose pending version has no slot |
| `Update.VerifyLayout` | rust/src/bin/router-update.rs:75-130 | passes exactly when every integration file is there, regular, with the same content and the right mode, and the lease directory is safe |
| `Update.CompatibleSlotsAgree` | rust/src/bin/router-update.rs:75-130 | two slots that pass agree byte for byte on every integration file |
| `Update.Updater.EnsureDispatcherLinks` | rust/src/bin/router-update.rs:94-116 | success leaves every dispatcher link right, and no other path is touched |
| `Update.Updater.RestartPair` | rust/src/bin/router-update.rs:155-161 | at every step the services never run from different slots; success means that both were stopped, started from the current slot and found running, and comes if and only if no service command fails |
| `Update.Updater.ActivateAndRestart` | rust/src/bin/router-update.rs:163-177 | no mixed slots at any step; refused if and only if a check fails or a link cannot be set; not activated only if the slot manager refuses or a write fails; success runs the new slot and, if no write fails, comes if and only if no service command does; an automatic rollback restores the old pointer if and only if the version was not current; a failed rollback means a second failure |
| `Update.Updater.AutomaticRollback` | rust/src/bin/router-update.rs:168-176 | after a failed restart the rollback succeeds if and only if it is acceptable, no write fails and the second restart works; then both services run from the slot rolled back to |
| `Update.Updater.RollbackAndRestart` | rust/src/bin/router-update.rs:179-187 | refused exactly without a compatible previous slot; success runs both services from it and, if no write fails, comes if and only if the rollback is acceptable and no service command fails |
| `Update.RollbackStaysOpen` | rust/src/bin/router-update.rs:163-187 | after a successful activation rollback passes its layout check and returns to the earlier slot |
| `Update.ReactivationRollsPast` | rust/src/bin/router-update.rs:163-177 | activating the current version makes a failed restart roll back to a different slot |
| `Update.InspectionKeepsFloor` | rust/src/bin/router-update.rs:191-251 | the minimum an inspection returns is never below the floor, for signed and unsigned trees, and both installer commands accept it exactly when it is a release or empty |
| `Update.InspectionExact` | rust/src/bin/router-update.rs:191-251 | a tree is installable if and only if it has neither key nor manifest, and then keeps the higher of minimum and current version; or is validly signed with a version not below that, or not below the VERSION file of a baseline without a minimum |
| `Helper.Helper.ApplyAll` | rust/crates/mr-applyd/src/applyd/mod.rs:74-178 | the outcome and what runs afterwards are exact by how each step goes: verified if and only if every step succeeds, and then active and recorded as pending or as last-good; refused changes nothing; a candidate that does not run, verify or get recorded is rolled back if and only if the restoration succeeds, and then the last-good configuration runs; a provisional apply never touches the last-good record |
| `Helper.FailedCandidateRestored` | rust/crates/mr-applyd/src/applyd/mod.rs:74-178 | a failed candidate with a working restoration ends rolled back on the last-good configuration; broken only if a record was unreadable, the restoration failed or the pending record could not be cleared |
| `Helper.Helper.CommitConfirmedApply` | rust/crates/mr-applyd/src/applyd/mod.rs:227-258 | adopts only the awaited configuration and only while it is active |
| `Helper.Helper.Boot` | rust/crates/mr-applyd/src/applyd/startup.rs:71-104 | a helper that starts runs its last-good configuration with nothing pending and remembers nothing, or does not serve; the record on disk stays |
| `Helper.Helper.Handle` | rust/crates/mr-applyd/src/applyd/mod.rs:260-343 | a verified answer is settled if and only if it is no provisional apply or the process that executed it serves; when a request is executed, and what each death or failed write leaves in memory and on disk; an execution answered as broken or cut short blocks every other id |
| `Helper.AnsweredAfterDeath` | rust/crates/mr-applyd/src/applyd/mod.rs:308-343 | a verified answer that was recorded and not sent is repeated by the restarted helper, and holds if and only if the request was no provisional apply |
| `Helper.DeliverTwice` | rust/crates/mr-applyd/src/applyd/state.rs:74-107 | a repeated request is executed again if and only if it is a reconciliation, the helper died after executing it and its record cannot be read |
| `Helper.Ask` | rust/crates/mr-services/src/apply/engine.rs:192-217 | whatever is lost and whenever the helper dies between two attempts, the request is sent at most twice and executed at most once (a reconciliation at most once per attempt), and an answer means what one delivery means; an unresolved record lets nothing through but a reconciliation, and under a new id that is the only obstacle when nothing goes wrong; then outcome and runtime are those of the execution |
| `Engine.Engine.constructor` | rust/crates/mr-services/src/apply/engine.rs:169-185 | starts from one stored configuration |
| `Engine.Engine.Save` | rust/crates/mr-config/src/config/store.rs:195-225 | stores only the next revision and keeps the newest 100; a refusal stores nothing; a store that accepts stores exactly the next revision; what is kept stays a chain of admitted changes |
| `Engine.Engine.Process` | rust/crates/mr-services/src/apply/engine.rs:242-486 | a stale, blocked or refused request changes nothing; committed means no confirmation was required and it is stored, running and one revision on; awaiting confirmation means one was required, and it runs and is awaited if the helper process that applied it still serves, and otherwise the canonical configuration runs; when nothing goes wrong with the messages and nothing blocks it, the end is exact by how the helper's steps and the store go; the history gains at most that one configuration |
| `Engine.Engine.ApplyChange` | rust/crates/mr-services/src/apply/engine.rs:361-484 | an admitted change that needs confirmation awaits it and any other is committed, if the helper verifies it and the store accepts; what the helper rolled back, refused or lost ends restored, rejected or in recovery |
| `Engine.Engine.CommitActive` | rust/crates/mr-services/src/apply/engine.rs:428-485 | a store that refuses brings the previous configuration back or demands recovery; with a cooperative helper the change is committed if the store accepts and taken back if it refuses |
| `Engine.Engine.Confirm` | rust/crates/mr-services/src/apply/engine.rs:493-563 | success makes exactly the pending candidate canonical, stored and running; a wrong id or a tunnel that is down changes nothing; the candidate is stored if and only if the store accepts; with a cooperative helper that runs the candidate, a stored confirmation succeeds if and only if no helper transaction blocks it |
| `Engine.Engine.Finalize` | rust/crates/mr-services/src/apply/engine.rs:565-641 | clears recovery only when the candidate is verified active; success means that the commit was verified last, or after a LAN change the reconciliation behind it; the same equivalence, with or without a LAN change |
| `Engine.Engine.Expire` | rust/crates/mr-services/src/apply/engine.rs:643-707 | restores the previous configuration, or counts one attempt, or after five gives up into recovery; never touches a committed change; with a cooperative helper it restores if and only if no helper transaction blocks it; an attempt executed and answered as broken by one process blocks every other |
| `Engine.Engine.Retry` | rust/crates/mr-services/src/apply/engine.rs:643-707 | from an unresolved record on disk, any number of retries executes nothing, restores nothing, counts the attempts and demands recovery past the fifth |
| `Engine.Engine.ServeBlocked` | rust/crates/mr-services/src/apply/engine.rs:242-707 | no run of changes, confirmations, deadlines and helper restarts gets past an unresolved record |
| `Engine.RollbackStuck` | rust/crates/mr-services/src/apply/engine.rs:643-707 | a run from the start of both processes: a change awaits confirmation, the first rollback's answer cannot be recorded, and the retry under a cooperative helper does not restore |
| `Engine.Engine.Reconciled` | rust/crates/mr-services/src/apply/engine.rs:709-755 | success leaves the runtime, the fallback and the store equal and nothing pending; a cooperative helper always grants it under a new id; an executed one succeeds if and only if its steps do |
| `Engine.Engine.Bypass` | rust/crates/mr-services/src/apply/engine.rs:786-849 | a measurement ends with the canonical runtime restored or recovery demanded; without traffic shaping the helper is not asked; a cooperative helper restores even after a blocked bypass, and the measurement succeeds if and only if nothing blocks it |
| `Engine.Engine.Restart` | rust/src/bin/routerd.rs:535-544 | from any memory and runtime state, a new process serves only the stored configuration it has reconciled |
| `Engine.Engine.Serve` | rust/crates/mr-services/src/apply/engine.rs:242-755 | over every run of commands and helper restarts the engine stays valid, the newest revision never goes back, and the kept configurations are the newest of one history of admitted changes that is only extended |
| `Engine.RevisionsCount` | rust/crates/mr-config/src/config/store.rs:195-225 | two stored configurations differ in revision by exactly the number of commits between them |
| `Startup.Supervisor.StartServices` | packaging/alpine/router-applyd.initd:107-142 | a helper that has come up publishes the hash of its last-good configuration; the old hash and marker go |
| `Startup.Supervisor.RuntimeVerified` | rust/src/bin/routerd.rs:62-95 | passes if and only if this start creates the marker and the hash is in a regular file that neither group nor others can write, at most a minute old and five seconds ahead, and equals the digest of the loaded configuration; then that is what the helper falls back to and runs, if it executed nothing since |
| `Startup.Supervisor.Start` | rust/src/bin/routerd.rs:535-605 | a start that becomes ready with an administrator has reconciled the stored configuration, or skips and is right if the helper executed nothing since its start; with a listener and a cooperative helper every start becomes ready |
| `Startup.Supervisor.Respawn` | rust/src/bin/routerd.rs:62-95 | over any number of respawns at most one start skips reconciliation, and every ready start is right if no start fails to create a missing marker |
| `Startup.UncreatedMarker` | rust/src/bin/routerd.rs:62-95 | a run in which a start that could not create the marker fails to reconcile and the next one skips over a mixture |
| `Editing.SectionEditor.Effect` | web/src/components/NetworkPage.tsx:61-73 | the refresh effect; an edited draft survives it |
| `Editing.SectionEditor.Finish` | web/src/components/NetworkPage.tsx:87-95 | only an acknowledged section write moves the base, to the submitted draft; edits made meanwhile stay |
| `Editing.SectionEditor.Simulate` | web/src/components/NetworkPage.tsx:61-95 | over every run of the whole system the component's fields are exactly that system's editor |
| `Editing.NextKeeps` | web/src/DashboardApp.tsx:275-295 | every event of every session keeps snapshots and attempts based on real revisions and the history sequential |
| `Editing.Serializable` | web/src/DashboardApp.tsx:275-295 | in every run each committed change was computed from exactly the configuration it replaced |
| `Editing.SectionBasedOnLatest` | web/src/components/NetworkPage.tsx:81-95 | a committed section write was based on the section's value immediately before it |
| `Editing.SectionStands` | web/src/components/NetworkPage.tsx:324-335 | a section reads the same between two revisions when no change in between writes it |
| `Editing.NoLostUpdate` | web/src/components/NetworkPage.tsx:81-95 | of two consecutive commits to a section the later is based on what the earlier left |
| `Editing.EditedDraftKept` | web/src/components/NetworkPage.tsx:61-80 | only the editor's own edit or load changes an edited draft |
| `Editing.CleanEditorFollows` | web/src/components/NetworkPage.tsx:67-73 | an unedited section shows the newest configuration seen |
| `Editing.AcknowledgedDraftExact` | web/src/components/NetworkPage.tsx:67-95 | after submit, acknowledgement and refresh the draft is shown if and only if a provisional change asked for nothing new or an applied one reads back as written |
| `Editing.RouterExact` | web/src/DashboardApp.tsx:275-295 | every event commits exactly what lands: a confirmed change, or a delivered one that is not risky and was computed from the newest revision while nothing awaited confirmation |
| `Editing.WriteGetsThrough` | web/src/components/NetworkPage.tsx:81-95 | a section write from the newest revision is committed whatever other sessions edit, read or send meanwhile and whether or not its answer is lost, and the draft stays |
| `Sections.ResolversRoundTrip` | web/src/components/NetworkPage.tsx:331-333 | the resolver text loses nothing if and only if each resolver is non-empty, trimmed and comma-free |
| `Sections.SectionsIndependent` | web/src/components/NetworkPage.tsx:324-335 | saving one section leaves every other section's value unchanged |
| `Sections.SectionFrame` | web/src/components/NetworkPage.tsx:406-726 | a section save touches no rule, lease or other field |
| `Sections.SaveReadsBack` | web/src/components/NetworkPage.tsx:406-726 | a saved section reads back as its draft if and only if the LAN keeps its prefix, the resolver text is a printed list of clean resolvers and no password is given |
| `Sections.LanSaved` | web/src/components/NetworkPage.tsx:404-412 | a LAN save writes the draft with the prefix that the router already has |
| `Sections.UnspacedReadsBackSpaced` | web/src/components/NetworkPage.tsx:555-561 | two resolvers typed without a space come back with one |
| `Sections.SavingUnchanged` | web/src/components/NetworkPage.tsx:406-726 | exactly when saving a section as it reads changes nothing |
| `Sections.CommitsChain` | web/src/components/NetworkPage.tsx:406-726 | of two commits to a section with nothing in between that changes it, the base is the earlier draft if and only if that draft reads back |
| `Sections.MixedCommitsChain` | web/src/components/NetworkPage.tsx:406-726 | the same for logs of saves and rule changes of every kind, with the condition spelled out |
| `Sections.PasswordChangeUnseen` | web/src/components/NetworkPage.tsx:334-334 | a concurrent password change is never noticed and survives exactly when the draft does not set another |
| `Sections.RuleEditExact` | web/src/components/FirewallRulesEditor.tsx:200-238 | a committed rule edit found the rule that was opened, and changed it alone if and only if every other rule of its id agreed with the candidate |
| `Sections.SharedIdOverwrites` | web/src/components/FirewallRulesEditor.tsx:220-228 | with two rules of one id the edit overwrites both |
| `Sections.TogglesCancel` | web/src/components/FirewallRulesEditor.tsx:239-245 | a toggle turns exactly the rules of its id on or off; toggles are involutions and commute |
| `Sections.RemovalExact` | web/src/components/FirewallRulesEditor.tsx:246-252 | a removal leaves exactly the rules of other ids, each as it was and in order |
| `Sections.RulesLeaveSections` | web/src/components/FirewallRulesEditor.tsx:217-252 | rule changes leave every network section unchanged |
| `Percent.QueryEscape` | rust/src/bin/minimalrouter-mcp.rs:308-318 | the loop computes the query encoding of every byte string |
| `Percent.PathEscape` | rust/src/bin/minimalrouter-mcp.rs:321-331 | the loop computes the path encoding of every byte string |
| `Percent.UnescapeEscape` | rust/src/bin/minimalrouter-mcp.rs:308-331 | decoding returns the original bytes for any encoder that escapes the percent sign |
| `Percent.PathSegment` | rust/src/bin/minimalrouter-mcp.rs:321-331 | an escaped identifier is exactly one part between slashes |
| `Percent.PathSegmentEnds` | rust/src/bin/minimalrouter-mcp.rs:321-331 | it never holds a slash and never starts a query or a fragment |
| `Percent.PathRoundTrip` | rust/src/bin/minimalrouter-mcp.rs:321-331 | it decodes to the identifier |
| `Percent.PathAlphabet` | rust/src/bin/minimalrouter-mcp.rs:321-331 | an escaped identifier has only letters, digits, the twelve kept characters and percent signs, and is unchanged if and only if the identifier has no others |
| `Percent.QueryAlphabet` | rust/src/bin/minimalrouter-mcp.rs:308-318 | the same for a query, with four characters kept and a plus for every space |
| `Percent.DotSegmentsPass` | rust/src/bin/minimalrouter-mcp.rs:321-331 | only the identifiers "." and ".." print as dot segments |
| `Percent.QueryEncode` | rust/src/bin/minimalrouter-mcp.rs:334-349 | the loop prints the fields in ascending order of their keys |
| `Percent.QueryRoundTrip` | rust/src/bin/minimalrouter-mcp.rs:334-349 | decoding an encoded query returns exactly the original map |
| `Cookies.CookieJar.Remember` | rust/src/bin/minimalrouter-mcp.rs:426-437 | the jar after a response, and that it stays printable |
| `Cookies.CookieJar.CookieHeader` | rust/src/bin/minimalrouter-mcp.rs:439-449 | prints the cookies in ascending order |
| `Cookies.RememberedAllOk` | rust/src/bin/minimalrouter-mcp.rs:426-437 | whatever responses arrive, names hold no `;` or `=`, values no `;`, and both are trimmed |
| `Cookies.JarExact` | rust/src/bin/minimalrouter-mcp.rs:426-437 | after any responses the jar holds a cookie if and only if the last header about its name stored it: a value that is not empty and no part that is max-age=0 in any case |
| `Cookies.HeaderRoundTrip` | rust/src/bin/minimalrouter-mcp.rs:426-449 | after any responses, reading the header gives back exactly the jar |
| `Bridge.Bridge.CallApi` | rust/src/bin/minimalrouter-mcp.rs:592-609 | one request; a sign-in if and only if it is answered with 401 or 403 and no single-use code is set; the same request once more if and only if that works; success if and only if the last thing sent is a request answered with 2xx |
| `Bridge.Bridge.Execute` | rust/src/bin/minimalrouter-mcp.rs:612-797 | an unlisted tool, refused arguments or a bridge that never signed in send nothing; a read tool makes one GET exchange of its own route, an admin tool its own; success if and only if the last request succeeds, for a change the write |
| `Bridge.ReadToolsAreGets` | rust/src/bin/minimalrouter-mcp.rs:71-797 | a tool is listed in read-only mode if and only if its handler is one GET |
| `Bridge.IdentifierIsOneSegment` | rust/src/bin/minimalrouter-mcp.rs:708-796 | an identifier stays one segment of its request path, decodes to itself, and is a dot segment only if it is one |
| `Bridge.ParametersDecode` | rust/src/bin/minimalrouter-mcp.rs:612-618 | parameters leave the path alone and decode to what the tool was given |
| `Bridge.Bridge.ConfigureDns` | rust/src/bin/minimalrouter-mcp.rs:762-775 | reads, previews and writes: a preview only after a successful read, a write if and only if the preview succeeded, success if and only if the write did |
| `Bridge.Bridge.Serve` | rust/src/bin/minimalrouter-mcp.rs:620-797 | over every run: sign-ins only after refusals, writes only after previews, and only GET in read-only mode |
| `Bridge.Append` | rust/src/bin/minimalrouter-mcp.rs:592-609 | appending any admissible exchange keeps every promise about the whole trace |
| `Bridge.ReadToolsDoNotMutate` | rust/src/bin/minimalrouter-mcp.rs:71-305 | no tool listed in read-only mode is a mutation tool |
| `Certificates.CertificateCacheKey` | rust/src/bin/routerd.rs:252-270 | the loops build the bar-joined key |
| `Certificates.KeyExact` | rust/src/bin/routerd.rs:252-270 | keys agree if and only if the addresses, flag, host name and extra names agree |
| `Certificates.KeyForgetsKind` | rust/src/bin/routerd.rs:261-268 | an extra address and an extra name with the same text give the same key |
| `Certificates.KeyFixesCover` | rust/crates/mr-config/src/tlsutil.rs:117-145 | inputs with one key are covered by the same certificates, whichever list an extra name stands in |
| `Certificates.CoversCanonical` | rust/crates/mr-config/src/tlsutil.rs:117-168 | a certificate with a pending change's names covers the router without them |
| `Certificates.MadeCovers` | rust/crates/mr-config/src/tlsutil.rs:117-234 | for validated inputs a new certificate covers them if and only if no host name reads as an address that is not the router's |
| `CertificateNames.CoversIff` | rust/crates/mr-config/src/tlsutil.rs:100-145 | a certificate covers a router if and only if the LAN address and, if the tunnel is on, the tunnel address read as addresses, the router has a name, and every address and name asked for is carried: names without a final dot, in lower case, a star for one label |
| `CertificateNames.SansIff` | rust/crates/mr-config/src/tlsutil.rs:183-225 | a new certificate carries exactly loopback, every address asked for, localhost, the router's name and the pending names |
| `CertificateNames.TrimStripped` | rust/crates/mr-config/src/tlsutil.rs:45-66 | trimming removes white space at both ends and nothing else |
| `CertificateCache.HitCovers` | rust/src/bin/routerd.rs:580-596 | in every run a hit serves a certificate that covers the inputs if and only if it covers what the newest refresh asked for |
| `CertificateCache.HitExact` | rust/src/bin/routerd.rs:580-596 | and that is if and only if the certificate loaded last, new or taken from disk, covers what the newest refresh asked for; it is valid if and only if that one is |
| `CertificateCache.HitLasts` | rust/src/bin/routerd.rs:580-596 | a hit lasts until thirty days before the certificate expires, and no longer |
| `CertificateCache.HitBeforeLoad` | rust/src/bin/routerd.rs:580-596 | before any install loads, if and only if routerd's first certificate covers what the newest refresh asked for, and is still valid |
| `CertificateCache.HitAtStart` | rust/src/bin/routerd.rs:573-596 | before anything is returned, if and only if it covers the inputs it was set up for; and it is valid |
| `CertificateCache.OrderlyHits` | rust/src/bin/routerd.rs:580-596 | when handshakes install in turn, every hit serves a valid certificate, and one that covers the inputs if and only if no host name asked for reads as a foreign address or the pair was used again |
| `CertificateCache.FailedLoadSticks` | rust/crates/mr-config/src/httpd/server.rs:625-635 | after a pair that does not load, the next handshake hits and serves the old certificate |
| `CertificateCache.LapsedServed` | rust/crates/mr-config/src/httpd/server.rs:625-635 | a renewal that does not load leaves a lapsed certificate behind a hit |
| `CertificateCache.OvertakenInstall` | rust/crates/mr-config/src/httpd/server.rs:625-635 | when overlapping handshakes install in the wrong order the cache describes the second, and what is served covers it if and only if the first one's certificate does |
| `CertificateCache.MovedLanOvertaken` | rust/crates/mr-config/src/httpd/server.rs:625-635 | a new certificate for one LAN address installed late is served although it does not cover the newer one |
| `CertificateCache.AddressNamedHost` | rust/crates/mr-config/src/tlsutil.rs:159-234 | a host name that reads as a foreign address is served a new certificate that does not cover it |
| `CertificateCache.DroppedChange` | rust/crates/mr-config/src/tlsutil.rs:159-168 | after a change is dropped the same pair is returned for the canonical inputs, and a hit is right without any install |
| `CertificateCache.FailedRefreshRetried` | rust/src/bin/routerd.rs:588-593 | after any miss and any run that returns nothing, later handshakes miss again, except if the cached certificate has only just become valid |
| `CertificateCache.RetryServes` | rust/src/bin/routerd.rs:588-595 | the first later handshake that finds or makes a pair serves it: one that covers the inputs or was made for them |
| `Devices.NextKeeps` | web/src/components/NetworkDevices.tsx:47-95 | every event keeps the shown list at least as new as the last confirmed action |
| `Devices.ActionNotOverwritten` | web/src/components/NetworkDevices.tsx:47-201 | in every interleaving no poll begun before a successful action's answer replaces its pause list |
| `Devices.ShownExact` | web/src/components/NetworkDevices.tsx:47-201 | in every run the list on show is that of the last event that showed one: a successful action with a usable answer, or a usable poll since whose start no action started or succeeded and nothing was reloaded |
| `Devices.NothingShown` | web/src/components/NetworkDevices.tsx:47-201 | nothing is on show if and only if no such event has happened |
| `Devices.PagesShowAll` | web/src/components/NetworkDevices.tsx:157-158 | the pages show every row exactly once, in order, 25 to a page but the last |
| `Differences.ChangedPaths` | scripts/gh-lab/scenarios.py:110-128 | the recursion reports exactly the specified places in order |
| `Differences.ReportedSuffices` | scripts/gh-lab/scenarios.py:110-128 | taking over only the reported places yields the other document |
| `Differences.ReportedDiffers` | scripts/gh-lab/scenarios.py:110-128 | every reported place really differs |
| `Differences.ReportedApart` | scripts/gh-lab/scenarios.py:110-128 | no reported place lies at or below another |
| `Differences.ReportedNeeded` | scripts/gh-lab/scenarios.py:110-128 | taking over any choice of the other places never yields the other document |
| `Differences.EmptyIffEqual` | scripts/gh-lab/scenarios.py:110-128 | nothing is reported if and only if the documents are equal, types included |
| `Differences.ReportSymmetric` | scripts/gh-lab/scenarios.py:110-128 | the report is the same in both directions |
| `Differences.RequireUnchanged` | scripts/gh-lab/scenarios.py:131-134 | raises exactly when the documents differ |
| `Mutations.WalkExact` | scripts/gh-lab/fuzz.py:80-87 | the walk yields exactly the existing locations, each once |
| `Mutations.AssignFrame` | scripts/gh-lab/fuzz.py:90-94 | assigning at an existing location puts the value there and changes no location apart from it |
| `Mutations.EditExact` | scripts/gh-lab/fuzz.py:90-126 | what every edit at an existing location makes of the document: assignment, removal of a key or an item, insertion of a key beside it |
| `Mutations.Mutate` | scripts/gh-lab/fuzz.py:107-128 | the loop applies the choices in order, skipping those that raise |
| `Mutations.ProtectedUntouched` | scripts/gh-lab/fuzz.py:107-128 | for all configurations and choices the protected top-level fields are unchanged |
| `Contracts.MakePool` | scripts/gh-lab/contracts.py:113-129 | the nested loops visit every route before the next variant |
| `Contracts.VisitsExact` | scripts/gh-lab/contracts.py:113-150 | how often the first n cases of a pool visit a route |
| `Contracts.CoverageEven` | scripts/gh-lab/contracts.py:113-150 | each route is covered the floor or the ceiling of n over the routes |
| `Contracts.Execute` | scripts/gh-lab/contracts.py:290-340 | results are a prefix with at most one failure, the counts add up, and exit 0 if and only if preflight, every case, every checkpoint and the final state hold |

## Left out

- The text of reports, audit entries, JSON layout, SHA-256 digests and HTTP bodies: values are compared instead.
- NaN readings in JSON, and the sign of a zero, which the comparison of printed texts would see: numbers are integers and reals.
- Letters outside ASCII in host names: validation refuses them.
- Which IPv4 addresses are global: a parameter of `DnsMessage.Answer`.
- Signature checks, payload inventory and file copying of the updater, and `sync_installed_integration`: a tree is signed and valid, signed and invalid, or unsigned.
- Pending subject names of a certificate (`pending_sans`): they are an input of the key and of the certificate.
- Validation and transition safety of configurations in the engine: one predicate, `admit`.
- WireGuard handshake freshness during confirmation: the parameter `tunnelUp`.
- Argument checks of the bridge's tools: each call says whether they pass.
- Initial setup with its own commit callback, snapshots and backup restore.
- The device panel's row merge, filters and sorting, and all rendering.
- `nodes` and `wrong_types` of the contract suite, its headers and markers: a case passes or not.
- Python object sharing between fuzzer constants, and integer dictionary keys other than by their JSON text.
- Distinctness of names in the contract catalogue and its 3,000-case limit.
- Engine.Engine.Save: a database error reported after a durable commit is not modelled, because the store offers a transaction.
- Differences.ChangedPaths: places are lists of keys and indices, because the printed form of two different places can coincide when a key holds a dot or a bracket.
- Editing.NextKeeps: a page's sections each keep their own snapshot; sharing one is the case in which all of them receive the same answers.
- Bridge.Bridge.Execute: request bodies, argument checks and the text returned to the caller are not modelled.
- Helper.Helper.ApplyAll: the first run without a last-good record is not modelled.
- Helper.Ask: a refused reconciliation is not promised to have changed nothing, because it may have been executed by an earlier attempt (`DeliverTwice`).
- Startup.Supervisor.Start: configurations applied before an administrator exists are not modelled, because the initial setup is not.
