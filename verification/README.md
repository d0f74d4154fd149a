# Verified model of the Hart Software Services boot path

The Hart Software Services are the first-stage bootloader of a RISC-V system: one monitor hart (E51)
loads an image and starts four application harts (U54). This project models the parts of it whose
behaviour is hard to see from the code, and proves what they do for all inputs, all runs and all
interleavings.

| files | what they model |
|---|---|
| `BootSpec`, `BootImage`, `MemoryOps`, `Wrappers` | the four boot state machines: one call of the engine on one machine as a function, the memory writes it makes, the messages it sends; runs as any sequence of calls and restart requests |
| `BootProtocol`, `BootRuns`, `BootLayout`, `BootScript`, `BootPadding` | the invariant of every run, what memory holds after a download in any interleaving, and whether the hart may write all that its download writes |
| `BootCauses`, `BootStart`, `BootAncillary`, `BootProgress`, `BootAcks` | what an action must meet to cause an event, when start messages are sent, to whom and with what address, after how many calls, and what BOOT_WAIT waits for |
| `BootArrival`, `BootHolds`, `BootCompletion`, `BootReports` | where each attempt ends and after how many calls, what holds a machine up, when the service is done, and when it may say so |
| `BootInterleave`, `BootEngine`, `BootCustom` | independence of the interleaving, the engine's guarantee for these machines, agreement with the blocking boot |
| `BootService`, `BootRestart` | the same machines, the superloop and the restart requests as objects updated in place, each method proved to do what `BootSpec` says |
| `StateMachine` | the superloop engine for arbitrary hooks |
| `Crc32`, `Crc32Burst`, `HeaderCrc`, `Crc16`, `ShiftRegister` | checksums, what they detect, and the image header check |
| `Gpt`, `GptFormat`, `GptLayout`, `Search` | GUID partition tables |
| `MemTest`, `MemTestAddress` | the memory tester on memory with an arbitrary decode map and arbitrary stuck bits |
| `Pmp` | memory protection entries: NAPOT decoding and permission lookup |
| `HealthMonitor` | the health monitor's rate limit, and whether each report is news |

U54 harts are numbered from 0; hart `h` is `HSSHartId` `h + 1`. A message index is `None` where the
code has `IPI_MAX_NUM_OUTSTANDING_COMPLETES`. What lies outside the modelled code (triggers, timers,
which messages have completed, register values, clock readings, whether a sector can be read) is an
input of each call.

## What the proofs found

- **A restart can make a hart start without a boot.** A machine that has decided to leave
  BOOT_OPENSBI_INIT sends to itself only when it is next run. A restart in between moves it to
  BOOT_INITIALIZATION, and the next call still runs the old state's onExit, so a start message goes out
  at the beginning of the new attempt. `BootStart.JustifiedIffNotCaught` and
  `BootStart.EvidentIffNotCaught` show this is the only way to an unjustified start message, and
  `BootStart.EarnedIffNotCaught` the only way to one without memory, startup and PMP answer behind it;
  `BootProgress.UnjustifiedRun` gives such a run for every hart that boots by itself. A caller can tell
  before restarting: `BootStart.Leaving`.
- **BOOT_WAIT waits for one peer.** Of all outstanding peers, `check_for_ipi_acks` keeps the verdict of the
  last one; `BootAcks.CompletesEarly` says exactly when it leaves others outstanding.
  `BootAcks.CompletesEarlyIffShared` says for which harts that can happen at all: those that boot by
  themselves and share their entry point with another hart. `BootAcks.UnansweredRun` is such a run.
- **One hart can keep the boot from being reported.** A hart that boots by itself with chunks to download but
  no entry point stays in BOOT_OPENSBI_INIT for good. By `BootArrival.AllArrive` a boot that nothing holds up is
  reported if and only if there is no such hart; `BootArrival.Arrives` gives the number of calls of each other.
- **Being done may refer to an earlier boot.** The flags that BOOT_COMPLETE raises are never lowered
  (`BootCompletion.DoneAfterAll`). `BootReports.CurrentIffNotPremature` says exactly when every report that
  booting is done speaks of the attempts under way, and `BootReports.PrematureRun` is a run in which one
  hart reports while the others have only just been restarted. A caller can tell before restarting: the
  hart's flag is up.
- **Partition entries must not straddle sectors.** The branch that reads a second sector never runs;
  `GptLayout.SumsTheTableIffNoStraddle` shows that the array checksum is right for every disk exactly
  when no entry straddles, and `GptLayout.LargeEntriesMissed` that 1024-byte entries on 512-byte sectors do.
- **The address bus test has one blind spot.** `MemTestAddress.TestAddressBus` says exactly which faults it
  passes: aliased addresses whose shared cell is stuck at the test pattern (`MemTestAddress.AliasPasses`).
  Together with the other two tests nothing is missed (`MemTestAddress.TestDDR`).
- **A header change is detected unless it lies in the signature** (`HeaderCrc.WindowChange`); the signature is
  blanked before summing.
- **The protection lookup passes over entries that touch a region.** It settles on the first entry that
  holds the whole region with a byte to spare (`Pmp.HoldsIs`), whereas the architecture lets the
  lowest-numbered entry that matches a byte decide about it. By `Pmp.WholePage` the whole of a read-only
  page may be written and not read, and by `Pmp.PagePassedOver` so may a region that begins with the page
  and goes on behind it. `Pmp.WriteRightIff`, `Pmp.ReadRightIff` and `Pmp.RightIffUnhindered` say for which
  tables and regions the lookups are right whatever the permissions: for writes, and for both lookups
  together, those in which no entry before the one they settle on touches the region. `Pmp.WriteRight` and
  `Pmp.ReadRight` say when they are right for the permissions at hand.
- **The permission check does not protect what a download writes.** It covers the chunk, not its padding, and
  it lets a chunk through that no entry holds. `BootPadding.AllowedIffLeftAlone` says for which chunks a
  hart may write every byte that its download writes, whatever the permissions that let the chunk through.
  By `BootPadding.PageOverwritten` a chunk that begins with a read-only page and goes on behind it is
  downloaded over the page, and by `BootPadding.PaddingEscapes` a chunk off 256-byte boundaries is padded
  past its page. On such boundaries the padding stays inside, and only entries before the one that allowed
  the chunk matter (`BootPadding.AlignedIsAllowed`).
- **A partition can be found under a bad header.** The search overwrites the verdict on the header, and only
  the flag tells afterwards (`Gpt.Reader.FindBootSectorIndex`, `Gpt.SearchUnsigned`); with no header read, an
  array of no entries is found valid and stays so (`Gpt.SearchUnread`). Both callers ask for a good header
  first (init/hss_boot_init.c:506-514, services/tinycli/tinycli_api.c:679-685).
- **A health monitor can repeat itself.** The last reported sample is kept in 32 bits, so a constant wider one
  is reported again every period. `HealthMonitor.NewsOnlyIff` says exactly which monitors do that, and
  `HealthMonitor.NarrowNeverTruncates` that those with a 32-bit mask do not.

## Model

| member | source | states |
|---|---|---|
| BootSpec.Transition | application/hart0/hss_state_machine.c:72-92 | hooks of the boot machines never move `state` |
| BootSpec.RunMachine | application/hart0/hss_state_machine.c:50-98 | one call on one machine keeps it well shaped: table positions, states and message slots in range |
| BootSpec.Step | application/hart0/hss_state_machine.c:168-176 | calls and restarts keep all machines well shaped and memory its size |
| BootSpec.Run | application/hart0/hss_state_machine.c:168-176 | so does any sequence of them |
| BootAcks.AckLoopIs | services/boot/hss_boot_service.c:322-331 | exactly the completed peers are forgotten, and the verdict is the last outstanding peer's |
| BootAcks.NoPmpInWait | services/boot/hss_boot_service.c:332-338 | in every run, no PMP message is outstanding once a machine is past the PMP setup |
| BootAcks.WaitsForLast | services/boot/hss_boot_service.c:760-795 | in every run, a call in BOOT_WAIT without timeout completes if and only if no peer is outstanding or the last outstanding one has answered |
| BootAcks.CompletesEarly | services/boot/hss_boot_service.c:322-331 | in every run, it leaves a peer's answer outstanding if and only if that peer has not answered and a later, last outstanding one has |
| BootAcks.UnansweredRun | services/boot/hss_boot_service.c:669-795 | for every hart that boots by itself and has a peer, a run up to the sending to itself, and a last call that completes it with a message unanswered: to itself if some peer has a higher number, to a peer otherwise |
| BootAcks.CompletesEarlyIffShared | services/boot/hss_boot_service.c:669-795 | for any hart, some run completes BOOT_WAIT with a message unanswered if and only if it boots by itself and another hart has its entry point |
| BootImage.CallsAreBudget | services/boot/hss_boot_service.c:568-647 | calls to the end of the download: size/256+1 for each downloaded chunk, one for each skipped entry, one for the end |
| BootImage.AllDownloaded | services/boot/hss_boot_service.c:582-642 | no owned, writable chunk is left behind if and only if there are at most lastChunk+1 of them |
| BootLayout.LegalStaysClear | services/boot/hss_boot_service.c:279-298 | with parts placed in memory and off the image, every write stays in memory and off the image, and no copy overlaps its source |
| BootLayout.PrivateMissed | services/boot/hss_boot_service.c:279-298 | another hart's write, padding included, misses what is private to a hart |
| BootPadding.PieceIsWritten | services/boot/hss_boot_service.c:582-626 | every 256-byte piece of a downloaded chunk is written |
| BootPadding.WrittenIsWindow | services/boot/hss_boot_service.c:594-611 | what a chunk's download writes is exactly its window of 256*(size/256+1) bytes |
| BootPadding.AllowedIffLeftAlone | services/boot/hss_boot_service.c:582-626 | for every downloaded chunk: the hart may write each byte written, whatever the permissions that let the chunk through, if and only if no entry before the one that allowed it touches the padded window (no entry at all if none holds the chunk) and none after it reaches the window outside that entry |
| BootPadding.PaddingInsideIff | services/boot/hss_boot_service.c:584-600 | if an entry holds the chunk, every byte written is inside it if and only if the padded window ends inside it |
| BootPadding.AlignedIsAllowed | services/boot/hss_boot_service.c:584-600 | on 256-byte boundaries every byte written is inside the entry that holds the chunk, and the download is allowed if and only if no entry before it touches the window |
| BootPadding.PaddingEscapes | services/boot/hss_boot_service.c:584-600 | an allowed chunk whose download writes past the entry |
| BootPadding.PageOverwritten | services/boot/hss_boot_service.c:584-600 | a chunk that no entry holds, whose download writes a page that the hart may not write |
| BootLayout.PieceStep | services/boot/hss_boot_service.c:582-626 | each 256-byte step copies a piece of an owned, writable chunk and leaves the cursor on a piece boundary |
| BootScript.LoadedStep | services/boot/hss_boot_service.c:568-647 | one download call extends the loaded part by its piece and spares the hart's earlier chunks and the image |
| BootScript.ScriptBoots | services/boot/hss_boot_service.c:507-647 | from any memory with the image in place, one hart's writes load every chunk reached and zero its zero-init memory |
| BootProtocol.TransitionOk | services/boot/hss_boot_service.c:434-745 | what each state's handler finds after onExit and onEntry of every allowed transition |
| BootProtocol.HandlerKeeps | services/boot/hss_boot_service.c:348-856 | each handler keeps the attempt's order of stages, its writes so far and its messages so far |
| BootProtocol.CallKeeps | application/hart0/hss_state_machine.c:50-98 | every call keeps the invariant, whatever messages have completed and wherever the other machines are |
| BootProtocol.RestartKeeps | services/boot/hss_boot_service.c:868-895 | so does a restart in any state |
| BootProtocol.PeersAre | services/boot/hss_boot_service.c:717-731 | the peers sent to: those and only those with the same entry point, ascending, each sent GOTO if and only if its own flags say to skip OpenSBI |
| BootRuns.CallOwns | services/boot/hss_boot_service.c:568-647 | a machine writes only its own fills and its own chunks' pieces |
| BootRuns.RunKeeps | application/hart0/hss_state_machine.c:168-176 | the invariant holds in every run, with restarts anywhere, and memory is the result of the logged writes |
| BootRuns.Alone | services/boot/hss_boot_service.c:568-647 | where only one hart may write, and last wrote zero or an image byte, memory is as if that hart had run alone |
| BootRuns.DataFromImage | services/boot/hss_boot_service.c:568-647 | the last write of a download at a byte of a chunk it reaches is an image byte, although padding of earlier chunks may come first |
| BootRuns.AttemptIsLast | services/boot/hss_boot_service.c:864-900 | writes of earlier, restarted attempts precede all writes of the current one |
| BootRuns.ScriptInPlace | services/boot/hss_boot_service.c:507-647 | a finished attempt's chunks are in place whatever other harts and earlier attempts wrote |
| BootRuns.ChunksInPlace | services/boot/hss_boot_service.c:538-647 | in every interleaving a machine past its download has its chunks' image bytes in memory: all of them from firstChunk to the sentinel when at most lastChunk+1 are owned |
| BootStart.StageMeans | services/boot/hss_boot_service.c:348-647 | each stage of an attempt has its events in the log, in order, with no restart since its beginning |
| BootCauses.EventsAreCaused | services/boot/hss_boot_service.c:317-705 | in every run each log entry was written by one call of its own machine (a reset: by a restart of its hart) that met what the event needs: trained DDR, complete startup and an image for readiness, the very message answered and no timeout for the PMP setup, trained DDR for fills there |
| BootCauses.MessagesAreRight | services/boot/hss_boot_service.c:669-705 | in every run each start message goes to a hart with the sender's entry point, not zero, and is GOTO if and only if that hart's flags say to skip OpenSBI |
| BootStart.JustifiedMeans | services/boot/hss_boot_service.c:669-705 | behind a justified start message of a run: readiness logged by a call that met trained DDR and complete startup, PMP setup completed by a call at which its own message was answered, zero-init and download finished, and the chunks in memory at that moment |
| BootStart.CallJustified | services/boot/hss_boot_service.c:669-750 | a machine not caught by a late restart sends justified start messages only |
| BootStart.HangingUnjustified | services/boot/hss_boot_service.c:737-750 | a caught machine sends an unjustified one at its next call |
| BootStart.HangingIffPending | services/boot/hss_boot_service.c:864-900 | a machine is caught if and only if a restart hit it while leaving BOOT_OPENSBI_INIT and it has not run since |
| BootStart.JustifiedIffNotCaught | services/boot/hss_boot_service.c:669-900 | in every run, all start messages are justified if and only if no machine runs after such a restart |
| BootStart.StartMessagesExact | services/boot/hss_boot_service.c:711-750 | the messages of one visit: exactly one to each hart of the entry point and none to any other, peers in table order, itself last, GOTO if and only if the receiver's own flags say to skip OpenSBI |
| BootStart.VisitDelivers | services/boot/hss_boot_service.c:711-750 | in every run, a machine past BOOT_OPENSBI_INIT has sent exactly those since its download ended |
| BootStart.UnreadyMeans | services/boot/hss_boot_service.c:868-895 | after a reset no attempt has begun until memory is seen ready again |
| BootStart.EvidentIffNotCaught | services/boot/hss_boot_service.c:669-900 | in every run, every start message has a finished attempt in the log behind it if and only if no machine runs after such a restart |
| BootStart.EarnedIffNotCaught | services/boot/hss_boot_service.c:317-775 | in every run all start messages have such an attempt behind them, with what its calls met, if and only if no machine runs after a restart in that window |
| BootProgress.DownloadVisit | services/boot/hss_boot_service.c:568-647 | in any interleaving and any environment, a download visit is left for BOOT_OPENSBI_INIT at exactly its budgeted call, and executionCount counts the calls |
| BootProgress.CallCounts | services/boot/hss_boot_service.c:348-735 | an unhindered call brings an attempt exactly one call nearer its end |
| BootProgress.AttemptTakes | services/boot/hss_boot_service.c:348-735 | in any interleaving an unhindered attempt takes exactly 3 + zero-init entries + download budget + 5 calls |
| BootProgress.UnjustifiedRun | services/boot/hss_boot_service.c:864-900 | for every hart that boots by itself, a run with a start message that has no finished attempt behind it |
| BootAncillary.FirstAncillaryIs | services/boot/hss_boot_service.c:602-607 | the address kept is that of the lowest chunk reached that is the hart's own, flagged ancillary, and not at zero; zero if there is none |
| BootAncillary.MessagesCarryIt | services/boot/hss_boot_service.c:669-705 | in every run, with any restarts, every start message carries its sender's such address |
| BootCompletion.CompleteShows | services/boot/hss_boot_service.c:824-843 | BOOT_COMPLETE raises the flag on entry and goes idle if and only if all flags are up by then |
| BootCompletion.DoneAfterAll | services/boot/hss_boot_service.c:824-843 | in every run a flag is up if and only if its machine has ever completed, and none goes idle from BOOT_COMPLETE before all four have |
| BootCompletion.ReportedWhenAllUp | services/boot/hss_boot_service.c:815-843 | in every run the end of booting has been reported if and only if all four flags are up |
| BootCompletion.ReportsOnceOnly | services/boot/hss_boot_service.c:828-843 | in every run a machine reports it at most once between resets, and is idle from then on |
| BootCompletion.AwayMeans | services/boot/hss_boot_service.c:828-843 | having reported since its last reset, read off the log |
| BootArrival.CallArrives | services/boot/hss_boot_service.c:440-795 | a call that nothing holds up brings any machine, whatever its hart's flags, chunks and entry point, one call nearer its end |
| BootArrival.Arrives | services/boot/hss_boot_service.c:440-843 | in any interleaving a machine is in BOOT_COMPLETE or idle exactly from its number of calls on: 3 for a hart not to boot by itself, one for each zero-init entry and one more without chunks, its download and six more with an entry point; its flag is up from the next call on; with chunks and no entry point it is in BOOT_OPENSBI_INIT instead, for good |
| BootArrival.AllArrive | services/boot/hss_boot_service.c:440-843 | from where all machines begin, with enough calls that nothing holds up, in any order: all flags come up, and the end is reported, if and only if no hart boots by itself with chunks and no entry point |
| BootImage.DdrIs | services/ddr/ddr_api.c:175-184 | an address counts as DDR if and only if it is one of a range's bytes or the first address behind a range |
| BootHolds.WastedIffHeldUp | services/boot/hss_boot_service.c:340-843 | in every run a call moves a machine neither to another state nor further in a table if and only if it waits for memory or startup, for the PMP answer, for DDR that its own zero-init entry needs, for the last outstanding answer or for another machine's flag, or it is idle or has no entry point to start |
| BootHolds.IdleUntilRestarted | services/boot/hss_boot_service.c:172-258 | in every run a machine that no restart has reached is idle, with its flag down and nothing in the log |
| BootHolds.FailureEnds | services/boot/hss_boot_service.c:340-812 | in every run a call leads to BOOT_ERROR if and only if there is no image or the PMP setup or the final answer has timed out; after a timeout no message is outstanding; the next call leads to BOOT_COMPLETE |
| BootReports.SettledIsCurrent | services/boot/hss_boot_service.c:824-829 | a hart's current attempt has completed if and only if its last completion in the log is after its last reset |
| BootReports.StepSettles | services/boot/hss_boot_service.c:824-895 | one action: a reset begins a new attempt, entering BOOT_COMPLETE completes it and raises the flag, nothing lowers the flag |
| BootReports.CurrentIffNotPremature | services/boot/hss_boot_service.c:824-900 | in every run, all reports speak of every hart's current attempt if and only if no reset of a hart whose flag is up is followed by a report before that hart enters BOOT_COMPLETE again |
| BootReports.PrematureRun | services/boot/hss_boot_service.c:824-900 | for every board, a run with such a report |
| BootInterleave.SameWritesSameMemory | application/hart0/hss_state_machine.c:168-176 | with exclusive windows, read from the image, memory depends only on what each hart wrote, not on the order between harts |
| BootInterleave.EachAsSolo | application/hart0/hss_state_machine.c:168-176 | each machine's progress, and everything the log shows of its hart but completing and going idle, depend only on its own calls and restarts |
| BootInterleave.InterleavingDoesNotMatter | application/hart0/hss_state_machine.c:168-176 | runs with the same calls and restarts for each machine end with the same memory and the same machines, and each hart has written, requested and sent the same in the same order, up to waiting in BOOT_COMPLETE or BOOT_IDLE |
| BootEngine.EngineFollows | application/hart0/hss_state_machine.c:50-98 | every run of a boot machine is a run of the engine with quiet hooks and restarts as outside writes |
| BootEngine.BootVisits | application/hart0/hss_state_machine.c:50-98 | its hook and handler calls are complete visits but for the last, counted by executionCount |
| BootService.BootMachine.constructor | services/boot/hss_boot_service.c:172-245 | a machine as declared |
| BootService.BootMachine.RegisterHarts | services/boot/hss_boot_service.c:377-388 | all outstanding messages are forgotten |
| BootService.BootMachine.CheckForIpiAcks | services/boot/hss_boot_service.c:317-342 | the loop computes the specified verdict and leaves the specified messages |
| BootService.BootMachine.Deliver | services/boot/hss_boot_service.c:669-705 | one message to that hart, of the kind its flag selects, outstanding from then on |
| BootService.BootMachine.OnExit | services/boot/hss_boot_service.c:649-750 | the specified effect of leaving each state |
| BootService.BootMachine.OnEntry | services/boot/hss_boot_service.c:434-663 | the specified effect of entering each state |
| BootService.BootMachine.Transition | application/hart0/hss_state_machine.c:72-92 | hooks run as specified and the handler finds what it needs |
| BootService.BootMachine.InitHandler | services/boot/hss_boot_service.c:348-373 | the specified effect |
| BootService.BootMachine.SetupPmpHandler | services/boot/hss_boot_service.c:440-456 | the specified effect |
| BootService.BootMachine.SetupPmpCompleteHandler | services/boot/hss_boot_service.c:463-493 | the specified effect |
| BootService.BootMachine.ZeroInitHandler | services/boot/hss_boot_service.c:507-534 | the specified effect, and memory is exactly that of its fill |
| BootService.BootMachine.DownloadHandler | services/boot/hss_boot_service.c:568-647 | the specified effect, and memory is exactly that of its 256-byte copy |
| BootService.BootMachine.OpenSbiInitHandler | services/boot/hss_boot_service.c:711-735 | the specified effect |
| BootService.BootMachine.WaitHandler | services/boot/hss_boot_service.c:760-795 | the specified effect |
| BootService.BootMachine.CompleteHandler | services/boot/hss_boot_service.c:831-843 | idle once all four machines have completed, else unchanged |
| BootService.BootMachine.RunStateMachine | application/hart0/hss_state_machine.c:50-98 | one call in place is one call of the specification, and keeps the invariant |
| BootService.RunStateMachines | application/hart0/hss_state_machine.c:168-176 | one turn of the superloop is the run of one call of each machine in order |
| BootService.SetUp | services/boot/hss_boot_service.c:172-258 | the machines as declared make up the initial world |
| BootRestart.Left | services/boot/hss_boot_service.c:940-967 | after some turns a hart is still requested if and only if it was and the lowest requested hart of its entry point has not come up |
| BootRestart.MasksReach | services/boot/hss_boot_service.c:931-970 | no hart is in two masks; the harts reached are the entry-point classes whose lowest requested member has chunks; there is a mask if and only if some hart should be reached |
| BootRestart.BootUsingHartBitmask | services/boot/hss_boot_service.c:864-900 | one restart of the machines in the mask, true if and only if there are any |
| BootRestart.PeerMask | services/boot/hss_boot_service.c:945-957 | the mask is the hart's entry-point class |
| BootRestart.RestartCoresUsingBitmask | services/boot/hss_boot_service.c:931-970 | the restarts of exactly those masks, success if and only if some hart should be reached, nothing for an absent or invalid image |
| BootRestart.RestartCore | services/boot/hss_boot_service.c:902-929 | one hart: its class if it has chunks; all harts: every machine, with or without chunks; a request for all harts reaches every machine |
| BootCustom.FindTarget | services/boot/hss_boot_service.c:1128-1139 | the highest-numbered hart with chunks, if any |
| BootCustom.BootCustom | services/boot/hss_boot_service.c:1114-1204 | memory after the blocking loops is the result of that hart's blocking writes; unchanged and false without image or target |
| BootCustom.CustomCopiesExact | services/boot/hss_boot_service.c:1140-1188 | the blocking boot copies exactly the 256-byte pieces of the unflagged chunks from the hart's first one on that are for it and that it may write |
| BootCustom.SameScript | services/boot/hss_boot_service.c:1141-1187 | with no chunk flagged ancillary and at most lastChunk+1 owned, the blocking loops write exactly what the state machine writes |
| BootCustom.StepwiseIsBlocking | services/boot/hss_boot_service.c:507-647 | in any interleaving, with any restarts, memory that is the target's alone, and that it last writes from the image, ends as the blocking loops would leave it |
| BootCustom.BlockingFromImage | services/boot/hss_boot_service.c:1141-1187 | so are all bytes of its chunks and all memory outside their windows, and everything if even the last pieces are read from the image |
| MemoryOps.Memset | services/boot/hss_boot_service.c:290-298 | exactly the addressed bytes become zero |
| MemoryOps.Memcpy | modules/misc/hss_memcpy_via_pdma.c:86-102 | exactly the addressed bytes become the source's, for regions that do not overlap |
| StateMachine.EngineMachine.constructor | services/boot/hss_boot_service.c:188-245 | a machine starts in its initial state, with no previous one |
| StateMachine.EngineMachine.RunStateMachine | application/hart0/hss_state_machine.c:50-98 | new state, previous state, counter and timing fields, and which hooks and handler ran |
| StateMachine.ReaderDecides | application/hart0/hss_state_machine.c:72-97 | a trace consists of visits (Enter, Handle once or more, Exit; the last may be open) if and only if a one-pass reader accepts it |
| StateMachine.QuietAgrees | application/hart0/hss_state_machine.c:72-97 | as long as hooks leave `state` alone, prevState and executionCount are the open visit, whatever is written to `state` in between |
| StateMachine.TraceShape | application/hart0/hss_state_machine.c:72-97 | then every trace consists of visits and executionCount is the number of handler calls in the last |
| StateMachine.NextCallLost | application/hart0/hss_state_machine.c:72-92 | after hooks have moved `state`, the next call exits or handles a state that was never entered |
| StateMachine.ShapeIffQuiet | application/hart0/hss_state_machine.c:72-97 | all traces of a run consist of visits if and only if no call whose hooks move `state` is followed by another |
| Crc32.LookupIsFeed | modules/misc/hss_crc32.c:104-112 | one table step is eight clocks of the serial register |
| Crc32.EntryIsBuiltIn | modules/misc/hss_crc32.c:21-66 | every entry is the exclusive or of the built-in table's entries for its single bits |
| Crc32.ShiftsLinear | modules/misc/hss_crc32.c:90-97 | the shift register is linear over exclusive or |
| Crc32.ShiftInjective | modules/misc/hss_crc32.c:90-97 | and loses nothing |
| Crc32.EntryZero | modules/misc/hss_crc32.c:71-97 | the entry that the generator never writes is right as zero |
| Crc32.Unit.GenEntry | modules/misc/hss_crc32.c:91-95 | an entry is eight shifts of its index |
| Crc32.Unit.GenTable | modules/misc/hss_crc32.c:74-98 | when the 8-bit index wraps, all 256 entries are right |
| Crc32.Unit.UpdateByte | modules/misc/hss_crc32.c:104-112 | absorbs the byte's eight bits |
| Crc32.Unit.CalculateEx | modules/misc/hss_crc32.c:121-140 | for every seed and input the result is the bit-at-a-time CRC-32 |
| Crc32.Unit.Calculate | modules/misc/hss_crc32.c:114-119 | the same with seed zero |
| Crc32.CrcChains | modules/misc/hss_crc32.c:121-140 | a result used as seed continues the checksum over concatenation |
| Crc32Burst.WindowInjective | modules/misc/hss_crc32.c:104-140 | up to four bytes can be recovered from the register |
| Crc32Burst.SuffixInjective | modules/misc/hss_crc32.c:104-140 | a common suffix keeps registers apart |
| Crc32Burst.BurstDetected | modules/misc/hss_crc32.c:104-140 | messages of equal length that differ only inside four consecutive bytes have different checksums |
| Crc32Burst.Residue | modules/misc/hss_crc32.c:103-141 | every message followed by its own checksum has the checksum 0x2144DF1C |
| HeaderCrc.ValidateCrc | services/boot/hss_boot_service.c:1015-1047 | accepts if and only if the checksum over the blanked copy, of the length its version selects, is the stored one |
| HeaderCrc.AcceptsIs | services/boot/hss_boot_service.c:1015-1047 | field by field: a header is accepted if and only if its checksum is that of everything before the signature, its own field blank, followed by 64 zeros for version 0 and 144 otherwise |
| HeaderCrc.WindowChange | services/boot/hss_boot_service.c:1015-1047 | an accepted header changed inside four consecutive bytes outside version and checksum is still accepted if and only if only signature bytes changed |
| Crc16.Calculate | modules/misc/hss_crc16.c:21-40 | the bit-at-a-time CRC-16 with polynomial 0x1021 |
| Crc16.OneByte | modules/misc/hss_crc16.c:24-41 | the checksum of each single byte, from those of its bits |
| Crc16.SelfCheck | modules/misc/hss_crc16.c:21-40 | a message followed by two bytes sums to zero if and only if they are its checksum, high byte first |
| GptLayout.CodeAddress | services/boot/gpt.c:348-367 | the code's division and offset name the entry's sector and its place there |
| GptLayout.ExposedIsDiskEntry | services/boot/gpt.c:230-268 | an entry inside one sector is shown as it lies on the disk |
| GptLayout.ExposedAllIsTable | services/boot/gpt.c:450-505 | without straddling, the summed message is the contiguous array, whatever the buffer held |
| GptLayout.StraddleMissed | services/boot/gpt.c:242-261 | with one straddling entry some disk and buffer content are summed wrongly |
| GptLayout.SumsTheTableIffNoStraddle | services/boot/gpt.c:450-505 | the sum is right for all disks and buffer contents if and only if no entry straddles a sector boundary |
| GptLayout.LargeEntriesMissed | services/boot/gpt.c:242-261 | 1024-byte entries on 512-byte sectors are summed wrongly, however many there are |
| GptLayout.DividingSizes | services/boot/gpt.c:230-268 | entry sizes that divide the sector size never straddle |
| GptFormat.HeaderReadBack | services/boot/gpt.h:48-67 | every header field that is used is read back as it was written, at the place that section 5.3.2 of the UEFI Specification gives it |
| GptFormat.HeaderGoodIs | services/boot/gpt.c:154-205 | a header is good if and only if it says EFI PART, revision 1.0, own sector 1, array at sector 2, and its checksum is that of its stated size with the field blank |
| GptFormat.EntryReadBack | services/boot/gpt.h:89-100 | from any identifiers, first LBA below 2^64 and rest, an entry's first LBA is read back and it matches exactly its own identifiers |
| GptFormat.StoredEntry | services/boot/gpt.c:321-425 | so it does where it lies on the disk |
| GptFormat.BootTypeIs | services/boot/gpt.c:534-540 | the boot type's bytes are its four numbers, each least significant byte first |
| Gpt.Reader.constructor | services/boot/gpt.c:555-565 | nothing is valid yet |
| Gpt.Reader.ValidateHeader | services/boot/gpt.c:154-205 | true if and only if signature, revision, checksum, own position and array position are right; the header is left as it was |
| Gpt.Reader.ReadHeader | services/boot/gpt.c:210-225 | true if and only if the sector can be read and its header is good, also when a header was read before; the flag is raised then and never lowered |
| Gpt.Reader.ReadPartitionEntryIntoBuffer | services/boot/gpt.c:230-268 | the entry's place in the buffer, and which one or two sectors replace what was there |
| Gpt.Reader.ReadPartitionEntryByIndex | services/boot/gpt.c:348-367 | shows the entry, and its leading fields whatever its size, if and only if its sector can be read |
| Gpt.Reader.SumEntries | services/boot/gpt.c:459-490 | the rolling checksum is that of all shown entries end to end |
| Gpt.Reader.ValidatePartitionEntries | services/boot/gpt.c:450-505 | true if and only if all sectors can be read and the checksum of the shown entries is the header's; for arrays without straddling, of the contiguous array |
| Gpt.Reader.FindPartitionById | services/boot/gpt.c:372-425 | the lowest index at or after the given one whose shown fields match, or, where these fields do not straddle, whose fields on the disk do; a failed search leaves the index unchanged; sectors behind the match need not be readable |
| Gpt.Reader.FindBootSectorIndex | services/boot/gpt.c:510-550 | the same for the boot type, on arrays that check or have been found right before, whatever the header; the header is good if and only if its flag is up afterwards, provided the flag was right before |
| Gpt.SearchUnread | services/boot/gpt.c:519-527 | with no header read, on any disk: nothing is found under the header of zeros, and its array of no entries counts as valid from then on |
| Gpt.SearchUnsigned | services/boot/gpt.c:519-527 | a disk whose header is refused and whose boot partition is found |
| Gpt.EntriesHoldFields | services/boot/gpt.c:348-367 | entries of 128 bytes or more that do not straddle have fields that do not straddle |
| Gpt.Reader.SeenIsOnDisk | services/boot/gpt.c:450-550 | where no entry straddles, checking what is shown is checking the disk, and where its fields do not either, so is searching |
| Gpt.Reader.PartitionIdToLBAOffset | services/boot/gpt.c:321-343 | for indices in range the firstLBA field shown, which is that on the disk unless the fields straddle |
| Gpt.Reader.NextBootPartition | services/boot/gpt.c:510-550 | the lowest boot partition at or after an index and its firstLBA, as shown, and without straddling as on the disk |
| Gpt.Reader.ListBootPartitions | services/tinycli/tinycli_api.c:679-717 | restarting after each find lists what repeated searching finds |
| Search.AllMembers | services/boot/gpt.c:372-425 | repeated searching meets an index if and only if it matches |
| Search.AllExact | services/boot/gpt.c:372-425 | repeated searching meets every match once, in increasing order |
| MemTest.Memory.TestDataBus | modules/misc/hss_memtest.c:35-49 | passes if and only if no data line of the cell is stuck; otherwise gives the first walking-ones pattern that the cell cannot hold |
| MemTest.Memory.TestDevice | modules/misc/hss_memtest.c:141-211 | passes if and only if distinct words reach distinct cells and no reached cell has a stuck bit; a word that is reported has a stuck bit or shares its cell |
| MemTest.Memory.DevicePassed | modules/misc/hss_memtest.c:166-205 | why both kinds of fault, also combined, are caught |
| MemTest.WalkingOnes | modules/misc/hss_memtest.c:40-46 | a cell that returns all walking-ones patterns has no stuck line |
| MemTestAddress.ProbesDecide | modules/misc/hss_memtest.c:76-133 | all rounds pass if and only if the faults are undetectable |
| MemTestAddress.TestAddressBus | modules/misc/hss_memtest.c:64-139 | for any word count and any faults, passes if and only if only offset 0 is used or the faults are undetectable; otherwise reports the first offset that shows what was written to offset 0, or else the first whose own pattern shows elsewhere |
| MemTestAddress.SoundCellsExact | modules/misc/hss_memtest.c:64-139 | without stuck bits, undetectable means that used offsets are decoded apart |
| MemTestAddress.PowerOfTwoExact | modules/misc/hss_memtest.c:64-139 | for 2^k words without stuck bits, that address 0 and all powers of two in range are decoded apart |
| MemTestAddress.AliasUndetectable | modules/misc/hss_memtest.c:64-139 | two words on one cell that is stuck at the pattern are undetectable |
| MemTestAddress.AliasPasses | modules/misc/hss_memtest.c:64-139 | such a memory, and the test passing on it |
| MemTestAddress.TestDDR | modules/misc/hss_memtest.c:291-305 | the three tests together pass if and only if the range is healthy |
| Pmp.Anatomy | services/boot/hss_boot_pmp.c:138-158 | every value is its upper bits, a zero and its trailing ones |
| Pmp.AnatomyUnique | services/boot/hss_boot_pmp.c:138-158 | in one way only |
| Pmp.DecodeNapotSizeEncoding | services/boot/hss_boot_pmp.c:138-158 | size exponent and mask for every value, also beyond the mask's 63 bits |
| Pmp.Decode | services/boot/hss_boot_pmp.c:193-206 | the NA4 and NAPOT arms give the region that section 3.7.1 of the RISC-V Privileged Architecture assigns |
| Pmp.NapotRegion | services/boot/hss_boot_pmp.c:199-205 | the base is a multiple of the size and the region is exactly the addresses that agree with the value above its lowest zero bit |
| Pmp.EncodeDecode | services/boot/hss_boot_pmp.c:199-205 | encoding an aligned power-of-two region of at least 8 bytes and decoding it gives it back |
| Pmp.DecodeEncode | services/boot/hss_boot_pmp.c:199-205 | every value is the encoding of the region it decodes to |
| Pmp.EncodeFits | services/boot/hss_boot_pmp.c:199-205 | regions below 2^(n+2) have values below 2^n |
| Pmp.DecodedFits | services/boot/hss_boot_pmp.c:193-205 | decoded entries end at or below 2^57, far from the sign bit of the lookups' comparisons |
| Pmp.HoldsIs | services/boot/hss_boot_pmp.c:83-95 | the lookup's test is containment, less the regions that end with the entry |
| Pmp.UnhinderedRight | services/boot/hss_boot_pmp.c:75-131 | if no entry before the one settled on touches the region, a region is allowed if and only if each byte is, by the lowest-numbered entry that matches the byte |
| Pmp.WriteRightIff | services/boot/hss_boot_pmp.c:75-102 | the write lookup agrees with the bytes' own entries whatever the permissions if and only if no entry before the one it settles on touches the region |
| Pmp.ReadRightIff | services/boot/hss_boot_pmp.c:104-131 | the same for the read lookup where it settles on an entry; where it settles on none, if and only if the entries leave a byte of the region uncovered |
| Pmp.RightIffUnhindered | services/boot/hss_boot_pmp.c:75-131 | both lookups are right whatever the permissions if and only if no entry before the one they settle on touches the region |
| Pmp.EmptyRegion | services/boot/hss_boot_pmp.c:75-131 | for regions without bytes the write lookup is right if and only if no entry holds them, and the read lookup never whatever the permissions |
| Pmp.WriteRight | services/boot/hss_boot_pmp.c:75-102 | for the permissions at hand: right if and only if no entry that decides about a byte and comes before the one settled on says otherwise when it allows, and some deciding entry forbids when it refuses |
| Pmp.ReadRight | services/boot/hss_boot_pmp.c:104-131 | the same for the read lookup, where a byte that no entry matches forbids too |
| Pmp.WholePage | services/boot/hss_boot_pmp.c:75-131 | a read-only page that may be written as a whole, and not read |
| Pmp.PagePassedOver | services/boot/hss_boot_pmp.c:75-102 | a region that begins with a read-only page and goes on behind it may be written as well |
| Pmp.LaterEndIsHarmless | services/boot/hss_boot_pmp.c:75-102 | a later entry that ends with the region does no harm |
| Pmp.CheckWrite | services/boot/hss_boot_pmp.c:75-102 | the first active entry that holds the region decides, allowed if none does; if no entry before it touches the region, each byte is allowed by its own entry if and only if the region is |
| Pmp.CheckRead | services/boot/hss_boot_pmp.c:104-131 | the first active entry that holds the region decides, refused if none does; if no entry before it touches the region, each byte is allowed by its own entry if and only if the region is |
| HealthMonitor.Service.MonitoringHandler | services/healthmon/healthmon_service.c:101-187 | every monitor's status moves as specified by its own register and clock readings, and no other's matters |
| HealthMonitor.SampleBits | services/healthmon/healthmon_service.c:113-117 | bit i of the sample is bit i+shift of the register, as far as mask and read width let it through |
| HealthMonitor.ReportsAreSpaced | services/healthmon/healthmon_service.c:108-181 | from any status, reports are more than a throttle period apart |
| HealthMonitor.RateLimit | services/healthmon/healthmon_service.c:108-181 | over any stretch of a run, n reports take more than n-1 periods, whatever the registers do |
| HealthMonitor.CountStep | services/healthmon/healthmon_service.c:108-181 | one round keeps count*(period+1) at or below the last report's time, and that at or below the clock |
| HealthMonitor.CountBounded | services/healthmon/healthmon_service.c:108-181 | in every run count*(period+1) <= throttle_startTime <= now, and count is the number of reports |
| HealthMonitor.RepeatsAreCutOff | services/healthmon/healthmon_service.c:113-178 | in every run, a sample reported twice in a row is one of 2^32 or more |
| HealthMonitor.NewsOnlyIff | services/healthmon/healthmon_service.c:113-178 | in all runs consecutive reports carry different samples if and only if no register content that the monitor reports gives a sample of 2^32 or more, or the clock leaves no time for two reports |
| HealthMonitor.ReportedTwice | services/healthmon/healthmon_service.c:113-178 | a run with a constant register that reports the same sample twice in a row |
| HealthMonitor.TruncatesIff | services/healthmon/healthmon_service.c:113-121 | for monitors of changes and of upper thresholds there is such content if and only if the register with all bits set is |
| HealthMonitor.NarrowNeverTruncates | services/healthmon/healthmon_service.c:113-121 | there is none for masks of 32 bits and shifts by 32 or more |

## Left out

- Message queues and delivery: sending succeeds and is one event; whether a message has completed is an input.
- BootService.BootMachine.SetupPmpHandler: assumes that the PMP request is delivered, so the stale index after a failed one (services/boot/hss_boot_service.c:447-451) is not modelled.
- BootService.BootMachine.Deliver: does not model a failed delivery, nor what a message holds beyond its receiver, kind and ancillary-data address.
- BootSpec.Transition: for the same reason never moves `state`, which a failed delivery on leaving BOOT_OPENSBI_INIT would.
- BootService.BootMachine.RegisterHarts: does not model domain registration and the hart mask kept for it, whose code is not part of this model.
- The remote-processor path, which forces BOOT_OPENSBI_INIT directly (services/boot/hss_boot_service.c:1001-1009), and the jump of the custom flow (services/boot/hss_boot_service.c:1189-1201).
- The boot status registers, hart-state notes and performance counters.
- Start times of the boot machines: whether a timeout has elapsed is an input of the call; the refreshed start time of BOOT_WAIT makes its own timeout arbitrary here.
- The ancillary-data address starts at zero; the address of the QSPI boot information, which some configurations put there, is not part of this model.
- The image does not change during a run, and its tables are taken as parsed up to their zero-size sentinels; a table without sentinel, which the code would run past, is not modelled.
- Code signing and the other checks of HSS_Boot_ValidateImage besides the header checksum: whether an image is valid is an input of the restart requests.
- BootRuns.ChunksInPlace: asks that a hart's chunks belong to it alone and ascend without overlap, because later padding overwrites what lies before, and that memory exists where a last piece is read beyond the image.
- BootInterleave.InterleavingDoesNotMatter: takes BOOT_COMPLETE and BOOT_IDLE as one state, because only there do machines look at each other; and asks that last pieces are read from the image, because padding from beyond it is whatever other harts have put there.
- BootCustom.StepwiseIsBlocking: is about bytes that the hart last writes from the image, for the same reason.
- BootCustom.SameScript: is one direction only; on other images the two loops can still happen to write the same when table entries repeat.
- TOR entries and the readers of protection registers (services/boot/hss_boot_pmp.c:160-192): the table of entries is arbitrary.
- Pmp.RightIffUnhindered: is about entries and regions below 2^63, as decoded entries are; beyond that the comparisons are signed. So are the other lemmas about the lookups.
- BootPadding.AllowedIffLeftAlone: is about entries and chunks below 2^63 for the same reason.
- Gpt.Reader.ValidateHeader: asks that the header's own size stays inside the buffer, which the code does not check before it sums that many bytes.
- Gpt.Reader.ReadHeader: asks the same of the header it reads.
- Gpt.Reader.FindPartitionById: asks that sectors can be read up to the first match, as the assertion at services/boot/gpt.c:391 does.
- Gpt.Reader.ValidatePartitionEntries: asks that no entry reaches past the two-sector buffer, which the code does not check before it sums that many bytes.
- Gpt.Reader.FindBootSectorIndex: asks the same, because it may sum the entries; so do the listing and the search for the next boot partition.
- Gpt.Reader.PartitionIdToLBAOffset: asks that the sector of an existing entry can be read, as the code follows a null pointer otherwise.
- Gpt.Reader.ListBootPartitions: does not read and print the image header that each partition starts with.
- MemTestAddress.TestAddressBus: asks for at least one word; with none the address mask is all ones and the test leaves the memory it is given.
- MemTestAddress.TestDDR: asks the same.
- Memory tests interrupted from the UART, which then report success.
- HealthMonitor.RateLimit: assumes a clock that does not run backwards and stays a period below its 64-bit wrap.
- HealthMonitor.NewsOnlyIff: assumes the same clock, and registers of 64 bits.
- Debug output, progress bars, other commands of the command line, storage drivers, decompression, and the remaining services: input and output without a hard property.
