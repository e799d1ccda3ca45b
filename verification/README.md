# Verified model of the charger firmware's stateful core

The firmware of this charging station keeps several small pieces of state over unbounded runs: a
circular log file, a ring of meter values, a connector status with its transaction, a bounded list,
an energy register, a tag table, session files, a schedule timer, a checksum and a backoff. This
project models each of them in Dafny, in the imperative form of the source where the source changes
state in place, and proves what each keeps over whole runs. Run `dafny verify dfyconfig.toml`.

Every stateful component has the same three layers. A pure step function says what one call does. The
methods of a class, written with the branches and loops of the source, are proved equal to it. The
lemmas prove, by induction over arbitrary sequences of steps, what the source is for. Where a promised
property does not hold in general, a lemma states exactly when it does and another gives a concrete run
or input that breaks it.

## Components

* `Bytes`, `DiagnosticsFormat`, `DiagnosticsHistory`, `DiagnosticsLog` - the circular diagnostics log
  (main/diagnostics_log.c), down to the bytes of header, entries, dead gap and cut tail. The checksum is
  an arbitrary function. A `View` lists the retained entries and those lost; the file is proved to carry
  the view after every call, and the view to hold a suffix of everything accepted.
* `OfflineLog` - the persistent ring of 1000 slots (main/offline_log.c) with the disk after every
  single write, for crashes. `EnergyReporting` - what drains and fills it (main/sessionHandler.c:84-187).
* `OcppStatus` - connector status and transactions (main/sessionHandler.c), ticking every second against
  an arbitrary MCU and arbitrary changes by user, central system and portal in between.
* `MeterValueList` - the linked list of StopTransaction.req thinned in place (main/sessionHandler.c:883-957).
* `EnergyRegister` - the accumulated energy register (main/storage.c, main/OCMF.c, main/chargeSession.c)
  over exact energies, with restarts anywhere.
* `RfidTags` - the tag table with swap-with-last removal (main/storage.c).
* `OfflineSessions` - session files: their record grammar and first-in-first-out numbering
  (main/offlineSession.c and the send loop of main/sessionHandler.c).
* `ChargeSchedule`, `ChargeController` - the text of a schedule, and the timer that pauses, delays and
  overrides (main/chargeController.c).
* `Crc32` - the table-driven checksum of components/apollo_ota/crc32.c.
* `WarningHandler` - the backoff of main/warning_handler.c in 32-bit arithmetic.

## What did not hold

* A scheduled change to inoperative that meets a suspended transaction leaves it open, and the next
  session starts a second one on top (`OcppStatus.ScheduledOutageKeepsTransaction`,
  `OcppStatus.ScheduledOutageStartsTwice`); `OcppStatus.SoundExactly` gives the exact condition on the
  state and inputs of the second.
* A second faulting warning during a fault overwrites the status to return to: the fault then lasts as
  long as OCPP stays in control (`OcppStatus.FaultRun`, `OcppStatus.StuckExactly`;
  `OcppStatus.SecondFaultLosesReturn` is a run from boot).
* An empty message is refused after its head is written, and the offsets it moved in memory are not saved
  (`DiagnosticsLog.RefusedKeepsHeader`). A restart then still finds everything, unless the log was full,
  when it finds nothing, or the head reached into the oldest entry, when the checksum decides
  (`DiagnosticsLog.RestartAfterRefused`, `DiagnosticsLog.RestartAfterClipping`;
  `DiagnosticsLog.RefusedMessageLosesLog` is a full log of two entries).
* The comment in components/ocpp/Kconfig:113-123 says that the value taken at the stop is never dropped.
  It is dropped exactly when the lengths of the transfers say so (`MeterValueList.NewestLostExactly`): for
  transfers shorter than the maximum, when the deletion cursor meets it
  (`MeterValueList.TransferLosesLastExactly`); for values one by one, at the larger multiples of the maximum
  (`MeterValueList.SinglesLoseNewestExactly`). `MeterValueList.PairsLoseNewest` is a run of pairs.
* A log that cannot be opened is reported as empty, and the fresh sample then overtakes the queued ones
  (`EnergyReporting.OrderLostExactlyByOvertaking`; `EnergyReporting.OvertakingRun` is a run).
* A batch puts a tag into the table twice exactly when two of its tokens add the same new tag and both
  fit (`RfidTags.DuplicatesExactly`); a removal leaves one of the two (`RfidTags.DuplicateSurvivesRemoval`).
* A restart between publishing a queued sample and saving the header repeats that sample, and one while the
  fresh sample is in memory loses it: at most one for every restart (`EnergyReporting.RunPublishesInOrder`,
  `EnergyReporting.RestartRepeats`).
* A restart between the record E and the saved end time lets records follow E
  (`OfflineSessions.ResumingExactly`; `OfflineSessions.ResumesBehindFinal` is a run).
* With a start delay of zero a standalone charger is started by a paused tick
  (`ChargeController.PausedTick`; `ChargeController.StartsWhilePaused` is a schedule that does it).
* While the car has not been read after a boot, a shorter delay set meanwhile replaces the one that runs
  (`ChargeController.NoStartWithinDelay`; `ChargeController.DelayCutShort` is a run).
* A counter that restarts and passes its last reading before it is read again is taken for one that went
  on, and the register misses the energy up to that reading (`EnergyRegister.RegisterMissesUnseenRestarts`).
* The backoff product wraps to a small value after enough events, for instance 12474 of them
  (`WarningHandler.WrapsAround`).

## Model

| member | source | states |
|---|---|---|
| DiagnosticsFormat.HeaderRoundTrip | main/diagnostics_log.c:65-114 | a header written into any file is the header read back, whatever the checksum routine |
| DiagnosticsFormat.EntryRoundTrip | main/diagnostics_log.c:133-178 | reading at a place where an accepted entry was written gives that entry and ends right behind it |
| DiagnosticsHistory.MakeRoomFacts | main/diagnostics_log.c:285-313 | scanning over the oldest entries frees the bytes asked for or runs out of entries, loses only the oldest and never more than one entry too many |
| DiagnosticsHistory.PrepareFacts | main/diagnostics_log.c:267-313 | before writing, the gap or the room behind the end always fits the entry, so the offset difference never underflows |
| DiagnosticsHistory.StepKeepsHistory | main/diagnostics_log.c:214-352 | every call keeps the offsets sound, and lost plus retained entries are those accepted, in order |
| DiagnosticsHistory.RunKeepsSuffix | main/diagnostics_log.c:214-352 | after any run of writes the log holds a suffix of the accepted entries, in write order |
| DiagnosticsHistory.NewestIsRetained | main/diagnostics_log.c:214-352 | the newest accepted entry is always in the log |
| DiagnosticsHistory.RunRetains | main/diagnostics_log.c:267-313 | either nothing was lost or the retained entries fill all but two maximal entries of the log |
| DiagnosticsHistory.RefusedKeepsOffsets | main/diagnostics_log.c:267-330 | an empty message, refused after its head is written, leaves the offsets alone exactly when the head found room: the log is not full and the gap, if there is one, holds it |
| DiagnosticsHistory.RefusedMovesOnce | main/diagnostics_log.c:267-330 | once its head has made room, further empty messages move nothing |
| DiagnosticsLog.StepLayout | main/diagnostics_log.c:214-352 | the bytes after a call (with the truncation it asks for) carry exactly the entries of the next view, and the header on file describes them |
| DiagnosticsLog.RefusedKeepsHeader | main/diagnostics_log.c:285-345 | after a refused message the header on file still describes the log exactly when the head found room |
| DiagnosticsLog.RestartAfterRefused | main/diagnostics_log.c:267-330 | what publishing finds after a refused message and a restart: all that was retained while the log is not full and the head does not reach into the oldest entry, nothing at all once it is full, wrapped or not |
| DiagnosticsLog.RestartAfterClipping | main/diagnostics_log.c:285-330 | where the head does reach into the oldest entry: nothing exactly if that entry is refused, as it is without any gap; with a gap of 8 bytes or more it is refused exactly if the checksum of the altered head differs, and otherwise all is found, with a wrong time |
| DiagnosticsLog.RefusedMessageLosesLog | main/diagnostics_log.c:267-330 | a log full of two entries: publishing finds both before the empty message, and none after it and a restart |
| DiagnosticsLog.BytesTile | main/diagnostics_log.c:133-178 | reading on from the start of a run of entries gives these entries one by one and stops at its end |
| DiagnosticsLog.ScanForRoom | main/diagnostics_log.c:285-313 | the read loop stops at the first entry that leaves room, or asks for a truncation when none does |
| DiagnosticsLog.LayoutFound | main/diagnostics_log.c:477-496 | in a file that carries a view, with a header that describes it, publishing finds exactly the retained entries |
| DiagnosticsLog.PublishAll | main/diagnostics_log.c:477-490 | the loop that reads until the first refusal, on any file |
| DiagnosticsLog.PublishUpTo | main/diagnostics_log.c:490-496 | the loop that reads up to an offset, on any file |
| DiagnosticsLog.SeverityOrder | main/diagnostics_log.c:180-196 | the first byte decides: E before W before anything else before D before V |
| DiagnosticsLog.NothingUrgentFiltered | main/diagnostics_log.c:237-240 | at no level is an error dropped where anything is kept, or a warning where anything but errors is |
| DiagnosticsLog.DiagnosticsLog.WriteEntry | main/diagnostics_log.c:214-352 | an accepted message is logged with its time, its severity and as many of its bytes as an entry takes, a filtered one not at all; the file is left as the layout lemma says |
| DiagnosticsLog.DiagnosticsLog.Write | main/diagnostics_log.c:390-440 | a message is cut below the entry size and logged whole with its time unless its severity is filtered, and the file stays readable, also after the truncation; the header on file is in step afterwards: for an accepted message always, for a filtered one if it was before, for a refused one exactly when its head found room, and what a restart then finds is as said above |
| DiagnosticsLog.DiagnosticsLog.Publish | main/diagnostics_log.c:453-502 | on any file and header it publishes what these let it find; on a sound log exactly the retained entries: a suffix of all accepted ones, never empty once one was accepted |
| DiagnosticsLog.WriteThenPublish | main/diagnostics_log.c:390-502 | a message that is kept is the last one of the next publication, whole, with its time and severity |
| DiagnosticsLog.DiagnosticsLog.Restart | main/diagnostics_log.c:982-1056 | after losing the memory the header is the one on file, or that of an emptied log if it is refused; where it was in step, the log is the same again |
| DiagnosticsLog.DiagnosticsLog.Empty | main/diagnostics_log.c:356-388 | an emptied log is readable and holds nothing |
| OfflineLog.FullExactly | main/offline_log.c:196-201 | the index test for a full ring holds exactly when 999 lines are queued, the one for an empty ring exactly when none is |
| OfflineLog.AppendIsPush | main/offline_log.c:196-221 | an append adds at the back and gives up the front exactly when 999 lines are queued |
| OfflineLog.DrainPublishes | main/offline_log.c:242-313 | a drain publishes the undamaged lines in order, all of them or up to the first failing publish |
| OfflineLog.OfflineLog.AppendEnergy | main/offline_log.c:183-225 | refines the bounded queue; a crash after any single write leaves the old queue or the new one |
| OfflineLog.OfflineLog.AttemptSend | main/offline_log.c:228-313 | removes from the front exactly what was published or damaged, resets only when drained; after a crash at any point at most one published line is sent again |
| OfflineLog.OfflineLog.EnsureValidHeader | main/offline_log.c:73-108 | a damaged header starts an empty log, a sound one changes nothing |
| EnergyReporting.TimerKeepsOrder | main/sessionHandler.c:84-187 | with a log that opens, no pattern of offline periods and failing publishes breaks the sampling order |
| EnergyReporting.RestartKeepsOrder | main/sessionHandler.c:84-187 | a restart at any point of a timer event keeps the order, repeats at most one sample more, and loses at most the one in memory |
| EnergyReporting.RunPublishesInOrder | main/sessionHandler.c:84-187 | over whole runs with restarts anywhere, published then queued samples are all samples in order, repeated at most once for every restart; a lost one has 999 newer ones behind it or was cut off by a restart, one for each |
| EnergyReporting.RestartRepeats | main/offline_log.c:285-300 | a run from the start in which a restart repeats a sample |
| EnergyReporting.DrainCrashIsRestart | main/offline_log.c:228-313 | what a crash at any point of the drain leaves on disk and published is one of the restarts of the run lemma |
| EnergyReporting.AppendCrashIsRestart | main/offline_log.c:183-225 | and so is what a crash after any write of an append leaves |
| EnergyReporting.SampledExactly | main/sessionHandler.c:84-129 | over every run the samples taken are those of the events at least 31 seconds after the last one that find the car charging or a remainder to report |
| EnergyReporting.RemainderTakenOnce | main/sessionHandler.c:104-108 | after charging has ended the next such event takes exactly one sample, and events without charging take none from then on |
| EnergyReporting.TimerDelivers | main/sessionHandler.c:134-164 | what an event publishes and queues: nothing goes out offline; online the queue up to the first failure, and the sample once it is empty; otherwise the sample is queued |
| EnergyReporting.OnlineDeliversAll | main/sessionHandler.c:134-164 | online, with every publish successful, nothing stays queued |
| EnergyReporting.OrderLostExactlyByOvertaking | main/sessionHandler.c:126-164 | an event breaks the order, even with the repetitions that restarts allow, exactly when the log does not open for the drain while samples are queued and the fresh one goes out |
| EnergyReporting.OvertakingRun | main/sessionHandler.c:126-164 | a run from the start that reaches such an event |
| EnergyReporting.DrainOfSamples | main/offline_log.c:242-313 | draining an undamaged queue publishes its samples up to the first failure |
| EnergyReporting.MeterReporter.OnSendSignedMeterValue | main/sessionHandler.c:84-187 | the timer function over the ring does what the step of the order proof does, the file being opened once for the drain and once for the append |
| OcppStatus.SoundExactly | main/sessionHandler.c:1959-2133 | a step from a sound state (no transaction outside a session or its fault, none started twice) is sound exactly when its inputs do not take an open transaction out of its session without a stop: a reservation, an outage or an MCU fault mode where it is in service, any status but Charging where it is not |
| OcppStatus.RunSound | main/sessionHandler.c:1959-2133 | in every run without such inputs the state stays sound |
| OcppStatus.TickTransactions | main/sessionHandler.c:1959-2133 | a second opens a transaction exactly when it leads from Available or Preparing to Charging, SuspendedEv or SuspendedEvse, closes one exactly on the listed ways out, and forgets user and reservation exactly then |
| OcppStatus.SessionKeepsTransaction | main/sessionHandler.c:2003-2058 | a second that leads from Available or Preparing into a session has opened a transaction, and it stays open as long as every later status is a session or Faulted |
| OcppStatus.StatusInService | main/sessionHandler.c:1376-1440 | for every status, in service and undisturbed: the modes, the car, the user and the reservation for which exactly it is reported |
| OcppStatus.StatusOutOfService | main/sessionHandler.c:1364-1368 | out of service it is Unavailable whatever the MCU says |
| OcppStatus.ResetFinishes | main/sessionHandler.c:1362-1363 | while a session is reset it is Finishing |
| OcppStatus.FinishingFlag | main/sessionHandler.c:1960-1961 | Finishing is remembered until another status than a fault is entered |
| OcppStatus.FaultsExactly | main/sessionHandler.c:2380-2396 | a registered point faults exactly for a new warning with a bit other than 6, 8, 11 and 23 |
| OcppStatus.OutageTakesEffect | main/sessionHandler.c:1945-1957 | a scheduled outage takes effect when the connector becomes available and the MCU agrees |
| OcppStatus.ReturnTakesEffect | main/sessionHandler.c:1945-1957 | a scheduled return takes effect when the status would change and the MCU agrees or need not be told |
| OcppStatus.CalmRun | main/sessionHandler.c:1354-1446 | in every run in service, without MCU fault modes and reservations over a transaction, none is started while one is open and none is open in Available, Preparing or Finishing |
| OcppStatus.ScheduledOutageKeepsTransaction | main/sessionHandler.c:2101-2106 | a run that ends unavailable with an open transaction |
| OcppStatus.ScheduledOutageStartsTwice | main/sessionHandler.c:2101-2106 | its continuation, in which a second transaction starts on top of the first |
| OcppStatus.FaultEntered | main/sessionHandler.c:670-677 | a new faulting warning faults the connector, remembers its status and leaves the transaction alone |
| OcppStatus.FaultRun | main/sessionHandler.c:2380-2394 | during a fault the transaction is untouched, the status to return to is kept exactly while no further faulting warning arrives, and under OCPP control the fault leads there, or to Unavailable for a scheduled outage that the MCU grants |
| OcppStatus.SecondFaultLosesReturn | main/sessionHandler.c:670-673 | a run from boot into a session whose second faulting warning overwrites the exit status |
| OcppStatus.StuckExactly | main/sessionHandler.c:3110-3121 | a fault whose exit status was overwritten lasts through a run exactly as long as OCPP stays in control |
| OcppStatus.FaultEnds | main/sessionHandler.c:2335-2339 | a tick without faulting warnings ends a noticed fault and the next leads back; only an unregistered point, which does not read its warnings, stays faulted |
| OcppStatus.OcppConnector.GetOcppState | main/sessionHandler.c:1354-1446 | the status for every combination of mode, fault, service and user |
| OcppStatus.OcppConnector.HandleWarnings | main/sessionHandler.c:2380-2394 | a fault is entered exactly for a warning that is new and faulting on a registered point |
| OcppStatus.OcppConnector.ChangeAvailability | main/sessionHandler.c:1316-1346 | the availability changes unless the MCU had to be told and did not acknowledge |
| OcppStatus.OcppConnector.ChangeAvailabilityIfPending | main/sessionHandler.c:1945-1957 | a scheduled change takes effect when allowed, and decides the new status |
| OcppStatus.OcppConnector.HandleStateTransition | main/sessionHandler.c:1959-2133 | which transitions start and stop the transaction and what they forget |
| OcppStatus.OcppConnector.Second | main/sessionHandler.c:3042-3121 | one second of the loop does what the step of the run proofs does |
| MeterValueList.TransferKeeps | main/sessionHandler.c:883-957 | the list is an order-preserving selection of old and new values, keeps the first, has the smaller of their number and the maximum, and its cursor is null or inside the list |
| MeterValueList.GatherSelects | main/sessionHandler.c:883-957 | over any sequence of transfers the list is such a selection of all values ever given, and keeps the very first |
| MeterValueList.CursorCycles | main/sessionHandler.c:918-951 | adding values one by one, the deletion position runs through the list again and again |
| MeterValueList.DeletesExactly | main/sessionHandler.c:918-951 | which values the thinning loop deletes depends only on their position, the number of values and the cursor, and this says which |
| MeterValueList.NewestLostExactly | main/ocpp.c:686-706 | over transfers of any lengths, the value that arrives last is lost exactly when these lengths say so |
| MeterValueList.TransferLosesLastExactly | main/sessionHandler.c:918-951 | a transfer shorter than the maximum loses its last value exactly when the cursor lies an odd distance before the end and near enough to meet it |
| MeterValueList.SinglesLoseNewestExactly | main/sessionHandler.c:918-951 | one by one, the newest value is lost exactly when the count is a multiple of the maximum beyond the first |
| MeterValueList.PairsLoseNewest | main/sessionHandler.c:918-951 | five transfers of two values with room for four lose the tenth, though ten is no multiple of four |
| MeterValueList.UnlinkNext | main/sessionHandler.c:940-947 | unlinking a node keeps the others linked in order |
| MeterValueList.StopTransactionData.DeleteOne | main/sessionHandler.c:918-951 | one deletion in the linked list moves the cursor and drops the node the specification drops |
| MeterValueList.StopTransactionData.TransferMeterValues | main/sessionHandler.c:883-957 | the code on linked nodes does the transfer of the specification, and nothing without a transaction |
| MeterValueList.StopTransactionData.Stop | main/sessionHandler.c:1088-1089 | a new transaction starts with an empty list, whatever the cursor was |
| EnergyRegister.RegisterIsSumOfPeaks | main/storage.c:2019-2048 | after any readings the register is the sum of the readings before every fall, and of the last |
| EnergyRegister.RegisterMissesUnseenRestarts | main/storage.c:2027-2028 | against the energy really consumed the register misses the last reading before every restart that the readings do not show, and is exact if and only if all of these are zero |
| EnergyRegister.RegisterNeverDecreases | main/storage.c:1981-2070 | the stored register never goes down, also for readings not yet measured |
| EnergyRegister.RestartsDoNotMatter | main/OCMF.c:46-67 | wherever restarts clear the remembered maximum, the stored pair is the one the readings alone give |
| EnergyRegister.RunConserves | main/OCMF.c:343-374 | over every run: the register at E minus at B is the session's energy, B is the E before it, no mismatch is reported, the register only grows |
| EnergyRegister.RunTotals | main/OCMF.c:329-374 | after any number of sessions the register is its start plus the energies of the ended sessions plus what interrupted ones left, which is nothing when none was interrupted |
| EnergyRegister.WrittenValuesAgree | main/chargeSession.c:389-394 | the rounded values written differ from the session's energy by rounding only, so the difference check never fails |
| EnergyRegister.SessionEnergyIsMaximum | main/chargeSession.c:352-373 | the session's energy is the highest significant measurement so far |
| EnergyRegister.RoundedClose | main/chargeSession.c:360 | rounding moves a measurement by at most 0.00005 |
| EnergyRegister.WholeSession | main/chargeSession.c:268-419 | a whole session leaves exactly a B and an E record; the energy of E is the highest significant measurement, the last one included, and what the register gained between them |
| EnergyRegister.MismatchReported | main/OCMF.c:343-374 | a beginning that does not show the value its predecessor ended with is reported |
| EnergyRegister.EnergyMeter.UpdateAccumulatedEnergy | main/storage.c:1981-2070 | the stored pair after a reading, and the answer in every case, also when one key is missing |
| EnergyRegister.EnergyMeter.GetAccumulatedEnergy | main/OCMF.c:46-67 | one reading goes through, with the zero passed first after a fall |
| EnergyRegister.EnergyMeter.StartStopLog | main/OCMF.c:329-374 | the record written, and the comparison of a beginning with the end before it |
| EnergyRegister.EnergyMeter.UpdateEnergy | main/chargeSession.c:352-373 | only a significant, higher measurement raises the energy of an open session |
| EnergyRegister.EnergyMeter.Start | main/chargeSession.c:268-343 | a new session starts at zero with its B record; an open one goes on |
| EnergyRegister.EnergyMeter.FinalizeAndClear | main/chargeSession.c:376-419 | an open session takes the last measurement, writes its E record and is cleared |
| RfidTags.UpdateFacts | main/storage.c:1539-1696 | from a duplicate-free table the removed tags go and new ones follow, up to 20 |
| RfidTags.DuplicatesExactly | main/storage.c:1634-1669 | from a duplicate-free table a batch makes a duplicate exactly when two of its tokens add the same tag, not left in the table, and both find room |
| RfidTags.DistinctBatch | main/storage.c:1539-1696 | batches whose added tags are pairwise distinct keep the table duplicate-free |
| RfidTags.RunIsSetRun | main/storage.c:1539-1775 | over every sequence of such batches the table stays duplicate-free with at most 20 tags; while all fit, it is the set that adding and removing describes, and a tag is accepted exactly when it or the wildcard is in it |
| RfidTags.UpdateIsSetUpdate | main/storage.c:1539-1696 | with room for all, the batch is set difference and union |
| RfidTags.UpdateAuthorises | main/storage.c:1711-1775 | after a batch a tag is accepted exactly when it or the wildcard is in the updated set |
| RfidTags.DuplicateSurvivesRemoval | main/storage.c:1634-1669 | a tag added twice in one batch is stored twice and is still there after its removal |
| RfidTags.TagStore.RemoveTag | main/storage.c:1576-1625 | the loop over the numbered keys, moving the last tag into the gap, keeps the numbering contiguous |
| RfidTags.TagStore.Update | main/storage.c:1539-1696 | the whole batch on the numbered keys; more than 20 stored tags refuse it |
| RfidTags.TagStore.Lookup | main/storage.c:1711-1775 | finds a match exactly when the tag or the wildcard is stored |
| OfflineSessions.TimestampRoundTrip | main/offlineSession.c:198-217 | version 2 files keep every 64-bit time; version 1 files exactly those of one word |
| OfflineSessions.RunOrderly | main/offlineSession.c:453-527 | over every run file numbers follow creation order, sessions are sent in that order and at most once, also while one is being written, and none is lost |
| OfflineSessions.RunGraceful | main/offlineSession.c:1197-1330 | over every run without a resume behind E, every file reads B T* or B T* E with at most 100 records |
| OfflineSessions.RunFromEmpty | main/offlineSession.c:453-527 | both for every run that starts without any files |
| OfflineSessions.FinalFindsRoom | main/offlineSession.c:1268-1287 | the E of an open session always finds room when there is none yet, and the session then ends in E |
| OfflineSessions.ResumingExactly | main/offlineSession.c:570-673 | taking up a session after a restart is safe for its records exactly when no E with room behind it is written |
| OfflineSessions.ResumesBehindFinal | main/offlineSession.c:570-673 | a run from no files at all that ends with a record behind E |
| OfflineSessions.AppendWrites | main/offlineSession.c:1197-1330 | which appends are written, and that the record carries the label, the energy and the time appended, behind the earlier ones, with nothing else changed |
| OfflineSessions.WholeSession | main/offlineSession.c:1057-1330 | after B, any number of T, and E: B, the first 98 T and E are in the file with their times and energies, and the difference to be signed is the energy of E minus that of B |
| OfflineSessions.FinishedStays | main/offlineSession.c:678-783 | a finished session keeps its records and is not taken up again |
| OfflineSessions.BootExactly | main/offlineSession.c:570-673 | a restart touches no file and takes up the newest exactly with a car there, a file 0 and no end time in the newest |
| OfflineSessions.CutShortContinues | main/offlineSession.c:570-673 | a session cut short by a restart is taken up again and can be ended |
| OfflineSessions.CreatesNext | main/offlineSession.c:1169-1195 | a new session is empty, of version 2, and numbered after the newest |
| OfflineSessions.SendsUntilRefused | main/sessionHandler.c:2594-2665 | the oldest sessions are sent whole, one after the other, until one is refused |
| OfflineSessions.SignedEnergy | main/offlineSession.c:1057-1166 | the energy signed for a complete session is its E value minus its B value |
| OfflineSessions.SessionStore.FindNewFileNumber | main/offlineSession.c:453-495 | an unused number above all others; none exactly when file 99 exists |
| OfflineSessions.SessionStore.FindOldestFile | main/offlineSession.c:501-527 | the file created first |
| OfflineSessions.SessionStore.FindNrOfFiles | main/offlineSession.c:530-561 | how many sessions wait |
| OfflineSessions.SessionStore.SaveSession | main/offlineSession.c:1169-1195 | a new session goes behind all others, or nowhere |
| OfflineSessions.SessionStore.AppendEnergy | main/offlineSession.c:1197-1330 | which records are written and which refused, for every file and label |
| OfflineSessions.SessionStore.Finish | main/offlineSession.c:678-783 | the end time closes the file; an empty local session removes its own file and no other |
| OfflineSessions.SessionStore.CheckAndSend | main/sessionHandler.c:2594-2665 | files leave oldest first, and only when their publication succeeded, whether or not one is being written |
| OfflineSessions.SessionStore.Boot | main/offlineSession.c:570-673 | which session is taken up again after a restart |
| ChargeSchedule.ScheduleMeaning | main/chargeController.c:195-272 | for every schedule of up to 14 items, an item of the parsed text covers exactly the weekdays and minutes it was written for |
| ChargeSchedule.ParseRendered | main/chargeController.c:220-250 | every interval written as an item is parsed back, midnight as the end of the day |
| ChargeSchedule.MalformedNeverPauses | main/chargeController.c:217-221 | an item with misplaced colons never pauses |
| ChargeController.SchedulePausesExactly | main/chargeController.c:457-547 | whatever happens after a schedule was set, an active tick without override pauses for exactly the items that cover the minute |
| ChargeController.TickPauses | main/chargeController.c:457-560 | an active tick sets the bits of the intervals that hold, and none during an override |
| ChargeController.RunSound | main/chargeController.c:411-699 | over every run the counter never exceeds 3600 and only bits of existing items are set |
| ChargeController.PausedTick | main/chargeController.c:595-667 | a paused tick charges the counter with the delay; it lets a start or a resume through exactly without a delay, standalone, in the modes and with the user and current named |
| ChargeController.StopExactly | main/chargeController.c:595-618 | a tick sends the final stop exactly while a pause is on and the MCU charges, or is paused without it |
| ChargeController.CoveredMinuteStops | main/chargeController.c:457-618 | whatever happened since the schedule was set, a car that charges in a minute it covers is stopped |
| ChargeController.UnpausedTick | main/chargeController.c:548-592 | outside the pauses: how the delay counts down, and exactly when a resume and a start are sent |
| ChargeController.InactiveTick | main/chargeController.c:632-650 | without an armed schedule the delay runs down and nothing is sent |
| ChargeController.NoCarTick | main/chargeController.c:688-694 | without a car there is neither delay nor override |
| ChargeController.EnteringDuringOverride | main/chargeController.c:486-498 | an interval entered during an override starts the delay anew |
| ChargeController.HeldStays | main/chargeController.c:403-407 | only the cloud outside the pauses, and a disconnect, change whether the charger is held |
| ChargeController.StartsWhilePaused | main/chargeController.c:595-667 | a schedule without a delay under which a requesting standalone charger is started by a paused tick |
| ChargeController.StartDelayed | main/chargeController.c:550-667 | while the counter has run for fewer ticks than it was set to, no start and no resume is sent, whatever happens but an override, a disconnect or a cleared delay |
| ChargeController.NoStartWithinDelay | main/chargeController.c:550-667 | with a delay of d >= 1 in force at the last paused tick, neither that tick nor the next d - 1 send a start or a resume; while the car has not been read, provided that each delay set meanwhile outlasts what remains |
| ChargeController.DelayCutShort | main/chargeController.c:419-428 | a run in which a shorter delay, set before the car is read, resumes it at once |
| ChargeController.ResumesAfterDelay | main/chargeController.c:576-592 | and a car that waits is resumed in the d-th tick |
| ChargeController.OverrideResumes | main/chargeController.c:535-592 | an override resumes a paused car in the same tick, without the delay |
| ChargeController.OverrideTakesEffect | main/chargeController.c:535-592 | an override asked for during a pause resumes in the next second, and once cancelled the pause is on again |
| ChargeController.OverrideEndsExactly | main/chargeController.c:535-547 | outside the pauses a started override ends exactly when the charger is disconnected or no delay is left |
| ChargeController.ChargeTimer.SetTimes | main/chargeController.c:195-272 | an acceptable text replaces the schedule, any other text changes nothing |
| ChargeController.ChargeTimer.Scan | main/chargeController.c:472-531 | the loop over the items marks those that hold and restarts the delay when one is entered |
| ChargeController.SentExactly | main/chargeController.c:732-819 | at most one command is sent: a start exactly on request with an accepted user and current if standalone, otherwise exactly without pause and delay; a resume exactly when paused |
| ChargeController.ChargeTimer.SendStartCommand | main/chargeController.c:732-819 | the code starts and resumes in exactly these cases |
| ChargeController.ChargeTimer.Timer | main/chargeController.c:411-699 | one call of the timer function does what the tick of the run proofs does |
| ChargeController.EveryDelayComesUp | main/chargeController.c:706-714 | with a maximum of up to an hour the delay is at most that, and every value up to it can come up |
| ChargeController.ChargeTimer.SetRandomStartDelay | main/chargeController.c:701-723 | the delay is between 1 and 3600, or cleared with the counter |
| Crc32.TableIsEightShifts | components/apollo_ota/crc32.c:47-89 | each of the 256 table entries is what eight steps of the bit register make of its index |
| Crc32.Crc32 | components/apollo_ota/crc32.c:95-112 | the table-driven loop computes the bit-serial CRC-32 of section 8 of RFC 1952 of the buffer with every fourth byte zero |
| Crc32.DetectsOneByte | components/apollo_ota/crc32.c:91-112 | a change of one byte keeps the checksum exactly when it is an unprogrammed fourth byte, or no change |
| Crc32.ContinuesExactly | components/apollo_ota/crc32.c:95-112 | continuing a checksum agrees with the checksum of the whole, for every second part, exactly when the first part is a multiple of four bytes |
| WarningHandler.BackoffBounds | main/warning_handler.c:62-74 | for every event count, also after the product wraps, the wait is at least 2 and at most 86400 |
| WarningHandler.BackoffExactly | main/warning_handler.c:62-74 | the wait is min(30 * 3^e, 86400) exactly for e < 8 or while 30 * 3^e modulo 2^32 is at least 86400; so for the first 17 events |
| WarningHandler.WrapsAround | main/warning_handler.c:62-74 | after 12474 events the wait is under four hours instead of a day |
| WarningHandler.ActionsAreSpaced | main/warning_handler.c:76-107 | over every sequence of ticks two actions of a handler lie at least its set threshold plus one apart |
| WarningHandler.StandingWarningFires | main/warning_handler.c:76-107 | under a standing warning the next action comes exactly then |
| WarningHandler.WaitGrowsWithActions | main/warning_handler.c:84-97 | since install or reset every action has been counted, and the wait after the n-th is the backoff of n: for n up to 17 it is min(30 * 3^n, 86400) |
| WarningHandler.ActsOnStandingWarning | main/warning_handler.c:76-107 | nothing is acted on that has not stood for the whole wait |
| WarningHandler.ActsInTime | main/warning_handler.c:76-107 | a warning that stands is acted on when the wait is over, and not before |
| WarningHandler.QuietTickForgets | main/warning_handler.c:98-103 | a tick without the warning starts the count over |
| WarningHandler.GetBackoff | main/warning_handler.c:62-74 | the loop over the events computes that wait |
| WarningHandler.WarningHandlers.Install | main/warning_handler.c:35-49 | up to 32 handlers, each starting with a wait of 30 |
| WarningHandler.WarningHandlers.Reset | main/warning_handler.c:51-58 | every handler starts over, with its mask |
| WarningHandler.WarningHandlers.Tick | main/warning_handler.c:76-107 | every handler takes its own tick, and the result says whether one acted |

## Left out

* Network, broker, MCU link, NVS and file errors beyond those named: publishes and MCU acknowledgements
  are inputs that may fail, opening the ring file may fail, other file and storage operations succeed.
* Locks and task scheduling: each locked operation is one step.
* Checksum strength: for log, ring and session files the checksum is any function; damaged lines are
  covered in the ring, damaged entries and headers of the diagnostics log only as unreadable headers.
* Crashes in the middle of a diagnostics log write, and a diagnostics log partition that fails.
* The removal of colours and dates at the top of `write_entry` (main/diagnostics_log.c:214-232): the
  model starts from the message that is left.
* `upload_diagnostics_ocpp` (main/diagnostics_log.c:555-782) and the other consumers of the log.
* The per-state handlers (main/sessionHandler.c:2139-2340) but for the fault: what they change is an
  arbitrary change between two seconds. A transaction stored before a restart is not part of the model.
* The MID build (`CONFIG_ZAPTEC_GO_PLUS`) of ring, records and sessions.
* OcppStatus.OcppConnector.Second: warning masks are sets of bit numbers, not 32-bit words.
* MeterValueList.StopTransactionData.Stop: freeing nodes is not modelled, so a leak or a double free is not covered.
* EnergyRegister.RunConserves: a session that is resumed from its file after a restart is not covered,
  since its energy then comes from text in the file; a session cut short without being resumed is.
* EnergyRegister.RegisterIsSumOfPeaks: energies are exact; single precision in storage is not modelled.
* RfidTags.TagStore.Update: a stored tag too long for the comparison buffer is never matched but is moved
  whole; the buffer it is moved through is not modelled. Errors of single storage calls are not modelled.
* OfflineSessions.SessionStore.Boot: whether the newest file lacks its end time is a flag of the file; the
  text it is read from is not modelled. The erase-and-retry of a failed creation is left out.
* DiagnosticsLog.RestartAfterClipping: with a gap of 1 to 7 bytes the length of the oldest entry is hit too; what
  is found then is only tied to how reading that entry ends.
* EnergyReporting.RunPublishesInOrder: a publish that is reported as failed is taken not to have reached the cloud.
* OfflineSessions.RunOrderly: `id` numbers the files for the proof and is not in the file.
* ChargeController.SchedulePausesExactly: weekday and minute are inputs; time zones, the announced next
  start time and diagnostics texts are left out. Arming the schedule by location is the event `Activate`.
* Crc32.TableIsEightShifts: the table is a selection over the index bits in the order of the source, not an
  array, and the loop counter does not overflow.
* Configuration tables, OTA transfer, current calculations and the console: long, but easy or outside state.
