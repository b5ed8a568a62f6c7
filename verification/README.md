# PlasmaTrim verification

A Dafny model of the PlasmaTrim command line tools and of the HID library they
bring along, with proofs of what they promise. `dafny verify dfyconfig.toml`
checks everything.

## What is modelled

* **The network server** (`ServerTable`, `PtrimServer`, `ServerRuns`,
  `ServerTheorems`, `ServerHistory`, `ServerClients`, `ServerScan`,
  `ServerSequences`). The global arrays are a class whose methods update them in
  place; each method is proved equal to a step of a value-level server. Runs are arbitrary sequences of accepts, welcomes, commands,
  disconnects, removals, additions and flushes, taken as atomic steps. What was
  sent to a connection is kept, and a client's picture of the devices is what
  those messages add up to. A notify bit mask is the set of its bits. Each slot
  carries the memory of the unit behind its handle, and what goes through the
  server is followed down to it (`ServerSequences`).
* **The report queue and its readers** (`ReportQueue`, `Readers`,
  `ReaderTheorems`, `DeviceRuns`). The linked list is a class with real nodes.
  Around it a state machine interleaves the transfer callback, any number of blocking and
  timed readers, non-blocking polls, spurious wake-ups, time-outs, the stop
  flag and the read thread's end, for the Linux and the Mac version; the list
  is driven through its runs.
* **The barrier and the device list of the Mac version** (`Barrier`, `DeviceList`).
* **The report-descriptor walk** (`ReportDescriptor`), against the item format of
  sections 6.2.2.2 and 6.2.2.3 of the Device Class Definition for HID 1.11. The
  repository compiles it only when `INVASIVE_GET_USAGE` is defined.
* **The device** (`Device`) as ideal memory behind 32-byte commands, each
  answered by one reply, and **colours** (`Color`), **sequence files**
  (`SequenceText`, `Sequence`, `SequenceCopy`, `SequenceMultiple`,
  `SequenceStream`, `SequenceLineEnds`), **fading**
  (`Fade`, in exact rational arithmetic) and **word wrapping** (`WordWrap`).

## Where the code and its documentation differ

The model follows the code.

* The queue holds 32 reports before one is dropped; the comment says 30.
* `get_usage` says it returns the first usage page and usage. It returns the
  last page before the first usage, and the last usage before the first page,
  falling back on the firsts; so the promise holds precisely when those lasts,
  where they exist, have the values of the firsts.
* The server's command list promises "not locked" for a force unlock of an
  unlocked device. The code answers that it does not know the command, and the
  owner of a lock gets the same answer.
* Sequence files give hold and fade times as hexadecimal digits and downloads
  print them so, but upload decodes only 0 to 9. Copies are therefore exact
  precisely when no time is above 9.
* The Linux queue signals only when the list was empty, so a second blocking
  reader of one device can sleep beside a queued report.
* On Linux the read thread can stop on an event error with the stop flag down.
  Cancelling the transfer then normally raises the flag; if that fails too, the
  last broadcast does not keep readers from sleeping for ever.
* The server's `full_download` compares with the names of the uploads and so
  sends a short download. That is the full one precisely when nothing is stored
  behind the active slots (`ServerSequences.FullDownloadExactly`).
* The status clients see can be untrue: an upload ends by starting the unit, or
  leaves it stopped if the version is unknown, and keeps the status; a colour or
  fade sets the status to stopped and does not stop the unit.
  `ServerTheorems.StatusBrokenExactly` names all such steps.
* The Mac barrier does not look again after a wait returns, so it relies on
  waits that return only when broadcast.

## Assumptions

* makeColor's last step reads one cell past its 49-byte buffer; the buffer has
  50 cells here. Only the first 24 bytes of the result are used.
* upload's slot count and readData's result start at 0, as they do in the sister
  functions. Past the end of its text a line reads as zero bytes, and the
  header's digits end before character 256.
* An accepted socket is positive and differs from the open ones; every unit has
  its own serial number; enumerated paths are distinct and not empty. A path
  tried for one slot may open then and fail for another.
* getName never sets the last of its 27 bytes. The server's names are read as if
  it were zero; `Device.NameReadBack` says exactly when that matters.
* Text reaches the server without its line ends, because a connection keeps only
  the characters above 0x19 of each line; the lines of a file are followed by an
  empty one.
* A colour shown on a unit leaves it playing if it was. (One comment in the
  server suggests that it interrupts playing.)
* Standard mutex and condition variable behaviour, with sequentially consistent flags.
* The device list is sent, and a flush or command done, without another thread
  in between.

## Model

| member | source | states |
|---|---|---|
| `ServerTheorems.PicturesAgree` | src/ptrim-server.cc:186-360 | in every reachable state an open connection that was sent the device list knows exactly the connected devices, and any name, brightness, temporary brightness or status it has wrong has its notify bit set |
| `ServerTheorems.UnitsAgree` | src/ptrim-server.cc:508-544 | in every reachable state the name and saved brightness an informed client holds are those in the unit itself, unless the notify bit is set |
| `ServerHistory.PlaysExactly` | src/ptrim-server.cc:193-668 | in every reachable state a unit plays if and only if some step started it (it was added, started, programmed from a known file, or shown an unnamed colour while playing) and no later step stopped it |
| `ServerHistory.LastWriteStands` | src/ptrim-server.cc:473-668 | after any run, whether a unit plays, its status, lock, name, saved and temporary brightness, colour and its level are what the last step that wrote them wrote |
| `ServerHistory.UnwrittenStays` | src/ptrim-server.cc:473-668 | a value that no step of a run writes is as it was |
| `ServerHistory.CommandWrites` | src/ptrim-server.cc:476-668 | what each command writes, value by value, allowed or refused |
| `ServerHistory.OnlyUploadPrograms` | src/ptrim-server.cc:579-607 | no command but an allowed upload changes the unit's slots, and none but a new name its name |
| `ServerHistory.NotifiesExactly` | src/ptrim-server.cc:476-668 | a command sets the notify bits of the values it writes and no others |
| `ServerHistory.RepliesExactly` | src/ptrim-server.cc:476-662 | each answer is given exactly in its case, for every command, state and client |
| `ServerHistory.ColorAnswerReads` | src/ptrim-server.cc:546-554 | the answer to a color command reads back as the colour that was shown |
| `ServerTheorems.StatusBrokenExactly` | src/ptrim-server.cc:487-608 | a step makes a true status untrue, playing or stopped, if and only if it is an upload that ends the other way, or a colour or fade for a unit that plays or is restarted by it |
| `ServerTheorems.StatusIsTrue` | src/ptrim-server.cc:487-608 | over every run without such a step, playing is shown only of units that play and stopped only of units that stand still |
| `ServerTheorems.StatusCanMislead` | src/ptrim-server.cc:546-608 | there is a run after which a device shown as playing stands still, and one after which a device shown as stopped plays |
| `ServerTheorems.FlushPassMakesExact` | src/ptrim-server.cc:312-360 | a pass of the notification thread with no step between its devices changes no device and leaves every such connection with an exact picture |
| `ServerTheorems.FlushMakesExact` | src/ptrim-server.cc:316-355 | one flush, whatever else is pending, gives every informed client the exact state of its device |
| `ServerTheorems.WrongMeansChangedSince` | src/ptrim-server.cc:312-360 | in any run that flushes a device at some step, other steps before and after it as they come: a field of the device that an informed client has wrong at the end was changed after that step |
| `ServerClients.SentOnlyToOpen` | src/ptrim-server.cc:163-360 | a step sends at most one message on a connection, and only on an open one; a new connection starts with none |
| `ServerClients.FlushSendsExactly` | src/ptrim-server.cc:316-355 | a flush sends an update if and only if something is pending for a connected device |
| `ServerClients.UpdateTouchesOnlyPending` | src/ptrim-server.cc:318-353 | an update says nothing of fields that are not pending, nor of other devices |
| `ServerClients.SnapshotOfConcat` | src/ptrim-server.cc:292-310 | the device list is in slot order |
| `ServerClients.JoinBetween` | src/ptrim-server.cc:74-98 | between the end of a connection and the next one in its entry the thread is joined, in every run |
| `ServerTheorems.LocksAreOwned` | src/ptrim-server.cc:163-167 | in every reachable state a lock is free or belongs to an open connection, and a locked device has an owner |
| `ServerTheorems.LockSafety` | src/ptrim-server.cc:473-662 | over any run without a step that ends the lock, the client keeps the device, commands of other clients leave its slot and the whole memory of its unit as they are, and only the owner changes the unit and what clients see of it |
| `ServerTheorems.LockEndsExactly` | src/ptrim-server.cc:487-507 | a lock ends at a step if and only if the owner unlocks, starts, stops, colours or fades the device or leaves, another client forces the lock, or the device is removed |
| `ServerTheorems.HeldExactly` | src/ptrim-server.cc:473-662 | in every reachable state a client holds a device if and only if some lock command of its own found the device not locked and no later step ends the lock |
| `ServerTheorems.ForceUnlockWorksExactly` | src/ptrim-server.cc:636-655 | force unlock takes effect exactly on a device locked by somebody else; otherwise it is an unknown command and changes nothing |
| `ServerSequences.FullDownloadExactly` | src/ptrim-server.cc:609-634 | the server sends what a full download asks for if and only if the unit has no more active slots than slots and those behind the active ones are empty |
| `ServerSequences.LitSlotIsHidden` | src/ptrim-server.cc:619-623 | a witness: one lit slot behind the active one does not reach the client |
| `ServerSequences.SentBackExactly` | src/ptrim-server.cc:579-634 | the lines the server sent, sent back without line ends, are accepted; full_upload restores the sequence if and only if nothing was hidden and all active times are decimal digits, upload if and only if the latter |
| `ServerSequences.FilePrograms` | src/ptrim-server.cc:579-607 | a file for several devices, sent without line ends, is accepted and programs each selected device with the column of its place |
| `ServerSequences.SendLines` | src/ptrim-server.cc:624-634 | the loop sends every line of the download but the last, without line ends |
| `ServerRuns.StepKeeps` | src/ptrim-server.cc:110-360 | each accept, welcome, command, leave, join, removal, addition and flush keeps locks owned, slots distinct and pictures right up to pending bits |
| `ServerRuns.RunThreadKeeps` | src/ptrim-server.cc:468-668 | every command keeps the slot well formed, keeps name and saved brightness in step with the unit, and sets the bit of each field it changes |
| `ServerRuns.LeaveKeeps` | src/ptrim-server.cc:795-806 | the disconnect cleanup leaves no lock behind and announces what it changes |
| `ServerRuns.RemoveKeeps` | src/ptrim-server.cc:163-182 | removing a device and telling every connection keeps all pictures to the connected devices |
| `ServerRuns.AddKeeps` | src/ptrim-server.cc:193-220 | adding a device and telling every connection keeps all pictures to the connected devices |
| `ServerRuns.SnapshotIsExact` | src/ptrim-server.cc:292-310 | reading the device list gives every connected device exactly as it is, and no other |
| `ServerRuns.FlushKeepsPicture` | src/ptrim-server.cc:318-355 | an update block applied to a picture allows the bits of its device to be cleared |
| `ServerScan.Reconciles` | src/ptrim-server.cc:137-228 | one scan over distinct paths, with each attempt to open free to succeed or fail: devices still enumerated keep slot and state, no path has two slots, every other occupied slot holds an enumerated path that had none and opened for it, only enumerated paths have slots, and every one that had a slot or opens at each attempt has one |
| `ServerScan.ReconcilesSteadily` | src/ptrim-server.cc:137-228 | if each path opens always or never during the scan, the occupied paths are exactly the enumerated ones that had a slot or open |
| `ServerScan.FillFreeResult` | src/ptrim-server.cc:186-228 | with as many free slots ahead as paths on the list, the second pass claims every path that opens at each attempt |
| `ServerScan.RoomForAll` | src/ptrim-server.cc:137-150 | enough slots are always free, because kept and new paths together were enumerated |
| `ServerScan.RemovePassResult` | src/ptrim-server.cc:152-184 | the first pass empties exactly the slots whose path is gone and clears exactly the paths that have a slot |
| `ServerScan.ScanIsRun` | src/ptrim-server.cc:137-228 | a scan is a run of single removals and additions, so it keeps every invariant of runs |
| `PtrimServer.Globals.RunThread` | src/ptrim-server.cc:468-668 | updates the device arrays and the memory of the unit, through the library calls, as the command table says, and gives its reply |
| `PtrimServer.Globals.ChangeBrightness` | src/ptrim-server.cc:512-545 | the four kinds of brightness command, and when the unit is told |
| `PtrimServer.Globals.ShowColor` | src/ptrim-server.cc:546-568 | a color command that names no colour is shown, answered and restarts a playing unit; either kind ends idle with the colour shown at the temporary brightness |
| `PtrimServer.Globals.UploadTo` | src/ptrim-server.cc:579-607 | the unit holds what upload leaves of the file, and the answer says whether its version was known |
| `PtrimServer.Globals.SendDownload` | src/ptrim-server.cc:609-634 | the answer to either download command is the short download of the unit |
| `PtrimServer.Globals.SendNotification` | src/ptrim-server.cc:312-355 | puts one update on every open connection and clears the bits |
| `PtrimServer.Globals.SendNotifications` | src/ptrim-server.cc:312-360 | performs the whole flush pass on the arrays |
| `PtrimServer.Globals.MonitorDevices` | src/ptrim-server.cc:137-228 | performs the scan on the arrays |
| `PtrimServer.Globals.Claim` | src/ptrim-server.cc:155-162 | reports whether the path is listed and clears every match |
| `PtrimServer.Globals.ConnectedDevices` | src/ptrim-server.cc:292-310 | sends the device list to one connection |
| `PtrimServer.Globals.JoinFinished` | src/ptrim-server.cc:74-81 | the first finished connection gives its entry back, as a step of a run |
| `PtrimServer.Globals.AcceptConnection` | src/ptrim-server.cc:82-98 | a new connection takes the first free entry, as a step of a run |
| `PtrimServer.Globals.Disconnected` | src/ptrim-server.cc:795-806 | releases the leaving client's locks in all slots and stops their units |
| `PtrimServer.Globals.Initialise` | src/ptrim-server.cc:110-135 | all slots empty and unlocked, all client entries free |
| `PtrimServer.Globals.FindDeviceNumber` | src/ptrim-server.cc:670-682 | the first open device with the serial number, or -1 exactly if there is none |
| `ReportQueue.HidDevice.Append` | hidapi/linux/hid.c:630-655 | the linked list after a report: appended at the end, with the first one dropped if 32 were queued |
| `ReportQueue.HidDevice.ReadCallback` | hidapi/linux/hid.c:618-656 | appends, and signals exactly when the list was empty |
| `ReportQueue.HidDevice.HidReportCallback` | hidapi/mac/hid.c:567-613 | appends, and always signals |
| `ReportQueue.HidDevice.ReturnData` | hidapi/linux/hid.c:918-930 | unlinks the first report and hands over its start, of the smaller of the two lengths |
| `ReportQueue.HidDevice.FindEnd` | hidapi/linux/hid.c:639-645 | the last node, and one less than the number of queued reports |
| `ReportQueue.HidDevice.Poll` | hidapi/linux/hid.c:953-958 | a waiting report is returned and removed; none leaves the list empty |
| `ReportQueue.HidDevice.Drain` | hidapi/linux/hid.c:1120-1125 | closing empties the list |
| `ReaderTheorems.QueueConserves` | hidapi/linux/hid.c:618-656 | over every run of callbacks, any number of readers, polls and shutdown: reports leave in the order they came, the queue is the most recent of them, received = read + evicted + drained + queued, and at most 32 wait |
| `DeviceRuns.Replay` | hidapi/linux/hid.c:618-656 | the linked list itself, driven through any run: it holds exactly the latest reports, at most 32; each reader was handed the start of the next report taken, all of it if it fits; with nothing evicted or drained these are the first reports received |
| `DeviceRuns.Perform` | hidapi/linux/hid.c:939-975 | each step does to the linked list what the protocol says and signals when it says |
| `ReaderTheorems.EvictsExactly` | hidapi/linux/hid.c:648-653 | a report is evicted exactly when another arrives with 32 queued, and it is the oldest |
| `ReaderTheorems.LookExactly` | hidapi/linux/hid.c:939-985 | when a reader waits, returns the oldest report, or returns without one, on either system |
| `ReaderTheorems.MacWakesEnough` | hidapi/mac/hid.c:567-613 | with any number of readers, while no flag is up and one sleeps, queued reports are at most the readers on their way |
| `ReaderTheorems.LinuxNeedsOneReader` | hidapi/linux/hid.c:633-656 | no wake-up is lost in any run if and only if at most one thread reads in blocking or timed mode |
| `ReaderTheorems.LinuxLosesAWakeup` | hidapi/linux/hid.c:967-975 | with two readers there is a run that ends with one asleep beside a queued report and nobody on the way |
| `ReaderTheorems.ShutdownCleanExactly` | hidapi/linux/hid.c:703-726 | the broadcast ends sleeping for good, in every continuation, if and only if the stop flag is up at the broadcast |
| `ReaderTheorems.LinuxCanEndUnclean` | hidapi/linux/hid.c:703-726 | there is a Linux run that broadcasts with the flag down and after which a reader sleeps |
| `ReaderTheorems.ShutdownIsFinal` | hidapi/linux/hid.c:719-726 | after a broadcast with the flag up nobody is asleep or ever sleeps again |
| `ReaderTheorems.MacShutdownIsClean` | hidapi/mac/hid.c:649-677 | on the Mac nobody is asleep once the read thread has finished |
| `Readers.RunKeeps` | hidapi/mac/hid.c:813-926 | mutex, queue, shutdown and wake-up invariants hold through every interleaving |
| `Readers.MacStep` | hidapi/mac/hid.c:813-831 | each step keeps queued reports within the readers on their way |
| `Barrier.SafeExactly` | hidapi/mac/hid.c:75-92 | in every run no call returns before its whole round has entered, each complete round releases all its calls and exactly its last returns 1, if and only if waits return only on the broadcast or the trip count is one |
| `Barrier.InvIsSafe` | hidapi/mac/hid.c:75-92 | the count and call states of reachable states imply the round-by-round promise |
| `Barrier.EnterKeeps` | hidapi/mac/hid.c:78-91 | an entry keeps the grouping into rounds, also when it completes one |
| `Barrier.SpuriousBreaks` | hidapi/mac/hid.c:88-90 | one wait that returns on its own lets a call return alone |
| `Barrier.PthreadBarrier.Enter` | hidapi/mac/hid.c:75-92 | the entry part of the wait on the barrier's fields |
| `DeviceList.Devices.Add` | hidapi/mac/hid.c:152-166 | a new device goes to the end of the list |
| `DeviceList.Devices.Remove` | hidapi/mac/hid.c:200-216 | a listed device is unlinked, the others keep their order; an unlisted one changes nothing |
| `DeviceList.Devices.MarkDisconnected` | hidapi/mac/hid.c:547-562 | exactly the devices with the handle become disconnected |
| `ReportDescriptor.GetUsage` | hidapi/linux/hid.c:187-255 | for every byte string the walk ends within it and returns what its items mean |
| `ReportDescriptor.MeaningOfEncoding` | hidapi/linux/hid.c:187-255 | for the encoding of any list of short and long items this is the fold over the items that stops once both values are found |
| `ReportDescriptor.FirstsFoundExactly` | hidapi/linux/hid.c:183-255 | for every byte string, the documented first usage page and first usage are returned if and only if the last page before the first usage, if any, has the first page's value, and the same with page and usage exchanged |
| `ReportDescriptor.FirstsOfItemsExactly` | hidapi/linux/hid.c:183-255 | the same for the encoding of any list of items |
| `ReportDescriptor.MeaningIsCounting` | hidapi/linux/hid.c:236-251 | for every byte string, what is returned is the last page before the first usage or else the first page, and the last usage before the first page or else the first usage |
| `ReportDescriptor.SplitCovers` | hidapi/linux/hid.c:195-252 | every byte string is whole items followed by at most one cut-off item |
| `ReportDescriptor.SplitEncoding` | hidapi/linux/hid.c:201-234 | item boundaries are unambiguous: an encoding splits into its own items |
| `ReportDescriptor.RestIsFold` | hidapi/linux/hid.c:236-251 | walking from boundary to boundary is the fold over the items |
| `ReportDescriptor.ReadItem` | hidapi/linux/hid.c:196-251 | one item read at a boundary, ending at the next boundary |
| `ReportDescriptor.GetBytes` | hidapi/linux/hid.c:159-181 | the little-endian value after the prefix, or 0 when bytes are missing |
| `ReportDescriptor.SizeBits` | hidapi/linux/hid.c:222-234 | the size bits stand for 0, 1, 2 and 4 bytes |
| `ReportDescriptor.ValueOfConcat` | hidapi/linux/hid.c:159-181 | later bytes count for more, by 256 each |
| `ReportDescriptor.LatestPageWins` | hidapi/linux/hid.c:183-186 | a witness: of two different usage pages before the usage the later one is returned, not the first |
| `ReportDescriptor.FoldKeepsLatest` | hidapi/linux/hid.c:236-248 | each further item counts exactly as long as not both values are known |
| `Device.NameKept` | src/ptrim-lib.cc:48-97 | a name survives being stored if and only if it has at most 26 characters, all printable |
| `Device.StoredNameKeeps` | src/ptrim-lib.cc:73-97 | for every name, the first 26 characters decide, each on its own and in order, by whether it is printable |
| `Device.PlasmaTrim.SetName` | src/ptrim-lib.cc:73-97 | the device keeps the printable ones of the first 26 characters |
| `Device.PlasmaTrim.GetName` | src/ptrim-lib.cc:48-71 | the 26 bytes the device keeps, and a last byte that is never set |
| `Device.NameReadBack` | src/ptrim-lib.cc:50-70 | the buffer reads as the stored name, terminated, if and only if the name is shorter than 26 or the unset byte happens to be zero |
| `Device.PlasmaTrim.SetActiveSlots` | src/ptrim-lib.cc:679-694 | stores the count brought into 1 to 76 |
| `Device.MakeBrightness` | src/ptrim-lib.cc:119-127 | a brightness from 1 to 100, unchanged if it was one |
| `Device.ClampsToNearest` | src/ptrim-lib.cc:119-127 | a brightness or slot count out of range becomes the nearest in range |
| `Color.StripSpaces` | src/ptrim-lib.cc:227-237 | the in-place compaction leaves the text with its spaces filtered out, and behind it the cells it did not reach |
| `Color.Standardise` | src/ptrim-lib.cc:238-302 | the six- or three-digit form for each LED, whatever form was given |
| `Color.MakeColor` | src/ptrim-lib.cc:216-329 | the bytes of the digits left after the spaces are gone, or of the first three cells if fewer are left |
| `Color.CompactIsHighHalves` | src/ptrim-lib.cc:238-326 | each half byte of the compact colour is the high half of the matching byte of the full one, for hexadecimal text of any form |
| `Color.FullColorMeans` | src/ptrim-lib.cc:238-326 | in full form each component is its digit doubled or its two digits, as given for its LED or for all |
| `Color.OneColorForAll` | src/ptrim-lib.cc:238-273 | three or six digits mean the same as eight times those digits |
| `Color.GetColor` | src/ptrim-lib.cc:163-195 | the shown colour in upper-case digits |
| `Color.MakeHumanColor` | src/ptrim-lib.cc:197-214 | 55 characters with a space after each LED but the last |
| `Color.PrintParse` | src/ptrim-lib.cc:181-214 | printing any 24 bytes, spacing them and parsing gives the bytes back |
| `Color.PrintAndParse` | src/ptrim-lib.cc:163-329 | the three functions on one buffer: the shown colour comes back, and the text between has its spaces where they belong |
| `Color.CompactPrintParse` | src/ptrim-lib.cc:401-403 | twelve slot bytes printed and parsed in compact form come back |
| `Sequence.Download` | src/ptrim-lib.cc:348-416 | the buffers hold the download's lines and nothing else; the device is unchanged |
| `Sequence.Upload` | src/ptrim-lib.cc:421-524 | every slot with a line in range is that line's colour and times, other slots are untouched, the active count is set; an unknown version changes no slot |
| `Sequence.UploadedExactly` | src/ptrim-lib.cc:421-524 | there is exactly one memory an upload can leave; it plays exactly if the version is known, and keeps name and brightness |
| `Sequence.UploadDarkens` | src/ptrim-lib.cc:433-441 | every upload leaves the unit dark at its saved brightness; one of unknown version leaves the sequence as it was |
| `Sequence.UploadSlot` | src/ptrim-lib.cc:498-512 | one line becomes one slot and touches no other |
| `Sequence.TakeHeader` | src/ptrim-lib.cc:448-479 | device column, loop start, counts and slots to load |
| `SequenceText.SlotLineReads` | src/ptrim-lib.cc:400-409 | column, hold and fade of a printed slot line are found at their offsets, also from slot 100 on |
| `SequenceText.PrintedTimes` | src/ptrim-lib.cc:385-400 | for every time byte, also above 9, the printed hold and fade characters are its hexadecimal digits |
| `SequenceText.DecimalValue` | src/ptrim-lib.cc:456-461 | a printed number that fits an unsigned char is read back |
| `SequenceCopy.Copy` | src/ptrim-lib.cc:348-524 | uploading a download to the same or another device: each slot is the source's through text, black past a short download, untouched past a short upload; the active count is copied |
| `SequenceCopy.FullCopyExactly` | src/ptrim-lib.cc:509 | a full copy restores all 76 slots if and only if every hold and fade time is at most 9 |
| `SequenceCopy.ShortCopyExactly` | src/ptrim-lib.cc:465-468 | a short copy leaves the slots past the active ones alone and restores the active ones if and only if their times are at most 9 |
| `SequenceCopy.CopyExactly` | src/ptrim-lib.cc:421-524 | for each of the four combinations of short and full, the copy is the whole sequence if and only if every slot survives: its times are decimal, or it was empty and blanked, or the target had it already |
| `SequenceCopy.ShortIsFullExactly` | src/ptrim-lib.cc:348-416 | a short download and a full one are the same text if and only if the slots behind the active ones are empty and there are no more active ones than slots |
| `SequenceCopy.RereadExactly` | src/ptrim-lib.cc:509 | one slot survives printing and parsing if and only if both its times are at most 9 |
| `SequenceMultiple.UploadFile` | src/ptrim-lib.cc:448-514 | from a printed multiple file, device slot k is file slot loop start + k in column id modulo the devices, slots past the file's last are untouched, and the active count is what is left after the loop start, at most 76 |
| `SequenceMultiple.UploadOfFile` | src/ptrim-lib.cc:493-514 | the same for every slot, including the shifted lines from slot 100 on |
| `SequenceMultiple.StreamOfFile` | src/ptrim-lib.cc:596-614 | the stream has the file's colours and holds, and its fades moved on by one place |
| `SequenceMultiple.ReadersAgree` | src/ptrim-lib.cc:526-614 | what upload programs is what the stream would play, slot for slot |
| `SequenceMultiple.ReadBothWays` | src/ptrim-lib.cc:421-614 | both readers run on one file agree |
| `SequenceMultiple.ReadStream` | src/ptrim-lib.cc:538-614 | slots, holds and rotated fades of any file, or nothing for an unknown version |
| `SequenceMultiple.StreamHeaderLine` | src/ptrim-lib.cc:548-566 | streamData's own header reading agrees with upload's |
| `SequenceMultiple.WrapIsModulo` | src/ptrim-lib.cc:451-454 | repeated subtraction gives the device's column modulo the columns |
| `SequenceStream.StreamOfDownload` | src/ptrim-lib.cc:526-614 | streaming a download plays every active slot of the device, its fades moved on by one place |
| `SequenceLineEnds.LineEndsDoNotMatter` | src/ptrim-lib.cc:438-524 | a file means the same to upload without its line ends, if no field reaches into them |
| `SequenceLineEnds.BareFilePrograms` | src/ptrim-lib.cc:438-524 | a printed file for several devices programs them without its line ends as with them |
| `SequenceLineEnds.VersionWithoutEnd` | src/ptrim-lib.cc:439-446 | upload takes both version lines with and without line end |
| `SequenceLineEnds.StreamNeedsEnd` | src/ptrim-lib.cc:538-547 | streamData takes a version line only with its line end |
| `Fade.FrameIsClose` | src/ptrim-lib.cc:741-756 | each component lies between start and target, less than one below the exact value; the last is the target |
| `Fade.FramesMove` | src/ptrim-lib.cc:747-752 | later frames never move back |
| `Fade.FramesFade` | src/ptrim-lib.cc:738-756 | the frames themselves: between start and target, the weighted mean in whole numbers rounded down, never moving back |
| `Fade.StepsGrow` | src/ptrim-lib.cc:702-736 | a longer fade time takes no fewer frames |
| `Fade.ColorTable` | src/ptrim-lib.cc:738-756 | the table holds the frames of a fade, the last being the target |
| `Fade.FadeTo` | src/ptrim-lib.cc:697-762 | exactly the announced number of frames is sent, each the weighted mean of start and target rounded down, and the device ends on the target |
| `WordWrap.PiecesCover` | src/ptrim-lib.cc:847-874 | the pieces make up exactly the text |
| `WordWrap.PiecesAreGood` | src/ptrim-lib.cc:851-864 | no piece is empty or too wide; it ends at the end of the text, before the last space within the width, or at the full width if there is none |
| `WordWrap.GoodStopIsUnique` | src/ptrim-lib.cc:851-864 | there is no other place a piece could end |
| `WordWrap.FormatPrint` | src/ptrim-lib.cc:830-875 | prints the indented pieces |

## Left out

- SequenceMultiple.ReadStream: asks for fewer than 256 lines, because the line number is an unsigned char; longer files overwrite earlier slots.
- SequenceMultiple.UploadFile: asks for at most 32 devices and 251 slots, because more columns do not fit the line buffers and more lines wrap the line number.
- WordWrap.FormatPrint: asks for at least one column beside the indent; with none the loop of format_print does not advance.
- PtrimServer.Globals.RunThread: takes the colour a command's text was parsed to, as it takes numbers (`Color.MakeColor` is the parser); of a fade it keeps the last frame, and a reply leaves out its serial number and brackets.
- Splitting a command's text into serial numbers, words and numbers, and running one command on several devices at once. Each device's part is a step of its own.
- Sockets, accept and select with their error returns, the security code, the limit on clients, and the client programs.
- libusb, IOKit, Win32, iconv, locales and string descriptors; transfers and replies are steps of the environment. The Windows back end is not part of this model.
- Failures of pthread and allocation calls, and freeing of memory.
- streamData's counter of running threads and its playback, and the server's fade call, which hands parsed bytes to a parser.
- Delays: the hold and fade tables are only the number of fade steps.
- Rounding of binary floating point in fade.
- The order of hexadecimal digits in a serial number.
