# Altavista: models and proofs in Dafny

Altavista drives GMAT from Python and shows the result in a browser. This project models the parts of
it whose correctness is hardest to see from one function body, and proves what those parts promise over
every input, every run or every reachable state. `dafny verify dfyconfig.toml` checks all of it.

| file | what it models |
|---|---|
| `docker_test_lock.dfy` | the host-wide, re-entrant lock as a transition system: any processes, any threads, a kill or an interrupt at any program point, inside the `finally` too |
| `holder_record.dfy` | the text of the holder sidecar: printer, parser and the flattened command line |
| `ordering.dfy` | Python's stable `sorted`, string order by code point, the ascending list of a set |
| `frames.dfy` | the frame registry: a class whose `Register` fills in, and sometimes invents, parents, and records what each id is realized by |
| `frame_conversion.dfy` | conversions between registered frames, with GMAT's own as a parameter |
| `frame_lists.dfy`, `scenario_frames.dfy` | the two builders of a scene's frame list, and when what they build is closed under parents |
| `leap_seconds.dfy` | the leap-second searches, UTC/TAI conversion, and the table's generator |
| `epoch.dfy` | A1MJD conversion under floating-point rounding and over the reals |
| `trajectory_cdm.dfy` | trajectory to CDM and back |
| `config_hash.dfy`, `scenario_hash.dfy` | the bytes hashed into `config_hash`, and what a scenario's spacecraft put into them |
| `rotation.dfy`, `directions.dfy`, `ray_ellipsoid.dfy`, `covariance.dfy` | rotation, burn and cone axes, ray/ellipsoid intersection and covariance propagation, over the reals |
| `sampling.dfy` | report parsing and decimation |
| `hub.dfy` | the server's scenario store: what it holds and sends over every run of publications, deletions and clock messages |
| `base.dfy` | `Option`, `Result` and `abs` |

Conventions. A function states what an operation computes; where the program works step by step (a loop,
fields of an object) a method does the same steps and its postcondition ties it to that function. Values
that come from outside (GMAT's verdicts, `float`, UTF-8, `sqrt`, white space, Unicode digits, floating-point
rounding) are parameters constrained by no more than what the proofs need, for instance `s >= 0 && s * s == x`
for a square root. Leap seconds follow ITU-R TF.460-6, Annex 1, section 2; rounding follows IEEE 754-2008,
section 4.3.1.

Where the program does something its own documentation does not say, the model follows the program and a
lemma pins the difference:

- A waiter whose wait ends in an exception runs the `finally` and unlinks the record of whoever holds the lock
  (`DockerTestLock.InterruptedWaiterErasesTheRecord`, `DockerTestLock.RaisingRecordIsErased`); nothing else takes
  that record away (`DockerTestLock.RecordLostOnlyByForeignUnlink`).
- A `finally` interrupted between setting the depth to 0 and its unlock leaves the lock held. The thread's next call
  waits for itself, and nobody gets the lock again until its process dies (`DockerTestLock.SelfDeadlock`). Only such
  interrupts do this (`DockerTestLock.WaitsForItselfIff`, `DockerTestLock.ReleasableIff`,
  `DockerTestLock.LeftIffBrokenOff`).
- Flattening newline and carriage return does not stop a command line from forging a field, because
  `splitlines` breaks lines at eight more characters (`HolderRecord.FlatteningIsNotEnough`).
- An unusable record is meant never to stop a waiter, but a pid of 2^31 or more, or one whose characters `isdigit`
  accepts and `int` does not, makes the waiter's description raise (`HolderRecord.DescribeRaisesIff`,
  `HolderRecord.HugePidRaises`, `HolderRecord.SuperscriptPidRaises`).
- A refused registration changes the definitions exactly when a parent was invented for a definition that names
  another one (`Frames.RefusalLeavesFrameIff`, `Frames.StationNamesItsParentTooEarly`), and the realizations whenever
  its own checks passed (`Frames.RefusalChangesRegistryIff`). So a refused NED definition turns the states of the ENU
  station of its id (`Frames.RefusedNedTurnsStation`, `FrameConversion.RefusedNedConverts`);
  `Frames.StaysConsistentIff` says exactly which registrations leave a frame realized otherwise than defined.
- Two kinds of registration make a frame its own parent (`Frames.BodyFixedReRegistered`, `Frames.CanonicalIdAsStation`,
  in general `Frames.OwnParent`).
- A frame declared under a body frame's id takes that frame's place, and the next frame about the body hangs from
  one that is never emitted (`ScenarioFrames.FrameUnderBodyFramesId`); the emitted list is closed under parents
  exactly when `ScenarioFrames.ClosedIffFramesKept` says.
- The leap-second generator checks that dates ascend but not that offsets do, and the conversion is
  increasing exactly when they do (`LeapSeconds.GeneratedIncreasingIff`, `LeapSeconds.DecreasingOffsetsAccepted`).
- `config_hash` does depend on the order of the spacecraft, exactly when two of one name declare different visual
  models: the one later in the list wins (`ScenarioHash.SpacecraftOrderIff`, `ScenarioHash.TwoModelsForOneName`).
- Deleting a scenario keeps its clock, which a new client is sent once a scenario of that name is published again
  (`Hubs.DeletedClockIsReplayed`; `Hubs.ClockOfPresentStayIff` says exactly when a clock sent is an old one).
- The health report and `put` disagree about Earth's texture when there is no texture directory
  (`Hubs.ReportIsWhatPutStores`).
- `decimate` leaves attitude as it was, so a parallel attitude list stays parallel only when no sample was
  dropped (`Sampling.AttitudeStaysParallelIff`).

## Model

| member | source | states |
|---|---|---|
| DockerTestLock.ActionKeepsInv | altavista/docker_test_lock.py:401-454 | every program point of every thread, every kill and every interrupt, those inside a `finally` included, keeps the invariant: each counter is at least the number of open blocks, whoever claims the lock owns the flock through a description it uses or has left open, and the record on disk is the holder's or a killed holder's |
| DockerTestLock.MutualExclusion | altavista/docker_test_lock.py:352-356 | in every reachable state at most one thread of one process is inside the locked body |
| DockerTestLock.CounterIsTheLock | altavista/docker_test_lock.py:144-172 | a positive thread-local depth means this thread owns the flock; the depth is never below the number of open blocks, and at 0 in the caller's code the thread holds the lock exactly when a call of its own, broken off outside its `try`, has left it held |
| DockerTestLock.WaitsForItselfIff | altavista/docker_test_lock.py:369-376 | a thread on its way to, or in, a blocking `flock` holds the lock if and only if such a call of its own has left it held, so nesting alone cannot deadlock |
| DockerTestLock.LeftIffBrokenOff | altavista/docker_test_lock.py:441-454 | a description has been left open if and only if some action of the run broke off, before the `try` or inside the `finally`, the call that used it |
| DockerTestLock.UnbrokenRun | altavista/docker_test_lock.py:401-454 | after every run without interrupts between a count and its `try` or inside a `finally`, the depth is the number of open blocks, a thread in the caller's code holds the lock exactly when its depth is positive, and no thread waits for itself |
| DockerTestLock.ExceptionAnywhere | altavista/docker_test_lock.py:397-454 | an exception enters the `finally` from every point of the `try`, and ends the call with its description open just before the `try` and at every point of the `finally` |
| DockerTestLock.SlipsOvercount | altavista/docker_test_lock.py:401-411 | an exception just after a nested count, or just before it is taken back, leaves the depth one too large with the same blocks open and the lock held |
| DockerTestLock.ReleasedOnlyByOutermostExit | altavista/docker_test_lock.py:439-454 | the lock changes hands only through being free, and is freed only by its holder's own unlock with depth 0 and no block open, or by the death of its process |
| DockerTestLock.ReleasableIff | altavista/docker_test_lock.py:439-454 | a held lock can be had back without killing a process if and only if no broken-off call has left it held; then its holder is alive and frees it by its own steps alone |
| DockerTestLock.LeftForGood | altavista/docker_test_lock.py:441-454 | a lock left held stays held over every run until its process dies |
| DockerTestLock.InterruptedFinally | altavista/docker_test_lock.py:441-453 | a thread in its one block can leave it, set its depth to 0 and be interrupted before the unlock: the lock is then left held with depth 0 |
| DockerTestLock.SelfDeadlock | altavista/docker_test_lock.py:366-376 | after that its next call blocks on its own lock, and in no run is any thread inside a body again before that process dies |
| DockerTestLock.SomebodyWaitsForItself | altavista/docker_test_lock.py:401-454 | a state with a thread waiting for itself is reachable |
| DockerTestLock.RecordNamesTheHolder | altavista/docker_test_lock.py:268-299 | when the pid read back is the pid written, a live one names the process holding the flock at that instant, and a dead one was left by a process killed while holding it |
| DockerTestLock.CleanRecordIsHonest | altavista/docker_test_lock.py:268-328 | the pid read back is the pid written when the texts hold no line separator and the pid is below 2^31 |
| DockerTestLock.ReportIsTrue | altavista/docker_test_lock.py:335-348 | the report a waiter carries into its wait, when the pid read back is the pid written and whatever the others do between the read and the liveness check: it says Unknown exactly when there was no record; a process it calls the holder held the lock at the read; one it calls stale has no thread left; a recorded process that has a thread is called the holder and a killed one stale |
| DockerTestLock.RecordLostOnlyByForeignUnlink | altavista/docker_test_lock.py:439-448 | an action takes away a holder's record if and only if it is the unlink of a thread that never got the lock while somebody else has signed |
| DockerTestLock.RecordAlwaysPresent | altavista/docker_test_lock.py:430-437 | over every run without such an unlink, whoever is in the body has its record on disk |
| DockerTestLock.InterruptedWaiterErasesTheRecord | altavista/docker_test_lock.py:432-448 | whenever a thread is in its body, any idle thread can, by its own steps, wait, be interrupted and erase that thread's record while it keeps the lock |
| DockerTestLock.RaisingRecordIsErased | altavista/docker_test_lock.py:335-348 | when describing the holder's record raises, the call of any idle thread ends, with no interrupt, by erasing that record |
| DockerTestLock.SomebodyGetsIn | altavista/docker_test_lock.py:401-438 | whatever the record's text comes to, a state with one thread in its body, that record on disk and another thread idle is reachable |
| HolderRecord.RoundTripIffClean | altavista/docker_test_lock.py:278-328 | reading what was written returns exactly the four fields if and only if none of the texts holds a character `splitlines` breaks at, whatever '=' signs they hold; the pid read is the pid written |
| HolderRecord.ReadHolderRecord | altavista/docker_test_lock.py:302-328 | the reader's loop over the lines computes the dictionary in which the last line for a key wins, or None when a field is missing or the pid is not digits |
| HolderRecord.ReadableIff | altavista/docker_test_lock.py:320-328 | a record is read if and only if some line begins with each of pid, tree, command and time and a '=', and what follows the last "pid=" that begins a line is digits |
| HolderRecord.ReadIs | altavista/docker_test_lock.py:320-324 | its keys are the texts before the first '=' of some line, and each has the text after that '=' in the last such line |
| HolderRecord.PidAloneIsNoRecord | altavista/docker_test_lock.py:324-325 | a file that holds only "pid=123" is no record |
| HolderRecord.LinesAre | altavista/docker_test_lock.py:320 | where lines end: at any of ten characters, once at "\r\n", and nowhere else; the last line needs no end |
| HolderRecord.WrittenIs | altavista/docker_test_lock.py:278-287 | the text of a record, character by character |
| HolderRecord.CommandLineIsOneLineIff | altavista/docker_test_lock.py:229-238 | the flattened, truncated command line is one line exactly when its first 200 characters hold none of the eight other line separators |
| HolderRecord.CommandLineIs | altavista/docker_test_lock.py:229-238 | up to 200 characters are kept, newline and carriage return as spaces, and a longer command line is cut there and marked |
| HolderRecord.FlatteningIsNotEnough | altavista/docker_test_lock.py:229-238 | any of those eight characters followed by "pid=" and digits makes every reader see those digits as the pid |
| HolderRecord.ForgedPidDecides | altavista/docker_test_lock.py:326-348 | and every waiter's description names that number, or raises when `int` refuses it or it is 2^31 or more |
| HolderRecord.TwoDigitPid | altavista/docker_test_lock.py:342 | two digits, the first a Unicode one, are read as their decimal number |
| HolderRecord.DescribeRaisesIff | altavista/docker_test_lock.py:252-348 | describing the holder raises exactly for a readable record whose pid holds a character that `isdigit` accepts and `int` does not, or is 2^31 or more, which `os.kill` refuses |
| HolderRecord.WrittenRecordNamesItsPid | altavista/docker_test_lock.py:278-348 | a record written from texts without line separators is described by the very pid that was written, when that is below 2^31 |
| HolderRecord.HugePidRaises | altavista/docker_test_lock.py:252-262 | a kept separator and "pid=2147483648" in the holder's command line make every waiter's description raise |
| HolderRecord.SuperscriptPidRaises | altavista/docker_test_lock.py:326-343 | so do a kept separator, "pid=" and a superscript two |
| Frames.FrameRegistry.Register | altavista/frames.py:385-414 | the definitions, the realizations and the answer after a registration, including an invented parent and every refusal in the order the checks come |
| Frames.FrameRegistry.ComputedParent | altavista/frames.py:655-668 | roots need no parent, PLATFORM_BODY hangs from its attitude reference, the others from the body frame ensured for them |
| Frames.FrameRegistry.EnsureBodyAxesParent | altavista/frames.py:680-699 | the smallest matching id, or a new frame under the canonical id, or a refusal when that id is taken |
| Frames.FindIsLeast | altavista/frames.py:670-678 | a parent is found exactly when some registered frame has the axes and body, and it is the lexicographically smallest such id |
| Frames.NamesAre | altavista/frames.py:402-410 | the GMAT name of an accepted definition of each kind |
| Frames.SafeNameIs | altavista/frames.py:340-345 | sanitized names hold letters, digits and underscores only, do not begin with a digit, and keep every such character in its place |
| Frames.CanonicalIs | altavista/frames.py:688 | the id a BODY_FIXED or MJ2000_EQ frame is invented under |
| Frames.RefusedCheckIsTrue | altavista/frames.py:427-628 | each refusal of a definition's own checks says something true of it: the field named is missing, the spacecraft or attitude model named is unknown, GMAT does not build it; GMAT is asked only when the fields checked first are set |
| Frames.RefusedParentIsTrue | altavista/frames.py:648-697 | each refusal for the parent is true: the supplied parent is not the computed one, the canonical id is taken by a frame that does not meet the need, or GMAT does not build the frame to be invented |
| Frames.RefusalLeavesFrameIff | altavista/frames.py:638-653 | a refused registration changes `_defs` if and only if the definition passes its own checks, the frame it needs is not there and can be invented, and it names another parent; the invented frame is then all that is added |
| Frames.RegisteredOkIff | altavista/frames.py:402-414 | a registration succeeds if and only if the definition passes its own checks, a parent can be found or invented for it, and it names no other |
| Frames.RefusalChangesRegistryIff | altavista/frames.py:438-439 | a refused registration changes anything in the registry if and only if the definition passes its own checks and its id was not realized just like that before, or a frame is invented for it |
| Frames.StaysConsistentIff | altavista/frames.py:475-478 | a registration keeps every registered frame realized as its definition says if and only if it is neither a definition refused for its parent under a registered id that is realized otherwise, nor one whose invented parent takes its own id |
| Frames.AlwaysConsistentIff | altavista/frames.py:385-414 | realizations and definitions agree throughout a run if and only if no registration of the run is of those two kinds |
| Frames.FreshRunIsConsistent | altavista/frames.py:385-414 | they agree after any registrations, refused ones included, with distinct, non-empty ids that no registration could invent |
| Frames.RefusedNedTurnsStation | altavista/frames.py:475-478 | a NED definition refused for its parent under an ENU station's id leaves every definition and replaces the station's turn by NED's |
| Frames.SiteIsTurned | altavista/frames.py:402-414 | such a registry is reached by registering "site" on Earth |
| Frames.StationNamesItsParentTooEarly | altavista/frames.py:680-699 | the first ENU frame about Earth, naming EarthBodyFixed as its parent, is refused and leaves the invented frame |
| Frames.SuccessKeepsInvIff | altavista/frames.py:407-414 | an accepted registration keeps the tree invariant if and only if the id is not empty, is not the id of the parent it needs, and replaces no frame that others hang from by one of other axes or body |
| Frames.InvIff | altavista/frames.py:84-99 | the invariant, kind by kind: ENU and NED hang from a BODY_FIXED frame of their body, RIC, VNB and VVLH from an MJ2000_EQ frame of the reference body, PLATFORM_BODY from its attitude reference, all others from nothing |
| Frames.RunKeepsInv | altavista/frames.py:385-414 | the invariant holds after every run whose accepted registrations meet that condition |
| Frames.FreshRunKeepsInv | altavista/frames.py:385-414 | after any registrations with distinct, non-empty ids that no registration could invent, whatever GMAT answers: ENU/NED hang from a registered BODY_FIXED frame of the same body, RIC/VNB/VVLH from a registered MJ2000_EQ frame of the reference body, body and LOCAL_CARTESIAN frames are roots |
| Frames.OwnParent | altavista/frames.py:680-699 | any relative frame accepted under the id of the parent it needs becomes its own parent and breaks the tree |
| Frames.BodyFixedReRegistered | altavista/frames.py:680-687 | registering a BODY_FIXED id again as an ENU frame of the same body makes it its own parent |
| Frames.CanonicalIdAsStation | altavista/frames.py:688-699 | so does a first ENU frame under the canonical id of its body |
| Frames.FrameRegistry.PathToRoot | altavista/frames.py:712-731 | the walk ends on every registry and answers with the repeat-free chain to the root, the chain up to the first id it revisits, or the unregistered id it meets |
| Frames.WalkAnswerIsExact | altavista/frames.py:712-731 | the chain is returned exactly when it reaches the root, a cycle is reported exactly when the chain revisits an id, and a missing parent exactly when it leaves the registry |
| Frames.WalkAnswerIsUnique | altavista/frames.py:712-731 | a registry has only one such answer to a walk |
| Frames.ShortPath | altavista/frames.py:84-91 | in a tree, a frame that is not PLATFORM_BODY is a root or hangs directly from one |
| Frames.FailingWalkIsPlatform | altavista/frames.py:92-99 | in a tree, every registered frame on a walk that does not reach the root is a PLATFORM_BODY frame |
| Frames.FrameRegistry.Children | altavista/frames.py:702-710 | the ids with this parent, each once, ascending; an unregistered non-root id is refused |
| FrameConversion.FreshRunConverts | altavista/frames.py:739-778 | after such a run a conversion succeeds exactly between registered frames that are neither LOCAL_CARTESIAN nor PLATFORM_BODY; GMAT then converts, between the systems the definitions name, the state in km with (east, north, up) handed over as (-north, east, up) and (north, east, down) as (-north, east, -down), and its answer is turned back and given in metres |
| FrameConversion.ConvertRefuses | altavista/frames.py:745-754 | otherwise the first of the two ids that is unregistered, else the first that is LOCAL_CARTESIAN, else the first that is PLATFORM_BODY is named |
| FrameConversion.ThereAndBack | altavista/frames.py:739-778 | converting there and back gives the state back, whatever fixed turns the two frames have, if GMAT's conversions between their systems do |
| FrameConversion.ThroughAThird | altavista/frames.py:739-778 | converting through a third frame is converting directly, if it is for GMAT |
| FrameConversion.EnuToNed | altavista/frames.py:303-312 | between ENU and NED at one place (east, north, up) becomes (north, east, down) |
| FrameConversion.RefusedNedConverts | altavista/frames.py:757-768 | after a refused NED definition under a station's id a conversion from the station answers as before exactly for states whose east equals north and whose up is 0, when GMAT's conversion loses nothing |
| FrameLists.FramesToViewerJson | altavista/cdm.py:450-466 | the loop registers the body frames first and the rest after, each in id order, stops at the first refusal, and returns the frames in id order |
| FrameLists.TurnsAre | altavista/cdm.py:451-454 | the two runs of frames: those of ICRF, MJ2000 or body-fixed axes about a body, by id, and those under no id of these, by id |
| FrameLists.RefusedIsFirst | altavista/cdm.py:456-463 | the refusal names the first frame refused and gives the reason of its registration after all the frames before it |
| FrameLists.OrderDoesNotMatter | altavista/cdm.py:450-466 | when definitions that share an id are equal, the frame list and the refusal depend on which definitions are given, not on their order |
| FrameLists.ViewerFramesAreDeclared | altavista/cdm.py:396-405 | the list is ascending by id and holds exactly the declared frames, changed only in GMAT name and parent |
| FrameLists.ParentsFollowTheRule | altavista/cdm.py:407-416 | with distinct ids every relative frame gets the smallest declared id that meets its need whenever one is declared, and the canonical id otherwise |
| FrameLists.ClosedIffParentsDeclared | altavista/cdm.py:450-466 | with distinct ids the list holds every parent it names if and only if every body frame needed, or a frame under its canonical id, and every attitude reference was declared |
| ScenarioFrames.RegisterBodyAxes | altavista/scenario.py:1189-1196 | a body frame whose axes and body are known is not registered again; the registry, the list and the known keys stay those of registering one list of definitions in turn |
| ScenarioFrames.BuildFrames | altavista/scenario.py:1185-1237 | the three steps with their dictionary of known axes register, in turn, a list of definitions that depends on the arguments only, and stop at its first refusal |
| ScenarioFrames.EmittedAsAsked | altavista/scenario.py:1203-1237 | every list built holds the scenario's and the central body's frames, each (axes, body) once, and every declared frame; its ids are distinct exactly when those asked for are |
| ScenarioFrames.EmittedFieldByField | altavista/scenario.py:1203-1237 | without the body frames the list is, in the order of the declarations, one frame for each with its id, kind, entity and reference body; the scenario's own frame comes first, and every other frame is a body's under the id made of the body and MJ2000Eq or BodyFixed |
| ScenarioFrames.ParentsFirstIff | altavista/scenario.py:1224-1237 | every frame's parent is emitted before it with the axes and body it needs if and only if no later request takes the id of a body frame before a frame that needs it |
| ScenarioFrames.ClosedIffFramesKept | altavista/scenario.py:1224-1237 | the list holds every parent it names if and only if, for each frame, the body frame it needs keeps its id until the frame's turn or the canonical id of that need is asked for too |
| ScenarioFrames.FramesBuiltIff | altavista/scenario.py:1185-1237 | the list is built if and only if every definition passes its own checks and, at each declared frame's turn, its body frame still has its id, or one invented for the same need stands under the canonical id, or that id is free and GMAT builds the frame |
| ScenarioFrames.BuiltIffChecked | altavista/scenario.py:1185-1237 | so when body frames keep their ids, the list is built if and only if every definition passes its own checks: none is refused for its parent |
| ScenarioFrames.FrameUnderBodyFramesId | altavista/scenario.py:1224-1237 | a RIC frame declared as EarthMJ2000Eq becomes its own parent, and a second RIC frame about Earth hangs from an invented frame that is not emitted |
| LeapSeconds.OffsetForTaiNs | altavista/cdm.py:253-263 | the early-exit loop returns the first entry's offset before that entry, and else that of the entry with which all before it have started and the next has not |
| LeapSeconds.OffsetForUtcNs | altavista/cdm.py:266-280 | the same search over UTC instants: at a boundary the new offset |
| LeapSeconds.UtcRoundTrip | altavista/cdm.py:283-297 | UTC to TAI and back is the identity on every integer |
| LeapSeconds.EntriesAgree | altavista/cdm.py:283-297 | both conversions agree with every entry of the table |
| LeapSeconds.IncreasingIff | altavista/cdm.py:293-297 | UTC to TAI is strictly increasing exactly when the offsets never decrease |
| LeapSeconds.TaiRoundTripIff | altavista/cdm.py:283-297 | TAI to UTC and back is the identity exactly outside inserted leap seconds |
| LeapSeconds.TaiRoundTripInserted | altavista/cdm.py:266-280 | inside an inserted leap second it moves forward by exactly the inserted amount |
| LeapSeconds.CheckDeltaAt | scripts/gen_leap_seconds.py:84-94 | the generator accepts exactly the non-empty lists whose dates strictly ascend, and otherwise names the first offending pair |
| LeapSeconds.BuildDocument | scripts/gen_leap_seconds.py:97-122 | one entry per pair, in order: the UTC instant in nanoseconds of 86 400 s days and the TAI instant that plus the new offset |
| LeapSeconds.GeneratedIsDated | scripts/gen_leap_seconds.py:97-122 | every generated table is dated and its entries are at least a day apart |
| LeapSeconds.GeneratedIncreasingIff | scripts/gen_leap_seconds.py:86-94 | its conversion is strictly increasing exactly when the kernel's offsets never decrease, which is not checked |
| LeapSeconds.GeneratedGapsExceedSteps | scripts/gen_leap_seconds.py:97-122 | with steps shorter than a day the generated gaps exceed the steps, as the TAI round trip needs |
| LeapSeconds.DecreasingOffsetsAccepted | scripts/gen_leap_seconds.py:86-94 | a kernel with a negative step is accepted and its conversion runs backwards |
| Epoch.ToA1MjdMonotone | altavista/cdm.py:315-319 | TAI to A1MJD is monotone under any monotone rounding of relative error 2^-53 |
| Epoch.FromA1MjdMonotone | altavista/cdm.py:300-312 | so is A1MJD to TAI, across the sign change of the half-away rounding |
| Epoch.RoundTripWithin | altavista/cdm.py:307-319 | the round trip is off by less than 2 microseconds for TAI instants up to 2e18 ns either side of 1970 |
| Epoch.InstantsStayApart | altavista/cdm.py:315-319 | instants at least 4 microseconds apart get different A1MJD values, in order |
| Epoch.ExactRoundTrip | altavista/cdm.py:307-319 | over the reals the round trip is the identity on every integer |
| Epoch.ExactIsNearest | altavista/cdm.py:300-312 | over the reals the TAI instant is within half a nanosecond of the A1MJD epoch |
| Epoch.DaysOfA1 | altavista/cdm.py:164-172 | A1MJD counts days of the A1 scale from 10587.5 at the Unix epoch |
| Epoch.FixedPoints | altavista/cdm.py:164-172 | TAI -34 381 700 ns is A1MJD 10587.5 and a day later is 10588.5, both ways |
| Epoch.TiesGoAway | altavista/cdm.py:300-304 | ties are rounded away from zero |
| TrajectoryCdm.TrajectoryToCdm | altavista/cdm.py:708-746 | succeeds exactly for a valid model and an attitude that is empty or parallel to t, blames the model exactly when that is blank, and yields the sorted samples, the upgraded space id and the segment |
| TrajectoryCdm.CdmIs | altavista/cdm.py:715-737 | the CDM trajectory field by field, each sample holding its row's quantities in SI units under any state space |
| TrajectoryCdm.RowsAre | altavista/cdm.py:727-728 | the rows are the lists zipped, cut to the shortest, each with its attitude if that list is parallel to t |
| TrajectoryCdm.CdmTrajectoryToViewer | altavista/cdm.py:818-846 | accepts exactly the trajectories with a supported interpolation, a valid model and acceptable samples, and blames one of these that is wrong; returns None exactly for declared spaces without positions; otherwise shows the samples in epoch order |
| TrajectoryCdm.ShownInUnits | altavista/cdm.py:845-880 | what is shown of each sample: components 1 to 6 over 1000, components 7 to 10 as they are, covariance entries over 1 000 000 |
| TrajectoryCdm.CovarianceFitsState | altavista/cdm.py:873-880 | a 6x6 covariance entry that is a product of two components is shown as the product of the two shown, in km and km/s |
| TrajectoryCdm.ShownAs | altavista/cdm.py:830-831 | the name is the caller's, else the entity, else the id, else a fixed one; the model is the declared one, if any |
| TrajectoryCdm.ReadSamples | altavista/cdm.py:839-897 | the pass over the samples succeeds if and only if every mean has six components, attitude and covariance are on all samples or none, and covariances have one common size of 3x3 or 6x6, 6x6 in a declared space; otherwise the error says something true of a sample at the epoch it names |
| TrajectoryCdm.ShownShapes | altavista/cdm.py:884-897 | whatever is accepted has attitude empty or one per sample, and covariances empty or one of cov_dim squared entries per sample |
| TrajectoryCdm.RoundTrip | altavista/cdm.py:730-846 | the CDM of a trajectory is accepted and shows the stable time-sort of its rows: same positions, velocities, attitude and visual model, epochs within half a nanosecond, rows with equal epochs in their original order |
| TrajectoryCdm.ThereAndBack | altavista/cdm.py:708-897 | running both conversions on a valid trajectory gives its sorted rows, model and name back, or nothing exactly when its space has no positions |
| TrajectoryCdm.InOrderAlready | altavista/cdm.py:731 | a trajectory already in time order keeps its own order |
| TrajectoryCdm.SegmentSpans | altavista/cdm.py:738-740 | the segment exists exactly when there are samples and runs from the earliest epoch to the latest |
| TrajectoryCdm.SamplesFitTheirSpace | altavista/cdm.py:715-737 | under the default state space every sample has one component for each the trajectory's space declares, and holds in SI units the quantity it names |
| ConfigHash.ConfigBuffer | altavista/cdm.py:1048-1053 | the loops build the buffer: frame, space id, tool, entities by id, then the tagged models by id |
| ConfigHash.BufferInjective | altavista/cdm.py:1039-1054 | equal buffers come only from equal frame bytes, space ids, tools, sorted entities and visual models, when no entity starts with byte 0x76 and every part is shorter than 2^64 |
| ConfigHash.JoinedInjective | altavista/cdm.py:1053 | the length-prefixed bytes determine the list of parts |
| ConfigHash.ChunksOfJoined | altavista/cdm.py:1053 | reading length by length what was joined gives the parts back |
| ConfigHash.BufferIs | altavista/cdm.py:1048-1053 | read so, the bytes are the frame, the state-space id, the tool, each entity by ascending id, those of one id in list order, and for each declared model by ascending id the tag, the id and the reference |
| ConfigHash.TagSpells | altavista/cdm.py:1052-1053 | the tag is the ASCII of visual_model_uri and lengths are big-endian |
| ConfigHash.BufferStartsWithFrame | altavista/cdm.py:1048-1053 | the bytes begin with the frame's length, big-endian in eight bytes, and the frame |
| ConfigHash.EntityOrderIff | altavista/cdm.py:1049-1050 | every rearrangement of the entities gives the same bytes if and only if entities that share an id are serialized alike |
| Ordering.StringLeqIff | altavista/cdm.py:1049-1051 | ids are ordered by code point: a beginning first, else by the first character that differs |
| ConfigHash.TagNeedsTheFirstByteFact | altavista/cdm.py:1041-1045 | entities whose bytes spelled a declared model would collide with it, so the first-byte fact is needed |
| ScenarioHash.HashInput | altavista/cdm.py:1095-1101 | the loop over the sorted spacecraft rejects an invalid model and hashes the bytes of the frame, the entities and the models kept by name |
| ScenarioHash.RejectedIff | altavista/cdm.py:1097-1099 | nothing is hashed exactly when some spacecraft's model is blank |
| ScenarioHash.ScenarioBytes | altavista/cdm.py:1095-1101 | the bytes read back are the setting, the serialized entity of each spacecraft in name order, and each name's last declared model in name order |
| ScenarioHash.EqualBytesEqualCrafts | altavista/cdm.py:1095-1101 | equal bytes come only from the same serialized entities in name order, the same names if these are told by their bytes, and the same models |
| ScenarioHash.VisualModelIsLast | altavista/cdm.py:1097-1099 | the model hashed for a name is the one declared last, in list order, by a spacecraft of that name |
| ScenarioHash.SpacecraftOrderIff | altavista/cdm.py:1084-1101 | the bytes are the same for every order of the spacecraft if and only if no two of one name declare different models, or some model is invalid |
| ScenarioHash.TwoModelsForOneName | altavista/cdm.py:1097-1101 | two spacecraft called "sat" with the models /a.glb and /b.glb hash different bytes in the two orders |
| Rotation.QuaternionTurnsLikeTheMatrix | altavista/scenario.py:57-69 | for every rotation matrix, in all four branches, none of which divides by zero, the quaternion is a unit and turns every vector as the matrix does |
| Rotation.QuaternionRoundTrip | altavista/bodies.py:73-101 | every unit quaternion is recovered from its matrix, up to the sign that turns nothing |
| Directions.VnbDefined | altavista/scenario.py:783-787 | the VNB axes exist exactly when position and velocity are not parallel |
| Directions.VnbAxes | altavista/scenario.py:783-788 | they are orthonormal and right-handed, V along the velocity and N along the angular momentum |
| Directions.BurnIsAsCommanded | altavista/scenario.py:789 | the applied delta-v has the commanded components on V, N and B and exactly the commanded magnitude |
| Directions.ConeRayAtHalfAngle | altavista/scenario.py:72-84 | every ray of the cone is a unit vector at exactly the half angle from the boresight |
| Directions.ConeRaysApart | altavista/scenario.py:82-84 | two rays have the inner product their azimuths give and turn around the boresight by their difference |
| Directions.ConeStart | altavista/scenario.py:76-81 | azimuth 0 is across the x axis, or across the y axis for a boresight near the x axis |
| RayEllipsoid.IntersectIsFirstHit | altavista/scenario.py:87-110 | a point is returned exactly when some positive t is on the ellipsoid, and it is the point of the smallest such t |
| Covariance.PropagateEntry | goldens/gen_leo_1day.py:179-197 | entry (i, j) of the flat result is the mean of the double sums of phi[i, k] p0[k, l] phi[j, l] and of phi[j, k] p0[k, l] phi[i, l], which are one for a symmetric covariance |
| Covariance.PropagatePreservesCovariance | goldens/gen_leo_1day.py:187-197 | for every Phi the result is symmetric, and positive semidefinite if the covariance was; for a symmetric covariance the reported asymmetry is 0 and the result is Phi P Phi^T itself |
| Covariance.PropagateComposes | goldens/gen_leo_1day.py:187-197 | propagating any matrix by Phi and then Psi is propagating it by Psi Phi, and the second step reports no asymmetry |
| Covariance.AsymmetryReport | goldens/gen_leo_1day.py:195-196 | the reported asymmetry is 0 exactly when the product was symmetric, and exactly then symmetrizing changes nothing |
| Covariance.AsymmetryIsLargest | goldens/gen_leo_1day.py:195 | the reported asymmetry is the largest difference of two mirrored entries of the product |
| Sampling.ParseReport | altavista/scenario.py:256-277 | the loop keeps, in order, exactly the lines with seven numbers whose first is at least that of every earlier such line: column 0 is the time, 1 to 3 the position, 4 to 6 the velocity |
| Sampling.KeptAscending | altavista/scenario.py:259-260 | the kept times never decrease and every kept row is a row of the report |
| Sampling.EqualEpochSurvives | altavista/scenario.py:259-260 | a row at the epoch of an earlier kept row is kept unless a later time came between |
| Sampling.Decimate | altavista/scenario.py:280-290 | the three lists are picked at the same indices; a negative limit raises, ValueError for a zero step and IndexError otherwise, and changes nothing |
| Sampling.KeepIs | altavista/scenario.py:282-286 | the kept indices increase from the first to the last point, are at most the limit plus one, and lie at most a stride apart |
| Sampling.LeftIs | altavista/scenario.py:280-290 | a decimated ascending list is ascending, has the same first and last point and at most limit plus one points |
| Sampling.LeftAt | altavista/scenario.py:280-290 | what is left is every stride-th point and the last one, the stride being the quotient rounded up |
| Sampling.AttitudeStaysParallelIff | altavista/scenario.py:287-289 | an attitude list parallel to t stays parallel exactly when nothing was dropped |
| Hubs.Hub.Put | altavista/server.py:299-311 | the stored scenario, with imagery, profile and textures filled in, and the name listed once |
| Hubs.Hub.Remove | altavista/server.py:313-318 | the hub's fields stay those of the run of operations done to it; nothing changes and the answer is false exactly when the name is not stored |
| Hubs.Hub.Publish | altavista/server.py:488-498 | the hub's fields stay those of the run of operations done to it, and no clock of another scenario is left |
| Hubs.Hub.StateToSend | altavista/server.py:337-343 | after any run the listed latest scenario is found in the store and sent, with the clock the run determines |
| Hubs.StoreOverRuns | altavista/server.py:253-321 | over every run of publications, deletions and clock messages the list holds exactly the stored names, once each, in the order of their first publication since their last removal; what is stored for a name is its last publication, prepared; and with a texture directory no stored body names a /textures/ URL that would not be found |
| Hubs.ValidHubIsConsistent | altavista/server.py:299-318 | the fields of a hub meet that at every moment of its life |
| Hubs.StoredAsPublished | altavista/server.py:253-311 | what is stored of a scenario, field by field and body by body: a /textures/ URL that names no file becomes the pyramid's image for Earth if that is installed, and nothing otherwise |
| Hubs.OnlyEarthGainsAUrl | altavista/server.py:270-273 | a body other than Earth never gains a texture URL |
| Hubs.LastIsLatest | altavista/server.py:337-343 | the name sent is the one that began its present stay last |
| Hubs.ClockIff | altavista/server.py:494-496 | the clock is c if and only if some message set it to c and since then no message set it and, unless c is empty, no other scenario was published |
| Hubs.ClockIsGivenLatest | altavista/server.py:1000-1006 | a clock message that names no scenario is given the one that had begun its present stay last |
| Hubs.ClockSentIff | altavista/server.py:337-343 | a clock is sent exactly when a surviving message set it and its scenario is the one that began its present stay last |
| Hubs.ClockOfPresentStayIff | altavista/server.py:337-343 | a clock sent was set during the present stay of its scenario if and only if that scenario was stored when the clock was set and was not deleted since |
| Hubs.DeletedClockIsReplayed | altavista/server.py:313-318 | publish, set the clock, delete, publish again: a new client is sent the deleted scenario's clock |
| Hubs.PutIsIdempotent | altavista/server.py:276-311 | with the files fixed, putting a scenario again, as given or as stored, changes nothing |
| Hubs.ReportIsWhatPutStores | altavista/server.py:238-251 | the health report's URL is what `put` stores for Earth exactly when there is a texture directory |
| Hubs.ReportIsTrue | altavista/server.py:247-251 | the report says GMAT's file exactly when the file is present, and the pyramid only when it is installed |

## Left out

- The lock is a transition system over a state value, not a class: its program points interleave across processes, and a class with methods would hide exactly those points. `flock`, `os.replace`, `unlink` and `kill(pid, 0)` are atomic steps; fork inheritance, pid reuse, a failing `unlink`, and the text written to stderr are not modelled.
- The holder record is modelled on characters: undecodable bytes and file errors, which the reader turns into None, are not; nor is the interpreter's limit on the digits `int` reads, which further refuses only pids with thousands of leading zeros.
- GMAT: its coordinate conversion, which is a parameter, propagation, attitude models and the objects `register` builds. A `Gmat` value answers for a spacecraft name, an attitude model and a definition; it is arbitrary, and the same throughout one list of frames.
- What GMAT's systems were built from: the model names a frame's system, and GMAT gives the object it already has under a name. So a station registered again at another place keeps its first place, and ids with one sanitized name share a system. The Python objects kept in `bodies.py`, and `rotation_matrix`, which returns GMAT's own matrix.
- Frame definitions, scenarios and bodies are values: that `register`, `put` and the texture step also change the caller's own object is not captured.
- A frame list's `originTrack` extension, the protobuf JSON transcoding, `bodies_from_frames` and state-space transcoding.
- NaN, infinities and overflow. Geometry, covariance, trajectories and sampling are over the reals (`n / max_points` included); rounding is modelled where it is the point, in the A1MJD conversions.
- That the rays of a cone are evenly spaced, the spherical footprint and the illumination fraction: trigonometry beyond cos^2 + sin^2 = 1.
- SHA-256 and the protobuf serialization: the proof stops at the bytes handed to the hash, and entities are byte strings whose first byte is never 0x76.
- `parse_delta_at`'s regular expression, calendar dates and the document's fixed texts: the generator starts from (offset, day) pairs.
- Splitting and stripping report lines, and `float` itself, which is a parameter.
- Color, label, provenance, dynamics labels and error texts of trajectories; a model that is not a string; a scenario's events.
- `sample_times`, the script rewriting, profiles, imagery manifests, routes other than publish, delete and clock, WebSockets, logging and static files: plumbing, or members that would only be easy.
- Everything written in Rust.
