# Verified model of epochd's clock injection

epochd makes processes see a time other than the real one. It maps a page of
machine code into a process, patches the three wall-clock functions of the
process's vDSO to jump into that page, and then only rewrites a 32-byte struct
at the end of the page to change what the process reads. A tracker follows
forks and execs so that a whole tree of processes keeps the fake time, and a
controller keeps a registry of which container was shifted to which time.

This project follows that path from a request for a time down to the bytes a
caller of `clock_gettime` finds in its buffer, and states what holds over every
input, every interleaving and every run.

* **Machine code.** `Machine`, `Stubs` model the instructions of the three stubs
  on registers, a stack and byte memory, with the kernel's clobbering of rcx and
  r11 (System V AMD64 ABI, appendix A.2.1) and with a concurrent writer of the
  struct. `Effects` and `Calls` reason about one instruction and about the blocks
  the stubs share; `ClockGettime`, `Gettimeofday` and `TimeStub` prove each stub
  against exact clock arithmetic (`Clocks`), including that the call returns with
  the stack balanced, the callee-saved registers of section 3.2.1 of that ABI
  intact, and nothing else written.
* **Across the languages.** `StateStruct` and `GoClock` are the Go writers. Their
  range guarantee discharges the precondition of the assembly, and `Readings`,
  `Agreement` and `TornReads` state what a caller reads after a Go-side update,
  how the three functions agree, and what a read that races an update can return.
* **The injector.** `GapSearch`, `Jumps`, `Traced` and `Injector`: the page search
  with wrapping arithmetic, the reach of the jumps, the borrowed code bytes and
  registers, and the order of patching, over a traced process all of whose ptrace
  calls may fail.
* **Process trees.** `ProcessTree`, `TreeInvariants`, `TreeTimes` and
  `ChildTracking`: the kernel's forks, execs, exits and signals against the
  tracker's handling of them, over unbounded trees and runs. `BulkFreezes` lets a
  bulk freeze run under them, and `TreeReadings` takes them down to what a call in
  one of the processes returns. `Handles`, `Updates` and `Sessions` are single
  updates, Advance, bulk updates and pruning.
* **The controller.** `Registry` says what each critical section does;
  `Controllers` is the code itself, with timeshifts as mutable objects whose
  handle slices are filtered in place; `Conflicts` and `PodEvents` are properties
  of whole requests and pod events; `Races` lets the two critical sections of
  creates and pod events interleave, and `Provenance` is every interleaving of
  critical sections and agent calls.

Several comments and documents of the original claim more than the code does.
The code is modelled as it is, and the exact condition is proved:

* Every clock but the two wall clocks is said to pass straight through
  (`pkg/trampoline/trampoline.asm:29-33`), but the stub zeroes the result
  register, so a clock the kernel refuses looks like success
  (`ClockGettime.Passthrough`, `Readings.RefusedClockLooksFine`).
* The three functions are said always to agree to the second
  (`pkg/trampoline/trampoline.asm:187-189`). gettimeofday truncates the real time
  and the offset separately and can be one second off
  (`Agreement.SecondsDisagreeIff`).
* A read that races an update is said to return a time between the old and the
  new (`README.md:125-127`). It can overshoot by almost a second
  (`TornReads.TornBetweenIff`, `TornReads.TornReadCanOvershoot`).
* Proximity to one hook is said to guarantee proximity to all
  (`pkg/inject/inject.go:284-288`). The chosen page can be just out of reach of
  the very hook the search is anchored at (`Jumps.HooksReach`,
  `Jumps.SearchCanMissAnchor`).
* Every call of clock_gettime after Freeze is said to return exactly the target
  (`pkg/inject/inject.go:227-229`). That needs its whole seconds to fit an int64
  (`Readings.FreezeThenRead`), and SetTime needs the difference from now to fit a
  Duration (`Readings.SetTimeThenRead`).
* Advancing a timeshift is said to move its offset or its frozen instant
  (`cmd/controller/controller.go:360-362`). It takes the mode from the request,
  so it does that only if the request names the mode the timeshift is in
  (`Registry.AdvancedIff`).
* The registry refuses a create that conflicts, but two creates that check before
  either registers, and pod events, which do not check at all, can make two
  timeshifts hold one container (`Races.RacingCreatesIff`,
  `Races.SomeCreatesRace`, `PodEvents.EventConflictFreeIff`,
  `PodEvents.WatcherCanConflict`).

## Model

| member | source | states |
|---|---|---|
| `StateStruct.DecodeEncode` | pkg/trampoline/trampoline.go:55-80 | Decoding an encoded struct gives back all four fields, for every int64, mask and generation. |
| `StateStruct.EncodeDecode` | pkg/trampoline/trampoline.go:55-80 | Re-encoding a decodable buffer gives back its first 28 bytes: the decoder is injective too. |
| `StateStruct.Decode` | pkg/trampoline/trampoline.go:70-80 | Decoding is refused exactly for buffers shorter than 32 bytes. |
| `StateStruct.Fields` | pkg/trampoline/trampoline.go:34-41 | The offsets the assembly loads from hold exactly the field the Go writer put there, and byte 16 is the low byte of the mask. |
| `StateStruct.EncodeState` | pkg/trampoline/trampoline.go:59-67 | The buffer that is filled in place is the struct layout, byte for byte, padding zero. |
| `StateStruct.PutLe` | pkg/trampoline/trampoline.go:61-64 | A little-endian put writes exactly its n bytes at its offset and leaves the rest of the buffer. |
| `Words.LeRoundTrip` | pkg/trampoline/trampoline.go:61-78 | Reading n little-endian bytes gives the number modulo 256^n. |
| `Words.LeUnique` | pkg/trampoline/trampoline.go:61-78 | Bytes are determined by the number they stand for. |
| `Words.Int64RoundTrip` | pkg/trampoline/trampoline.go:61-76 | Eight bytes written from an int64 read back as that int64, sign included. |
| `Words.Int32RoundTrip` | pkg/inject/inject.go:339-341 | Four bytes written from an int32 displacement read back as that displacement. |
| `Stubs.ForwardOnly` | pkg/trampoline/trampoline.asm:35-246 | Every branch of the three stubs goes forward and stays inside the code. |
| `Stubs.Run` | pkg/trampoline/trampoline.asm:35-246 | From any instruction of a stub every run ends, in a return or a fault. |
| `Stubs.Processor.Call` | pkg/trampoline/trampoline.asm:35-246 | Executing instruction by instruction in place ends in the state and at the return address of the run. |
| `Clocks.OneStepIsFloor` | pkg/trampoline/trampoline.asm:64-80 | One carry or borrow gives floor quotient and remainder exactly when the sum lies in [-unit, 2 unit). |
| `Clocks.WrappedSum` | pkg/trampoline/trampoline.asm:58-80 | Adding in wrapping registers and correcting once is floor division in the integers, seconds modulo 2^64. |
| `Calls.SyscallBlock` | pkg/trampoline/trampoline.asm:49-54 | The push/pop bracket around a system call keeps rdi, rsi and rsp although the kernel clobbers rcx, r11 and rax. |
| `Calls.ModeDispatch` | pkg/trampoline/trampoline.asm:42-46 | The two mask tests choose passthrough, freeze or advancing by the bits each of them saw, even if a writer acts in between. |
| `Calls.Correct` | pkg/trampoline/trampoline.asm:66-80 | The compare/branch block leaves the one-step correction of the sum in the caller's buffer and touches nothing else. |
| `Calls.Exit` | pkg/trampoline/trampoline.asm:98-100 | From a balanced state the stub returns zero to the address its caller pushed, callee-saved registers and foreign memory as at entry. |
| `ClockGettime.SelectClock` | pkg/trampoline/trampoline.asm:36-39 | Interception is considered exactly for clock ids 0 and 5, compared on the low 32 bits of rdi. |
| `ClockGettime.Advancing` | pkg/trampoline/trampoline.asm:35-100 | Advancing mode: the call returns 0 with tp holding the floor seconds and nanoseconds of the kernel's reading plus the stored offset, and nothing else changed. |
| `ClockGettime.FrozenReading` | pkg/trampoline/trampoline.asm:82-100 | Freeze mode: tp holds the two stored words, without a system call, and nothing else changed. |
| `ClockGettime.Passthrough` | pkg/trampoline/trampoline.asm:26-100 | Otherwise the buffer is the kernel's, and the result is the system call's exactly when the kernel knows the clock: an error is turned into success. |
| `Readings.RefusedClockLooksFine` | pkg/trampoline/trampoline.asm:90-100 | A concrete call for a clock the kernel refuses with EINVAL, which returns 0. |
| `Gettimeofday.Advancing` | pkg/trampoline/trampoline.asm:110-175 | Advancing mode: tv holds the real microseconds plus the offset truncated to microseconds, normalised; a null tv is left alone; tz is the kernel's. |
| `Gettimeofday.FrozenReading` | pkg/trampoline/trampoline.asm:153-175 | Freeze mode: tv holds the stored instant truncated to microseconds; tz is not written. |
| `Gettimeofday.Passthrough` | pkg/trampoline/trampoline.asm:165-175 | With interception off both buffers are the kernel's and the call returns 0. |
| `Gettimeofday.AdvanceTv` | pkg/trampoline/trampoline.asm:124-151 | The truncating division, the two additions and the correction give the normalised sum of the microsecond parts. |
| `TimeStub.Advancing` | pkg/trampoline/trampoline.asm:191-246 | Advancing mode: time returns the floor second of the real clock plus the offset, in rax and through a non-null tloc, with its scratch stack given back. |
| `TimeStub.FrozenReading` | pkg/trampoline/trampoline.asm:233-246 | Freeze mode: time returns the stored seconds, also through a non-null tloc. |
| `TimeStub.Passthrough` | pkg/trampoline/trampoline.asm:240-246 | With interception off time is the bare system call. |
| `TimeStub.CorrectSeconds` | pkg/trampoline/trampoline.asm:212-222 | The carry or borrow reaches the scratch seconds although the nanoseconds are discarded. |
| `GoClock.Sub` | pkg/inject/inject.go:370-371 | The difference of two times is exact exactly when it fits an int64 of nanoseconds, and otherwise the end of the range on its side. |
| `GoClock.DiffSecNsec` | pkg/inject/inject.go:368-375 | The pair stands for the difference and its nanoseconds lie strictly within a second either way. |
| `GoClock.Unix` | pkg/inject/inject.go:230-234 | Seconds and nanoseconds of a frozen target stand for it exactly when its seconds fit an int64; the nanoseconds are in [0, 1e9). |
| `GoClock.WritersAreWellformed` | pkg/inject/inject.go:222-234 | Every struct that SetTime, Freeze, injection or re-injection writes meets the range that the assembly's single correction needs, saturated or not. |
| `Readings.AdvancingRead` | pkg/trampoline/trampoline.asm:41-80 | Whatever mixture of struct words the loads saw in advancing mode, the caller reads real time plus those words, in normal form. |
| `Readings.FrozenRead` | pkg/trampoline/trampoline.asm:82-88 | Whatever mixture of words the loads saw in freeze mode, the caller reads exactly those words, in normal form. |
| `Readings.SetTimeThenRead` | pkg/inject/inject.go:219-225 | After SetTime(target) at base, clock_gettime at t reads target + (t - base) exactly if and only if the difference fits a Duration; always with tv_nsec in [0, 1e9). |
| `Readings.FreezeThenRead` | pkg/inject/inject.go:227-234 | After Freeze(target), clock_gettime reads exactly target if and only if its seconds fit an int64. |
| `Agreement.TimeAgrees` | pkg/trampoline/trampoline.asm:181-189 | time() equals clock_gettime's tv_sec in both modes, machine code against machine code. |
| `Agreement.TodAgrees` | pkg/trampoline/trampoline.asm:127-162 | gettimeofday is within 1 microsecond of clock_gettime truncated, and equal exactly when frozen or when the sub-microsecond parts neither carry nor borrow. |
| `Agreement.LostCarry` | pkg/trampoline/trampoline.asm:129-135 | The difference is at most one microsecond and none if the offset is whole microseconds. |
| `Agreement.SecondsDisagreeIff` | pkg/trampoline/trampoline.asm:187-189 | gettimeofday and clock_gettime disagree on the second exactly when the lost carry meets a second boundary. |
| `Agreement.SecondsCanDisagree` | pkg/trampoline/trampoline.asm:187-189 | A concrete instant, offset and pair of calls for which the two buffers hold different seconds. |
| `Agreement.MicroSum` | pkg/trampoline/trampoline.asm:129-143 | The truncated nanosecond sum is the sum of the truncated parts plus the lost carry. |
| `TornReads.TornReading` | pkg/trampoline/trampoline.asm:41-88 | A call that races a same-mode update returns the reading made of one of the two seconds words and one of the two nanoseconds words. |
| `TornReads.TornReadBound` | pkg/inject/inject.go:356-366 | A read that races a same-mode update is normalised and less than 2 s (1 s frozen) from the reading under the state whose seconds word it saw, for any order of the word writes. |
| `TornReads.TornBetweenIff` | README.md:125-127 | Every run of the stub that races a same-mode update returns a time between the old and the new one exactly when the update does not move seconds and nanoseconds in opposite directions. |
| `TornReads.TornReadCanOvershoot` | README.md:125-127 | Freezing at 1.9 s and then at 2.1 s: a concrete run of the stub that races the second write and returns 2.9 s. |
| `GapSearch.FindNearbyGap` | pkg/inject/inject.go:386-467 | In 64-bit wrapping arithmetic, the scan returns the lowest aligned page inside the clamped window that misses every span, and fails only if there is none. |
| `GapSearch.Fits` | pkg/inject/inject.go:440-446 | A page that fits before the next span is free and the lowest one. |
| `GapSearch.Skips` | pkg/inject/inject.go:433-451 | If no page fits before a span, every free page lies above that span. |
| `GapSearch.Exhausted` | pkg/inject/inject.go:456-466 | If nothing is left at the end of the scan, the window holds no free page at all. |
| `GapSearch.AlignUp` | pkg/inject/inject.go:443 | Rounding up gives the next page boundary wherever it does not wrap. |
| `Jumps.JmpRoundTrip` | pkg/inject/inject.go:323-341 | The five bytes jump to the intended stub exactly when the range check passes. |
| `Jumps.ReachIff` | pkg/inject/inject.go:284-330 | The range check can fail for no page of the window exactly under two inequalities on the hook's distance and position in its page. |
| `Jumps.HooksReach` | pkg/inject/inject.go:284-330 | With the search anchored at the highest hook and the others at most 3794 bytes below, the other two always reach, and the anchor itself does exactly when it lies at 1 to 4091 in its page. |
| `Jumps.FreePageReaches` | pkg/inject/inject.go:320-330 | Under those conditions the range check passes for all three hooks on every page the search can return. |
| `Jumps.SearchCanMissAnchor` | pkg/inject/inject.go:284-330 | With the vDSO at a page start and nothing mapped below it, the lowest free page, which the search returns, is out of reach of the anchor. |
| `Traced.Tracee.PokeText` | pkg/procmem/procmem.go:238-250 | A poke lands whole or not at all. |
| `Traced.Tracee.Resume` | pkg/inject/inject.go:544-562 | The kernel's side of one mmap attempt: any stop, any registers, a page only where the flags allow one, and no memory content on the way but that page's. |
| `Injector.TryOnce` | pkg/inject/inject.go:534-562 | One attempt maps at most one free page and never replaces a mapping, with MAP_FIXED too. |
| `Injector.TryAttempts` | pkg/inject/inject.go:534-581 | Over all attempts at most one free page is mapped, and at no moment does anything else differ. The calls made ask for exactly the page given, first without and then with leave to replace, the second exactly after EBADF or EEXIST; the attempts fail only if a call failed or the last answer was an errno. |
| `Injector.MmapThroughStub` | pkg/inject/inject.go:511-583 | At every moment and on every path, only the eight borrowed bytes and fresh pages differ, and the borrowed bytes are the originals with or without the stub in front. |
| `Injector.RemoteMmap` | pkg/inject/inject.go:492-583 | At every moment up to every exit only the borrowed bytes and fresh pages differ. On every exit, if the latest poke took effect every byte outside the fresh page is as before, and if the latest setting of the registers took effect they are as before. No mapping is replaced. Each mmap call it makes is spelt out register by register, and with no failing call it fails exactly if the last one was refused. |
| `Injector.PatchOne` | pkg/inject/inject.go:320-346 | One poke takes an entry from its original bytes to a jump into the complete payload and moves nothing else. |
| `Injector.PatchEntries` | pkg/inject/inject.go:320-347 | At every moment of the loop each entry is original or hooked; on success all are hooked and the saved bytes are the originals. It succeeds exactly if no call failed and every hook reaches its stub. |
| `Injector.Install` | pkg/inject/inject.go:299-353 | From the payload's first byte to every exit, each entry is original or jumps into the complete payload. The payload's write failing is reported exactly if it failed. |
| `Injector.InjectAtTime` | pkg/inject/inject.go:40-47 | A successful injection leaves the advancing struct for target, at the clock reading before it, generation 0; one in which no call failed fails only for want of a page, of a mapping or of reach. |
| `Injector.InjectFrozen` | pkg/inject/inject.go:49-56 | The same, with the frozen struct for target. |
| `Injector.InjectWithTracer` | pkg/inject/inject.go:283-354 | Every memory content of the process is accounted for: until remoteMmap is over nothing jumps anywhere, from then on no entry ever jumps to unwritten code; if remoteMmap failed, bytes and registers are restored under the same conditions; on success only page and entries differ, writing back the saved bytes restores the rest, the page holds the template's code and then the struct of the words given, and each of the three functions jumps to its own stub. The page asked for is the lowest free one in the window; injection succeeds exactly if no call fails, there is one, the kernel maps it and all three functions reach it, and the error names what failed. |
| `Injector.WriteBackRestores` | pkg/inject/inject.go:332-346 | Writing the saved five bytes back undoes every change outside the trampoline page. |
| `Handles.InjectHandle.WriteState` | pkg/inject/inject.go:356-366 | A write that lands leaves exactly the encoded struct with the next generation; one that fails gives the generation back and leaves at most a prefix of that struct. Success is reported exactly if the write landed. Nothing else changes. |
| `Handles.InjectHandle.SetTime` | pkg/inject/inject.go:219-225 | One write, and success exactly if it landed: then the struct in the process is the advancing struct for target and the clock reading of the call. No byte outside the struct changes. |
| `Handles.InjectHandle.Freeze` | pkg/inject/inject.go:227-234 | One write, and success exactly if it landed: then the struct in the process is the frozen struct for target. No byte outside the struct changes. |
| `Handles.Handle.Forked` | pkg/faketime/faketime.go:864-881 | The handle built for a forked child, its address copied from the parent's (pkg/inject/inject.go:203-213) and its generation 0, is the one the tree model uses, exactly when the shifted offset is a Duration. |
| `Handles.Handle.SetTime` | pkg/faketime/faketime.go:136-147 | Struct, generation and record change exactly if the one write landed, the record to the offset at the clock reading after the write. |
| `Handles.Handle.Freeze` | pkg/faketime/faketime.go:149-161 | Struct, generation and record change exactly if the one write landed, the record to the frozen target. |
| `Handles.Handle.Advance` | pkg/faketime/faketime.go:163-175 | One Advance makes one write: if it lands, struct and record say the old setting moved by d, at the clock readings it really made; if not, record and generation stay. |
| `Handles.AdvanceTelescopes` | pkg/faketime/faketime.go:163-175 | Over any sequence of Advance calls the mode stays; a frozen handle is at start plus the durations that took effect, an advancing one at that minus exactly the time its own calls took. |
| `ChildTracking.ChildTracker.TrackedPIDs` | pkg/faketime/faketime.go:740-754 | The polled pids are the parent until its exit was seen, and every known child. |
| `ChildTracking.ChildTracker.HandleExec` | pkg/faketime/faketime.go:921-984 | handleExec re-injects at the handle's current time and swings the handle that belongs to the pid; an unknown pid is only resumed. |
| `ChildTracking.ChildTracker.HandleEvent` | pkg/faketime/faketime.go:819-919 | Each stop is handled as the event specification says, fork handles built from the forking process's own handle, and the right signal is forwarded. Whatever goes wrong, the process runs again unless it has exited, and no other process changes. |
| `ChildTracking.ChildTracker.PollOne` | pkg/faketime/faketime.go:792-810 | One exact-pid poll is one allowed step of the system if the pid has something to report and nothing if not, and loses no other tracked pid. |
| `ChildTracking.ChildTracker.WatchPass` | pkg/faketime/faketime.go:756-817 | A whole pass of the watch loop is a run of poll steps, exactly one for each pid of its snapshot that had something to report, each on a pid tracked at that moment; after it none of the snapshot stands still. |
| `Updates.UpdateOne` | pkg/faketime/faketime.go:136-161 | One handle's update: a write to a live process and then a record at a later clock reading, or neither; ESRCH exactly for a dead process, another error exactly when the kernel refuses the write. |
| `ChildTracking.ChildTracker.ApplyAll` | pkg/faketime/faketime.go:571-624 | A bulk update succeeds exactly when the kernel refused no write to a live process, and then, if nothing else happens meanwhile, it is one bulk step of the system, in whatever order the handles are updated. In any case the dead children leave, exactly as many live handles as there were refusals stay as they were, record and process, and every other live one is on the new setting. |
| `ChildTracking.ChildTracker.UpdateHandle` | pkg/faketime/faketime.go:136-161 | One tracked handle's SetTime or Freeze is one update step of the system, unless the kernel refuses the write: then nothing changes. |
| `TreeInvariants.SoundStep` | pkg/faketime/faketime.go:743-984 | Every kernel event, poll, update and prune keeps the tree invariant when re-injection works. |
| `TreeInvariants.SoundFork` | pkg/inject/inject.go:203-213 | A kernel fork that nobody has heard of yet leaves the child with the forker's address space and stopped. |
| `TreeInvariants.SoundPoll` | pkg/faketime/faketime.go:819-984 | Handling one event keeps every handle pointing at its process's own struct. |
| `TreeInvariants.HandledRuns` | pkg/faketime/faketime.go:819-984 | Handling whatever a tracked process stopped for, also a fork that cannot be named and a re-injection that fails, ends with that process running, or forgotten if it exited, and no other process changed; a re-injected exec says what its own handle said. |
| `TreeInvariants.HandledBooks` | pkg/faketime/faketime.go:819-984 | Handling an event rewrites at most the handle of the pid that reported an exec, or adds the one of the child that pid forked, showing what that pid's own handle showed; the waiting list and the reported error change exactly where they should. |
| `TreeInvariants.SoundRun` | pkg/faketime/faketime.go:743-984 | The invariant holds after every run from one injected process. |
| `TreeInvariants.HandlesPointRight` | pkg/faketime/faketime.go:743-984 | After every run each tracked live process not at an unhandled exec has a handle with its own pid and the address where its struct lies; an untracked one has not run yet. |
| `TreeInvariants.FirstStopsAreRecognised` | pkg/faketime/faketime.go:774-790 | After every run a child is awaited exactly while it stands at its birth stop, so a signal is swallowed exactly if it is that stop or a trap. |
| `TreeTimes.BulkReachesAllIff` | pkg/faketime/faketime.go:577-624 | A bulk setting that nothing interrupts brings the whole tree to the new time if no fork awaits handling, and a bulk freeze to a new instant only then. |
| `BulkFreezes.FreezeReachesAllIff` | pkg/faketime/faketime.go:577-624 | A bulk freeze whose writes and records interleave in any way with forks, execs, exits and the watch loop ends with the whole tree on the new instant exactly when nobody is left behind, as told from the order of those steps alone. |
| `BulkFreezes.FollowKeepsMarks` | pkg/faketime/faketime.go:819-984 | Each step passes being behind on as forks copy structs, fork handling copies records and exec handling turns records into structs. |
| `BulkFreezes.CalmFreezeReachesAllIff` | pkg/faketime/faketime.go:577-624 | While nobody execs or exits, that is exactly when no fork awaited handling at the snapshot, every process of the snapshot forked only after its own write, and each of its forks was handled only after its own record. |
| `BulkFreezes.TakenApart` | pkg/faketime/faketime.go:149-161 | For a live process the write step and the record step, one after the other, are its handle's whole Freeze. |
| `TreeTimes.OnTimeStep` | pkg/faketime/faketime.go:873-957 | Every step keeps every record and every struct on the time last set. |
| `TreeTimes.OnTimeRun` | pkg/faketime/faketime.go:743-984 | Soundness and punctuality hold together after every run. |
| `TreeTimes.FrozenTreesAreExact` | pkg/faketime/faketime.go:873-886 | Over every run whose last setting was a freeze, every process of the unbounded tree that is not at an exec or unheard of carries exactly that instant, through fork copies and re-injections. |
| `TreeTimes.AdvancingTreesLagBoundedly` | pkg/faketime/faketime.go:929-957 | Over every run, every offset in a record, and in the struct of every tracked process not at an unhandled exec, is at most the offset set and lags it by at most the real time since. |
| `TreeReadings.UpdateWritesItsWords` | pkg/inject/inject.go:219-234 | The tree model's update of a struct is the one whose words SetTime and Freeze write. |
| `TreeReadings.FrozenTreeReads` | pkg/faketime/faketime.go:873-886 | Over every such run, a clock_gettime call executed by any running process of the tree returns the frozen instant, iff its seconds fit an int64. |
| `TreeReadings.AdvancingTreeReads` | pkg/faketime/faketime.go:929-957 | Over every run, such a call at t returns t plus the offset last set, less at most the real time since. |
| `TreeTimes.RefusedAtExecKeepsOldTime` | pkg/faketime/faketime.go:958-966 | A freeze refused at an unhandled exec is lost: re-injection restores the old instant. |
| `Sessions.Session.CallEach` | pkg/faketime/faketime.go:1018-1028 | Updating handle by handle, even if the list shares handles: ESRCH exactly for dead processes, done exactly with record and struct on the new setting, one other error for each write the kernel refused, nothing else changed. |
| `Sessions.EndedStep` | pkg/faketime/faketime.go:1021-1027 | One more update keeps what the earlier ones achieved. |
| `Sessions.Session.ApplyAll` | pkg/faketime/faketime.go:1004-1070 | Exactly the primary handles of dead processes leave, the rest keeps its order; the setting is committed iff the kernel refused no write, and then every handle that stays, and every live child of every tracker, is on it in record and struct. |
| `Sessions.ExtraMembers` | pkg/faketime/faketime.go:1013-1016 | The handles gathered beside the primary ones are exactly the children of all trackers. |
| `Sessions.WithoutInOrder` | pkg/faketime/faketime.go:1046-1059 | What is kept is kept in order. |
| `Sessions.WithoutCounts` | pkg/faketime/faketime.go:1046-1059 | Every occurrence of a dropped handle goes and every other occurrence stays. |
| `Sessions.Session.Prune` | pkg/faketime/faketime.go:1072-1121 | Exactly the trackers whose parent is dead leave; a handle stays exactly if it is no dead tracker's and either a live tracker's or alive itself; the count is trackers plus handles less the handles counted as trackers. |
| `Sessions.LiveTrackersCounts` | pkg/faketime/faketime.go:1077-1086 | Every tracker whose parent lives stays as often as before, and no other does. |
| `Sessions.LiveTrackersInOrder` | pkg/faketime/faketime.go:1077-1086 | They stay in order. |
| `Sessions.DeadParentsCounted` | pkg/faketime/faketime.go:1089-1104 | If each tracker's handle is in the list once, the dead parents' handles are as many as the dead trackers. |
| `Sessions.PruneCounts` | pkg/faketime/faketime.go:1072-1121 | The returned count is the number of handles dropped exactly when that is so, hence whenever each tracker's handle occurs once. |
| `Registry.InjectedExactly` | cmd/controller/controller.go:235-261 | A pod yields one handle for each running container with an ID whose injection succeeded, under that container's own ID and handle. |
| `Registry.InjectedInOrder` | cmd/controller/controller.go:235-261 | Those handles come in the order of the containers, each with the pod's name and node, the container's name and ID, and the agent's answer. |
| `Registry.InjectCallsInOrder` | cmd/controller/controller.go:235-261 | Injecting a pod makes one Inject for each running container with an ID, in order, to the pod's node, with the target and mode asked for. |
| `Registry.UpdateCallsInOrder` | cmd/controller/controller.go:314-337 | An update makes, handle by handle in order, one SetTime to the handle's node for its agent handle with the target and mode asked for, followed exactly if that was answered NotFound by one Inject of its container on that node with the same target and mode. |
| `Controllers.ResetAll` | cmd/controller/controller.go:399-410 | Resetting makes one Reset for each handle in order, to its node for its agent handle. |
| `Registry.ReissuedExactly` | cmd/controller/controller.go:313-337 | An update collects exactly the handles an agent no longer knew and could re-inject. |
| `Registry.AppliedEntry` | cmd/controller/controller.go:341-346 | Applying an update moves no entry: at most the agent handle of entry i changes, to one re-injected at i for the same container. |
| `Registry.AppliedInPeace` | cmd/controller/controller.go:296-346 | If the list was not rewritten, exactly the re-injected entries get exactly their new handle. |
| `Registry.RetimedShows` | cmd/controller/controller.go:347-354 | After an update the shift shows the target, and stays or advances from it, exactly when frozen or the difference fits a Duration; nothing but its setting changes. |
| `Registry.CreatedLives` | cmd/controller/controller.go:186-204 | A created shift has the namespace, selector and handles given, is retimed like an updated one, and is swept exactly once a positive ttl is over. |
| `Registry.AdvancedIff` | cmd/controller/controller.go:360-377 | Advancing moves the setting by delta, and keeps its mode, exactly if the request names the mode the shift is in and no offset leaves the range of a Duration. |
| `Registry.OthersInOrder` | cmd/controller/watcher.go:95-100 | The filter keeps exactly the other pods' entries, in their order. |
| `Controllers.Timeshift.constructor` | cmd/controller/controller.go:186-204 | The record created for a request: mode, offset or frozen instant, expiry and handles. |
| `Controllers.Timeshift.ApplyUpdate` | cmd/controller/controller.go:339-355 | The critical section of an update writes handles in place and retimes the object it holds, registered or not. |
| `Controllers.FilterInPlace` | cmd/controller/watcher.go:95-100 | The filter over the array it reads from leaves the other pods' entries, in order, as its prefix. |
| `Controllers.Append` | cmd/controller/watcher.go:101 | The new handles follow the retained ones, in the same array if they fit its capacity. |
| `Controllers.Timeshift.ReplacePod` | cmd/controller/watcher.go:93-103 | Afterwards the slice is the other pods' handles in order followed by exactly the new ones, and nothing else of the timeshift changed. |
| `Controllers.InjectPod` | cmd/controller/controller.go:235-261 | The loop yields the handles of the specification and makes exactly its calls, each with the target and mode asked for. |
| `Controllers.Reissue` | cmd/controller/controller.go:313-337 | The unlocked loop retimes every handle, re-injects exactly those not found, both with the target and mode asked for, and collects the updates of the specification. |
| `Controllers.Controller.CreateTimeshift` | cmd/controller/controller.go:164-230 | Create refuses iff there are no pods or an injectable container is held, reports each such container, makes no call when it refuses, and registers iff something was injected. |
| `Controllers.Controller.OccupiedContainers` | cmd/controller/controller.go:505-517 | The map holds exactly the keys of held containers, each with a timeshift that holds it. |
| `Controllers.Controller.CheckConflicts` | cmd/controller/controller.go:519-548 | The conflicts name every held container among those injection would take, and nothing else. |
| `Controllers.Controller.UpdateTimeshift` | cmd/controller/controller.go:293-358 | A whole update changes exactly the timeshift asked for: it is retimed, exactly the entries that were lost and re-injected get their new agent handle, and each agent is told the target and mode asked for. |
| `Controllers.Controller.AdvanceTimeshift` | cmd/controller/controller.go:360-377 | Advance is that update, in the mode the request names, to the target computed from the setting at the first clock reading. |
| `Controllers.Controller.Delete` | cmd/controller/controller.go:379-411 | Delete removes exactly the timeshift asked for and resets each of its handles once. |
| `Controllers.Controller.SweepExpired` | cmd/controller/controller.go:429-453 | The sweep removes exactly the expired timeshifts and resets each of their handles once. |
| `Controllers.Controller.HandlePodEvent` | cmd/controller/watcher.go:38-110 | A running pod's event makes agents inject exactly for the timeshifts of its namespace whose selector matches and that have no entry for some running container, at each one's own effective time and mode. |
| `PodEvents.EventExactly` | cmd/controller/watcher.go:57-103 | If any container accepts, such a timeshift ends with its entries of other pods and one for each container that accepted; nothing else changes in the registry. |
| `PodEvents.AllContainersHandled` | cmd/controller/watcher.go:112-127 | The map-building check answers whether every running container has an entry of this pod with its ID. |
| `PodEvents.RefreshedHandledIff` | cmd/controller/watcher.go:68-103 | After a successful refresh the pod counts as handled iff no running container lacks an ID. |
| `PodEvents.SecondEvent` | cmd/controller/watcher.go:38-110 | When every injection succeeded, the same event again reaches no agent if every running container has an ID, and otherwise exactly the timeshifts it reached before. |
| `PodEvents.HoldsAfter` | cmd/controller/watcher.go:93-103 | A timeshift that takes anything of a pod afterwards holds of it exactly what it took; every other holding stays. |
| `PodEvents.EventConflictFreeIff` | cmd/controller/watcher.go:57-102 | A pod event keeps the registry conflict-free, whatever the agents answer, exactly when before it no injectable container of the pod that it would inject for one timeshift is held, or would be injected, for another. |
| `PodEvents.AnsweredEventConflictFreeIff` | cmd/controller/watcher.go:57-102 | With the answers given: exactly when nothing it takes for one timeshift is taken or kept by another. |
| `PodEvents.WatcherCanConflict` | cmd/controller/watcher.go:57-102 | A concrete registry and pod whose event ends in a conflict. |
| `Conflicts.KeyInjective` | cmd/controller/controller.go:505-517 | The NUL-joined key identifies namespace, pod and container if namespace and pod name hold no NUL. |
| `Conflicts.KeysCanCollide` | cmd/controller/controller.go:512 | With a NUL in a namespace or pod name two containers share a key. |
| `Conflicts.OccupiedIff` | cmd/controller/controller.go:521-541 | A key is found in the map exactly when some timeshift holds that container, and then it names one that does. |
| `Conflicts.ReportedNothingIff` | cmd/controller/controller.go:521-548 | The check passes exactly when no container that injection would take is held. |
| `Conflicts.InjectedAreChecked` | cmd/controller/controller.go:235-241 | Injection takes no container that the check did not look at: both use the same filter. |
| `Conflicts.RefusedIff` | cmd/controller/controller.go:519-548 | A create is refused exactly if a running container with an ID, of its namespace and pods, is held by a registered timeshift. |
| `Conflicts.CreatedExactly` | cmd/controller/controller.go:179-208 | A create that passes registers one new shift, with a handle for each container that runs, has an ID and accepted, and nothing if there is none. |
| `Conflicts.CreateCallsInOrder` | cmd/controller/controller.go:179-182 | Its calls are those of its pods, one after the other, with its target and mode. |
| `Conflicts.UpdatedEntries` | cmd/controller/controller.go:296-355 | A whole update renews the agent handle of exactly the entries that were lost and re-injected. |
| `Conflicts.RequestKeepsConflictFree` | cmd/controller/controller.go:164-453 | Each whole create, update, delete and sweep keeps every container with at most one active timeshift. |
| `Conflicts.ReachableConflictFree` | cmd/controller/controller.go:164-453 | So does every sequence of them from an empty registry. |
| `Conflicts.ReachableNamed` | cmd/controller/controller.go:164-453 | And if created names are NUL-free, the key check stays exact over every sequence. |
| `Conflicts.UpdateHolds` | cmd/controller/controller.go:296-358 | An update changes no holding. |
| `Races.SpacedRunsAreConflictFree` | cmd/controller/controller.go:164-208 | However creates' checks and registrations, pod events' matches and writes (cmd/controller/watcher.go:57-103), updates, deletes and sweeps interleave, the registry stays conflict-free if no check or match is let through while a flight for another timeshift claims one of its containers, and no match while another timeshift holds one. |
| `Races.UnspacedStepCanConflict` | cmd/controller/watcher.go:57-103 | From any point of any such run, one check or match that is not spaced is at most two steps away from a conflict. |
| `Races.LandingGains` | cmd/controller/watcher.go:93-103 | A registration or a rewriting gives a timeshift only containers that its flight claimed. |
| `Races.CreateAlone` | cmd/controller/controller.go:164-208 | A create that nothing separates is the whole-request create. |
| `Races.EventAlone` | cmd/controller/watcher.go:57-103 | A pod event that nothing separates does to the timeshift what the whole event does. |
| `Races.RacingCreatesIff` | cmd/controller/controller.go:175-208 | Two creates that both check before either registers stay conflict-free, whatever the agents answer, exactly when their requests want no common container. |
| `Races.SomeCreatesRace` | cmd/controller/controller.go:175-208 | Two concrete creates of one pod, on an empty registry, that end in a conflict. |
| `Conflicts.PodAdditionConflictFreeIff` | cmd/controller/watcher.go:93-103 | The watcher's critical section breaks conflict freedom exactly when another timeshift holds a container it adds. |
| `Provenance.StepKeepsBacked` | cmd/controller/controller.go:296-358 | Every single agent call and critical section of any thread keeps every handle backed by an answered Inject for its own container. |
| `Provenance.AppliedBacked` | cmd/controller/controller.go:341-346 | That survives an update whose list was rewritten between snapshot and apply. |
| `Provenance.HandlesAreIssued` | cmd/controller/controller.go:296-358 | After every interleaving of creates, updates, pod events, deletes and sweeps, every entry and everything a thread has yet to apply carries a handle issued for that entry's container. |
| `Provenance.HandlesAreIssuedOnTheirNode` | cmd/controller/watcher.go:81-103 | If a container ID names its node, the handle was issued by the very agent the entry addresses. |
| `Provenance.UpdateAlone` | cmd/controller/controller.go:296-358 | An update whose steps no other thread interrupts is the whole-request update. |
| `Provenance.CreateAlone` | cmd/controller/controller.go:179-208 | So is a create that passed its check. |
| `Provenance.EventAlone` | cmd/controller/watcher.go:81-103 | So is a pod event, for a timeshift it matches. |
| `Provenance.RemovalsAlone` | cmd/controller/controller.go:379-453 | Deletes and sweeps do to the registry what the whole requests do, and touch no object and no thread. |

## Left out

- HTTP handlers, command line tools, the SDK, gRPC and generated code, metrics, logging, informers and manifests.
- Persistence of the registry in a ConfigMap, and Kubernetes events on expiry.
- Parsing of `/proc/<pid>/maps`, ELF symbols and cgroups: span lists and hook addresses are inputs.
- `trampoline.bin` is not part of this model: the stubs are modelled from the assembly source, instruction by instruction, not from the assembled bytes.
- The contents of struct timezone, EFAULT and a null tp: the kernel is taken to accept the caller's buffers.
- Aligned eight-byte loads and stores of the struct are taken to be atomic; no bound is stated for reads that race a switch between advancing and frozen mode.
- `runWatchLoop` of `faketimectl`: a second watch loop, over wildcard waits.
- Failing re-injection after an exec, reuse of process IDs, and pruning that races handleExec: excluded from the tree runs.
- vfork's shared address space: every fork is a copy.
- A SetTime or Freeze that lands inside the handling of one event, such as between handleExec's reading of the target and its swapping of the handle (pkg/faketime/faketime.go:929-981): updates fall between steps of the watch loop.
- A bulk SetTime, or a session's bulk update, taken apart: in the tree runs it is one step with a clock reading of its own for each handle; BulkFreezes takes a bulk Freeze apart.
- The tree that a session's trackers watch: sessions share Handle objects with their trackers' lists of children, but the watch loops stand still during a bulk update.
- Injector.InjectAtTime: attaching to the process, finding the three functions in its vDSO and detaching; their addresses are inputs.
- Controllers.Controller.AdvanceTimeshift: stated with no other request between its reading of the setting and its update.
- Data races on a deleted timeshift's handles, which resetHandles reads without the lock.
- GapSearch.FindNearbyGap: assumes sorted, disjoint spans that end below the last two pages of the 64-bit address space, as Linux reports them.
- Jumps.ReachIff: stated away from the two ends of the address space, where the window is not clamped.
- Readings.SetTimeThenRead: the real clock is taken to be within 2^62 seconds of the epoch, so that its sum with an offset does not wrap.
- TreeTimes.AdvancingTreesLagBoundedly: offsets are unbounded integers, where Go's time.Until saturates.
- TreeTimes.FrozenTreesAreExact: bulk settings in the run report no error; TreeTimes.RefusedAtExecKeepsOldTime shows why.
- TreeInvariants.SoundStep: a write to a struct lands whole or not at all here; Traced.Tracee.WriteMem keeps the partial write.
- Controllers.Controller.CreateTimeshift: a fresh ID is taken to be unused.
- Provenance.HandlesAreIssued: a SetTime call and the Inject that its answer causes are one action, since SetTime itself changes nothing here; creates inject whether or not their conflict check passes, which only adds runs.
- Controllers.Controller.SweepExpired: the reset calls are listed with the removal, where the source makes them after it has let go of the lock.
- Traced.Tracee.PokeText: a poke is taken to land whole or not at all, where the kernel writes it word by word.
- Traced.Tracee.Resume: a SIGTRAP stop is taken to be the stub's own breakpoint, after its system call.
- Controllers.Controller.HandlePodEvent: stated for an event that no other request interrupts; Races and Provenance cover the interruptions.
