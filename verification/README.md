# libsysinfo: a model of its stateful core, with proofs

libsysinfo reads `/proc` on Linux and keeps state between calls. This project models
the parts where that state, or the shape of a kernel file, makes the answer hard to
predict, and proves what callers can rely on.

- **Lazy cache and shared samplers** (`src/processinfo.cpp`). A `ProcessInfo` reads a
  source at its first use after `needUpdate()` and answers from its fields afterwards.
  All instances share one map from pid to a copied `ProcessInfo`, which holds the
  baselines of the CPU, I/O read and I/O write samplers. `Info` gives the operations on
  values, `ProcessInfo.dfy` and `Program.dfy` give the mutable objects on the heap, and
  each method there is proved equal to the operation on values, so what is proved of
  runs in `LazyCache`, `LazyProgram`, `UsageCache`, `NonInterference`, `Baselines`, `CpuAccounting`,
  `IoAccounting` and `Solo` holds of the objects.
- **The smaps parser** (`readSmaps`, the `MMap` constructor): `Smaps`, `Mmap`.
- **The text readers**: `NulFiles` (cmdline, environ), `StatFile`, `KeyValue` and
  `Assignments` (io, status), `CpuInfo`, `Tcp`, over the library routines of `Text`
  (`getline`, `trim`, `split`) and `Numbers` (`stoi`, `stol`, `>>`, wrap-around).

## How the source is represented

- What the kernel shows while an operation runs is a value of type `Proc`: the text of
  each file (`None` when it cannot be opened), the links, the machine clock, the time.
  An operation that throws because a number does not convert answers `Exception`, and
  leaves behind whatever it had already assigned (`Outcome`, `Threw`).
- Memory that no statement initialises is the parameter `junk`, about which nothing is
  assumed. A baseline is "unset" when it still holds such bytes.
- The eleven `m_need_update_*` flags of sources are one set, `need`; the three flags of
  computed usages are separate fields. The map is a `map` from pid to object.
- `int`, `unsigned int`, `long` and `unsigned long` are 32 and 64 bits wide and wrap
  where the source converts or subtracts. `double` is `real`; clock ticks are
  nanoseconds.
- `ioTotalUsage()` adds two calls in an order the language leaves open, so the order is
  a parameter and the theorems hold for both.
- What the kernel shows over time is a hypothesis on the files, not on the library's
  state: `StatFile.ShowsTicks` and `IoAccounting.ShowsBytes` say what reading a file makes
  of a counter from any cached value, and the run theorems assume that these values never
  drop. Printed and unreadable files meet them (`StatFile.PrintedShowsTicks`,
  `StatFile.UnreadableShowsTicks`, `IoAccounting.PrintedShowsBytes`,
  `IoAccounting.UnreadableShowsBytes`).
- Copying an instance copies every field, as the implicit copy constructor does.
- The 49 extractions of `readStat` that store numbers are written as a loop over field
  positions. A region of smaps is never changed after its constructor, so it is a value
  that a method builds. The fixed regular expressions are direct recognisers.

## Where the code departs from what it suggests

Each of these is a theorem, with the exact condition where there is one.

- The mapping offset is hexadecimal text read in base 10: right only below 10
  (`Mmap.OffsetExact`). When it starts with a letter, as from 0xa0000000 to 0xffffffff, or has
  too many digits before its first letter, `stol` throws (`Mmap.OffsetThrowsIff`), and
  that region and all later ones are lost (`Smaps.SmapsRoundTrip`,
  `Smaps.HighMappingThrows`).
- A process name with whitespace shifts the stat line: only its first word is kept, the
  other words are read as the state and the first numbers, and the ticks never move again,
  for names up to 21 characters, where the kernel's limit is 15
  (`StatFile.StatSpacedName`, `StatFile.StatSpacedTicks`). The ticks are read whatever was
  cached exactly when the name holds no whitespace (`StatFile.PrintedShowsTicks`). Any
  parenthesis in the name is lost (`StatFile.StatNameExact`).
- A Vm size from 2^31 kB, or an I/O counter from 2^63, makes the whole reading throw
  (`KeyValue.VmPrintedLine`, `KeyValue.IoRoundTrip`).
- smaps sizes are stored only when they have one digit and a key without underscore
  (`Mmap.SizesStored`, `Mmap.SizePrintedLine`); every other attribute with an alphabetic
  key overwrites the flags (`Mmap.VmFlagsLastWriter`); a flag list that starts with a lone digit is not stored
  (`Mmap.VmFlagsRoundTrip`).
- The environment, the open files and the id vectors accumulate over refreshes
  (`LazyCache.EnvironOfRun`, `LazyCache.FdsOfRun`, `LazyCache.IdsOfRun`).
- The second I/O rate of an epoch is always zero, because the first one moved the
  baseline of both (`IoAccounting.SecondRateIsZero`); bytes seen only by the other
  direction are lost to the account (`IoAccounting.IoAccountingOfRun`).
- Process ticks at samples where the machine clock stood still are dropped
  (`CpuAccounting.SamplesAccount`). With several instances of a pid, the process
  difference of a result wraps around exactly when the instance answers from a reading
  that is behind the last sample (`CpuAccounting.ProcessWrapsIff`); the shortest case, on
  printed stat lines, answers -100 % (`CpuAccounting.StaleExample`).
- The pattern for TCP sockets wants whitespace before the slot number, which the kernel
  right-aligns in four places: sockets from slot 1000 on are silently dropped
  (`Tcp.SocketRoundTrip`, `Tcp.TcpRoundTrip`).
- In cpuinfo a printed switch such as `fpu` is never on, because its value is compared
  with the blank that the kernel prints before it (`CpuInfo.SwitchLine`); the microcode
  revision is always 0 (`CpuInfo.MicrocodeLine`); four keys are spelled otherwise than the
  kernel does and never stored (`CpuInfo.MisspelledIgnored`).
- The number of cores is the number of blank lines of cpuinfo
  (`CpuInfo.CoresCountBlankLines`).

## Model

| member | source | states |
|---|---|---|
| `LazyCache.ReadsAreFirstUses` | src/processinfo.cpp:69-85 | In any run the file reads actually made for a source are the first use in each epoch and nothing else, computed by a reference that knows no flags: at most one reading per epoch unless the reader throws, whatever the order of getters and computed usages. |
| `LazyCache.FieldsAreReplay` | src/processinfo.cpp:551-559 | The fields of a source depend only on the initial ones and on its own readings in order; the flag discipline is kept by every run. |
| `LazyCache.LazyRefinesEager` | src/processinfo.cpp:69-85 | After any run of a new instance each source equals the eager replay of the snapshots taken at its first uses. |
| `LazyCache.GetterReturnsFirstUses` | src/processinfo.cpp:812-820 | What a getter returns at the end of any run is that replay with its own use included; it throws exactly when the source is due and the text it reads holds a number that does not convert. |
| `LazyCache.StableInEpoch` | src/processinfo.cpp:606-624 | Once read, a source is not read again and its getter changes neither state nor answer until `needUpdate()`, whatever else is called and whatever the kernel shows. |
| `LazyCache.StepEffect` | src/processinfo.cpp:1338-1366 | Every operation changes the fields of a source only by the one reading it makes, clears its flag only if the reader returned, and keeps the invariant that an up-to-date computed value has an up-to-date source. |
| `LazyProgram.ReadsAreFirstUsesOf` | src/processinfo.cpp:69-85 | In any program with any number of instances, also of the same pid, the reader of a source runs for an instance exactly at its first use in each epoch of that instance. |
| `LazyProgram.FieldsAreReplayOf` | src/processinfo.cpp:551-559 | In any program the fields of an instance depend only on its initial ones and on its own readings. |
| `LazyProgram.LazyRefinesEagerOf` | src/processinfo.cpp:69-85 | In any program an instance holds, from its creation on, the replay of the snapshots at its own first uses. |
| `LazyProgram.GetterReturnsFirstUsesOf` | src/processinfo.cpp:812-820 | In any program that replay, the getter's own use included, is what a getter answers, unless the source is due and its text does not convert. |
| `LazyProgram.StableInEpochOf` | src/processinfo.cpp:606-624 | In any program a source once read stays as it is until that instance is told to update, whatever the other instances do. |
| `UsageCache.UsageStable` | src/processinfo.cpp:1338-1366 | Once `cpuUsage`, a rate or the total has answered, it answers the same until `needUpdate()`, over any calls and any kernel, and asking again changes neither the instance nor the shared baselines; the total in either operand order. |
| `UsageCache.UsageStableOf` | src/processinfo.cpp:1338-1431 | The same in any program, whatever other instances do in between; asking again leaves the whole world as it is. |
| `UsageCache.TotalIsSum` | src/processinfo.cpp:1428-1431 | The total is the sum of what the two rates answer when they are asked for afterwards. |
| `LazyCache.EnvironOfRun` | src/processinfo.cpp:1079-1094 | After any run the environment is the override union of all readings, later over earlier. |
| `LazyCache.FdsLastWins` | src/processinfo.cpp:1136-1152 | For any links each number is bound to the target of the last link that has it, or left as it was; no other number appears. |
| `LazyCache.FdsOfRun` | src/processinfo.cpp:1136-1152 | After any run each number is bound to its target in the last reading that showed it, and to nothing if none did. |
| `LazyCache.FdsNeverForgotten` | src/processinfo.cpp:1147 | A descriptor seen in any reading is still listed after all later ones. |
| `LazyCache.CmdlineOfRun` | src/processinfo.cpp:841-849 | After any run the command line is that of the last reading alone. |
| `LazyCache.PathsOfRun` | src/processinfo.cpp:823-839 | After any run cwd, exe and root are the links shown at the last reading of each, and empty before any. |
| `LazyCache.MapsOfRun` | src/processinfo.cpp:1178-1214 | After any run the regions are those of the last reading alone. |
| `LazyCache.WchanOfRun` | src/processinfo.cpp:1129-1134 | After any run the wchan name comes from the last file that could be read. |
| `LazyCache.WchanShown` | src/processinfo.cpp:1129-1134 | It is the first line of that file, with or without a newline; an unreadable file leaves it alone. |
| `LazyCache.UnreadableFiles` | src/processinfo.cpp:841-849 | What each reader makes of a file that cannot be opened: cmdline and regions are emptied, of io only the time is set, the others keep what they had. |
| `LazyCache.UnreadableInstance` | src/processinfo.cpp:851-928 | A new instance whose stat file cannot be opened has its pid, no name, no state, and uninitialised numbers. |
| `LazyCache.IdsOfRun` | src/processinfo.cpp:947-965 | After any run the uid and gid vectors are all the ids ever read, in order, those of readings that threw later in the file included. |
| `LazyCache.IdsAccumulate` | src/processinfo.cpp:947-965 | Any successive readings append and change no earlier entry, so index 0 stays that of the first line read; the vectors grow by fours whenever the ids themselves fit, also when a Vm size throws. |
| `NonInterference.RunProjection` | src/processinfo.cpp:15 | From worlds that look alike to a pid, any interleaving with events of other pids gives the pid's instances the same answers and the same final state and map entry as their own events alone. |
| `NonInterference.NonInterferenceOfPids` | src/processinfo.cpp:1368-1477 | From one world, any interleaving gives a pid what its own operations alone would give it, for a fixed core count. |
| `NonInterference.InterleavingIrrelevant` | src/processinfo.cpp:1368-1477 | Two interleavings with the same operations on a pid give it the same answers. |
| `NonInterference.CopyBehaves` | src/processinfo.cpp:1380 | A copied instance answers any operation as its source would. |
| `Sampling.StepLocal` | src/processinfo.cpp:1376-1394 | One operation sees of the statics only the entry of its own pid (and the core count, if it computes CPU usage) and changes no other entry. |
| `Sampling.StepCores` | src/processinfo.cpp:1435 | The core count is set at most once, by the first CPU usage that can read it. |
| `Solo.SoloInstance` | src/processinfo.cpp:15 | In any program the only instance of a pid ends where its own calls alone would lead it, map entry included, so the results on runs of one instance apply inside any program. |
| `Baselines.StepMoves` | src/processinfo.cpp:1377-1393 | No operation removes an entry; the CPU baseline of the entry becomes exactly the CPU sample taken or stays, and likewise the I/O baseline. |
| `Baselines.BaselinePermanence` | src/processinfo.cpp:1455-1473 | After any run of any instances an entry once made is still there and each baseline is the most recent sample of its kind, by whichever instance of the pid took it. |
| `Baselines.CpuResultFromLastSample` | src/processinfo.cpp:1462-1474 | In any program, once a pid has been sampled, every later CPU result is computed against its most recent genuine sample. |
| `Baselines.IoResultFromLastSample` | src/processinfo.cpp:1383-1394 | In any program, once a pid has an I/O sample, every later rate that is due is computed against its most recent one, whichever instance and direction took it. |
| `Baselines.FirstSampleIsZero` | src/processinfo.cpp:1455-1460 | The first sample of a pid, CPU or I/O, answers 0 and makes the entry. |
| `Baselines.FirstUsageIsZero` | src/processinfo.cpp:1377-1381 | In any program, as long as no instance of a pid has sampled anything, its first usage answers 0. |
| `CpuAccounting.PercentIsFloor` | src/processinfo.cpp:1469 | When products and quotient fit their types, the mixed 32/64-bit expression is the exact floor of 100·nb_core·ΔP/ΔC. |
| `CpuAccounting.PercentWithinBound` | src/processinfo.cpp:1469 | The result is at most 100·nb_core if and only if 100·nb_core·ΔP < (100·nb_core + 1)·ΔC; in particular whenever ΔP ≤ ΔC. |
| `CpuAccounting.CpuUsageBound` | src/processinfo.cpp:1453-1476 | In any program whose kernel clocks never run backwards, a result of a sampled pid from an instance that is not stale has nonnegative differences and, in range, is that exact floor with the same bound. |
| `CpuAccounting.SamplesAccount` | src/processinfo.cpp:1462-1476 | For any list of genuine samples: process ticks are counted or dropped, none twice, and Σ u·ΔC ≤ 100·nb_core·Σ ΔP < Σ (u+1)·ΔC over the samples with ΔC ≠ 0. |
| `CpuAccounting.RunIsGenuine` | src/processinfo.cpp:1462-1473 | If the ticks the kernel shows never drop, every sample of a run of one instance with a valid baseline is computed from the one before it with a nonnegative process difference, although the stat file may have been read long before the machine clock. |
| `CpuAccounting.TicksStep` | src/processinfo.cpp:246-264 | One operation changes the cached ticks only by the reading it makes, and a sample taken while the reading is due makes it. |
| `CpuAccounting.CpuAccountingOfRun` | src/processinfo.cpp:1433-1477 | The account, for whole runs of one instance: from the first baseline to the entry left in the map. |
| `CpuAccounting.SamplingValidates` | src/processinfo.cpp:1455-1473 | One CPU sample makes the baseline valid, also when an I/O usage had made the entry with uninitialised CPU fields. |
| `CpuAccounting.PrintedTicks` | src/processinfo.cpp:246-264 | A printed stat line of the pid shows the pid, and reading it leaves the ticks of the record it was printed from. |
| `CpuAccounting.PrintedSample` | src/processinfo.cpp:1445-1453 | A CPU sample is the 64-bit sum of words 14 and 15 of the stat line, and of the four counters of the machine. |
| `CpuAccounting.ProcessWrapsIff` | src/processinfo.cpp:1453-1467 | In any program whose kernel ticks never drop, the difference of a due result wraps around if and only if the stat flag of the instance is down and its cached ticks are below the last sample of the pid; so an instance whose reading is due never wraps. |
| `CpuAccounting.StaleInstanceWraps` | src/processinfo.cpp:1453-1467 | The three-step case of it from two new instances: the result uses 2^64 minus the regression. |
| `CpuAccounting.StaleExample` | src/processinfo.cpp:1453-1469 | The same on printed stat lines with one core: 1 tick behind after one machine tick is reported as -100. |
| `IoAccounting.StepShares` | src/processinfo.cpp:1371-1395 | Every operation of a single instance keeps: once a rate of the epoch has been computed the baseline is the very reading both rates use, and once both have, one of them is zero. |
| `IoAccounting.SecondRateIsZero` | src/processinfo.cpp:1398-1426 | The second of the two rates computed in an epoch is exactly zero. |
| `IoAccounting.IoTotalIsFirstRate` | src/processinfo.cpp:1428-1431 | After any run of a new instance the total equals the rate computed first in the epoch, for either operand order and whichever rates were already computed, unset baseline included. |
| `IoAccounting.BytesConserved` | src/processinfo.cpp:1380-1392 | For chained samples with growing counters: Σ rate·Δt plus the bytes missed is the last counter minus the first, and the bytes missed are never negative. |
| `IoAccounting.RunGrows` | src/processinfo.cpp:1368-1426 | If the counter the io files show never drops, no sample of a run of one instance shows fewer bytes than the baseline it is compared with. |
| `IoAccounting.PrintedShowsBytes` | src/processinfo.cpp:1096-1127 | A printed io file shows its bytes from any cached record, in any order of its lines. |
| `IoAccounting.PrintedReadRate` | src/processinfo.cpp:1371-1388 | Against a baseline, the read rate of a printed file is the growth of `read_bytes` times 10^9 over the nanoseconds elapsed. |
| `IoAccounting.PrintedWriteRate` | src/processinfo.cpp:1401-1418 | The same for the write rate and `write_bytes`. |
| `IoAccounting.RatesBetweenFiles` | src/processinfo.cpp:1368-1426 | Two printed files one epoch apart: both rates are the growth of their own counter per second, whatever the map held and whichever usage made the baseline. |
| `IoAccounting.IoAccountingOfRun` | src/processinfo.cpp:1368-1426 | The account for whole runs of one instance under such files, between the first and the last baseline: the rates show all the bytes if and only if none was missed. |
| `IoAccounting.OrderSetsFlags` | src/processinfo.cpp:1348-1366 | If in each epoch a usage of one direction with a readable io file comes before any usage of the other, the flags make its rate the first computed in every epoch. |
| `IoAccounting.IoConservation` | src/processinfo.cpp:1371-1395 | For calls in that order, with the clock moved at the samples of that direction, its Σ rate·Δt is exactly the bytes between the first and the last baseline; for both directions. |
| `ProcessInfoClass.StaticState.Insert` | src/processinfo.cpp:1380 | The new entry is a fresh copy: it is neither an instance nor an entry of another pid, and no existing entry moves. |
| `ProcessInfoClass.StaticState.MoveCpuBaseline` | src/processinfo.cpp:1471-1473 | Writing through the map changes the CPU fields of one pid's entry and no other entry. |
| `ProcessInfoClass.StaticState.MoveIoBaseline` | src/processinfo.cpp:1391-1392 | Writing through the map replaces the I/O record of one pid's entry and nothing else. |
| `ProcessInfoClass.ProcessInfo.constructor` | src/processinfo.cpp:42-62 | A new instance has every flag up, empty containers and the pid; all other fields hold what was in memory. |
| `ProcessInfoClass.ProcessInfo.NeedUpdate` | src/processinfo.cpp:69-85 | All fourteen flags go up and no field changes. |
| `ProcessInfoClass.ProcessInfo.ReadCmdline` | src/processinfo.cpp:841-849 | The loop leaves exactly the pieces of the text, whatever was there before. |
| `ProcessInfoClass.ProcessInfo.ReadEnviron` | src/processinfo.cpp:1079-1094 | The loop overrides the old map entry by entry, from left to right. |
| `ProcessInfoClass.ProcessInfo.ReadStat` | src/processinfo.cpp:851-928 | The extractions leave the decoded record; after a failed one the later fields keep their old values. |
| `ProcessInfoClass.ProcessInfo.ReadIo` | src/processinfo.cpp:1096-1127 | The time is set first; the loop folds the lines and stops at the first number that does not convert, keeping what it had assigned. |
| `ProcessInfoClass.ProcessInfo.ReadStatus` | src/processinfo.cpp:930-1077 | The loop folds the lines over the old record, ids appended, and stops where a conversion throws, ids already pushed included. |
| `ProcessInfoClass.ProcessInfo.ReadFd` | src/processinfo.cpp:1136-1152 | The links override the old map in order. |
| `ProcessInfoClass.ProcessInfo.Utime` | src/processinfo.cpp:246-254 | The getter reads the stat file if it is due, clears the flag, and returns field 14 of the record. |
| `ProcessInfoClass.ProcessInfo.Uids` | src/processinfo.cpp:648-656 | The getter reads the status file if due; if the reader throws, the flag stays up and the partial record stays. |
| `ProcessInfoClass.ProcessInfo.Gids` | src/processinfo.cpp:658-666 | The same guarded read, answering the group ids. |
| `ProcessInfoClass.ProcessInfo.Maps` | src/processinfo.cpp:812-820 | The getter reads smaps if due; if a region throws, the flag stays up and the regions already built stay. |
| `ProcessInfoClass.ProcessInfo.UpdateCPUUsage` | src/processinfo.cpp:1433-1477 | On the heap, the sampler inserts or moves one entry and returns the wrapped quotient; entries stay distinct from each other and from the instance. |
| `ProcessInfoClass.ProcessInfo.SampleIoRead` | src/processinfo.cpp:1375-1395 | On the heap, the read sampler inserts or moves one entry, and sets the rate against the old baseline. |
| `ProcessInfoClass.ProcessInfo.SampleIoWrite` | src/processinfo.cpp:1405-1425 | On the heap, the write sampler inserts or moves one entry, and sets the rate against the old baseline. |
| `ProcessInfoClass.ProcessInfo.CpuUsage` | src/processinfo.cpp:1338-1346 | On the heap, the guarded call agrees with the operation on values in state, statics and answer, exception included. |
| `ProcessInfoClass.ProcessInfo.IoReadUsage` | src/processinfo.cpp:1348-1356 | The same for the read rate. |
| `ProcessInfoClass.ProcessInfo.IoWriteUsage` | src/processinfo.cpp:1358-1366 | The same for the write rate. |
| `ProcessInfoClass.ProcessInfo.IoTotalUsage` | src/processinfo.cpp:1428-1431 | The same for the sum, in either operand order, an exception of the first operand leaving the second unevaluated. |
| `ProcessInfoClass.ProcessInfo.Perform` | src/processinfo.cpp:69-820 | Any public operation on the heap is the step on values; the map only grows, every pid keeps the object it was given, and new objects are newly allocated. |
| `ProgramClass.Program.Perform` | src/processinfo.cpp:15 | A call on one instance changes no other instance, and no instance ever becomes an entry of the map. |
| `ProgramClass.Program.Run` | src/processinfo.cpp:15 | A whole program on the heap gives the answers, final instances and final statics of the value-level run, so non-interference and the accounts hold of the objects; each pid keeps for the whole run the one object it was given. |
| `Smaps.SegmentsPartition` | src/processinfo.cpp:1188-1211 | For arbitrary lines the groups concatenate to the input, later groups start with a line containing '-' and hold no other, the first holds none after its first line, and there is one group more than such lines after the first line. |
| `Smaps.PartitionUnique` | src/processinfo.cpp:1188-1211 | There is only one such partition. |
| `Smaps.ReadSmaps` | src/processinfo.cpp:1178-1214 | The streaming loop with its reused buffer hands exactly those groups to the region parser, in order, and keeps the regions built before one that throws. |
| `Smaps.RegionRoundTrip` | src/mmap.cpp:8-85 | A printed region is built if and only if its offset text converts, and then every header field but the offset is as printed, and the flags are those of its last attribute line that stores any. |
| `Smaps.SmapsRoundTrip` | src/processinfo.cpp:1178-1214 | Printing any nonempty list of regions and reading the text completes if and only if every offset converts, and gives one region for each, in order, read back like that, up to the first that does not. |
| `Smaps.HighMappingThrows` | src/mmap.cpp:28 | A mapping with offset f0000000 loses itself and whatever regions follow it. |
| `Smaps.SmapsDoneIff` | src/processinfo.cpp:1178-1214 | Reading an arbitrary text completes if and only if every line with the header format holds numbers that convert. |
| `Mmap.MatchHeaderIff` | src/mmap.cpp:13 | The recogniser accepts exactly the texts of the declaration pattern and gives its captures. |
| `Mmap.MatchAttributeIff` | src/mmap.cpp:14 | The recogniser accepts exactly the texts of the attribute pattern, and trims the value. |
| `Mmap.ParseMMap` | src/mmap.cpp:8-85 | The constructor consumes the whole stream and builds the region of its lines, or throws on the header. |
| `Mmap.OffsetExact` | src/mmap.cpp:28 | For any hexadecimal text, the stored offset is its value if and only if that value is below ten. |
| `Mmap.OffsetThrowsIff` | src/mmap.cpp:28 | For any hexadecimal text `stol` throws if and only if the text starts with a letter or the digits before its first letter reach 2^63. |
| `Mmap.MMapOfIff` | src/mmap.cpp:17-33 | For any lines the constructor throws if and only if the first has the header format and a number in it does not convert. |
| `Mmap.VmFlagsLastWriter` | src/mmap.cpp:35-82 | For any attribute lines the header is untouched and the flags are those of the last line that stores any, whatever its key, and empty if there is none. |
| `Mmap.VmFlagsRoundTrip` | src/mmap.cpp:79 | A printed list of flags is read back if and only if it does not look like a size. |
| `Mmap.VmFlagsOfRegion` | src/mmap.cpp:110-113 | A final line of such flags round-trips whatever attribute lines came before. |
| `Mmap.SizesStored` | src/mmap.cpp:44-76 | Whatever the lines, no size above nine and no key with an underscore is ever stored. |
| `Mmap.SizesLastWriter` | src/mmap.cpp:44-76 | Each stored size is the one on the last line that stores one under its key, and absent when no line does. |
| `Mmap.SizePrintedLine` | src/mmap.cpp:40-80 | A printed size is stored when it is below ten, and otherwise replaces the flags by its number and unit. |
| `Mmap.SizeKeys` | src/mmap.cpp:47-74 | The keys under which a size can be stored are these ten. |
| `Mmap.PathGoesFirst` | src/mmap.cpp:125-143 | The tests are ordered: a path under /usr/bin or /usr/lib is an image even of a shared region, then a heap, then a stack, and only then does the kind count. |
| `Mmap.KindDecides` | src/mmap.cpp:137-142 | For every other path a shared region is Shareable, a private one Mapped File or Private. |
| `Mmap.KernelMappings` | src/mmap.cpp:127-132 | vsyscall, vdso and vvar are images. |
| `NulFiles.CmdlineRoundTrip` | src/processinfo.cpp:841-849 | Any list of arguments is read back from its NUL-terminated text if and only if no argument holds a NUL. |
| `NulFiles.CmdlineReprint` | src/processinfo.cpp:841-849 | Re-printing what was read gives back the content if and only if it is empty or NUL-terminated. |
| `NulFiles.EnvironLastWins` | src/processinfo.cpp:1083-1092 | For arbitrary entries each key ends with the value of the last entry that has it, or as it was. |
| `NulFiles.EnvironUnion` | src/processinfo.cpp:1091 | Reading over a map is the override union with a reading from scratch. |
| `NulFiles.EnvironRoundTrip` | src/processinfo.cpp:1079-1094 | Any environment printed in any order is read back from an empty start if and only if keys are free of '=' and NUL and values free of NUL and newline. |
| `StatFile.StatRoundTrip` | src/processinfo.cpp:851-928 | A printed record whose name has no whitespace is read back with pid, state and all 49 numbers, and the name without parentheses. |
| `StatFile.StatFieldsRead` | src/processinfo.cpp:851-928 | In the text of a printed line, word k + 4 is number k, counted from 0 after the state, and utime() and stime() are words 14 and 15. |
| `StatFile.NumRanges` | src/processinfo.cpp:879-927 | The numbers that fit are those in the range of the declared type of each field, position by position. |
| `StatFile.StateShown` | src/processinfo.cpp:861-877 | The state shown for each letter. |
| `StatFile.StatShortLine` | src/processinfo.cpp:879-927 | A line with fewer numbers, as older kernels print, sets those it has and leaves the others. |
| `StatFile.StatTooLarge` | src/processinfo.cpp:879-927 | A number above the range of its field sets it to the top of the range, and the later fields keep what they had. |
| `StatFile.StatNameExact` | src/processinfo.cpp:857-860 | The name itself is read back if and only if it holds neither whitespace nor a parenthesis. |
| `StatFile.StatSpacedName` | src/processinfo.cpp:857-928 | For a name with whitespace, of any number of words: the name is its first word, and every number but the first whose position, from 0, is at least (length - 1) / 2 keeps the value it had. |
| `StatFile.StatSpacedTicks` | src/processinfo.cpp:246-264 | So for names up to 21 characters the CPU ticks keep the value they had. |
| `StatFile.PrintedShowsTicks` | src/processinfo.cpp:851-928 | For such names, the ticks of a printed line are recovered whatever was cached if and only if the name holds no whitespace. |
| `StatFile.StatTwoWordName` | src/processinfo.cpp:857-881 | For exactly two words of any length, what every field becomes: the second word is the state, the parent is 0, all other numbers keep the value they had. |
| `StatFile.StatTwoWordTicks` | src/processinfo.cpp:246-264 | For two words of any length the CPU ticks keep the value they had. |
| `KeyValue.IoDoneIff` | src/processinfo.cpp:1101-1125 | Reading completes if and only if every recognised line converts. |
| `KeyValue.IoLastWriter` | src/processinfo.cpp:1101-1125 | Each counter ends as the number on the last line with its key, or as it was. |
| `KeyValue.IoOrderIrrelevant` | src/processinfo.cpp:1101-1125 | Permuting lines that do not give one counter two numbers changes nothing. |
| `KeyValue.IoPrintedLine` | src/processinfo.cpp:1104-1124 | A printed counter is read back when it is below 2^63, and throws otherwise. |
| `KeyValue.IoSignedLine` | src/processinfo.cpp:1111-1124 | Any printed number is stored if and only if it fits a `long`; a negative one wraps around in the unsigned field. |
| `KeyValue.IoIgnores` | src/processinfo.cpp:1111-1124 | A line is ignored if and only if its key is none of the seven. |
| `KeyValue.IoRoundTrip` | src/processinfo.cpp:1096-1127 | A printed io file, its lines in any order, is read back from any cached record if and only if every counter is below 2^63, and throws otherwise. |
| `KeyValue.StatusDoneIff` | src/processinfo.cpp:930-1077 | Reading completes if and only if every matched number fits an `int`. |
| `KeyValue.StatusIds` | src/processinfo.cpp:947-965 | The id vectors grow by the ids of every matching line, in order, up to the first conversion that throws. |
| `KeyValue.StatusRoundTrip` | src/processinfo.cpp:930-1077 | A printed status file, its lines in any order among any others, is read completely if and only if every number fits an `int`; user ids then go to the user ids, group ids to the group ids, and each Vm field takes its last line. |
| `KeyValue.MatchIdsIff` | src/processinfo.cpp:944 | The recogniser accepts exactly the texts of the uid/gid pattern and gives its captures. |
| `KeyValue.MatchVmIff` | src/processinfo.cpp:945 | The recogniser accepts exactly the texts of the Vm pattern and gives its capture. |
| `KeyValue.StatusLastWriter` | src/processinfo.cpp:967-1074 | Each Vm field ends as the number on the last matching line with its key, or as it was. |
| `KeyValue.VmOrderIrrelevant` | src/processinfo.cpp:967-1074 | Permuting lines that do not give one Vm field two numbers changes no Vm field. |
| `KeyValue.VmPrintedLine` | src/processinfo.cpp:967-1074 | A printed Vm size is read back when it is below 2^31 kB, and throws otherwise. |
| `KeyValue.UidPrintedLine` | src/processinfo.cpp:947-956 | A printed line of four ids adds them in order if and only if each is below 2^31. |
| `KeyValue.GidPrintedLine` | src/processinfo.cpp:957-966 | The same for group ids. |
| `CpuInfo.ReadCPUInfo` | src/sysinfo.cpp:15-110 | The loop yields the processors of the blocks closed by blank lines, or throws. |
| `CpuInfo.BlocksRead` | src/sysinfo.cpp:25-37 | Each closed block gives one processor built from that block alone, in order; lines after the last blank line give none. |
| `CpuInfo.NumberLastWriter` | src/sysinfo.cpp:47-102 | Each number of a processor is the one on the last line of its block that gives one; a key no line has is absent. |
| `CpuInfo.BlockLastWriter` | src/sysinfo.cpp:47-102 | Texts and switches of a block likewise; its flags are those of all its flag lines, in order. |
| `CpuInfo.CpusDoneIff` | src/sysinfo.cpp:45-101 | Reading an arbitrary text completes if and only if every line with a numeric key converts. |
| `CpuInfo.NumberLine` | src/sysinfo.cpp:45-99 | A printed number is stored under its key. |
| `CpuInfo.TextLine` | src/sysinfo.cpp:47-101 | A printed text is stored with the blank before it. |
| `CpuInfo.SwitchLine` | src/sysinfo.cpp:75-82 | A printed switch is stored as off, whatever its value. |
| `CpuInfo.MicrocodeLine` | src/sysinfo.cpp:57-58 | A printed microcode revision is stored as 0. |
| `CpuInfo.MisspelledIgnored` | src/sysinfo.cpp:65-99 | Lines with four keys as the kernel spells them change nothing. |
| `CpuInfo.CoreIdOfBlock` | src/sysinfo.cpp:117-121 | The core id that decides whether a block is counted is its last one, and 0 when the block has none. |
| `CpuInfo.CoresCountBlankLines` | src/sysinfo.cpp:126-131 | The number of cores is the number of blank lines, whatever the other lines say. |
| `CpuInfo.GetNbCPUs` | src/sysinfo.cpp:112-124 | The loop counts the processors whose core id is 0. |
| `CpuInfo.CpusAreZeroBlocks` | src/sysinfo.cpp:112-124 | That count is the number of closed blocks whose last core id line reads 0, or that have none. |
| `Tcp.GetSocketTCP` | src/sysinfo.cpp:221-260 | The loop returns the matching lines decoded in order, or throws at the first that does not convert. |
| `Tcp.QuadRoundTrip` | src/sysinfo.cpp:241-243 | Every 32-bit value survives printing as a dotted quad and reading back; of a larger one the low 32 bits do. |
| `Tcp.QuadInjective` | src/sysinfo.cpp:241-243 | Two 32-bit values have the same text if and only if they are equal. |
| `Tcp.QuadOfHexText` | src/sysinfo.cpp:241-243 | The four numbers of the quad are the four digit pairs of the text, in text order. |
| `Tcp.ShortPort` | src/sysinfo.cpp:244-248 | A port of one to four digits converts, to less than 16 to the power of its length. |
| `Tcp.MatchSocketIff` | src/sysinfo.cpp:234 | The recogniser accepts exactly the texts of the socket pattern and gives its captures. |
| `Tcp.PortRoundTrip` | src/sysinfo.cpp:244-248 | Printing the number of any port of one to four digits gives its text back, up to leading zeros and case. |
| `Tcp.HexTextRoundTrip` | src/sysinfo.cpp:241-248 | The same for any hexadecimal text, an address included. |
| `Tcp.SocketRoundTrip` | src/sysinfo.cpp:234-252 | A socket line as the kernel prints it, with hexadecimal in either case, is read as its slot number, addresses and ports if and only if the slot is below 1000, and does not match otherwise. |
| `Tcp.TcpRoundTrip` | src/sysinfo.cpp:221-260 | A printed table after its title line is read as exactly the sockets with a slot below 1000, in order. |
| `Numbers.ExtractSignedText` | src/processinfo.cpp:879-927 | `>>` on any signed decimal text: the number, or the end of the range it passed with failure, and for unsigned fields the number modulo the range. |
| `Numbers.StrtolOfText` | src/processinfo.cpp:1111-1124 | `stol` and `stoi` read the same texts, whitespace before and anything after ignored. |
| `Numbers.WordsIff` | src/sysinfo.cpp:85-88 | The words of a text are the only ones that spell it with whitespace around them. |

## Left out

- Opening files, iterating directories, `read_symlink`, the clock: what they deliver is part of `Proc`.
- An unreadable or malformed first line of `/proc/stat`: the machine clock is given as four numbers, so the uninitialised sum the source then computes is not captured.
- The link names in `/proc/<pid>/fd` are given as numbers, so a name that `stoi` rejects is not captured.
- `readCgroup`, `readLimits`, `readStack`: never called.
- The `ProcessInfo()` constructor, whose flags are uninitialised.
- `userName`, `ttyNr`, `startTime`, `policy` and the printer `operator<<`: single lookups on fields that are modelled.
- The other getters of stat and status fields: the same guarded read as `Utime`, `Uids` and `Gids`, with another field returned.
- `permissions`, `type` and the other accessors of a region: they return one stored field.
- `ProcConnector`, `getSocketUNIX`, `processList` and its relatives: socket plumbing, a second table of the same kind, and directory iteration.
- Threads: the shared map is unsynchronised in the source, and the model has one caller at a time.
- Floating point rounding: rates are real numbers, and `cpu_mhz` and `bogomips` are the whole numbers that `stol` returns.
- Signed overflow of `100 * nb_core` is undefined in C++; the model wraps it, and the exactness results exclude it by their range condition.
- Locales other than C, and the regular expression engine itself.
- The bytes of fields a region leaves uninitialised: `Mmap` marks them as absent.
- ProcessInfoClass.ProcessInfo.ReadStat: the source writes its extractions one after the other, the model loops over field positions with the type of each.
- CpuAccounting.CpuAccountingOfRun: is about one instance of the pid; for more, ProcessWrapsIff says exactly when a difference wraps.
- CpuAccounting.ProcessWrapsIff: assumes that the stat file of the final call shows the ticks whatever was cached, which by PrintedShowsTicks leaves out names with whitespace, whose ticks do not move.
- Smaps.SmapsRoundTrip: does not promise the offset as printed, because the code reads it in base 10; Mmap.OffsetExact says when it is right.
- NonInterference.RunProjection: fixes the core count, because the source computes it once from whatever `/proc/cpuinfo` shows at the first CPU usage of any pid.
