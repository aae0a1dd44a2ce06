/** The state of a `ProcessInfo` and of the statics all instances share, as
    values, and what each public operation does to them. */
module Info {
  import opened Text
  import opened Numbers
  import opened KeyValue
  import opened StatFile
  import NulFiles
  import Mmap
  import Smaps
  import CpuInfo

  // ------------------------------------------------------------ environment

  datatype CpuTimes = CpuTimes(user: nat, nice: nat, system: nat, idle: nat)

  datatype FdLink = FdLink(number: int, target: string)

  /** What the kernel shows at the moment of an operation. A file that cannot be
      opened is `None`; a symbolic link that cannot be read is the empty string;
      `fd` lists the links the directory iteration reached. */
  datatype Proc = Proc(now: int,
                       stat: Option<string>, status: Option<string>, io: Option<string>,
                       cwd: string, exe: string, root: string,
                       cmdline: Option<string>, environ: Option<string>,
                       fd: seq<FdLink>, wchan: Option<string>, smaps: Option<string>,
                       cpuTimes: CpuTimes, cpuinfo: Option<string>)

  /** `cpu_total_time`. */
  function MachineTicks(p: Proc): (t: nat)
    ensures t < WORD
    ensures p.cpuTimes.user + p.cpuTimes.nice + p.cpuTimes.system + p.cpuTimes.idle < WORD ==>
      t == p.cpuTimes.user + p.cpuTimes.nice + p.cpuTimes.system + p.cpuTimes.idle
  {
    ToU64(p.cpuTimes.user + p.cpuTimes.nice + p.cpuTimes.system + p.cpuTimes.idle)
  }

  // ------------------------------------------------------------------ cache

  datatype Source = FromStat | FromStatus | FromIo | FromCwd | FromExe | FromCmdline
                  | FromRoot | FromEnviron | FromFd | FromWchan | FromSmaps

  const ALL: set<Source> := set s: Source | true

  type Fds = map<int, string>

  /** The fields filled by the readers, by source. */
  datatype Cache = Cache(stat: StatRecord, status: StatusRecord, io: IoStat,
                         cwd: string, exe: string, root: string,
                         cmdline: seq<string>, environ: NulFiles.Environ,
                         fds: Fds, wchan: string, maps: seq<Mmap.MMap>)

  /** The fields of one source. */
  datatype Payload = StatData(stat: StatRecord) | StatusData(status: StatusRecord) | IoData(io: IoStat)
                   | TextData(text: string) | ListData(list: seq<string>) | EnvironData(environ: NulFiles.Environ)
                   | FdData(fds: Fds) | MapsData(maps: seq<Mmap.MMap>)

  predicate Carries(s: Source, p: Payload)
  {
    match s
    case FromStat => p.StatData?
    case FromStatus => p.StatusData?
    case FromIo => p.IoData?
    case FromCwd => p.TextData?
    case FromExe => p.TextData?
    case FromRoot => p.TextData?
    case FromWchan => p.TextData?
    case FromCmdline => p.ListData?
    case FromEnviron => p.EnvironData?
    case FromFd => p.FdData?
    case FromSmaps => p.MapsData?
  }

  function PartOf(c: Cache, s: Source): (p: Payload)
    ensures Carries(s, p)
  {
    match s
    case FromStat => StatData(c.stat)
    case FromStatus => StatusData(c.status)
    case FromIo => IoData(c.io)
    case FromCwd => TextData(c.cwd)
    case FromExe => TextData(c.exe)
    case FromRoot => TextData(c.root)
    case FromWchan => TextData(c.wchan)
    case FromCmdline => ListData(c.cmdline)
    case FromEnviron => EnvironData(c.environ)
    case FromFd => FdData(c.fds)
    case FromSmaps => MapsData(c.maps)
  }

  function Put(c: Cache, s: Source, p: Payload): (r: Cache)
    requires Carries(s, p)
    ensures forall t :: PartOf(r, t) == if t == s then p else PartOf(c, t)
  {
    match s
    case FromStat => c.(stat := p.stat)
    case FromStatus => c.(status := p.status)
    case FromIo => c.(io := p.io)
    case FromCwd => c.(cwd := p.text)
    case FromExe => c.(exe := p.text)
    case FromRoot => c.(root := p.text)
    case FromWchan => c.(wchan := p.text)
    case FromCmdline => c.(cmdline := p.list)
    case FromEnviron => c.(environ := p.environ)
    case FromFd => c.(fds := p.fds)
    case FromSmaps => c.(maps := p.maps)
  }

  /** `readFd`: the map is not cleared before the links are stored. */
  function DecodeFds(fds: Fds, links: seq<FdLink>): Fds
    decreases |links|
  {
    if links == [] then fds else DecodeFds(fds[links[0].number := links[0].target], links[1..])
  }

  /** `readWchan`: an unreadable file leaves the name alone. */
  function DecodeWchan(wchan: string, text: Option<string>): string
  {
    if text.None? then wchan else FirstPiece(text.value, '\n')
  }

  /** What the reader of a source makes of its fields. */
  function Decode(s: Source, p: Payload, env: Proc): (r: Outcome<Payload>)
    requires Carries(s, p)
    ensures Carries(s, r.state)
  {
    match s
    case FromStat => Done(StatData(DecodeStat(p.stat, env.stat)))
    case FromStatus =>
      (match DecodeStatus(p.status, env.status)
       case Done(r) => Done(StatusData(r))
       case Threw(r) => Threw(StatusData(r)))
    case FromIo =>
      (match DecodeIo(p.io, env.now, env.io)
       case Done(r) => Done(IoData(r))
       case Threw(r) => Threw(IoData(r)))
    case FromCwd => Done(TextData(env.cwd))
    case FromExe => Done(TextData(env.exe))
    case FromRoot => Done(TextData(env.root))
    case FromWchan => Done(TextData(DecodeWchan(p.text, env.wchan)))
    case FromCmdline => Done(ListData(NulFiles.DecodeCmdline(env.cmdline)))
    case FromEnviron => Done(EnvironData(NulFiles.DecodeEnviron(p.environ, env.environ)))
    case FromFd => Done(FdData(DecodeFds(p.fds, env.fd)))
    case FromSmaps =>
      (match Smaps.DecodeSmaps(env.smaps)
       case Done(r) => Done(MapsData(r))
       case Threw(r) => Threw(MapsData(r)))
  }

  /** Whether the reader of a source completes on what the kernel shows. */
  predicate Readable(s: Source, env: Proc)
  {
    match s
    case FromStatus => StatusTextOk(env.status)
    case FromIo => IoTextOk(env.io)
    case FromSmaps => Smaps.SmapsTextOk(env.smaps)
    case _ => true
  }

  /** Completion does not depend on what was cached. */
  lemma DecodeDoneIff(s: Source, p: Payload, env: Proc)
    requires Carries(s, p)
    ensures Decode(s, p, env).Done? <==> Readable(s, env)
  {
    match s
    case FromStatus => StatusDoneIff(p.status, StatusEffects(FileLines(env.status)));
    case FromIo => IoDoneIff(p.io, env.now, env.io);
    case FromSmaps => Smaps.SmapsDoneIff(env.smaps);
    case _ =>
  }

  // --------------------------------------------------------------- instance

  /** A `ProcessInfo`: which sources and which computed values are due, the
      cached fields, and the fields used as baselines once the object is an
      entry of the shared map. */
  datatype Info = Info(need: set<Source>, needCpu: bool, needIoRead: bool, needIoWrite: bool,
                       cache: Cache, cpuUsage: int, ioReadUsage: real, ioWriteUsage: real,
                       lastCpu: nat, lastProcess: nat) {
    function Pid(): int { cache.stat.pid }
  }

  /** The static members: `nb_core` once it has been initialised, and
      `map_pid_oldstate`. */
  datatype Statics = Statics(nbCore: Option<nat>, entries: map<int, Info>)

  function Expire(i: Info): Info
  {
    i.(need := ALL, needCpu := true, needIoRead := true, needIoWrite := true)
  }

  /** The constructor: the containers and strings are empty, everything else
      keeps the bytes it finds, given as `junk`. */
  function Fresh(pid: int, junk: Info): Info
  {
    var c := junk.cache;
    Expire(junk.(cache := Cache(
      StatRecord(pid, "", "", c.stat.nums), StatusRecord([], [], c.status.vm), c.io,
      "", "", "", [], map[], map[], "", [])))
  }

  /** The end of a reading: the flag is cleared only when the reader returns. */
  function Settle(i: Info, s: Source, r: Outcome<Payload>): Outcome<Info>
    requires Carries(s, r.state)
  {
    var i1 := i.(cache := Put(i.cache, s, r.state));
    if r.Done? then Done(i1.(need := i.need - {s})) else Threw(i1)
  }

  /** The guarded read that starts every getter. */
  function Touch(i: Info, s: Source, env: Proc): Outcome<Info>
  {
    if s !in i.need then Done(i) else Settle(i, s, Decode(s, PartOf(i.cache, s), env))
  }

  /** `100 * nb_core * delta_process / delta_cpu`: an `int` product, converted to
      64 bits for the rest, converted back to `int`. */
  function CpuPercent(nbCore: nat, process: nat, machine: nat): int
  {
    if machine == 0 then 0
    else ToInt32(ToU64(ToU64(ToInt32(100 * nbCore)) * process) / machine)
  }

  datatype Both = Both(info: Info, statics: Statics)

  /** `getNbCores()` on the first call of all. */
  function CoreCount(g: Statics, env: Proc): Option<nat>
  {
    if g.nbCore.Some? then g.nbCore else CpuInfo.CoresOf(env.cpuinfo)
  }

  function SetCpuBaseline(i: Info, machine: nat, process: nat): Info
  {
    i.(lastCpu := machine, lastProcess := process)
  }

  /** The body of `updateCPUUsage` once the core count, the machine ticks and the
      stat file have been read. */
  function SampleCpu(i: Info, entries: map<int, Info>, nbCore: nat, machine: nat): Both
  {
    var process := ProcessTicks(i.cache.stat);
    if i.Pid() !in entries then
      var i1 := SetCpuBaseline(i, machine, process);
      Both(i1.(cpuUsage := 0), Statics(Some(nbCore), entries[i.Pid() := i1]))
    else
      var entry := entries[i.Pid()];
      var usage := CpuPercent(nbCore, Sub64(process, entry.lastProcess), Sub64(machine, entry.lastCpu));
      Both(i.(cpuUsage := usage), Statics(Some(nbCore), entries[i.Pid() := SetCpuBaseline(entry, machine, process)]))
  }

  function UpdateCpuUsage(i: Info, g: Statics, env: Proc): Outcome<Both>
  {
    match CoreCount(g, env)
    case None => Threw(Both(i, g))
    case Some(nb) => Done(SampleCpu(Touch(i, FromStat, env).state, g.entries, nb, MachineTicks(env)))
  }

  datatype Direction = Read | Write

  function BytesOf(io: IoStat, d: Direction): nat
  {
    io.counters[if d == Read then ReadBytes else WriteBytes]
  }

  /** The duration between two clock readings, in seconds. */
  function Seconds(nanoseconds: int): real { nanoseconds as real / 1000000000.0 }

  function IoRate(before: IoStat, after: IoStat, d: Direction): real
  {
    var dt := after.lastRead - before.lastRead;
    if dt == 0 then 0.0 else Sub64(BytesOf(after, d), BytesOf(before, d)) as real / Seconds(dt)
  }

  function SetIoBaseline(i: Info, io: IoStat): Info { i.(cache := i.cache.(io := io)) }

  function SetRate(i: Info, d: Direction, rate: real): Info
  {
    if d == Read then i.(ioReadUsage := rate) else i.(ioWriteUsage := rate)
  }

  /** The body of `updateIoReadUsage` and `updateIoWriteUsage` once the io file has been read. */
  function SampleIo(d: Direction, i: Info, g: Statics): Both
  {
    if i.Pid() !in g.entries then
      Both(SetRate(i, d, 0.0), g.(entries := g.entries[i.Pid() := i]))
    else
      var entry := g.entries[i.Pid()];
      Both(SetRate(i, d, IoRate(entry.cache.io, i.cache.io, d)),
           g.(entries := g.entries[i.Pid() := SetIoBaseline(entry, i.cache.io)]))
  }

  function UpdateIoUsage(d: Direction, i: Info, g: Statics, env: Proc): Outcome<Both>
  {
    match Touch(i, FromIo, env)
    case Threw(i1) => Threw(Both(i1, g))
    case Done(i1) => Done(SampleIo(d, i1, g))
  }

  // -------------------------------------------------------------- operations

  /** `IoTotalUsage` carries the order in which the compiler evaluates the two
      operands of its sum. */
  datatype Op = NeedUpdate | Get(source: Source) | CpuUsage
              | IoUsage(direction: Direction) | IoTotalUsage(first: Direction)

  datatype Answer = Nothing | Data(payload: Payload) | Percent(percent: int) | Rate(rate: real) | Exception

  datatype Result = Result(info: Info, statics: Statics, answer: Answer)

  function StepGet(i: Info, g: Statics, s: Source, env: Proc): Result
  {
    match Touch(i, s, env)
    case Done(i1) => Result(i1, g, Data(PartOf(i1.cache, s)))
    case Threw(i1) => Result(i1, g, Exception)
  }

  function StepCpu(i: Info, g: Statics, env: Proc): Result
  {
    if !i.needCpu then Result(i, g, Percent(i.cpuUsage))
    else match UpdateCpuUsage(i, g, env)
      case Done(b) => Result(b.info.(needCpu := false), b.statics, Percent(b.info.cpuUsage))
      case Threw(b) => Result(b.info, b.statics, Exception)
  }

  predicate NeedIo(i: Info, d: Direction) { if d == Read then i.needIoRead else i.needIoWrite }

  function RateOf(i: Info, d: Direction): real { if d == Read then i.ioReadUsage else i.ioWriteUsage }

  function ClearIo(i: Info, d: Direction): Info
  {
    if d == Read then i.(needIoRead := false) else i.(needIoWrite := false)
  }

  function StepIo(i: Info, g: Statics, d: Direction, env: Proc): Result
  {
    if !NeedIo(i, d) then Result(i, g, Rate(RateOf(i, d)))
    else match UpdateIoUsage(d, i, g, env)
      case Done(b) => Result(ClearIo(b.info, d), b.statics, Rate(RateOf(b.info, d)))
      case Threw(b) => Result(b.info, b.statics, Exception)
  }

  function Other(d: Direction): Direction { if d == Read then Write else Read }

  function StepIoTotal(i: Info, g: Statics, first: Direction, env: Proc): Result
  {
    var a := StepIo(i, g, first, env);
    if a.answer.Exception? then a
    else
      var b := StepIo(a.info, a.statics, Other(first), env);
      if b.answer.Exception? then b else Result(b.info, b.statics, Rate(a.answer.rate + b.answer.rate))
  }

  function Step(i: Info, g: Statics, op: Op, env: Proc): Result
  {
    match op
    case NeedUpdate => Result(Expire(i), g, Nothing)
    case Get(s) => StepGet(i, g, s, env)
    case CpuUsage => StepCpu(i, g, env)
    case IoUsage(d) => StepIo(i, g, d, env)
    case IoTotalUsage(first) => StepIoTotal(i, g, first, env)
  }
}
