/** The mutable objects: `ProcessInfo` instances and the statics they share,
    each method proved against the operations on values in `Info`. */
module ProcessInfoClass {
  import opened Text
  import opened Numbers
  import opened Assignments
  import opened KeyValue
  import opened StatFile
  import opened Info
  import NulFiles
  import CpuInfo
  import Mmap
  import Smaps

  /** The static members: `nb_core` and `map_pid_oldstate`. */
  class StaticState {
    var nbCore: Option<nat>
    var oldstate: map<int, ProcessInfo>

    constructor ()
      ensures View() == Statics(None, map[])
      ensures Valid() && oldstate == map[]
    {
      nbCore := None;
      oldstate := map[];
    }

    /** The objects of the map. */
    ghost function Objects(): set<ProcessInfo>
      reads `oldstate
    {
      set p | p in oldstate :: oldstate[p]
    }

    /** Entries of different pids are different objects. */
    ghost predicate Valid()
      reads `oldstate
    {
      forall p, q :: p in oldstate && q in oldstate && p != q ==> oldstate[p] != oldstate[q]
    }

    ghost function Entries(): map<int, Info>
      reads `oldstate, Objects()
    {
      map p | p in oldstate :: oldstate[p].View()
    }

    ghost function View(): Statics
      reads this, Objects()
    {
      Statics(nbCore, Entries())
    }

    /** `map_pid_oldstate[pid] = new ProcessInfo(*p)`. */
    method Insert(pid: int, p: ProcessInfo)
      requires Valid() && pid !in oldstate && p !in Objects()
      modifies this`oldstate
      ensures Valid() && Grows() && p !in Objects()
      ensures View() == Statics(old(nbCore), old(View()).entries[pid := p.View()])
    {
      var entry := new ProcessInfo.Copy(p);
      oldstate := oldstate[pid := entry];
    }

    /** The two assignments that move the CPU baseline of an entry. */
    method MoveCpuBaseline(pid: int, machine: nat, process: nat)
      requires Valid() && pid in oldstate
      modifies oldstate[pid]
      ensures View() == Statics(old(nbCore),
        old(View()).entries[pid := SetCpuBaseline(old(View()).entries[pid], machine, process)])
    {
      var entry := oldstate[pid];
      entry.lastCpuTotalTime := machine;
      entry.lastProcessTotalTime := process;
      OthersKept(pid);
      EntryReplaced(pid);
    }

    /** `oldstate->m_io = m_io`. */
    method MoveIoBaseline(pid: int, io: IoStat)
      requires Valid() && pid in oldstate
      modifies oldstate[pid]
      ensures View() == Statics(old(nbCore),
        old(View()).entries[pid := SetIoBaseline(old(View()).entries[pid], io)])
    {
      var entry := oldstate[pid];
      entry.io := io;
      OthersKept(pid);
      EntryReplaced(pid);
    }

    twostate lemma EntryReplaced(pid: int)
      requires pid in oldstate && oldstate == old(oldstate) && nbCore == old(nbCore)
      requires forall q :: q in oldstate && q != pid ==> oldstate[q].View() == old(oldstate[q].View())
      ensures View() == Statics(old(nbCore), old(View()).entries[pid := oldstate[pid].View()])
    {
      var before, after := old(View()).entries, View().entries;
      assert after.Keys == before.Keys;
      forall q | q in after ensures after[q] == before[pid := oldstate[pid].View()][q] {
        if q != pid {
          assert before[q] == old(oldstate[q].View());
        }
      }
      assert after == before[pid := oldstate[pid].View()];
    }

    /** The objects of the map are those of before and new ones. */
    twostate lemma GrownValues()
      requires Grows()
      ensures forall o: ProcessInfo :: o in Objects() ==> o in old(Objects()) || fresh(o)
    {
      forall o: ProcessInfo | o in Objects() ensures o in old(Objects()) || fresh(o) {
        var p :| p in oldstate && oldstate[p] == o;
        if p in old(oldstate) {
          assert old(oldstate)[p] in old(Objects());
        }
      }
    }

    /** Writing to one entry leaves the others alone. */
    twostate lemma OthersKept(pid: int)
      requires old(Valid()) && pid in oldstate && oldstate == old(oldstate)
      requires forall o: ProcessInfo :: o in Objects() && o != oldstate[pid] ==> unchanged(o)
      ensures forall q :: q in oldstate && q != pid ==> oldstate[q].View() == old(oldstate[q].View())
    {
      forall q | q in oldstate && q != pid ensures oldstate[q].View() == old(oldstate[q].View()) {
        var o := oldstate[q];
        assert o in Objects() && o != oldstate[pid];
        assert unchanged(o);
      }
    }

    /** Every pid keeps the object it was given; new objects are newly allocated. */
    twostate predicate Grows()
      reads this
    {
      && (forall p :: p in old(oldstate) ==> p in oldstate && oldstate[p] == old(oldstate)[p])
      && (forall p :: p in oldstate && p !in old(oldstate) ==> fresh(oldstate[p]))
    }
  }

  class ProcessInfo {
    /** The sources whose `m_need_update_*` flag is up. */
    var need: set<Source>
    var needUpdateCpuUsage: bool
    var needUpdateIoReadUsage: bool
    var needUpdateIoWriteUsage: bool

    var stat: StatRecord
    var status: StatusRecord
    var io: IoStat
    var cwd: string
    var exe: string
    var root: string
    var cmdline: seq<string>
    var environ: NulFiles.Environ
    var fds: Fds
    var wchan: string
    var maps: seq<Mmap.MMap>

    var cpuUsage: int
    var ioReadUsage: real
    var ioWriteUsage: real

    var lastCpuTotalTime: nat
    var lastProcessTotalTime: nat

    /** The object as a value. */
    ghost function View(): Info
      reads this
    {
      Info(need, needUpdateCpuUsage, needUpdateIoReadUsage, needUpdateIoWriteUsage,
           Cache(stat, status, io, cwd, exe, root, cmdline, environ, fds, wchan, maps),
           cpuUsage, ioReadUsage, ioWriteUsage, lastCpuTotalTime, lastProcessTotalTime)
    }

    /** `ProcessInfo(pid)`: the fields it does not initialise keep the bytes that
        were in memory, given as `junk`. */
    constructor (pid: int, junk: Info)
      ensures View() == Fresh(pid, junk)
    {
      var c := junk.cache;
      stat := StatRecord(pid, "", "", c.stat.nums);
      status := StatusRecord([], [], c.status.vm);
      io := c.io;
      cwd, exe, root, wchan := "", "", "", "";
      cmdline, environ, fds, maps := [], map[], map[], [];
      cpuUsage, ioReadUsage, ioWriteUsage := junk.cpuUsage, junk.ioReadUsage, junk.ioWriteUsage;
      lastCpuTotalTime, lastProcessTotalTime := junk.lastCpu, junk.lastProcess;
      need := {};
      needUpdateCpuUsage, needUpdateIoReadUsage, needUpdateIoWriteUsage := false, false, false;
      new;
      NeedUpdate();
    }

    /** The copy constructor. */
    constructor Copy(from: ProcessInfo)
      ensures View() == from.View()
    {
      need := from.need;
      needUpdateCpuUsage := from.needUpdateCpuUsage;
      needUpdateIoReadUsage, needUpdateIoWriteUsage := from.needUpdateIoReadUsage, from.needUpdateIoWriteUsage;
      stat, status, io, cwd, exe, root := from.stat, from.status, from.io, from.cwd, from.exe, from.root;
      cmdline, environ, fds, wchan, maps := from.cmdline, from.environ, from.fds, from.wchan, from.maps;
      cpuUsage, ioReadUsage, ioWriteUsage := from.cpuUsage, from.ioReadUsage, from.ioWriteUsage;
      lastCpuTotalTime, lastProcessTotalTime := from.lastCpuTotalTime, from.lastProcessTotalTime;
    }

    method NeedUpdate()
      modifies this
      ensures View() == Expire(old(View()))
    {
      need := ALL;
      needUpdateCpuUsage := true;
      needUpdateIoReadUsage := true;
      needUpdateIoWriteUsage := true;
    }

    // ------------------------------------------------------------- readers

    method ReadCmdline(text: Option<string>)
      modifies this`cmdline
      ensures cmdline == NulFiles.DecodeCmdline(text)
    {
      cmdline := [];
      if text.None? {
        return;
      }
      var file := new InStream(text.value);
      var arg := file.GetLine(NulFiles.NUL);
      while arg.Some?
        invariant fresh(file)
        invariant Pieces(text.value, NulFiles.NUL) ==
          cmdline + (if arg.Some? then [arg.value] + Pieces(file.rest, NulFiles.NUL) else [])
        decreases |file.rest|, arg.Some?
      {
        Assoc(cmdline, [arg.value], Pieces(file.rest, NulFiles.NUL));
        cmdline := cmdline + [arg.value];
        arg := file.GetLine(NulFiles.NUL);
      }
    }

    method ReadEnviron(text: Option<string>)
      modifies this`environ
      ensures environ == NulFiles.DecodeEnviron(old(environ), text)
    {
      if text.None? {
        return;
      }
      var file := new InStream(text.value);
      var entry := file.GetLine(NulFiles.NUL);
      while entry.Some?
        invariant fresh(file)
        invariant NulFiles.DecodeEnviron(old(environ), text) == NulFiles.FoldEnviron(environ,
          if entry.Some? then [entry.value] + Pieces(file.rest, NulFiles.NUL) else [])
        decreases |file.rest|, entry.Some?
      {
        assert ([entry.value] + Pieces(file.rest, NulFiles.NUL))[1..] == Pieces(file.rest, NulFiles.NUL);
        environ := environ[KeyOf(entry.value, '=') := ValueOf(entry.value, '=')];
        entry := file.GetLine(NulFiles.NUL);
      }
    }

    /** The 49 numeric extractions, which the source writes one after the other,
        are a loop over the field positions. */
    method ReadStat(text: Option<string>)
      modifies this`stat
      ensures stat == DecodeStat(old(stat), text)
    {
      var pid := TakeNum(OpenFile(text), stat.pid, I32);
      var name := TakeWord(pid.next, stat.name);
      var state := TakeWord(name.next, "");
      stat := StatRecord(pid.value, StripParens(name.value), StateName(state.value), stat.nums);
      var nums: Nums := stat.nums;
      var file := state.next;
      for i := 0 to NUM_COUNT
        invariant TakeNums(state.next, old(stat).nums, 0) == TakeNums(file, nums, i)
      {
        assert Fits(nums[i], Kind(i));
        var number := TakeNum(file, nums[i], Kind(i));
        nums := SetNum(nums, i, number.value);
        file := number.next;
      }
      stat := stat.(nums := nums);
    }

    /** What one line does to the counters. */
    method IoLine(e: Effect<IoField>) returns (ok: bool)
      modifies this`io
      ensures StepIoLine(old(io), e) == if ok then Done(io) else Threw(io)
    {
      match e
      case Skip => ok := true;
      case Set(f, v) =>
        io := io.(counters := io.counters[f := v]);
        ok := true;
      case Fail => ok := false;
    }

    method ReadIo(now: int, text: Option<string>) returns (ok: bool)
      modifies this`io
      ensures DecodeIo(old(io), now, text) == if ok then Done(io) else Threw(io)
    {
      hide IoEffect, StepIoLine, IoRemaining, DecodeIo;
      DecodeIsRemaining(io, now, text);
      io := io.(lastRead := now);
      if text.None? {
        DecodeIsRemaining(io, now, text);
        return true;
      }
      var file := new InStream(text.value);
      var line := file.GetLine('\n');
      while line.Some?
        invariant fresh(file)
        invariant DecodeIo(old(io), now, text) ==
          IoRemaining(io, if line.Some? then [line.value] + Pieces(file.rest, '\n') else [])
        decreases |file.rest|, line.Some?
      {
        IoRecordTurn(io, line.value, Pieces(file.rest, '\n'));
        ok := IoLine(IoEffect(line.value));
        if !ok {
          return;
        }
        line := file.GetLine('\n');
      }
      DecodeIsRemaining(io, now, text);
      return true;
    }

    /** `push_back(stoi(...))` on each capture. */
    static method PushBack(ids: seq<int>, converted: seq<Option<nat>>) returns (ok: bool, longer: seq<int>)
      ensures PushIds(ids, converted) == if ok then Done(longer) else Threw(longer)
    {
      longer := ids;
      for i := 0 to |converted|
        invariant PushIds(ids, converted) == PushIds(longer, converted[i..])
      {
        if converted[i] == None {
          return false, longer;
        }
        longer := longer + [converted[i].value];
      }
      return true, longer;
    }

    /** What one line does to the record. */
    method StatusLine(e: StatusEffect) returns (ok: bool)
      modifies this`status
      ensures StepStatus(old(status), e) == if ok then Done(status) else Threw(status)
    {
      match e
      case AddUids(ids) =>
        var uids;
        ok, uids := PushBack(status.uids, ids);
        status := status.(uids := uids);
      case AddGids(ids) =>
        var gids;
        ok, gids := PushBack(status.gids, ids);
        status := status.(gids := gids);
      case Vm(Skip) => ok := true;
      case Vm(Set(f, v)) =>
        status := status.(vm := status.vm[f := v]);
        ok := true;
      case Vm(Fail) => ok := false;
    }

    method ReadStatus(text: Option<string>) returns (ok: bool)
      modifies this`status
      ensures DecodeStatus(old(status), text) == if ok then Done(status) else Threw(status)
    {
      hide StatusEffectOf, StepStatus;
      if text.None? {
        return true;
      }
      var file := new InStream(text.value);
      var line := file.GetLine('\n');
      while line.Some?
        invariant fresh(file)
        invariant StatusRemaining(old(status), FileLines(text)) ==
          StatusRemaining(status, if line.Some? then [line.value] + Pieces(file.rest, '\n') else [])
        decreases |file.rest|, line.Some?
      {
        StatusTurn(status, line.value, Pieces(file.rest, '\n'));
        ok := StatusLine(StatusEffectOf(line.value));
        if !ok {
          return;
        }
        line := file.GetLine('\n');
      }
      return true;
    }

    method ReadFd(links: seq<FdLink>)
      modifies this`fds
      ensures fds == DecodeFds(old(fds), links)
    {
      for i := 0 to |links|
        invariant DecodeFds(old(fds), links) == DecodeFds(fds, links[i..])
      {
        fds := fds[links[i].number := links[i].target];
      }
    }

    method ReadWchan(text: Option<string>)
      modifies this`wchan
      ensures wchan == DecodeWchan(old(wchan), text)
    {
      if text.Some? {
        var file := new InStream(text.value);
        var line := file.GetLine('\n');
        wchan := line.GetOr("");
      }
    }

    // ------------------------------------------- getters, one for each source

    method StatGetter(env: Proc)
      modifies this
      ensures Touch(old(View()), FromStat, env) == Done(View())
    {
      hide DecodeStat;
      if FromStat in need {
        ReadStat(env.stat);
        need := need - {FromStat};
      }
    }

    method Name(env: Proc) returns (name: string)
      modifies this
      ensures Touch(old(View()), FromStat, env) == Done(View())
      ensures name == stat.name
    {
      StatGetter(env);
      name := stat.name;
    }

    method Utime(env: Proc) returns (ticks: nat)
      modifies this
      ensures Touch(old(View()), FromStat, env) == Done(View())
      ensures ticks == StatFile.Utime(stat)
    {
      StatGetter(env);
      ticks := StatFile.Utime(stat);
    }

    method Stime(env: Proc) returns (ticks: nat)
      modifies this
      ensures Touch(old(View()), FromStat, env) == Done(View())
      ensures ticks == StatFile.Stime(stat)
    {
      StatGetter(env);
      ticks := StatFile.Stime(stat);
    }

    method Uids(env: Proc) returns (uids: Option<seq<int>>)
      modifies this
      ensures Touch(old(View()), FromStatus, env) == if uids.Some? then Done(View()) else Threw(View())
      ensures uids.Some? ==> uids.value == status.uids
    {
      hide DecodeStatus;
      if FromStatus in need {
        var ok := ReadStatus(env.status);
        if !ok {
          return None;
        }
        need := need - {FromStatus};
      }
      return Some(status.uids);
    }

    method Gids(env: Proc) returns (gids: Option<seq<int>>)
      modifies this
      ensures Touch(old(View()), FromStatus, env) == if gids.Some? then Done(View()) else Threw(View())
      ensures gids.Some? ==> gids.value == status.gids
    {
      var uids := Uids(env);
      return if uids.Some? then Some(status.gids) else None;
    }

    method IoGetter(env: Proc) returns (ok: bool)
      modifies this
      ensures Touch(old(View()), FromIo, env) == if ok then Done(View()) else Threw(View())
    {
      hide DecodeIo;
      if FromIo in need {
        ok := ReadIo(env.now, env.io);
        if !ok {
          return;
        }
        need := need - {FromIo};
      }
      return true;
    }

    method Cmdline(env: Proc) returns (args: seq<string>)
      modifies this
      ensures Touch(old(View()), FromCmdline, env) == Done(View())
      ensures args == cmdline
    {
      hide NulFiles.DecodeCmdline;
      if FromCmdline in need {
        ReadCmdline(env.cmdline);
        need := need - {FromCmdline};
      }
      args := cmdline;
    }

    method Environ(env: Proc) returns (variables: NulFiles.Environ)
      modifies this
      ensures Touch(old(View()), FromEnviron, env) == Done(View())
      ensures variables == environ
    {
      hide NulFiles.DecodeEnviron;
      if FromEnviron in need {
        ReadEnviron(env.environ);
        need := need - {FromEnviron};
      }
      variables := environ;
    }

    method Fds(env: Proc) returns (files: Fds)
      modifies this
      ensures Touch(old(View()), FromFd, env) == Done(View())
      ensures files == fds
    {
      hide DecodeFds;
      if FromFd in need {
        ReadFd(env.fd);
        need := need - {FromFd};
      }
      files := fds;
    }

    method WchanName(env: Proc) returns (name: string)
      modifies this
      ensures Touch(old(View()), FromWchan, env) == Done(View())
      ensures name == wchan
    {
      hide DecodeWchan;
      if FromWchan in need {
        ReadWchan(env.wchan);
        need := need - {FromWchan};
      }
      name := wchan;
    }

    method Cwd(env: Proc) returns (path: string)
      modifies this
      ensures Touch(old(View()), FromCwd, env) == Done(View())
      ensures path == cwd
    {
      if FromCwd in need {
        cwd := env.cwd;
        need := need - {FromCwd};
      }
      path := cwd;
    }

    method Exe(env: Proc) returns (path: string)
      modifies this
      ensures Touch(old(View()), FromExe, env) == Done(View())
      ensures path == exe
    {
      if FromExe in need {
        exe := env.exe;
        need := need - {FromExe};
      }
      path := exe;
    }

    method Root(env: Proc) returns (path: string)
      modifies this
      ensures Touch(old(View()), FromRoot, env) == Done(View())
      ensures path == root
    {
      if FromRoot in need {
        root := env.root;
        need := need - {FromRoot};
      }
      path := root;
    }

    method Maps(env: Proc) returns (regions: Option<seq<Mmap.MMap>>)
      modifies this
      ensures Touch(old(View()), FromSmaps, env) == if regions.Some? then Done(View()) else Threw(View())
      ensures regions.Some? ==> regions.value == maps
    {
      hide Smaps.DecodeSmaps;
      if FromSmaps in need {
        var ok;
        ok, maps := Smaps.ReadSmaps(env.smaps);
        if !ok {
          return None;
        }
        need := need - {FromSmaps};
      }
      return Some(maps);
    }

    // ------------------------------------------------------------- samplers

    method SetLastTimes(machine: nat, process: nat)
      modifies this`lastCpuTotalTime, this`lastProcessTotalTime
      ensures View() == SetCpuBaseline(old(View()), machine, process)
    {
      lastCpuTotalTime := machine;
      lastProcessTotalTime := process;
    }

    /** The first sample of a pid makes its entry. */
    method InsertCpuBaseline(g: StaticState, cpuTotalTime: nat, processTotalTime: nat)
      requires g.Valid() && this !in g.Objects() && stat.pid !in g.oldstate
      modifies this, g`oldstate
      ensures g.Valid() && g.Grows() && this !in g.Objects()
      ensures
        var i := SetCpuBaseline(old(View()), cpuTotalTime, processTotalTime);
        && View() == i.(cpuUsage := 0)
        && g.View() == Statics(old(g.nbCore), old(g.View()).entries[old(stat.pid) := i])
    {
      hide SetCpuBaseline;
      SetLastTimes(cpuTotalTime, processTotalTime);
      assert g.View() == old(g.View());
      g.Insert(stat.pid, this);
      cpuUsage := 0;
    }

    /** The rest of `updateCPUUsage` once the clocks have been read. */
    method SampleCpuUsage(g: StaticState, cpuTotalTime: nat)
      requires g.Valid() && this !in g.Objects() && g.nbCore.Some?
      modifies this, g, g.Objects()
      ensures g.Valid() && g.Grows() && this !in g.Objects()
      ensures SampleCpu(old(View()), old(g.View()).entries, old(g.nbCore).value, cpuTotalTime) == Both(View(), g.View())
    {
      hide ProcessTicks, CpuPercent, SetCpuBaseline, Sub64;
      var processTotalTime := ProcessTicks(stat);
      var pid := stat.pid;
      if pid !in g.oldstate {
        InsertCpuBaseline(g, cpuTotalTime, processTotalTime);
      } else {
        var entry := g.oldstate[pid];
        var deltaCpu := Sub64(cpuTotalTime, entry.lastCpuTotalTime);
        var deltaProcess := Sub64(processTotalTime, entry.lastProcessTotalTime);
        cpuUsage := CpuPercent(g.nbCore.value, deltaProcess, deltaCpu);
        g.MoveCpuBaseline(pid, cpuTotalTime, processTotalTime);
      }
    }

    /** `updateCPUUsage`; false when counting the cores throws. */
    method UpdateCPUUsage(g: StaticState, env: Proc) returns (ok: bool)
      requires g.Valid() && this !in g.Objects()
      modifies this, g, g.Objects()
      ensures g.Valid() && g.Grows() && this !in g.Objects()
      ensures UpdateCpuUsage(old(View()), old(g.View()), env) ==
        if ok then Done(Both(View(), g.View())) else Threw(Both(View(), g.View()))
    {
      hide Touch, ProcessTicks, MachineTicks, CpuPercent, SampleCpu, CpuInfo.CoresOf;
      if g.nbCore == None {
        var cores := CpuInfo.GetNbCores(env.cpuinfo);
        if cores == None {
          return false;
        }
        g.nbCore := cores;
      }
      assert g.View().entries == old(g.View()).entries;
      var cpuTotalTime := MachineTicks(env);
      StatGetter(env);
      assert g.View().entries == old(g.View()).entries;
      assert CoreCount(old(g.View()), env) == g.nbCore;
      SampleCpuUsage(g, cpuTotalTime);
      ok := true;
    }

    /** The rest of `updateIoReadUsage` once the io file has been read. */
    method SampleIoRead(g: StaticState)
      requires g.Valid() && this !in g.Objects()
      modifies this, g, g.Objects()
      ensures g.Valid() && g.Grows() && this !in g.Objects()
      ensures SampleIo(Read, old(View()), old(g.View())) == Both(View(), g.View())
    {
      hide IoRate;
      var usage := 0.0;
      var pid := stat.pid;
      if pid !in g.oldstate {
        g.Insert(pid, this);
      } else {
        usage := IoRate(g.oldstate[pid].io, io, Read);
        g.MoveIoBaseline(pid, io);
      }
      ioReadUsage := usage;
      assert g.View().entries == SampleIo(Read, old(View()), old(g.View())).statics.entries;
    }

    /** The rest of `updateIoWriteUsage` once the io file has been read. */
    method SampleIoWrite(g: StaticState)
      requires g.Valid() && this !in g.Objects()
      modifies this, g, g.Objects()
      ensures g.Valid() && g.Grows() && this !in g.Objects()
      ensures SampleIo(Write, old(View()), old(g.View())) == Both(View(), g.View())
    {
      hide IoRate;
      var usage := 0.0;
      var pid := stat.pid;
      if pid !in g.oldstate {
        g.Insert(pid, this);
      } else {
        usage := IoRate(g.oldstate[pid].io, io, Write);
        g.MoveIoBaseline(pid, io);
      }
      ioWriteUsage := usage;
      assert g.View().entries == SampleIo(Write, old(View()), old(g.View())).statics.entries;
    }

    // ------------------------------------------------------ computed usages

    /** `cpuUsage()`; `None` is the exception. */
    method CpuUsage(g: StaticState, env: Proc) returns (percent: Option<int>)
      requires g.Valid() && this !in g.Objects()
      modifies this, g, g.Objects()
      ensures g.Valid() && g.Grows() && this !in g.Objects()
      ensures StepCpu(old(View()), old(g.View()), env) ==
        Result(View(), g.View(), if percent.Some? then Percent(percent.value) else Exception)
    {
      hide UpdateCpuUsage;
      if needUpdateCpuUsage {
        var ok := UpdateCPUUsage(g, env);
        if !ok {
          return None;
        }
        needUpdateCpuUsage := false;
      }
      return Some(cpuUsage);
    }

    /** `ioReadUsage()`. */
    method IoReadUsage(g: StaticState, env: Proc) returns (rate: Option<real>)
      requires g.Valid() && this !in g.Objects()
      modifies this, g, g.Objects()
      ensures g.Valid() && g.Grows() && this !in g.Objects()
      ensures StepIo(old(View()), old(g.View()), Read, env) ==
        Result(View(), g.View(), if rate.Some? then Rate(rate.value) else Exception)
    {
      hide Touch, SampleIo;
      if needUpdateIoReadUsage {
        var ok := IoGetter(env);
        if !ok {
          return None;
        }
        SampleIoRead(g);
        needUpdateIoReadUsage := false;
      }
      return Some(ioReadUsage);
    }

    /** `ioWriteUsage()`. */
    method IoWriteUsage(g: StaticState, env: Proc) returns (rate: Option<real>)
      requires g.Valid() && this !in g.Objects()
      modifies this, g, g.Objects()
      ensures g.Valid() && g.Grows() && this !in g.Objects()
      ensures StepIo(old(View()), old(g.View()), Write, env) ==
        Result(View(), g.View(), if rate.Some? then Rate(rate.value) else Exception)
    {
      hide Touch, SampleIo;
      if needUpdateIoWriteUsage {
        var ok := IoGetter(env);
        if !ok {
          return None;
        }
        SampleIoWrite(g);
        needUpdateIoWriteUsage := false;
      }
      return Some(ioWriteUsage);
    }

    method OneUsage(g: StaticState, d: Direction, env: Proc) returns (rate: Option<real>)
      requires g.Valid() && this !in g.Objects()
      modifies this, g, g.Objects()
      ensures g.Valid() && g.Grows() && this !in g.Objects()
      ensures StepIo(old(View()), old(g.View()), d, env) ==
        Result(View(), g.View(), if rate.Some? then Rate(rate.value) else Exception)
    {
      hide StepIo;
      if d == Read {
        rate := IoReadUsage(g, env);
      } else {
        rate := IoWriteUsage(g, env);
      }
    }

    /** `ioTotalUsage()`: the two operands in the order chosen by the compiler. */
    method IoTotalUsage(g: StaticState, first: Direction, env: Proc) returns (rate: Option<real>)
      requires g.Valid() && this !in g.Objects()
      modifies this, g, g.Objects()
      ensures g.Valid() && g.Grows() && this !in g.Objects()
      ensures StepIoTotal(old(View()), old(g.View()), first, env) ==
        Result(View(), g.View(), if rate.Some? then Rate(rate.value) else Exception)
    {
      hide StepIo;
      var a := OneUsage(g, first, env);
      if a == None {
        return None;
      }
      g.GrownValues();
      var b := OneUsage(g, Other(first), env);
      if b == None {
        return None;
      }
      return Some(a.value + b.value);
    }

    // ----------------------------------------------------- any one operation

    /** Any getter. */
    method Fetch(s: Source, env: Proc) returns (answer: Option<Payload>)
      modifies this
      ensures Touch(old(View()), s, env) == if answer.Some? then Done(View()) else Threw(View())
      ensures answer.Some? ==> answer.value == PartOf(View().cache, s)
    {
      hide Touch;
      match s
      case FromStat =>
        StatGetter(env);
        answer := Some(StatData(stat));
      case FromStatus =>
        var uids := Uids(env);
        answer := if uids.Some? then Some(StatusData(status)) else None;
      case FromIo =>
        var ok := IoGetter(env);
        answer := if ok then Some(IoData(io)) else None;
      case FromCwd =>
        var path := Cwd(env);
        answer := Some(TextData(path));
      case FromExe =>
        var path := Exe(env);
        answer := Some(TextData(path));
      case FromRoot =>
        var path := Root(env);
        answer := Some(TextData(path));
      case FromWchan =>
        var name := WchanName(env);
        answer := Some(TextData(name));
      case FromCmdline =>
        var args := Cmdline(env);
        answer := Some(ListData(args));
      case FromEnviron =>
        var variables := Environ(env);
        answer := Some(EnvironData(variables));
      case FromFd =>
        var files := Fds(env);
        answer := Some(FdData(files));
      case FromSmaps =>
        var regions := Maps(env);
        answer := if regions.Some? then Some(MapsData(maps)) else None;
    }

    /** Any public operation. */
    method Perform(op: Op, g: StaticState, env: Proc) returns (answer: Answer)
      requires g.Valid() && this !in g.Objects()
      modifies this, g, g.Objects()
      ensures g.Valid() && g.Grows() && this !in g.Objects()
      ensures Step(old(View()), old(g.View()), op, env) == Result(View(), g.View(), answer)
    {
      hide Touch, StepCpu, StepIo, StepIoTotal, Expire;
      match op
      case NeedUpdate =>
        NeedUpdate();
        answer := Nothing;
      case Get(s) =>
        var payload := Fetch(s, env);
        answer := if payload.Some? then Data(payload.value) else Exception;
      case CpuUsage =>
        var percent := CpuUsage(g, env);
        answer := if percent.Some? then Percent(percent.value) else Exception;
      case IoUsage(d) =>
        var rate := OneUsage(g, d, env);
        answer := if rate.Some? then Rate(rate.value) else Exception;
      case IoTotalUsage(first) =>
        var rate := IoTotalUsage(g, first, env);
        answer := if rate.Some? then Rate(rate.value) else Exception;
    }
  }
}
