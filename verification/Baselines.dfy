/** What the shared map remembers over whole runs, with any number of instances
    of any number of pids. */
module Baselines {
  import opened Text
  import opened Numbers
  import opened StatFile
  import opened KeyValue
  import opened Info
  import opened Sampling
  import opened NonInterference

  /** The two clocks of a CPU sample. */
  datatype Clocks = Clocks(machine: nat, process: nat)

  /** The CPU sample an operation takes, if it takes one. */
  function CpuSampled(i: Info, g: Statics, op: Op, env: Proc): Option<Clocks>
  {
    if op.CpuUsage? && i.needCpu && CoreCount(g, env).Some?
    then Some(Clocks(MachineTicks(env), ProcessTicks(Touch(i, FromStat, env).state.cache.stat)))
    else None
  }

  /** The I/O sample an operation takes, if it takes one. */
  function IoSampled(i: Info, op: Op, env: Proc): Option<IoStat>
  {
    var due := (op.IoUsage? && NeedIo(i, op.direction)) || (op.IoTotalUsage? && (i.needIoRead || i.needIoWrite));
    if due && Touch(i, FromIo, env).Done? then Some(Touch(i, FromIo, env).state.cache.io) else None
  }

  function CpuBaseline(entry: Info): Clocks { Clocks(entry.lastCpu, entry.lastProcess) }

  /** How one operation moves the entry of its pid: an entry is never removed, and made
      only by a sample; its CPU baseline becomes the CPU sample if one was taken and otherwise
      stays, and likewise its I/O baseline. */
  ghost predicate EntryMoves(before: map<int, Info>, after: map<int, Info>, pid: int,
                             cpu: Option<Clocks>, io: Option<IoStat>)
  {
    && (pid in before ==> pid in after)
    && (pid in after && cpu.None? && io.None? ==> pid in before)
    && (cpu.Some? ==> pid in after && CpuBaseline(after[pid]) == cpu.value)
    && (cpu.None? && pid in before ==> CpuBaseline(after[pid]) == CpuBaseline(before[pid]))
    && (io.Some? ==> pid in after && after[pid].cache.io == io.value)
    && (io.None? && pid in before ==> after[pid].cache.io == before[pid].cache.io)
  }

  lemma StepCpuMoves(i: Info, g: Statics, env: Proc)
    requires ShowsPid(env, i.Pid())
    ensures EntryMoves(g.entries, StepCpu(i, g, env).statics.entries, i.Pid(), CpuSampled(i, g, CpuUsage, env), None)
  {
    hide Touch, ShowsPid, CpuPercent, MachineTicks, ProcessTicks;
    TouchPid(i, FromStat, env);
  }

  lemma StepIoMoves(i: Info, g: Statics, d: Direction, env: Proc)
    requires ShowsPid(env, i.Pid())
    ensures EntryMoves(g.entries, StepIo(i, g, d, env).statics.entries, i.Pid(), None, IoSampled(i, IoUsage(d), env))
  {
    hide Touch, ShowsPid, IoRate;
    TouchPid(i, FromIo, env);
  }

  /** After an I/O usage that sampled, a second reading in the same epoch is the
      same reading. */
  lemma StepIoSettles(i: Info, g: Statics, d: Direction, env: Proc)
    requires ShowsPid(env, i.Pid()) && NeedIo(i, d) && Touch(i, FromIo, env).Done?
    ensures
      var r := StepIo(i, g, d, env);
      && r.info.cache.io == Touch(i, FromIo, env).state.cache.io
      && Touch(r.info, FromIo, env) == Done(r.info)
      && NeedIo(r.info, Other(d)) == NeedIo(i, Other(d)) && r.info.Pid() == i.Pid()
  {
    hide Decode, ShowsPid, IoRate;
    TouchPid(i, FromIo, env);
  }

  lemma StepIoTotalMoves(i: Info, g: Statics, first: Direction, env: Proc)
    requires ShowsPid(env, i.Pid())
    ensures EntryMoves(g.entries, StepIoTotal(i, g, first, env).statics.entries, i.Pid(),
                       None, IoSampled(i, IoTotalUsage(first), env))
  {
    hide Touch, ShowsPid, IoRate, StepIo;
    var a := StepIo(i, g, first, env);
    StepIoMoves(i, g, first, env);
    StepIoNotDue(i, g, first, env);
    if NeedIo(i, first) {
      StepIoAnswers(i, g, first, env);
      if Touch(i, FromIo, env).Done? {
        StepIoSettles(i, g, first, env);
        StepIoMoves(a.info, a.statics, Other(first), env);
      }
    } else {
      StepIoMoves(i, g, Other(first), env);
    }
  }

  lemma StepIoNotDue(i: Info, g: Statics, d: Direction, env: Proc)
    ensures !NeedIo(i, d) ==> StepIo(i, g, d, env) == Result(i, g, Rate(RateOf(i, d)))
  {
    hide Touch;
  }

  lemma StepIoAnswers(i: Info, g: Statics, d: Direction, env: Proc)
    requires NeedIo(i, d)
    ensures StepIo(i, g, d, env).answer.Exception? <==> Touch(i, FromIo, env).Threw?
    ensures !StepIo(i, g, d, env).answer.Exception? ==> StepIo(i, g, d, env).answer.Rate?
  {
    hide Touch, IoRate;
  }

  lemma StepMoves(i: Info, g: Statics, op: Op, env: Proc)
    requires ShowsPid(env, i.Pid())
    ensures EntryMoves(g.entries, Step(i, g, op, env).statics.entries, i.Pid(),
                       CpuSampled(i, g, op, env), IoSampled(i, op, env))
  {
    hide Touch, ShowsPid, StepCpu, StepIo, StepIoTotal;
    match op
    case NeedUpdate =>
    case Get(s) =>
    case CpuUsage => StepCpuMoves(i, g, env);
    case IoUsage(d) => StepIoMoves(i, g, d, env);
    case IoTotalUsage(first) => StepIoTotalMoves(i, g, first, env);
  }

  // -------------------------------------------------------------- whole runs

  /** The CPU sample that an event takes for a pid. */
  function EventCpu(w: World, e: Event, pid: int): Option<Clocks>
  {
    if e.Perform? && e.name.pid == pid && e.name in w.live
    then CpuSampled(w.live[e.name], w.statics, e.op, e.env) else None
  }

  function EventIo(w: World, e: Event, pid: int): Option<IoStat>
  {
    if e.Perform? && e.name.pid == pid && e.name in w.live
    then IoSampled(w.live[e.name], e.op, e.env) else None
  }

  /** The most recent CPU sample of a pid, by any of its instances. */
  function LastCpu(w: World, es: seq<Event>, pid: int): Option<Clocks>
    decreases |es|
  {
    if es == [] then None
    else
      var later := LastCpu(Happen(w, es[0]).world, es[1..], pid);
      if later.Some? then later else EventCpu(w, es[0], pid)
  }

  function LastIo(w: World, es: seq<Event>, pid: int): Option<IoStat>
    decreases |es|
  {
    if es == [] then None
    else
      var later := LastIo(Happen(w, es[0]).world, es[1..], pid);
      if later.Some? then later else EventIo(w, es[0], pid)
  }

  lemma EventMoves(w: World, e: Event, pid: int)
    requires Honest(w) && HonestEvent(e)
    ensures EntryMoves(w.statics.entries, Happen(w, e).world.statics.entries, pid,
                       EventCpu(w, e, pid), EventIo(w, e, pid))
    ensures w.statics.nbCore.Some? ==> Happen(w, e).world.statics.nbCore == w.statics.nbCore
  {
    hide Step, ShowsPid, Fresh, CpuSampled, IoSampled;
    if e.Perform? && e.name in w.live {
      var i := w.live[e.name];
      StepMoves(i, w.statics, e.op, e.env);
      StepLocal(i, w.statics, w.statics, e.op, e.env);
      StepCores(i, w.statics, e.op, e.env);
      assert i.Pid() == e.name.pid;
      if e.name.pid != pid {
        assert SameEntry(Step(i, w.statics, e.op, e.env).statics.entries, w.statics.entries, pid);
      }
    }
  }

  /** Baselines are permanent: an entry, once made, is never removed; after any
      run the CPU baseline of a pid is the most recent CPU sample that any of its
      instances took, and its I/O baseline the most recent I/O sample. */
  lemma {:induction false} BaselinePermanence(w: World, es: seq<Event>, pid: int)
    requires Honest(w) && AllHonest(es)
    ensures EntryMoves(w.statics.entries, Finally(w, es).statics.entries, pid, LastCpu(w, es, pid), LastIo(w, es, pid))
    ensures w.statics.nbCore.Some? ==> Finally(w, es).statics.nbCore == w.statics.nbCore
    decreases |es|
  {
    hide Happen, EventCpu, EventIo, HonestEvent, Honest;
    if es != [] {
      assert HonestEvent(es[0]);
      EventMoves(w, es[0], pid);
      HonestStep(w, es[0]);
      BaselinePermanence(Happen(w, es[0]).world, es[1..], pid);
    }
  }

  /** So every later CPU result of a sampled pid is computed from the most recent
      genuine sample, whichever instance took it. */
  lemma CpuResultFromLastSample(w: World, es: seq<Event>, n: Name, env: Proc)
    requires Honest(w) && AllHonest(es) && ShowsPid(env, n.pid)
    requires LastCpu(w, es, n.pid).Some?
    requires n in Finally(w, es).live
    requires Finally(w, es).live[n].needCpu && CoreCount(Finally(w, es).statics, env).Some?
    ensures
      var f := Finally(w, es);
      var last, now := LastCpu(w, es, n.pid).value, CpuSampled(f.live[n], f.statics, CpuUsage, env).value;
      Happen(f, Perform(n, CpuUsage, env)).answer ==
        Percent(CpuPercent(CoreCount(f.statics, env).value,
                           Sub64(now.process, last.process), Sub64(now.machine, last.machine)))
  {
    hide Step, ShowsPid, CpuPercent;
    BaselinePermanence(w, es, n.pid);
    HonestRun(w, es);
    var f := Finally(w, es);
    CpuAnswer(f.live[n], f.statics, env);
  }

  lemma CpuAnswer(i: Info, g: Statics, env: Proc)
    requires ShowsPid(env, i.Pid()) && i.needCpu && CoreCount(g, env).Some? && i.Pid() in g.entries
    ensures
      var now := CpuSampled(i, g, CpuUsage, env).value;
      var last := CpuBaseline(g.entries[i.Pid()]);
      Step(i, g, CpuUsage, env).answer ==
        Percent(CpuPercent(CoreCount(g, env).value,
                           Sub64(now.process, last.process), Sub64(now.machine, last.machine)))
  {
    hide Touch, ShowsPid, CpuPercent, MachineTicks, ProcessTicks;
    TouchPid(i, FromStat, env);
  }

  /** Likewise every later I/O rate that is due is computed from the most recent
      I/O sample of the pid, whichever instance and whichever direction took it. */
  lemma IoResultFromLastSample(w: World, es: seq<Event>, n: Name, d: Direction, env: Proc)
    requires Honest(w) && AllHonest(es) && ShowsPid(env, n.pid)
    requires LastIo(w, es, n.pid).Some?
    requires n in Finally(w, es).live
    requires IoSampled(Finally(w, es).live[n], IoUsage(d), env).Some?
    ensures
      var f := Finally(w, es);
      var last, now := LastIo(w, es, n.pid).value, IoSampled(f.live[n], IoUsage(d), env).value;
      Happen(f, Perform(n, IoUsage(d), env)).answer == Rate(IoRate(last, now, d))
  {
    hide Step, ShowsPid, IoRate, IoSampled;
    BaselinePermanence(w, es, n.pid);
    HonestRun(w, es);
    IoAnswer(Finally(w, es).live[n], Finally(w, es).statics, d, env);
  }

  lemma IoAnswer(i: Info, g: Statics, d: Direction, env: Proc)
    requires ShowsPid(env, i.Pid()) && IoSampled(i, IoUsage(d), env).Some? && i.Pid() in g.entries
    ensures
      var now := IoSampled(i, IoUsage(d), env).value;
      Step(i, g, IoUsage(d), env).answer == Rate(IoRate(g.entries[i.Pid()].cache.io, now, d))
  {
    hide Touch, ShowsPid, IoRate;
    TouchPid(i, FromIo, env);
  }

  /** The first sample of a pid, of whatever kind, answers 0 and makes the entry. */
  lemma FirstSampleIsZero(i: Info, g: Statics, op: Op, env: Proc)
    requires ShowsPid(env, i.Pid()) && i.Pid() !in g.entries
    requires CpuSampled(i, g, op, env).Some? || (op.IoUsage? && IoSampled(i, op, env).Some?)
    ensures Step(i, g, op, env).answer == if op.CpuUsage? then Percent(0) else Rate(0.0)
    ensures i.Pid() in Step(i, g, op, env).statics.entries
  {
    hide Touch, ShowsPid, CpuPercent, IoRate, MachineTicks, ProcessTicks;
    TouchPid(i, FromStat, env);
    TouchPid(i, FromIo, env);
  }

  /** In a program: as long as no instance of a pid has sampled anything, its first
      usage answers 0. */
  lemma FirstUsageIsZero(w: World, es: seq<Event>, n: Name, op: Op, env: Proc)
    requires Honest(w) && AllHonest(es) && ShowsPid(env, n.pid) && n.pid !in w.statics.entries
    requires LastCpu(w, es, n.pid) == None && LastIo(w, es, n.pid) == None && n in Finally(w, es).live
    requires
      var f := Finally(w, es);
      CpuSampled(f.live[n], f.statics, op, env).Some? || (op.IoUsage? && IoSampled(f.live[n], op, env).Some?)
    ensures Happen(Finally(w, es), Perform(n, op, env)).answer == if op.CpuUsage? then Percent(0) else Rate(0.0)
  {
    hide Step, ShowsPid, CpuSampled, IoSampled;
    BaselinePermanence(w, es, n.pid);
    HonestRun(w, es);
    FirstSampleIsZero(Finally(w, es).live[n], Finally(w, es).statics, op, env);
  }
}
