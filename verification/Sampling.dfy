/** What one operation can see and change of the shared map: the entry of its
    own pid, and nothing else. */
module Sampling {
  import opened Text
  import opened Numbers
  import opened StatFile
  import opened Info

  /** Reading the stat file leaves this pid in place: the file is unreadable, or
      it starts with the pid, as the kernel writes it. */
  predicate ShowsPid(env: Proc, pid: int)
  {
    TakeNum(OpenFile(env.stat), pid, I32).value == pid
  }

  lemma TouchPid(i: Info, s: Source, env: Proc)
    requires ShowsPid(env, i.Pid())
    ensures Touch(i, s, env).state.Pid() == i.Pid()
  {
    if s in i.need {
      DecodeKeepsPid(s, i, env);
      var p := Decode(s, PartOf(i.cache, s), env).state;
      hide Decode;
      assert PartOf(Put(i.cache, s, p), FromStat) == if s == FromStat then p else PartOf(i.cache, FromStat);
    }
  }

  lemma DecodeKeepsPid(s: Source, i: Info, env: Proc)
    requires ShowsPid(env, i.Pid())
    ensures s == FromStat ==> Decode(s, PartOf(i.cache, s), env).state.stat.pid == i.Pid()
  {
  }

  /** The two maps have the same entry for a pid, or both have none. */
  predicate SameEntry(g: map<int, Info>, h: map<int, Info>, pid: int)
  {
    (pid in g <==> pid in h) && (pid in g ==> g[pid] == h[pid])
  }

  ghost predicate SameElsewhere(g: map<int, Info>, h: map<int, Info>, pid: int)
  {
    forall k :: k != pid ==> SameEntry(g, h, k)
  }

  /** The outcome of one operation on an instance under two states of the
      statics: nothing tells them apart but the entry of the pid. */
  ghost predicate Indistinct(r: Result, q: Result, pid: int)
  {
    && r.info == q.info && r.answer == q.answer && r.info.Pid() == pid
    && SameEntry(r.statics.entries, q.statics.entries, pid)
  }

  lemma StepCpuLocal(i: Info, g: Statics, h: Statics, env: Proc)
    requires ShowsPid(env, i.Pid()) && SameEntry(g.entries, h.entries, i.Pid())
    requires CoreCount(g, env) == CoreCount(h, env)
    ensures Indistinct(StepCpu(i, g, env), StepCpu(i, h, env), i.Pid())
    ensures SameElsewhere(StepCpu(i, g, env).statics.entries, g.entries, i.Pid())
  {
    hide Touch, CpuPercent, ProcessTicks, MachineTicks;
    TouchPid(i, FromStat, env);
  }

  lemma StepIoLocal(i: Info, g: Statics, h: Statics, d: Direction, env: Proc)
    requires ShowsPid(env, i.Pid()) && SameEntry(g.entries, h.entries, i.Pid())
    ensures Indistinct(StepIo(i, g, d, env), StepIo(i, h, d, env), i.Pid())
    ensures SameElsewhere(StepIo(i, g, d, env).statics.entries, g.entries, i.Pid())
    ensures StepIo(i, g, d, env).statics.nbCore == g.nbCore
  {
    hide Touch, IoRate;
    TouchPid(i, FromIo, env);
  }

  lemma StepIoTotalLocal(i: Info, g: Statics, h: Statics, first: Direction, env: Proc)
    requires ShowsPid(env, i.Pid()) && SameEntry(g.entries, h.entries, i.Pid())
    ensures Indistinct(StepIoTotal(i, g, first, env), StepIoTotal(i, h, first, env), i.Pid())
    ensures SameElsewhere(StepIoTotal(i, g, first, env).statics.entries, g.entries, i.Pid())
    ensures StepIoTotal(i, g, first, env).statics.nbCore == g.nbCore
  {
    hide StepIo, ShowsPid;
    var a, b := StepIo(i, g, first, env), StepIo(i, h, first, env);
    StepIoLocal(i, g, h, first, env);
    if !a.answer.Exception? {
      StepIoLocal(a.info, a.statics, b.statics, Other(first), env);
      var c := StepIo(a.info, a.statics, Other(first), env);
      SameElsewhereTrans(c.statics.entries, a.statics.entries, g.entries, i.Pid());
    }
  }

  lemma SameElsewhereTrans(a: map<int, Info>, b: map<int, Info>, c: map<int, Info>, pid: int)
    requires SameElsewhere(a, b, pid) && SameElsewhere(b, c, pid)
    ensures SameElsewhere(a, c, pid)
  {
    forall k | k != pid ensures SameEntry(a, c, k) {
      assert SameEntry(a, b, k) && SameEntry(b, c, k);
    }
  }

  /** One operation depends on the statics only through the entry of its pid and
      the core count, and changes no other entry. */
  lemma StepLocal(i: Info, g: Statics, h: Statics, op: Op, env: Proc)
    requires ShowsPid(env, i.Pid()) && SameEntry(g.entries, h.entries, i.Pid())
    requires op.CpuUsage? ==> CoreCount(g, env) == CoreCount(h, env)
    ensures Indistinct(Step(i, g, op, env), Step(i, h, op, env), i.Pid())
    ensures SameElsewhere(Step(i, g, op, env).statics.entries, g.entries, i.Pid())
  {
    hide Touch, StepCpu, StepIo, StepIoTotal;
    match op
    case NeedUpdate =>
    case Get(s) => TouchPid(i, s, env);
    case CpuUsage => StepCpuLocal(i, g, h, env);
    case IoUsage(d) => StepIoLocal(i, g, h, d, env);
    case IoTotalUsage(first) => StepIoTotalLocal(i, g, h, first, env);
  }

  /** The core count is fixed by the first CPU usage that reads it. */
  lemma StepCores(i: Info, g: Statics, op: Op, env: Proc)
    ensures
      var nb := Step(i, g, op, env).statics.nbCore;
      nb == g.nbCore || (op.CpuUsage? && g.nbCore == None && nb == CoreCount(g, env))
  {
    hide Touch, CpuPercent, ProcessTicks, MachineTicks, IoRate;
  }
}
