/** CPU usage over the runs of one instance: machine arithmetic against the
    exact quotient, and the account of all process ticks. */
module CpuAccounting {
  import opened Text
  import opened Numbers
  import opened StatFile
  import opened Info
  import opened Sampling
  import opened LazyCache
  import opened NonInterference
  import opened Baselines

  // ---------------------------------------------------------- one percentage

  /** The products and the quotient fit the types they are computed in. */
  predicate Fit(nbCore: nat, process: nat, machine: nat)
  {
    && 100 * nbCore < INT_HALF
    && 100 * nbCore * process < WORD
    && (machine > 0 ==> 100 * nbCore * process / machine < INT_HALF)
  }

  /** In range, the machine arithmetic computes the exact floor. */
  lemma PercentIsFloor(nbCore: nat, process: nat, machine: nat)
    requires Fit(nbCore, process, machine) && machine > 0
    ensures CpuPercent(nbCore, process, machine) == 100 * nbCore * process / machine
  {
    assert ToInt32(100 * nbCore) == 100 * nbCore;
    assert ToU64(100 * nbCore) == 100 * nbCore;
    assert ToU64(100 * nbCore * process) == 100 * nbCore * process;
  }

  lemma FloorBounds(x: nat, m: nat)
    requires m > 0
    ensures x / m * m <= x < (x / m + 1) * m
  {
  }

  lemma MulMonotone(k: nat, a: nat, b: nat)
    requires a <= b
    ensures k * a <= k * b
  {
  }

  lemma QuotientBound(x: nat, m: nat, k: nat)
    requires m > 0
    ensures x / m <= k <==> x < (k + 1) * m
  {
    FloorBounds(x, m);
    if x / m <= k {
      MulMonotone(m, x / m + 1, k + 1);
    } else {
      MulMonotone(m, k + 1, x / m);
    }
  }

  lemma ShareBound(k: nat, process: nat, machine: nat)
    requires process <= machine && machine > 0
    ensures k * process < (k + 1) * machine
  {
    MulMonotone(k, process, machine);
    assert (k + 1) * machine == k * machine + machine;
  }

  lemma FloorWithinBound(k: nat, process: nat, machine: nat)
    requires machine > 0
    ensures 0 <= k * process / machine
    ensures k * process / machine <= k <==> k * process < (k + 1) * machine
    ensures process <= machine ==> k * process / machine <= k
  {
    QuotientBound(k * process, machine, k);
    if process <= machine {
      ShareBound(k, process, machine);
    }
  }

  /** The result lies in 0..100*nb_core exactly when the process did not get more
      than its share and a fraction of one per cent; in particular when its clock
      advanced no more than the machine's. */
  lemma PercentWithinBound(nbCore: nat, process: nat, machine: nat)
    requires Fit(nbCore, process, machine) && machine > 0
    ensures 0 <= CpuPercent(nbCore, process, machine)
    ensures CpuPercent(nbCore, process, machine) <= 100 * nbCore
       <==> 100 * nbCore * process < (100 * nbCore + 1) * machine
    ensures process <= machine ==> CpuPercent(nbCore, process, machine) <= 100 * nbCore
  {
    PercentIsFloor(nbCore, process, machine);
    FloorWithinBound(100 * nbCore, process, machine);
    hide Fit, CpuPercent;
  }

  // ------------------------------------------------------------- sample lists

  /** A sample: the clocks read and the percentage returned. */
  datatype CpuSample = CpuSample(at: Clocks, percent: int)

  /** Each percentage was computed from the clocks of the sample before it, the
      clocks never ran backwards, and everything was in range. */
  ghost predicate Genuine(nbCore: nat, base: Clocks, log: seq<CpuSample>)
    decreases |log|
  {
    log == [] ||
    (var dP, dC := log[0].at.process - base.process, log[0].at.machine - base.machine;
     && dP >= 0 && dC >= 0 && Fit(nbCore, dP, dC)
     && log[0].percent == (if dC == 0 then 0 else 100 * nbCore * dP / dC)
     && Genuine(nbCore, log[0].at, log[1..]))
  }

  /** The sum of percentage times elapsed machine ticks. */
  function Weighted(base: Clocks, log: seq<CpuSample>): int
    decreases |log|
  {
    if log == [] then 0
    else log[0].percent * (log[0].at.machine - base.machine) + Weighted(log[0].at, log[1..])
  }

  /** Process ticks of the samples where the machine clock moved. */
  function Counted(base: Clocks, log: seq<CpuSample>): int
    decreases |log|
  {
    if log == [] then 0
    else
      (if log[0].at.machine != base.machine then log[0].at.process - base.process else 0)
        + Counted(log[0].at, log[1..])
  }

  /** Process ticks lost at samples where it did not: the baseline advances all the same. */
  function Dropped(base: Clocks, log: seq<CpuSample>): int
    decreases |log|
  {
    if log == [] then 0
    else
      (if log[0].at.machine == base.machine then log[0].at.process - base.process else 0)
        + Dropped(log[0].at, log[1..])
  }

  function LastClocks(base: Clocks, log: seq<CpuSample>): Clocks
  {
    if log == [] then base else log[|log| - 1].at
  }

  lemma LastClocksCons(base: Clocks, s: CpuSample, log: seq<CpuSample>)
    ensures LastClocks(base, [s] + log) == LastClocks(s.at, log)
  {
  }

  lemma SampleBounds(nbCore: nat, dP: nat, dC: nat, u: int)
    requires u == if dC == 0 then 0 else 100 * nbCore * dP / dC
    ensures dC > 0 ==> u * dC <= 100 * nbCore * dP < u * dC + dC
    ensures dC == 0 ==> u * dC == 0
  {
    if dC > 0 {
      FloorBounds(100 * nbCore * dP, dC);
      assert (u + 1) * dC == u * dC + dC;
    }
  }

  /** The account of a list of samples. Every process tick is either counted or
      dropped; and 100 * nb_core times the ticks counted lies between the sum of
      percentage times elapsed time and that sum plus the total elapsed time,
      below it if any time elapsed at all. */
  lemma {:induction false} SamplesAccount(nbCore: nat, base: Clocks, log: seq<CpuSample>)
    requires Genuine(nbCore, base, log)
    ensures
      var last := LastClocks(base, log);
      var elapsed := last.machine - base.machine;
      && elapsed >= 0
      && Counted(base, log) + Dropped(base, log) == last.process - base.process
      && Counted(base, log) >= 0 && Dropped(base, log) >= 0
      && Weighted(base, log) <= 100 * nbCore * Counted(base, log) <= Weighted(base, log) + elapsed
      && (elapsed > 0 ==> 100 * nbCore * Counted(base, log) < Weighted(base, log) + elapsed)
    decreases |log|
  {
    if log != [] {
      hide Fit;
      var k := 100 * nbCore;
      var dP, dC := log[0].at.process - base.process, log[0].at.machine - base.machine;
      SamplesAccount(nbCore, log[0].at, log[1..]);
      assert log == [log[0]] + log[1..];
      LastClocksCons(base, log[0], log[1..]);
      SampleBounds(nbCore, dP, dC, log[0].percent);
      Distribute(k, dP, Counted(log[0].at, log[1..]));
      Distribute(k, 0, Counted(log[0].at, log[1..]));
    }
  }

  lemma Distribute(k: int, a: int, b: int)
    ensures k * (a + b) == k * a + k * b
  {
  }

  // -------------------------------------------------------------------- runs

  /** The CPU samples of a run, with the percentages returned. */
  function CpuLog(i: Info, g: Statics, calls: seq<Call>): seq<CpuSample>
    decreases |calls|
  {
    if calls == [] then []
    else
      var c := calls[0];
      var r := Step(i, g, c.op, c.env);
      var sampled := CpuSampled(i, g, c.op, c.env);
      (if sampled.Some? && r.answer.Percent? then [CpuSample(sampled.value, r.answer.percent)] else [])
        + CpuLog(r.info, r.statics, calls[1..])
  }

  function Ticks(i: Info): nat { ProcessTicks(i.cache.stat) }

  // -------------------------------------------------------------- the kernel

  /** Over the calls the process is shown with `shown` ticks, which never drop. */
  ghost predicate TicksGrow(from: nat, calls: seq<Call>, shown: seq<nat>, always: bool)
    decreases |calls|
  {
    |shown| == |calls| &&
    (calls == [] ||
      (&& from <= shown[0] && ShowsTicks(calls[0].env.stat, shown[0], always)
       && TicksGrow(shown[0], calls[1..], shown[1..], always)))
  }

  /** Nor does the machine clock run backwards. */
  ghost predicate MachineGrows(from: nat, calls: seq<Call>)
    decreases |calls|
  {
    calls == [] ||
    (from <= MachineTicks(calls[0].env) && MachineGrows(MachineTicks(calls[0].env), calls[1..]))
  }

  // ------------------------------------------------- runs of one instance

  /** The instance is not behind the baseline, and the kernel is not behind the
      instance; or its reading is due and will be good. */
  ghost predicate Baselined(i: Info, base: Clocks, from: nat, always: bool)
  {
    && base.process <= from
    && (base.process <= Ticks(i) <= from || (always && FromStat in i.need))
  }

  /** The clocks of the next baseline. */
  function NextBase(i: Info, g: Statics, base: Clocks, c: Call): Clocks
  {
    CpuSampled(i, g, c.op, c.env).GetOr(base)
  }

  /** One operation moves the cached ticks only by a reading, and a sample uses the
      reading of its epoch. */
  lemma TicksStep(i: Info, g: Statics, c: Call)
    ensures
      var r := Step(i, g, c.op, c.env);
      var f := Fetches(i, g, c, FromStat);
      && Ticks(r.info) == (if f then ProcessTicks(DecodeStat(i.cache.stat, c.env.stat)) else Ticks(i))
      && (FromStat in r.info.need <==> c.op.NeedUpdate? || (FromStat in i.need && !f))
      && (CpuSampled(i, g, c.op, c.env).Some? && FromStat in i.need ==> f)
  {
    hide Step, ProcessTicks, DecodeStat, MachineTicks, Touch;
    StepEffect(i, g, c, FromStat);
    StatIsReadable(c.env);
  }

  lemma BaselinedStep(i: Info, g: Statics, c: Call, base: Clocks, from: nat, t: nat, always: bool)
    requires Baselined(i, base, from, always) && from <= t && ShowsTicks(c.env.stat, t, always)
    ensures
      var r := Step(i, g, c.op, c.env);
      var next := NextBase(i, g, base, c);
      Baselined(r.info, next, t, always) && base.process <= next.process
  {
    hide Step, ProcessTicks, DecodeStat, MachineTicks, Touch, Fetches;
    TicksStep(i, g, c);
    if CpuSampled(i, g, c.op, c.env).Some? {
      SampleOp(i, g, c);
      SampledTicks(i, g, c.env);
    }
  }

  /** The differences between the clocks sampled fit the machine types. */
  ghost predicate ClocksInRange(nbCore: nat, base: Clocks, log: seq<CpuSample>)
    decreases |log|
  {
    log == [] ||
    (&& (base.process <= log[0].at.process && base.machine <= log[0].at.machine ==>
           Fit(nbCore, log[0].at.process - base.process, log[0].at.machine - base.machine))
     && ClocksInRange(nbCore, log[0].at, log[1..]))
  }

  lemma CpuStep(i: Info, g: Statics, c: Call)
    requires ShowsPid(c.env, i.Pid()) && i.Pid() in g.entries && g.nbCore.Some?
    ensures
      var r := Step(i, g, c.op, c.env);
      var sampled := CpuSampled(i, g, c.op, c.env);
      && r.info.Pid() == i.Pid() && i.Pid() in r.statics.entries && r.statics.nbCore == g.nbCore
      && (sampled.Some? ==>
            && sampled.value.process == Ticks(r.info)
            && sampled.value.machine == MachineTicks(c.env)
            && r.answer == Percent(CpuPercent(g.nbCore.value,
                 Sub64(sampled.value.process, g.entries[i.Pid()].lastProcess),
                 Sub64(sampled.value.machine, g.entries[i.Pid()].lastCpu))))
      && CpuBaseline(r.statics.entries[i.Pid()]) ==
           (if sampled.Some? then sampled.value else CpuBaseline(g.entries[i.Pid()]))
  {
    hide Step, ShowsPid, Touch, MachineTicks, ProcessTicks, CpuPercent;
    StepLocal(i, g, g, c.op, c.env);
    StepMoves(i, g, c.op, c.env);
    StepCores(i, g, c.op, c.env);
    if CpuSampled(i, g, c.op, c.env).Some? {
      CpuAnswer(i, g, c.env);
      SampledTicks(i, g, c.env);
    }
  }

  lemma SampledTicks(i: Info, g: Statics, env: Proc)
    requires CpuSampled(i, g, CpuUsage, env).Some?
    ensures CpuSampled(i, g, CpuUsage, env).value == Clocks(MachineTicks(env), Ticks(Step(i, g, CpuUsage, env).info))
  {
    hide Touch, MachineTicks, ProcessTicks, CpuPercent;
  }

  /** From a state with a valid baseline, the samples of any run are genuine if the
      kernel's ticks never drop: the flags then keep the process difference from
      going negative, although the stat file may have been read long before the
      machine clock. */
  lemma {:induction false} RunIsGenuine(i: Info, g: Statics, calls: seq<Call>,
                                        from: nat, shown: seq<nat>, machine: nat, always: bool)
    requires i.Pid() in g.entries && g.nbCore.Some? && AllShow(i.Pid(), calls)
    requires Baselined(i, CpuBaseline(g.entries[i.Pid()]), from, always) && TicksGrow(from, calls, shown, always)
    requires g.entries[i.Pid()].lastCpu <= machine && MachineGrows(machine, calls)
    requires ClocksInRange(g.nbCore.value, CpuBaseline(g.entries[i.Pid()]), CpuLog(i, g, calls))
    ensures
      var base := CpuBaseline(g.entries[i.Pid()]);
      var after := After(i, g, calls);
      && Genuine(g.nbCore.value, base, CpuLog(i, g, calls))
      && i.Pid() in after.statics.entries
      && LastClocks(base, CpuLog(i, g, calls)) == CpuBaseline(after.statics.entries[i.Pid()])
    decreases |calls|
  {
    hide Step, Sampling.ShowsPid, CpuSampled, ProcessTicks, MachineTicks, CpuPercent, Baselined, ShowsTicks, Fit;
    if calls != [] {
      var c := calls[0];
      var r := Step(i, g, c.op, c.env);
      var base := CpuBaseline(g.entries[i.Pid()]);
      var sampled := CpuSampled(i, g, c.op, c.env);
      assert AllShow(i.Pid(), calls[1..]) by {
        assert forall k :: 0 <= k < |calls| - 1 ==> calls[1..][k] == calls[k + 1];
      }
      assert ShowsPid(c.env, i.Pid());
      CpuStep(i, g, c);
      BaselinedStep(i, g, c, base, from, shown[0], always);
      var rest := CpuLog(r.info, r.statics, calls[1..]);
      if sampled.Some? {
        SampleOp(i, g, c);
        var s := CpuSample(sampled.value, r.answer.percent);
        assert CpuLog(i, g, calls) == [s] + rest && ([s] + rest)[1..] == rest;
        ExactPercent(g.nbCore.value, base, s);
        LastClocksCons(base, s, rest);
      } else {
        assert CpuLog(i, g, calls) == [] + rest && [] + rest == rest;
      }
      RunIsGenuine(r.info, r.statics, calls[1..], shown[0], shown[1..], MachineTicks(c.env), always);
    }
  }

  lemma SampleOp(i: Info, g: Statics, c: Call)
    requires CpuSampled(i, g, c.op, c.env).Some?
    ensures c.op.CpuUsage?
  {
  }

  /** With clocks that moved forward and in range, wrap-around never shows. */
  lemma ExactPercent(nbCore: nat, base: Clocks, s: CpuSample)
    requires base.process <= s.at.process < WORD && base.machine <= s.at.machine < WORD
    requires Fit(nbCore, s.at.process - base.process, s.at.machine - base.machine)
    requires s.percent ==
      CpuPercent(nbCore, Sub64(s.at.process, base.process), Sub64(s.at.machine, base.machine))
    ensures
      var dP, dC := s.at.process - base.process, s.at.machine - base.machine;
      s.percent == (if dC == 0 then 0 else 100 * nbCore * dP / dC)
  {
    if s.at.machine > base.machine {
      PercentIsFloor(nbCore, s.at.process - base.process, s.at.machine - base.machine);
    }
  }

  /** CPU accounting over a run of one instance with a valid baseline: the ticks
      by which the baseline advanced are those counted plus those dropped at
      samples where the machine clock stood still, and the percentages account
      for the counted ones up to the rounding of each sample. */
  lemma CpuAccountingOfRun(i: Info, g: Statics, calls: seq<Call>,
                           from: nat, shown: seq<nat>, machine: nat, always: bool)
    requires i.Pid() in g.entries && g.nbCore.Some? && AllShow(i.Pid(), calls)
    requires Baselined(i, CpuBaseline(g.entries[i.Pid()]), from, always) && TicksGrow(from, calls, shown, always)
    requires g.entries[i.Pid()].lastCpu <= machine && MachineGrows(machine, calls)
    requires ClocksInRange(g.nbCore.value, CpuBaseline(g.entries[i.Pid()]), CpuLog(i, g, calls))
    ensures i.Pid() in After(i, g, calls).statics.entries
    ensures
      var base := CpuBaseline(g.entries[i.Pid()]);
      var last := CpuBaseline(After(i, g, calls).statics.entries[i.Pid()]);
      var log := CpuLog(i, g, calls);
      var elapsed := last.machine - base.machine;
      && Counted(base, log) + Dropped(base, log) == last.process - base.process
      && Weighted(base, log) <= 100 * g.nbCore.value * Counted(base, log) <= Weighted(base, log) + elapsed
      && (elapsed > 0 ==> 100 * g.nbCore.value * Counted(base, log) < Weighted(base, log) + elapsed)
  {
    hide TicksGrow, MachineGrows, ClocksInRange, Baselined, CpuLog, After, Genuine;
    RunIsGenuine(i, g, calls, from, shown, machine, always);
    SamplesAccount(g.nbCore.value, CpuBaseline(g.entries[i.Pid()]), CpuLog(i, g, calls));
  }

  /** Taking a sample is what makes a baseline valid: afterwards the conditions
      of the account hold, even if an I/O usage had made the entry before with
      indeterminate CPU fields. */
  lemma SamplingValidates(i: Info, g: Statics, env: Proc)
    requires ShowsPid(env, i.Pid()) && CpuSampled(i, g, CpuUsage, env).Some?
    ensures
      var r := Step(i, g, CpuUsage, env);
      && r.info.Pid() in r.statics.entries && r.statics.nbCore.Some?
      && r.statics.entries[r.info.Pid()].lastProcess == Ticks(r.info)
      && r.statics.entries[r.info.Pid()].lastCpu == MachineTicks(env)
  {
    hide Step, ShowsPid, CpuSampled, ProcessTicks, MachineTicks;
    StepLocal(i, g, g, CpuUsage, env);
    StepMoves(i, g, CpuUsage, env);
    SampledTicks(i, g, env);
    SampledCores(i, g, env);
  }

  lemma SampledCores(i: Info, g: Statics, env: Proc)
    requires CpuSampled(i, g, CpuUsage, env).Some?
    ensures CoreCount(g, env).Some? && Step(i, g, CpuUsage, env).statics.nbCore == CoreCount(g, env)
  {
    hide Touch, MachineTicks, ProcessTicks, CpuPercent;
  }

  lemma SampleIsDue(i: Info, g: Statics, env: Proc)
    requires i.needCpu && CoreCount(g, env).Some?
    ensures CpuSampled(i, g, CpuUsage, env).Some?
  {
  }

  // -------------------------------------------------- programs of instances

  ghost predicate EventShows(e: Event, pid: int, t: nat, always: bool)
  {
    e.name.pid == pid ==>
      && (e.Perform? ==> ShowsTicks(e.env.stat, t, always))
      && (e.Create? && !always ==> Ticks(Fresh(pid, e.junk)) <= t)
  }

  /** Over a program, the files of a pid show its ticks, and these never drop.
      Unless the files always do, the memory a new instance finds must not be ahead. */
  ghost predicate ProgramTicks(from: nat, es: seq<Event>, pid: int, shown: seq<nat>, always: bool)
    decreases |es|
  {
    |shown| == |es| &&
    (es == [] ||
      (&& from <= shown[0]
       && EventShows(es[0], pid, shown[0], always)
       && ProgramTicks(shown[0], es[1..], pid, shown[1..], always)))
  }

  function Latest(from: nat, shown: seq<nat>): nat
  {
    if shown == [] then from else shown[|shown| - 1]
  }

  /** The machine clock, as the instances of a pid see it. */
  function MachineAfter(from: nat, e: Event, pid: int): nat
  {
    if e.Perform? && e.name.pid == pid then MachineTicks(e.env) else from
  }

  function LatestMachine(from: nat, es: seq<Event>, pid: int): nat
    decreases |es|
  {
    if es == [] then from else LatestMachine(MachineAfter(from, es[0], pid), es[1..], pid)
  }

  ghost predicate ProgramMachine(from: nat, es: seq<Event>, pid: int)
    decreases |es|
  {
    es == [] ||
    (from <= MachineAfter(from, es[0], pid) && ProgramMachine(MachineAfter(from, es[0], pid), es[1..], pid))
  }

  /** No instance of the pid is ahead of `t`, unless its reading is due and will be good. */
  ghost predicate Caught(w: World, pid: int, t: nat, always: bool)
  {
    forall n :: n in w.live && n.pid == pid ==> Ticks(w.live[n]) <= t || (always && FromStat in w.live[n].need)
  }

  lemma EventCaught(w: World, e: Event, pid: int, from: nat, t: nat, always: bool)
    requires HonestEvent(e) && Caught(w, pid, from, always) && from <= t && EventShows(e, pid, t, always)
    ensures Caught(Happen(w, e).world, pid, t, always)
    ensures EventCpu(w, e, pid).Some? ==> EventCpu(w, e, pid).value.process <= t
  {
    hide Step, ProcessTicks, DecodeStat, MachineTicks, Touch, Fetches, CpuSampled;
    if e.Perform? && e.name in w.live && e.name.pid == pid {
      var i := w.live[e.name];
      TicksStep(i, w.statics, Call(e.op, e.env));
      if CpuSampled(i, w.statics, e.op, e.env).Some? {
        SampleOp(i, w.statics, Call(e.op, e.env));
        SampledTicks(i, w.statics, e.env);
      }
    }
  }

  /** The last sample of a pid is never ahead of the kernel's ticks... */
  lemma {:induction false} LastCaught(w: World, es: seq<Event>, pid: int, from: nat, shown: seq<nat>, always: bool)
    requires AllHonest(es) && Caught(w, pid, from, always) && ProgramTicks(from, es, pid, shown, always)
    ensures LastCpu(w, es, pid).Some? ==> LastCpu(w, es, pid).value.process <= Latest(from, shown)
    ensures from <= Latest(from, shown)
    decreases |es|
  {
    hide Happen, Caught, EventCpu, EventShows, MachineTicks, HonestEvent;
    if es != [] {
      EventCaught(w, es[0], pid, from, shown[0], always);
      LastCaught(Happen(w, es[0]).world, es[1..], pid, shown[0], shown[1..], always);
      assert Latest(shown[0], shown[1..]) == Latest(from, shown);
    }
  }

  /** ... nor of its machine clock. */
  lemma {:induction false} LastMachine(w: World, es: seq<Event>, pid: int, machine: nat)
    requires ProgramMachine(machine, es, pid)
    ensures LastCpu(w, es, pid).Some? ==> LastCpu(w, es, pid).value.machine <= LatestMachine(machine, es, pid)
    ensures machine <= LatestMachine(machine, es, pid)
    decreases |es|
  {
    hide Happen, EventCpu, MachineTicks;
    if es != [] {
      EventMachine(w, es[0], pid);
      LastMachine(Happen(w, es[0]).world, es[1..], pid, MachineAfter(machine, es[0], pid));
    }
  }

  lemma EventMachine(w: World, e: Event, pid: int)
    ensures EventCpu(w, e, pid).Some? ==>
      e.Perform? && e.name.pid == pid && EventCpu(w, e, pid).value.machine == MachineTicks(e.env)
  {
    hide Touch, ProcessTicks, MachineTicks;
  }

  /** The instance answers from a reading that is behind the last sample. */
  predicate Stale(i: Info, last: Clocks) { FromStat !in i.need && Ticks(i) < last.process }

  lemma SampleNow(i: Info, g: Statics, env: Proc, t: nat)
    requires i.needCpu && CoreCount(g, env).Some? && ShowsTicks(env.stat, t, true)
    ensures CpuSampled(i, g, CpuUsage, env) ==
      Some(Clocks(MachineTicks(env), if FromStat in i.need then t else Ticks(i)))
  {
    hide Step, ProcessTicks, DecodeStat, MachineTicks, Touch;
    SampleIsDue(i, g, env);
    SampledTicks(i, g, env);
    TicksStep(i, g, Call(CpuUsage, env));
  }

  lemma ShownIsWord(env: Proc, t: nat)
    requires ShowsTicks(env.stat, t, true)
    ensures t < WORD
  {
    hide DecodeStat;
    var any := StatRecord(0, "", "", seq(NUM_COUNT, _ => 0));
    assert ProcessTicks(DecodeStat(any, env.stat)) == t;
  }

  /** In any program whose kernel never takes ticks back, the process difference of
      a result wraps around exactly when the instance answers from a reading that
      is behind the last sample of its pid, which another instance took. An
      instance whose reading is due never wraps. */
  lemma ProcessWrapsIff(w: World, es: seq<Event>, n: Name, env: Proc,
                        from: nat, shown: seq<nat>, t: nat, always: bool)
    requires Honest(w) && AllHonest(es) && ShowsPid(env, n.pid)
    requires Caught(w, n.pid, from, always) && ProgramTicks(from, es, n.pid, shown, always)
    requires ShowsTicks(env.stat, t, true) && Latest(from, shown) <= t
    requires LastCpu(w, es, n.pid).Some? && n in Finally(w, es).live
    requires Finally(w, es).live[n].needCpu && CoreCount(Finally(w, es).statics, env).Some?
    ensures CpuSampled(Finally(w, es).live[n], Finally(w, es).statics, CpuUsage, env).Some?
    ensures
      var f := Finally(w, es);
      var last, now := LastCpu(w, es, n.pid).value, CpuSampled(f.live[n], f.statics, CpuUsage, env).value;
      && (now.process < last.process <==> Stale(f.live[n], last))
      && now.process == (if FromStat in f.live[n].need then t else Ticks(f.live[n]))
      && now.machine == MachineTicks(env)
      && last.process <= t < WORD
      && Happen(f, Perform(n, CpuUsage, env)).answer ==
           Percent(CpuPercent(CoreCount(f.statics, env).value,
             if Stale(f.live[n], last) then WORD - (last.process - now.process) else now.process - last.process,
             Sub64(now.machine, last.machine)))
  {
    hide Happen, Finally, LastCpu, CpuSampled, CpuPercent, ProgramTicks, Caught, Honest, AllHonest, ShowsPid, CoreCount,
      HonestEvent, MachineTicks, ProcessTicks, ShowsTicks;
    var f := Finally(w, es);
    LastCaught(w, es, n.pid, from, shown, always);
    SampleNow(f.live[n], f.statics, env, t);
    ShownIsWord(env, t);
    CpuResultFromLastSample(w, es, n, env);
  }

  /** The bound on any result, in any program whose kernel clocks never run
      backwards: once some instance of the pid has sampled, a result of an instance
      that is not stale is the exact floor over the time since the most recent
      sample, and lies in 0..100*nb_core if the process clock advanced no more than
      the machine clock. */
  lemma CpuUsageBound(w: World, es: seq<Event>, n: Name, env: Proc,
                      from: nat, shown: seq<nat>, t: nat, machine: nat, always: bool)
    requires Honest(w) && AllHonest(es) && ShowsPid(env, n.pid)
    requires Caught(w, n.pid, from, always) && ProgramTicks(from, es, n.pid, shown, always)
    requires ShowsTicks(env.stat, t, true) && Latest(from, shown) <= t
    requires ProgramMachine(machine, es, n.pid) && LatestMachine(machine, es, n.pid) <= MachineTicks(env)
    requires LastCpu(w, es, n.pid).Some? && n in Finally(w, es).live
    requires Finally(w, es).live[n].needCpu && CoreCount(Finally(w, es).statics, env).Some?
    requires !Stale(Finally(w, es).live[n], LastCpu(w, es, n.pid).value)
    ensures CpuSampled(Finally(w, es).live[n], Finally(w, es).statics, CpuUsage, env).Some?
    ensures
      var f := Finally(w, es);
      var nb := CoreCount(f.statics, env).value;
      var last, now := LastCpu(w, es, n.pid).value, CpuSampled(f.live[n], f.statics, CpuUsage, env).value;
      var dP, dC := now.process - last.process, now.machine - last.machine;
      && dP >= 0 && dC >= 0
      && (Fit(nb, dP, dC) ==>
            var u := if dC == 0 then 0 else 100 * nb * dP / dC;
            && Happen(f, Perform(n, CpuUsage, env)).answer == Percent(u)
            && 0 <= u && (dC > 0 ==> (u <= 100 * nb <==> 100 * nb * dP < (100 * nb + 1) * dC))
            && (dP <= dC ==> u <= 100 * nb))
  {
    hide Happen, Finally, LastCpu, CpuSampled, CpuPercent, Fit, Honest, AllHonest, ShowsPid, CoreCount, ShowsTicks,
      ProgramTicks, ProgramMachine, LatestMachine, Caught, MachineTicks, ProcessTicks;
    LastMachine(w, es, n.pid, machine);
    ProcessWrapsIff(w, es, n, env, from, shown, t, always);
    MachineIsWord(env);
    var f := Finally(w, es);
    var last, now := LastCpu(w, es, n.pid).value, CpuSampled(f.live[n], f.statics, CpuUsage, env).value;
    if Fit(CoreCount(f.statics, env).value, now.process - last.process, now.machine - last.machine) {
      ExactBound(CoreCount(f.statics, env).value, last, now);
    }
  }

  lemma MachineIsWord(env: Proc)
    ensures MachineTicks(env) < WORD
  {
  }

  lemma ExactBound(nb: nat, last: Clocks, now: Clocks)
    requires last.process <= now.process < WORD && last.machine <= now.machine < WORD
    requires Fit(nb, now.process - last.process, now.machine - last.machine)
    ensures
      var dP, dC := now.process - last.process, now.machine - last.machine;
      var u := if dC == 0 then 0 else 100 * nb * dP / dC;
      && CpuPercent(nb, dP, Sub64(now.machine, last.machine)) == u
      && 0 <= u && (dC > 0 ==> (u <= 100 * nb <==> 100 * nb * dP < (100 * nb + 1) * dC))
      && (dP <= dC ==> u <= 100 * nb)
  {
    var dP, dC := now.process - last.process, now.machine - last.machine;
    assert Sub64(now.machine, last.machine) == dC;
    if dC > 0 {
      hide Fit, CpuPercent;
      PercentIsFloor(nb, dP, dC);
      PercentWithinBound(nb, dP, dC);
    }
  }

  /** What the kernel prints is what the sampler reads: a stat line for this pid,
      with a name free of whitespace, shows the pid and its ticks. */
  lemma PrintedTicks(i: Info, env: Proc, r: StatRecord)
    requires env.stat == Some(PrintStat(r)) && r.pid == i.Pid() && FromStat in i.need
    requires Fits(r.pid, I32) && IsWord(r.state) && All(r.name, NotSpace)
    ensures ShowsPid(env, i.Pid())
    ensures Ticks(Touch(i, FromStat, env).state) == ProcessTicks(r)
  {
    hide PrintStat, TakeNum, TakeNums, TakeWord, Put;
    StatRoundTrip(r, i.cache.stat);
    SameTicks(DecodeStat(i.cache.stat, env.stat), r);
  }

  /** The sum of the 14th and the 15th word of a printed line, in 64 bits. */
  lemma TickFields(r: StatRecord, prev: StatRecord)
    requires Fits(r.pid, I32) && IsWord(r.state) && All(r.name, NotSpace)
    ensures
      var fields := Words(PrintStat(r));
      && |fields| == 52 && Strtol(fields[13]).Some? && Strtol(fields[14]).Some?
      && Strtol(fields[13]).value >= 0 && Strtol(fields[14]).value >= 0
      && ProcessTicks(DecodeStat(prev, Some(PrintStat(r)))) ==
           (Strtol(fields[13]).value + Strtol(fields[14]).value) % 0x1_0000_0000_0000_0000
  {
    hide DecodeStat, PrintStat, Words, Strtol;
    StatFieldsRead(r, prev);
  }

  /** A CPU sample reads its process clock from the 14th and the 15th word of the
      line, and its machine clock from the four counters of the machine. */
  lemma PrintedSample(i: Info, g: Statics, env: Proc, r: StatRecord)
    requires env.stat == Some(PrintStat(r)) && r.pid == i.Pid() && FromStat in i.need
    requires Fits(r.pid, I32) && IsWord(r.state) && All(r.name, NotSpace)
    requires i.needCpu && CoreCount(g, env).Some?
    ensures
      var fields := Words(PrintStat(r));
      var c := env.cpuTimes;
      && |fields| == 52 && Strtol(fields[13]).Some? && Strtol(fields[14]).Some?
      && CpuSampled(i, g, CpuUsage, env) == Some(Clocks(
           (c.user + c.nice + c.system + c.idle) % 0x1_0000_0000_0000_0000,
           (Strtol(fields[13]).value + Strtol(fields[14]).value) % 0x1_0000_0000_0000_0000))
  {
    hide DecodeStat, PrintStat, Words, Strtol, ProcessTicks, Put;
    TickFields(r, i.cache.stat);
  }

  /** The shortest program with a stale instance: two instances of a pid, one of
      which has kept an older stat reading. */
  lemma StaleInstanceWraps(pid: int, junkA: Info, junkB: Info, g: Statics, early: Proc, late: Proc, later: Proc)
    requires ShowsPid(early, pid) && ShowsPid(late, pid) && ShowsPid(later, pid)
    requires g.nbCore.Some?
    requires
      Ticks(Touch(Fresh(pid, junkB), FromStat, early).state) < Ticks(Touch(Fresh(pid, junkA), FromStat, late).state)
    ensures
      var b := Step(Fresh(pid, junkB), g, Get(FromStat), early);
      var a := Step(Fresh(pid, junkA), b.statics, CpuUsage, late);
      var again := Step(b.info, a.statics, CpuUsage, later);
      var t1 := Ticks(Touch(Fresh(pid, junkB), FromStat, early).state);
      var t2 := Ticks(Touch(Fresh(pid, junkA), FromStat, late).state);
      again.answer == Percent(CpuPercent(g.nbCore.value, WORD - (t2 - t1),
                                         Sub64(MachineTicks(later), MachineTicks(late))))
  {
    hide ProcessTicks, MachineTicks, CpuPercent, ShowsPid, Decode;
    var i := Fresh(pid, junkB);
    var b := StepGet(i, g, FromStat, early);
    var a := StepCpu(Fresh(pid, junkA), b.statics, late);
    GetsStat(i, g, early);
    SamplesFirst(Fresh(pid, junkA), g, late);
    CpuAnswer(b.info, a.statics, later);
  }

  /** A process that has used so many ticks. */
  function WorkOf(pid: int, ticks: nat): StatRecord
    requires ticks < WORD
  {
    WithTicks(StatRecord(pid, "worker", "R", seq(NUM_COUNT, _ => 0)), ticks)
  }

  /** With printed stat lines: the first instance reads 1 tick, the second reads 2
      and samples, and one machine tick later the first one answers -100 %. */
  lemma StaleExample(junkA: Info, junkB: Info, entries: map<int, Info>, p: Proc)
    ensures
      var early := p.(stat := Some(PrintStat(WorkOf(42, 1))));
      var late := p.(stat := Some(PrintStat(WorkOf(42, 2))), cpuTimes := CpuTimes(0, 0, 0, 100));
      var later := late.(cpuTimes := CpuTimes(0, 0, 0, 101));
      var b := Step(Fresh(42, junkB), Statics(Some(1), entries), Get(FromStat), early);
      var a := Step(Fresh(42, junkA), b.statics, CpuUsage, late);
      Step(b.info, a.statics, CpuUsage, later).answer == Percent(-100)
  {
    hide Step, ProcessTicks, MachineTicks, ShowsPid, PrintStat, WithTicks, Touch;
    var early := p.(stat := Some(PrintStat(WorkOf(42, 1))));
    var late := p.(stat := Some(PrintStat(WorkOf(42, 2))), cpuTimes := CpuTimes(0, 0, 0, 100));
    var later := late.(cpuTimes := CpuTimes(0, 0, 0, 101));
    WorkReads(Fresh(42, junkB), early, 1);
    WorkReads(Fresh(42, junkA), late, 2);
    WorkReads(Fresh(42, junkA), later, 2);
    StaleInstanceWraps(42, junkA, junkB, Statics(Some(1), entries), early, late, later);
    MachineOf(late, 100);
    MachineOf(later, 101);
    OneTickBack();
  }

  lemma WorkReads(i: Info, env: Proc, ticks: nat)
    requires ticks < WORD && i.Pid() == 42 && FromStat in i.need && env.stat == Some(PrintStat(WorkOf(42, ticks)))
    ensures ShowsPid(env, 42) && Ticks(Touch(i, FromStat, env).state) == ticks
  {
    hide PrintStat, ProcessTicks, ShowsPid, Touch;
    PrintedTicks(i, env, WorkOf(42, ticks));
  }

  lemma MachineOf(env: Proc, idle: nat)
    requires env.cpuTimes == CpuTimes(0, 0, 0, idle) && idle < WORD
    ensures MachineTicks(env) == idle
  {
  }

  lemma OneTickBack()
    ensures CpuPercent(1, WORD - 1, Sub64(101, 100)) == -100
  {
    assert ToU64(100 * (WORD - 1)) == WORD - 100;
  }

  lemma GetsStat(i: Info, g: Statics, env: Proc)
    requires ShowsPid(env, i.Pid()) && FromStat in i.need && i.needCpu
    ensures
      var b := StepGet(i, g, FromStat, env);
      && b.info == Touch(i, FromStat, env).state && b.statics == g && b.info.Pid() == i.Pid()
      && b.info.needCpu && Touch(b.info, FromStat, env).state == b.info && FromStat !in b.info.need
  {
    hide ShowsPid;
    StatIsReadable(env);
    TouchPid(i, FromStat, env);
    TouchEffect(i, FromStat, env);
    hide Decode, Readable;
  }

  lemma SamplesFirst(i: Info, g: Statics, env: Proc)
    requires ShowsPid(env, i.Pid()) && i.needCpu && g.nbCore.Some?
    ensures
      var a := StepCpu(i, g, env);
      && i.Pid() in a.statics.entries && a.statics.nbCore == g.nbCore
      && CpuBaseline(a.statics.entries[i.Pid()]) == Clocks(MachineTicks(env), Ticks(Touch(i, FromStat, env).state))
  {
    hide Touch, ProcessTicks, MachineTicks, CpuPercent, ShowsPid;
    TouchPid(i, FromStat, env);
  }
}
