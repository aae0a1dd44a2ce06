/** Computed usages within an epoch: once answered, a usage is answered again from
    its field, and asking again changes nothing. */
module UsageCache {
  import opened Info
  import opened LazyCache
  import opened NonInterference
  import opened LazyProgram
  import opened IoAccounting

  /** Every usage that is up to date in `i` is so in `j`, with the same value. */
  ghost predicate UsagesKept(i: Info, j: Info)
  {
    && (!i.needCpu ==> !j.needCpu && j.cpuUsage == i.cpuUsage)
    && (forall d :: !NeedIo(i, d) ==> !NeedIo(j, d) && RateOf(j, d) == RateOf(i, d))
  }

  // ---------------------------------------------------------- one operation

  lemma CpuKeepsUsages(i: Info, g: Statics, env: Proc)
    ensures UsagesKept(i, StepCpu(i, g, env).info)
    ensures StepCpu(i, g, env).answer.Percent? ==>
      !StepCpu(i, g, env).info.needCpu && StepCpu(i, g, env).answer == Percent(StepCpu(i, g, env).info.cpuUsage)
  {
    hide Touch, CpuPercent, MachineTicks;
    TouchKeepsRates(i, FromStat, env);
  }

  lemma IoKeepsUsages(i: Info, g: Statics, d: Direction, env: Proc)
    ensures UsagesKept(i, StepIo(i, g, d, env).info)
    ensures StepIo(i, g, d, env).answer.Rate? ==>
      !NeedIo(StepIo(i, g, d, env).info, d) && StepIo(i, g, d, env).answer == Rate(RateOf(StepIo(i, g, d, env).info, d))
  {
    hide Touch, IoRate;
    TouchKeepsRates(i, FromIo, env);
  }

  lemma TotalKeepsUsages(i: Info, g: Statics, first: Direction, env: Proc)
    ensures UsagesKept(i, StepIoTotal(i, g, first, env).info)
    ensures
      var r := StepIoTotal(i, g, first, env);
      r.answer.Rate? ==>
        !r.info.needIoRead && !r.info.needIoWrite && r.answer == Rate(r.info.ioReadUsage + r.info.ioWriteUsage)
  {
    hide StepIo;
    var a := StepIo(i, g, first, env);
    IoKeepsUsages(i, g, first, env);
    IoAnswersRate(i, g, first, env);
    if !a.answer.Exception? {
      IoKeepsUsages(a.info, a.statics, Other(first), env);
      IoAnswersRate(a.info, a.statics, Other(first), env);
      assert !NeedIo(a.info, first);
    }
  }

  lemma IoAnswersRate(i: Info, g: Statics, d: Direction, env: Proc)
    ensures StepIo(i, g, d, env).answer.Rate? || StepIo(i, g, d, env).answer.Exception?
  {
    hide Touch, SampleIo;
  }

  lemma StepKeepsUsages(i: Info, g: Statics, op: Op, env: Proc)
    requires !op.NeedUpdate?
    ensures UsagesKept(i, Step(i, g, op, env).info)
  {
    hide StepCpu, StepIo, StepIoTotal, Touch, UsagesKept;
    match op
    case Get(s) => GetKeepsUsages(i, g, s, env);
    case CpuUsage => CpuKeepsUsages(i, g, env);
    case IoUsage(d) => IoKeepsUsages(i, g, d, env);
    case IoTotalUsage(first) => TotalKeepsUsages(i, g, first, env);
  }

  lemma GetKeepsUsages(i: Info, g: Statics, s: Source, env: Proc)
    ensures UsagesKept(i, StepGet(i, g, s, env).info)
  {
    hide Touch;
    TouchKeepsRates(i, s, env);
  }

  // ------------------------------------------------------------ answers again

  /** A usage that is up to date is answered from its field, and nothing moves. */
  lemma AnswersAgain(i: Info, g: Statics, env: Proc)
    ensures !i.needCpu ==> Step(i, g, CpuUsage, env) == Result(i, g, Percent(i.cpuUsage))
    ensures forall d :: !NeedIo(i, d) ==> Step(i, g, IoUsage(d), env) == Result(i, g, Rate(RateOf(i, d)))
    ensures !i.needIoRead && !i.needIoWrite ==>
      forall d :: Step(i, g, IoTotalUsage(d), env) == Result(i, g, Rate(i.ioReadUsage + i.ioWriteUsage))
  {
    hide UpdateCpuUsage, UpdateIoUsage;
  }

  lemma {:induction false} RunKeepsUsages(i: Info, g: Statics, calls: seq<Call>)
    requires OneEpoch(calls)
    ensures UsagesKept(i, After(i, g, calls).info)
    decreases |calls|
  {
    hide Step;
    if calls != [] {
      assert OneEpoch(calls[1..]) by {
        assert forall k :: 0 <= k < |calls| - 1 ==> calls[1..][k] == calls[k + 1];
      }
      StepKeepsUsages(i, g, calls[0].op, calls[0].env);
      var r := Step(i, g, calls[0].op, calls[0].env);
      RunKeepsUsages(r.info, r.statics, calls[1..]);
    }
  }

  /** What an operation answered, if it computed a usage, is in the fields. */
  ghost predicate Settled(i: Info, op: Op, answer: Answer)
  {
    match op
    case CpuUsage => !i.needCpu && answer == Percent(i.cpuUsage)
    case IoUsage(d) => !NeedIo(i, d) && answer == Rate(RateOf(i, d))
    case IoTotalUsage(_) => !i.needIoRead && !i.needIoWrite && answer == Rate(i.ioReadUsage + i.ioWriteUsage)
    case _ => false
  }

  predicate IsUsage(op: Op) { op.CpuUsage? || op.IoUsage? || op.IoTotalUsage? }

  lemma AnswerSettles(i: Info, g: Statics, op: Op, env: Proc)
    requires IsUsage(op) && Step(i, g, op, env).answer != Exception
    ensures Settled(Step(i, g, op, env).info, op, Step(i, g, op, env).answer)
  {
    hide StepCpu, StepIo, StepIoTotal;
    match op
    case CpuUsage =>
      CpuKeepsUsages(i, g, env);
      CpuAnswersPercent(i, g, env);
    case IoUsage(d) =>
      IoKeepsUsages(i, g, d, env);
      IoAnswersRate(i, g, d, env);
    case IoTotalUsage(first) =>
      TotalKeepsUsages(i, g, first, env);
      TotalAnswersRate(i, g, first, env);
  }

  lemma CpuAnswersPercent(i: Info, g: Statics, env: Proc)
    ensures StepCpu(i, g, env).answer.Percent? || StepCpu(i, g, env).answer.Exception?
  {
    hide UpdateCpuUsage;
  }

  lemma TotalAnswersRate(i: Info, g: Statics, first: Direction, env: Proc)
    ensures StepIoTotal(i, g, first, env).answer.Rate? || StepIoTotal(i, g, first, env).answer.Exception?
  {
    hide StepIo;
  }

  /** The same usage again; of the total, in either order of its operands. */
  predicate SameUsage(a: Op, b: Op) { a == b || (a.IoTotalUsage? && b.IoTotalUsage?) }

  lemma SettledStays(i: Info, j: Info, op: Op, answer: Answer)
    requires Settled(i, op, answer) && UsagesKept(i, j)
    ensures Settled(j, op, answer)
  {
    assert !NeedIo(i, Direction.Read) ==> RateOf(j, Direction.Read) == RateOf(i, Direction.Read);
    assert !NeedIo(i, Direction.Write) ==> RateOf(j, Direction.Write) == RateOf(i, Direction.Write);
  }

  lemma SettledAnswers(i: Info, g: Statics, op: Op, again: Op, answer: Answer, env: Proc)
    requires Settled(i, op, answer) && SameUsage(op, again)
    ensures Step(i, g, again, env) == Result(i, g, answer)
  {
    hide Step;
    AnswersAgain(i, g, env);
  }

  /** Within an epoch a usage that was answered is answered the same, whatever is
      called and whatever the kernel shows in between, and asking again moves
      neither the instance nor the shared baselines. */
  lemma UsageStable(i: Info, g: Statics, op: Op, env: Proc, calls: seq<Call>, again: Op, later: Proc)
    requires IsUsage(op) && SameUsage(op, again) && OneEpoch(calls)
    requires Step(i, g, op, env).answer != Exception
    ensures
      var r := Step(i, g, op, env);
      var b := After(r.info, r.statics, calls);
      Step(b.info, b.statics, again, later) == Result(b.info, b.statics, r.answer)
  {
    hide Step, After, Settled, UsagesKept;
    var r := Step(i, g, op, env);
    var b := After(r.info, r.statics, calls);
    AnswerSettles(i, g, op, env);
    RunKeepsUsages(r.info, r.statics, calls);
    SettledStays(r.info, b.info, op, r.answer);
    SettledAnswers(b.info, b.statics, op, again, r.answer, later);
  }

  /** The total answers the sum of the two rates, which can be asked for afterwards. */
  lemma TotalIsSum(i: Info, g: Statics, first: Direction, env: Proc, later: Proc)
    requires Step(i, g, IoTotalUsage(first), env).answer != Exception
    ensures
      var t := Step(i, g, IoTotalUsage(first), env);
      var x := Step(t.info, t.statics, IoUsage(Direction.Read), later);
      var y := Step(t.info, t.statics, IoUsage(Direction.Write), later);
      x.answer.Rate? && y.answer.Rate? && t.answer == Rate(x.answer.rate + y.answer.rate)
  {
    hide Step;
    AnswerSettles(i, g, IoTotalUsage(first), env);
    var t := Step(i, g, IoTotalUsage(first), env);
    AnswersAgain(t.info, t.statics, later);
  }

  // ------------------------------------------------------------ in a program

  lemma EventKeepsUsages(w: World, e: Event, n: Name)
    requires n in w.live && (e.name == n ==> e.Perform?) && (Calls(e, n) ==> !e.op.NeedUpdate?)
    ensures n in Happen(w, e).world.live && UsagesKept(w.live[n], Happen(w, e).world.live[n])
  {
    hide Step, Fresh, UsagesKept;
    KeptByNothing(w.live[n]);
    if Calls(e, n) {
      StepKeepsUsages(w.live[n], w.statics, e.op, e.env);
    }
  }

  lemma KeptByNothing(i: Info)
    ensures UsagesKept(i, i)
  {
  }

  lemma {:induction false} ProgramKeepsUsages(w: World, es: seq<Event>, n: Name)
    requires n in w.live && Kept(es, n) && OneEpochOf(es, n)
    ensures n in Finally(w, es).live && UsagesKept(w.live[n], Finally(w, es).live[n])
    decreases |es|
  {
    hide Happen;
    if es != [] {
      KeptTail(es, n);
      assert OneEpochOf(es[1..], n) by {
        assert forall k :: 0 <= k < |es| - 1 ==> es[1..][k] == es[k + 1];
      }
      EventKeepsUsages(w, es[0], n);
      ProgramKeepsUsages(Happen(w, es[0]).world, es[1..], n);
    }
  }

  /** In any program, until the instance is told to update, a usage that was answered
      is answered the same, whatever any instance does in between, and asking again
      changes nothing in the world. */
  lemma UsageStableOf(w: World, n: Name, op: Op, env: Proc, es: seq<Event>, again: Op, later: Proc)
    requires n in w.live && IsUsage(op) && SameUsage(op, again) && Kept(es, n) && OneEpochOf(es, n)
    requires Happen(w, Perform(n, op, env)).answer != Exception
    ensures
      var m := Happen(w, Perform(n, op, env));
      var f := Finally(m.world, es);
      Happen(f, Perform(n, again, later)) == NonInterference.Moved(f, m.answer)
  {
    hide Step, Finally, Settled, UsagesKept, Kept, OneEpochOf;
    var i := w.live[n];
    var m := Happen(w, Perform(n, op, env));
    var f := Finally(m.world, es);
    AnswerSettles(i, w.statics, op, env);
    ProgramKeepsUsages(m.world, es, n);
    SettledStays(m.world.live[n], f.live[n], op, m.answer);
    SettledAnswers(f.live[n], f.statics, op, again, m.answer, later);
    assert f.live[n := f.live[n]] == f.live;
  }
}
