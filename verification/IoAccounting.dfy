/** I/O rates over the runs of one instance: the baseline shared by the two
    directions, and the account of all bytes. */
module IoAccounting {
  import opened Text
  import opened Numbers
  import opened KeyValue
  import opened Info
  import opened Sampling
  import opened LazyCache
  import opened Baselines

  // ------------------------------------------------------ the shared baseline

  /** With one instance for the pid: as soon as one rate of the epoch has been
      computed, the baseline is the very reading both rates use; and once both
      have, one of them is zero. */
  ghost predicate Shared(i: Info, g: Statics)
  {
    && (!i.needIoRead || !i.needIoWrite ==>
          i.Pid() in g.entries && g.entries[i.Pid()].cache.io == i.cache.io)
    && (!i.needIoRead && !i.needIoWrite ==> i.ioReadUsage == 0.0 || i.ioWriteUsage == 0.0)
  }

  lemma StillRate(io: IoStat, d: Direction)
    ensures IoRate(io, io, d) == 0.0
  {
  }

  lemma FreshShares(pid: int, junk: Info, g: Statics)
    ensures Shared(Fresh(pid, junk), g)
  {
  }

  lemma StepIoShares(i: Info, g: Statics, d: Direction, env: Proc)
    requires ShowsPid(env, i.Pid()) && Guarded(i, g) && Shared(i, g)
    ensures Shared(StepIo(i, g, d, env).info, StepIo(i, g, d, env).statics)
  {
    hide Decode, ShowsPid, IoRate;
    TouchPid(i, FromIo, env);
    StillRate(i.cache.io, d);
  }

  lemma StepCpuShares(i: Info, g: Statics, env: Proc)
    requires ShowsPid(env, i.Pid()) && Guarded(i, g) && Shared(i, g)
    ensures Shared(StepCpu(i, g, env).info, StepCpu(i, g, env).statics)
  {
    hide Touch, ShowsPid, CpuPercent, MachineTicks;
    TouchPid(i, FromStat, env);
    TouchKeepsIo(i, FromStat, env);
  }

  lemma TouchKeepsRates(i: Info, s: Source, env: Proc)
    ensures
      var t := Touch(i, s, env).state;
      && t.needCpu == i.needCpu && t.needIoRead == i.needIoRead && t.needIoWrite == i.needIoWrite
      && t.cpuUsage == i.cpuUsage && t.ioReadUsage == i.ioReadUsage && t.ioWriteUsage == i.ioWriteUsage
  {
    hide Decode, Put, PartOf;
  }

  lemma TouchKeepsIo(i: Info, s: Source, env: Proc)
    requires s != FromIo || FromIo !in i.need
    ensures
      var t := Touch(i, s, env).state;
      && t.cache.io == i.cache.io && t.needCpu == i.needCpu
      && t.needIoRead == i.needIoRead && t.needIoWrite == i.needIoWrite
      && t.ioReadUsage == i.ioReadUsage && t.ioWriteUsage == i.ioWriteUsage
  {
    if s in i.need {
      TouchKeepsRates(i, s, env);
      hide Decode, Touch, Put;
      TouchEffect(i, s, env);
      assert PartOf(Touch(i, s, env).state.cache, FromIo) == PartOf(i.cache, FromIo);
    }
  }

  lemma StepGetShares(i: Info, g: Statics, s: Source, env: Proc)
    requires ShowsPid(env, i.Pid()) && Guarded(i, g) && Shared(i, g)
    ensures Shared(StepGet(i, g, s, env).info, StepGet(i, g, s, env).statics)
  {
    hide Decode, ShowsPid, Readable;
    TouchPid(i, s, env);
    TouchEffect(i, s, env);
    if s != FromIo || FromIo !in i.need {
      TouchKeepsIo(i, s, env);
    }
    hide Touch;
  }

  lemma StepIoTotalShares(i: Info, g: Statics, first: Direction, env: Proc)
    requires ShowsPid(env, i.Pid()) && Guarded(i, g) && Shared(i, g)
    ensures Shared(StepIoTotal(i, g, first, env).info, StepIoTotal(i, g, first, env).statics)
  {
    hide StepIo, ShowsPid;
    var a := StepIo(i, g, first, env);
    StepIoShares(i, g, first, env);
    StepIoEffect(i, g, first, env, FromIo);
    StepIoLocal(i, g, g, first, env);
    if !a.answer.Exception? {
      StepIoShares(a.info, a.statics, Other(first), env);
    }
  }

  lemma StepShares(i: Info, g: Statics, c: Call)
    requires ShowsPid(c.env, i.Pid()) && Guarded(i, g) && Shared(i, g)
    ensures
      var r := Step(i, g, c.op, c.env);
      Shared(r.info, r.statics) && Guarded(r.info, r.statics) && r.info.Pid() == i.Pid()
  {
    hide StepIo, StepIoTotal, StepCpu, StepGet, ShowsPid;
    StepEffect(i, g, c, FromIo);
    StepLocal(i, g, g, c.op, c.env);
    match c.op
    case NeedUpdate =>
    case Get(s) => StepGetShares(i, g, s, c.env);
    case CpuUsage => StepCpuShares(i, g, c.env);
    case IoUsage(d) => StepIoShares(i, g, d, c.env);
    case IoTotalUsage(first) => StepIoTotalShares(i, g, first, c.env);
  }

  lemma {:induction false} RunShares(i: Info, g: Statics, calls: seq<Call>)
    requires AllShow(i.Pid(), calls) && Guarded(i, g) && Shared(i, g)
    ensures
      var b := After(i, g, calls);
      Shared(b.info, b.statics) && Guarded(b.info, b.statics) && b.info.Pid() == i.Pid()
    decreases |calls|
  {
    hide Step, ShowsPid, Shared, Guarded;
    if calls != [] {
      assert ShowsPid(calls[0].env, i.Pid());
      StepShares(i, g, calls[0]);
      var r := Step(i, g, calls[0].op, calls[0].env);
      assert AllShow(i.Pid(), calls[1..]) by {
        assert forall k :: 0 <= k < |calls| - 1 ==> calls[1..][k] == calls[k + 1];
      }
      RunShares(r.info, r.statics, calls[1..]);
    }
  }

  /** The second rate to be computed in an epoch is exactly zero. */
  lemma SecondRateIsZero(i: Info, g: Statics, d: Direction, env: Proc)
    requires ShowsPid(env, i.Pid()) && Guarded(i, g) && Shared(i, g)
    requires NeedIo(i, d) && !NeedIo(i, Other(d))
    ensures StepIo(i, g, d, env).answer == Rate(0.0)
  {
    hide Decode, ShowsPid;
  }

  /** So after any run of a single instance, `ioTotalUsage` is the rate that was,
      or is now, computed first in the epoch, in whichever order the compiler
      evaluates the sum. */
  lemma IoTotalIsFirstRate(pid: int, junk: Info, g: Statics, calls: seq<Call>, order: Direction, env: Proc)
    requires AllShow(pid, calls) && ShowsPid(env, pid)
    ensures
      var b := After(Fresh(pid, junk), g, calls);
      var total := Step(b.info, b.statics, IoTotalUsage(order), env).answer;
      var alone := Step(b.info, b.statics, IoUsage(order), env).answer;
      && (b.info.needIoRead && b.info.needIoWrite ==> total == alone)
      && (b.info.needIoRead && !b.info.needIoWrite ==> total == Rate(b.info.ioWriteUsage))
      && (!b.info.needIoRead && b.info.needIoWrite ==> total == Rate(b.info.ioReadUsage))
      && (!b.info.needIoRead && !b.info.needIoWrite ==>
            total == Rate(if b.info.ioWriteUsage == 0.0 then b.info.ioReadUsage else b.info.ioWriteUsage))
  {
    hide After, StepIo, StepIoTotal, ShowsPid, Shared, Guarded;
    FreshShares(pid, junk, g);
    FreshIsGuarded(pid, junk, g);
    RunShares(Fresh(pid, junk), g, calls);
    var b := After(Fresh(pid, junk), g, calls);
    TotalIsFirstRate(b.info, b.statics, order, env);
  }

  lemma TotalIsFirstRate(i: Info, g: Statics, order: Direction, env: Proc)
    requires ShowsPid(env, i.Pid()) && Guarded(i, g) && Shared(i, g)
    ensures
      var total := StepIoTotal(i, g, order, env).answer;
      && (i.needIoRead && i.needIoWrite ==> total == StepIo(i, g, order, env).answer)
      && (i.needIoRead && !i.needIoWrite ==> total == Rate(i.ioWriteUsage))
      && (!i.needIoRead && i.needIoWrite ==> total == Rate(i.ioReadUsage))
      && (!i.needIoRead && !i.needIoWrite ==>
            total == Rate(if i.ioWriteUsage == 0.0 then i.ioReadUsage else i.ioWriteUsage))
  {
    hide StepIo, ShowsPid;
    var a := StepIo(i, g, order, env);
    StepIoEffect(i, g, order, env, FromIo);
    StepIoNotDue(i, g, order, env);
    StepIoShares(i, g, order, env);
    StepIoLocal(i, g, g, order, env);
    if NeedIo(i, order) && !NeedIo(i, Other(order)) {
      SecondRateIsZero(i, g, order, env);
      StepIoKeepsOther(i, g, order, env);
      StepIoNotDue(a.info, a.statics, Other(order), env);
    } else if NeedIo(i, Other(order)) && !a.answer.Exception? {
      SecondRateIsZero(a.info, a.statics, Other(order), env);
    } else if !NeedIo(i, Other(order)) {
      StepIoNotDue(a.info, a.statics, Other(order), env);
    }
  }

  lemma StepIoKeepsOther(i: Info, g: Statics, d: Direction, env: Proc)
    ensures RateOf(StepIo(i, g, d, env).info, Other(d)) == RateOf(i, Other(d))
  {
    hide Decode, IoRate;
  }

  // --------------------------------------------------------------- accounting

  /** One computed rate, with the two readings it compares. */
  datatype IoSample = IoSample(direction: Direction, rate: real, before: IoStat, after: IoStat)

  /** The sample taken by one rate computation on an instance that has a baseline. */
  function OneSample(i: Info, g: Statics, d: Direction, env: Proc): seq<IoSample>
  {
    var r := StepIo(i, g, d, env);
    if NeedIo(i, d) && r.answer.Rate? && i.Pid() in g.entries
    then [IoSample(d, r.answer.rate, g.entries[i.Pid()].cache.io, r.info.cache.io)] else []
  }

  function SamplesOf(i: Info, g: Statics, c: Call): seq<IoSample>
  {
    match c.op
    case IoUsage(d) => OneSample(i, g, d, c.env)
    case IoTotalUsage(first) =>
      var a := StepIo(i, g, first, c.env);
      OneSample(i, g, first, c.env) +
        (if a.answer.Exception? then [] else OneSample(a.info, a.statics, Other(first), c.env))
    case _ => []
  }

  function IoLog(i: Info, g: Statics, calls: seq<Call>): seq<IoSample>
    decreases |calls|
  {
    if calls == [] then []
    else
      var r := Step(i, g, calls[0].op, calls[0].env);
      SamplesOf(i, g, calls[0]) + IoLog(r.info, r.statics, calls[1..])
  }

  /** The samples follow one another from one baseline to another, and each rate
      is the one its readings give. */
  ghost predicate Chained(from: IoStat, log: seq<IoSample>, to: IoStat)
    decreases |log|
  {
    if log == [] then from == to
    else
      && log[0].before == from
      && log[0].rate == IoRate(log[0].before, log[0].after, log[0].direction)
      && Chained(log[0].after, log[1..], to)
  }

  /** No reading shows fewer bytes than the one before it. */
  ghost predicate Growing(d: Direction, log: seq<IoSample>)
  {
    forall k :: 0 <= k < |log| ==> BytesOf(log[k].before, d) <= BytesOf(log[k].after, d) < WORD
  }

  function Elapsed(s: IoSample): int { s.after.lastRead - s.before.lastRead }

  /** The sum of rate times elapsed seconds, over the samples of one direction. */
  function Transferred(d: Direction, log: seq<IoSample>): real
  {
    if log == [] then 0.0
    else (if log[0].direction == d then log[0].rate * Seconds(Elapsed(log[0])) else 0.0) + Transferred(d, log[1..])
  }

  /** The bytes of that direction which no rate of that direction shows: those of
      samples taken by the other direction, or at an unmoved clock. */
  function Missed(d: Direction, log: seq<IoSample>): int
  {
    if log == [] then 0
    else
      (if log[0].direction == d && Elapsed(log[0]) != 0 then 0
       else BytesOf(log[0].after, d) - BytesOf(log[0].before, d)) + Missed(d, log[1..])
  }

  /** The bytes of that direction which its rates do show. */
  function Shown(d: Direction, log: seq<IoSample>): int
  {
    if log == [] then 0
    else
      (if log[0].direction == d && Elapsed(log[0]) != 0 then BytesOf(log[0].after, d) - BytesOf(log[0].before, d)
       else 0) + Shown(d, log[1..])
  }

  lemma DivideMultiply(x: real, t: real)
    requires t != 0.0
    ensures x / t * t == x
  {
  }

  lemma SampleTransfers(s: IoSample)
    requires s.rate == IoRate(s.before, s.after, s.direction)
    requires BytesOf(s.before, s.direction) <= BytesOf(s.after, s.direction) < WORD
    ensures s.rate * Seconds(Elapsed(s)) ==
      if Elapsed(s) == 0 then 0.0 else (BytesOf(s.after, s.direction) - BytesOf(s.before, s.direction)) as real
  {
    var dt := Elapsed(s);
    if dt != 0 {
      var bytes := (BytesOf(s.after, s.direction) - BytesOf(s.before, s.direction)) as real;
      assert Seconds(dt) != 0.0;
      DivideMultiply(bytes, Seconds(dt));
    }
  }

  lemma GrowingTail(d: Direction, log: seq<IoSample>)
    requires Growing(d, log) && log != []
    ensures Growing(d, log[1..])
    ensures BytesOf(log[0].before, d) <= BytesOf(log[0].after, d) < WORD
  {
    hide BytesOf;
    assert forall k :: 0 <= k < |log| - 1 ==> log[1..][k] == log[k + 1];
  }

  lemma {:induction false} TransferredIsShown(d: Direction, from: IoStat, log: seq<IoSample>, to: IoStat)
    requires Chained(from, log, to) && Growing(d, log)
    ensures Transferred(d, log) == Shown(d, log) as real
    decreases |log|
  {
    hide IoRate, BytesOf, Seconds, Growing;
    if log != [] {
      GrowingTail(d, log);
      TransferredIsShown(d, log[0].after, log[1..], to);
      if log[0].direction == d {
        SampleTransfers(log[0]);
      }
    }
  }

  lemma {:induction false} ShownPlusMissed(d: Direction, from: IoStat, log: seq<IoSample>, to: IoStat)
    requires Chained(from, log, to) && Growing(d, log)
    ensures Shown(d, log) + Missed(d, log) == BytesOf(to, d) - BytesOf(from, d)
    ensures Missed(d, log) >= 0
    decreases |log|
  {
    hide IoRate, BytesOf, Growing;
    if log != [] {
      GrowingTail(d, log);
      ShownPlusMissed(d, log[0].after, log[1..], to);
    }
  }

  /** Conservation over a list of samples: every byte between the first and the
      last baseline is in a rate or missed. */
  lemma BytesConserved(d: Direction, from: IoStat, log: seq<IoSample>, to: IoStat)
    requires Chained(from, log, to) && Growing(d, log)
    ensures Transferred(d, log) + Missed(d, log) as real == (BytesOf(to, d) - BytesOf(from, d)) as real
    ensures Missed(d, log) >= 0
  {
    hide Transferred, Missed, Shown, Chained, Growing, BytesOf;
    TransferredIsShown(d, from, log, to);
    ShownPlusMissed(d, from, log, to);
  }

  lemma {:induction false} ChainedConcat(a: IoStat, xs: seq<IoSample>, b: IoStat, ys: seq<IoSample>, c: IoStat)
    requires Chained(a, xs, b) && Chained(b, ys, c)
    ensures Chained(a, xs + ys, c)
    decreases |xs|
  {
    if xs == [] {
      assert xs + ys == ys;
    } else {
      assert (xs + ys)[1..] == xs[1..] + ys;
      ChainedConcat(xs[0].after, xs[1..], b, ys, c);
    }
  }

  lemma OneSampleChained(i: Info, g: Statics, d: Direction, env: Proc)
    requires ShowsPid(env, i.Pid()) && i.Pid() in g.entries
    ensures
      var r := StepIo(i, g, d, env);
      && i.Pid() in r.statics.entries
      && Chained(g.entries[i.Pid()].cache.io, OneSample(i, g, d, env), r.statics.entries[i.Pid()].cache.io)
  {
    hide Touch, ShowsPid, IoRate;
    TouchPid(i, FromIo, env);
  }

  lemma StepChained(i: Info, g: Statics, c: Call)
    requires ShowsPid(c.env, i.Pid()) && i.Pid() in g.entries
    ensures
      var r := Step(i, g, c.op, c.env);
      && i.Pid() in r.statics.entries && r.info.Pid() == i.Pid()
      && Chained(g.entries[i.Pid()].cache.io, SamplesOf(i, g, c), r.statics.entries[i.Pid()].cache.io)
  {
    hide StepIo, StepCpu, StepGet, OneSample, ShowsPid, Chained;
    StepLocal(i, g, g, c.op, c.env);
    StepMoves(i, g, c.op, c.env);
    match c.op
    case IoUsage(d) => OneSampleChained(i, g, d, c.env);
    case IoTotalUsage(first) =>
      var a := StepIo(i, g, first, c.env);
      StepIoLocal(i, g, g, first, c.env);
      OneSampleChained(i, g, first, c.env);
      if a.answer.Exception? {
        assert OneSample(i, g, first, c.env) + [] == OneSample(i, g, first, c.env);
      } else {
        OneSampleChained(a.info, a.statics, Other(first), c.env);
        var b := StepIo(a.info, a.statics, Other(first), c.env);
        ChainedConcat(g.entries[i.Pid()].cache.io, OneSample(i, g, first, c.env), a.statics.entries[i.Pid()].cache.io,
                      OneSample(a.info, a.statics, Other(first), c.env), b.statics.entries[i.Pid()].cache.io);
      }
    case _ => NoSampleChained(g.entries[i.Pid()].cache.io);
  }

  lemma NoSampleChained(io: IoStat)
    ensures Chained(io, [], io)
  {
  }

  /** The samples of a run are a chain from the first baseline to the last. */
  lemma {:induction false} RunChained(i: Info, g: Statics, calls: seq<Call>)
    requires AllShow(i.Pid(), calls) && i.Pid() in g.entries
    ensures i.Pid() in After(i, g, calls).statics.entries
    ensures Chained(g.entries[i.Pid()].cache.io, IoLog(i, g, calls),
                    After(i, g, calls).statics.entries[i.Pid()].cache.io)
    decreases |calls|
  {
    hide Step, ShowsPid, SamplesOf;
    if calls != [] {
      assert ShowsPid(calls[0].env, i.Pid());
      StepChained(i, g, calls[0]);
      var r := Step(i, g, calls[0].op, calls[0].env);
      assert AllShow(i.Pid(), calls[1..]) by {
        assert forall k :: 0 <= k < |calls| - 1 ==> calls[1..][k] == calls[k + 1];
      }
      RunChained(r.info, r.statics, calls[1..]);
      ChainedConcat(g.entries[i.Pid()].cache.io, SamplesOf(i, g, calls[0]), r.statics.entries[i.Pid()].cache.io,
                    IoLog(r.info, r.statics, calls[1..]), After(i, g, calls).statics.entries[i.Pid()].cache.io);
    }
  }

  // -------------------------------------------------------------- the kernel

  /** What the kernel shows of a process that has moved `b` bytes. Reading the io
      file sets the counter to `b`; unless `always`, it may also leave it as it
      was, as it does when the file cannot be opened. */
  ghost predicate ShowsBytes(env: Proc, d: Direction, b: nat, always: bool)
  {
    forall io: IoStat ::
      BytesOf(DecodeIo(io, env.now, env.io).state, d) == b
      || (!always && BytesOf(DecodeIo(io, env.now, env.io).state, d) == BytesOf(io, d))
  }

  /** Over the calls the process is shown with `shown` bytes, which never drop. */
  ghost predicate BytesGrow(d: Direction, from: nat, calls: seq<Call>, shown: seq<nat>, always: bool)
    decreases |calls|
  {
    |shown| == |calls| &&
    (calls == [] ||
      (&& from <= shown[0] < WORD && ShowsBytes(calls[0].env, d, shown[0], always)
       && BytesGrow(d, shown[0], calls[1..], shown[1..], always)))
  }

  /** An io file as the kernel prints it, in any order of its lines, shows its bytes. */
  lemma PrintedShowsBytes(env: Proc, d: Direction, c: Counters, fs: seq<IoField>)
    requires (forall f: IoField :: f in fs && c[f] < HALF_WORD) && env.io == Some(PrintIo(c, fs))
    ensures ShowsBytes(env, d, BytesOf(IoStat(c, env.now), d), true)
  {
    hide DecodeIo, PrintIo;
    forall io: IoStat ensures DecodeIo(io, env.now, env.io).state == IoStat(c, env.now) {
      IoRoundTrip(io, env.now, c, fs);
    }
  }

  /** An unreadable file leaves the counters as they were. */
  lemma UnreadableShowsBytes(env: Proc, d: Direction, b: nat)
    requires env.io == None
    ensures ShowsBytes(env, d, b, false)
  {
  }

  /** The instance is not behind the stored baseline, and the kernel is not behind
      the instance; or its reading is due and will be good. */
  ghost predicate BytesBaselined(i: Info, g: Statics, d: Direction, from: nat, always: bool)
  {
    && i.Pid() in g.entries
    && BytesOf(g.entries[i.Pid()].cache.io, d) <= from
    && (BytesOf(g.entries[i.Pid()].cache.io, d) <= BytesOf(i.cache.io, d) <= from
        || (always && FromIo in i.need))
  }

  /** The cached record after an operation is the one just read, or as it was. */
  lemma CachedBytes(i: Info, g: Statics, c: Call, r: Result)
    requires Effect(i, g, c, FromIo, r)
    ensures
      var f := Fetches(i, g, c, FromIo);
      && r.info.cache.io == (if f then DecodeIo(i.cache.io, c.env.now, c.env.io).state else i.cache.io)
      && (FromIo in i.need && !f ==> FromIo in r.info.need)
  {
    hide Fetches, Readable;
  }

  /** One rate: the baseline moves to a reading that is not behind it. */
  lemma OneSampleGrows(i: Info, g: Statics, e: Direction, env: Proc, d: Direction, from: nat, b: nat, always: bool)
    requires ShowsPid(env, i.Pid()) && BytesBaselined(i, g, d, from, always)
    requires ShowsBytes(env, d, b, always) && from <= b < WORD
    ensures BytesBaselined(StepIo(i, g, e, env).info, StepIo(i, g, e, env).statics, d, b, always)
    ensures Growing(d, OneSample(i, g, e, env))
    ensures StepIo(i, g, e, env).info.Pid() == i.Pid()
  {
    hide StepIo, ShowsPid, BytesOf, DecodeIo, Readable, IoRate, Chained;
    var r := StepIo(i, g, e, env);
    StepIoEffect(i, g, e, env, FromIo);
    CachedBytes(i, g, Call(IoUsage(e), env), r);
    StepIoLocal(i, g, g, e, env);
    StepIoBaseline(i, g, e, env);
  }

  /** A rate that was due leaves its reading as the baseline; otherwise nothing moves. */
  lemma StepIoBaseline(i: Info, g: Statics, d: Direction, env: Proc)
    requires ShowsPid(env, i.Pid()) && i.Pid() in g.entries
    ensures
      var r := StepIo(i, g, d, env);
      && i.Pid() in r.statics.entries
      && r.statics.entries[i.Pid()].cache.io ==
           (if NeedIo(i, d) && !r.answer.Exception? then r.info.cache.io else g.entries[i.Pid()].cache.io)
  {
    hide Touch, ShowsPid, IoRate;
    TouchPid(i, FromIo, env);
  }

  lemma GrowingConcat(d: Direction, xs: seq<IoSample>, ys: seq<IoSample>)
    requires Growing(d, xs) && Growing(d, ys)
    ensures Growing(d, xs + ys)
  {
    hide BytesOf;
  }

  /** Any operation that samples nothing. */
  lemma QuietStepGrows(i: Info, g: Statics, c: Call, d: Direction, from: nat, b: nat, always: bool)
    requires ShowsPid(c.env, i.Pid()) && BytesBaselined(i, g, d, from, always)
    requires ShowsBytes(c.env, d, b, always) && from <= b < WORD
    requires !c.op.IoUsage? && !c.op.IoTotalUsage?
    ensures
      var r := Step(i, g, c.op, c.env);
      BytesBaselined(r.info, r.statics, d, b, always) && r.info.Pid() == i.Pid()
  {
    hide Step, ShowsPid, BytesOf, DecodeIo, Readable, IoRate;
    StepEffect(i, g, c, FromIo);
    CachedBytes(i, g, c, Step(i, g, c.op, c.env));
    StepLocal(i, g, g, c.op, c.env);
    StepMoves(i, g, c.op, c.env);
  }

  lemma StepGrows(i: Info, g: Statics, c: Call, d: Direction, from: nat, b: nat, always: bool)
    requires ShowsPid(c.env, i.Pid()) && BytesBaselined(i, g, d, from, always)
    requires ShowsBytes(c.env, d, b, always) && from <= b < WORD
    ensures
      var r := Step(i, g, c.op, c.env);
      && BytesBaselined(r.info, r.statics, d, b, always) && r.info.Pid() == i.Pid()
      && Growing(d, SamplesOf(i, g, c))
  {
    hide StepIo, StepCpu, StepGet, OneSample, ShowsPid, ShowsBytes, BytesBaselined, Growing;
    match c.op
    case IoUsage(e) => OneSampleGrows(i, g, e, c.env, d, from, b, always);
    case IoTotalUsage(first) =>
      var a := StepIo(i, g, first, c.env);
      OneSampleGrows(i, g, first, c.env, d, from, b, always);
      if a.answer.Exception? {
        assert OneSample(i, g, first, c.env) + [] == OneSample(i, g, first, c.env);
      } else {
        OneSampleGrows(a.info, a.statics, Other(first), c.env, d, b, b, always);
        GrowingConcat(d, OneSample(i, g, first, c.env), OneSample(a.info, a.statics, Other(first), c.env));
      }
    case _ =>
      QuietStepGrows(i, g, c, d, from, b, always);
      NothingGrows(d);
  }

  lemma NothingGrows(d: Direction)
    ensures Growing(d, [])
  {
  }

  /** If the kernel's counter never drops, no sample of a run shows fewer bytes than
      the baseline it is compared with. */
  lemma {:induction false} RunGrows(i: Info, g: Statics, calls: seq<Call>, d: Direction,
                                    from: nat, shown: seq<nat>, always: bool)
    requires AllShow(i.Pid(), calls) && BytesBaselined(i, g, d, from, always)
    requires BytesGrow(d, from, calls, shown, always)
    ensures Growing(d, IoLog(i, g, calls))
    decreases |calls|
  {
    hide Step, ShowsPid, SamplesOf, BytesBaselined, ShowsBytes, Growing;
    if calls == [] {
      NothingGrows(d);
    } else {
      assert ShowsPid(calls[0].env, i.Pid());
      StepGrows(i, g, calls[0], d, from, shown[0], always);
      var r := Step(i, g, calls[0].op, calls[0].env);
      assert AllShow(i.Pid(), calls[1..]) by {
        assert forall k :: 0 <= k < |calls| - 1 ==> calls[1..][k] == calls[k + 1];
      }
      RunGrows(r.info, r.statics, calls[1..], d, shown[0], shown[1..], always);
      GrowingConcat(d, SamplesOf(i, g, calls[0]), IoLog(r.info, r.statics, calls[1..]));
    }
  }

  /** I/O accounting over any run of one instance with a valid baseline: the rates
      of a direction, times the seconds they cover, add up to the bytes between
      the first and the last baseline exactly when no bytes were missed. */
  lemma IoAccountingOfRun(i: Info, g: Statics, calls: seq<Call>, d: Direction,
                          from: nat, shown: seq<nat>, always: bool)
    requires AllShow(i.Pid(), calls) && BytesBaselined(i, g, d, from, always)
    requires BytesGrow(d, from, calls, shown, always)
    ensures i.Pid() in After(i, g, calls).statics.entries
    ensures
      var first := g.entries[i.Pid()].cache.io;
      var last := After(i, g, calls).statics.entries[i.Pid()].cache.io;
      var log := IoLog(i, g, calls);
      var moved := (BytesOf(last, d) - BytesOf(first, d)) as real;
      && Missed(d, log) >= 0
      && Transferred(d, log) + Missed(d, log) as real == moved
      && (Transferred(d, log) == moved <==> Missed(d, log) == 0)
  {
    hide After, IoLog, ShowsPid, BytesGrow;
    RunChained(i, g, calls);
    RunGrows(i, g, calls, d, from, shown, always);
    BytesConserved(d, g.entries[i.Pid()].cache.io, IoLog(i, g, calls),
                   After(i, g, calls).statics.entries[i.Pid()].cache.io);
  }

  // --------------------------------------------------- rates of printed files

  lemma RateInSeconds(bytes: nat, nanoseconds: int)
    requires nanoseconds != 0
    ensures bytes as real / Seconds(nanoseconds) == bytes as real * 1000000000.0 / nanoseconds as real
  {
    var t := nanoseconds as real;
    assert t / 1000000000.0 != 0.0;
    assert (bytes as real * 1000000000.0 / t) * (t / 1000000000.0) == bytes as real;
  }

  /** Reading a printed io file leaves exactly its counters and the time. */
  lemma PrintedReading(i: Info, env: Proc, c: Counters, fs: seq<IoField>)
    requires FromIo in i.need && env.io == Some(PrintIo(c, fs))
    requires forall f: IoField :: f in fs && c[f] < HALF_WORD
    ensures Touch(i, FromIo, env).Done? && Touch(i, FromIo, env).state.cache.io == IoStat(c, env.now)
  {
    hide DecodeIo, PrintIo;
    IoRoundTrip(i.cache.io, env.now, c, fs);
  }

  /** Any due I/O usage leaves the file it read as the baseline. */
  lemma PrintedBaseline(i: Info, g: Statics, d: Direction, env: Proc, c: Counters, fs: seq<IoField>)
    requires ShowsPid(env, i.Pid()) && NeedIo(i, d) && FromIo in i.need && env.io == Some(PrintIo(c, fs))
    requires forall f: IoField :: f in fs && c[f] < HALF_WORD
    ensures
      var r := StepIo(i, g, d, env);
      && r.info.Pid() == i.Pid() && i.Pid() in r.statics.entries
      && r.statics.entries[i.Pid()].cache.io == IoStat(c, env.now)
  {
    hide Touch, ShowsPid, PrintIo, IoRate, StepIo;
    PrintedReading(i, env, c, fs);
    StepIoMoves(i, g, d, env);
    StepIoLocal(i, g, g, d, env);
  }

  /** The read rate is the growth of the counter printed as `read_bytes`, in bytes per
      second of the clock... */
  lemma PrintedReadRate(i: Info, g: Statics, env: Proc, c1: Counters, t1: int, c2: Counters, fs: seq<IoField>)
    requires ShowsPid(env, i.Pid()) && i.needIoRead && FromIo in i.need && env.io == Some(PrintIo(c2, fs))
    requires forall f: IoField :: f in fs && c2[f] < HALF_WORD
    requires i.Pid() in g.entries && g.entries[i.Pid()].cache.io == IoStat(c1, t1)
    requires c1[ReadBytes] <= c2[ReadBytes] && env.now != t1
    ensures Step(i, g, IoUsage(Read), env).answer ==
      Rate((c2[ReadBytes] - c1[ReadBytes]) as real * 1000000000.0 / (env.now - t1) as real)
  {
    hide Touch, ShowsPid, PrintIo, Step;
    PrintedReading(i, env, c2, fs);
    IoAnswer(i, g, Read, env);
    RateInSeconds(c2[ReadBytes] - c1[ReadBytes], env.now - t1);
  }

  /** ... and the write rate that of the counter printed as `write_bytes`. */
  lemma PrintedWriteRate(i: Info, g: Statics, env: Proc, c1: Counters, t1: int, c2: Counters, fs: seq<IoField>)
    requires ShowsPid(env, i.Pid()) && i.needIoWrite && FromIo in i.need && env.io == Some(PrintIo(c2, fs))
    requires forall f: IoField :: f in fs && c2[f] < HALF_WORD
    requires i.Pid() in g.entries && g.entries[i.Pid()].cache.io == IoStat(c1, t1)
    requires c1[WriteBytes] <= c2[WriteBytes] && env.now != t1
    ensures Step(i, g, IoUsage(Write), env).answer ==
      Rate((c2[WriteBytes] - c1[WriteBytes]) as real * 1000000000.0 / (env.now - t1) as real)
  {
    hide Touch, ShowsPid, PrintIo, Step;
    PrintedReading(i, env, c2, fs);
    IoAnswer(i, g, Write, env);
    RateInSeconds(c2[WriteBytes] - c1[WriteBytes], env.now - t1);
  }

  /** Two printed files, one epoch apart: the rates a caller gets, whatever was in the
      map before, and whichever usage of the first epoch made the baseline. */
  lemma RatesBetweenFiles(i: Info, g: Statics, d: Direction, early: Proc, late: Proc,
                          c1: Counters, c2: Counters, fs: seq<IoField>)
    requires ShowsPid(early, i.Pid()) && ShowsPid(late, i.Pid()) && NeedIo(i, d) && FromIo in i.need
    requires early.io == Some(PrintIo(c1, fs)) && late.io == Some(PrintIo(c2, fs)) && early.now != late.now
    requires forall f: IoField :: f in fs && c1[f] <= c2[f] < HALF_WORD
    ensures
      var a := Step(i, g, IoUsage(d), early);
      var due := Step(a.info, a.statics, NeedUpdate, late);
      var seconds := (late.now - early.now) as real / 1000000000.0;
      && seconds != 0.0
      && Step(due.info, due.statics, IoUsage(Read), late).answer ==
           Rate((c2[ReadBytes] - c1[ReadBytes]) as real / seconds)
      && Step(due.info, due.statics, IoUsage(Write), late).answer ==
           Rate((c2[WriteBytes] - c1[WriteBytes]) as real / seconds)
  {
    hide StepIo, ShowsPid, PrintIo;
    PrintedBaseline(i, g, d, early, c1, fs);
    var a := Step(i, g, IoUsage(d), early);
    var due := Expire(a.info);
    PrintedReadRate(due, a.statics, late, c1, early.now, c2, fs);
    PrintedWriteRate(due, a.statics, late, c1, early.now, c2, fs);
    RateInSeconds(c2[ReadBytes] - c1[ReadBytes], late.now - early.now);
    RateInSeconds(c2[WriteBytes] - c1[WriteBytes], late.now - early.now);
  }

  // ------------------------------------------------- one direction goes first

  /** The samples of direction `d` have a moved clock. */
  ghost predicate Moved(d: Direction, log: seq<IoSample>)
  {
    forall k :: 0 <= k < |log| ==> log[k].direction == d ==> Elapsed(log[k]) != 0
  }

  /** In every epoch the rate of the other direction is computed, if at all,
      after that of `d`; and whenever the rate of `d` is, the clock has moved
      since the baseline. */
  ghost predicate FlagsGoFirst(d: Direction, i: Info, g: Statics, calls: seq<Call>)
    decreases |calls|
  {
    calls == [] ||
    (var c := calls[0];
     var r := Step(i, g, c.op, c.env);
     && (c.op == IoUsage(Other(d)) && NeedIo(i, Other(d)) ==> !NeedIo(i, d))
     && (c.op == IoTotalUsage(Other(d)) && NeedIo(i, Other(d)) ==> !NeedIo(i, d))
     && Moved(d, SamplesOf(i, g, c))
     && FlagsGoFirst(d, r.info, r.statics, calls[1..]))
  }

  /** A rate computed second compares a reading with itself. */
  lemma SecondSampleIsStill(i: Info, g: Statics, d: Direction, env: Proc)
    requires ShowsPid(env, i.Pid()) && Guarded(i, g) && Shared(i, g)
    requires NeedIo(i, d) && !NeedIo(i, Other(d))
    ensures forall k :: 0 <= k < |OneSample(i, g, d, env)| ==>
      OneSample(i, g, d, env)[k].before == OneSample(i, g, d, env)[k].after
  {
    hide Decode, ShowsPid, IoRate;
  }

  lemma {:induction false} MissedConcat(d: Direction, xs: seq<IoSample>, ys: seq<IoSample>)
    ensures Missed(d, xs + ys) == Missed(d, xs) + Missed(d, ys)
  {
    if xs == [] {
      assert xs + ys == ys;
    } else {
      assert (xs + ys)[1..] == xs[1..] + ys;
      MissedConcat(d, xs[1..], ys);
    }
  }

  /** Samples that miss nothing: their own direction with a moved clock, or none at all. */
  ghost predicate Harmless(d: Direction, log: seq<IoSample>)
  {
    forall k :: 0 <= k < |log| ==>
      log[k].before == log[k].after || (log[k].direction == d && Elapsed(log[k]) != 0)
  }

  lemma {:induction false} HarmlessMissNothing(d: Direction, log: seq<IoSample>)
    requires Harmless(d, log)
    ensures Missed(d, log) == 0
  {
    if log != [] {
      assert Harmless(d, log[1..]) by {
        assert forall k :: 0 <= k < |log| - 1 ==> log[1..][k] == log[k + 1];
      }
      HarmlessMissNothing(d, log[1..]);
    }
  }

  lemma OneSampleDirection(i: Info, g: Statics, d: Direction, env: Proc)
    ensures |OneSample(i, g, d, env)| <= 1
    ensures OneSample(i, g, d, env) != [] ==> OneSample(i, g, d, env)[0].direction == d && NeedIo(i, d)
  {
    hide StepIo;
  }

  lemma HarmlessConcat(d: Direction, xs: seq<IoSample>, ys: seq<IoSample>)
    requires Harmless(d, xs) && Harmless(d, ys)
    ensures Harmless(d, xs + ys)
  {
  }

  lemma OneSampleHarmless(d: Direction, i: Info, g: Statics, e: Direction, env: Proc)
    requires ShowsPid(env, i.Pid()) && Guarded(i, g) && Shared(i, g)
    requires e != d && NeedIo(i, e) ==> !NeedIo(i, d)
    requires Moved(d, OneSample(i, g, e, env))
    ensures Harmless(d, OneSample(i, g, e, env))
  {
    hide OneSample, ShowsPid, Shared, Guarded;
    OneSampleDirection(i, g, e, env);
    if e != d && NeedIo(i, e) {
      SecondSampleIsStill(i, g, e, env);
    }
  }

  lemma TotalHarmless(d: Direction, i: Info, g: Statics, first: Direction, env: Proc)
    requires ShowsPid(env, i.Pid()) && Guarded(i, g) && Shared(i, g)
    requires first != d && NeedIo(i, first) ==> !NeedIo(i, d)
    requires Moved(d, SamplesOf(i, g, Call(IoTotalUsage(first), env)))
    ensures Harmless(d, SamplesOf(i, g, Call(IoTotalUsage(first), env)))
  {
    hide StepIo, OneSample, ShowsPid, Shared, Guarded, Harmless, Moved;
    var a := StepIo(i, g, first, env);
    var xs, ys := OneSample(i, g, first, env), OneSample(a.info, a.statics, Other(first), env);
    StepIoEffect(i, g, first, env, FromIo);
    if a.answer.Exception? {
      assert xs + [] == xs;
      OneSampleHarmless(d, i, g, first, env);
    } else {
      MovedParts(d, xs, ys);
      OneSampleHarmless(d, i, g, first, env);
      StepIoShares(i, g, first, env);
      StepIoLocal(i, g, g, first, env);
      StepIoNotDue(i, g, first, env);
      OneSampleHarmless(d, a.info, a.statics, Other(first), env);
      HarmlessConcat(d, xs, ys);
    }
  }

  lemma MovedParts(d: Direction, xs: seq<IoSample>, ys: seq<IoSample>)
    requires Moved(d, xs + ys)
    ensures Moved(d, xs) && Moved(d, ys)
  {
    forall k | 0 <= k < |xs| ensures xs[k].direction == d ==> Elapsed(xs[k]) != 0 {
      assert (xs + ys)[k] == xs[k];
    }
    forall k | 0 <= k < |ys| ensures ys[k].direction == d ==> Elapsed(ys[k]) != 0 {
      assert (xs + ys)[|xs| + k] == ys[k];
    }
  }

  lemma StepHarmless(d: Direction, i: Info, g: Statics, c: Call)
    requires ShowsPid(c.env, i.Pid()) && Guarded(i, g) && Shared(i, g)
    requires c.op == IoUsage(Other(d)) && NeedIo(i, Other(d)) ==> !NeedIo(i, d)
    requires c.op == IoTotalUsage(Other(d)) && NeedIo(i, Other(d)) ==> !NeedIo(i, d)
    requires Moved(d, SamplesOf(i, g, c))
    ensures Harmless(d, SamplesOf(i, g, c))
  {
    hide StepIo, OneSample, ShowsPid, Shared, Guarded, Moved;
    match c.op
    case IoUsage(e) => OneSampleHarmless(d, i, g, e, c.env);
    case IoTotalUsage(first) => TotalHarmless(d, i, g, first, c.env);
    case _ =>
  }

  lemma {:induction false} RunMissesNothing(d: Direction, i: Info, g: Statics, calls: seq<Call>)
    requires AllShow(i.Pid(), calls) && Guarded(i, g) && Shared(i, g) && FlagsGoFirst(d, i, g, calls)
    ensures Missed(d, IoLog(i, g, calls)) == 0
    decreases |calls|
  {
    hide Step, ShowsPid, SamplesOf, Shared, Guarded;
    if calls != [] {
      assert ShowsPid(calls[0].env, i.Pid());
      StepShares(i, g, calls[0]);
      StepHarmless(d, i, g, calls[0]);
      HarmlessMissNothing(d, SamplesOf(i, g, calls[0]));
      var r := Step(i, g, calls[0].op, calls[0].env);
      assert AllShow(i.Pid(), calls[1..]) by {
        assert forall k :: 0 <= k < |calls| - 1 ==> calls[1..][k] == calls[k + 1];
      }
      RunMissesNothing(d, r.info, r.statics, calls[1..]);
      MissedConcat(d, SamplesOf(i, g, calls[0]), IoLog(r.info, r.statics, calls[1..]));
    }
  }

  /** In each epoch a usage of `d` whose io file is readable comes before any usage
      of the other direction; `done` tells whether it has come already. */
  predicate GoesFirst(d: Direction, calls: seq<Call>, done: bool)
    decreases |calls|
  {
    calls == [] ||
    match calls[0].op
    case NeedUpdate => GoesFirst(d, calls[1..], false)
    case IoUsage(e) => (e == d || done) && GoesFirst(d, calls[1..], DoneAfter(d, e, calls[0].env, done))
    case IoTotalUsage(e) => (e == d || done) && GoesFirst(d, calls[1..], DoneAfter(d, e, calls[0].env, done))
    case _ => GoesFirst(d, calls[1..], done)
  }

  predicate DoneAfter(d: Direction, e: Direction, env: Proc, done: bool)
  {
    done || (e == d && Readable(FromIo, env))
  }

  /** Once the usage of `d` has come, its flag is down until `needUpdate`. */
  lemma DoneStep(d: Direction, i: Info, g: Statics, c: Call, done: bool)
    requires done ==> !NeedIo(i, d)
    ensures
      var r := Step(i, g, c.op, c.env).info;
      match c.op
      case NeedUpdate => true
      case IoUsage(e) => DoneAfter(d, e, c.env, done) ==> !NeedIo(r, d)
      case IoTotalUsage(e) => DoneAfter(d, e, c.env, done) ==> !NeedIo(r, d)
      case _ => done ==> !NeedIo(r, d)
  {
    hide StepIo, Readable, Touch, SampleCpu, Decode;
    match c.op
    case NeedUpdate =>
    case Get(s) => TouchKeepsRates(i, s, c.env);
    case CpuUsage => CpuKeepsIoFlags(i, g, c.env);
    case IoUsage(e) =>
      StepIoEffect(i, g, e, c.env, FromIo);
      StepIoNotDue(i, g, e, c.env);
    case IoTotalUsage(e) =>
      var a := StepIo(i, g, e, c.env);
      StepIoEffect(i, g, e, c.env, FromIo);
      StepIoNotDue(i, g, e, c.env);
      StepIoEffect(a.info, a.statics, Other(e), c.env, FromIo);
  }

  lemma CpuKeepsIoFlags(i: Info, g: Statics, env: Proc)
    ensures
      var r := StepCpu(i, g, env).info;
      r.needIoRead == i.needIoRead && r.needIoWrite == i.needIoWrite
  {
    hide Touch, SampleCpu;
    TouchKeepsRates(i, FromStat, env);
    if CoreCount(g, env).Some? {
      SampleCpuKeeps(Touch(i, FromStat, env).state, g.entries, CoreCount(g, env).value, MachineTicks(env));
    }
  }

  /** So the order of the calls gives the order of the flags. */
  lemma {:induction false} OrderSetsFlags(d: Direction, i: Info, g: Statics, calls: seq<Call>, done: bool)
    requires GoesFirst(d, calls, done) && (done ==> !NeedIo(i, d)) && Moved(d, IoLog(i, g, calls))
    ensures FlagsGoFirst(d, i, g, calls)
    decreases |calls|
  {
    hide Step, SamplesOf, Moved, Readable;
    if calls != [] {
      var c := calls[0];
      var r := Step(i, g, c.op, c.env);
      DoneStep(d, i, g, c, done);
      MovedParts(d, SamplesOf(i, g, c), IoLog(r.info, r.statics, calls[1..]));
      var next := match c.op
        case NeedUpdate => false
        case IoUsage(e) => DoneAfter(d, e, c.env, done)
        case IoTotalUsage(e) => DoneAfter(d, e, c.env, done)
        case _ => done;
      OrderSetsFlags(d, r.info, r.statics, calls[1..], next);
    }
  }

  /** I/O conservation: when one direction always goes first and the clock has moved
      at its samples, its rates times the seconds they cover add up to all the bytes
      it moved. */
  lemma IoConservation(d: Direction, i: Info, g: Statics, calls: seq<Call>, done: bool,
                       from: nat, shown: seq<nat>, always: bool)
    requires AllShow(i.Pid(), calls) && Guarded(i, g) && Shared(i, g)
    requires GoesFirst(d, calls, done) && (done ==> !NeedIo(i, d)) && Moved(d, IoLog(i, g, calls))
    requires BytesBaselined(i, g, d, from, always) && BytesGrow(d, from, calls, shown, always)
    ensures i.Pid() in After(i, g, calls).statics.entries
    ensures Transferred(d, IoLog(i, g, calls)) ==
      (BytesOf(After(i, g, calls).statics.entries[i.Pid()].cache.io, d)
        - BytesOf(g.entries[i.Pid()].cache.io, d)) as real
  {
    hide After, IoLog, ShowsPid, Shared, Guarded, GoesFirst, FlagsGoFirst, Moved, BytesGrow;
    OrderSetsFlags(d, i, g, calls, done);
    IoAccountingOfRun(i, g, calls, d, from, shown, always);
    RunMissesNothing(d, i, g, calls);
  }
}
