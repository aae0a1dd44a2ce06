/** Runs of one instance: the flags make every source be read once per epoch, at
    its first use, and what a getter returns is what that reading left. */
module LazyCache {
  import opened Text
  import opened KeyValue
  import opened Info
  import NulFiles
  import CpuInfo
  import Sampling
  import Smaps
  import opened StatFile

  /** One operation, with what the kernel shows while it runs. */
  datatype Call = Call(op: Op, env: Proc)

  /** Every call sees the stat file of its own pid. */
  ghost predicate AllShow(pid: int, calls: seq<Call>)
  {
    forall k :: 0 <= k < |calls| ==> Sampling.ShowsPid(calls[k].env, pid)
  }

  function After(i: Info, g: Statics, calls: seq<Call>): Both
    decreases |calls|
  {
    if calls == [] then Both(i, g)
    else
      var r := Step(i, g, calls[0].op, calls[0].env);
      After(r.info, r.statics, calls[1..])
  }

  /** Holds of a fresh instance and is kept by every operation: a computed value
      is up to date only when the source it came from is. */
  ghost predicate Guarded(i: Info, g: Statics)
  {
    && (!i.needCpu ==> FromStat !in i.need && g.nbCore.Some?)
    && (!i.needIoRead || !i.needIoWrite ==> FromIo !in i.need)
  }

  lemma FreshIsGuarded(pid: int, junk: Info, g: Statics)
    ensures Guarded(Fresh(pid, junk), g)
  {
  }

  /** The operation runs the reader of `s`. */
  predicate Fetches(i: Info, g: Statics, c: Call, s: Source)
  {
    s in i.need &&
    match c.op
    case NeedUpdate => false
    case Get(t) => t == s
    case CpuUsage => s == FromStat && i.needCpu && CoreCount(g, c.env).Some?
    case IoUsage(d) => s == FromIo && NeedIo(i, d)
    case IoTotalUsage(_) => s == FromIo && (i.needIoRead || i.needIoWrite)
  }

  /** The environments in which the reader of `s` runs, in order. */
  function FetchLog(i: Info, g: Statics, calls: seq<Call>, s: Source): seq<Proc>
    decreases |calls|
  {
    if calls == [] then []
    else
      var r := Step(i, g, calls[0].op, calls[0].env);
      (if Fetches(i, g, calls[0], s) then [calls[0].env] else []) + FetchLog(r.info, r.statics, calls[1..], s)
  }

  // ----------------------------------------- the reference: no flags involved

  /** How many calls up to and including the next `needUpdate`. */
  function EpochEnd(calls: seq<Call>): (n: nat)
    ensures n <= |calls|
    ensures calls != [] ==> n > 0
  {
    if calls == [] then 0
    else if calls[0].op.NeedUpdate? then 1
    else 1 + EpochEnd(calls[1..])
  }

  /** The core count is known after the call if it was before or a CPU usage
      could read it. */
  predicate Knows(known: bool, c: Call)
  {
    known || (c.op.CpuUsage? && CpuInfo.CoresOf(c.env.cpuinfo).Some?)
  }

  predicate KnowsAfter(known: bool, calls: seq<Call>)
    decreases |calls|
  {
    if calls == [] then known else KnowsAfter(Knows(known, calls[0]), calls[1..])
  }

  /** The operation is a use of `s`. */
  predicate Uses(c: Call, s: Source, known: bool)
  {
    match c.op
    case NeedUpdate => false
    case Get(t) => t == s
    case CpuUsage => s == FromStat && Knows(known, c)
    case IoUsage(_) => s == FromIo
    case IoTotalUsage(_) => s == FromIo
  }

  /** The environment of the first use of `s` in each epoch; a use whose reader
      throws does not settle the epoch. */
  function FirstUses(calls: seq<Call>, s: Source, known: bool): seq<Proc>
    decreases |calls|
  {
    if calls == [] then []
    else if Uses(calls[0], s, known) then
      [calls[0].env] + (if Readable(s, calls[0].env) then LaterUses(calls[1..], s, Knows(known, calls[0]))
                        else FirstUses(calls[1..], s, Knows(known, calls[0])))
    else FirstUses(calls[1..], s, Knows(known, calls[0]))
  }

  /** The first uses from the next epoch on. */
  function LaterUses(calls: seq<Call>, s: Source, known: bool): seq<Proc>
    decreases |calls|, 1
  {
    var n := EpochEnd(calls);
    if n == 0 then [] else FirstUses(calls[n..], s, KnowsAfter(known, calls[..n]))
  }

  /** Successive readings of a source. */
  function Replay(s: Source, p: Payload, envs: seq<Proc>): (r: Payload)
    requires Carries(s, p)
    ensures Carries(s, r)
    decreases |envs|
  {
    if envs == [] then p else Replay(s, Decode(s, p, envs[0]).state, envs[1..])
  }

  // --------------------------------------------------------------- one step

  /** What a reading does to the fields of every source and to the flags. */
  ghost predicate Touched(i: Info, s: Source, env: Proc, r: Outcome<Info>)
  {
    && (forall t ::
          PartOf(r.state.cache, t) == (if t == s && s in i.need then ReadInto(i, s, env) else PartOf(i.cache, t)))
    && r.state.need == (if s in i.need && Readable(s, env) then i.need - {s} else i.need)
    && (r.Done? <==> s !in i.need || Readable(s, env))
    && r.state.needCpu == i.needCpu && r.state.needIoRead == i.needIoRead && r.state.needIoWrite == i.needIoWrite
  }

  /** The fields of `s` after its reader has run. */
  function ReadInto(i: Info, s: Source, env: Proc): Payload { Decode(s, PartOf(i.cache, s), env).state }

  lemma TouchEffect(i: Info, s: Source, env: Proc)
    ensures Touched(i, s, env, Touch(i, s, env))
  {
    hide Decode, Readable, Put, PartOf;
    DecodeDoneIff(s, PartOf(i.cache, s), env);
  }

  /** What an operation does to the fields of `s`, and whether `s` is due after it;
      a guarded instance stays guarded. */
  ghost predicate Effect(i: Info, g: Statics, c: Call, s: Source, r: Result)
  {
    var f := Fetches(i, g, c, s);
    && PartOf(r.info.cache, s) == (if f then ReadInto(i, s, c.env) else PartOf(i.cache, s))
    && (s in r.info.need <==> c.op.NeedUpdate? || (s in i.need && !(f && Readable(s, c.env))))
    && (Guarded(i, g) ==>
          Guarded(r.info, r.statics) && (r.statics.nbCore.Some? <==> Knows(g.nbCore.Some?, c)))
  }

  lemma SampleIoKeeps(d: Direction, i: Info, g: Statics)
    ensures
      var b := SampleIo(d, i, g);
      && b.info.cache == i.cache && b.info.need == i.need && b.info.needCpu == i.needCpu
      && b.info.needIoRead == i.needIoRead && b.info.needIoWrite == i.needIoWrite
      && b.statics.nbCore == g.nbCore
  {
  }

  lemma SampleCpuKeeps(i: Info, entries: map<int, Info>, nbCore: nat, machine: nat)
    ensures
      var b := SampleCpu(i, entries, nbCore, machine);
      && b.info.cache == i.cache && b.info.need == i.need && b.info.needCpu == i.needCpu
      && b.info.needIoRead == i.needIoRead && b.info.needIoWrite == i.needIoWrite
      && b.statics.nbCore == Some(nbCore)
  {
  }

  lemma StepIoEffect(i: Info, g: Statics, d: Direction, env: Proc, s: Source)
    ensures Effect(i, g, Call(IoUsage(d), env), s, StepIo(i, g, d, env))
    ensures
      var r := StepIo(i, g, d, env);
      && (r.answer.Exception? <==> NeedIo(i, d) && FromIo in i.need && !Readable(FromIo, env))
      && (!r.answer.Exception? ==> r.answer.Rate? && !NeedIo(r.info, d))
      && (!r.answer.Exception? && Guarded(i, g) ==> FromIo !in r.info.need)
      && NeedIo(r.info, Other(d)) == NeedIo(i, Other(d))
  {
    hide Decode, Readable, Touch, IoRate, Put;
    TouchEffect(i, FromIo, env);
    SampleIoKeeps(d, Touch(i, FromIo, env).state, g);
  }

  /** `readStat` never throws. */
  lemma StatIsReadable(env: Proc)
    ensures Readable(FromStat, env)
  {
  }

  lemma StepCpuEffect(i: Info, g: Statics, env: Proc, s: Source)
    ensures Effect(i, g, Call(CpuUsage, env), s, StepCpu(i, g, env))
  {
    hide Decode, Readable, Touch, CpuPercent, Put;
    StatIsReadable(env);
    TouchEffect(i, FromStat, env);
    if CoreCount(g, env).Some? {
      SampleCpuKeeps(Touch(i, FromStat, env).state, g.entries, CoreCount(g, env).value, MachineTicks(env));
    }
  }

  lemma GetKnows(g: Statics, t: Source, env: Proc)
    ensures Knows(g.nbCore.Some?, Call(Get(t), env)) == g.nbCore.Some?
  {
  }

  lemma StepGetEffect(i: Info, g: Statics, t: Source, env: Proc, s: Source)
    ensures Effect(i, g, Call(Get(t), env), s, StepGet(i, g, t, env))
  {
    hide Decode, Readable, Touch, Put, PartOf, ReadInto, Knows;
    GetKnows(g, t, env);
    TouchEffect(i, t, env);
  }

  lemma StepIoTotalEffect(i: Info, g: Statics, first: Direction, env: Proc, s: Source)
    ensures Effect(i, g, Call(IoTotalUsage(first), env), s, StepIoTotal(i, g, first, env))
  {
    hide Decode, Readable, Touch, StepIo, Put;
    var a := StepIo(i, g, first, env);
    StepIoEffect(i, g, first, env, s);
    if !a.answer.Exception? {
      StepIoEffect(a.info, a.statics, Other(first), env, s);
    }
  }

  lemma StepEffect(i: Info, g: Statics, c: Call, s: Source)
    ensures Effect(i, g, c, s, Step(i, g, c.op, c.env))
  {
    hide Decode, Readable, StepIo, StepIoTotal, StepCpu, StepGet;
    match c.op
    case NeedUpdate =>
    case Get(t) => StepGetEffect(i, g, t, c.env, s);
    case CpuUsage => StepCpuEffect(i, g, c.env, s);
    case IoUsage(d) => StepIoEffect(i, g, d, c.env, s);
    case IoTotalUsage(first) => StepIoTotalEffect(i, g, first, c.env, s);
  }

  /** A guarded instance with the source due fetches exactly when the operation
      uses it. */
  lemma FetchesIffUses(i: Info, g: Statics, c: Call, s: Source)
    requires Guarded(i, g) && s in i.need
    ensures Fetches(i, g, c, s) <==> Uses(c, s, g.nbCore.Some?)
  {
    hide Decode, Readable;
  }

  // --------------------------------------------------------------- theorems

  lemma {:induction false} LaterUsesCons(c: Call, rest: seq<Call>, s: Source, known: bool)
    requires !c.op.NeedUpdate?
    ensures LaterUses([c] + rest, s, known) == LaterUses(rest, s, Knows(known, c))
  {
    var calls := [c] + rest;
    assert calls[1..] == rest;
    var n := EpochEnd(rest);
    assert EpochEnd(calls) == n + 1;
    assert calls[n + 1..] == rest[n..];
    assert calls[..n + 1] == [c] + rest[..n];
    assert calls[..n + 1][1..] == rest[..n];
  }

  lemma LaterUsesUpdate(c: Call, rest: seq<Call>, s: Source, known: bool)
    requires c.op.NeedUpdate?
    ensures LaterUses([c] + rest, s, known) == FirstUses(rest, s, known)
  {
    var calls := [c] + rest;
    assert EpochEnd(calls) == 1 && calls[1..] == rest;
    KnowsOne(known, c);
    assert calls[..1] == [c];
  }

  lemma KnowsOne(known: bool, c: Call)
    ensures KnowsAfter(known, [c]) == Knows(known, c)
  {
    assert [c][1..] == [];
  }

  /** The reader of a source runs exactly once per epoch that uses it, at the
      first use: the log of actual readings is the flag-free reference. */
  lemma {:induction false} ReadsAreFirstUses(i: Info, g: Statics, calls: seq<Call>, s: Source)
    requires Guarded(i, g)
    ensures FetchLog(i, g, calls, s) ==
      if s in i.need then FirstUses(calls, s, g.nbCore.Some?) else LaterUses(calls, s, g.nbCore.Some?)
    decreases |calls|
  {
    hide Decode, Readable;
    if calls != [] {
      var c, rest := calls[0], calls[1..];
      var r := Step(i, g, c.op, c.env);
      assert calls == [c] + rest;
      StepEffect(i, g, c, s);
      ReadsAreFirstUses(r.info, r.statics, rest, s);
      if s in i.need {
        FetchesIffUses(i, g, c, s);
      } else if c.op.NeedUpdate? {
        LaterUsesUpdate(c, rest, s, g.nbCore.Some?);
      } else {
        LaterUsesCons(c, rest, s, g.nbCore.Some?);
      }
    }
  }

  /** The fields of a source are what its readings, one after the other, made of
      the initial ones. */
  lemma {:induction false} FieldsAreReplay(i: Info, g: Statics, calls: seq<Call>, s: Source)
    requires Guarded(i, g)
    ensures PartOf(After(i, g, calls).info.cache, s) == Replay(s, PartOf(i.cache, s), FetchLog(i, g, calls, s))
    ensures Guarded(After(i, g, calls).info, After(i, g, calls).statics)
    decreases |calls|
  {
    hide Decode, Readable;
    if calls != [] {
      var r := Step(i, g, calls[0].op, calls[0].env);
      StepEffect(i, g, calls[0], s);
      FieldsAreReplay(r.info, r.statics, calls[1..], s);
      var later := FetchLog(r.info, r.statics, calls[1..], s);
      if Fetches(i, g, calls[0], s) {
        assert ([calls[0].env] + later)[1..] == later;
      } else {
        assert [] + later == later;
      }
    }
  }

  /** Lazy reading refines eager snapshots: after any run of a new instance, in
      whatever order its getters and computed usages were called, every source
      holds the readings taken at its first use in each epoch and no others. */
  lemma LazyRefinesEager(pid: int, junk: Info, g: Statics, calls: seq<Call>, s: Source)
    ensures
      var i := Fresh(pid, junk);
      PartOf(After(i, g, calls).info.cache, s) ==
        Replay(s, PartOf(i.cache, s), FirstUses(calls, s, g.nbCore.Some?))
  {
    hide Decode, Readable;
    var i := Fresh(pid, junk);
    FreshIsGuarded(pid, junk, g);
    FieldsAreReplay(i, g, calls, s);
    ReadsAreFirstUses(i, g, calls, s);
  }

  lemma {:induction false} AfterSnoc(i: Info, g: Statics, calls: seq<Call>, c: Call)
    ensures
      var b := After(i, g, calls);
      var r := Step(b.info, b.statics, c.op, c.env);
      After(i, g, calls + [c]) == Both(r.info, r.statics)
    decreases |calls|
  {
    hide Decode, Readable;
    if calls == [] {
      assert calls + [c] == [c] && [c][1..] == [];
    } else {
      assert (calls + [c])[1..] == calls[1..] + [c];
      var r := Step(i, g, calls[0].op, calls[0].env);
      AfterSnoc(r.info, r.statics, calls[1..], c);
    }
  }

  /** What a getter returns at the end of a run is that history of first uses,
      its own included. */
  lemma GetterReturnsFirstUses(pid: int, junk: Info, g: Statics, calls: seq<Call>, s: Source, env: Proc)
    ensures
      var i := Fresh(pid, junk);
      var b := After(i, g, calls);
      var answer := Step(b.info, b.statics, Get(s), env).answer;
      && (answer == Exception <==> s in b.info.need && !Readable(s, env))
      && (answer != Exception ==>
          answer == Data(Replay(s, PartOf(i.cache, s), FirstUses(calls + [Call(Get(s), env)], s, g.nbCore.Some?))))
  {
    hide Decode, Readable;
    var i := Fresh(pid, junk);
    var b := After(i, g, calls);
    TouchEffect(b.info, s, env);
    AfterSnoc(i, g, calls, Call(Get(s), env));
    LazyRefinesEager(pid, junk, g, calls + [Call(Get(s), env)], s);
  }

  ghost predicate OneEpoch(calls: seq<Call>) { forall k :: 0 <= k < |calls| ==> !calls[k].op.NeedUpdate? }

  /** Once read, a source is not read again and its getters do not change until
      `needUpdate`, whatever is called and whatever the kernel shows meanwhile. */
  lemma {:induction false} StableInEpoch(i: Info, g: Statics, calls: seq<Call>, s: Source, env: Proc)
    requires Guarded(i, g) && s !in i.need && OneEpoch(calls)
    ensures FetchLog(i, g, calls, s) == []
    ensures
      var b := After(i, g, calls);
      Step(b.info, b.statics, Get(s), env) == Result(b.info, b.statics, Data(PartOf(i.cache, s)))
    decreases |calls|
  {
    hide Decode, Readable;
    if calls != [] {
      var r := Step(i, g, calls[0].op, calls[0].env);
      StepEffect(i, g, calls[0], s);
      assert OneEpoch(calls[1..]) by {
        assert forall k :: 0 <= k < |calls| - 1 ==> calls[1..][k] == calls[k + 1];
      }
      StableInEpoch(r.info, r.statics, calls[1..], s, env);
    }
  }

  // ----------------------------------------------------------- accumulation

  function OverrideUnion(envs: seq<Proc>): NulFiles.Environ
  {
    if envs == [] then map[] else NulFiles.DecodeEnviron(map[], envs[0].environ) + OverrideUnion(envs[1..])
  }

  lemma OverrideAssoc<K, V>(a: map<K, V>, b: map<K, V>, c: map<K, V>)
    ensures a + b + c == a + (b + c)
  {
  }

  lemma EnvironOver(m: NulFiles.Environ, text: Option<string>)
    ensures NulFiles.DecodeEnviron(m, text) == m + NulFiles.DecodeEnviron(map[], text)
  {
    if text.Some? {
      NulFiles.EnvironUnion(m, Pieces(text.value, NulFiles.NUL));
    } else {
      assert m + map[] == m;
    }
  }

  /** The environment is the override union of every snapshot ever read. */
  lemma {:induction false} EnvironAccumulates(m: NulFiles.Environ, envs: seq<Proc>)
    ensures Replay(FromEnviron, EnvironData(m), envs) == EnvironData(m + OverrideUnion(envs))
    decreases |envs|
  {
    if envs == [] {
      assert m + map[] == m;
    } else {
      var first := NulFiles.DecodeEnviron(map[], envs[0].environ);
      EnvironOver(m, envs[0].environ);
      EnvironAccumulates(m + first, envs[1..]);
      OverrideAssoc(m, first, OverrideUnion(envs[1..]));
    }
  }

  lemma {:induction false} FdsUnion(m: Fds, links: seq<FdLink>)
    ensures DecodeFds(m, links) == m + DecodeFds(map[], links)
    decreases |links|
  {
    if links != [] {
      var n, t := links[0].number, links[0].target;
      FdsUnion(m[n := t], links[1..]);
      FdsUnion(map[n := t], links[1..]);
      assert m[n := t] + DecodeFds(map[], links[1..]) == m + (map[n := t] + DecodeFds(map[], links[1..]));
    }
  }

  function FdUnion(envs: seq<Proc>): Fds
  {
    if envs == [] then map[] else DecodeFds(map[], envs[0].fd) + FdUnion(envs[1..])
  }

  /** So are the open files. */
  lemma {:induction false} FdsAccumulate(m: Fds, envs: seq<Proc>)
    ensures Replay(FromFd, FdData(m), envs) == FdData(m + FdUnion(envs))
    decreases |envs|
  {
    if envs == [] {
      assert m + map[] == m;
    } else {
      var first := DecodeFds(map[], envs[0].fd);
      FdsUnion(m, envs[0].fd);
      FdsAccumulate(m + first, envs[1..]);
      OverrideAssoc(m, first, FdUnion(envs[1..]));
    }
  }

  /** The target of the last link that has this number. */
  function LastTarget(links: seq<FdLink>, n: int): (t: Option<string>)
    ensures t == None <==> forall i :: 0 <= i < |links| ==> links[i].number != n
    ensures t.Some? ==> FdLink(n, t.value) in links
  {
    if links == [] then None
    else
      var last := links[|links| - 1];
      if last.number == n then Some(last.target) else LastTarget(links[..|links| - 1], n)
  }

  lemma {:induction false} FdsSnoc(m: Fds, links: seq<FdLink>, l: FdLink)
    ensures DecodeFds(m, links + [l]) == DecodeFds(m, links)[l.number := l.target]
    decreases |links|
  {
    if links == [] {
      assert links + [l] == [l] && [l][1..] == [];
    } else {
      assert (links + [l])[1..] == links[1..] + [l];
      FdsSnoc(m[links[0].number := links[0].target], links[1..], l);
    }
  }

  /** Each number is bound to the target of the last link that has it, and left as
      it was when none has; no other number appears. */
  lemma {:induction false} FdsLastWins(m: Fds, links: seq<FdLink>, n: int)
    ensures Lookup(DecodeFds(m, links), n) ==
      if LastTarget(links, n).Some? then LastTarget(links, n) else Lookup(m, n)
    decreases |links|
  {
    if links != [] {
      var front, last := links[..|links| - 1], links[|links| - 1];
      assert front + [last] == links;
      FdsSnoc(m, front, last);
      FdsLastWins(m, front, n);
    }
  }

  /** The target of the last reading that showed the number. */
  function LatestTarget(envs: seq<Proc>, n: int): Option<string>
  {
    if envs == [] then None
    else
      var later := LatestTarget(envs[1..], n);
      if later.Some? then later else LastTarget(envs[0].fd, n)
  }

  lemma {:induction false} FdUnionLookup(envs: seq<Proc>, n: int)
    ensures Lookup(FdUnion(envs), n) == LatestTarget(envs, n)
  {
    hide LastTarget;
    if envs != [] {
      FdUnionLookup(envs[1..], n);
      FdsLastWins(map[], envs[0].fd, n);
    }
  }

  /** A descriptor seen once stays, even when it is closed later. */
  lemma {:induction false} FdsNeverForgotten(envs: seq<Proc>, k: nat, n: int)
    requires k < |envs| && n in DecodeFds(map[], envs[k].fd)
    ensures n in FdUnion(envs)
    decreases |envs|
  {
    if k > 0 {
      FdsNeverForgotten(envs[1..], k - 1, n);
    }
  }

  /** The command line is the last snapshot alone. */
  lemma {:induction false} CmdlineIsLast(list: seq<string>, envs: seq<Proc>)
    ensures Replay(FromCmdline, ListData(list), envs) ==
      if envs == [] then ListData(list) else ListData(NulFiles.DecodeCmdline(envs[|envs| - 1].cmdline))
    decreases |envs|
  {
    hide NulFiles.DecodeCmdline;
    if envs != [] {
      var rest := envs[1..];
      CmdlineIsLast(NulFiles.DecodeCmdline(envs[0].cmdline), rest);
      assert rest != [] ==> rest[|rest| - 1] == envs[|envs| - 1];
    }
  }

  function SnapshotUids(env: Proc): seq<int> { UidsOf(StatusEffects(FileLines(env.status))) }

  function SnapshotGids(env: Proc): seq<int> { GidsOf(StatusEffects(FileLines(env.status))) }

  function UidHistory(envs: seq<Proc>): seq<int>
  {
    if envs == [] then [] else SnapshotUids(envs[0]) + UidHistory(envs[1..])
  }

  function GidHistory(envs: seq<Proc>): seq<int>
  {
    if envs == [] then [] else SnapshotGids(envs[0]) + GidHistory(envs[1..])
  }

  function ReplayStatus(r: StatusRecord, envs: seq<Proc>): StatusRecord
    decreases |envs|
  {
    if envs == [] then r else ReplayStatus(DecodeStatus(r, envs[0].status).state, envs[1..])
  }

  lemma {:induction false} ReplayIsReplayStatus(r: StatusRecord, envs: seq<Proc>)
    ensures Replay(FromStatus, StatusData(r), envs) == StatusData(ReplayStatus(r, envs))
    decreases |envs|
  {
    if envs != [] {
      ReplayIsReplayStatus(DecodeStatus(r, envs[0].status).state, envs[1..]);
    }
  }

  lemma StatusSnapshot(r: StatusRecord, env: Proc)
    ensures DecodeStatus(r, env.status).state.uids == r.uids + SnapshotUids(env)
    ensures DecodeStatus(r, env.status).state.gids == r.gids + SnapshotGids(env)
  {
    StatusIds(r, StatusEffects(FileLines(env.status)));
  }

  /** Every matched id of every reading fits an `int`. */
  predicate SnapshotFits(env: Proc) { IdsFit(StatusEffects(FileLines(env.status))) }

  ghost predicate AllIdsFit(envs: seq<Proc>) { forall k :: 0 <= k < |envs| ==> SnapshotFits(envs[k]) }

  lemma AddFours(a: seq<int>, b: seq<int>)
    requires |a| % 4 == 0 && |b| % 4 == 0
    ensures |a + b| % 4 == 0
  {
  }

  lemma {:induction false} HistoryInFours(envs: seq<Proc>)
    requires AllIdsFit(envs)
    ensures |UidHistory(envs)| % 4 == 0 && |GidHistory(envs)| % 4 == 0
  {
    if envs != [] {
      hide SnapshotUids, SnapshotGids, SnapshotFits;
      SnapshotInFours(envs[0]);
      HistoryInFours(envs[1..]);
      AddFours(SnapshotUids(envs[0]), UidHistory(envs[1..]));
      AddFours(SnapshotGids(envs[0]), GidHistory(envs[1..]));
    }
  }

  lemma SnapshotInFours(env: Proc)
    requires SnapshotFits(env)
    ensures |SnapshotUids(env)| % 4 == 0 && |SnapshotGids(env)| % 4 == 0
  {
    IdsInFours(StatusEffects(FileLines(env.status)));
  }

  lemma {:induction false} StatusesAccumulate(r: StatusRecord, envs: seq<Proc>)
    ensures ReplayStatus(r, envs).uids == r.uids + UidHistory(envs)
    ensures ReplayStatus(r, envs).gids == r.gids + GidHistory(envs)
    decreases |envs|
  {
    if envs != [] {
      hide DecodeStatus, SnapshotUids, SnapshotGids;
      StatusSnapshot(r, envs[0]);
      var r1 := DecodeStatus(r, envs[0].status).state;
      StatusesAccumulate(r1, envs[1..]);
      Assoc(r.uids, SnapshotUids(envs[0]), UidHistory(envs[1..]));
      Assoc(r.gids, SnapshotGids(envs[0]), GidHistory(envs[1..]));
    }
  }

  /** The id vectors hold the ids of every line ever read, also by readings that
      threw later on: the entries already there never change, index 0 included.
      They come in fours if they fit. */
  lemma IdsAccumulate(r: StatusRecord, envs: seq<Proc>)
    ensures
      var after := Replay(FromStatus, StatusData(r), envs).status;
      after.uids == r.uids + UidHistory(envs) && after.gids == r.gids + GidHistory(envs)
    ensures AllIdsFit(envs) ==> |UidHistory(envs)| % 4 == 0 && |GidHistory(envs)| % 4 == 0
  {
    ReplayIsReplayStatus(r, envs);
    StatusesAccumulate(r, envs);
    if AllIdsFit(envs) {
      HistoryInFours(envs);
    }
  }

  /** The readings of a source over a run of a new instance. */
  function Readings(g: Statics, calls: seq<Call>, s: Source): seq<Proc> { FirstUses(calls, s, g.nbCore.Some?) }

  /** After any run of a new instance, the environment is the union of all its readings... */
  lemma EnvironOfRun(pid: int, junk: Info, g: Statics, calls: seq<Call>)
    ensures After(Fresh(pid, junk), g, calls).info.cache.environ == OverrideUnion(Readings(g, calls, FromEnviron))
  {
    hide Decode, Readable, Replay, After, FirstUses, NulFiles.DecodeCmdline, OverrideUnion, FdUnion;
    LazyRefinesEager(pid, junk, g, calls, FromEnviron);
    EnvironAccumulates(map[], Readings(g, calls, FromEnviron));
    OverrideEmpty(OverrideUnion(Readings(g, calls, FromEnviron)));
  }

  lemma OverrideEmpty<K, V>(m: map<K, V>)
    ensures map[] + m == m
  {
  }

  /** ... and so are the open files; ... */
  lemma FdsOfRun(pid: int, junk: Info, g: Statics, calls: seq<Call>)
    ensures
      var fds := After(Fresh(pid, junk), g, calls).info.cache.fds;
      && fds == FdUnion(Readings(g, calls, FromFd))
      && forall n :: Lookup(fds, n) == LatestTarget(Readings(g, calls, FromFd), n)
  {
    hide Decode, Readable, Replay, After, FirstUses, NulFiles.DecodeCmdline, OverrideUnion, FdUnion;
    LazyRefinesEager(pid, junk, g, calls, FromFd);
    FdsAccumulate(map[], Readings(g, calls, FromFd));
    OverrideEmpty(FdUnion(Readings(g, calls, FromFd)));
    forall n ensures Lookup(FdUnion(Readings(g, calls, FromFd)), n) == LatestTarget(Readings(g, calls, FromFd), n) {
      FdUnionLookup(Readings(g, calls, FromFd), n);
    }
  }

  /** ... the command line is the last reading alone; ... */
  lemma CmdlineOfRun(pid: int, junk: Info, g: Statics, calls: seq<Call>)
    ensures
      var envs := Readings(g, calls, FromCmdline);
      After(Fresh(pid, junk), g, calls).info.cache.cmdline ==
        if envs == [] then [] else NulFiles.DecodeCmdline(envs[|envs| - 1].cmdline)
  {
    hide Decode, Readable, Replay, After, FirstUses, NulFiles.DecodeCmdline, OverrideUnion, FdUnion;
    LazyRefinesEager(pid, junk, g, calls, FromCmdline);
    CmdlineIsLast([], Readings(g, calls, FromCmdline));
  }

  /** ... and the id vectors are the concatenation of all the ids ever read. */
  lemma IdsOfRun(pid: int, junk: Info, g: Statics, calls: seq<Call>)
    ensures
      var status := After(Fresh(pid, junk), g, calls).info.cache.status;
      && status.uids == UidHistory(Readings(g, calls, FromStatus))
      && status.gids == GidHistory(Readings(g, calls, FromStatus))
  {
    hide Decode, Readable, Replay, After, FirstUses;
    LazyRefinesEager(pid, junk, g, calls, FromStatus);
    IdsAccumulate(Fresh(pid, junk).cache.status, Readings(g, calls, FromStatus));
    var none: seq<int> := [];
    assert none + UidHistory(Readings(g, calls, FromStatus)) == UidHistory(Readings(g, calls, FromStatus));
    assert none + GidHistory(Readings(g, calls, FromStatus)) == GidHistory(Readings(g, calls, FromStatus));
  }

  /** A source whose reading does not depend on what was cached. */
  lemma {:induction false} ReplayIsLast(s: Source, p: Payload, envs: seq<Proc>)
    requires s in {FromCwd, FromExe, FromRoot, FromSmaps} && Carries(s, p) && envs != []
    ensures Replay(s, p, envs) == Decode(s, p, envs[|envs| - 1]).state
    decreases |envs|
  {
    hide Smaps.DecodeSmaps;
    if |envs| > 1 {
      var rest := envs[1..];
      ReplayIsLast(s, Decode(s, p, envs[0]).state, rest);
      assert rest[|rest| - 1] == envs[|envs| - 1];
    }
  }

  /** The links answered are those of the last reading of each. */
  lemma PathsOfRun(pid: int, junk: Info, g: Statics, calls: seq<Call>)
    ensures
      var c := After(Fresh(pid, junk), g, calls).info.cache;
      var cwds, exes, roots := Readings(g, calls, FromCwd), Readings(g, calls, FromExe), Readings(g, calls, FromRoot);
      && c.cwd == (if cwds == [] then "" else cwds[|cwds| - 1].cwd)
      && c.exe == (if exes == [] then "" else exes[|exes| - 1].exe)
      && c.root == (if roots == [] then "" else roots[|roots| - 1].root)
  {
    hide Readable, After, FirstUses, DecodeStat, DecodeStatus, DecodeIo, Smaps.DecodeSmaps;
    PathOfRun(pid, junk, g, calls, FromCwd);
    PathOfRun(pid, junk, g, calls, FromExe);
    PathOfRun(pid, junk, g, calls, FromRoot);
  }

  lemma PathOfRun(pid: int, junk: Info, g: Statics, calls: seq<Call>, s: Source)
    requires s in {FromCwd, FromExe, FromRoot, FromSmaps}
    ensures
      var envs := Readings(g, calls, s);
      var p := PartOf(Fresh(pid, junk).cache, s);
      PartOf(After(Fresh(pid, junk), g, calls).info.cache, s) ==
        if envs == [] then p else Decode(s, p, envs[|envs| - 1]).state
  {
    hide Readable, After, FirstUses, Decode;
    LazyRefinesEager(pid, junk, g, calls, s);
    var envs := Readings(g, calls, s);
    if envs != [] {
      ReplayIsLast(s, PartOf(Fresh(pid, junk).cache, s), envs);
    }
  }

  /** The regions are those of the last reading alone. */
  lemma MapsOfRun(pid: int, junk: Info, g: Statics, calls: seq<Call>)
    ensures
      var envs := Readings(g, calls, FromSmaps);
      After(Fresh(pid, junk), g, calls).info.cache.maps ==
        if envs == [] then [] else Smaps.DecodeSmaps(envs[|envs| - 1].smaps).state
  {
    hide Readable, After, FirstUses, DecodeStat, DecodeStatus, DecodeIo, Smaps.DecodeSmaps;
    PathOfRun(pid, junk, g, calls, FromSmaps);
  }

  /** Files that cannot be opened: the command line and the regions are emptied, the
      environment, the wchan name and the status are left as they were, and of the I/O
      record only the time is set. */
  lemma UnreadableFiles(c: Cache, env: Proc)
    requires env.cmdline == None && env.environ == None && env.smaps == None
    requires env.wchan == None && env.status == None && env.io == None
    ensures Decode(FromCmdline, PartOf(c, FromCmdline), env) == Done(ListData([]))
    ensures Decode(FromEnviron, PartOf(c, FromEnviron), env) == Done(EnvironData(c.environ))
    ensures Decode(FromSmaps, PartOf(c, FromSmaps), env) == Done(MapsData([]))
    ensures Decode(FromWchan, PartOf(c, FromWchan), env) == Done(TextData(c.wchan))
    ensures Decode(FromStatus, PartOf(c, FromStatus), env) == Done(StatusData(c.status))
    ensures Decode(FromIo, PartOf(c, FromIo), env) == Done(IoData(IoStat(c.io.counters, env.now)))
  {
  }

  /** A new instance whose stat file cannot be opened has its pid, no name and no
      state; the numbers are the bytes that were in memory. */
  lemma UnreadableInstance(pid: int, junk: Info, env: Proc)
    requires env.stat == None
    ensures
      var stat := Touch(Fresh(pid, junk), FromStat, env).state.cache.stat;
      stat == StatRecord(pid, "", "", junk.cache.stat.nums)
  {
    hide DecodeStat, Put;
    StatUnreadable(Fresh(pid, junk).cache.stat);
  }

  /** What a wchan file shows is its first line. */
  lemma WchanShown(before: string, line: string, rest: string)
    requires '\n' !in line
    ensures DecodeWchan(before, Some(line + ("\n" + rest))) == line
    ensures DecodeWchan(before, Some(line)) == line
    ensures DecodeWchan(before, None) == before
  {
    FindPrefix(line, "\n" + rest, '\n');
    FindPrefix(line, "", '\n');
    assert line + "" == line;
  }

  /** The last readable wchan file. */
  function LastWchan(envs: seq<Proc>): Option<string>
  {
    if envs == [] then None
    else
      var later := LastWchan(envs[1..]);
      if later.Some? then later else envs[0].wchan
  }

  lemma {:induction false} WchanIsLast(name: string, envs: seq<Proc>)
    ensures Replay(FromWchan, TextData(name), envs) == TextData(DecodeWchan(name, LastWchan(envs)))
    decreases |envs|
  {
    if envs != [] {
      hide FirstPiece;
      WchanIsLast(DecodeWchan(name, envs[0].wchan), envs[1..]);
    }
  }

  /** The wchan name is the first line of the last file that could be read. */
  lemma WchanOfRun(pid: int, junk: Info, g: Statics, calls: seq<Call>)
    ensures After(Fresh(pid, junk), g, calls).info.cache.wchan ==
      DecodeWchan("", LastWchan(Readings(g, calls, FromWchan)))
  {
    hide Decode, Readable, Replay, After, FirstUses, DecodeWchan;
    LazyRefinesEager(pid, junk, g, calls, FromWchan);
    WchanIsLast("", Readings(g, calls, FromWchan));
  }
}
