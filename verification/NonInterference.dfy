/** Programs with any number of live instances: pids do not interfere. */
module NonInterference {
  import opened Text
  import opened Info
  import opened Sampling
  import CpuInfo

  /** A live instance, named by its pid and a number. */
  datatype Name = Name(pid: int, id: nat)

  /** The live instances and the statics they share. The objects in the map are
      entries of `statics`; no live instance is one of them. */
  datatype World = World(live: map<Name, Info>, statics: Statics)

  datatype Event = Create(name: Name, junk: Info)
                 | CopyOf(source: Name, name: Name)
                 | Perform(name: Name, op: Op, env: Proc)

  datatype Moved = Moved(world: World, answer: Answer)

  function Happen(w: World, e: Event): Moved
  {
    match e
    case Create(n, junk) => Moved(w.(live := w.live[n := Fresh(n.pid, junk)]), Nothing)
    case CopyOf(source, n) =>
      if source in w.live then Moved(w.(live := w.live[n := w.live[source]]), Nothing) else Moved(w, Nothing)
    case Perform(n, op, env) =>
      if n in w.live then
        var r := Step(w.live[n], w.statics, op, env);
        Moved(World(w.live[n := r.info], r.statics), r.answer)
      else Moved(w, Nothing)
  }

  function Finally(w: World, es: seq<Event>): World
    decreases |es|
  {
    if es == [] then w else Finally(Happen(w, es[0]).world, es[1..])
  }

  /** The answers that the instances of one pid get during a run. */
  function Answers(w: World, es: seq<Event>, pid: int): seq<Answer>
    decreases |es|
  {
    if es == [] then []
    else
      var m := Happen(w, es[0]);
      (if es[0].name.pid == pid then [m.answer] else []) + Answers(m.world, es[1..], pid)
  }

  /** The events on instances of one pid. */
  function Own(es: seq<Event>, pid: int): seq<Event>
  {
    if es == [] then [] else (if es[0].name.pid == pid then [es[0]] else []) + Own(es[1..], pid)
  }

  /** Instances keep the pid they are named by. */
  ghost predicate Honest(w: World) { forall n :: n in w.live ==> w.live[n].Pid() == n.pid }

  /** The kernel shows each pid its own stat file, and copies are of the same pid. */
  predicate HonestEvent(e: Event)
  {
    match e
    case Create(_, _) => true
    case CopyOf(source, n) => source.pid == n.pid
    case Perform(n, _, env) => ShowsPid(env, n.pid)
  }

  /** From here on every CPU usage will see this core count. */
  ghost predicate CoresFixed(nbCore: Option<nat>, es: seq<Event>, cores: Option<nat>)
  {
    if nbCore.Some? then nbCore == cores
    else forall k :: 0 <= k < |es| && es[k].Perform? && es[k].op.CpuUsage? ==>
      CpuInfo.CoresOf(es[k].env.cpuinfo) == cores
  }

  /** Two worlds look alike to one pid. */
  ghost predicate Agree(w: World, v: World, pid: int)
  {
    && (forall n: Name :: n.pid == pid ==> (n in w.live <==> n in v.live))
    && (forall n: Name :: n.pid == pid && n in w.live && n in v.live ==> w.live[n] == v.live[n])
    && SameEntry(w.statics.entries, v.statics.entries, pid)
  }

  lemma HonestStep(w: World, e: Event)
    requires Honest(w) && HonestEvent(e)
    ensures Honest(Happen(w, e).world)
  {
    hide Step, ShowsPid, Fresh;
    if e.Create? {
      FreshPid(e.name.pid, e.junk);
    }
    if e.Perform? && e.name in w.live {
      StepLocalPid(w.live[e.name], w.statics, e.op, e.env);
    }
  }

  lemma FreshPid(pid: int, junk: Info)
    ensures Fresh(pid, junk).Pid() == pid
  {
  }

  lemma StepLocalPid(i: Info, g: Statics, op: Op, env: Proc)
    requires ShowsPid(env, i.Pid())
    ensures Step(i, g, op, env).info.Pid() == i.Pid()
  {
    hide Step, ShowsPid;
    StepLocal(i, g, g, op, env);
  }

  /** An event of another pid is invisible. */
  lemma OtherPid(w: World, e: Event, pid: int)
    requires Honest(w) && HonestEvent(e) && e.name.pid != pid
    ensures Agree(Happen(w, e).world, w, pid)
  {
    hide Step, ShowsPid, Fresh;
    if e.Perform? && e.name in w.live {
      StepLocal(w.live[e.name], w.statics, w.statics, e.op, e.env);
    }
  }

  /** An event of the pid itself answers the same in two worlds alike to it. */
  lemma SamePid(w: World, v: World, e: Event)
    requires Honest(w) && Honest(v) && HonestEvent(e) && Agree(w, v, e.name.pid)
    requires e.Perform? && e.op.CpuUsage? ==> CoreCount(w.statics, e.env) == CoreCount(v.statics, e.env)
    ensures Happen(w, e).answer == Happen(v, e).answer
    ensures Agree(Happen(w, e).world, Happen(v, e).world, e.name.pid)
  {
    hide Step, ShowsPid, Fresh, CoreCount;
    if e.Perform? && e.name in w.live {
      StepLocal(w.live[e.name], w.statics, v.statics, e.op, e.env);
    }
  }

  lemma CoresStep(w: World, es: seq<Event>, cores: Option<nat>)
    requires es != [] && CoresFixed(w.statics.nbCore, es, cores)
    ensures CoresFixed(Happen(w, es[0]).world.statics.nbCore, es[1..], cores)
    ensures es[0].Perform? && es[0].op.CpuUsage? ==> CoreCount(w.statics, es[0].env) == cores
  {
    hide Step;
    if es[0].Perform? && es[0].name in w.live {
      StepCores(w.live[es[0].name], w.statics, es[0].op, es[0].env);
    }
  }

  lemma AgreeTrans(w: World, v: World, u: World, pid: int)
    requires Agree(w, v, pid) && Agree(v, u, pid)
    ensures Agree(w, u, pid)
  {
  }

  ghost predicate AllHonest(es: seq<Event>) { forall k :: 0 <= k < |es| ==> HonestEvent(es[k]) }

  lemma {:induction false} HonestRun(w: World, es: seq<Event>)
    requires Honest(w) && AllHonest(es)
    ensures Honest(Finally(w, es))
    decreases |es|
  {
    hide Happen, Honest, HonestEvent;
    if es != [] {
      HonestStep(w, es[0]);
      HonestRun(Happen(w, es[0]).world, es[1..]);
    }
  }

  lemma {:induction false} OwnCoresFixed(nbCore: Option<nat>, es: seq<Event>, cores: Option<nat>, pid: int)
    requires CoresFixed(nbCore, es, cores)
    ensures CoresFixed(nbCore, Own(es, pid), cores)
    decreases |es|
  {
    if es != [] {
      assert forall k :: 0 <= k < |es| - 1 ==> es[1..][k] == es[k + 1];
      OwnCoresFixed(nbCore, es[1..], cores, pid);
      var own, rest := Own(es, pid), Own(es[1..], pid);
      if es[0].name.pid == pid {
        assert forall k :: 0 < k < |own| ==> own[k] == rest[k - 1];
      } else {
        assert own == rest;
      }
    }
  }

  /** Non-interference: whatever the instances of other pids do in between, and
      in any world that looks alike to the pid, its own operations get the same
      answers as when they run alone. */
  lemma {:induction false} RunProjection(w: World, v: World, es: seq<Event>, pid: int, cores: Option<nat>)
    requires Honest(w) && Honest(v) && Agree(w, v, pid) && AllHonest(es)
    requires CoresFixed(w.statics.nbCore, es, cores)
    requires CoresFixed(v.statics.nbCore, Own(es, pid), cores)
    ensures Answers(w, es, pid) == Answers(v, Own(es, pid), pid)
    ensures Agree(Finally(w, es), Finally(v, Own(es, pid)), pid)
    decreases |es|
  {
    hide Happen, Agree, CoresFixed;
    if es != [] {
      var e, rest := es[0], es[1..];
      assert AllHonest(rest);
      HonestStep(w, e);
      CoresStep(w, es, cores);
      if e.name.pid == pid {
        var own := Own(es, pid);
        assert own[0] == e && own[1..] == Own(rest, pid);
        CoresStep(v, own, cores);
        HonestStep(v, e);
        SamePid(w, v, e);
        RunProjection(Happen(w, e).world, Happen(v, e).world, rest, pid, cores);
      } else {
        assert [] + Own(rest, pid) == Own(rest, pid);
        OtherPid(w, e, pid);
        AgreeTrans(Happen(w, e).world, w, v, pid);
        RunProjection(Happen(w, e).world, v, rest, pid, cores);
      }
    }
  }

  /** In particular, from the same start: any interleaving gives the pid what its
      own operations alone would give it. */
  lemma NonInterferenceOfPids(w: World, es: seq<Event>, pid: int, cores: Option<nat>)
    requires Honest(w) && AllHonest(es) && CoresFixed(w.statics.nbCore, es, cores)
    ensures Answers(w, es, pid) == Answers(w, Own(es, pid), pid)
  {
    OwnCoresFixed(w.statics.nbCore, es, cores, pid);
    RunProjection(w, w, es, pid, cores);
  }

  /** And two interleavings with the same operations on the pid give it the same answers. */
  lemma InterleavingIrrelevant(w: World, es: seq<Event>, fs: seq<Event>, pid: int, cores: Option<nat>)
    requires Honest(w) && AllHonest(es) && AllHonest(fs) && Own(es, pid) == Own(fs, pid)
    requires CoresFixed(w.statics.nbCore, es, cores) && CoresFixed(w.statics.nbCore, fs, cores)
    ensures Answers(w, es, pid) == Answers(w, fs, pid)
  {
    NonInterferenceOfPids(w, es, pid, cores);
    NonInterferenceOfPids(w, fs, pid, cores);
  }

  /** A copy behaves as its source would: it has the same fields and flags, and shares
      the baselines of the pid. */
  lemma CopyBehaves(w: World, source: Name, n: Name, op: Op, env: Proc)
    requires source in w.live
    ensures Happen(Happen(w, CopyOf(source, n)).world, Perform(n, op, env)).answer ==
      Happen(w, Perform(source, op, env)).answer
    ensures n != source ==> source in Happen(w, CopyOf(source, n)).world.live
  {
    hide Step;
  }
}
