/** A program that uses the library: any number of live instances, created,
    copied and called in any order. On the heap it behaves as the value-level
    program of `NonInterference`. */
module ProgramClass {
  import opened Text
  import opened Info
  import opened ProcessInfoClass
  import NonInterference

  type Name = NonInterference.Name
  type Event = NonInterference.Event
  type World = NonInterference.World

  lemma CreateWorld(w: World, n: Name, junk: Info)
    ensures NonInterference.Happen(w, NonInterference.Create(n, junk)).world ==
      NonInterference.World(w.live[n := Fresh(n.pid, junk)], w.statics)
  {
    hide Fresh;
  }

  lemma CopyWorld(w: World, source: Name, n: Name)
    ensures NonInterference.Happen(w, NonInterference.CopyOf(source, n)).world ==
      if source in w.live then NonInterference.World(w.live[n := w.live[source]], w.statics) else w
  {
  }

  lemma RunCons(w: World, es: seq<Event>, k: nat, pid: int)
    requires k < |es|
    ensures
      var m := NonInterference.Happen(w, es[k]);
      && NonInterference.Finally(w, es[k..]) == NonInterference.Finally(m.world, es[k + 1..])
      && NonInterference.Answers(w, es[k..], pid) ==
           (if es[k].name.pid == pid then [m.answer] else []) + NonInterference.Answers(m.world, es[k + 1..], pid)
  {
    hide NonInterference.Happen;
    assert es[k..][1..] == es[k + 1..];
  }

  lemma RunEnds(w: World, pid: int)
    ensures NonInterference.Finally(w, []) == w && NonInterference.Answers(w, [], pid) == []
  {
  }

  class Program {
    const statics: StaticState
    var live: map<Name, ProcessInfo>

    /** The live instances. */
    ghost function Instances(): set<ProcessInfo>
      reads this
    {
      set n | n in live :: live[n]
    }

    /** Instances are distinct objects, and no instance is an entry of the map. */
    ghost predicate Valid()
      reads this, statics
    {
      && statics.Valid()
      && (forall m, n :: m in live && n in live && m != n ==> live[m] != live[n])
      && (forall n :: n in live ==> live[n] !in statics.Objects())
    }

    ghost function Footprint(): set<object>
      reads this, statics
    {
      {this, statics} + statics.Objects() + Instances()
    }

    ghost function View(): World
      reads this, statics, statics.Objects(), Instances()
    {
      NonInterference.World(map n | n in live :: live[n].View(), statics.View())
    }

    constructor ()
      ensures Valid() && fresh(Footprint())
      ensures View() == NonInterference.World(map[], Statics(None, map[]))
    {
      statics := new StaticState();
      live := map[];
    }

    /** A new object becomes the instance named `n`. */
    method Bind(n: Name, p: ProcessInfo)
      requires Valid() && p !in statics.Objects() && p !in Instances()
      modifies this
      ensures Valid() && statics.Grows() && Footprint() <= old(Footprint()) + {p}
      ensures View() == NonInterference.World(old(View()).live[n := p.View()], old(View()).statics)
    {
      live := live[n := p];
      assert View().live == old(View()).live[n := p.View()];
    }

    method Create(n: Name, junk: Info)
      requires Valid()
      modifies this
      ensures Valid() && statics.Grows() && fresh(Footprint() - old(Footprint()))
      ensures View() == NonInterference.Happen(old(View()), NonInterference.Create(n, junk)).world
    {
      hide Fresh, NonInterference.Happen;
      CreateWorld(View(), n, junk);
      ghost var before := Footprint();
      var p := new ProcessInfo(n.pid, junk);
      assert Footprint() == before && View() == old(View());
      Bind(n, p);
    }

    method CopyOf(source: Name, n: Name)
      requires Valid()
      modifies this
      ensures Valid() && statics.Grows() && fresh(Footprint() - old(Footprint()))
      ensures View() == NonInterference.Happen(old(View()), NonInterference.CopyOf(source, n)).world
    {
      hide NonInterference.Happen;
      CopyWorld(View(), source, n);
      if source in live {
        ghost var before := Footprint();
        var p := new ProcessInfo.Copy(live[source]);
        assert Footprint() == before && View() == old(View());
        assert View().live[source] == p.View();
        Bind(n, p);
      }
    }

    /** Growing the map keeps instances and entries apart. */
    twostate lemma StillApart(n: Name)
      requires old(Valid()) && live == old(live)
      requires statics.Valid() && statics.Grows() && n in live && live[n] !in statics.Objects()
      ensures Valid() && fresh(Footprint() - old(Footprint()))
    {
      statics.GrownValues();
      forall m | m in live ensures live[m] !in statics.Objects() {
        assert live[m] !in old(statics.Objects());
      }
    }

    /** Only the called instance and the statics change. */
    twostate lemma OnlyOneChanged(n: Name)
      requires live == old(live) && n in live
      requires forall m :: m in live && m != n ==> live[m].View() == old(live[m].View())
      ensures View() == NonInterference.World(old(View()).live[n := live[n].View()], statics.View())
    {
      assert View().live == old(View()).live[n := live[n].View()];
    }

    /** One call on a live instance. */
    method Perform(n: Name, op: Op, env: Proc) returns (answer: Answer)
      requires Valid()
      modifies Footprint()
      ensures Valid() && statics.Grows() && fresh(Footprint() - old(Footprint()))
      ensures NonInterference.Happen(old(View()), NonInterference.Perform(n, op, env)) ==
        NonInterference.Moved(View(), answer)
    {
      hide Step;
      if n !in live {
        return Nothing;
      }
      assert live[n] in Instances();
      answer := live[n].Perform(op, statics, env);
      forall m | m in live && m != n ensures live[m].View() == old(live[m].View()) {
        assert live[m] != live[n] && live[m] !in old(statics.Objects());
        assert unchanged(live[m]);
      }
      StillApart(n);
      OnlyOneChanged(n);
    }

    /** One event. */
    method Happen(e: Event) returns (answer: Answer)
      requires Valid()
      modifies Footprint()
      ensures Valid() && statics.Grows() && fresh(Footprint() - old(Footprint()))
      ensures NonInterference.Happen(old(View()), e) == NonInterference.Moved(View(), answer)
    {
      hide Step;
      match e
      case Create(n, junk) =>
        Create(n, junk);
        answer := Nothing;
      case CopyOf(source, n) =>
        CopyOf(source, n);
        answer := Nothing;
      case Perform(n, op, env) => answer := Perform(n, op, env);
    }

    /** A whole run: the answers that the instances of a pid get on the heap are
        those of the value-level run. */
    method Run(es: seq<Event>, pid: int) returns (answers: seq<Answer>)
      requires Valid()
      modifies Footprint()
      ensures Valid() && statics.Grows() && fresh(Footprint() - old(Footprint()))
      ensures View() == NonInterference.Finally(old(View()), es)
      ensures answers == NonInterference.Answers(old(View()), es, pid)
    {
      hide NonInterference.Happen, NonInterference.Finally, NonInterference.Answers;
      answers := [];
      ghost var start := View();
      for i := 0 to |es|
        invariant Valid() && statics.Grows() && fresh(Footprint() - old(Footprint()))
        invariant NonInterference.Finally(start, es) == NonInterference.Finally(View(), es[i..])
        invariant NonInterference.Answers(start, es, pid) == answers + NonInterference.Answers(View(), es[i..], pid)
      {
        RunCons(View(), es, i, pid);
        ghost var before := answers;
        var answer := Happen(es[i]);
        if es[i].name.pid == pid {
          answers := answers + [answer];
        }
        Assoc(before, if es[i].name.pid == pid then [answer] else [],
              NonInterference.Answers(View(), es[i + 1..], pid));
      }
      RunEnds(View(), pid);
      assert es[|es|..] == [] && answers + [] == answers;
    }
  }
}
