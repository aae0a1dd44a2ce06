/** A pid with a single live instance, inside any program: what holds of the runs
    of one instance holds of it. */
module Solo {
  import opened Info
  import opened Sampling
  import opened LazyCache
  import opened NonInterference
  import opened Text

  /** The calls made on an instance. */
  function CallsOf(es: seq<Event>): seq<Call>
    requires forall k :: 0 <= k < |es| ==> es[k].Perform?
  {
    if es == [] then [] else [Call(es[0].op, es[0].env)] + CallsOf(es[1..])
  }

  ghost predicate OnlyCalls(es: seq<Event>, n: Name)
  {
    forall k :: 0 <= k < |es| ==> es[k].Perform? && es[k].name == n
  }

  lemma {:induction false} AloneIsAfter(w: World, es: seq<Event>, n: Name)
    requires n in w.live && OnlyCalls(es, n)
    ensures
      var f := Finally(w, es);
      n in f.live && Both(f.live[n], f.statics) == After(w.live[n], w.statics, CallsOf(es))
    decreases |es|
  {
    hide Step;
    if es != [] {
      assert OnlyCalls(es[1..], n) by {
        assert forall k :: 0 <= k < |es| - 1 ==> es[1..][k] == es[k + 1];
      }
      AloneIsAfter(Happen(w, es[0]).world, es[1..], n);
      assert CallsOf(es)[1..] == CallsOf(es[1..]);
    }
  }

  /** In any program, the only instance of a pid ends, with the entry of its pid,
      where its own calls alone would have led it. */
  lemma SoloInstance(w: World, es: seq<Event>, n: Name, cores: Option<nat>)
    requires Honest(w) && AllHonest(es) && n in w.live && OnlyCalls(Own(es, n.pid), n)
    requires CoresFixed(w.statics.nbCore, es, cores)
    ensures
      var f := Finally(w, es);
      var alone := After(w.live[n], w.statics, CallsOf(Own(es, n.pid)));
      n in f.live && f.live[n] == alone.info && SameEntry(f.statics.entries, alone.statics.entries, n.pid)
  {
    hide Happen, HonestEvent, After, CoresFixed, Honest, AllHonest;
    AgreeWithItself(w, n.pid);
    OwnCoresFixed(w.statics.nbCore, es, cores, n.pid);
    RunProjection(w, w, es, n.pid, cores);
    AloneIsAfter(w, Own(es, n.pid), n);
  }

  lemma AgreeWithItself(w: World, pid: int)
    ensures Agree(w, w, pid)
  {
  }
}
