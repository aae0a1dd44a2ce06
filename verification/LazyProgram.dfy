/** The lazy cache inside programs: any number of instances of any pids, each of
    which reads a source at its own first use, whatever the others do meanwhile. */
module LazyProgram {
  import opened Text
  import opened Info
  import opened Sampling
  import opened LazyCache
  import opened NonInterference

  /** The instance is called by the event. */
  predicate Calls(e: Event, n: Name) { e.Perform? && e.name == n }

  function CallOf(e: Event): Call
    requires e.Perform?
  {
    Call(e.op, e.env)
  }

  /** No event makes the name another object. */
  ghost predicate Kept(es: seq<Event>, n: Name)
  {
    forall k :: 0 <= k < |es| ==> es[k].name == n ==> es[k].Perform?
  }

  predicate Known(w: World) { w.statics.nbCore.Some? }

  /** The environments in which the reader of `s` runs for the instance, in order. */
  function ReadsOf(w: World, es: seq<Event>, n: Name, s: Source): seq<Proc>
    decreases |es|
  {
    if es == [] then []
    else
      var e := es[0];
      (if Calls(e, n) && n in w.live && Fetches(w.live[n], w.statics, CallOf(e), s) then [e.env] else [])
        + ReadsOf(Happen(w, e).world, es[1..], n, s)
  }

  // ----------------------------------------- the reference: no flags involved

  /** How many events up to and including the next `needUpdate` of the instance. */
  function NextEpoch(es: seq<Event>, n: Name): (k: nat)
    ensures k <= |es|
    ensures es != [] ==> k > 0
  {
    if es == [] then 0
    else if Calls(es[0], n) && es[0].op.NeedUpdate? then 1
    else 1 + NextEpoch(es[1..], n)
  }

  /** The environment of the instance's first use of `s` in each of its epochs; of
      the world, only whether the core count is known matters. */
  function FirstUsesOf(w: World, es: seq<Event>, n: Name, s: Source): seq<Proc>
    decreases |es|
  {
    if es == [] then []
    else
      var e, next := es[0], Happen(w, es[0]).world;
      if Calls(e, n) && Uses(CallOf(e), s, Known(w)) then
        [e.env] + (if Readable(s, e.env) then LaterUsesOf(next, es[1..], n, s) else FirstUsesOf(next, es[1..], n, s))
      else FirstUsesOf(next, es[1..], n, s)
  }

  /** The first uses from the instance's next epoch on. */
  function LaterUsesOf(w: World, es: seq<Event>, n: Name, s: Source): seq<Proc>
    decreases |es|, 1
  {
    var k := NextEpoch(es, n);
    if k == 0 then [] else FirstUsesOf(Finally(w, es[..k]), es[k..], n, s)
  }

  lemma LaterUsesOfOther(w: World, e: Event, rest: seq<Event>, n: Name, s: Source)
    requires !(Calls(e, n) && e.op.NeedUpdate?)
    ensures LaterUsesOf(w, [e] + rest, n, s) == LaterUsesOf(Happen(w, e).world, rest, n, s)
  {
    hide Happen, Uses, Readable;
    var es := [e] + rest;
    assert es[1..] == rest;
    var k := NextEpoch(rest, n);
    assert NextEpoch(es, n) == k + 1;
    assert es[k + 1..] == rest[k..];
    assert es[..k + 1][0] == e && es[..k + 1][1..] == rest[..k];
    assert Finally(w, es[..k + 1]) == Finally(Happen(w, e).world, rest[..k]);
    if k == 0 {
      assert rest[k..] == [];
    }
  }

  lemma LaterUsesOfUpdate(w: World, e: Event, rest: seq<Event>, n: Name, s: Source)
    requires Calls(e, n) && e.op.NeedUpdate?
    ensures LaterUsesOf(w, [e] + rest, n, s) == FirstUsesOf(Happen(w, e).world, rest, n, s)
  {
    hide Happen, Uses, Readable;
    var es := [e] + rest;
    assert NextEpoch(es, n) == 1 && es[1..] == rest;
    assert es[..1][0] == e && es[..1][1..] == [];
    assert Finally(w, es[..1]) == Finally(Happen(w, e).world, []);
  }

  // --------------------------------------------------------------- one event

  ghost predicate GuardedIn(w: World, n: Name) { n in w.live && Guarded(w.live[n], w.statics) }

  /** A call on the instance itself. */
  lemma OwnEvent(w: World, e: Event, n: Name, s: Source)
    requires GuardedIn(w, n) && Calls(e, n)
    ensures
      var v := Happen(w, e).world;
      var i := w.live[n];
      var f := Fetches(i, w.statics, CallOf(e), s);
      && GuardedIn(v, n)
      && PartOf(v.live[n].cache, s) == (if f then ReadInto(i, s, e.env) else PartOf(i.cache, s))
      && (s in v.live[n].need <==> e.op.NeedUpdate? || (s in i.need && !(f && Readable(s, e.env))))
  {
    hide Step, Fetches, Readable, ReadInto, Guarded, Knows;
    StepEffect(w.live[n], w.statics, CallOf(e), s);
  }

  /** Any other event leaves the instance alone; it may only make the core count known. */
  lemma OtherEvent(w: World, e: Event, n: Name)
    requires GuardedIn(w, n) && !Calls(e, n) && (e.name == n ==> e.Perform?)
    ensures GuardedIn(Happen(w, e).world, n) && Happen(w, e).world.live[n] == w.live[n]
  {
    hide Step, Fresh;
    if e.Perform? && e.name in w.live {
      StepCores(w.live[e.name], w.statics, e.op, e.env);
    }
  }

  lemma KeptTail(es: seq<Event>, n: Name)
    requires es != [] && Kept(es, n)
    ensures Kept(es[1..], n) && (es[0].name == n ==> es[0].Perform?)
  {
    assert forall k :: 0 <= k < |es| - 1 ==> es[1..][k] == es[k + 1];
  }

  // --------------------------------------------------------------- theorems

  /** In any program the reader of a source runs for an instance exactly once per
      epoch of that instance that uses it, at the first use. */
  lemma {:induction false} ReadsAreFirstUsesOf(w: World, es: seq<Event>, n: Name, s: Source)
    requires GuardedIn(w, n) && Kept(es, n)
    ensures ReadsOf(w, es, n, s) ==
      if s in w.live[n].need then FirstUsesOf(w, es, n, s) else LaterUsesOf(w, es, n, s)
    decreases |es|
  {
    hide Happen, Fetches, Uses, Readable, Guarded, LaterUsesOf, Kept;
    if es == [] {
      NoLaterUses(w, n, s);
    } else {
      var e, rest := es[0], es[1..];
      var v := Happen(w, e).world;
      assert es == [e] + rest;
      KeptTail(es, n);
      if Calls(e, n) {
        OwnEvent(w, e, n, s);
        UsesOf(w, e, n, s);
      } else {
        OtherEvent(w, e, n);
      }
      ReadsAreFirstUsesOf(v, rest, n, s);
      if Calls(e, n) && e.op.NeedUpdate? {
        LaterUsesOfUpdate(w, e, rest, n, s);
      } else {
        LaterUsesOfOther(w, e, rest, n, s);
      }
    }
  }

  lemma NoLaterUses(w: World, n: Name, s: Source)
    ensures LaterUsesOf(w, [], n, s) == []
  {
  }

  lemma UsesOf(w: World, e: Event, n: Name, s: Source)
    requires GuardedIn(w, n) && Calls(e, n)
    ensures s in w.live[n].need ==>
      (Fetches(w.live[n], w.statics, CallOf(e), s) <==> Uses(CallOf(e), s, Known(w)))
    ensures s !in w.live[n].need ==> !Fetches(w.live[n], w.statics, CallOf(e), s)
    ensures e.op.NeedUpdate? ==> !Uses(CallOf(e), s, Known(w))
  {
    if s in w.live[n].need {
      hide Fetches, Guarded;
      FetchesIffUses(w.live[n], w.statics, CallOf(e), s);
    }
  }

  /** The fields of the instance are what its own readings made of the initial ones. */
  lemma {:induction false} FieldsAreReplayOf(w: World, es: seq<Event>, n: Name, s: Source)
    requires GuardedIn(w, n) && Kept(es, n)
    ensures GuardedIn(Finally(w, es), n)
    ensures PartOf(Finally(w, es).live[n].cache, s) == Replay(s, PartOf(w.live[n].cache, s), ReadsOf(w, es, n, s))
    decreases |es|
  {
    hide Happen, Fetches, Readable, Guarded, Decode, Kept, PartOf;
    if es != [] {
      var e, rest := es[0], es[1..];
      var v := Happen(w, e).world;
      KeptTail(es, n);
      if Calls(e, n) {
        OwnEvent(w, e, n, s);
      } else {
        OtherEvent(w, e, n);
      }
      FieldsAreReplayOf(v, rest, n, s);
      var later := ReadsOf(v, rest, n, s);
      if Calls(e, n) && Fetches(w.live[n], w.statics, CallOf(e), s) {
        assert ([e.env] + later)[1..] == later;
      } else {
        assert [] + later == later;
      }
    }
  }

  /** Lazy reading refines eager snapshots in any program: from its creation on, an
      instance holds, source by source, the readings taken at its own first use in
      each of its epochs and no others. */
  lemma LazyRefinesEagerOf(w: World, n: Name, junk: Info, es: seq<Event>, s: Source)
    requires Kept(es, n)
    ensures
      var v := Happen(w, Create(n, junk)).world;
      var i := Fresh(n.pid, junk);
      && n in Finally(v, es).live
      && PartOf(Finally(v, es).live[n].cache, s) == Replay(s, PartOf(i.cache, s), FirstUsesOf(v, es, n, s))
  {
    hide Decode, Readable, Uses, Fetches, Replay, FirstUsesOf, ReadsOf, Finally, PartOf;
    var v := Happen(w, Create(n, junk)).world;
    FreshIsGuarded(n.pid, junk, w.statics);
    FieldsAreReplayOf(v, es, n, s);
    ReadsAreFirstUsesOf(v, es, n, s);
  }

  /** The instance is not told to update. */
  ghost predicate OneEpochOf(es: seq<Event>, n: Name)
  {
    forall k :: 0 <= k < |es| ==> Calls(es[k], n) ==> !es[k].op.NeedUpdate?
  }

  lemma {:induction false} EpochGoesOn(es: seq<Event>, n: Name)
    requires OneEpochOf(es, n)
    ensures NextEpoch(es, n) == |es|
    decreases |es|
  {
    if es != [] {
      assert OneEpochOf(es[1..], n) by {
        assert forall k :: 0 <= k < |es| - 1 ==> es[1..][k] == es[k + 1];
      }
      EpochGoesOn(es[1..], n);
    }
  }

  /** Once read, a source stays as it is until the instance itself is told to update,
      whatever any instance does and whatever the kernel shows meanwhile. */
  lemma StableInEpochOf(w: World, es: seq<Event>, n: Name, s: Source)
    requires GuardedIn(w, n) && Kept(es, n) && OneEpochOf(es, n) && s !in w.live[n].need
    ensures n in Finally(w, es).live && ReadsOf(w, es, n, s) == []
    ensures PartOf(Finally(w, es).live[n].cache, s) == PartOf(w.live[n].cache, s)
  {
    hide Decode, Readable, Uses, Fetches, ReadsOf, Finally, Happen, PartOf, Guarded, Kept;
    ReadsAreFirstUsesOf(w, es, n, s);
    FieldsAreReplayOf(w, es, n, s);
    EpochGoesOn(es, n);
    assert es[|es|..] == [];
  }

  /** What a getter answers at the end of any program is the history of the first
      uses of its instance, its own included. */
  lemma GetterReturnsFirstUsesOf(w: World, n: Name, junk: Info, es: seq<Event>, s: Source, env: Proc)
    requires Kept(es, n)
    ensures
      var v := Happen(w, Create(n, junk)).world;
      var f := Finally(v, es);
      var get := Perform(n, Get(s), env);
      && n in f.live
      && (Happen(f, get).answer == Exception <==> s in f.live[n].need && !Readable(s, env))
      && (Happen(f, get).answer != Exception ==>
            Happen(f, get).answer ==
              Data(Replay(s, PartOf(Fresh(n.pid, junk).cache, s), FirstUsesOf(v, es + [get], n, s))))
  {
    hide Decode, Readable, Uses, Fetches, Replay, FirstUsesOf, ReadsOf, PartOf, Touch, Fresh;
    var v := Happen(w, Create(n, junk)).world;
    var get := Perform(n, Get(s), env);
    var all := es + [get];
    assert Kept(all, n) by {
      assert forall k :: 0 <= k < |all| ==> all[k] == if k < |es| then es[k] else get;
    }
    LazyRefinesEagerOf(w, n, junk, es, s);
    LazyRefinesEagerOf(w, n, junk, all, s);
    FinallySnoc(v, es, get);
    TouchEffect(Finally(v, es).live[n], s, env);
  }

  lemma {:induction false} FinallySnoc(w: World, es: seq<Event>, e: Event)
    ensures Finally(w, es + [e]) == Happen(Finally(w, es), e).world
    decreases |es|
  {
    hide Happen;
    if es == [] {
      assert es + [e] == [e] && [e][1..] == [];
    } else {
      assert (es + [e])[1..] == es[1..] + [e];
      FinallySnoc(Happen(w, es[0]).world, es[1..], e);
    }
  }
}
