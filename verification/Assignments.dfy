/** What a `key: value` file does to the fields it names: a sequence of
    assignments, in which a line may also be ignored or may throw. */
module Assignments {
  import opened Text

  datatype Effect<F> = Skip | Set(field: F, value: nat) | Fail

  function Apply<F>(m: map<F, nat>, e: Effect<F>): Outcome<map<F, nat>>
  {
    match e
    case Skip => Done(m)
    case Set(f, v) => Done(m[f := v])
    case Fail => Threw(m)
  }

  function ApplyAll<F>(m: map<F, nat>, es: seq<Effect<F>>): (r: Outcome<map<F, nat>>)
    ensures m.Keys <= r.state.Keys
    decreases |es|
  {
    if es == [] then Done(m)
    else match Apply(m, es[0])
      case Done(m') => ApplyAll(m', es[1..])
      case Threw(m') => Threw(m')
  }

  function LastSet<F(==)>(es: seq<Effect<F>>, f: F): (v: Option<nat>)
    ensures v.Some? ==> Set(f, v.value) in es
    ensures v.None? ==> forall w :: Set(f, w) !in es
  {
    if es == [] then None
    else
      var last := es[|es| - 1];
      assert es == es[..|es| - 1] + [last];
      if last.Set? && last.field == f then Some(last.value) else LastSet(es[..|es| - 1], f)
  }

  /** Processing completes exactly when no line throws. */
  lemma {:induction false} DoneIff<F>(m: map<F, nat>, es: seq<Effect<F>>)
    ensures ApplyAll(m, es).Done? <==> Fail !in es
    decreases |es|
  {
    if es != [] {
      assert es == [es[0]] + es[1..];
      DoneIff(Apply(m, es[0]).state, es[1..]);
    }
  }

  lemma {:induction false} Snoc<F>(m: map<F, nat>, es: seq<Effect<F>>, e: Effect<F>)
    requires Fail !in es
    ensures ApplyAll(m, es).Done?
    ensures ApplyAll(m, es + [e]) == Apply(ApplyAll(m, es).state, e)
    decreases |es|
  {
    if es == [] {
      assert es + [e] == [e] && [e][1..] == [];
    } else {
      assert (es + [e])[1..] == es[1..] + [e];
      assert es[0] in es;
      Snoc(Apply(m, es[0]).state, es[1..], e);
    }
  }

  lemma {:induction false} ApplyConcat<F>(m: map<F, nat>, es: seq<Effect<F>>, fs: seq<Effect<F>>)
    requires Fail !in es
    ensures ApplyAll(m, es).Done?
    ensures ApplyAll(m, es + fs) == ApplyAll(ApplyAll(m, es).state, fs)
    decreases |es|
  {
    if es == [] {
      assert es + fs == fs;
    } else {
      assert es[0] in es;
      assert (es + fs)[1..] == es[1..] + fs;
      ApplyConcat(Apply(m, es[0]).state, es[1..], fs);
    }
  }

  /** A field ends as the last value assigned to it, or as it was. */
  lemma {:induction false} LastWriter<F>(m: map<F, nat>, es: seq<Effect<F>>, f: F)
    requires Fail !in es
    ensures ApplyAll(m, es).Done?
    ensures f in ApplyAll(m, es).state <==> f in m || LastSet(es, f).Some?
    ensures LastSet(es, f).Some? ==> f in ApplyAll(m, es).state && ApplyAll(m, es).state[f] == LastSet(es, f).value
    ensures LastSet(es, f).None? && f in m ==> ApplyAll(m, es).state[f] == m[f]
    decreases |es|
  {
    if es != [] {
      var front, last := es[..|es| - 1], es[|es| - 1];
      assert es == front + [last];
      Snoc(m, front, last);
      LastWriter(m, front, f);
    }
  }

  /** No field is assigned two different values. */
  ghost predicate Consistent<F(!new)>(es: seq<Effect<F>>)
  {
    forall f, v, w :: Set(f, v) in es && Set(f, w) in es ==> v == w
  }

  /** Two orders of the same assignments leave the same fields. */
  lemma OrderIrrelevant<F(!new)>(m: map<F, nat>, es: seq<Effect<F>>, fs: seq<Effect<F>>)
    requires Fail !in es && Consistent(es)
    requires forall e :: e in es <==> e in fs
    ensures ApplyAll(m, es).Done?
    ensures ApplyAll(m, fs) == ApplyAll(m, es)
  {
    DoneIff(m, es);
    DoneIff(m, fs);
    var a, b := ApplyAll(m, es).state, ApplyAll(m, fs).state;
    forall f ensures f in a <==> f in b ensures f in a ==> a[f] == b[f] {
      LastWriter(m, es, f);
      LastWriter(m, fs, f);
      assert LastSet(es, f) == LastSet(fs, f) by {
        var v, w := LastSet(es, f), LastSet(fs, f);
        if v.Some? {
          assert Set(f, v.value) in fs;
        }
        if w.Some? {
          assert Set(f, w.value) in es;
        }
      }
    }
    assert a == b;
  }
}
