/**
 * Resource bookkeeping for programs written as straight-line acquisition
 * chains with early-return cleanup. A run is a trace of steps: acquiring a
 * handle, releasing it, or doing something with what is held. Every handle
 * is a distinct object that a run acquires at most once, so the ledger
 * replays a trace and fails on a second acquisition of a handle, held or
 * not, and on releasing a handle that is not held. A trace whose ledger ends
 * empty has released everything it acquired, each exactly once
 * (`Balanced`, `AcquiresOnce`, `ReleasesOnce`).
 */
module Ledger {
  import opened Media

  datatype Step<R, E> = Acquire(resource: R) | Release(resource: R) | Do(effect: E)

  /** One step applied to the handles held, given every handle acquired before it. */
  function Apply<R(==), E>(held: set<R>, acquired: set<R>, s: Step<R, E>): Option<set<R>> {
    match s
    case Acquire(r) => if r in held || r in acquired then None else Some(held + {r})
    case Release(r) => if r in held then Some(held - {r}) else None
    case Do(_) => Some(held)
  }

  /** The handles held after the trace, or None if it misuses one. */
  function Replay<R(==), E>(t: seq<Step<R, E>>): Option<set<R>> {
    if t == [] then Some({})
    else match Replay(t[..|t| - 1]) {
      case None => None
      case Some(held) => Apply(held, Acquired(t[..|t| - 1]), t[|t| - 1])
    }
  }

  /** Every handle the trace acquired. */
  function Acquired<R(==), E>(t: seq<Step<R, E>>): set<R> {
    if t == [] then {}
    else Acquired(t[..|t| - 1]) + (if t[|t| - 1].Acquire? then {t[|t| - 1].resource} else {})
  }

  /** Every handle the trace released. */
  function Released<R(==), E>(t: seq<Step<R, E>>): set<R> {
    if t == [] then {}
    else Released(t[..|t| - 1]) + (if t[|t| - 1].Release? then {t[|t| - 1].resource} else {})
  }

  /** What is held is what was acquired and not yet released. */
  lemma {:induction false} HeldIsOutstanding<R, E>(t: seq<Step<R, E>>)
    requires Replay(t).Some?
    ensures Replay(t).value == Acquired(t) - Released(t)
    ensures Released(t) <= Acquired(t)
  {
    if t != [] {
      HeldIsOutstanding(t[..|t| - 1]);
    }
  }

  /** A trace whose ledger ends empty released exactly the handles it acquired. */
  lemma Balanced<R, E>(t: seq<Step<R, E>>)
    requires Replay(t) == Some({})
    ensures Released(t) == Acquired(t)
  {
    HeldIsOutstanding(t);
  }

  lemma {:induction false} InAcquired<R, E>(t: seq<Step<R, E>>, i: nat)
    requires i < |t| && t[i].Acquire?
    ensures t[i].resource in Acquired(t)
  {
    if i < |t| - 1 {
      assert t[..|t| - 1][i] == t[i];
      InAcquired(t[..|t| - 1], i);
    }
  }

  lemma {:induction false} InReleased<R, E>(t: seq<Step<R, E>>, i: nat)
    requires i < |t| && t[i].Release?
    ensures t[i].resource in Released(t)
  {
    if i < |t| - 1 {
      assert t[..|t| - 1][i] == t[i];
      InReleased(t[..|t| - 1], i);
    }
  }

  /** A trace the ledger accepts acquires no handle twice. */
  lemma {:induction false} AcquiresOnce<R, E>(t: seq<Step<R, E>>, i: nat, j: nat)
    requires Replay(t).Some?
    requires i < j < |t| && t[i].Acquire? && t[j].Acquire?
    ensures t[i].resource != t[j].resource
  {
    var p := t[..|t| - 1];
    assert Replay(p).Some?;
    if j < |t| - 1 {
      assert p[i] == t[i] && p[j] == t[j];
      AcquiresOnce(p, i, j);
    } else {
      assert p[i] == t[i];
      InAcquired(p, i);
    }
  }

  /** A trace the ledger accepts releases no handle twice. */
  lemma {:induction false} ReleasesOnce<R, E>(t: seq<Step<R, E>>, i: nat, j: nat)
    requires Replay(t).Some?
    requires i < j < |t| && t[i].Release? && t[j].Release?
    ensures t[i].resource != t[j].resource
  {
    var p := t[..|t| - 1];
    assert Replay(p).Some?;
    if j < |t| - 1 {
      assert p[i] == t[i] && p[j] == t[j];
      ReleasesOnce(p, i, j);
    } else {
      assert p[i] == t[i];
      InReleased(p, i);
      HeldIsOutstanding(p);
    }
  }

  /** What the trace did, without the acquisitions and releases. */
  function Effects<R(==), E>(t: seq<Step<R, E>>): seq<E> {
    if t == [] then []
    else Effects(t[..|t| - 1]) + (if t[|t| - 1].Do? then [t[|t| - 1].effect] else [])
  }

  /** Every effect happened while the handles it needs were in the state `allowed` asks for. */
  ghost predicate Guarded<R, E>(t: seq<Step<R, E>>, allowed: (E, set<R>) -> bool) {
    forall i :: 0 <= i < |t| && t[i].Do? ==> Replay(t[..i]).Some? && allowed(t[i].effect, Replay(t[..i]).value)
  }

  /** The effects u as steps that neither acquire nor release. */
  function Wrap<R(==), E>(u: seq<E>): (t: seq<Step<R, E>>)
    ensures |t| == |u|
  {
    if u == [] then [] else Wrap(u[..|u| - 1]) + [Do(u[|u| - 1])]
  }

  /** Appending one step replays it on top of the trace. */
  lemma Snoc<R, E>(t: seq<Step<R, E>>, s: Step<R, E>, allowed: (E, set<R>) -> bool)
    requires Guarded(t, allowed)
    requires Replay(t).Some?
    requires s.Do? ==> allowed(s.effect, Replay(t).value)
    ensures Replay(t + [s]) == Apply(Replay(t).value, Acquired(t), s)
    ensures Guarded(t + [s], allowed)
    ensures Acquired(t + [s]) == Acquired(t) + (if s.Acquire? then {s.resource} else {})
    ensures Effects(t + [s]) == Effects(t) + (if s.Do? then [s.effect] else [])
  {
    var t' := t + [s];
    assert t'[..|t|] == t;
    forall i | 0 <= i < |t'| && t'[i].Do?
      ensures Replay(t'[..i]).Some? && allowed(t'[i].effect, Replay(t'[..i]).value)
    {
      if i < |t| {
        assert t'[..i] == t[..i];
        assert t'[i] == t[i];
      }
    }
  }

  /** Appends the acquisition of r, which is not yet held. */
  method AddAcquire<R, E>(t: seq<Step<R, E>>, r: R, ghost held: set<R>, ghost allowed: (E, set<R>) -> bool)
    returns (t': seq<Step<R, E>>)
    requires Guarded(t, allowed) && Replay(t) == Some(held) && r !in held && r !in Acquired(t)
    ensures t' == t + [Acquire(r)]
    ensures Guarded(t', allowed) && Replay(t') == Some(held + {r})
    ensures Acquired(t') == Acquired(t) + {r} && Effects(t') == Effects(t)
  {
    Snoc(t, Acquire(r), allowed);
    t' := t + [Acquire(r)];
  }

  /** Appends the release of r, which is held. */
  method AddRelease<R, E>(t: seq<Step<R, E>>, r: R, ghost held: set<R>, ghost allowed: (E, set<R>) -> bool)
    returns (t': seq<Step<R, E>>)
    requires Guarded(t, allowed) && Replay(t) == Some(held) && r in held
    ensures t' == t + [Release(r)]
    ensures Guarded(t', allowed) && Replay(t') == Some(held - {r})
    ensures Acquired(t') == Acquired(t) && Effects(t') == Effects(t)
  {
    Snoc(t, Release(r), allowed);
    t' := t + [Release(r)];
  }

  /** Appends an effect that is allowed with what is held. */
  method AddDo<R, E>(t: seq<Step<R, E>>, e: E, ghost held: set<R>, ghost allowed: (E, set<R>) -> bool)
    returns (t': seq<Step<R, E>>)
    requires Guarded(t, allowed) && Replay(t) == Some(held) && allowed(e, held)
    ensures t' == t + [Do(e)]
    ensures Guarded(t', allowed) && Replay(t') == Some(held)
    ensures Acquired(t') == Acquired(t) && Effects(t') == Effects(t) + [e]
  {
    DoStep(t, e, held, allowed);
    t' := t + [Do(e)];
  }

  /** An allowed effect keeps the trace guarded and changes neither what is held nor what was acquired. */
  lemma DoStep<R, E>(t: seq<Step<R, E>>, e: E, held: set<R>, allowed: (E, set<R>) -> bool)
    requires Guarded(t, allowed) && Replay(t) == Some(held) && allowed(e, held)
    ensures Guarded(t + [Do(e)], allowed)
    ensures Replay(t + [Do(e)]) == Some(held)
    ensures Acquired(t + [Do(e)]) == Acquired(t)
    ensures Effects(t + [Do(e)]) == Effects(t) + [e]
  {
    Snoc(t, Do(e), allowed);
  }

  /** Doing every effect of u, each allowed with what is held, keeps what is held. */
  lemma {:induction false} DoAll<R, E>(t: seq<Step<R, E>>, u: seq<E>, held: set<R>, allowed: (E, set<R>) -> bool)
    requires Guarded(t, allowed) && Replay(t) == Some(held)
    requires forall i :: 0 <= i < |u| ==> allowed(u[i], held)
    ensures Guarded(t + Wrap(u), allowed)
    ensures Replay(t + Wrap(u)) == Some(held)
    ensures Acquired(t + Wrap(u)) == Acquired(t)
    ensures Effects(t + Wrap(u)) == Effects(t) + u
  {
    if u == [] {
      assert t + Wrap(u) == t;
    } else {
      DoAll(t, u[..|u| - 1], held, allowed);
      DoLast(t, u, held, allowed);
    }
  }

  /** The last effect of u, on top of the others. */
  lemma DoLast<R, E>(t: seq<Step<R, E>>, u: seq<E>, held: set<R>, allowed: (E, set<R>) -> bool)
    requires u != [] && allowed(u[|u| - 1], held)
    requires Guarded(t + Wrap(u[..|u| - 1]), allowed) && Replay(t + Wrap(u[..|u| - 1])) == Some(held)
    requires Acquired(t + Wrap(u[..|u| - 1])) == Acquired(t) && Effects(t + Wrap(u[..|u| - 1])) == Effects(t) + u[..|u| - 1]
    ensures Guarded(t + Wrap(u), allowed)
    ensures Replay(t + Wrap(u)) == Some(held)
    ensures Acquired(t + Wrap(u)) == Acquired(t)
    ensures Effects(t + Wrap(u)) == Effects(t) + u
  {
    var k := |u| - 1;
    var t' := t + Wrap(u[..k]);
    WrapSnoc(t, u);
    DoStep(t', u[k], held, allowed);
    SnocLast(Effects(t), u);
  }

  lemma WrapSnoc<R, E>(t: seq<Step<R, E>>, u: seq<E>)
    requires u != []
    ensures t + Wrap(u) == (t + Wrap(u[..|u| - 1])) + [Do(u[|u| - 1])]
  {
    var w: seq<Step<R, E>> := Wrap(u[..|u| - 1]);
    var d: Step<R, E> := Do(u[|u| - 1]);
    assert Wrap<R, E>(u) == w + [d];
    AppendAssoc(t, w, [d]);
  }

  lemma AppendAssoc<T>(a: seq<T>, b: seq<T>, c: seq<T>)
    ensures a + (b + c) == (a + b) + c
  {
  }

  lemma SnocLast<E>(prefix: seq<E>, u: seq<E>)
    requires u != []
    ensures (prefix + u[..|u| - 1]) + [u[|u| - 1]] == prefix + u
  {
    assert u == u[..|u| - 1] + [u[|u| - 1]];
  }
}
