/**
 The reachability audit's fixpoint: starting from the wrappers named by the app,
 follow calls between wrappers until nothing new is found.
 */
module Reachability {

  /** `calls[f]` holds the wrappers whose name is called in the body of `f`. */
  type CallGraph = map<string, set<string>>

  ghost predicate Closed(g: CallGraph, s: set<string>)
  {
    forall f, h :: f in s && f in g && h in g[f] && h in g ==> h in s
  }

  /** A chain of calls between known wrappers. */
  ghost predicate Path(g: CallGraph, p: seq<string>)
  {
    && p != []
    && (forall i :: 0 <= i < |p| ==> p[i] in g)
    && (forall i :: 0 <= i < |p| - 1 ==> p[i + 1] in g[p[i]])
  }

  ghost predicate ReachedBy(g: CallGraph, roots: set<string>, f: string, p: seq<string>)
  {
    Path(g, p) && p[0] in roots && p[|p| - 1] == f
  }

  ghost predicate Reached(g: CallGraph, roots: set<string>, f: string)
  {
    exists p :: ReachedBy(g, roots, f, p)
  }

  lemma {:induction false} PathStaysInside(g: CallGraph, s: set<string>, p: seq<string>)
    requires Closed(g, s) && Path(g, p) && p[0] in s
    ensures p[|p| - 1] in s
    decreases |p|
  {
    if |p| > 1 {
      var init := p[..|p| - 1];
      assert forall i :: 0 <= i < |init| - 1 ==> init[i + 1] in g[init[i]];
      PathStaysInside(g, s, init);
      assert p[|p| - 2 + 1] in g[p[|p| - 2]];
    }
  }

  lemma ExtendPath(g: CallGraph, roots: set<string>, f: string, h: string)
    requires Reached(g, roots, f) && f in g && h in g[f] && h in g
    ensures Reached(g, roots, h)
  {
    var p :| ReachedBy(g, roots, f, p);
    var q := p + [h];
    forall i | 0 <= i < |q| - 1 ensures q[i + 1] in g[q[i]] {
      if i == |p| - 1 {
        assert q[i] == f;
      }
    }
    assert ReachedBy(g, roots, h, q);
  }

  lemma RootIsReached(g: CallGraph, roots: set<string>, f: string)
    requires f in roots && f in g
    ensures Reached(g, roots, f)
  {
    assert ReachedBy(g, roots, f, [f]);
  }

  /** The names of `s` in some order, each once. */
  ghost predicate Lists(names: seq<string>, s: set<string>)
  {
    forall x :: x in names <==> x in s
  }

  method Listing(s: set<string>) returns (names: seq<string>)
    ensures Lists(names, s)
  {
    names := [];
    var rest := s;
    while rest != {}
      invariant rest <= s && forall x :: x in names <==> x in s - rest
      decreases rest
    {
      var x :| x in rest;
      names := names + [x];
      rest := rest - {x};
    }
  }

  ghost predicate AllReached(g: CallGraph, roots: set<string>, s: set<string>)
  {
    s <= g.Keys && forall f :: f in s ==> Reached(g, roots, f)
  }

  /** The inner loop: adds what the body of `name` calls. */
  method Scan(funcs: seq<string>, g: CallGraph, ghost roots: set<string>, name: string, reachable0: set<string>)
    returns (reachable: set<string>)
    requires Lists(funcs, g.Keys) && AllReached(g, roots, reachable0) && name in reachable0
    ensures AllReached(g, roots, reachable) && reachable0 <= reachable
    ensures forall h :: h in g[name] && h in g ==> h in reachable
  {
    reachable := reachable0;
    for j := 0 to |funcs|
      invariant AllReached(g, roots, reachable) && reachable0 <= reachable
      invariant forall k :: 0 <= k < j && funcs[k] in g[name] ==> funcs[k] in reachable
    {
      var other := funcs[j];
      if !(other in reachable || other == name) && other in g[name] {
        ExtendPath(g, roots, name, other);
        reachable := reachable + {other};
      }
    }
  }

  /**
   The nested loop of `main`.  It ends, and `reachable` is exactly the set of
   wrappers some chain of calls leads to: the least set holding the roots and
   closed under calls.
   */
  method Closure(funcs: seq<string>, g: CallGraph, roots: set<string>) returns (reachable: set<string>)
    requires Lists(funcs, g.Keys) && roots <= g.Keys
    ensures forall f :: f in reachable <==> Reached(g, roots, f)
    ensures roots <= reachable <= g.Keys && Closed(g, reachable)
    ensures forall s :: roots <= s && Closed(g, s) ==> reachable <= s
  {
    reachable := roots;
    forall f | f in roots ensures Reached(g, roots, f) {
      RootIsReached(g, roots, f);
    }
    var changed := true;
    while changed
      invariant roots <= reachable && AllReached(g, roots, reachable)
      invariant !changed ==> Closed(g, reachable)
      decreases g.Keys - reachable, changed
    {
      changed := false;
      var names := Listing(reachable);
      ghost var before := reachable;
      for i := 0 to |names|
        invariant before <= reachable && AllReached(g, roots, reachable)
        invariant changed <==> reachable != before
        invariant forall k, h :: 0 <= k < i && h in g[names[k]] && h in g ==> h in reachable
      {
        var grown := Scan(funcs, g, roots, names[i], reachable);
        changed := changed || grown != reachable;
        reachable := grown;
      }
    }
    LeastClosed(g, roots, reachable);
  }

  lemma LeastClosed(g: CallGraph, roots: set<string>, reachable: set<string>)
    requires roots <= reachable && AllReached(g, roots, reachable) && Closed(g, reachable)
    ensures forall f :: f in reachable <==> Reached(g, roots, f)
    ensures forall s :: roots <= s && Closed(g, s) ==> reachable <= s
  {
    forall f | Reached(g, roots, f) ensures f in reachable {
      var p :| ReachedBy(g, roots, f, p);
      PathStaysInside(g, reachable, p);
    }
    forall s | roots <= s && Closed(g, s) ensures reachable <= s {
      forall f | f in reachable ensures f in s {
        var p :| ReachedBy(g, roots, f, p);
        PathStaysInside(g, s, p);
      }
    }
  }

  /** Some wrapper of `s` invokes the command. */
  ghost predicate InvokedFrom(invokes: map<string, set<string>>, s: set<string>, c: string)
    requires s <= invokes.Keys
  {
    exists f :: f in s && c in invokes[f]
  }

  /** Some chain of calls from a root ends in a wrapper that invokes the command. */
  ghost predicate LedTo(g: CallGraph, invokes: map<string, set<string>>, roots: set<string>, c: string)
    requires g.Keys == invokes.Keys
  {
    exists p :: Path(g, p) && p[0] in roots && c in invokes[p[|p| - 1]]
  }

  lemma LedToIff(g: CallGraph, invokes: map<string, set<string>>, roots: set<string>, reachable: set<string>, c: string)
    requires g.Keys == invokes.Keys && reachable <= g.Keys
    requires forall f :: f in reachable <==> Reached(g, roots, f)
    ensures InvokedFrom(invokes, reachable, c) <==> LedTo(g, invokes, roots, c)
  {
    if InvokedFrom(invokes, reachable, c) {
      var f :| f in reachable && c in invokes[f];
      var p :| ReachedBy(g, roots, f, p);
      assert Path(g, p) && p[0] in roots && c in invokes[p[|p| - 1]];
    }
    if LedTo(g, invokes, roots, c) {
      var p :| Path(g, p) && p[0] in roots && c in invokes[p[|p| - 1]];
      assert ReachedBy(g, roots, p[|p| - 1], p);
    }
  }

  /** `invokes[f]` holds the commands invoked in the body of `f`; `direct` those the app invokes itself. */
  method LiveCommands(reachable: set<string>, invokes: map<string, set<string>>, direct: set<string>)
    returns (live: set<string>)
    requires reachable <= invokes.Keys
    ensures forall c :: c in live <==> c in direct || InvokedFrom(invokes, reachable, c)
  {
    live := direct;
    var rest := reachable;
    while rest != {}
      invariant rest <= reachable
      invariant forall c :: c in live <==> c in direct || exists f :: f in reachable - rest && c in invokes[f]
      decreases rest
    {
      var f :| f in rest;
      ghost var done := reachable - rest;
      assert reachable - (rest - {f}) == done + {f};
      live := live + invokes[f];
      rest := rest - {f};
    }
    assert reachable - rest == reachable;
  }

  /**
   The whole audit: a command is live if and only if the app invokes it itself or
   some chain of calls from a root leads to a wrapper that invokes it.
   */
  method Audit(funcs: seq<string>, g: CallGraph, invokes: map<string, set<string>>, roots: set<string>,
               direct: set<string>, registered: set<string>)
    returns (unreachable: set<string>)
    requires Lists(funcs, g.Keys) && roots <= g.Keys && invokes.Keys == g.Keys
    ensures forall c :: c in unreachable <==> c in registered && c !in direct && !LedTo(g, invokes, roots, c)
  {
    var reachable := Closure(funcs, g, roots);
    var live := LiveCommands(reachable, invokes, direct);
    unreachable := registered - live;
    forall c ensures InvokedFrom(invokes, reachable, c) <==> LedTo(g, invokes, roots, c) {
      LedToIff(g, invokes, roots, reachable, c);
    }
  }
}
