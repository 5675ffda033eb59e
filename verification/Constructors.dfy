/** The layered topological sort of constructors (kernel/tools/dep2prio.py:7-18). */
module Constructors {
  datatype Name = Name(text: string)

  type Deps = map<Name, set<Name>>

  datatype Outcome = Circular | Ordered(names: seq<Name>)

  ghost predicate Distinct(s: seq<Name>) {
    forall i, j :: 0 <= i < j < |s| ==> s[i] != s[j]
  }

  ghost function Elements(s: seq<Name>): set<Name> {
    set x | x in s
  }

  // every name comes after all it depends on
  ghost predicate AfterDeps(s: seq<Name>, deps: Deps) {
    forall i, d :: 0 <= i < |s| && s[i] in deps && d in deps[s[i]] ==> d in s[..i]
  }

  // rank[t] is the length of t's longest chain of dependencies
  ghost predicate Ranked(rank: map<Name, nat>, deps: Deps) {
    && rank.Keys == deps.Keys
    && (forall t, d :: t in deps && d in deps[t] ==> d in rank && rank[d] < rank[t])
    && (forall t :: t in deps && rank[t] > 0 ==> exists d :: d in deps[t] && d in rank && rank[d] == rank[t] - 1)
  }

  ghost predicate ByRank(s: seq<Name>, rank: map<Name, nat>) {
    forall i, j :: 0 <= i < j < |s| && s[i] in rank && s[j] in rank ==> rank[s[i]] <= rank[s[j]]
  }

  // names none of which can come first: each depends on one of them or on an unknown name
  ghost predicate Stuck(xs: set<Name>, deps: Deps) {
    && xs != {} && xs <= deps.Keys
    && forall t :: t in xs ==> exists d :: d in deps[t] && (d in xs || d !in deps)
  }

  // c is a chain of dependencies that ends with t
  ghost predicate Chain(c: seq<Name>, deps: Deps, t: Name) {
    && c != [] && c[|c| - 1] == t && (forall i :: 0 <= i < |c| ==> c[i] in deps)
    && (forall i :: 0 < i < |c| ==> c[i - 1] in deps[c[i]])
  }

  // The rank bounds the length of every chain, and some chain has it.
  lemma LongestChain(rank: map<Name, nat>, deps: Deps, t: Name)
    requires Ranked(rank, deps) && t in deps
    ensures forall c :: Chain(c, deps, t) ==> |c| <= rank[t] + 1
    ensures exists c :: Chain(c, deps, t) && |c| == rank[t] + 1
  {
    hide Ranked, Chain;
    assert t in rank by { RankKeys(rank, deps); }
    forall c | Chain(c, deps, t) ensures |c| <= rank[t] + 1 { ChainShort(c, rank, deps, t); }
    var c := SomeChain(rank, deps, t);
  }

  lemma RankKeys(rank: map<Name, nat>, deps: Deps)
    requires Ranked(rank, deps)
    ensures rank.Keys == deps.Keys
  {}

  lemma {:induction false} SomeChain(rank: map<Name, nat>, deps: Deps, t: Name) returns (c: seq<Name>)
    requires Ranked(rank, deps) && t in deps
    ensures Chain(c, deps, t) && |c| == rank[t] + 1
    decreases rank[t]
  {
    if rank[t] == 0 {
      c := [t];
    } else {
      var d :| d in deps[t] && d in rank && rank[d] == rank[t] - 1;
      c := SomeChain(rank, deps, d);
      Longer(c, deps, d, t);
      c := c + [t];
    }
  }

  lemma Longer(c: seq<Name>, deps: Deps, d: Name, t: Name)
    requires Chain(c, deps, d) && t in deps && d in deps[t]
    ensures Chain(c + [t], deps, t)
  {}

  lemma {:induction false} ChainShort(c: seq<Name>, rank: map<Name, nat>, deps: Deps, t: Name)
    requires Ranked(rank, deps) && Chain(c, deps, t) && t in deps
    ensures |c| <= rank[t] + 1
    decreases |c|
  {
    if |c| > 1 {
      var d := c[|c| - 2];
      assert c[|c| - 1] == t && d in deps[t];
      var c' := c[..|c| - 1];
      assert Chain(c', deps, d);
      ChainShort(c', rank, deps, d);
    }
  }

  // an order that puts every name after its dependencies leaves nothing stuck
  lemma NothingStuck(s: seq<Name>, deps: Deps, xs: set<Name>)
    requires AfterDeps(s, deps) && Elements(s) == deps.Keys && Stuck(xs, deps)
    ensures false
  {
    var t :| t in xs;
    assert t in Elements(s);
    var i :| 0 <= i < |s| && s[i] == t;
    FirstStuck(s, deps, xs, i);
  }

  lemma {:induction false} FirstStuck(s: seq<Name>, deps: Deps, xs: set<Name>, i: nat)
    requires AfterDeps(s, deps) && Elements(s) == deps.Keys && Stuck(xs, deps) && i < |s| && s[i] in xs
    ensures false
    decreases i
  {
    var d :| d in deps[s[i]] && (d in xs || d !in deps);
    assert d in s[..i];
    var j :| 0 <= j < i && s[j] == d;
    assert d in Elements(s);
    FirstStuck(s, deps, xs, j);
  }

  // ---------------- the loop ----------------

  // what is left after the names in `done`, which are result's, were taken out
  ghost predicate Progress(deps0: Deps, deps: Deps, result: seq<Name>, rank: map<Name, nat>, layer: nat) {
    && Distinct(result) && rank.Keys == Elements(result) <= deps0.Keys
    && deps.Keys == deps0.Keys - rank.Keys
    && (forall t :: t in deps ==> deps[t] == deps0[t] - rank.Keys)
    && AfterDeps(result, deps0) && ByRank(result, rank)
    && (forall t :: t in rank ==> rank[t] < layer)
    && (forall t, d :: t in rank && d in deps0[t] ==> d in rank && rank[d] < rank[t])
    && (forall t :: t in rank && rank[t] > 0 ==> exists d :: d in deps0[t] && d in rank && rank[d] == rank[t] - 1)
    && (layer > 0 ==> forall t :: t in deps ==> exists d :: d in deps0[t] && (d !in rank || rank[d] == layer - 1))
  }

  // the names of `ready`, in some order, become the next layer
  lemma NextLayer(deps0: Deps, deps: Deps, result: seq<Name>, rank: map<Name, nat>, layer: nat,
                  ready: seq<Name>, deps': Deps, rank': map<Name, nat>)
    requires Progress(deps0, deps, result, rank, layer) && Distinct(ready) && ready != []
    requires forall t :: t in ready <==> t in deps && deps[t] == {}
    requires rank'.Keys == rank.Keys + Elements(ready)
    requires (forall t :: t in rank ==> rank'[t] == rank[t]) && (forall t :: t in ready ==> rank'[t] == layer)
    requires deps'.Keys == deps.Keys - Elements(ready) && forall t :: t in deps' ==> deps'[t] == deps[t] - Elements(ready)
    ensures Progress(deps0, deps', result + ready, rank', layer + 1)
  {
    hide AfterDeps, Distinct, ByRank, Elements;
    InElements(ready);
    ReadyBelow(deps0, deps, result, rank, layer, ready);
    LayerOrder(deps0, result, rank, layer, ready, rank');
    LayerRanks(deps0, deps, result, rank, layer, ready, rank');
    LayerLeft(deps0, deps, result, rank, layer, ready, deps', rank');
    assert Elements(ready) <= deps0.Keys;
  }

  // a name left with nothing to wait for has had all its dependencies taken out
  lemma ReadyBelow(deps0: Deps, deps: Deps, result: seq<Name>, rank: map<Name, nat>, layer: nat, ready: seq<Name>)
    requires Progress(deps0, deps, result, rank, layer) && forall t :: t in ready ==> t in deps && deps[t] == {}
    ensures forall t :: t in ready ==> t in deps0 && t !in rank && deps0[t] <= rank.Keys
  {
    hide AfterDeps, Distinct, ByRank, Elements;
    forall t | t in ready ensures t in deps0 && t !in rank && deps0[t] <= rank.Keys {
      assert t in deps && deps[t] == {};
      NothingLeft(deps0[t], rank.Keys);
    }
  }

  lemma LayerOrder(deps0: Deps, result: seq<Name>, rank: map<Name, nat>, layer: nat, ready: seq<Name>, rank': map<Name, nat>)
    requires Distinct(result) && Distinct(ready) && ByRank(result, rank) && rank.Keys == Elements(result) && AfterDeps(result, deps0)
    requires (forall t :: t in rank ==> rank[t] < layer && t in rank' && rank'[t] == rank[t])
    requires (forall t :: t in ready ==> t in deps0 && t !in rank && t in rank' && rank'[t] == layer && deps0[t] <= rank.Keys)
    ensures var r := result + ready; Distinct(r) && ByRank(r, rank') && AfterDeps(r, deps0) && Elements(r) == Elements(result) + Elements(ready)
  {
    var r := result + ready;
    forall i, j | 0 <= i < j < |r| ensures r[i] != r[j] && rank'[r[i]] <= rank'[r[j]] {
      LayerPair(result, ready, rank, rank', layer, i, j);
    }
    LayerAfter(deps0, result, ready);
  }

  lemma LayerRanks(deps0: Deps, deps: Deps, result: seq<Name>, rank: map<Name, nat>, layer: nat, ready: seq<Name>, rank': map<Name, nat>)
    requires Progress(deps0, deps, result, rank, layer)
    requires rank'.Keys == rank.Keys + Elements(ready)
    requires (forall t :: t in rank ==> rank'[t] == rank[t])
    requires (forall t :: t in ready ==> t in deps && t !in rank && rank'[t] == layer && deps0[t] <= rank.Keys)
    ensures forall t, d :: t in rank' && d in deps0[t] ==> d in rank' && rank'[d] < rank'[t]
    ensures forall t :: t in rank' && rank'[t] > 0 ==> exists d :: d in deps0[t] && d in rank' && rank'[d] == rank'[t] - 1
    ensures forall t :: t in rank' ==> rank'[t] < layer + 1
  {
    hide AfterDeps, Distinct, ByRank;
    forall t | t in rank' && rank'[t] > 0 ensures exists d :: d in deps0[t] && d in rank' && rank'[d] == rank'[t] - 1 {
      LayerRank(deps0, rank, rank', layer, ready, t);
    }
  }

  lemma LayerLeft(deps0: Deps, deps: Deps, result: seq<Name>, rank: map<Name, nat>, layer: nat, ready: seq<Name>, deps': Deps, rank': map<Name, nat>)
    requires Progress(deps0, deps, result, rank, layer) && rank'.Keys == rank.Keys + Elements(ready)
    requires forall t :: t in ready <==> t in deps && deps[t] == {}
    requires forall t :: t in ready ==> rank'[t] == layer
    requires deps'.Keys == deps.Keys - Elements(ready) && forall t :: t in deps' ==> deps'[t] == deps[t] - Elements(ready)
    ensures forall t :: t in deps' ==> exists d :: d in deps0[t] && (d !in rank' || rank'[d] == layer)
    ensures deps'.Keys == deps0.Keys - rank'.Keys && forall t :: t in deps' ==> deps'[t] == deps0[t] - rank'.Keys
  {
    hide AfterDeps, Distinct, ByRank;
    forall t | t in deps' ensures exists d :: d in deps0[t] && (d !in rank' || rank'[d] == layer) {
      assert t !in ready && deps[t] != {};
      var d :| d in deps[t];
      assert d in deps0[t] && d !in rank;
    }
  }

  lemma NothingLeft(a: set<Name>, b: set<Name>)
    requires a - b == {}
    ensures a <= b
  {
    forall x | x in a ensures x in b { assert x in a - b <==> x !in b; }
  }

  lemma LayerAfter(deps0: Deps, result: seq<Name>, ready: seq<Name>)
    requires AfterDeps(result, deps0) && forall t :: t in ready && t in deps0 ==> deps0[t] <= Elements(result)
    ensures AfterDeps(result + ready, deps0)
  {
    var r := result + ready;
    forall i, d | 0 <= i < |r| && r[i] in deps0 && d in deps0[r[i]] ensures d in r[..i] {
      if i < |result| {
        assert r[..i] == result[..i];
      } else {
        assert r[i] in ready;
        assert d in Elements(result) && r[..i] == result + ready[..i - |result|];
      }
    }
  }

  lemma LayerRank(deps0: Deps, rank: map<Name, nat>, rank': map<Name, nat>, layer: nat, ready: seq<Name>, t: Name)
    requires t in deps0 && rank'.Keys == rank.Keys + Elements(ready) && t in rank' && rank'[t] > 0
    requires (forall x :: x in rank ==> rank'[x] == rank[x]) && (forall x :: x in ready ==> rank'[x] == layer && x !in rank)
    requires forall x :: x in rank && rank[x] > 0 && x in deps0 ==> exists d :: d in deps0[x] && d in rank && rank[d] == rank[x] - 1
    requires t in ready ==> deps0[t] <= rank.Keys && exists d :: d in deps0[t] && (d !in rank || rank[d] == layer - 1)
    ensures exists d :: d in deps0[t] && d in rank' && rank'[d] == rank'[t] - 1
  {
    if t in ready {
      var d :| d in deps0[t] && (d !in rank || rank[d] == layer - 1);
      assert d in rank;
    } else {
      assert t in rank;
      var d :| d in deps0[t] && d in rank && rank[d] == rank[t] - 1;
    }
  }

  lemma LayerPair(result: seq<Name>, ready: seq<Name>, rank: map<Name, nat>, rank': map<Name, nat>, layer: nat, i: nat, j: nat)
    requires Distinct(result) && Distinct(ready) && ByRank(result, rank) && rank.Keys == Elements(result)
    requires (forall t :: t in rank ==> rank[t] < layer && t in rank' && rank'[t] == rank[t])
    requires (forall t :: t in ready ==> t !in rank && t in rank' && rank'[t] == layer)
    requires i < j < |result + ready|
    ensures var r := result + ready; r[i] != r[j] && r[i] in rank' && r[j] in rank' && rank'[r[i]] <= rank'[r[j]]
  {
    var r := result + ready;
    assert i < |result| ==> r[i] == result[i] && result[i] in Elements(result);
    assert j < |result| ==> r[j] == result[j] && result[j] in Elements(result);
    assert i >= |result| ==> r[i] == ready[i - |result|] && r[i] in ready;
    assert j >= |result| ==> r[j] == ready[j - |result|] && r[j] in ready;
  }

  // [t for (t, d) in deps.iteritems() if not d], in some order
  method Ready(deps: Deps) returns (ready: seq<Name>)
    ensures Distinct(ready) && forall t :: t in ready <==> t in deps && deps[t] == {}
  {
    ready := [];
    var rest := deps.Keys;
    while rest != {}
      invariant rest <= deps.Keys && Distinct(ready)
      invariant forall t :: t in ready <==> t in deps && t !in rest && deps[t] == {}
      decreases |rest|
    {
      var t :| t in rest;
      rest := rest - {t};
      if deps[t] == {} {
        ready := ready + [t];
      }
    }
  }

  // for t, d in deps.iteritems(): for r in ready: d.discard(r)
  method DiscardAll(deps: Deps, ready: seq<Name>) returns (deps': Deps)
    ensures deps'.Keys == deps.Keys && forall t :: t in deps ==> deps'[t] == deps[t] - Elements(ready)
  {
    deps' := deps;
    var rest := deps.Keys;
    while rest != {}
      invariant rest <= deps.Keys == deps'.Keys
      invariant forall t :: t in deps ==> deps'[t] == if t in rest then deps[t] else deps[t] - Elements(ready)
      decreases |rest|
    {
      var t :| t in rest;
      var d := deps'[t];
      var i := 0;
      while i < |ready|
        invariant i <= |ready| && d == deps[t] - Elements(ready[..i])
      {
        assert Elements(ready[..i + 1]) == Elements(ready[..i]) + {ready[i]};
        d := d - {ready[i]};
        i := i + 1;
      }
      assert ready[..|ready|] == ready;
      deps' := deps'[t := d];
      rest := rest - {t};
    }
  }

  // The sort succeeds exactly when nothing is stuck; then every name comes once, after all it
  // depends on, and names come by the length of their longest chains.
  method Sort(deps0: Deps) returns (r: Outcome, ghost rank: map<Name, nat>)
    ensures r.Circular? <==> exists xs :: Stuck(xs, deps0)
    ensures r.Ordered? ==> Distinct(r.names) && Elements(r.names) == deps0.Keys && AfterDeps(r.names, deps0)
    ensures r.Ordered? ==> Ranked(rank, deps0) && ByRank(r.names, rank)
  {
    hide Stuck, Progress, AfterDeps, Distinct, ByRank, Ranked, Elements;
    var deps := deps0;
    var result := [];
    rank := map[];
    ghost var layer := 0;
    Start(deps0);
    while deps.Keys != {}
      invariant Progress(deps0, deps, result, rank, layer)
      decreases |deps.Keys|
    {
      var ready := Ready(deps);
      if ready == [] {
        LeftStuck(deps0, deps, result, rank, layer);
        return Circular, rank;
      }
      deps, result, rank := Layer(deps0, deps, result, ready, rank, layer);
      layer := layer + 1;
    }
    Finished(deps0, deps, result, rank, layer);
    NoneStuck(result, deps0);
    r := Ordered(result);
  }

  // one turn of the loop
  method Layer(ghost deps0: Deps, deps: Deps, result0: seq<Name>, ready: seq<Name>, ghost rank0: map<Name, nat>, ghost layer: nat)
    returns (next: Deps, result: seq<Name>, ghost rank: map<Name, nat>)
    requires Progress(deps0, deps, result0, rank0, layer) && Distinct(ready) && ready != []
    requires forall t :: t in ready <==> t in deps && deps[t] == {}
    ensures Progress(deps0, next, result, rank, layer + 1) && |next.Keys| < |deps.Keys|
  {
    hide Progress, AfterDeps, Distinct, ByRank, Ranked, Elements;
    var rest;
    rest, result, rank := TakeLayer(deps, ready, result0, rank0, layer);
    InElements(ready);
    next := DiscardAll(rest, ready);
    ReadyNew(deps0, deps, result0, rank0, layer, ready);
    NextLayer(deps0, deps, result0, rank0, layer, ready, next, rank);
    SmallerSet(next.Keys, deps.Keys, ready[0]);
  }

  // for r in ready: result.append(r); del deps[r]
  method TakeLayer(deps: Deps, ready: seq<Name>, result0: seq<Name>, ghost rank0: map<Name, nat>, ghost layer: nat)
    returns (rest: Deps, result: seq<Name>, ghost rank: map<Name, nat>)
    ensures result == result0 + ready && rest == deps - Elements(ready)
    ensures rank.Keys == rank0.Keys + Elements(ready)
    ensures forall t :: t in rank ==> if t in ready then rank[t] == layer else t in rank0 && rank[t] == rank0[t]
  {
    rest, result, rank := deps, result0, rank0;
    var i := 0;
    while i < |ready|
      invariant i <= |ready| && result == result0 + ready[..i] && rest == deps - Elements(ready[..i])
      invariant rank.Keys == rank0.Keys + Elements(ready[..i])
      invariant forall t :: t in rank ==> if t in ready[..i] then rank[t] == layer else t in rank0 && rank[t] == rank0[t]
    {
      assert Elements(ready[..i + 1]) == Elements(ready[..i]) + {ready[i]};
      assert ready[..i + 1] == ready[..i] + [ready[i]];
      result := result + [ready[i]];
      rest := rest - {ready[i]};
      rank := rank[ready[i] := layer];
      i := i + 1;
    }
    assert ready[..|ready|] == ready;
  }

  lemma InElements(s: seq<Name>)
    ensures forall x :: x in Elements(s) <==> x in s
  {}

  lemma ReadyNew(deps0: Deps, deps: Deps, result: seq<Name>, rank: map<Name, nat>, layer: nat, ready: seq<Name>)
    requires Progress(deps0, deps, result, rank, layer) && forall t :: t in ready ==> t in deps
    ensures forall t :: t in ready ==> t !in rank
  {}

  lemma Finished(deps0: Deps, deps: Deps, result: seq<Name>, rank: map<Name, nat>, layer: nat)
    requires Progress(deps0, deps, result, rank, layer) && deps.Keys == {}
    ensures Distinct(result) && Elements(result) == deps0.Keys && AfterDeps(result, deps0) && Ranked(rank, deps0) && ByRank(result, rank)
  {}

  lemma Start(deps: Deps)
    ensures Progress(deps, deps, [], map[], 0)
  {
    assert Elements([]) == {};
  }

  lemma NoneStuck(s: seq<Name>, deps: Deps)
    requires AfterDeps(s, deps) && Elements(s) == deps.Keys
    ensures !exists xs :: Stuck(xs, deps)
  {
    forall xs ensures !Stuck(xs, deps) {
      if Stuck(xs, deps) { NothingStuck(s, deps, xs); }
    }
  }

  lemma LeftStuck(deps0: Deps, deps: Deps, result: seq<Name>, rank: map<Name, nat>, layer: nat)
    requires Progress(deps0, deps, result, rank, layer) && deps.Keys != {} && forall t :: t in deps ==> deps[t] != {}
    ensures exists xs :: Stuck(xs, deps0)
  {
    forall t | t in deps.Keys ensures exists d :: d in deps0[t] && (d in deps.Keys || d !in deps0) {
      assert deps[t] != {};
      var d :| d in deps[t];
      assert d in deps0[t] && (d in deps.Keys || d !in deps0);
    }
    assert Stuck(deps.Keys, deps0);
  }

  lemma SmallerSet(a: set<Name>, b: set<Name>, x: Name)
    requires a <= b && x in b && x !in a
    ensures |a| < |b|
  {
    assert a <= b - {x};
    Cardinality(a, b - {x});
  }

  lemma {:induction false} Cardinality(a: set<Name>, b: set<Name>)
    requires a <= b
    ensures |a| <= |b|
    decreases a
  {
    if a != {} {
      var x :| x in a;
      Cardinality(a - {x}, b - {x});
    }
  }
}
