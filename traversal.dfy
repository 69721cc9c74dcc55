/**
 * The module-level graph helpers: class tests on networks, the list of
 * networks of a class, and the collection of the networks a node references
 * through its message plug, downward through message outputs and upward
 * through the DAG parents.
 */
module Traversal {
  import opened Wrappers
  import opened MayaValues

  /**
   * The part of the scene the helpers look at: the message outputs of every
   * node that has a message plug (in the order `outputs()` lists them), the
   * nodes that are networks, the networks in `ls(type='network')` order, the
   * string each node holds in its `_class` attribute (for the nodes that have
   * one), the DAG nodes (the ones with `getParent`), and the DAG parent of
   * each DAG node that is not at the top of the hierarchy.
   */
  datatype Graph = Graph(
    outputs: map<NodeId, seq<NodeId>>,
    networks: set<NodeId>,
    ls: seq<NodeId>,
    classAttr: map<NodeId, string>,
    dag: set<NodeId>,
    parent: map<NodeId, NodeId>)

  /** `ls(type='network')` lists the networks of the scene, each once. */
  ghost predicate Listed(g: Graph)
  {
    && (forall n :: n in g.ls <==> n in g.networks)
    && Distinct(g.ls)
  }

  // ---------------------------------------------------------------------
  // `str.split('.')`

  /** Python's `s.split('.')`: the pieces between dots, empty pieces included. */
  function Split(s: string): (r: seq<string>)
    ensures |r| >= 1
    decreases |s|
  {
    if s == [] then [[]]
    else
      var rest := Split(s[1..]);
      if s[0] == '.' then [[]] + rest
      else [[s[0]] + rest[0]] + rest[1..]
  }

  /** `'.'.join(ps)`. */
  function Join(ps: seq<string>): string
    requires |ps| >= 1
  {
    if |ps| == 1 then ps[0] else ps[0] + "." + Join(ps[1..])
  }

  predicate DotFree(s: string)
  {
    forall k :: 0 <= k < |s| ==> s[k] != '.'
  }

  /** Splitting yields dot-free pieces that join back to the string. */
  lemma {:induction false} JoinSplit(s: string)
    ensures forall k :: 0 <= k < |Split(s)| ==> DotFree(Split(s)[k])
    ensures Join(Split(s)) == s
    decreases |s|
  {
    if s != [] {
      var rest := Split(s[1..]);
      JoinSplit(s[1..]);
      if s[0] == '.' {
        assert ([[]] + rest)[1..] == rest;
      } else {
        var head := [s[0]] + rest[0];
        assert DotFree(head) by {
          forall k | 0 <= k < |head| ensures head[k] != '.' {
            if k > 0 { assert head[k] == rest[0][k - 1]; }
          }
        }
        if |rest| == 1 {
          assert s == [s[0]] + s[1..];
        } else {
          assert ([head] + rest[1..])[1..] == rest[1..];
          assert Join(rest) == rest[0] + "." + Join(rest[1..]);
          assert s == [s[0]] + s[1..];
        }
      }
    }
  }

  /** Joining dot-free pieces and splitting again gives the pieces back. */
  lemma {:induction false} SplitJoin(ps: seq<string>)
    requires |ps| >= 1
    requires forall k :: 0 <= k < |ps| ==> DotFree(ps[k])
    ensures Split(Join(ps)) == ps
    decreases |ps|, |ps[0]|
  {
    if |ps| == 1 {
      SplitDotFree(ps[0]);
    } else {
      var tail := ps[1..];
      SplitJoin(tail);
      SplitPrefix(ps[0], Join(tail));
    }
  }

  /** A dot-free string is one piece. */
  lemma {:induction false} SplitDotFree(s: string)
    requires DotFree(s)
    ensures Split(s) == [s]
    decreases |s|
  {
    if s != [] {
      SplitDotFree(s[1..]);
      assert [s[0]] + s[1..] == s;
    }
  }

  /** Splitting `p + "." + t` for a dot-free `p` gives `p`, then the pieces of `t`. */
  lemma {:induction false} SplitPrefix(p: string, t: string)
    requires DotFree(p)
    ensures Split(p + "." + t) == [p] + Split(t)
    decreases |p|
  {
    var s := p + "." + t;
    if p == [] {
      assert s[0] == '.' && s[1..] == t;
    } else {
      assert s[0] == p[0] && s[1..] == p[1..] + "." + t;
      SplitPrefix(p[1..], t);
      assert [p[0]] + p[1..] == p;
    }
  }

  // ---------------------------------------------------------------------
  // isNetworkInstanceOfClass, getNetworksByClass

  /** isNetworkInstanceOfClass: the node has `_class` and the name is one of its dotted pieces. */
  predicate IsNetworkInstanceOfClass(g: Graph, n: NodeId, clsName: string)
  {
    n in g.classAttr && clsName in Split(g.classAttr[n])
  }

  /**
   * For a class path written as dot-free pieces, a node is an instance of
   * exactly the classes named by one of the pieces; a name containing a dot is
   * never matched.
   */
  lemma InstanceOfPath(g: Graph, n: NodeId, ps: seq<string>, clsName: string)
    requires n in g.classAttr && |ps| >= 1 && g.classAttr[n] == Join(ps)
    requires forall k :: 0 <= k < |ps| ==> DotFree(ps[k])
    ensures IsNetworkInstanceOfClass(g, n, clsName) <==> clsName in ps
  {
    SplitJoin(ps);
  }

  /** A name with a dot in it matches no node. */
  lemma DottedNameNeverMatches(g: Graph, n: NodeId, clsName: string)
    requires !DotFree(clsName)
    ensures !IsNetworkInstanceOfClass(g, n, clsName)
  {
    if n in g.classAttr {
      JoinSplit(g.classAttr[n]);
    }
  }

  /** getNetworksByClass: the networks of the scene, in `ls` order, that are instances of the class. */
  function GetNetworksByClass(g: Graph, clsName: string): (r: seq<NodeId>)
    ensures forall n :: n in r <==> n in g.ls && IsNetworkInstanceOfClass(g, n, clsName)
  {
    FilterByClass(g, g.ls, clsName)
  }

  /** In a scene listed as it is, getNetworksByClass gives each network of the class exactly once. */
  lemma NetworksByClassListed(g: Graph, clsName: string)
    requires Listed(g)
    ensures var r := GetNetworksByClass(g, clsName);
      && (forall n :: n in r <==> n in g.networks && IsNetworkInstanceOfClass(g, n, clsName))
      && Distinct(r)
  {
    FilterDistinct(g, g.ls, clsName);
  }

  /** Filtering keeps a sequence free of duplicates. */
  lemma {:induction false} FilterDistinct(g: Graph, ns: seq<NodeId>, clsName: string)
    requires Distinct(ns)
    ensures Distinct(FilterByClass(g, ns, clsName))
  {
    if ns != [] {
      var tail := ns[1..];
      assert Distinct(tail) by {
        forall k, l | 0 <= k < l < |tail| ensures tail[k] != tail[l] {
          assert tail[k] == ns[k + 1] && tail[l] == ns[l + 1];
        }
      }
      FilterDistinct(g, tail, clsName);
      var rest := FilterByClass(g, tail, clsName);
      var r := FilterByClass(g, ns, clsName);
      if IsNetworkInstanceOfClass(g, ns[0], clsName) {
        assert ns[0] !in tail by {
          forall k | 0 <= k < |tail| ensures tail[k] != ns[0] {
            assert tail[k] == ns[k + 1];
          }
        }
        assert r == [ns[0]] + rest;
        forall k, l | 0 <= k < l < |r| ensures r[k] != r[l] {
          assert r[l] == rest[l - 1] && rest[l - 1] in rest;
          if k > 0 {
            assert r[k] == rest[k - 1];
          }
        }
      } else {
        assert r == rest;
      }
    }
  }

  /** The comprehension of getNetworksByClass over `ns`. */
  function FilterByClass(g: Graph, ns: seq<NodeId>, clsName: string): (r: seq<NodeId>)
    ensures forall n :: n in r <==> n in ns && IsNetworkInstanceOfClass(g, n, clsName)
    ensures |r| <= |ns|
  {
    if ns == [] then []
    else
      var rest := FilterByClass(g, ns[1..], clsName);
      assert forall n :: n in ns <==> n == ns[0] || n in ns[1..];
      if IsNetworkInstanceOfClass(g, ns[0], clsName) then [ns[0]] + rest else rest
  }

  // ---------------------------------------------------------------------
  // getConnectedNetworks

  /** The `key` and `recursive` arguments. */
  datatype Query = Query(key: Option<NodeId -> bool>, recursive: bool)

  /** `key is None or key(output)`. */
  predicate Accepts(q: Query, n: NodeId)
  {
    q.key.None? || q.key.value(n)
  }

  /**
   * The networks collected, and whether the recursion depth bound `fuel` ran
   * out (the source has no such bound: an exhausted walk is one the model
   * does not follow to its end).
   */
  datatype Walk = Walk(found: seq<NodeId>, exhausted: bool)

  /**
   * The loop over `objs` from `i` on, with `acc` the shared `inArray`: each
   * object with a message plug has its outputs visited.
   */
  function Visit(g: Graph, q: Query, objs: seq<NodeId>, i: nat, acc: seq<NodeId>, fuel: nat): Walk
    requires i <= |objs|
    decreases fuel, 1, |objs| - i
  {
    if i == |objs| then Walk(acc, false)
    else
      var r := if objs[i] in g.outputs then VisitOutputs(g, q, g.outputs[objs[i]], 0, acc, fuel) else Walk(acc, false);
      if r.exhausted then r else Visit(g, q, objs, i + 1, r.found, fuel)
  }

  /**
   * The loop over one object's message outputs from `j` on: a network not yet
   * in `inArray` is appended when `key` accepts it, and is recursed into when
   * `recursive` is set, whether `key` accepted it or not.
   */
  function VisitOutputs(g: Graph, q: Query, outs: seq<NodeId>, j: nat, acc: seq<NodeId>, fuel: nat): Walk
    requires j <= |outs|
    decreases fuel, 0, |outs| - j
  {
    if j == |outs| then Walk(acc, false)
    else
      var o := outs[j];
      if o !in g.networks || o in acc then VisitOutputs(g, q, outs, j + 1, acc, fuel)
      else
        var acc1 := if Accepts(q, o) then acc + [o] else acc;
        if !q.recursive then VisitOutputs(g, q, outs, j + 1, acc1, fuel)
        else if fuel == 0 then Walk(acc1, true)
        else
          var r := Visit(g, q, [o], 0, acc1, fuel - 1);
          if r.exhausted then r else VisitOutputs(g, q, outs, j + 1, r.found, fuel)
  }

  /**
   * getConnectedNetworks(objs, key, recursive, inArray): a missing `inArray`
   * starts empty; the result is `inArray` after the walk. `fuel` bounds the
   * recursion depth.
   */
  method GetConnectedNetworks(g: Graph, objs: seq<NodeId>, q: Query, inArray: Option<seq<NodeId>>, fuel: nat)
    returns (w: Walk)
    ensures w == Visit(g, q, objs, 0, if inArray.None? then [] else inArray.value, fuel)
    decreases fuel
  {
    var found := if inArray.None? then [] else inArray.value;
    ghost var start := found;
    var i := 0;
    while i < |objs|
      invariant 0 <= i <= |objs|
      invariant Visit(g, q, objs, i, found, fuel) == Visit(g, q, objs, 0, start, fuel)
    {
      var obj := objs[i];
      if obj in g.outputs {
        var outs := g.outputs[obj];
        ghost var before := found;
        var j := 0;
        while j < |outs|
          invariant 0 <= j <= |outs|
          invariant var r := VisitOutputs(g, q, outs, j, found, fuel);
            (if r.exhausted then r else Visit(g, q, objs, i + 1, r.found, fuel)) == Visit(g, q, objs, i, before, fuel)
        {
          var output := outs[j];
          if output in g.networks && output !in found {
            if Accepts(q, output) {
              found := found + [output];
            }
            if q.recursive {
              if fuel == 0 {
                return Walk(found, true);
              }
              var sub := GetConnectedNetworks(g, [output], q, Some(found), fuel - 1);
              if sub.exhausted {
                return sub;
              }
              found := sub.found;
            }
          }
          j := j + 1;
        }
      }
      i := i + 1;
    }
    w := Walk(found, false);
  }

  // ---------------------------------------------------------------------
  // What a walk collects.

  /** A message edge from `a` to a network `b`. */
  predicate Edge(g: Graph, a: NodeId, b: NodeId)
  {
    a in g.outputs && b in g.outputs[a] && b in g.networks
  }

  /** `p` is a path of message edges from `x` (exclusive) to its last node. */
  ghost predicate PathFrom(g: Graph, x: NodeId, p: seq<NodeId>)
  {
    && |p| >= 1
    && Edge(g, x, p[0])
    && forall k :: 0 <= k < |p| - 1 ==> Edge(g, p[k], p[k + 1])
  }

  /** `m` is reachable from `x` by one or more message edges to networks. */
  ghost predicate Reaches(g: Graph, x: NodeId, m: NodeId)
  {
    exists p :: PathFrom(g, x, p) && p[|p| - 1] == m
  }

  lemma ReachesByEdge(g: Graph, x: NodeId, o: NodeId, m: NodeId)
    requires Edge(g, x, o)
    requires o == m || Reaches(g, o, m)
    ensures Reaches(g, x, m)
  {
    if o == m {
      assert PathFrom(g, x, [o]);
    } else {
      var p :| PathFrom(g, o, p) && p[|p| - 1] == m;
      var p' := [o] + p;
      assert p'[|p'| - 1] == m;
      assert PathFrom(g, x, p');
    }
  }

  /**
   * `found` extends `acc`: `acc` is a prefix of it, and every element added is
   * a network `key` accepts that was not there before.
   */
  ghost predicate Extends(g: Graph, q: Query, acc: seq<NodeId>, found: seq<NodeId>)
  {
    && |acc| <= |found| && found[..|acc|] == acc
    && forall k :: |acc| <= k < |found| ==> found[k] in g.networks && Accepts(q, found[k]) && found[k] !in found[..k]
  }

  lemma ExtendsTrans(g: Graph, q: Query, a: seq<NodeId>, b: seq<NodeId>, c: seq<NodeId>)
    requires Extends(g, q, a, b) && Extends(g, q, b, c)
    ensures Extends(g, q, a, c)
  {
    assert c[..|a|] == c[..|b|][..|a|];
  }

  /** No element occurs twice. */
  ghost predicate Distinct(s: seq<NodeId>)
  {
    forall k, l :: 0 <= k < l < |s| ==> s[k] != s[l]
  }

  /** What a walk adds keeps a duplicate-free `inArray` duplicate-free. */
  lemma ExtendsDistinct(g: Graph, q: Query, acc: seq<NodeId>, found: seq<NodeId>)
    requires Extends(g, q, acc, found) && Distinct(acc)
    ensures Distinct(found)
  {
    forall k, l | 0 <= k < l < |found| ensures found[k] != found[l] {
      if l >= |acc| {
        assert found[k] in found[..l];
      } else {
        assert found[k] == acc[k] && found[l] == acc[l];
      }
    }
  }

  /**
   * A walk only appends to `inArray`, and appends networks `key` accepts that
   * are not in it yet, each reachable from one of the objects.
   */
  lemma {:induction false} VisitSound(g: Graph, q: Query, objs: seq<NodeId>, i: nat, acc: seq<NodeId>, fuel: nat)
    requires i <= |objs|
    ensures var r := Visit(g, q, objs, i, acc, fuel);
      && Extends(g, q, acc, r.found)
      && forall k :: |acc| <= k < |r.found| ==> exists l :: i <= l < |objs| && Reaches(g, objs[l], r.found[k])
    decreases fuel, 1, |objs| - i
  {
    if i < |objs| {
      var r := if objs[i] in g.outputs then VisitOutputs(g, q, g.outputs[objs[i]], 0, acc, fuel) else Walk(acc, false);
      if objs[i] in g.outputs {
        VisitOutputsSound(g, q, objs[i], 0, acc, fuel);
      }
      if !r.exhausted {
        VisitSound(g, q, objs, i + 1, r.found, fuel);
        var r' := Visit(g, q, objs, i + 1, r.found, fuel);
        ExtendsTrans(g, q, acc, r.found, r'.found);
        forall k | |acc| <= k < |r'.found| ensures exists l :: i <= l < |objs| && Reaches(g, objs[l], r'.found[k]) {
          if k < |r.found| {
            assert r'.found[k] == r.found[k];
          } else {
            var l :| i + 1 <= l < |objs| && Reaches(g, objs[l], r'.found[k]);
          }
        }
      }
    }
  }

  /** The same for the outputs of `x` from `j` on: everything added is reachable from `x`. */
  lemma {:induction false} VisitOutputsSound(g: Graph, q: Query, x: NodeId, j: nat, acc: seq<NodeId>, fuel: nat)
    requires x in g.outputs && j <= |g.outputs[x]|
    ensures var r := VisitOutputs(g, q, g.outputs[x], j, acc, fuel);
      && Extends(g, q, acc, r.found)
      && forall k :: |acc| <= k < |r.found| ==> Reaches(g, x, r.found[k])
    decreases fuel, 0, |g.outputs[x]| - j
  {
    var outs := g.outputs[x];
    if j < |outs| {
      var o := outs[j];
      if o !in g.networks || o in acc {
        VisitOutputsSound(g, q, x, j + 1, acc, fuel);
      } else {
        var acc1 := if Accepts(q, o) then acc + [o] else acc;
        assert Edge(g, x, o);
        AppendStep(g, q, x, acc, o);
        if !q.recursive {
          VisitOutputsSound(g, q, x, j + 1, acc1, fuel);
          Chain(g, q, x, acc, acc1, VisitOutputs(g, q, outs, j + 1, acc1, fuel).found);
        } else if fuel > 0 {
          VisitSound(g, q, [o], 0, acc1, fuel - 1);
          var r := Visit(g, q, [o], 0, acc1, fuel - 1);
          forall k | |acc1| <= k < |r.found| ensures Reaches(g, x, r.found[k]) {
            var l :| 0 <= l < 1 && Reaches(g, [o][l], r.found[k]);
            ReachesByEdge(g, x, o, r.found[k]);
          }
          Chain(g, q, x, acc, acc1, r.found);
          if !r.exhausted {
            VisitOutputsSound(g, q, x, j + 1, r.found, fuel);
            Chain(g, q, x, acc, r.found, VisitOutputs(g, q, outs, j + 1, r.found, fuel).found);
          }
        }
      }
    }
  }

  /** Appending an accepted network output of `x` extends `inArray` by a node reachable from `x`. */
  lemma AppendStep(g: Graph, q: Query, x: NodeId, acc: seq<NodeId>, o: NodeId)
    requires Edge(g, x, o) && o !in acc
    ensures var acc1 := if Accepts(q, o) then acc + [o] else acc;
      && Extends(g, q, acc, acc1)
      && forall k :: |acc| <= k < |acc1| ==> Reaches(g, x, acc1[k])
  {
    if Accepts(q, o) {
      var acc1 := acc + [o];
      assert acc1[..|acc|] == acc;
      ReachesByEdge(g, x, o, o);
    }
  }

  /** Two extensions whose additions are reachable from `x` compose into one. */
  lemma Chain(g: Graph, q: Query, x: NodeId, a: seq<NodeId>, b: seq<NodeId>, c: seq<NodeId>)
    requires Extends(g, q, a, b) && Extends(g, q, b, c)
    requires forall k :: |a| <= k < |b| ==> Reaches(g, x, b[k])
    requires forall k :: |b| <= k < |c| ==> Reaches(g, x, c[k])
    ensures Extends(g, q, a, c)
    ensures forall k :: |a| <= k < |c| ==> Reaches(g, x, c[k])
  {
    ExtendsTrans(g, q, a, b, c);
    forall k | |a| <= k < |c| ensures Reaches(g, x, c[k]) {
      if k < |b| {
        assert c[k] == c[..|b|][k];
      }
    }
  }

  /** The networks not yet in `acc`. */
  ghost function Unvisited(g: Graph, acc: seq<NodeId>): set<NodeId>
  {
    set n | n in g.networks && n !in acc
  }

  lemma UnvisitedShrinks(g: Graph, acc: seq<NodeId>, found: seq<NodeId>)
    requires |acc| <= |found| && found[..|acc|] == acc
    ensures Unvisited(g, found) <= Unvisited(g, acc)
    ensures |Unvisited(g, found)| <= |Unvisited(g, acc)|
  {
    forall n | n in acc ensures n in found {
      var k :| 0 <= k < |acc| && acc[k] == n;
      assert found[k] == n;
    }
    SubsetCard(Unvisited(g, found), Unvisited(g, acc));
  }

  lemma SubsetCard(a: set<NodeId>, b: set<NodeId>)
    requires a <= b
    ensures |a| <= |b|
  {
    assert b == a + (b - a);
  }

  /**
   * Without a key, the walk never runs out of fuel when the fuel covers the
   * networks not yet collected: a node is recursed into only once it has been
   * appended, so every level of the recursion has one network fewer to visit.
   */
  lemma {:induction false} VisitCompletes(g: Graph, q: Query, objs: seq<NodeId>, i: nat, acc: seq<NodeId>, fuel: nat)
    requires q.key.None? && i <= |objs|
    requires |Unvisited(g, acc)| <= fuel
    ensures !Visit(g, q, objs, i, acc, fuel).exhausted
    decreases fuel, 1, |objs| - i
  {
    if i < |objs| {
      var r := if objs[i] in g.outputs then VisitOutputs(g, q, g.outputs[objs[i]], 0, acc, fuel) else Walk(acc, false);
      if objs[i] in g.outputs {
        VisitOutputsCompletes(g, q, g.outputs[objs[i]], 0, acc, fuel);
        VisitOutputsSound(g, q, objs[i], 0, acc, fuel);
      }
      UnvisitedShrinks(g, acc, r.found);
      VisitCompletes(g, q, objs, i + 1, r.found, fuel);
    }
  }

  lemma {:induction false} VisitOutputsCompletes(g: Graph, q: Query, outs: seq<NodeId>, j: nat, acc: seq<NodeId>, fuel: nat)
    requires q.key.None? && j <= |outs|
    requires |Unvisited(g, acc)| <= fuel
    ensures !VisitOutputs(g, q, outs, j, acc, fuel).exhausted
    decreases fuel, 0, |outs| - j
  {
    if j < |outs| {
      var o := outs[j];
      if o !in g.networks || o in acc {
        VisitOutputsCompletes(g, q, outs, j + 1, acc, fuel);
      } else {
        var acc1 := acc + [o];
        assert Unvisited(g, acc1) == Unvisited(g, acc) - {o};
        assert o in Unvisited(g, acc);
        if q.recursive {
          VisitCompletes(g, q, [o], 0, acc1, fuel - 1);
          VisitSound(g, q, [o], 0, acc1, fuel - 1);
          var r := Visit(g, q, [o], 0, acc1, fuel - 1);
          UnvisitedShrinks(g, acc1, r.found);
          VisitOutputsCompletes(g, q, outs, j + 1, r.found, fuel);
        } else {
          VisitOutputsCompletes(g, q, outs, j + 1, acc1, fuel);
        }
      }
    }
  }

  /**
   * A call of getConnectedNetworks without a starting list returns a
   * duplicate-free list of networks `key` accepts, each reachable from one of
   * the objects; without a key it always finishes when the fuel covers the
   * networks of the scene.
   */
  lemma ConnectedNetworks(g: Graph, objs: seq<NodeId>, q: Query, fuel: nat)
    ensures var r := Visit(g, q, objs, 0, [], fuel);
      && Distinct(r.found)
      && (forall k :: 0 <= k < |r.found| ==>
            r.found[k] in g.networks && Accepts(q, r.found[k]) &&
            exists l :: 0 <= l < |objs| && Reaches(g, objs[l], r.found[k]))
      && (q.key.None? && |g.networks| <= fuel ==> !r.exhausted)
  {
    VisitSound(g, q, objs, 0, [], fuel);
    ExtendsDistinct(g, q, [], Visit(g, q, objs, 0, [], fuel).found);
    if q.key.None? && |g.networks| <= fuel {
      assert Unvisited(g, []) == g.networks;
      VisitCompletes(g, q, objs, 0, [], fuel);
    }
  }

  /**
   * A non-recursive walk only appends direct message outputs of the objects
   * (getConnectedNetworksByHierarchy's default).
   */
  lemma {:induction false} VisitShallow(g: Graph, q: Query, objs: seq<NodeId>, i: nat, acc: seq<NodeId>, fuel: nat)
    requires !q.recursive && i <= |objs|
    ensures var r := Visit(g, q, objs, i, acc, fuel);
      && !r.exhausted
      && forall k :: |acc| <= k < |r.found| ==> exists l :: i <= l < |objs| && Edge(g, objs[l], r.found[k])
    decreases |objs| - i
  {
    if i < |objs| {
      var r := if objs[i] in g.outputs then VisitOutputs(g, q, g.outputs[objs[i]], 0, acc, fuel) else Walk(acc, false);
      if objs[i] in g.outputs {
        VisitOutputsShallow(g, q, objs[i], 0, acc, fuel);
        VisitOutputsSound(g, q, objs[i], 0, acc, fuel);
      }
      VisitShallow(g, q, objs, i + 1, r.found, fuel);
      var r' := Visit(g, q, objs, i + 1, r.found, fuel);
      VisitSound(g, q, objs, i + 1, r.found, fuel);
      forall k | |acc| <= k < |r'.found| ensures exists l :: i <= l < |objs| && Edge(g, objs[l], r'.found[k]) {
        if k < |r.found| {
          assert r'.found[k] == r.found[k];
        } else {
          var l :| i + 1 <= l < |objs| && Edge(g, objs[l], r'.found[k]);
        }
      }
    }
  }

  lemma {:induction false} VisitOutputsShallow(g: Graph, q: Query, x: NodeId, j: nat, acc: seq<NodeId>, fuel: nat)
    requires !q.recursive && x in g.outputs && j <= |g.outputs[x]|
    ensures var r := VisitOutputs(g, q, g.outputs[x], j, acc, fuel);
      && !r.exhausted
      && |acc| <= |r.found| && r.found[..|acc|] == acc
      && forall k :: |acc| <= k < |r.found| ==> Edge(g, x, r.found[k])
    decreases |g.outputs[x]| - j
  {
    var outs := g.outputs[x];
    if j < |outs| {
      var o := outs[j];
      if o !in g.networks || o in acc {
        VisitOutputsShallow(g, q, x, j + 1, acc, fuel);
      } else {
        var acc1 := if Accepts(q, o) then acc + [o] else acc;
        VisitOutputsShallow(g, q, x, j + 1, acc1, fuel);
        var r := VisitOutputs(g, q, outs, j + 1, acc1, fuel);
        assert r.found[..|acc1|][..|acc|] == acc;
        forall k | |acc| <= k < |r.found| ensures Edge(g, x, r.found[k]) {
          if k < |acc1| {
            assert r.found[k] == acc1[k] == o;
          }
        }
      }
    }
  }

  /**
   * A non-recursive walk over the outputs of `x` from `j` on appends every
   * network output `key` accepts, unless it is already in `inArray`, and keeps
   * what `inArray` held.
   */
  lemma {:induction false} VisitOutputsShallowComplete(g: Graph, q: Query, x: NodeId, j: nat, acc: seq<NodeId>, fuel: nat)
    requires !q.recursive && x in g.outputs && j <= |g.outputs[x]|
    ensures var r := VisitOutputs(g, q, g.outputs[x], j, acc, fuel);
      && (forall n :: n in acc ==> n in r.found)
      && (forall l :: j <= l < |g.outputs[x]| && g.outputs[x][l] in g.networks && Accepts(q, g.outputs[x][l]) ==>
            g.outputs[x][l] in r.found)
    decreases |g.outputs[x]| - j
  {
    var outs := g.outputs[x];
    if j < |outs| {
      var o := outs[j];
      var acc1 := if o !in g.networks || o in acc then acc else if Accepts(q, o) then acc + [o] else acc;
      assert VisitOutputs(g, q, outs, j, acc, fuel) == VisitOutputs(g, q, outs, j + 1, acc1, fuel);
      VisitOutputsShallowComplete(g, q, x, j + 1, acc1, fuel);
      assert forall n :: n in acc ==> n in acc1;
    }
  }

  /**
   * A non-recursive walk appends every network `key` accepts that is a direct
   * message output of one of the objects, and keeps what `inArray` held.
   */
  lemma {:induction false} VisitShallowComplete(g: Graph, q: Query, objs: seq<NodeId>, i: nat, acc: seq<NodeId>, fuel: nat)
    requires !q.recursive && i <= |objs|
    ensures var r := Visit(g, q, objs, i, acc, fuel);
      && (forall n :: n in acc ==> n in r.found)
      && (forall l, b :: i <= l < |objs| && Edge(g, objs[l], b) && Accepts(q, b) ==> b in r.found)
    decreases |objs| - i
  {
    if i < |objs| {
      var x := objs[i];
      var r := if x in g.outputs then VisitOutputs(g, q, g.outputs[x], 0, acc, fuel) else Walk(acc, false);
      if x in g.outputs {
        VisitOutputsShallow(g, q, x, 0, acc, fuel);
        VisitOutputsShallowComplete(g, q, x, 0, acc, fuel);
      }
      VisitShallowComplete(g, q, objs, i + 1, r.found, fuel);
      forall b | Edge(g, x, b) && Accepts(q, b) ensures b in r.found {
        var l :| 0 <= l < |g.outputs[x]| && g.outputs[x][l] == b;
      }
    }
  }

  /**
   * getConnectedNetworks with `recursive=False` gives exactly the networks
   * `key` accepts among the direct message outputs of the objects, each once.
   */
  lemma ConnectedNetworksShallow(g: Graph, objs: seq<NodeId>, q: Query, fuel: nat)
    requires !q.recursive
    ensures var r := Visit(g, q, objs, 0, [], fuel);
      && !r.exhausted && Distinct(r.found)
      && forall b :: b in r.found <==> Accepts(q, b) && exists l :: 0 <= l < |objs| && Edge(g, objs[l], b)
  {
    var r := Visit(g, q, objs, 0, [], fuel);
    ConnectedNetworks(g, objs, q, fuel);
    VisitShallow(g, q, objs, 0, [], fuel);
    VisitShallowComplete(g, q, objs, 0, [], fuel);
    forall b | b in r.found ensures Accepts(q, b) && exists l :: 0 <= l < |objs| && Edge(g, objs[l], b) {
      var k :| 0 <= k < |r.found| && r.found[k] == b;
    }
  }

  /**
   * Every network reachable by message edges from `x` is in `s` when `s`
   * holds the network outputs of `x` and of each of its own members.
   */
  ghost predicate ClosedFrom(g: Graph, x: NodeId, s: seq<NodeId>)
  {
    && (forall b :: Edge(g, x, b) ==> b in s)
    && (forall a, b :: a in s && Edge(g, a, b) ==> b in s)
  }

  lemma ClosedReaches(g: Graph, x: NodeId, s: seq<NodeId>, m: NodeId)
    requires ClosedFrom(g, x, s) && Reaches(g, x, m)
    ensures m in s
  {
    var p :| PathFrom(g, x, p) && p[|p| - 1] == m;
    var k := 0;
    while k < |p| - 1
      invariant 0 <= k < |p| && p[k] in s
    {
      assert Edge(g, p[k], p[k + 1]);
      k := k + 1;
    }
  }

  /**
   * Without a key and with recursion, a walk that finishes leaves every
   * network output of the objects in `inArray`, and every network it appended
   * has its own network outputs in `inArray` too.
   */
  lemma {:induction false} VisitClosed(g: Graph, q: Query, objs: seq<NodeId>, i: nat, acc: seq<NodeId>, fuel: nat)
    requires q.key.None? && q.recursive && i <= |objs|
    requires !Visit(g, q, objs, i, acc, fuel).exhausted
    ensures var r := Visit(g, q, objs, i, acc, fuel);
      && (forall l, b :: i <= l < |objs| && Edge(g, objs[l], b) ==> b in r.found)
      && (forall k, b :: |acc| <= k < |r.found| && Edge(g, r.found[k], b) ==> b in r.found)
    decreases fuel, 1, |objs| - i
  {
    if i < |objs| {
      var r := if objs[i] in g.outputs then VisitOutputs(g, q, g.outputs[objs[i]], 0, acc, fuel) else Walk(acc, false);
      if objs[i] in g.outputs {
        VisitOutputsClosed(g, q, objs[i], 0, acc, fuel);
      }
      VisitSound(g, q, objs, i + 1, r.found, fuel);
      VisitClosed(g, q, objs, i + 1, r.found, fuel);
      var r' := Visit(g, q, objs, i + 1, r.found, fuel);
      KeptMembers(r.found, r'.found);
      forall k, b | |acc| <= k < |r'.found| && Edge(g, r'.found[k], b) ensures b in r'.found {
        if k < |r.found| {
          assert r'.found[k] == r.found[k];
        }
      }
    }
  }

  lemma {:induction false} VisitOutputsClosed(g: Graph, q: Query, x: NodeId, j: nat, acc: seq<NodeId>, fuel: nat)
    requires q.key.None? && q.recursive && x in g.outputs && j <= |g.outputs[x]|
    requires !VisitOutputs(g, q, g.outputs[x], j, acc, fuel).exhausted
    ensures var r := VisitOutputs(g, q, g.outputs[x], j, acc, fuel);
      && (forall l :: j <= l < |g.outputs[x]| && g.outputs[x][l] in g.networks ==> g.outputs[x][l] in r.found)
      && (forall k, b :: |acc| <= k < |r.found| && Edge(g, r.found[k], b) ==> b in r.found)
    decreases fuel, 0, |g.outputs[x]| - j
  {
    var outs := g.outputs[x];
    if j < |outs| {
      var o := outs[j];
      if o !in g.networks || o in acc {
        VisitOutputsClosed(g, q, x, j + 1, acc, fuel);
        VisitOutputsSound(g, q, x, j + 1, acc, fuel);
        KeptMembers(acc, VisitOutputs(g, q, outs, j + 1, acc, fuel).found);
      } else {
        var acc1 := acc + [o];
        var r := Visit(g, q, [o], 0, acc1, fuel - 1);
        VisitClosed(g, q, [o], 0, acc1, fuel - 1);
        VisitSound(g, q, [o], 0, acc1, fuel - 1);
        VisitOutputsClosed(g, q, x, j + 1, r.found, fuel);
        VisitOutputsSound(g, q, x, j + 1, r.found, fuel);
        var r' := VisitOutputs(g, q, outs, j + 1, r.found, fuel);
        KeptMembers(acc1, r.found);
        KeptMembers(r.found, r'.found);
        assert o in acc1;
        forall k, b | |acc| <= k < |r'.found| && Edge(g, r'.found[k], b) ensures b in r'.found {
          if k < |r.found| {
            assert r'.found[k] == r.found[k];
            if k == |acc| {
              assert r.found[k] == acc1[k] == o;
            }
          }
        }
      }
    }
  }

  /** Whatever a prefix holds, the whole sequence holds. */
  lemma KeptMembers(a: seq<NodeId>, b: seq<NodeId>)
    requires |a| <= |b| && b[..|a|] == a
    ensures forall n :: n in a ==> n in b
  {
    forall n | n in a ensures n in b {
      var k :| 0 <= k < |a| && a[k] == n;
      assert b[k] == n;
    }
  }

  /**
   * Without a key and with recursion, getConnectedNetworks from an empty list
   * collects every network reachable from the objects, given enough fuel.
   */
  lemma ConnectedNetworksComplete(g: Graph, objs: seq<NodeId>, q: Query, fuel: nat, l: nat, m: NodeId)
    requires q.key.None? && q.recursive && |g.networks| <= fuel
    requires l < |objs| && Reaches(g, objs[l], m)
    ensures m in Visit(g, q, objs, 0, [], fuel).found
  {
    ConnectedNetworks(g, objs, q, fuel);
    VisitClosed(g, q, objs, 0, [], fuel);
    ClosedReaches(g, objs[l], Visit(g, q, objs, 0, [], fuel).found, m);
  }

  // ---------------------------------------------------------------------
  // getConnectedNetworksByHierarchy

  /** A rank that drops from every node to its parent: the DAG has no cycle. */
  ghost predicate Ranked(g: Graph, rank: NodeId -> nat)
  {
    forall n :: n in g.parent ==> rank(g.parent[n]) < rank(n)
  }

  /** obj.getParent() on a DAG node: its parent, or None at the top of the hierarchy. */
  function ParentOf(g: Graph, n: NodeId): Option<NodeId>
  {
    if n in g.parent then Some(g.parent[n]) else None
  }

  /** The networks gathered, and whether a walk ran out of fuel. */
  datatype Gathered = Gathered(networks: set<NodeId>, exhausted: bool)

  function Elems(s: seq<NodeId>): set<NodeId>
  {
    set k | 0 <= k < |s| :: s[k]
  }

  /**
   * The loop of getConnectedNetworksByHierarchy from `obj` upward, with `acc`
   * the set gathered so far: each level adds what getConnectedNetworks finds
   * from that node alone.
   */
  ghost function Upward(g: Graph, q: Query, obj: Option<NodeId>, acc: set<NodeId>, fuel: nat, rank: NodeId -> nat): Result<Gathered>
    requires Ranked(g, rank)
    decreases if obj.None? then 0 else rank(obj.value) + 1
  {
    if obj.None? then Ok(Gathered(acc, false))
    else
      var w := Visit(g, q, [obj.value], 0, [], fuel);
      var acc' := acc + Elems(w.found);
      if w.exhausted then Ok(Gathered(acc', true))
      else if obj.value !in g.dag then Err(NotDagNode)
      else Upward(g, q, ParentOf(g, obj.value), acc', fuel, rank)
  }

  /**
   * getConnectedNetworksByHierarchy(obj, recursive, key): the union of the
   * networks connected to `obj` and to each of its ancestors. The result is
   * the set the source turns into a list; a node outside the DAG has no
   * `getParent` and raises once its own networks are gathered.
   */
  method GetConnectedNetworksByHierarchy(g: Graph, obj: Option<NodeId>, q: Query, fuel: nat, ghost rank: NodeId -> nat)
    returns (r: Result<Gathered>)
    requires Ranked(g, rank)
    ensures r == Upward(g, q, obj, {}, fuel, rank)
  {
    var networks: set<NodeId> := {};
    var cur := obj;
    while cur.Some?
      invariant Upward(g, q, cur, networks, fuel, rank) == Upward(g, q, obj, {}, fuel, rank)
      decreases if cur.None? then 0 else rank(cur.value) + 1
    {
      var w := GetConnectedNetworks(g, [cur.value], q, None, fuel);
      ghost var before := networks;
      var k := 0;
      while k < |w.found|
        invariant 0 <= k <= |w.found|
        invariant networks == before + Elems(w.found[..k])
      {
        assert w.found[..k + 1] == w.found[..k] + [w.found[k]];
        networks := networks + {w.found[k]};
        k := k + 1;
      }
      assert w.found[..|w.found|] == w.found;
      if w.exhausted {
        return Ok(Gathered(networks, true));
      }
      if cur.value !in g.dag {
        return Err(NotDagNode);
      }
      cur := ParentOf(g, cur.value);
    }
    r := Ok(Gathered(networks, false));
  }

  /** `a` is `obj` or one of its ancestors. */
  ghost predicate InChain(g: Graph, obj: Option<NodeId>, a: NodeId, rank: NodeId -> nat)
    requires Ranked(g, rank)
    decreases if obj.None? then 0 else rank(obj.value) + 1
  {
    obj.Some? && (obj.value == a || (obj.value in g.dag && InChain(g, ParentOf(g, obj.value), a, rank)))
  }

  /** `obj` and all its ancestors are DAG nodes: none of them lacks `getParent`. */
  ghost predicate ChainInDag(g: Graph, obj: Option<NodeId>, rank: NodeId -> nat)
    requires Ranked(g, rank)
    decreases if obj.None? then 0 else rank(obj.value) + 1
  {
    obj.None? || (obj.value in g.dag && ChainInDag(g, ParentOf(g, obj.value), rank))
  }

  /**
   * Everything gathered upward is a network `key` accepts, reachable from
   * `obj` or one of its ancestors, and a direct output of one of them when
   * the walk is not recursive. Without a key, when the fuel covers the
   * networks of the scene, no walk is cut short, and the gathering raises
   * exactly when it meets a node outside the DAG.
   */
  lemma {:induction false} UpwardSound(g: Graph, q: Query, obj: Option<NodeId>, acc: set<NodeId>, fuel: nat, rank: NodeId -> nat)
    requires Ranked(g, rank)
    ensures var r := Upward(g, q, obj, acc, fuel, rank);
      && (r.Err? ==> r.error == NotDagNode && !ChainInDag(g, obj, rank))
      && (r.Ok? ==> acc <= r.value.networks)
      && (r.Ok? ==> forall n :: n in r.value.networks && n !in acc ==>
            && n in g.networks && Accepts(q, n)
            && exists a :: InChain(g, obj, a, rank) && Reaches(g, a, n) && (!q.recursive ==> Edge(g, a, n)))
      && (q.key.None? && |g.networks| <= fuel ==> (r.Ok? <==> ChainInDag(g, obj, rank)) && (r.Ok? ==> !r.value.exhausted))
    decreases if obj.None? then 0 else rank(obj.value) + 1
  {
    if obj.Some? {
      var x := obj.value;
      var w := Visit(g, q, [x], 0, [], fuel);
      ConnectedNetworks(g, [x], q, fuel);
      if !q.recursive {
        VisitShallow(g, q, [x], 0, [], fuel);
      }
      var acc' := acc + Elems(w.found);
      forall n | n in Elems(w.found) && n !in acc
        ensures n in g.networks && Accepts(q, n)
        ensures exists a :: InChain(g, obj, a, rank) && Reaches(g, a, n) && (!q.recursive ==> Edge(g, a, n))
      {
        var k :| 0 <= k < |w.found| && w.found[k] == n;
        assert InChain(g, obj, x, rank);
        if !q.recursive {
          assert Edge(g, x, n);
          ReachesByEdge(g, x, n, n);
        }
      }
      if !w.exhausted && x in g.dag {
        var p := ParentOf(g, x);
        UpwardSound(g, q, p, acc', fuel, rank);
        forall a: NodeId | InChain(g, p, a, rank) ensures InChain(g, obj, a, rank) {
        }
      }
    }
  }

  /**
   * Whatever getConnectedNetworks finds from `obj` or from any of its
   * ancestors is gathered, unless a walk ran out of fuel; a non-recursive
   * walk never does.
   */
  lemma {:induction false} UpwardComplete(g: Graph, q: Query, obj: Option<NodeId>, acc: set<NodeId>, fuel: nat, rank: NodeId -> nat)
    requires Ranked(g, rank)
    ensures var r := Upward(g, q, obj, acc, fuel, rank);
      && (!q.recursive && r.Ok? ==> !r.value.exhausted)
      && (r.Ok? && !r.value.exhausted ==>
            forall a :: InChain(g, obj, a, rank) ==> Elems(Visit(g, q, [a], 0, [], fuel).found) <= r.value.networks)
    decreases if obj.None? then 0 else rank(obj.value) + 1
  {
    if obj.Some? {
      var x := obj.value;
      var w := Visit(g, q, [x], 0, [], fuel);
      var acc' := acc + Elems(w.found);
      if !q.recursive {
        VisitShallow(g, q, [x], 0, [], fuel);
      }
      if !w.exhausted && x in g.dag {
        var p := ParentOf(g, x);
        assert Upward(g, q, obj, acc, fuel, rank) == Upward(g, q, p, acc', fuel, rank);
        UpwardComplete(g, q, p, acc', fuel, rank);
        UpwardSound(g, q, p, acc', fuel, rank);
      }
    }
  }

  /**
   * getConnectedNetworksByHierarchy with its default `recursive=False`:
   * when it does not raise, it gathers exactly the networks `key` accepts
   * among the direct message outputs of `obj` and of its ancestors.
   */
  lemma UpwardShallow(g: Graph, q: Query, obj: Option<NodeId>, fuel: nat, rank: NodeId -> nat)
    requires Ranked(g, rank) && !q.recursive
    ensures var r := Upward(g, q, obj, {}, fuel, rank);
      r.Ok? ==>
        && !r.value.exhausted
        && forall n :: n in r.value.networks <==> Accepts(q, n) && exists a :: InChain(g, obj, a, rank) && Edge(g, a, n)
  {
    var r := Upward(g, q, obj, {}, fuel, rank);
    UpwardSound(g, q, obj, {}, fuel, rank);
    UpwardComplete(g, q, obj, {}, fuel, rank);
    if r.Ok? {
      forall n | Accepts(q, n) && exists a :: InChain(g, obj, a, rank) && Edge(g, a, n)
        ensures n in r.value.networks
      {
        var a :| InChain(g, obj, a, rank) && Edge(g, a, n);
        ConnectedNetworksShallow(g, [a], q, fuel);
        var found := Visit(g, q, [a], 0, [], fuel).found;
        assert Edge(g, [a][0], n);
        var k :| 0 <= k < |found| && found[k] == n;
        assert n in Elems(found);
      }
    }
  }
}
