/** A LAN party map: computers joined by two-way links. The model finds every group of
    three mutually linked computers, counts the ones with a computer whose name starts with
    't', finds a largest group of mutually linked computers with the Bron-Kerbosch algorithm,
    and writes its password: the sorted names joined by commas. */
module LanParty {

  import opened StringOrder

  /** Each computer's set of linked computers (a defaultdict of sets). */
  type Network = map<Name, set<Name>>
  type Triple = (Name, Name, Name)

  // The order on names and sorted() come from StringOrder.

  // ---- Sorted triples ----

  predicate Ordered(t: Triple)
  {
    NameLe(t.0, t.1) && NameLe(t.1, t.2)
  }

  function Members(t: Triple): multiset<Name>
  {
    multiset{t.0, t.1, t.2}
  }

  /** tuple(sorted([a, b, c])). */
  function Sort3(a: Name, b: Name, c: Name): Triple
  {
    var (x, y) := if NameLe(a, b) then (a, b) else (b, a);
    if NameLe(y, c) then (x, y, c)
    else if NameLe(x, c) then (x, c, y)
    else (c, x, y)
  }

  /** Sorting three names puts them in ascending order and keeps the same names. */
  lemma Sort3Sorts(a: Name, b: Name, c: Name)
    ensures Ordered(Sort3(a, b, c)) && Members(Sort3(a, b, c)) == multiset{a, b, c}
  {
    NameLeTotal(a, b);
    var (x, y) := if NameLe(a, b) then (a, b) else (b, a);
    assert NameLe(x, y) && multiset{x, y} == multiset{a, b};
    Sort3Tail(x, y, c);
  }

  lemma Sort3Tail(x: Name, y: Name, c: Name)
    requires NameLe(x, y)
    ensures var t := if NameLe(y, c) then (x, y, c) else if NameLe(x, c) then (x, c, y) else (c, x, y);
      Ordered(t) && Members(t) == multiset{x, y, c}
  {
    NameLeTotal(y, c);
    NameLeTotal(x, c);
  }

  /** The first entry of a sorted triple is its least member. */
  lemma FirstIsLeast(t: Triple, y: Name)
    requires Ordered(t) && y in Members(t)
    ensures NameLe(t.0, y)
  {
    if y == t.0 {
      NameLeReflexive(y);
    } else if y == t.2 {
      NameLeTransitive(t.0, t.1, t.2);
    }
  }

  /** Two sorted pairs with the same members are equal. */
  lemma PairUnique(p: Name, q: Name, p': Name, q': Name)
    requires NameLe(p, q) && NameLe(p', q') && multiset{p, q} == multiset{p', q'}
    ensures p == p' && q == q'
  {
    assert p in multiset{p', q'} && p' in multiset{p, q};
    if p != p' {
      assert p == q' && p' == q;
      NameLeAntisymmetric(p, q);
    }
    assert multiset{q} == multiset{p, q} - multiset{p} == multiset{p', q'} - multiset{p'} == multiset{q'};
  }

  /** A sorted triple is determined by its members: however a group of three is found, it
      has one sorted form. */
  lemma OrderedUnique(t: Triple, t': Triple)
    requires Ordered(t) && Ordered(t') && Members(t) == Members(t')
    ensures t == t'
  {
    FirstsEqual(t, t');
    RestEqual(t, t');
    PairUnique(t.1, t.2, t'.1, t'.2);
  }

  lemma FirstsEqual(t: Triple, t': Triple)
    requires Ordered(t) && Ordered(t') && Members(t) == Members(t')
    ensures t.0 == t'.0
  {
    assert t.0 in Members(t') && t'.0 in Members(t);
    FirstIsLeast(t', t.0);
    FirstIsLeast(t, t'.0);
    NameLeAntisymmetric(t.0, t'.0);
  }

  lemma RestEqual(t: Triple, t': Triple)
    requires Members(t) == Members(t') && t.0 == t'.0
    ensures multiset{t.1, t.2} == multiset{t'.1, t'.2}
  {
    assert multiset{t.1, t.2} == Members(t) - multiset{t.0};
    assert multiset{t'.1, t'.2} == Members(t') - multiset{t'.0};
  }

  // ---- Building the network from the connection lines ----

  function Neighbours(c: Network, a: Name): set<Name>
  {
    if a in c then c[a] else {}
  }

  /** The two set additions one line "a-b" makes. */
  function Link(c: Network, a: Name, b: Name): Network
  {
    var c' := c[a := Neighbours(c, a) + {b}];
    c'[b := Neighbours(c', b) + {a}]
  }

  function Connect(pairs: seq<(Name, Name)>): Network
  {
    if pairs == [] then map[]
    else
      var (a, b) := pairs[|pairs| - 1];
      Link(Connect(pairs[..|pairs| - 1]), a, b)
  }

  function Endpoints(pairs: seq<(Name, Name)>): set<Name>
  {
    (set p | p in pairs :: p.0) + (set p | p in pairs :: p.1)
  }

  /** The network holds exactly the named computers, and b is linked to a exactly when some
      line joins a and b in either order. */
  lemma {:induction false} ConnectExact(pairs: seq<(Name, Name)>)
    ensures forall a :: a in Connect(pairs) <==> a in Endpoints(pairs)
    ensures forall a, b :: b in Neighbours(Connect(pairs), a) <==> (a, b) in pairs || (b, a) in pairs
  {
    if pairs != [] {
      var init, last := pairs[..|pairs| - 1], pairs[|pairs| - 1];
      ConnectExact(init);
      assert pairs == init + [last];
      forall p ensures p in pairs <==> p in init || p == last {
      }
    }
  }

  /** do_problem's loop over the lines: adds b to a's set and a to b's set. */
  method BuildConnections(pairs: seq<(Name, Name)>) returns (connections: Network)
    ensures connections == Connect(pairs)
  {
    connections := map[];
    for i := 0 to |pairs|
      invariant connections == Connect(pairs[..i])
    {
      assert pairs[..i + 1][..i] == pairs[..i];
      var (a, b) := pairs[i];
      connections := connections[a := Neighbours(connections, a) + {b}];
      connections := connections[b := Neighbours(connections, b) + {a}];
    }
    assert pairs[..|pairs|] == pairs;
  }

  predicate Adjacent(c: Network, u: Name, w: Name)
  {
    u in c && w in c[u]
  }

  /** Every link goes both ways. */
  ghost predicate Undirected(c: Network)
  {
    forall u, w :: Adjacent(c, u, w) ==> Adjacent(c, w, u)
  }

  /** No computer is linked to itself. */
  predicate Loopless(c: Network)
  {
    forall u :: u in c ==> u !in c[u]
  }

  ghost predicate WellFormed(c: Network)
  {
    Undirected(c) && Loopless(c)
  }

  /** Adjacency is symmetric, and lines joining two different names make no self-links. */
  lemma ConnectWellFormed(pairs: seq<(Name, Name)>)
    requires forall p :: p in pairs ==> p.0 != p.1
    ensures WellFormed(Connect(pairs))
  {
    ConnectExact(pairs);
    var c := Connect(pairs);
    forall u, w | Adjacent(c, u, w) ensures Adjacent(c, w, u) {
      assert w in Neighbours(c, u);
      assert u in Neighbours(c, w);
    }
    forall u | u in c ensures u !in c[u] {
      assert u in Neighbours(c, u) ==> (u, u) in pairs;
    }
  }

  // ---- Groups of three ----

  /** The set find_networks_of_three builds: for a in the network, b linked to a and c linked
      to b, the sorted triple whenever c is also linked to a. */
  function NetworksOfThree(c: Network): set<Triple>
  {
    set a, b, x | a in c && b in c[a] && b in c && x in c[b] && x in c[a] :: Sort3(a, b, x)
  }

  function TrianglesOver(c: Network, starts: set<Name>): set<Triple>
  {
    set a, b, x | a in starts && a in c && b in c[a] && b in c && x in c[b] && x in c[a] :: Sort3(a, b, x)
  }

  function TrianglesFrom(c: Network, a: Name, bs: set<Name>): set<Triple>
    requires a in c
  {
    set b, x | b in bs && b in c && x in c[b] && x in c[a] :: Sort3(a, b, x)
  }

  function TrianglesVia(c: Network, a: Name, b: Name, xs: set<Name>): set<Triple>
    requires a in c
  {
    set x | x in xs && x in c[a] :: Sort3(a, b, x)
  }

  lemma TrianglesOverStep(c: Network, starts: set<Name>, a: Name)
    requires a in c
    ensures TrianglesOver(c, starts + {a}) == TrianglesOver(c, starts) + TrianglesFrom(c, a, c[a])
  {
    var lhs, old', new' := TrianglesOver(c, starts + {a}), TrianglesOver(c, starts), TrianglesFrom(c, a, c[a]);
    forall t | t in lhs ensures t in old' || t in new' {
      var a', b, x :| a' in starts + {a} && a' in c && b in c[a'] && b in c && x in c[b] && x in c[a'] && t == Sort3(a', b, x);
      if a' != a {
        assert t in old';
      }
    }
    forall t | t in new' ensures t in lhs {
      var b, x :| b in c[a] && b in c && x in c[b] && x in c[a] && t == Sort3(a, b, x);
    }
  }

  lemma TrianglesFromStep(c: Network, a: Name, bs: set<Name>, b: Name)
    requires a in c && b in c
    ensures TrianglesFrom(c, a, bs + {b}) == TrianglesFrom(c, a, bs) + TrianglesVia(c, a, b, c[b])
  {
  }

  lemma TrianglesViaStep(c: Network, a: Name, b: Name, xs: set<Name>, x: Name)
    requires a in c
    ensures TrianglesVia(c, a, b, xs + {x}) == TrianglesVia(c, a, b, xs) + (if x in c[a] then {Sort3(a, b, x)} else {})
  {
  }

  /** The innermost loop of find_networks_of_three: for each c linked to b, adds the sorted
      triple when c is also linked to a. */
  method AddTrianglesVia(connections: Network, computerA: Name, computerB: Name, nets: set<Triple>)
    returns (allNetworksOfThree: set<Triple>)
    requires computerA in connections && computerB in connections
    ensures allNetworksOfThree == nets + TrianglesVia(connections, computerA, computerB, connections[computerB])
  {
    allNetworksOfThree := nets;
    var doneC: set<Name> := {};
    var todoC := connections[computerB];
    while todoC != {}
      invariant todoC <= connections[computerB] && doneC == connections[computerB] - todoC
      invariant allNetworksOfThree == nets + TrianglesVia(connections, computerA, computerB, doneC)
      decreases |todoC|
    {
      var computerC :| computerC in todoC;
      TrianglesViaStep(connections, computerA, computerB, doneC, computerC);
      if computerC in connections[computerA] {
        allNetworksOfThree := allNetworksOfThree + {Sort3(computerA, computerB, computerC)};
      }
      doneC := doneC + {computerC};
      todoC := todoC - {computerC};
    }
    assert doneC == connections[computerB];
  }

  /** The middle loop: every b linked to a, each with the innermost loop. */
  method AddTrianglesFrom(connections: Network, computerA: Name, nets: set<Triple>)
    returns (allNetworksOfThree: set<Triple>)
    requires Undirected(connections) && computerA in connections
    ensures allNetworksOfThree == nets + TrianglesFrom(connections, computerA, connections[computerA])
  {
    allNetworksOfThree := nets;
    var doneB: set<Name> := {};
    var todoB := connections[computerA];
    while todoB != {}
      invariant todoB <= connections[computerA] && doneB == connections[computerA] - todoB
      invariant allNetworksOfThree == nets + TrianglesFrom(connections, computerA, doneB)
      decreases |todoB|
    {
      var computerB :| computerB in todoB;
      assert Adjacent(connections, computerA, computerB);
      allNetworksOfThree := AddTrianglesVia(connections, computerA, computerB, allNetworksOfThree);
      TrianglesFromStep(connections, computerA, doneB, computerB);
      doneB := doneB + {computerB};
      todoB := todoB - {computerB};
    }
    assert doneB == connections[computerA];
  }

  /** find_networks_of_three: the outer loop over every computer in the network. */
  method FindNetworksOfThree(connections: Network) returns (allNetworksOfThree: set<Triple>)
    requires Undirected(connections)
    ensures allNetworksOfThree == NetworksOfThree(connections)
  {
    allNetworksOfThree := {};
    var doneA: set<Name> := {};
    var todoA := connections.Keys;
    while todoA != {}
      invariant todoA <= connections.Keys && doneA == connections.Keys - todoA
      invariant allNetworksOfThree == TrianglesOver(connections, doneA)
      decreases |todoA|
    {
      var computerA :| computerA in todoA;
      allNetworksOfThree := AddTrianglesFrom(connections, computerA, allNetworksOfThree);
      TrianglesOverStep(connections, doneA, computerA);
      doneA := doneA + {computerA};
      todoA := todoA - {computerA};
    }
    assert doneA == connections.Keys;
    assert TrianglesOver(connections, doneA) == NetworksOfThree(connections);
  }

  /** The three members are linked pairwise. */
  predicate Triangle(c: Network, t: Triple)
  {
    Adjacent(c, t.0, t.1) && Adjacent(c, t.1, t.2) && Adjacent(c, t.0, t.2)
  }

  /** Sort3 only rearranges its arguments. */
  lemma Sort3Permutes(a: Name, b: Name, x: Name)
    ensures var r := Sort3(a, b, x);
      r == (a, b, x) || r == (a, x, b) || r == (b, a, x) || r == (b, x, a) || r == (x, a, b) || r == (x, b, a)
  {
  }

  /** A triple is found exactly when it is sorted and its members are linked pairwise; its
      members are then three different computers in strictly ascending order. */
  lemma NetworksOfThreeExact(c: Network, t: Triple)
    requires WellFormed(c)
    ensures t in NetworksOfThree(c) <==> Ordered(t) && Triangle(c, t)
    ensures t in NetworksOfThree(c) ==> NameLt(t.0, t.1) && NameLt(t.1, t.2)
  {
    if t in NetworksOfThree(c) {
      var a, b, x :| a in c && b in c[a] && b in c && x in c[b] && x in c[a] && t == Sort3(a, b, x);
      Sort3Permutes(a, b, x);
      Sort3Sorts(a, b, x);
      assert Adjacent(c, b, a) && Adjacent(c, x, b) && Adjacent(c, x, a);
    }
    if Ordered(t) && Triangle(c, t) {
      assert Adjacent(c, t.1, t.0);
      var (a, b, x) := t;
      assert a in c && b in c[a] && b in c && x in c[b] && x in c[a];
      assert t == Sort3(a, b, x);
      assert t in NetworksOfThree(c);
    }
  }

  /** Each group of three linked computers appears once: its sorted form is found, and no other
      triple with the same members is. */
  lemma EachTriangleOnce(c: Network, a: Name, b: Name, x: Name)
    requires WellFormed(c) && Triangle(c, (a, b, x))
    ensures Sort3(a, b, x) in NetworksOfThree(c)
    ensures forall t :: t in NetworksOfThree(c) && Members(t) == multiset{a, b, x} ==> t == Sort3(a, b, x)
  {
    var s := Sort3(a, b, x);
    Sort3Permutes(a, b, x);
    assert Adjacent(c, b, a) && Adjacent(c, x, b) && Adjacent(c, x, a);
    NetworksOfThreeExact(c, s);
    forall t | t in NetworksOfThree(c) && Members(t) == multiset{a, b, x} ensures t == s {
      NetworksOfThreeExact(c, t);
      OrderedUnique(t, s);
    }
  }

  // ---- Part one: groups with a possible chief historian ----

  predicate StartsWithT(name: Name)
  {
    |name| > 0 && name[0] == 't'
  }

  predicate IncludesHistorian(t: Triple)
  {
    StartsWithT(t.0) || StartsWithT(t.1) || StartsWithT(t.2)
  }

  function HistorianNetworks(nets: set<Triple>): set<Triple>
  {
    set t | t in nets && IncludesHistorian(t)
  }

  /** The sum in do_problem: one for every triple with a name starting with 't'. */
  method CountHistorianNetworks(nets: set<Triple>) returns (count: nat)
    ensures count == |HistorianNetworks(nets)|
  {
    count := 0;
    var done: set<Triple> := {};
    var todo := nets;
    while todo != {}
      invariant todo <= nets && done == nets - todo
      invariant count == |HistorianNetworks(done)|
      decreases |todo|
    {
      var network :| network in todo;
      assert HistorianNetworks(done + {network})
        == HistorianNetworks(done) + (if IncludesHistorian(network) then {network} else {});
      if IncludesHistorian(network) {
        count := count + 1;
      }
      done := done + {network};
      todo := todo - {network};
    }
    assert done == nets;
  }

  lemma {:induction false} SubsetCard<T>(a: set<T>, b: set<T>)
    requires a <= b
    ensures |a| <= |b|
    ensures |a| == |b| ==> a == b
    decreases |b|
  {
    if b != {} {
      var x :| x in b;
      SubsetCard(a - {x}, b - {x});
      if x in a {
        assert a == (a - {x}) + {x};
        assert b == (b - {x}) + {x};
      } else {
        assert a - {x} == a;
      }
    }
  }

  /** The count never exceeds the number of groups, and reaches it exactly when every group
      has a name starting with 't'. */
  lemma HistorianCountBound(nets: set<Triple>)
    ensures |HistorianNetworks(nets)| <= |nets|
    ensures |HistorianNetworks(nets)| == |nets| <==> forall t :: t in nets ==> IncludesHistorian(t)
  {
    SubsetCard(HistorianNetworks(nets), nets);
    if forall t :: t in nets ==> IncludesHistorian(t) {
      assert HistorianNetworks(nets) == nets;
    }
  }

  // ---- Part two: a largest group of linked computers ----

  predicate Clique(c: Network, r: set<Name>)
  {
    forall u, w :: u in r && w in r && u != w ==> Adjacent(c, u, w)
  }

  /** v could join r: a computer outside r linked to every member of r. */
  predicate Extends(c: Network, r: set<Name>, v: Name)
  {
    v in c && v !in r && forall u :: u in r ==> Adjacent(c, u, v)
  }

  ghost predicate MaximalClique(c: Network, r: set<Name>)
  {
    r <= c.Keys && Clique(c, r) && forall v :: !Extends(c, r, v)
  }

  /** The state Bron-Kerbosch keeps: R is a group, P and X hold exactly the computers that could
      join it, P those still to try and X those already tried. */
  ghost predicate Candidates(c: Network, R: set<Name>, P: set<Name>, X: set<Name>)
  {
    && R <= c.Keys && Clique(c, R)
    && (forall v :: v in P ==> Extends(c, R, v))
    && (forall v :: v in X ==> Extends(c, R, v))
    && (forall v :: Extends(c, R, v) ==> v in P || v in X)
  }

  /** Adding a candidate v keeps the state: the candidates of R + {v} are those of R linked to v. */
  lemma CandidatesStep(c: Network, R: set<Name>, P: set<Name>, X: set<Name>, v: Name)
    requires WellFormed(c) && Candidates(c, R, P, X) && v in P
    ensures Candidates(c, R + {v}, P * c[v], X * c[v])
  {
    var R' := R + {v};
    forall u, w | u in R' && w in R' && u != w ensures Adjacent(c, u, w) {
      if u == v {
        assert Adjacent(c, w, v);
      }
    }
    forall u | Extends(c, R', u) ensures u in P * c[v] || u in X * c[v] {
      assert Extends(c, R, u);
      assert Adjacent(c, v, u);
    }
  }

  /** A maximal group still waiting when v is tried either contains v, and then lies within
      what the recursive call on R + {v} covers, or stays waiting once v moves to X. */
  lemma PendingSplit(c: Network, R: set<Name>, p: set<Name>, x: set<Name>, v: Name, K: set<Name>)
    requires WellFormed(c) && Candidates(c, R, p, x) && v in p
    requires MaximalClique(c, K) && R <= K && K <= R + p && K * x == {}
    ensures v in K ==> R + {v} <= K && K <= R + {v} + p * c[v] && K * (x * c[v]) == {}
    ensures v !in K ==> K <= R + (p - {v}) && K * (x + {v}) == {}
  {
    if v in K {
      forall w | w in K ensures w in R + {v} + p * c[v] {
        if w !in R && w != v {
          assert Adjacent(c, v, w);
        }
      }
    }
  }

  /** Once P is spent, no maximal group can still be waiting: a candidate left in X would
      extend it. */
  lemma NothingPending(c: Network, R: set<Name>, x: set<Name>, K: set<Name>)
    requires Candidates(c, R, {}, x) && x != {} && MaximalClique(c, K) && R <= K
    ensures !(K <= R)
  {
    var u :| u in x;
    assert Extends(c, R, u) && !Extends(c, K, u);
  }

  /** What bron_kerbosch's loop keeps: p is what is left of P and v's moved from P to X; the
      groups found so far are maximal and between R and R + P; every maximal group between R
      and R + P avoiding X is found already or still waiting, within R + p and avoiding x. */
  ghost predicate Progress(c: Network, R: set<Name>, P: set<Name>, X: set<Name>, p: set<Name>, x: set<Name>,
                           cliques: seq<set<Name>>)
  {
    && p <= P && p + x == P + X && Candidates(c, R, p, x)
    && (forall K :: K in cliques ==> MaximalClique(c, K) && R <= K <= R + P)
    && (forall K :: MaximalClique(c, K) && R <= K <= R + P && K * X == {} ==>
          K in cliques || (K <= R + p && K * x == {}))
  }

  /** One turn of the loop: appending the groups of the recursive call on v and moving v from
      P to X keeps the progress. */
  lemma LoopStep(c: Network, R: set<Name>, P: set<Name>, X: set<Name>, p: set<Name>, x: set<Name>, v: Name,
                 cliques: seq<set<Name>>, sub: seq<set<Name>>)
    requires WellFormed(c) && Progress(c, R, P, X, p, x, cliques) && v in p
    requires forall K :: K in sub ==> MaximalClique(c, K) && R + {v} <= K <= R + {v} + p * c[v]
    requires forall K :: MaximalClique(c, K) && R + {v} <= K <= R + {v} + p * c[v] && K * (x * c[v]) == {} ==> K in sub
    ensures Progress(c, R, P, X, p - {v}, x + {v}, cliques + sub)
  {
    forall K | K in cliques + sub ensures MaximalClique(c, K) && R <= K <= R + P {
      if K !in cliques {
        assert K in sub;
      }
    }
    forall K | MaximalClique(c, K) && R <= K <= R + P && K * X == {}
      ensures K in cliques + sub || (K <= R + (p - {v}) && K * (x + {v}) == {})
    {
      if K !in cliques {
        PendingSplit(c, R, p, x, v, K);
      }
    }
  }

  /** When P is spent, everything waiting has been found. */
  lemma LoopDone(c: Network, R: set<Name>, P: set<Name>, X: set<Name>, x: set<Name>, cliques: seq<set<Name>>)
    requires Progress(c, R, P, X, {}, x, cliques) && (P != {} || X != {})
    ensures forall K :: K in cliques ==> MaximalClique(c, K) && R <= K <= R + P
    ensures forall K :: MaximalClique(c, K) && R <= K <= R + P && K * X == {} ==> K in cliques
  {
    forall K | MaximalClique(c, K) && R <= K <= R + P && K * X == {} ensures K in cliques {
      NothingPending(c, R, x, K);
    }
  }

  /** bron_kerbosch: returns [R] when P and X are empty; otherwise tries each v of P in turn,
      recursing on R + {v} with P and X cut down to v's neighbours, then moves v from P to X.
      Every group returned is a maximal group between R and R + P, and every maximal group
      between R and R + P that avoids X is returned. */
  method BronKerbosch(c: Network, R: set<Name>, P: set<Name>, X: set<Name>) returns (cliques: seq<set<Name>>)
    requires WellFormed(c) && Candidates(c, R, P, X)
    ensures forall K :: K in cliques ==> MaximalClique(c, K) && R <= K <= R + P
    ensures forall K :: MaximalClique(c, K) && R <= K <= R + P && K * X == {} ==> K in cliques
    decreases |P|
  {
    if P == {} && X == {} {
      forall K | MaximalClique(c, K) && R <= K <= R + P ensures K in [R] {
        assert K == R;
      }
      return [R];
    }
    cliques := [];
    var p, x := P, X;
    while p != {}
      invariant Progress(c, R, P, X, p, x, cliques)
      decreases |p|
    {
      var v :| v in p;
      CandidatesStep(c, R, p, x, v);
      SubsetCard(p * c[v], P - {v});
      var sub := BronKerbosch(c, R + {v}, p * c[v], x * c[v]);
      LoopStep(c, R, P, X, p, x, v, cliques, sub);
      cliques := cliques + sub;
      p := p - {v};
      x := x + {v};
    }
    LoopDone(c, R, P, X, x, cliques);
  }

  /** Any group grows, one linked computer at a time, into a maximal one. */
  lemma {:induction false} ExtendToMaximal(c: Network, K: set<Name>) returns (M: set<Name>)
    requires Undirected(c) && K <= c.Keys && Clique(c, K)
    ensures MaximalClique(c, M) && K <= M
    decreases |c.Keys - K|
  {
    if forall v :: !Extends(c, K, v) {
      M := K;
    } else {
      var v :| Extends(c, K, v);
      forall u, w | u in K + {v} && w in K + {v} && u != w ensures Adjacent(c, u, w) {
        if u == v {
          assert Adjacent(c, w, v);
        }
      }
      assert c.Keys - (K + {v}) == (c.Keys - K) - {v};
      M := ExtendToMaximal(c, K + {v});
    }
  }

  /** max(cliques, key=len): the first group of greatest size. */
  function LongestIndex(cliques: seq<set<Name>>): (i: nat)
    requires |cliques| > 0
    ensures i < |cliques|
    ensures forall j :: 0 <= j < |cliques| ==> |cliques[j]| <= |cliques[i]|
    ensures forall j :: 0 <= j < i ==> |cliques[j]| < |cliques[i]|
  {
    if |cliques| == 1 then 0
    else
      var k := LongestIndex(cliques[..|cliques| - 1]);
      if |cliques[|cliques| - 1]| > |cliques[k]| then |cliques| - 1 else k
  }

  /** find_largest_graph_clique: runs Bron-Kerbosch from no computers chosen, every computer a
      candidate and none excluded, and keeps the longest group. The list is never empty, and
      the group kept is maximal and at least as large as any group of linked computers. */
  method FindLargestGraphClique(connections: Network) returns (largest: set<Name>)
    requires WellFormed(connections)
    ensures MaximalClique(connections, largest)
    ensures forall K :: K <= connections.Keys && Clique(connections, K) ==> |K| <= |largest|
  {
    var cliques := BronKerbosch(connections, {}, connections.Keys, {});
    ghost var some := ExtendToMaximal(connections, {});
    assert some in cliques;
    largest := cliques[LongestIndex(cliques)];
    forall K | K <= connections.Keys && Clique(connections, K) ensures |K| <= |largest| {
      var M := ExtendToMaximal(connections, K);
      SubsetCard(K, M);
      assert M in cliques;
    }
  }

  /** ",".join(names). */
  function JoinNames(names: seq<Name>): string
  {
    if names == [] then ""
    else if |names| == 1 then names[0]
    else names[0] + "," + JoinNames(names[1..])
  }

  function IndexOfComma(s: string): (i: nat)
    requires ',' in s
    ensures i < |s| && s[i] == ',' && ',' !in s[..i]
  {
    if s[0] == ',' then 0
    else
      assert ',' in s[1..];
      var k := IndexOfComma(s[1..]);
      assert s[..k + 1] == [s[0]] + s[1..][..k];
      k + 1
  }

  /** s.split(","). */
  function SplitOnComma(s: string): seq<string>
    decreases |s|
  {
    if ',' !in s then [s]
    else
      var i := IndexOfComma(s);
      [s[..i]] + SplitOnComma(s[i + 1..])
  }

  /** The first comma after a comma-free name is the one that follows it. */
  lemma {:induction false} CommaAfterName(h: string, rest: string)
    requires ',' !in h
    ensures ',' in h + "," + rest && IndexOfComma(h + "," + rest) == |h|
    decreases |h|
  {
    var s := h + "," + rest;
    assert s[|h|] == ',';
    if h != [] {
      assert s[1..] == h[1..] + "," + rest;
      CommaAfterName(h[1..], rest);
    }
  }

  /** Splitting the password at commas gives the names back, when no name holds a comma. */
  lemma {:induction false} SplitJoin(names: seq<Name>)
    requires |names| > 0 && forall n :: n in names ==> ',' !in n
    ensures SplitOnComma(JoinNames(names)) == names
    decreases |names|
  {
    if |names| > 1 {
      var s := JoinNames(names);
      var h := names[0];
      assert s == h + "," + JoinNames(names[1..]);
      assert s[|h|] == ',';
      CommaAfterName(h, JoinNames(names[1..]));
      var i := IndexOfComma(s);
      assert s[..i] == h;
      assert s[i + 1..] == JoinNames(names[1..]);
      SplitJoin(names[1..]);
    }
  }

  /** The password: the clique's names sorted and joined with commas. Split back at the
      commas, it lists every member once, in ascending order. */
  method Password(largest: set<Name>) returns (password: string)
    ensures password == JoinNames(Sorted(largest))
    ensures largest == {} ==> password == ""
    ensures largest != {} && (forall n :: n in largest ==> ',' !in n) ==>
      Increasing(SplitOnComma(password)) && multiset(SplitOnComma(password)) == multiset(largest)
  {
    var names := SortNames(largest);
    password := JoinNames(names);
    assert |names| == |multiset(names)| == |multiset(largest)| == |largest|;
    if largest != {} && (forall n :: n in largest ==> ',' !in n) {
      forall n | n in names ensures ',' !in n {
        assert n in multiset(names);
      }
      SplitJoin(names);
    }
  }

  /** do_problem: builds the network, counts the groups of three with a 't' name, and finds the
      password of a largest group. */
  method DoProblem(pairs: seq<(Name, Name)>) returns (count: nat, password: string)
    requires forall p :: p in pairs ==> p.0 != p.1
    ensures count == |HistorianNetworks(NetworksOfThree(Connect(pairs)))|
    ensures exists largest ::
      && MaximalClique(Connect(pairs), largest)
      && (forall K :: K <= Connect(pairs).Keys && Clique(Connect(pairs), K) ==> |K| <= |largest|)
      && password == JoinNames(Sorted(largest))
  {
    var connections := BuildConnections(pairs);
    ConnectWellFormed(pairs);
    var allNetworksOfThree := FindNetworksOfThree(connections);
    count := CountHistorianNetworks(allNetworksOfThree);
    var largestSubnetwork := FindLargestGraphClique(connections);
    password := Password(largestSubnetwork);
    assert MaximalClique(Connect(pairs), largestSubnetwork);
  }
}
