/** Lazy-deletion Dijkstra over any finite state space, with the priority queue modelled as a
    multiset from which a least-distance entry is extracted.

    A walk is a list of edge choices: the index of the edge taken out of each state, as listed
    by the successor function. Distances are proved to be the costs of walks (soundness) and no
    larger than the cost of any walk that stays under the sentinel (optimality). */
module ShortestPaths {

  /** The sentinel the solutions write for "not reached yet". */
  const Infinity: int := 1_000_000_000_000_000_000

  // ---- Walks ----

  /** The state reached by following the edge choices js from s. */
  ghost function End<S>(succ: S -> seq<(S, nat)>, s: S, js: seq<nat>): S
    decreases |js|
  {
    if js == [] || js[0] >= |succ(s)| then s else End(succ, succ(s)[js[0]].0, js[1..])
  }

  /** The summed edge weights along the walk. */
  ghost function Cost<S>(succ: S -> seq<(S, nat)>, s: S, js: seq<nat>): nat
    decreases |js|
  {
    if js == [] || js[0] >= |succ(s)| then 0 else succ(s)[js[0]].1 + Cost(succ, succ(s)[js[0]].0, js[1..])
  }

  /** Every choice names an edge and every state entered lies in keys. */
  ghost predicate Valid<S>(succ: S -> seq<(S, nat)>, keys: set<S>, s: S, js: seq<nat>)
    decreases |js|
  {
    js == [] || (js[0] < |succ(s)| && succ(s)[js[0]].0 in keys && Valid(succ, keys, succ(s)[js[0]].0, js[1..]))
  }

  /** Some walk inside keys leads from start to c at cost n. */
  ghost predicate Reaches<S>(succ: S -> seq<(S, nat)>, keys: set<S>, start: S, c: S, n: int)
  {
    exists js :: Valid(succ, keys, start, js) && End(succ, start, js) == c && Cost(succ, start, js) == n
  }

  /** No walk from start inside the table that stays under the sentinel is cheaper than the
      distance recorded for its end. */
  ghost predicate NoCheaperWalk<S>(succ: S -> seq<(S, nat)>, d: map<S, int>, start: S)
  {
    forall js :: Valid(succ, d.Keys, start, js) && Cost(succ, start, js) < Infinity ==>
      End(succ, start, js) in d && d[End(succ, start, js)] <= Cost(succ, start, js)
  }

  /** Extending a walk by one edge out of its end. */
  lemma {:induction false} WalkAppend<S>(succ: S -> seq<(S, nat)>, keys: set<S>, s: S, js: seq<nat>, j: nat)
    requires Valid(succ, keys, s, js)
    requires j < |succ(End(succ, s, js))| && succ(End(succ, s, js))[j].0 in keys
    ensures Valid(succ, keys, s, js + [j])
    ensures End(succ, s, js + [j]) == succ(End(succ, s, js))[j].0
    ensures Cost(succ, s, js + [j]) == Cost(succ, s, js) + succ(End(succ, s, js))[j].1
    decreases |js|
  {
    if js == [] {
      assert [j][1..] == [];
    } else {
      assert (js + [j])[1..] == js[1..] + [j];
      WalkAppend(succ, keys, succ(s)[js[0]].0, js[1..], j);
    }
  }

  /** A walk inside keys from a state of keys ends inside keys. */
  lemma {:induction false} WalkEndsInside<S>(succ: S -> seq<(S, nat)>, keys: set<S>, s: S, js: seq<nat>)
    requires s in keys && Valid(succ, keys, s, js)
    ensures End(succ, s, js) in keys
    decreases |js|
  {
    if js != [] {
      WalkEndsInside(succ, keys, succ(s)[js[0]].0, js[1..]);
    }
  }

  /** A walk that stays inside keys stays inside any larger set of states. */
  lemma {:induction false} ValidWithin<S>(succ: S -> seq<(S, nat)>, keys: set<S>, keys': set<S>, s: S, js: seq<nat>)
    requires Valid(succ, keys, s, js) && keys <= keys'
    ensures Valid(succ, keys', s, js)
    decreases |js|
  {
    if js != [] {
      ValidWithin(succ, keys, keys', succ(s)[js[0]].0, js[1..]);
    }
  }

  // ---- The priority queue ----

  /** Extract-min: an entry of least distance in a non-empty queue. */
  method LeastEntry<S(==)>(pq: multiset<(int, S)>) returns (e: (int, S))
    requires pq != multiset{}
    ensures e in pq && forall f :: f in pq ==> e.0 <= f.0
    decreases |pq|
  {
    var x :| x in pq;
    var rest := pq - multiset{x};
    assert pq == rest + multiset{x};
    if rest == multiset{} {
      e := x;
    } else {
      var m := LeastEntry(rest);
      e := if x.0 <= m.0 then x else m;
    }
  }

  // ---- Loop invariants ----

  /** Relaxation has been applied to the first n edges out of v. */
  ghost predicate RelaxedUpTo<S>(succ: S -> seq<(S, nat)>, d: map<S, int>, v: S, n: int)
    requires v in d
  {
    forall j :: 0 <= j < n && j < |succ(v)| && succ(v)[j].0 in d ==> d[succ(v)[j].0] <= d[v] + succ(v)[j].1
  }

  ghost predicate Frame<S>(keys: set<S>, start: S, d: map<S, int>)
  {
    && d.Keys == keys && start in keys && d[start] == 0
    && (forall c :: c in d ==> 0 <= d[c] <= Infinity)
  }

  /** Every finite distance has its walk on record. */
  ghost predicate Witnessed<S>(succ: S -> seq<(S, nat)>, keys: set<S>, start: S, d: map<S, int>, walks: map<S, seq<nat>>)
  {
    && (forall c :: c in d && d[c] < Infinity ==> c in walks)
    && forall c {:trigger walks[c]} :: c in d && d[c] < Infinity && c in walks ==>
      Valid(succ, keys, start, walks[c]) && End(succ, start, walks[c]) == c
      && Cost(succ, start, walks[c]) == d[c]
  }

  /** Queue entries never undercut the recorded distance, and every state reached but not yet
      expanded has its current distance queued. */
  ghost predicate Queued<S>(d: map<S, int>, pq: multiset<(int, S)>, visited: set<S>)
  {
    && (forall e :: e in pq ==> e.1 in d && d[e.1] <= e.0 < Infinity)
    && (forall c :: c in d && c !in visited && d[c] < Infinity ==> (d[c], c) in pq)
  }

  /** Expanded states, each logged once. */
  ghost predicate Logged<S>(d: map<S, int>, visited: set<S>, expanded: seq<S>)
  {
    && visited <= d.Keys
    && (forall v :: v in visited ==> d[v] < Infinity)
    && (forall i, j :: 0 <= i < j < |expanded| ==> expanded[i] != expanded[j])
    && (forall i :: 0 <= i < |expanded| ==> expanded[i] in visited)
    && (forall v :: v in visited ==> v in expanded)
  }

  /** Between expansions: expanded states are settled below every queued entry and have all
      their edges relaxed. */
  ghost predicate Inv<S>(succ: S -> seq<(S, nat)>, keys: set<S>, start: S, d: map<S, int>, pq: multiset<(int, S)>,
                         visited: set<S>, walks: map<S, seq<nat>>, expanded: seq<S>)
  {
    && Frame(keys, start, d) && Witnessed(succ, keys, start, d, walks) && Queued(d, pq, visited)
    && Logged(d, visited, expanded)
    && (forall v, e :: v in visited && e in pq ==> d[v] <= e.0)
    && (forall v :: v in visited ==> RelaxedUpTo(succ, d, v, |succ(v)|))
  }

  /** While the edges of pos are relaxed: everything expanded lies at or below its distance
      floor, everything queued at or above it, and the first k edges of pos are done. */
  ghost predicate Expanding<S>(succ: S -> seq<(S, nat)>, keys: set<S>, start: S, d: map<S, int>, pq: multiset<(int, S)>,
                               visited: set<S>, walks: map<S, seq<nat>>, expanded: seq<S>, pos: S, floor: int, k: int)
  {
    && Frame(keys, start, d) && Witnessed(succ, keys, start, d, walks) && Queued(d, pq, visited)
    && Logged(d, visited, expanded)
    && Floored(d, pq, visited, pos, floor) && RelaxedExcept(succ, d, visited, pos, k)
  }

  /** Everything expanded lies at or below floor, everything queued at or above it. */
  ghost predicate Floored<S>(d: map<S, int>, pq: multiset<(int, S)>, visited: set<S>, pos: S, floor: int)
    requires visited <= d.Keys
  {
    && pos in visited && d[pos] == floor
    && (forall v :: v in visited ==> d[v] <= floor)
    && (forall e :: e in pq ==> floor <= e.0)
  }

  /** All edges of expanded states are relaxed, except those of pos from the k-th on. */
  ghost predicate RelaxedExcept<S>(succ: S -> seq<(S, nat)>, d: map<S, int>, visited: set<S>, pos: S, k: int)
    requires visited <= d.Keys && pos in d
  {
    && (forall v :: v in visited && v != pos ==> RelaxedUpTo(succ, d, v, |succ(v)|))
    && 0 <= k <= |succ(pos)| && RelaxedUpTo(succ, d, pos, k)
  }

  lemma PopVisited<S>(succ: S -> seq<(S, nat)>, keys: set<S>, start: S, d: map<S, int>, pq: multiset<(int, S)>,
                      visited: set<S>, walks: map<S, seq<nat>>, expanded: seq<S>, e: (int, S))
    requires Inv(succ, keys, start, d, pq, visited, walks, expanded) && e in pq && e.1 in visited
    ensures Inv(succ, keys, start, d, pq - multiset{e}, visited, walks, expanded)
  {
    forall c | c in d && c !in visited && d[c] < Infinity ensures (d[c], c) in pq - multiset{e} {
      assert (d[c], c) != e;
    }
  }

  lemma PopFresh<S>(succ: S -> seq<(S, nat)>, keys: set<S>, start: S, d: map<S, int>, pq: multiset<(int, S)>,
                    visited: set<S>, walks: map<S, seq<nat>>, expanded: seq<S>, e: (int, S))
    requires Inv(succ, keys, start, d, pq, visited, walks, expanded) && e in pq && e.1 !in visited
    requires forall f :: f in pq ==> e.0 <= f.0
    ensures e.0 == d[e.1]
    ensures Expanding(succ, keys, start, d, pq - multiset{e}, visited + {e.1}, walks, expanded + [e.1], e.1, e.0, 0)
  {
    var pos := e.1;
    assert (d[pos], pos) in pq;
    PopQueued(d, pq, visited, e);
    PopSettled(succ, d, pq, visited, e);
    PopLogged(d, visited, expanded, pos);
    ExpandingIntro(succ, keys, start, d, pq - multiset{e}, visited + {pos}, walks, expanded + [pos], pos, e.0, 0);
  }

  lemma PopQueued<S>(d: map<S, int>, pq: multiset<(int, S)>, visited: set<S>, e: (int, S))
    requires Queued(d, pq, visited) && e in pq
    ensures Queued(d, pq - multiset{e}, visited + {e.1})
  {
    var pq' := pq - multiset{e};
    forall c | c in d && c !in visited + {e.1} && d[c] < Infinity ensures (d[c], c) in pq' {
      assert (d[c], c) != e;
    }
    forall f | f in pq' ensures f.1 in d && d[f.1] <= f.0 < Infinity {
      assert f in pq;
    }
  }

  lemma PopSettled<S>(succ: S -> seq<(S, nat)>, d: map<S, int>, pq: multiset<(int, S)>, visited: set<S>, e: (int, S))
    requires Queued(d, pq, visited) && visited <= d.Keys && e in pq && e.1 !in visited
    requires forall f :: f in pq ==> e.0 <= f.0
    requires forall v, f :: v in visited && f in pq ==> d[v] <= f.0
    requires forall v :: v in visited ==> RelaxedUpTo(succ, d, v, |succ(v)|)
    ensures e.0 == d[e.1] && visited + {e.1} <= d.Keys
    ensures Floored(d, pq - multiset{e}, visited + {e.1}, e.1, e.0)
    ensures RelaxedExcept(succ, d, visited + {e.1}, e.1, 0)
  {
    assert (d[e.1], e.1) in pq;
    forall f | f in pq - multiset{e} ensures e.0 <= f.0 {
      assert f in pq;
    }
  }

  lemma PopLogged<S>(d: map<S, int>, visited: set<S>, expanded: seq<S>, pos: S)
    requires Logged(d, visited, expanded) && pos in d && d[pos] < Infinity && pos !in visited
    ensures Logged(d, visited + {pos}, expanded + [pos])
  {
    assert forall i :: 0 <= i < |expanded| ==> expanded[i] in visited;
  }

  lemma SkipEdge<S>(succ: S -> seq<(S, nat)>, keys: set<S>, start: S, d: map<S, int>, pq: multiset<(int, S)>,
                    visited: set<S>, walks: map<S, seq<nat>>, expanded: seq<S>, pos: S, floor: int, k: int)
    requires Expanding(succ, keys, start, d, pq, visited, walks, expanded, pos, floor, k) && k < |succ(pos)|
    requires succ(pos)[k].0 in d ==> d[succ(pos)[k].0] <= floor + succ(pos)[k].1
    ensures Expanding(succ, keys, start, d, pq, visited, walks, expanded, pos, floor, k + 1)
  {
  }

  lemma RelaxWitnessed<S>(succ: S -> seq<(S, nat)>, keys: set<S>, start: S, d: map<S, int>,
                          walks: map<S, seq<nat>>, pos: S, k: nat, t: int)
    requires Frame(keys, start, d) && Witnessed(succ, keys, start, d, walks)
    requires pos in d && d[pos] < Infinity && k < |succ(pos)| && succ(pos)[k].0 in d
    requires t == d[pos] + succ(pos)[k].1 < d[succ(pos)[k].0]
    ensures var next := succ(pos)[k].0;
      Frame(keys, start, d[next := t]) && Witnessed(succ, keys, start, d[next := t], walks[next := walks[pos] + [k]])
  {
    var next := succ(pos)[k].0;
    var d', walks' := d[next := t], walks[next := walks[pos] + [k]];
    WalkAppend(succ, keys, start, walks[pos], k);
    forall c | c in d' && d'[c] < Infinity
      ensures c in walks' && Valid(succ, keys, start, walks'[c]) && End(succ, start, walks'[c]) == c
           && Cost(succ, start, walks'[c]) == d'[c]
    {
      if c != next {
        assert d'[c] == d[c] && walks'[c] == walks[c];
      }
    }
  }

  lemma RelaxQueued<S>(d: map<S, int>, pq: multiset<(int, S)>, visited: set<S>, next: S, t: int)
    requires Queued(d, pq, visited) && next in d && t < d[next] && t < Infinity
    ensures Queued(d[next := t], pq + multiset{(t, next)}, visited)
  {
    var d', pq' := d[next := t], pq + multiset{(t, next)};
    forall e | e in pq' ensures e.1 in d' && d'[e.1] <= e.0 < Infinity {
      if e != (t, next) {
        assert e in pq;
      }
    }
    forall c | c in d' && c !in visited && d'[c] < Infinity ensures (d'[c], c) in pq' {
      if c != next {
        assert (d[c], c) in pq;
      }
    }
  }

  lemma RelaxSettled<S>(succ: S -> seq<(S, nat)>, d: map<S, int>, pq: multiset<(int, S)>, visited: set<S>,
                        pos: S, floor: int, k: nat, t: int)
    requires visited <= d.Keys && Floored(d, pq, visited, pos, floor) && RelaxedExcept(succ, d, visited, pos, k)
    requires k < |succ(pos)| && succ(pos)[k].0 in d && t == floor + succ(pos)[k].1 < d[succ(pos)[k].0]
    ensures var next := succ(pos)[k].0; var d' := d[next := t];
      && next !in visited && visited <= d'.Keys
      && Floored(d', pq + multiset{(t, next)}, visited, pos, floor)
      && RelaxedExcept(succ, d', visited, pos, k + 1)
  {
    var next := succ(pos)[k].0;
    var d' := d[next := t];
    forall v | v in visited && v != pos ensures RelaxedUpTo(succ, d', v, |succ(v)|) {
      assert RelaxedUpTo(succ, d, v, |succ(v)|);
    }
    forall e | e in pq + multiset{(t, next)} ensures floor <= e.0 {
      if e != (t, next) {
        assert e in pq;
      }
    }
  }

  lemma RelaxLogged<S>(d: map<S, int>, visited: set<S>, expanded: seq<S>, next: S, t: int)
    requires Logged(d, visited, expanded) && next in d && next !in visited
    ensures Logged(d[next := t], visited, expanded)
  {
  }

  /** Relaxing an improving edge k of pos: the neighbour takes the tentative distance, gets a
      queue entry and a walk one edge longer than that of pos. */
  lemma RelaxEdge<S>(succ: S -> seq<(S, nat)>, keys: set<S>, start: S, d: map<S, int>, pq: multiset<(int, S)>,
                     visited: set<S>, walks: map<S, seq<nat>>, expanded: seq<S>, pos: S, floor: int, k: int)
    requires Expanding(succ, keys, start, d, pq, visited, walks, expanded, pos, floor, k) && k < |succ(pos)|
    requires succ(pos)[k].0 in d && floor + succ(pos)[k].1 < d[succ(pos)[k].0]
    ensures var next, t := succ(pos)[k].0, floor + succ(pos)[k].1;
      Expanding(succ, keys, start, d[next := t], pq + multiset{(t, next)}, visited,
                walks[next := walks[pos] + [k]], expanded, pos, floor, k + 1)
  {
    var next, t := succ(pos)[k].0, floor + succ(pos)[k].1;
    RelaxWitnessed(succ, keys, start, d, walks, pos, k, t);
    RelaxQueued(d, pq, visited, next, t);
    RelaxSettled(succ, d, pq, visited, pos, floor, k, t);
    RelaxLogged(d, visited, expanded, next, t);
    ExpandingIntro(succ, keys, start, d[next := t], pq + multiset{(t, next)}, visited,
                   walks[next := walks[pos] + [k]], expanded, pos, floor, k + 1);
  }

  lemma ExpandingIntro<S>(succ: S -> seq<(S, nat)>, keys: set<S>, start: S, d: map<S, int>, pq: multiset<(int, S)>,
                          visited: set<S>, walks: map<S, seq<nat>>, expanded: seq<S>, pos: S, floor: int, k: int)
    requires Frame(keys, start, d) && Witnessed(succ, keys, start, d, walks) && Queued(d, pq, visited)
    requires Logged(d, visited, expanded) && visited <= d.Keys
    requires Floored(d, pq, visited, pos, floor) && RelaxedExcept(succ, d, visited, pos, k)
    ensures Expanding(succ, keys, start, d, pq, visited, walks, expanded, pos, floor, k)
  {
  }

  lemma DoneExpanding<S>(succ: S -> seq<(S, nat)>, keys: set<S>, start: S, d: map<S, int>, pq: multiset<(int, S)>,
                         visited: set<S>, walks: map<S, seq<nat>>, expanded: seq<S>, pos: S, floor: int)
    requires Expanding(succ, keys, start, d, pq, visited, walks, expanded, pos, floor, |succ(pos)|)
    ensures Inv(succ, keys, start, d, pq, visited, walks, expanded)
  {
  }

  /** Once everything reached is expanded, no walk under the sentinel beats a recorded
      distance. */
  lemma {:induction false} NoShorterWalk<S>(succ: S -> seq<(S, nat)>, d: map<S, int>, s: S, js: seq<nat>)
    requires s in d && Valid(succ, d.Keys, s, js) && d[s] + Cost(succ, s, js) < Infinity
    requires forall v :: v in d && d[v] < Infinity ==> RelaxedUpTo(succ, d, v, |succ(v)|)
    requires forall v :: v in d ==> 0 <= d[v]
    ensures End(succ, s, js) in d && d[End(succ, s, js)] <= d[s] + Cost(succ, s, js)
    decreases |js|
  {
    WalkEndsInside(succ, d.Keys, s, js);
    if js != [] {
      var t := succ(s)[js[0]].0;
      assert RelaxedUpTo(succ, d, s, |succ(s)|);
      NoShorterWalk(succ, d, t, js[1..]);
    }
  }

  lemma Finish<S>(succ: S -> seq<(S, nat)>, keys: set<S>, start: S, d: map<S, int>,
                  visited: set<S>, walks: map<S, seq<nat>>, expanded: seq<S>)
    requires Inv(succ, keys, start, d, multiset{}, visited, walks, expanded)
    ensures forall c :: c in d && d[c] < Infinity ==> Reaches(succ, d.Keys, start, c, d[c])
    ensures NoCheaperWalk(succ, d, start)
    ensures forall c :: c in expanded <==> c in d && d[c] < Infinity
  {
    forall c | c in d && d[c] < Infinity ensures Reaches(succ, d.Keys, start, c, d[c]) {
      assert Valid(succ, keys, start, walks[c]);
    }
    forall js | Valid(succ, d.Keys, start, js) && Cost(succ, start, js) < Infinity
      ensures End(succ, start, js) in d && d[End(succ, start, js)] <= Cost(succ, start, js)
    {
      WalkEndsInside(succ, d.Keys, start, js);
      NoShorterWalk(succ, d, start, js);
    }
  }

  lemma StartInv<S>(succ: S -> seq<(S, nat)>, initial: map<S, int>, start: S)
    requires forall c :: c in initial ==> initial[c] == Infinity
    ensures Inv(succ, initial.Keys + {start}, start, initial[start := 0], multiset{(0, start)}, {}, map[start := []], [])
  {
    assert Valid(succ, initial.Keys + {start}, start, []);
    var d := initial[start := 0];
    assert forall c :: c in d && d[c] < Infinity ==> c == start;
  }

  /** Relaxes every edge out of pos, the state just expanded at distance floor. */
  method RelaxEdges<S(==)>(succ: S -> seq<(S, nat)>, ghost keys: set<S>, ghost start: S, d: map<S, int>,
                           pq: multiset<(int, S)>, visited: set<S>, ghost walks: map<S, seq<nat>>,
                           ghost expanded: seq<S>, pos: S, floor: int)
    returns (d': map<S, int>, pq': multiset<(int, S)>, ghost walks': map<S, seq<nat>>)
    requires Expanding(succ, keys, start, d, pq, visited, walks, expanded, pos, floor, 0)
    ensures Inv(succ, keys, start, d', pq', visited, walks', expanded)
  {
    d', pq', walks' := d, pq, walks;
    var edges := succ(pos);
    var k := 0;
    while k < |edges|
      invariant Expanding(succ, keys, start, d', pq', visited, walks', expanded, pos, floor, k)
    {
      d', pq', walks' := RelaxOne(succ, keys, start, d', pq', visited, walks', expanded, pos, floor, k);
      k := k + 1;
    }
    DoneExpanding(succ, keys, start, d', pq', visited, walks', expanded, pos, floor);
  }

  /** The body of the relaxation loop for edge k: a neighbour with a table entry whose
      tentative distance improves on it gets the new distance and a queue entry. */
  method RelaxOne<S(==)>(succ: S -> seq<(S, nat)>, ghost keys: set<S>, ghost start: S, d: map<S, int>,
                         pq: multiset<(int, S)>, visited: set<S>, ghost walks: map<S, seq<nat>>,
                         ghost expanded: seq<S>, pos: S, floor: int, k: int)
    returns (d': map<S, int>, pq': multiset<(int, S)>, ghost walks': map<S, seq<nat>>)
    requires Expanding(succ, keys, start, d, pq, visited, walks, expanded, pos, floor, k) && 0 <= k < |succ(pos)|
    ensures Expanding(succ, keys, start, d', pq', visited, walks', expanded, pos, floor, k + 1)
  {
    var (next, weight) := succ(pos)[k];
    if next in d && floor + weight < d[next] {
      var tentativeDistance := floor + weight;
      RelaxEdge(succ, keys, start, d, pq, visited, walks, expanded, pos, floor, k);
      d' := d[next := tentativeDistance];
      pq' := pq + multiset{(tentativeDistance, next)};
      walks' := walks[next := walks[pos] + [k]];
    } else {
      SkipEdge(succ, keys, start, d, pq, visited, walks, expanded, pos, floor, k);
      d', pq', walks' := d, pq, walks;
    }
  }

  /** One turn of the loop: pop a least entry, skip it if its state is already expanded,
      otherwise expand the state. */
  method ExpandNext<S(==)>(succ: S -> seq<(S, nat)>, ghost keys: set<S>, ghost start: S, d: map<S, int>,
                           pq: multiset<(int, S)>, visited: set<S>, ghost walks: map<S, seq<nat>>, ghost expanded: seq<S>)
    returns (d': map<S, int>, pq': multiset<(int, S)>, visited': set<S>, ghost walks': map<S, seq<nat>>,
             ghost expanded': seq<S>)
    requires Inv(succ, keys, start, d, pq, visited, walks, expanded) && pq != multiset{}
    ensures Inv(succ, keys, start, d', pq', visited', walks', expanded')
    ensures (visited' == visited && |pq'| < |pq|) || |keys - visited'| < |keys - visited|
  {
    var e := LeastEntry(pq);
    var (currentDistance, pos) := e;
    if pos in visited {
      PopVisited(succ, keys, start, d, pq, visited, walks, expanded, e);
      return d, pq - multiset{e}, visited, walks, expanded;
    }
    PopFresh(succ, keys, start, d, pq, visited, walks, expanded, e);
    assert keys - (visited + {pos}) < keys - visited;
    visited' := visited + {pos};
    expanded' := expanded + [pos];
    d', pq', walks' := RelaxEdges(succ, keys, start, d, pq - multiset{e}, visited', walks, expanded', pos, currentDistance);
  }

  /** The search proper, from the initial table onwards: start is set to 0 and queued, and
      the queue is drained, expanding each state the first time it comes out. */
  method RunDijkstra<S(==)>(succ: S -> seq<(S, nat)>, initial: map<S, int>, start: S)
    returns (distances: map<S, int>, ghost expanded: seq<S>)
    requires forall c :: c in initial ==> initial[c] == Infinity
    ensures distances.Keys == initial.Keys + {start}
    ensures distances[start] == 0
    ensures forall c :: c in distances ==> 0 <= distances[c] <= Infinity
    ensures forall c :: c in distances && distances[c] < Infinity ==> Reaches(succ, distances.Keys, start, c, distances[c])
    ensures NoCheaperWalk(succ, distances, start)
    ensures forall i, j :: 0 <= i < j < |expanded| ==> expanded[i] != expanded[j]
    ensures forall c :: c in expanded <==> c in distances && distances[c] < Infinity
  {
    ghost var keys := initial.Keys + {start};
    distances := initial[start := 0];
    var pq: multiset<(int, S)> := multiset{(0, start)};
    var visited: set<S> := {};
    ghost var walks: map<S, seq<nat>> := map[start := []];
    expanded := [];
    StartInv(succ, initial, start);
    while pq != multiset{}
      invariant Inv(succ, keys, start, distances, pq, visited, walks, expanded)
      decreases |keys - visited|, |pq|
    {
      distances, pq, visited, walks, expanded := ExpandNext(succ, keys, start, distances, pq, visited, walks, expanded);
    }
    Finish(succ, keys, start, distances, visited, walks, expanded);
  }
}
