/** Linen layout (19/19.py): towels are strings of stripe colours, kept in a trie; a design is
    possible when it splits into towels, and the number of such splits is counted. */
module TowelDesigns {
  import opened FiniteSums

  datatype Option<T> = None | Some(value: T)

  // ---- The trie ----

  /** TrieNode: the prefix that leads to the node (None at the root), the children by next
      character, and whether the prefix is a towel. Nodes are values here: an insertion
      rebuilds the path it changes. */
  datatype TrieNode = TrieNode(text: Option<string>, children: map<char, TrieNode>, isWord: bool)

  /** The node reached from t by following the characters of w, if every step exists. */
  function Walk(t: TrieNode, w: string): Option<TrieNode>
    decreases |w|
  {
    if w == [] then Some(t)
    else if w[0] in t.children then Walk(t.children[w[0]], w[1..])
    else None
  }

  /** w is one of the words stored under t. */
  ghost predicate Contains(t: TrieNode, w: string)
  {
    Walk(t, w).Some? && Walk(t, w).value.isWord
  }

  /** Every node below t, reached along a non-empty v, is labelled prefix + v. */
  ghost predicate TextsFrom(t: TrieNode, prefix: string)
  {
    forall v :: v != [] && Walk(t, v).Some? ==> Walk(t, v).value.text == Some(prefix + v)
  }

  /** Walking u then v is walking u + v. */
  lemma {:induction false} WalkConcat(t: TrieNode, u: string, v: string)
    ensures Walk(t, u + v) == if Walk(t, u).Some? then Walk(Walk(t, u).value, v) else None
    decreases |u|
  {
    if u == [] {
      assert u + v == v;
    } else {
      assert (u + v)[0] == u[0] && (u + v)[1..] == u[1..] + v;
      if u[0] in t.children {
        WalkConcat(t.children[u[0]], u[1..], v);
      }
    }
  }

  /** Once a walk falls off the trie, every longer walk does too. */
  lemma WalkOff(t: TrieNode, u: string, v: string)
    requires Walk(t, u).None?
    ensures Walk(t, u + v).None?
  {
    WalkConcat(t, u, v);
  }

  /** Adds the suffix w[i..] below node, creating the missing nodes with the prefixes of w as
      their text, and marks its end as a word. */
  function InsertAt(node: TrieNode, w: string, i: nat): TrieNode
    requires i <= |w|
    decreases |w| - i
  {
    if i == |w| then node.(isWord := true)
    else
      var c := w[i];
      var child := if c in node.children then node.children[c] else TrieNode(Some(w[..i + 1]), map[], false);
      node.(children := node.children[c := InsertAt(child, w, i + 1)])
  }

  /** Inserting adds exactly the one word. */
  lemma {:induction false} InsertAtContains(node: TrieNode, w: string, i: nat, v: string)
    requires i <= |w|
    ensures Contains(InsertAt(node, w, i), v) <==> Contains(node, v) || v == w[i..]
    decreases |w| - i
  {
    var n := InsertAt(node, w, i);
    if i == |w| {
      if v != [] {
        assert Walk(n, v) == Walk(node, v);
      }
    } else if v != [] {
      var c := w[i];
      if v[0] == c {
        var child := if c in node.children then node.children[c] else TrieNode(Some(w[..i + 1]), map[], false);
        InsertAtContains(child, w, i + 1, v[1..]);
        assert Walk(n, v) == Walk(InsertAt(child, w, i + 1), v[1..]);
        if c !in node.children {
          assert Walk(child, v[1..]).Some? ==> v[1..] == [] && !Walk(child, v[1..]).value.isWord;
        }
        assert v == w[i..] <==> v[1..] == w[i + 1..];
      } else {
        assert Walk(n, v) == Walk(node, v);
        assert v != w[i..];
      }
    } else {
      assert w[i..] != [];
    }
  }

  /** Inserting keeps every node labelled with the prefix that leads to it. */
  lemma {:induction false} InsertAtTexts(node: TrieNode, w: string, i: nat)
    requires i <= |w| && TextsFrom(node, w[..i])
    ensures TextsFrom(InsertAt(node, w, i), w[..i])
    decreases |w| - i
  {
    var n := InsertAt(node, w, i);
    if i < |w| {
      var c := w[i];
      var child := if c in node.children then node.children[c] else TrieNode(Some(w[..i + 1]), map[], false);
      assert w[..i + 1] == w[..i] + [c];
      if c in node.children {
        forall v | v != [] && Walk(child, v).Some? ensures Walk(child, v).value.text == Some(w[..i + 1] + v) {
          assert Walk(node, [c] + v) == Walk(child, v);
          assert w[..i] + ([c] + v) == w[..i + 1] + v;
        }
      }
      InsertAtTexts(child, w, i + 1);
      forall v | v != [] && Walk(n, v).Some? ensures Walk(n, v).value.text == Some(w[..i] + v) {
        if v[0] == c {
          assert Walk(n, v) == Walk(InsertAt(child, w, i + 1), v[1..]);
          if v[1..] == [] {
            assert v == [c];
            assert InsertAt(child, w, i + 1).text == child.text;
            if c in node.children {
              assert Walk(node, v) == Some(child);
            }
          } else {
            assert w[..i + 1] + v[1..] == w[..i] + v;
          }
        } else {
          assert Walk(n, v) == Walk(node, v);
        }
      }
    } else {
      forall v | v != [] && Walk(n, v).Some? ensures Walk(n, v).value.text == Some(w[..i] + v) {
        assert Walk(n, v) == Walk(node, v);
      }
    }
  }

  /** build_trie: a root labelled None, with every towel inserted. */
  method BuildTrie(towels: set<string>) returns (root: TrieNode)
    ensures root.text == None && TextsFrom(root, [])
    ensures forall w :: Contains(root, w) <==> w in towels
  {
    root := TrieNode(None, map[], false);
    var remaining := towels;
    while remaining != {}
      invariant remaining <= towels
      invariant root.text == None && TextsFrom(root, [])
      invariant forall w :: Contains(root, w) <==> w in towels - remaining
      decreases |remaining|
    {
      var towel :| towel in remaining;
      assert towel[..0] == [];
      InsertAtTexts(root, towel, 0);
      forall w ensures Contains(InsertAt(root, towel, 0), w) <==> Contains(root, w) || w == towel {
        InsertAtContains(root, towel, 0, w);
      }
      root := InsertAt(root, towel, 0);
      remaining := remaining - {towel};
    }
  }

  /** find_trie: the node of word when word is a stored towel, None when some character has
      no child or the node reached is not a word. */
  method FindTrie(root: TrieNode, word: string) returns (r: Option<TrieNode>)
    ensures r.Some? <==> Contains(root, word)
    ensures r.Some? ==> Walk(root, word) == r
    ensures r.Some? && TextsFrom(root, []) && word != [] ==> r.value.text == Some(word)
  {
    var current := root;
    var i := 0;
    while i < |word|
      invariant 0 <= i <= |word|
      invariant Walk(root, word[..i]) == Some(current)
    {
      var c := word[i];
      assert word[..i + 1] == word[..i] + [c];
      WalkConcat(root, word[..i], [c]);
      if c !in current.children {
        assert word == word[..i + 1] + word[i + 1..];
        WalkOff(root, word[..i + 1], word[i + 1..]);
        return None;
      }
      current := current.children[c];
      i := i + 1;
    }
    assert word[..i] == word;
    if current.isWord {
      if word != [] {
        assert [] + word == word;
      }
      return Some(current);
    }
    return None;
  }

  /** find_prefix_matches (never called by the program, cached in the source): the prefix
      itself when it is a stored towel, nothing otherwise. */
  method FindPrefixMatches(prefix: string, prefixTrie: TrieNode) returns (matches: set<string>)
    ensures forall w :: w in matches <==> w == prefix && Contains(prefixTrie, w)
  {
    matches := {};
    var found := FindTrie(prefixTrie, prefix);
    if found.Some? {
      matches := matches + {prefix};
    }
  }

  // ---- Is a design possible? ----

  const IterationLimit: nat := 1_000_000

  /** The design from index i on splits into non-empty towels stored in t. */
  ghost predicate Splittable(t: TrieNode, design: string, i: nat)
    requires i <= |design|
    decreases |design| - i
  {
    i == |design| || exists j :: i < j <= |design| && Contains(t, design[i..j]) && Splittable(t, design, j)
  }

  /** Every index on the stack lies within the design. */
  predicate Positions(design: string, stack: seq<nat>)
  {
    forall i :: 0 <= i < |stack| ==> stack[i] <= |design|
  }

  /** The towel ends after start up to index i: every j in (start, i] for which
      design[start..j] is a towel, in increasing order. */
  ghost function Ends(t: TrieNode, design: string, start: nat, i: nat): (r: seq<nat>)
    requires start <= |design| && i <= |design|
    ensures Positions(design, r)
    decreases i
  {
    if i <= start then [] else Ends(t, design, start, i - 1) + (if Contains(t, design[start..i]) then [i] else [])
  }

  /** The ends listed are exactly the towel ends. */
  lemma {:induction false} EndsMembers(t: TrieNode, design: string, start: nat, i: nat)
    requires start <= |design| && i <= |design|
    ensures forall j :: j in Ends(t, design, start, i) <==> start < j <= i && Contains(t, design[start..j])
    decreases i
  {
    if i > start {
      EndsMembers(t, design, start, i - 1);
    }
  }

  /** Past the last towel end nothing more is listed. */
  lemma {:induction false} EndsStop(t: TrieNode, design: string, start: nat, i: nat, m: nat)
    requires start <= i <= m <= |design|
    requires forall j :: i < j <= m ==> !Contains(t, design[start..j])
    ensures Ends(t, design, start, m) == Ends(t, design, start, i)
    decreases m
  {
    if m > i {
      EndsStop(t, design, start, i, m - 1);
    }
  }

  /** The inner loop of the searches: walking the trie along design from index start, every
      end j of a towel design[start..j] is pushed, in increasing order. */
  method PushTowelEnds(trie: TrieNode, design: string, start: nat, stack: seq<nat>) returns (stack': seq<nat>)
    requires start <= |design|
    ensures stack' == stack + Ends(trie, design, start, |design|)
    ensures |stack| <= |stack'| && stack'[..|stack|] == stack
    ensures forall j :: j in stack'[|stack|..] <==> start < j <= |design| && Contains(trie, design[start..j])
  {
    stack' := stack;
    var current := trie;
    var i := start;
    while i < |design|
      invariant start <= i <= |design|
      invariant Walk(trie, design[start..i]) == Some(current)
      invariant stack' == stack + Ends(trie, design, start, i)
    {
      var c := design[i];
      assert design[start..i + 1] == design[start..i] + [c];
      WalkConcat(trie, design[start..i], [c]);
      if c !in current.children {
        forall j | i < j <= |design| ensures !Contains(trie, design[start..j]) {
          assert design[start..j] == design[start..i + 1] + design[i + 1..j];
          WalkOff(trie, design[start..i + 1], design[i + 1..j]);
        }
        EndsStop(trie, design, start, i, |design|);
        EndsMembers(trie, design, start, |design|);
        assert stack'[|stack|..] == Ends(trie, design, start, |design|);
        return;
      }
      current := current.children[c];
      if current.isWord {
        stack' := stack' + [i + 1];
      }
      i := i + 1;
    }
    EndsMembers(trie, design, start, |design|);
    assert stack'[|stack|..] == Ends(trie, design, start, |design|);
  }

  // ---- How long the stack search runs ----

  /** The pops a search makes from index k with no limit and no early exit: k itself, then
      everything its towel ends lead to. */
  ghost function Expansions(t: TrieNode, design: string, k: nat): nat
    requires k <= |design|
    decreases |design| - k, 1
  {
    1 + ExpansionsUpTo(t, design, k, |design|)
  }

  /** The pops from the towel ends of k up to index i. */
  ghost function ExpansionsUpTo(t: TrieNode, design: string, k: nat, i: nat): nat
    requires k <= |design| && i <= |design|
    decreases |design| - k, 0, i
  {
    if i <= k then 0
    else ExpansionsUpTo(t, design, k, i - 1) + (if Contains(t, design[k..i]) then Expansions(t, design, i) else 0)
  }

  /** The pops a whole stack still holds. */
  ghost function Weight(t: TrieNode, design: string, stack: seq<nat>): nat
    requires Positions(design, stack)
  {
    if stack == [] then 0
    else Weight(t, design, stack[..|stack| - 1]) + Expansions(t, design, stack[|stack| - 1])
  }

  lemma {:induction false} WeightAppend(t: TrieNode, design: string, s: seq<nat>, u: seq<nat>)
    requires Positions(design, s)
    requires Positions(design, u)
    ensures Weight(t, design, s + u) == Weight(t, design, s) + Weight(t, design, u)
    decreases |u|
  {
    if u == [] {
      assert s + u == s;
    } else {
      var front := u[..|u| - 1];
      assert (s + u)[..|s + u| - 1] == s + front && (s + u)[|s + u| - 1] == u[|u| - 1];
      WeightAppend(t, design, s, front);
      assert Weight(t, design, s + u) == Weight(t, design, s + front) + Expansions(t, design, u[|u| - 1]);
    }
  }

  lemma {:induction false} WeightEnds(t: TrieNode, design: string, k: nat, i: nat)
    requires k <= |design| && i <= |design|
    ensures Weight(t, design, Ends(t, design, k, i)) == ExpansionsUpTo(t, design, k, i)
    decreases i
  {
    if i > k {
      WeightEnds(t, design, k, i - 1);
      var tail: seq<nat> := if Contains(t, design[k..i]) then [i] else [];
      WeightAppend(t, design, Ends(t, design, k, i - 1), tail);
      assert tail != [] ==> tail[..0] == [];
    }
  }

  /** Expanding the top index k swaps it for its towel ends: one pop fewer remains. */
  lemma PopWeight(t: TrieNode, design: string, stack: seq<nat>)
    requires Positions(design, stack)
    requires stack != [] && stack[|stack| - 1] < |design|
    ensures var k := stack[|stack| - 1];
      Weight(t, design, stack[..|stack| - 1] + Ends(t, design, k, |design|)) + 1 == Weight(t, design, stack)
  {
    var k := stack[|stack| - 1];
    WeightAppend(t, design, stack[..|stack| - 1], Ends(t, design, k, |design|));
    WeightEnds(t, design, k, |design|);
  }

  /** The number of indices check_one_way_exit_early expands, with no limit, before it pops
      the end of the design (True) or empties the stack (False). */
  ghost function Expanded(t: TrieNode, design: string, stack: seq<nat>): nat
    requires Positions(design, stack)
    decreases Weight(t, design, stack)
  {
    if stack == [] || stack[|stack| - 1] == |design| then 0
    else
      var k := stack[|stack| - 1];
      PopWeight(t, design, stack);
      1 + Expanded(t, design, stack[..|stack| - 1] + Ends(t, design, k, |design|))
  }

  /** The search never expands more indices than the stack holds pops: from index 0 it
      stops within the number of towel paths that start there. */
  lemma {:induction false} ExpandedWithinWeight(t: TrieNode, design: string, stack: seq<nat>)
    requires Positions(design, stack)
    ensures Expanded(t, design, stack) <= Weight(t, design, stack)
    ensures stack == [0] ==> Expanded(t, design, stack) <= Expansions(t, design, 0)
    decreases Weight(t, design, stack)
  {
    if stack != [] && stack[|stack| - 1] != |design| {
      var k := stack[|stack| - 1];
      PopWeight(t, design, stack);
      ExpandedWithinWeight(t, design, stack[..|stack| - 1] + Ends(t, design, k, |design|));
    }
    if stack == [0] {
      assert stack[..0] == [];
    }
  }

  /** The search gives up on design: it needs more than ITERATION_LIMIT expansions. */
  ghost predicate GivesUp(t: TrieNode, design: string)
  {
    IterationLimit < Expanded(t, design, [0])
  }

  /** Once every successor of every explored index is explored, and the end is not among them,
      no explored index splits. */
  lemma {:induction false} ExploredUnsplittable(t: TrieNode, design: string, done: set<nat>, k: nat)
    requires forall x :: x in done ==> x < |design|
    requires forall x, j :: x in done && x < j <= |design| && Contains(t, design[x..j]) ==> j in done
    requires k in done
    ensures !Splittable(t, design, k)
    decreases |design| - k
  {
    forall j | k < j <= |design| && Contains(t, design[k..j]) ensures !Splittable(t, design, j) {
      ExploredUnsplittable(t, design, done, j);
    }
  }

  /** What the stack search knows between pops: the stack holds positions in the design from
      which a split extends to one from 0; the explored positions lie before the end, and
      every towel step out of them lands on an explored or stacked position; 0 is one or
      the other. */
  ghost predicate SearchState(trie: TrieNode, design: string, stack: seq<nat>, done: set<nat>)
  {
    && Positions(design, stack)
    && (forall k :: k in stack ==> k <= |design| && (Splittable(trie, design, k) ==> Splittable(trie, design, 0)))
    && (forall x :: x in done ==> x < |design|)
    && (forall x, j :: x in done && x < j <= |design| && Contains(trie, design[x..j]) ==> j in done || j in stack)
    && (0 in done || 0 in stack)
  }

  /** The body of the search loop after a pop of designIndex short of the end: the crawl
      pushes its towel ends onto the rest of the stack, and one expansion is spent. */
  method ExpandIndex(trie: TrieNode, design: string, designIndex: nat, rest: seq<nat>, ghost done: set<nat>)
    returns (pushed: seq<nat>, ghost done': set<nat>)
    requires designIndex < |design| && SearchState(trie, design, rest + [designIndex], done)
    ensures SearchState(trie, design, pushed, done')
    ensures Expanded(trie, design, rest + [designIndex]) == 1 + Expanded(trie, design, pushed)
  {
    ghost var before := rest + [designIndex];
    assert before[..|before| - 1] == rest && before[|before| - 1] == designIndex;
    assert designIndex in before;
    assert forall k :: k in rest ==> k in before;
    pushed := PushTowelEnds(trie, design, designIndex, rest);
    forall j | j in pushed ensures j <= |design| && (Splittable(trie, design, j) ==> Splittable(trie, design, 0)) {
      if j !in rest {
        assert j in pushed[|rest|..];
        if Splittable(trie, design, j) {
          assert Splittable(trie, design, designIndex);
        }
      }
    }
    forall x, j | x in done + {designIndex} && x < j <= |design| && Contains(trie, design[x..j])
      ensures j in done + {designIndex} || j in pushed
    {
      if x == designIndex {
        if j !in rest {
          assert j in pushed[|rest|..];
        }
      } else if j in rest {
        assert j in pushed[..|rest|];
      }
    }
    done' := done + {designIndex};
  }

  /** check_one_way_exit_early: a depth-first search over split points with a stack; true when
      the end of the design is popped, false when the stack runs dry, None once more than
      limit indices have been expanded (the source passes ITERATION_LIMIT). */
  method CheckOneWayExitEarly(design: string, trie: TrieNode, limit: nat) returns (r: Option<bool>)
    ensures r.None? <==> limit < Expanded(trie, design, [0])
    ensures r.Some? ==> (r.value <==> Splittable(trie, design, 0))
  {
    var recursionStack: seq<nat> := [0];
    var iterations := 0;
    ghost var done: set<nat> := {};
    while |recursionStack| > 0
      invariant iterations <= limit
      invariant SearchState(trie, design, recursionStack, done)
      invariant iterations + Expanded(trie, design, recursionStack) == Expanded(trie, design, [0])
      decreases limit - iterations
    {
      var designIndex := recursionStack[|recursionStack| - 1];
      var rest := recursionStack[..|recursionStack| - 1];
      assert recursionStack == rest + [designIndex];
      assert designIndex in recursionStack;
      recursionStack := rest;
      if designIndex == |design| {
        assert Splittable(trie, design, designIndex);
        return Some(true);
      }
      recursionStack, done := ExpandIndex(trie, design, designIndex, rest, done);
      iterations := iterations + 1;
      if iterations > limit {
        return None;
      }
    }
    if 0 in done {
      ExploredUnsplittable(trie, design, done, 0);
    }
    return Some(false);
  }

  // ---- Counting the ways ----

  /** The number of ways design splits into non-empty towels of t, counted by the first towel:
      1 for the empty design. */
  ghost function NumWays(t: TrieNode, design: string): nat
    decreases |design|, 1
  {
    if design == [] then 1 else SumFrom(t, design, 1)
  }

  /** The ways whose first towel has length k or more. */
  ghost function SumFrom(t: TrieNode, design: string, k: nat): nat
    requires 1 <= k
    decreases |design|, 0, |design| + 1 - k
  {
    if k > |design| then 0
    else (if Contains(t, design[..k]) then NumWays(t, design[k..]) else 0) + SumFrom(t, design, k + 1)
  }

  /** No towel starts with a prefix that falls off the trie. */
  lemma {:induction false} SumFromOff(t: TrieNode, design: string, k: nat)
    requires 1 <= k <= |design| + 1
    requires Walk(t, design[..k - 1]).None?
    ensures SumFrom(t, design, k) == 0
    decreases |design| + 1 - k
  {
    if k <= |design| {
      assert design[..k] == design[..k - 1] + design[k - 1..k];
      WalkOff(t, design[..k - 1], design[k - 1..k]);
      SumFromOff(t, design, k + 1);
    }
  }

  /** get_num_designs_recursive inside figure_out_num_potential_towel_designs (without its
      cache): 1 for the empty design, otherwise the ways for the rest after every towel the
      trie finds at the front, added up. */
  method GetNumDesignsRecursive(towelTrie: TrieNode, design: string) returns (n: nat)
    ensures n == NumWays(towelTrie, design)
    decreases |design|
  {
    if design == [] {
      return 1;
    }
    var numDesigns := 0;
    var currentNode := towelTrie;
    var i := 0;
    while i < |design|
      invariant 0 <= i <= |design|
      invariant Walk(towelTrie, design[..i]) == Some(currentNode)
      invariant numDesigns + SumFrom(towelTrie, design, i + 1) == SumFrom(towelTrie, design, 1)
    {
      var c := design[i];
      assert design[..i + 1] == design[..i] + [c];
      WalkConcat(towelTrie, design[..i], [c]);
      if c !in currentNode.children {
        SumFromOff(towelTrie, design, i + 2);
        break;
      }
      currentNode := currentNode.children[c];
      if currentNode.isWord {
        var rest := GetNumDesignsRecursive(towelTrie, design[i + 1..]);
        numDesigns := numDesigns + rest;
      }
      i := i + 1;
    }
    return numDesigns;
  }

  /** figure_out_num_potential_towel_designs. */
  method FigureOutNumPotentialTowelDesigns(originalDesign: string, towelTrie: TrieNode) returns (n: nat)
    ensures n == NumWays(towelTrie, originalDesign)
  {
    n := GetNumDesignsRecursive(towelTrie, originalDesign);
  }

  /** The ways with a first towel of length k or more exist exactly when the design splits
      with such a first towel. */
  lemma {:induction false} SumFromPositive(t: TrieNode, design: string, i: nat, k: nat)
    requires i < |design| && 1 <= k
    ensures SumFrom(t, design[i..], k) > 0 <==> exists j :: i + k <= j <= |design| && TowelThenWays(t, design, i, j)
    decreases |design| + 1 - k
  {
    var e := design[i..];
    if k <= |e| {
      SumFromPositive(t, design, i, k + 1);
      assert e[..k] == design[i..i + k] && e[k..] == design[i + k..];
      assert SumFrom(t, e, k) == FirstTerm(t, e, k) + SumFrom(t, e, k + 1);
      assert FirstTerm(t, e, k) > 0 <==> TowelThenWays(t, design, i, i + k);
    }
  }

  /** design[i..j] is a towel and the rest from j on has a way to be made. */
  ghost predicate TowelThenWays(t: TrieNode, design: string, i: nat, j: nat)
    requires i <= j <= |design|
  {
    Contains(t, design[i..j]) && NumWays(t, design[j..]) > 0
  }

  /** A design is possible exactly when it has a way to be made. */
  lemma {:induction false} SplittableIffWays(t: TrieNode, design: string, i: nat)
    requires i <= |design|
    ensures Splittable(t, design, i) <==> NumWays(t, design[i..]) > 0
    decreases |design| - i
  {
    if i < |design| {
      forall j | i < j <= |design| ensures TowelThenWays(t, design, i, j) <==> Contains(t, design[i..j]) && Splittable(t, design, j) {
        SplittableIffWays(t, design, j);
      }
      SumFromPositive(t, design, i, 1);
      assert NumWays(t, design[i..]) == SumFrom(t, design[i..], 1);
    } else {
      assert design[i..] == [];
    }
  }

  // ---- Counting from the other end ----

  /** The number of ways counted by the last towel instead of the first. */
  ghost function NumWaysBack(t: TrieNode, design: string): nat
    decreases |design|, 1
  {
    if design == [] then 1 else SumBack(t, design, 1)
  }

  /** The ways whose last towel has length k or more. */
  ghost function SumBack(t: TrieNode, design: string, k: nat): nat
    requires 1 <= k
    decreases |design|, 0, |design| + 1 - k
  {
    if k > |design| then 0
    else (if Contains(t, design[|design| - k..]) then NumWaysBack(t, design[..|design| - k]) else 0) + SumBack(t, design, k + 1)
  }

  /** The term of NumWays for a first towel of length k. */
  ghost function FirstTerm(t: TrieNode, design: string, k: int): int
  {
    if 1 <= k <= |design| && Contains(t, design[..k]) then NumWays(t, design[k..]) else 0
  }

  /** The term of NumWaysBack for a last towel of length m. */
  ghost function LastTerm(t: TrieNode, design: string, m: int): int
  {
    if 1 <= m <= |design| && Contains(t, design[|design| - m..]) then NumWaysBack(t, design[..|design| - m]) else 0
  }

  /** The ways whose first towel has length k and last towel length m, the two distinct. */
  ghost function Pair(t: TrieNode, design: string, k: int, m: int): int
  {
    if 1 <= k && 1 <= m && k + m <= |design| && Contains(t, design[..k]) && Contains(t, design[|design| - m..])
    then NumWays(t, design[k..|design| - m]) else 0
  }

  lemma {:induction false} SumFromIsSum(t: TrieNode, design: string, k: nat)
    requires 1 <= k
    ensures SumFrom(t, design, k) == Sum(k, |design| + 1, j => FirstTerm(t, design, j))
    decreases |design| + 1 - k
  {
    if k <= |design| {
      SumFromIsSum(t, design, k + 1);
    }
  }

  lemma {:induction false} SumBackIsSum(t: TrieNode, design: string, k: nat)
    requires 1 <= k
    ensures SumBack(t, design, k) == Sum(k, |design| + 1, m => LastTerm(t, design, m))
    decreases |design| + 1 - k
  {
    if k <= |design| {
      SumBackIsSum(t, design, k + 1);
    }
  }

  /** Counting by the first towel and by the last towel agree on every proper infix. */
  ghost predicate AgreeInside(t: TrieNode, design: string)
  {
    forall a, b :: 0 <= a <= b <= |design| && b - a < |design| ==>
      NumWays(t, design[a..b]) == NumWaysBack(t, design[a..b])
  }

  /** An entry of a row: a first towel of length k followed by the ways of the rest that end
      in a last towel of length m. */
  lemma RowEntry(t: TrieNode, design: string, k: int, m: int)
    requires 1 <= k && 1 <= m && k + m <= |design|
    requires NumWays(t, design[k..|design| - m]) == NumWaysBack(t, design[k..|design| - m])
    ensures Pair(t, design, k, m) == if Contains(t, design[..k]) then LastTerm(t, design[k..], m) else 0
  {
    var n, rest := |design|, design[k..];
    assert rest[|rest| - m..] == design[n - m..];
    assert rest[..|rest| - m] == design[k..n - m];
  }

  /** An entry of a column: a last towel of length m preceded by the ways of the rest that
      start with a first towel of length k. */
  lemma ColumnEntry(t: TrieNode, design: string, k: int, m: int)
    requires 1 <= k && 1 <= m && k + m <= |design|
    ensures Pair(t, design, k, m) == if Contains(t, design[|design| - m..]) then FirstTerm(t, design[..|design| - m], k) else 0
  {
    var n, rest := |design|, design[..|design| - m];
    assert rest[..k] == design[..k];
    assert rest[k..] == design[k..n - m];
  }

  /** The entries of row k: a first towel of length k, then the ways of the rest by last towel. */
  lemma RowTerms(t: TrieNode, design: string, k: int)
    requires 1 <= k < |design| && AgreeInside(t, design)
    ensures NumWays(t, design[k..]) == NumWaysBack(t, design[k..])
    ensures forall m :: 1 <= m < |design| - k + 1 ==>
      Pair(t, design, k, m) == if Contains(t, design[..k]) then LastTerm(t, design[k..], m) else 0
  {
    var n := |design|;
    assert design[k..] == design[k..n];
    forall m | 1 <= m < n - k + 1
      ensures Pair(t, design, k, m) == if Contains(t, design[..k]) then LastTerm(t, design[k..], m) else 0
    {
      assert NumWays(t, design[k..n - m]) == NumWaysBack(t, design[k..n - m]);
      RowEntry(t, design, k, m);
    }
  }

  /** The entries of column m: a last towel of length m, then the ways of the rest by first towel. */
  lemma ColumnTerms(t: TrieNode, design: string, m: int)
    requires 1 <= m < |design| && AgreeInside(t, design)
    ensures forall k :: 1 <= k < |design| - m + 1 ==>
      Pair(t, design, k, m) == if Contains(t, design[|design| - m..]) then FirstTerm(t, design[..|design| - m], k) else 0
  {
    forall k | 1 <= k < |design| - m + 1
      ensures Pair(t, design, k, m) == if Contains(t, design[|design| - m..]) then FirstTerm(t, design[..|design| - m], k) else 0
    {
      ColumnEntry(t, design, k, m);
    }
  }

  /** A first towel of length k shorter than the design leaves a row of the triangle. */
  lemma FirstTermIsRow(t: TrieNode, design: string, k: int)
    requires 1 <= k < |design| && AgreeInside(t, design)
    ensures FirstTerm(t, design, k) == Row(|design|, (a, b) => Pair(t, design, a, b), k)
  {
    RowTerms(t, design, k);
    RowSum(t, design, k);
  }

  /** Row k adds up its entries: the ways of the rest counted by last towel. */
  lemma RowSum(t: TrieNode, design: string, k: int)
    requires 1 <= k < |design|
    requires NumWays(t, design[k..]) == NumWaysBack(t, design[k..])
    requires forall m :: 1 <= m < |design| - k + 1 ==>
      Pair(t, design, k, m) == if Contains(t, design[..k]) then LastTerm(t, design[k..], m) else 0
    ensures FirstTerm(t, design, k) == Row(|design|, (a, b) => Pair(t, design, a, b), k)
  {
    var n, rest := |design|, design[k..];
    var g := (a, b) => Pair(t, design, a, b);
    SumGuard(1, n - k + 1, Contains(t, design[..k]), m => LastTerm(t, rest, m), m => g(k, m));
    SumBackIsSum(t, rest, 1);
  }

  /** A last towel of length m shorter than the design leaves a column of the triangle. */
  lemma LastTermIsColumn(t: TrieNode, design: string, m: int)
    requires 1 <= m < |design| && AgreeInside(t, design)
    ensures LastTerm(t, design, m) == Column(|design|, (a, b) => Pair(t, design, a, b), m)
  {
    var n, rest := |design|, design[..|design| - m];
    var g := (a, b) => Pair(t, design, a, b);
    ColumnTerms(t, design, m);
    SumGuard(1, n - m + 1, Contains(t, design[n - m..]), k => FirstTerm(t, rest, k), k => g(k, m));
    assert rest == design[0..n - m];
    SumFromIsSum(t, rest, 1);
  }

  /** Counting by the first towel: the rows of the triangle plus the design as one towel. */
  lemma FirstSide(t: TrieNode, design: string)
    requires |design| > 0 && AgreeInside(t, design)
    ensures NumWays(t, design) == Rows(|design|, (a, b) => Pair(t, design, a, b)) + FirstTerm(t, design, |design|)
  {
    var n := |design|;
    var g := (a, b) => Pair(t, design, a, b);
    SumFromIsSum(t, design, 1);
    SumLast(1, n + 1, j => FirstTerm(t, design, j));
    forall k | 1 <= k < n ensures FirstTerm(t, design, k) == Row(n, g, k) {
      FirstTermIsRow(t, design, k);
    }
    SumExt(1, n, j => FirstTerm(t, design, j), k => Row(n, g, k));
  }

  /** Counting by the last towel: the columns of the triangle plus the design as one towel. */
  lemma LastSide(t: TrieNode, design: string)
    requires |design| > 0 && AgreeInside(t, design)
    ensures NumWaysBack(t, design) == Columns(|design|, (a, b) => Pair(t, design, a, b)) + LastTerm(t, design, |design|)
  {
    var n := |design|;
    var g := (a, b) => Pair(t, design, a, b);
    SumBackIsSum(t, design, 1);
    SumLast(1, n + 1, m => LastTerm(t, design, m));
    forall m | 1 <= m < n ensures LastTerm(t, design, m) == Column(n, g, m) {
      LastTermIsColumn(t, design, m);
    }
    SumExt(1, n, m => LastTerm(t, design, m), m => Column(n, g, m));
  }

  /** Counting by the first towel and counting by the last towel agree. */
  lemma {:induction false} FirstLast(t: TrieNode, design: string)
    ensures NumWays(t, design) == NumWaysBack(t, design)
    decreases |design|
  {
    var n := |design|;
    if n > 0 {
      forall a, b | 0 <= a <= b <= n && b - a < n
        ensures NumWays(t, design[a..b]) == NumWaysBack(t, design[a..b])
      {
        FirstLast(t, design[a..b]);
      }
      FirstSide(t, design);
      LastSide(t, design);
      RowsColumns(n, (a, b) => Pair(t, design, a, b));
      assert design[..n] == design && design[n..] == [];
      assert design[n - n..] == design && design[..n - n] == [];
    }
  }

  // ---- The reversed trie ----

  /** s[::-1]. */
  function Reverse(s: string): (r: string)
    ensures |r| == |s|
    decreases |s|
  {
    if s == [] then [] else Reverse(s[1..]) + [s[0]]
  }

  /** The reversal holds the characters of s from the last to the first. */
  lemma {:induction false} ReverseAt(s: string)
    ensures forall i :: 0 <= i < |s| ==> Reverse(s)[i] == s[|s| - 1 - i]
    decreases |s|
  {
    if s != [] {
      ReverseAt(s[1..]);
    }
  }

  /** Reversing twice gives the string back. */
  lemma ReverseReverse(s: string)
    ensures Reverse(Reverse(s)) == s
  {
    ReverseAt(s);
    ReverseAt(Reverse(s));
  }

  /** The mirror image of a slice, by index arithmetic alone. */
  lemma MirrorSlice(s: string, r: string, t: string, u: string, i: int, j: int)
    requires 0 <= i <= j <= |s| && |r| == |s|
    requires forall k :: 0 <= k < |s| ==> r[k] == s[|s| - 1 - k]
    requires t == s[|s| - j..|s| - i] && |u| == |t|
    requires forall k :: 0 <= k < |t| ==> u[k] == t[|t| - 1 - k]
    ensures r[i..j] == u
  {
    forall x | 0 <= x < j - i ensures r[i..j][x] == u[x] {
      assert r[i..j][x] == r[i + x];
    }
  }

  /** A slice of the reversal is the reversal of the mirrored slice. */
  lemma ReverseSlice(s: string, i: int, j: int)
    requires 0 <= i <= j <= |s|
    ensures Reverse(s)[i..j] == Reverse(s[|s| - j..|s| - i])
  {
    var t := s[|s| - j..|s| - i];
    ReverseAt(s);
    ReverseAt(t);
    MirrorSlice(s, Reverse(s), t, Reverse(t), i, j);
  }

  /** rt stores exactly the reversals of the words of t. */
  ghost predicate ReversedTries(t: TrieNode, rt: TrieNode)
  {
    forall w :: Contains(rt, w) <==> Contains(t, Reverse(w))
  }

  /** One term: a first towel of length k of the reversed design is a last towel of length k
      of the design. */
  lemma ReversedTerm(t: TrieNode, rt: TrieNode, design: string, k: int)
    requires 1 <= k <= |design|
    requires Contains(rt, Reverse(design[|design| - k..])) <==> Contains(t, design[|design| - k..])
    requires NumWays(rt, Reverse(design[..|design| - k])) == NumWaysBack(t, design[..|design| - k])
    ensures FirstTerm(rt, Reverse(design), k) == LastTerm(t, design, k)
  {
    var n, rd := |design|, Reverse(design);
    ReverseSlice(design, 0, k);
    ReverseSlice(design, k, n);
    assert rd[..k] == rd[0..k] && rd[k..] == rd[k..n];
    assert design[n - k..n - 0] == design[n - k..];
    assert design[n - n..n - k] == design[..n - k];
  }

  /** Counting the reversed design by its first towel in the reversed trie is counting the
      design by its last towel. */
  lemma {:induction false} ReversedWaysBack(t: TrieNode, rt: TrieNode, design: string)
    requires ReversedTries(t, rt)
    ensures NumWays(rt, Reverse(design)) == NumWaysBack(t, design)
    decreases |design|
  {
    var n, rd := |design|, Reverse(design);
    if n > 0 {
      forall k | 1 <= k < n + 1 ensures FirstTerm(rt, rd, k) == LastTerm(t, design, k) {
        ReverseReverse(design[n - k..]);
        ReversedWaysBack(t, rt, design[..n - k]);
        ReversedTerm(t, rt, design, k);
      }
      SumFromIsSum(rt, rd, 1);
      SumBackIsSum(t, design, 1);
      SumExt(1, n + 1, k => FirstTerm(rt, rd, k), k => LastTerm(t, design, k));
    }
  }

  /** The reversed design has as many ways in the reversed trie as the design in the trie, and
      so is possible exactly when the design is. */
  lemma ReversedWays(t: TrieNode, rt: TrieNode, design: string)
    requires ReversedTries(t, rt)
    ensures NumWays(rt, Reverse(design)) == NumWays(t, design)
    ensures Splittable(rt, Reverse(design), 0) <==> Splittable(t, design, 0)
  {
    ReversedWaysBack(t, rt, design);
    FirstLast(t, design);
    SplittableIffWays(t, design, 0);
    SplittableIffWays(rt, Reverse(design), 0);
    assert design[0..] == design && Reverse(design)[0..] == Reverse(design);
  }

  /** {t[::-1] for t in towels}. */
  function ReversedTowels(towels: set<string>): (r: set<string>)
    ensures forall w :: w in r <==> Reverse(w) in towels
  {
    var r := set u | u in towels :: Reverse(u);
    assert forall w :: Reverse(w) in towels ==> w in r by {
      forall w | Reverse(w) in towels ensures w in r {
        ReverseReverse(w);
      }
    }
    assert forall u :: u in towels ==> Reverse(Reverse(u)) == u by {
      forall u | u in towels ensures Reverse(Reverse(u)) == u {
        ReverseReverse(u);
      }
    }
    r
  }

  /** design_is_possible (never called by the program): the same stack search over the
      REVERSED design with the trie it is given. The source has no iteration limit; fuel bounds
      the number of expanded indices here. */
  method DesignIsPossible(design: string, towelTrieRoot: TrieNode, fuel: nat) returns (r: Option<bool>)
    ensures r.None? <==> fuel < Expanded(towelTrieRoot, Reverse(design), [0])
    ensures r.Some? ==> (r.value <==> Splittable(towelTrieRoot, Reverse(design), 0))
  {
    r := CheckOneWayExitEarly(Reverse(design), towelTrieRoot, fuel);
  }

  /** design_is_possible_hacky_forward_backwards: whether the design is possible and whether
      the forward search answered; the backward search runs on the reversed design in the
      reversed trie when the forward one gives up. None stands for the failing assertion when
      both give up. */
  method DesignIsPossibleHackyForwardBackwards(originalDesign: string, forwardsTrie: TrieNode, reverseTrie: TrieNode)
    returns (r: Option<(bool, bool)>)
    ensures r.None? <==> Defeats(forwardsTrie, reverseTrie, originalDesign)
    ensures r.Some? ==> (r.value.1 <==> !GivesUp(forwardsTrie, originalDesign))
    ensures r.Some? && r.value.1 ==> (r.value.0 <==> Splittable(forwardsTrie, originalDesign, 0))
    ensures r.Some? && !r.value.1 ==> (r.value.0 <==> Splittable(reverseTrie, Reverse(originalDesign), 0))
    ensures r.Some? && ReversedTries(forwardsTrie, reverseTrie) ==> (r.value.0 <==> Splittable(forwardsTrie, originalDesign, 0))
  {
    var forwards := CheckOneWayExitEarly(originalDesign, forwardsTrie, IterationLimit);
    if forwards.None? {
      var backwards := CheckOneWayExitEarly(Reverse(originalDesign), reverseTrie, IterationLimit);
      if backwards.None? {
        return None;
      }
      if ReversedTries(forwardsTrie, reverseTrie) {
        ReversedWays(forwardsTrie, reverseTrie, originalDesign);
      }
      return Some((backwards.value, false));
    }
    return Some((forwards.value, true));
  }

  /** Both searches give up on design, and the source's assertion fails. */
  ghost predicate Defeats(t: TrieNode, rt: TrieNode, design: string)
  {
    GivesUp(t, design) && GivesUp(rt, Reverse(design))
  }

  /** The number of possible designs. */
  ghost function CountPossible(t: TrieNode, designs: seq<string>): nat
    decreases |designs|
  {
    if designs == [] then 0
    else CountPossible(t, designs[..|designs| - 1]) + (if Splittable(t, designs[|designs| - 1], 0) then 1 else 0)
  }

  /** The ways to make all the designs, added up. */
  ghost function TotalWays(t: TrieNode, designs: seq<string>): nat
    decreases |designs|
  {
    if designs == [] then 0 else TotalWays(t, designs[..|designs| - 1]) + NumWays(t, designs[|designs| - 1])
  }

  /** Every possible design has at least one way to be made, and no more designs are possible
      than there are designs. */
  lemma {:induction false} WaysCoverPossible(t: TrieNode, designs: seq<string>)
    ensures CountPossible(t, designs) <= TotalWays(t, designs)
    ensures CountPossible(t, designs) <= |designs|
    decreases |designs|
  {
    if designs != [] {
      var last := designs[|designs| - 1];
      WaysCoverPossible(t, designs[..|designs| - 1]);
      SplittableIffWays(t, last, 0);
      assert last[0..] == last;
    }
  }

  /** The body of figure_out_how_many_designs_possible's loop for one design: whether it is
      possible and the ways to make it, counted in whichever direction answered (0 when it is
      not possible). None when both searches give up and the source's assertion fails. */
  method TallyDesign(design: string, trie: TrieNode, reverseTrie: TrieNode) returns (h: Option<(bool, nat)>)
    ensures h.None? <==> Defeats(trie, reverseTrie, design)
    ensures h.Some? && !h.value.0 ==> h.value.1 == 0
    ensures h.Some? && ReversedTries(trie, reverseTrie) ==>
      && (h.value.0 <==> Splittable(trie, design, 0))
      && h.value.1 == NumWays(trie, design)
  {
    var d := DesignIsPossibleHackyForwardBackwards(design, trie, reverseTrie);
    if d.None? {
      return None;
    }
    var (isPossible, forwardsIsEasyDirection) := d.value;
    var numWaysToMake := 0;
    if isPossible {
      numWaysToMake := FigureOutNumPotentialTowelDesigns(
        if forwardsIsEasyDirection then design else Reverse(design),
        if forwardsIsEasyDirection then trie else reverseTrie);
    }
    if ReversedTries(trie, reverseTrie) {
      ReversedWays(trie, reverseTrie, design);
      SplittableIffWays(trie, design, 0);
      assert design[0..] == design;
    }
    return Some((isPossible, numWaysToMake));
  }

  /** figure_out_how_many_designs_possible: the number of possible designs and the total
      number of ways, the ways counted in whichever direction answered. None when some design
      defeats both searches. */
  method FigureOutHowManyDesignsPossible(designs: seq<string>, trie: TrieNode, reverseTrie: TrieNode)
    returns (r: Option<(nat, nat)>)
    ensures r.None? <==> exists i :: 0 <= i < |designs| && Defeats(trie, reverseTrie, designs[i])
    ensures r.Some? && ReversedTries(trie, reverseTrie) ==>
      r.value == (CountPossible(trie, designs), TotalWays(trie, designs))
  {
    var totalPossible: nat := 0;
    var waysToMakeDesign: nat := 0;
    var i := 0;
    while i < |designs|
      invariant 0 <= i <= |designs|
      invariant forall j :: 0 <= j < i ==> !Defeats(trie, reverseTrie, designs[j])
      invariant ReversedTries(trie, reverseTrie) ==>
        totalPossible == CountPossible(trie, designs[..i]) && waysToMakeDesign == TotalWays(trie, designs[..i])
    {
      var design := designs[i];
      assert designs[..i + 1][..i] == designs[..i] && designs[..i + 1][i] == design;
      var h := TallyDesign(design, trie, reverseTrie);
      if h.None? {
        return None;
      }
      var (isPossible, numWaysToMake) := h.value;
      totalPossible := totalPossible + if isPossible then 1 else 0;
      if isPossible {
        waysToMakeDesign := waysToMakeDesign + numWaysToMake;
      }
      i := i + 1;
    }
    assert designs[..i] == designs;
    return Some((totalPossible, waysToMakeDesign));
  }

  /** process_towels after parsing: builds the trie of the towels and the trie of their
      reversals, then counts; trie and reverseTrie are the two tries it builds. */
  method ProcessTowels(availableTowels: set<string>, designs: seq<string>)
    returns (r: Option<(nat, nat)>, ghost trie: TrieNode, ghost reverseTrie: TrieNode)
    ensures forall w :: Contains(trie, w) <==> w in availableTowels
    ensures forall w :: Contains(reverseTrie, w) <==> Reverse(w) in availableTowels
    ensures r.None? <==> exists i :: 0 <= i < |designs| && Defeats(trie, reverseTrie, designs[i])
    ensures r.Some? ==> r.value == (CountPossible(trie, designs), TotalWays(trie, designs))
  {
    var t := BuildTrie(availableTowels);
    var rt := BuildTrie(ReversedTowels(availableTowels));
    trie, reverseTrie := t, rt;
    r := FigureOutHowManyDesignsPossible(designs, t, rt);
  }
}
