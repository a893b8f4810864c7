/** Keypad conundrum (21/21.py): a code is typed on a numeric keypad by a robot arm that is
    steered from a directional keypad, itself steered by a second robot from another
    directional keypad, steered in turn by hand. Between two keys an arm takes a shortest
    route that never passes over the gap of its keypad; each key press is an 'A' on the
    keypad one level out. */
module KeypadConundrum {
  import opened DecimalText

  datatype Result<T> = Ok(value: T) | Err(msg: string)

  type Coord = (int, int)

  /** Key labels with their (column, row) position; the gap is a key labelled 'X'. */
  type Keypad = map<char, Coord>

  const ForbiddenMarker: char := 'X'

  /** NUMERIC_KEYPAD_COORDINATES: 789 / 456 / 123 / gap 0 A. */
  const NumericKeypad: Keypad := map[
    '7' := (0, 0), '8' := (1, 0), '9' := (2, 0),
    '4' := (0, 1), '5' := (1, 1), '6' := (2, 1),
    '1' := (0, 2), '2' := (1, 2), '3' := (2, 2),
    'X' := (0, 3), '0' := (1, 3), 'A' := (2, 3)]

  /** DIRECTIONAL_KEYPAD_COORDINATES: gap ^ A / < v >. */
  const DirectionalKeypad: Keypad := map[
    'X' := (0, 0), '^' := (1, 0), 'A' := (2, 0),
    '<' := (0, 1), 'v' := (1, 1), '>' := (2, 1)]

  /** The keys of DIRECTION_MOVES. */
  predicate IsArrow(c: char)
  {
    c == '^' || c == 'v' || c == '<' || c == '>'
  }

  /** DIRECTION_MOVES: the change of position for each arrow. */
  function DirectionMove(c: char): Coord
    requires IsArrow(c)
  {
    match c
    case '^' => (0, -1)
    case 'v' => (0, 1)
    case '<' => (-1, 0)
    case '>' => (1, 0)
  }

  /** Strings of arrows only. */
  predicate Arrows(s: string)
  {
    forall i :: 0 <= i < |s| ==> IsArrow(s[i])
  }

  function Abs(x: int): nat
  {
    if x < 0 then -x else x
  }

  function Manhattan(p: Coord, q: Coord): nat
  {
    Abs(q.0 - p.0) + Abs(q.1 - p.1)
  }

  // ---- Shortest routes between two keys ----

  /** c * n. */
  function Repeat(c: char, n: nat): (r: string)
    ensures |r| == n
  {
    if n == 0 then [] else Repeat(c, n - 1) + [c]
  }

  /** Every character of c * n is c. */
  lemma {:induction false} RepeatAt(c: char, n: nat)
    ensures forall i :: 0 <= i < n ==> Repeat(c, n)[i] == c
  {
    if n > 0 {
      RepeatAt(c, n - 1);
    }
  }

  /** A prefix of c * n is c * i. */
  lemma RepeatPrefix(c: char, n: nat, i: nat)
    requires i <= n
    ensures Repeat(c, n)[..i] == Repeat(c, i)
  {
    RepeatAt(c, n);
    RepeatAt(c, i);
  }

  /** The arrow that closes a horizontal difference dx: x_move. */
  function XMove(dx: int): char
  {
    if dx > 0 then '>' else '<'
  }

  /** The arrow that closes a vertical difference dy: y_move. */
  function YMove(dy: int): char
  {
    if dy > 0 then 'v' else '^'
  }

  /** element_string: |dx| horizontal arrows followed by |dy| vertical arrows. */
  function ElementString(from: Coord, to: Coord): string
  {
    var dx, dy := to.0 - from.0, to.1 - from.1;
    Repeat(XMove(dx), Abs(dx)) + Repeat(YMove(dy), Abs(dy))
  }

  /** The distinct orderings of h copies of hc and v copies of vc. */
  function Arrangements(hc: char, h: nat, vc: char, v: nat): set<string>
    decreases h + v
  {
    if h == 0 && v == 0 then {[]}
    else
      (if h > 0 then set s | s in Arrangements(hc, h - 1, vc, v) :: [hc] + s else {})
      + (if v > 0 then set s | s in Arrangements(hc, h, vc, v - 1) :: [vc] + s else {})
  }

  lemma MultisetRepeat(c: char, n: nat)
    ensures multiset(Repeat(c, n)) == multiset{} [c := n]
  {
    if n > 0 {
      assert Repeat(c, n) == Repeat(c, n - 1) + [c];
      MultisetRepeat(c, n - 1);
    }
  }

  /** The multiset of h copies of hc and v copies of vc. */
  function Stock(hc: char, h: nat, vc: char, v: nat): multiset<char>
  {
    multiset{}[hc := h] + multiset{}[vc := v]
  }

  /** The element string holds exactly the stock of its two arrows. */
  lemma ElementStock(from: Coord, to: Coord)
    ensures var dx, dy := to.0 - from.0, to.1 - from.1;
      multiset(ElementString(from, to)) == Stock(XMove(dx), Abs(dx), YMove(dy), Abs(dy))
  {
    var dx, dy := to.0 - from.0, to.1 - from.1;
    MultisetRepeat(XMove(dx), Abs(dx));
    MultisetRepeat(YMove(dy), Abs(dy));
  }

  lemma StockCounts(hc: char, h: nat, vc: char, v: nat)
    requires hc != vc
    ensures Stock(hc, h, vc, v)[hc] == h && Stock(hc, h, vc, v)[vc] == v
    ensures forall c :: c != hc && c != vc ==> Stock(hc, h, vc, v)[c] == 0
    ensures |Stock(hc, h, vc, v)| == h + v
  {
    MultisetSize(hc, h);
    MultisetSize(vc, v);
  }

  lemma MultisetSize(c: char, n: nat)
    ensures |multiset{}[c := n]| == n
  {
    MultisetRepeat(c, n);
  }

  lemma StockStep(hc: char, h: nat, vc: char, v: nat)
    ensures h > 0 ==> Stock(hc, h, vc, v) == multiset{hc} + Stock(hc, h - 1, vc, v)
    ensures v > 0 ==> Stock(hc, h, vc, v) == multiset{vc} + Stock(hc, h, vc, v - 1)
  {
    if h > 0 {
      assert multiset{}[hc := h] == multiset{hc} + multiset{}[hc := h - 1];
    }
    if v > 0 {
      assert multiset{}[vc := v] == multiset{vc} + multiset{}[vc := v - 1];
    }
  }

  /** An arrangement starts with one of the two arrows and goes on with an arrangement of
      the rest. */
  lemma ArrangementsCases(hc: char, h: nat, vc: char, v: nat, p: string)
    requires p in Arrangements(hc, h, vc, v) && h + v > 0
    ensures p != []
    ensures (h > 0 && p[0] == hc && p[1..] in Arrangements(hc, h - 1, vc, v))
         || (v > 0 && p[0] == vc && p[1..] in Arrangements(hc, h, vc, v - 1))
  {
    if h > 0 && p in (set s | s in Arrangements(hc, h - 1, vc, v) :: [hc] + s) {
      var s :| s in Arrangements(hc, h - 1, vc, v) && p == [hc] + s;
      assert p[1..] == s;
    } else {
      var s :| s in Arrangements(hc, h, vc, v - 1) && p == [vc] + s;
      assert p[1..] == s;
    }
  }

  /** Every arrangement has the letters of the element string. */
  lemma {:induction false} ArrangementStock(hc: char, h: nat, vc: char, v: nat, p: string)
    requires p in Arrangements(hc, h, vc, v)
    ensures multiset(p) == Stock(hc, h, vc, v)
    decreases h + v
  {
    if h == 0 && v == 0 {
      assert p == [];
    } else {
      ArrangementsCases(hc, h, vc, v, p);
      StockStep(hc, h, vc, v);
      assert p == [p[0]] + p[1..];
      var m := multiset(p[1..]);
      assert multiset(p) == multiset{p[0]} + m;
      if h > 0 && p[0] == hc && p[1..] in Arrangements(hc, h - 1, vc, v) {
        ArrangementStock(hc, h - 1, vc, v, p[1..]);
        assert m == Stock(hc, h - 1, vc, v);
      } else {
        ArrangementStock(hc, h, vc, v - 1, p[1..]);
        assert m == Stock(hc, h, vc, v - 1);
      }
    }
  }

  lemma CancelOne(x: char, m: multiset<char>, n: multiset<char>)
    requires multiset{x} + m == multiset{x} + n
    ensures m == n
  {
    assert forall c :: m[c] == (multiset{x} + m)[c] - multiset{x}[c];
    assert forall c :: n[c] == (multiset{x} + n)[c] - multiset{x}[c];
  }

  /** Every string with the letters of the element string is an arrangement. */
  lemma {:induction false} StockArrangement(hc: char, h: nat, vc: char, v: nat, p: string)
    requires hc != vc && multiset(p) == Stock(hc, h, vc, v)
    ensures p in Arrangements(hc, h, vc, v)
    decreases h + v, 1
  {
    if p == [] {
      StockCounts(hc, h, vc, v);
      assert |multiset(p)| == 0;
    } else {
      var x, rest := p[0], p[1..];
      assert p == [x] + rest;
      StockRest(hc, h, vc, v, x, rest);
      RestArrangement(hc, h, vc, v, x, rest);
    }
  }

  /** The step of StockArrangement: an arrow in front of a string with the rest of the stock. */
  lemma {:induction false} RestArrangement(hc: char, h: nat, vc: char, v: nat, x: char, rest: string)
    requires hc != vc
    requires (x == hc && h > 0 && multiset(rest) == Stock(hc, h - 1, vc, v))
          || (x == vc && v > 0 && multiset(rest) == Stock(hc, h, vc, v - 1))
    ensures [x] + rest in Arrangements(hc, h, vc, v)
    decreases h + v, 0
  {
    if x == hc && h > 0 && multiset(rest) == Stock(hc, h - 1, vc, v) {
      StockArrangement(hc, h - 1, vc, v, rest);
    } else {
      StockArrangement(hc, h, vc, v - 1, rest);
    }
    ArrangementsPrepend(hc, h, vc, v, x, rest);
  }

  /** The first letter of a string with the stock's letters is one of the two arrows, and the
      rest holds the stock less that arrow. */
  lemma StockRest(hc: char, h: nat, vc: char, v: nat, x: char, rest: string)
    requires hc != vc && multiset([x] + rest) == Stock(hc, h, vc, v)
    ensures (x == hc && h > 0 && multiset(rest) == Stock(hc, h - 1, vc, v))
         || (x == vc && v > 0 && multiset(rest) == Stock(hc, h, vc, v - 1))
  {
    StockCounts(hc, h, vc, v);
    assert multiset([x] + rest) == multiset{x} + multiset(rest);
    assert x in multiset([x] + rest);
    StockStep(hc, h, vc, v);
    if x == hc {
      CancelOne(x, multiset(rest), Stock(hc, h - 1, vc, v));
    } else {
      CancelOne(x, multiset(rest), Stock(hc, h, vc, v - 1));
    }
  }

  /** One more arrow in front of an arrangement of the rest. */
  lemma ArrangementsPrepend(hc: char, h: nat, vc: char, v: nat, x: char, s: string)
    requires (x == hc && h > 0 && s in Arrangements(hc, h - 1, vc, v))
          || (x == vc && v > 0 && s in Arrangements(hc, h, vc, v - 1))
    ensures [x] + s in Arrangements(hc, h, vc, v)
  {
    if x == hc && h > 0 && s in Arrangements(hc, h - 1, vc, v) {
      assert [x] + s == [hc] + s;
      assert [hc] + s in (set t | t in Arrangements(hc, h - 1, vc, v) :: [hc] + t);
    } else {
      assert [x] + s == [vc] + s;
      assert [vc] + s in (set t | t in Arrangements(hc, h, vc, v - 1) :: [vc] + t);
    }
  }

  /** permutations(element_string) as a set of strings: exactly the strings with the same
      letters as the element string. */
  lemma ArrangementsArePermutations(hc: char, h: nat, vc: char, v: nat, p: string)
    requires hc != vc
    ensures p in Arrangements(hc, h, vc, v) <==> multiset(p) == Stock(hc, h, vc, v)
  {
    if p in Arrangements(hc, h, vc, v) {
      ArrangementStock(hc, h, vc, v, p);
    }
    if multiset(p) == Stock(hc, h, vc, v) {
      StockArrangement(hc, h, vc, v, p);
    }
  }

  /** The arm's position after the moves of path from start. */
  function PosAfter(start: Coord, path: string): Coord
    requires Arrows(path)
    decreases |path|
  {
    if path == [] then start
    else
      var c, m := PosAfter(start, path[..|path| - 1]), DirectionMove(path[|path| - 1]);
      (c.0 + m.0, c.1 + m.1)
  }

  /** No move of path from start lands on the gap. */
  predicate AvoidsGap(start: Coord, path: string, gap: Coord)
    requires Arrows(path)
  {
    forall i :: 1 <= i <= |path| ==> PosAfter(start, path[..i]) != gap
  }

  /** What get_all_shortest_paths returns: every ordering of the element string that keeps
      clear of the gap. */
  function GapFreePaths(keypad: Keypad, a: char, b: char): set<string>
    requires a in keypad && b in keypad && ForbiddenMarker in keypad
  {
    var from, to := keypad[a], keypad[b];
    var dx, dy := to.0 - from.0, to.1 - from.1;
    set p | p in Arrangements(XMove(dx), Abs(dx), YMove(dy), Abs(dy)) && Arrows(p) && AvoidsGap(from, p, keypad[ForbiddenMarker])
  }

  lemma ArrangementsArrows(hc: char, h: nat, vc: char, v: nat, p: string)
    requires IsArrow(hc) && IsArrow(vc) && hc != vc
    requires p in Arrangements(hc, h, vc, v)
    ensures Arrows(p)
  {
    ArrangementsArePermutations(hc, h, vc, v, p);
    StockCounts(hc, h, vc, v);
    forall i | 0 <= i < |p| ensures IsArrow(p[i]) {
      assert p[i] in multiset(p);
    }
  }

  /** Walking u and then w from start is walking u + w. */
  lemma {:induction false} PosAfterAppend(start: Coord, u: string, w: string)
    requires Arrows(u) && Arrows(w)
    ensures Arrows(u + w) && PosAfter(start, u + w) == PosAfter(PosAfter(start, u), w)
    decreases |w|
  {
    if w != [] {
      var w' := w[..|w| - 1];
      assert (u + w)[..|u + w| - 1] == u + w';
      PosAfterAppend(start, u, w');
    } else {
      assert u + w == u;
    }
  }

  /** The arm ends where the arrows of the path add up to. */
  lemma {:induction false} PosAfterCounts(start: Coord, p: string)
    requires Arrows(p)
    ensures var m := multiset(p); PosAfter(start, p) == (start.0 + m['>'] - m['<'], start.1 + m['v'] - m['^'])
    decreases |p|
  {
    if p == [] {
      assert multiset(p) == multiset{};
    } else {
      var q, c := p[..|p| - 1], p[|p| - 1];
      assert p == q + [c];
      assert multiset(p) == multiset(q) + multiset{c};
      PosAfterCounts(start, q);
      ArrowCount(multiset(q), c, multiset(p));
      var e, d := PosAfter(start, q), DirectionMove(c);
      assert PosAfter(start, p) == (e.0 + d.0, e.1 + d.1);
    }
  }

  /** One more arrow c moves the net counts by the move of c. */
  lemma ArrowCount(n: multiset<char>, c: char, m: multiset<char>)
    requires IsArrow(c) && m == n + multiset{c}
    ensures m['>'] as int - m['<'] as int == n['>'] as int - n['<'] as int + DirectionMove(c).0
    ensures m['v'] as int - m['^'] as int == n['v'] as int - n['^'] as int + DirectionMove(c).1
  {
  }

  /** n steps in the direction of arrow c. */
  function Offset(p: Coord, c: char, n: int): Coord
  {
    match c
    case '>' => (p.0 + n, p.1)
    case '<' => (p.0 - n, p.1)
    case 'v' => (p.0, p.1 + n)
    case _ => (p.0, p.1 - n)
  }

  lemma {:induction false} PosAfterRepeat(p: Coord, c: char, n: nat)
    requires IsArrow(c)
    ensures Arrows(Repeat(c, n)) && PosAfter(p, Repeat(c, n)) == Offset(p, c, n)
  {
    RepeatAt(c, n);
    if n > 0 {
      RepeatPrefix(c, n, n - 1);
      PosAfterRepeat(p, c, n - 1);
    }
  }

  lemma RepeatArrows(c: char, n: nat)
    requires IsArrow(c)
    ensures Arrows(Repeat(c, n))
  {
    RepeatAt(c, n);
  }

  /** Where an L-shaped route, n arrows x and then m arrows y, has the arm after i moves. */
  lemma LShapePositions(p: Coord, x: char, n: nat, y: char, m: nat, i: nat)
    requires IsArrow(x) && IsArrow(y) && i <= n + m
    ensures Arrows(Repeat(x, n) + Repeat(y, m))
    ensures PosAfter(p, (Repeat(x, n) + Repeat(y, m))[..i]) == if i <= n then Offset(p, x, i) else Offset(Offset(p, x, n), y, i - n)
  {
    var u, w := Repeat(x, n), Repeat(y, m);
    LShapeSecondLeg(p, x, n, y, m);
    if i <= n {
      LShapeFirstLeg(p, x, n, y, m, i);
    } else {
      RepeatPrefix(y, m, i - n);
      assert (u + w)[..i] == u + Repeat(y, i - n);
      LShapeSecondLeg(p, x, n, y, i - n);
    }
  }

  lemma LShapeFirstLeg(p: Coord, x: char, n: nat, y: char, m: nat, i: nat)
    requires IsArrow(x) && IsArrow(y) && i <= n
    ensures Arrows((Repeat(x, n) + Repeat(y, m))[..i])
    ensures PosAfter(p, (Repeat(x, n) + Repeat(y, m))[..i]) == Offset(p, x, i)
  {
    RepeatPrefix(x, n, i);
    assert (Repeat(x, n) + Repeat(y, m))[..i] == Repeat(x, i);
    RepeatArrows(x, i);
    PosAfterRepeat(p, x, i);
  }

  lemma LShapeSecondLeg(p: Coord, x: char, n: nat, y: char, k: nat)
    requires IsArrow(x) && IsArrow(y)
    ensures Arrows(Repeat(x, n) + Repeat(y, k))
    ensures PosAfter(p, Repeat(x, n) + Repeat(y, k)) == Offset(Offset(p, x, n), y, k)
  {
    RepeatArrows(x, n);
    RepeatArrows(y, k);
    PosAfterRepeat(p, x, n);
    PosAfterRepeat(Offset(p, x, n), y, k);
    PosAfterAppend(p, Repeat(x, n), Repeat(y, k));
  }

  /** Membership in GapFreePaths, spelled out: the paths from a to b are exactly the
      rearrangements of the element string that never land on the gap. */
  lemma GapFreePathsMembers(keypad: Keypad, a: char, b: char, p: string)
    requires a in keypad && b in keypad && ForbiddenMarker in keypad
    ensures p in GapFreePaths(keypad, a, b) <==>
      multiset(p) == multiset(ElementString(keypad[a], keypad[b])) && Arrows(p)
      && AvoidsGap(keypad[a], p, keypad[ForbiddenMarker])
  {
    var from, to, gap := keypad[a], keypad[b], keypad[ForbiddenMarker];
    var dx, dy := to.0 - from.0, to.1 - from.1;
    var hc, h, vc, v := XMove(dx), Abs(dx), YMove(dy), Abs(dy);
    var stock := multiset(ElementString(from, to));
    ElementStock(from, to);
    ArrangementsArePermutations(hc, h, vc, v, p);
    if p in GapFreePaths(keypad, a, b) {
      assert p in Arrangements(hc, h, vc, v);
      assert multiset(p) == stock;
    }
    if multiset(p) == stock && Arrows(p) && AvoidsGap(from, p, gap) {
      assert p in Arrangements(hc, h, vc, v);
    }
  }

  /** Every path from a to b is as long as the Manhattan distance, uses only the one
      horizontal arrow and the one vertical arrow that close the distance, never lands on the
      gap and ends on b. */
  lemma ShortestPathShape(keypad: Keypad, a: char, b: char, p: string)
    requires a in keypad && b in keypad && ForbiddenMarker in keypad
    requires p in GapFreePaths(keypad, a, b)
    ensures |p| == Manhattan(keypad[a], keypad[b])
    ensures var dx, dy := keypad[b].0 - keypad[a].0, keypad[b].1 - keypad[a].1;
      forall i :: 0 <= i < |p| ==> p[i] == XMove(dx) || p[i] == YMove(dy)
    ensures Arrows(p) && AvoidsGap(keypad[a], p, keypad[ForbiddenMarker])
    ensures PosAfter(keypad[a], p) == keypad[b]
  {
    var from, to := keypad[a], keypad[b];
    var dx, dy := to.0 - from.0, to.1 - from.1;
    ArrangementLetters(XMove(dx), Abs(dx), YMove(dy), Abs(dy), p);
    ArrangementStock(XMove(dx), Abs(dx), YMove(dy), Abs(dy), p);
    ArrangementEnd(from, to, p);
  }

  /** An arrangement has h + v letters, each one of the two arrows. */
  lemma ArrangementLetters(hc: char, h: nat, vc: char, v: nat, p: string)
    requires hc != vc && p in Arrangements(hc, h, vc, v)
    ensures |p| == h + v && forall i :: 0 <= i < |p| ==> p[i] == hc || p[i] == vc
  {
    ArrangementStock(hc, h, vc, v, p);
    StockCounts(hc, h, vc, v);
    assert |p| == |multiset(p)|;
    forall i | 0 <= i < |p| ensures p[i] == hc || p[i] == vc {
      assert p[i] in multiset(p);
    }
  }

  /** Walking a rearrangement of the element string from from ends on to. */
  lemma ArrangementEnd(from: Coord, to: Coord, p: string)
    requires var dx, dy := to.0 - from.0, to.1 - from.1;
      Arrows(p) && multiset(p) == Stock(XMove(dx), Abs(dx), YMove(dy), Abs(dy))
    ensures PosAfter(from, p) == to
  {
    var m := multiset(p);
    PosAfterCounts(from, p);
    StockNet(to.0 - from.0, to.1 - from.1, m);
  }

  /** The arrows of the element string add up to the offset it closes. */
  lemma StockNet(dx: int, dy: int, m: multiset<char>)
    requires m == Stock(XMove(dx), Abs(dx), YMove(dy), Abs(dy))
    ensures m['>'] as int - m['<'] as int == dx && m['v'] as int - m['^'] as int == dy
  {
    StockCounts(XMove(dx), Abs(dx), YMove(dy), Abs(dy));
  }

  /** The gap sits in the leftmost column and in the top or the bottom row, and no key shares
      its position: both keypads are of this shape. */
  predicate CornerGap(keypad: Keypad)
  {
    && ForbiddenMarker in keypad
    && (forall k :: k in keypad ==> keypad[ForbiddenMarker].0 <= keypad[k].0)
    && ((forall k :: k in keypad ==> keypad[k].1 <= keypad[ForbiddenMarker].1)
        || (forall k :: k in keypad ==> keypad[ForbiddenMarker].1 <= keypad[k].1))
    && (forall k :: k in keypad && k != ForbiddenMarker ==> keypad[k] != keypad[ForbiddenMarker])
  }

  lemma NumericCornerGap()
    ensures CornerGap(NumericKeypad)
  {
    forall k | k in NumericKeypad
      ensures 0 <= NumericKeypad[k].0 && NumericKeypad[k].1 <= 3
      ensures k != ForbiddenMarker ==> NumericKeypad[k] != (0, 3)
    {
    }
  }

  lemma DirectionalCornerGap()
    ensures CornerGap(DirectionalKeypad)
  {
  }

  /** A gap in the corner of the box around from and to, at neither key. */
  predicate GapInCorner(from: Coord, to: Coord, gap: Coord)
  {
    && gap.0 <= from.0 && gap.0 <= to.0 && gap != from && gap != to
    && ((from.1 <= gap.1 && to.1 <= gap.1) || (gap.1 <= from.1 && gap.1 <= to.1))
  }

  /** Horizontal arrows first can only meet such a gap in the column of to. */
  lemma HorizontalFirstHit(from: Coord, to: Coord, gap: Coord, i: nat)
    requires GapInCorner(from, to, gap)
    requires var dx, dy := to.0 - from.0, to.1 - from.1;
      1 <= i <= Abs(dx) + Abs(dy) && Arrows(ElementString(from, to))
      && PosAfter(from, ElementString(from, to)[..i]) == gap
    ensures gap.0 == to.0
  {
    var dx, dy := to.0 - from.0, to.1 - from.1;
    LShapePositions(from, XMove(dx), Abs(dx), YMove(dy), Abs(dy), i);
    HorizontalLeg(from, to, if i <= Abs(dx) then i else Abs(dx));
    if i > Abs(dx) {
      VerticalLeg((to.0, from.1), to, i - Abs(dx));
    }
  }

  /** i horizontal arrows towards to stay in the row of from; all of them reach the column of
      to. */
  lemma HorizontalLeg(from: Coord, to: Coord, i: nat)
    requires i <= Abs(to.0 - from.0)
    ensures var q := Offset(from, XMove(to.0 - from.0), i);
      && q.1 == from.1
      && (to.0 > from.0 ==> q.0 == from.0 + i)
      && (to.0 <= from.0 ==> q.0 == from.0 - i)
      && (i == Abs(to.0 - from.0) ==> q.0 == to.0)
  {
  }

  /** j vertical arrows towards to stay in the column of from. */
  lemma VerticalLeg(from: Coord, to: Coord, j: nat)
    requires j <= Abs(to.1 - from.1)
    ensures var q := Offset(from, YMove(to.1 - from.1), j);
      && q.0 == from.0
      && (to.1 > from.1 ==> q.1 == from.1 + j)
      && (to.1 <= from.1 ==> q.1 == from.1 - j)
      && (j == Abs(to.1 - from.1) ==> q.1 == to.1)
  {
  }

  /** Vertical arrows first then miss the gap. */
  lemma VerticalFirstClear(from: Coord, to: Coord, gap: Coord)
    requires GapInCorner(from, to, gap) && gap.0 == to.0
    ensures var dx, dy := to.0 - from.0, to.1 - from.1;
      var r := Repeat(YMove(dy), Abs(dy)) + Repeat(XMove(dx), Abs(dx));
      Arrows(r) && AvoidsGap(from, r, gap)
  {
    var dx, dy := to.0 - from.0, to.1 - from.1;
    var r := Repeat(YMove(dy), Abs(dy)) + Repeat(XMove(dx), Abs(dx));
    LShapePositions(from, YMove(dy), Abs(dy), XMove(dx), Abs(dx), 0);
    forall j | 1 <= j <= |r| ensures PosAfter(from, r[..j]) != gap {
      LShapePositions(from, YMove(dy), Abs(dy), XMove(dx), Abs(dx), j);
    }
  }

  lemma CornerGapKeys(keypad: Keypad, a: char, b: char)
    requires CornerGap(keypad) && a in keypad && b in keypad && a != ForbiddenMarker && b != ForbiddenMarker
    ensures GapInCorner(keypad[a], keypad[b], keypad[ForbiddenMarker])
  {
  }

  /** With the gap in a corner, one of the two L-shaped routes between two keys avoids it, so
      every pair of keys has a path. */
  lemma GapFreeNonEmpty(keypad: Keypad, a: char, b: char)
    requires CornerGap(keypad) && a in keypad && b in keypad && a != ForbiddenMarker && b != ForbiddenMarker
    ensures GapFreePaths(keypad, a, b) != {}
  {
    var from, to, gap := keypad[a], keypad[b], keypad[ForbiddenMarker];
    var dx, dy := to.0 - from.0, to.1 - from.1;
    var hFirst := ElementString(from, to);
    CornerGapKeys(keypad, a, b);
    LShapePositions(from, XMove(dx), Abs(dx), YMove(dy), Abs(dy), 0);
    if AvoidsGap(from, hFirst, gap) {
      GapFreePathsMembers(keypad, a, b, hFirst);
    } else {
      VerticalFirstMember(keypad, a, b);
    }
  }

  /** When the horizontal-first route meets the gap, the vertical-first one is a path. */
  lemma VerticalFirstMember(keypad: Keypad, a: char, b: char)
    requires a in keypad && b in keypad && ForbiddenMarker in keypad
    requires GapInCorner(keypad[a], keypad[b], keypad[ForbiddenMarker])
    requires Arrows(ElementString(keypad[a], keypad[b]))
    requires !AvoidsGap(keypad[a], ElementString(keypad[a], keypad[b]), keypad[ForbiddenMarker])
    ensures GapFreePaths(keypad, a, b) != {}
  {
    var from, to, gap := keypad[a], keypad[b], keypad[ForbiddenMarker];
    var dx, dy := to.0 - from.0, to.1 - from.1;
    var u, w := Repeat(XMove(dx), Abs(dx)), Repeat(YMove(dy), Abs(dy));
    HorizontalFirstMeets(from, to, gap);
    VerticalFirstClear(from, to, gap);
    assert ElementString(from, to) == u + w;
    assert multiset(w + u) == multiset(w) + multiset(u) == multiset(u + w);
    GapFreePathsMembers(keypad, a, b, w + u);
  }

  /** The horizontal-first route can only meet such a gap in the column of to. */
  lemma HorizontalFirstMeets(from: Coord, to: Coord, gap: Coord)
    requires GapInCorner(from, to, gap) && Arrows(ElementString(from, to))
    requires !AvoidsGap(from, ElementString(from, to), gap)
    ensures gap.0 == to.0
  {
    var hFirst := ElementString(from, to);
    var i :| 1 <= i <= |hFirst| && PosAfter(from, hFirst[..i]) == gap;
    HorizontalFirstHit(from, to, gap, i);
  }

  /** The inner loop of get_all_shortest_paths: walks path from start and reports whether no
      move lands on the gap. */
  method WalkAvoidsGap(start: Coord, path: string, forbiddenPosition: Coord) returns (shouldAdd: bool)
    requires Arrows(path)
    ensures shouldAdd <==> AvoidsGap(start, path, forbiddenPosition)
  {
    var currentCoord := start;
    shouldAdd := true;
    var i := 0;
    while i < |path|
      invariant 0 <= i <= |path|
      invariant currentCoord == PosAfter(start, path[..i])
      invariant forall j :: 1 <= j <= i ==> PosAfter(start, path[..j]) != forbiddenPosition
    {
      var moveTuple := DirectionMove(path[i]);
      var x, y := currentCoord.0 + moveTuple.0, currentCoord.1 + moveTuple.1;
      assert path[..i + 1][..i] == path[..i];
      if (x, y) == forbiddenPosition {
        return false;
      }
      currentCoord := (x, y);
      i := i + 1;
    }
  }

  /** get_all_shortest_paths: the distinct permutations of the element string, each walked
      move by move from the initial key and dropped when it lands on the gap. */
  method GetAllShortestPaths(keypadCoords: Keypad, initialButton: char, targetButton: char) returns (filteredPaths: set<string>)
    requires initialButton in keypadCoords && targetButton in keypadCoords && ForbiddenMarker in keypadCoords
    ensures filteredPaths == GapFreePaths(keypadCoords, initialButton, targetButton)
  {
    var initialPos, targetPos := keypadCoords[initialButton], keypadCoords[targetButton];
    var forbiddenPosition := keypadCoords[ForbiddenMarker];
    var xDifference, yDifference := targetPos.0 - initialPos.0, targetPos.1 - initialPos.1;
    var xMove, yMove := XMove(xDifference), YMove(yDifference);
    var candidatePaths := Arrangements(xMove, Abs(xDifference), yMove, Abs(yDifference));
    filteredPaths := {};
    var remaining := candidatePaths;
    while remaining != {}
      invariant remaining <= candidatePaths
      invariant forall p :: p in filteredPaths <==>
        p in candidatePaths - remaining && Arrows(p) && AvoidsGap(initialPos, p, forbiddenPosition)
      decreases |remaining|
    {
      var path :| path in remaining;
      ArrangementsArrows(xMove, Abs(xDifference), yMove, Abs(yDifference), path);
      var shouldAdd := WalkAvoidsGap(initialPos, path, forbiddenPosition);
      if shouldAdd {
        filteredPaths := filteredPaths + {path};
      }
      remaining := remaining - {path};
    }
  }

  /** The ordered pairs of distinct keys, the gap excluded. */
  predicate IsKeyPair(keypad: Keypad, pr: (char, char))
  {
    pr.0 in keypad && pr.1 in keypad && pr.0 != pr.1 && pr.0 != ForbiddenMarker && pr.1 != ForbiddenMarker
  }

  function KeyPairs(keypad: Keypad): set<(char, char)>
  {
    set a, b | a in keypad && b in keypad && a != b && a != ForbiddenMarker && b != ForbiddenMarker :: (a, b)
  }

  lemma KeyPairsMember(keypad: Keypad, pr: (char, char))
    ensures pr in KeyPairs(keypad) <==> IsKeyPair(keypad, pr)
  {
    if IsKeyPair(keypad, pr) {
      assert (pr.0, pr.1) == pr;
    }
  }

  type PathTable = map<(char, char), set<string>>

  /** Every entry of table holds the gap-free shortest paths of its pair. */
  ghost predicate EntriesHold(keypad: Keypad, table: PathTable)
  {
    && ForbiddenMarker in keypad
    && forall pr :: pr in table ==> pr.0 in keypad && pr.1 in keypad && table[pr] == GapFreePaths(keypad, pr.0, pr.1)
  }

  /** PREPROCESSED_NUMERIC_PATHS / PREPROCESSED_DIRECTIONAL_PATHS: every gap-free shortest
      path for every pair of keys. */
  ghost predicate IsPathTable(keypad: Keypad, table: PathTable)
  {
    table.Keys == KeyPairs(keypad) && EntriesHold(keypad, table)
  }

  lemma EntriesHoldUpdate(keypad: Keypad, table: PathTable, a: char, b: char, paths: set<string>)
    requires EntriesHold(keypad, table) && a in keypad && b in keypad
    requires paths == GapFreePaths(keypad, a, b)
    ensures EntriesHold(keypad, table[(a, b) := paths])
  {
  }

  /** The inner comprehension loop: the entries (a, b) for every key b. */
  method AddPathsFrom(keypad: Keypad, a: char, table0: PathTable) returns (table: PathTable)
    requires a in keypad && EntriesHold(keypad, table0)
    ensures EntriesHold(keypad, table)
    ensures forall pr :: pr in table <==> pr in table0 || (pr.0 == a && IsKeyPair(keypad, pr))
  {
    table := table0;
    var doneB: set<char> := {};
    var restB := keypad.Keys;
    while restB != {}
      invariant doneB + restB == keypad.Keys && doneB !! restB
      invariant EntriesHold(keypad, table)
      invariant forall pr :: pr in table <==> pr in table0 || (pr.0 == a && IsKeyPair(keypad, pr) && pr.1 in doneB)
      decreases |restB|
    {
      var b :| b in restB;
      if a != b && a != ForbiddenMarker && b != ForbiddenMarker {
        var paths := GetAllShortestPaths(keypad, a, b);
        EntriesHoldUpdate(keypad, table, a, b, paths);
        table := table[(a, b) := paths];
      }
      doneB, restB := doneB + {b}, restB - {b};
    }
  }

  /** The comprehension that builds a path table, one get_all_shortest_paths call per pair. */
  method BuildPathTable(keypad: Keypad) returns (table: PathTable)
    requires ForbiddenMarker in keypad
    ensures IsPathTable(keypad, table)
  {
    table := map[];
    var doneA: set<char> := {};
    var restA := keypad.Keys;
    while restA != {}
      invariant doneA + restA == keypad.Keys && doneA !! restA
      invariant EntriesHold(keypad, table)
      invariant forall pr :: pr in table <==> IsKeyPair(keypad, pr) && pr.0 in doneA
      decreases |restA|
    {
      var a :| a in restA;
      table := AddPathsFrom(keypad, a, table);
      doneA, restA := doneA + {a}, restA - {a};
    }
    forall pr ensures pr in table <==> pr in KeyPairs(keypad) {
      KeyPairsMember(keypad, pr);
    }
  }

  /** A path table's entry for (a, b) is non-empty and all its paths have the Manhattan
      length between the keys. */
  lemma EntryFacts(keypad: Keypad, table: PathTable, a: char, b: char)
    requires IsPathTable(keypad, table) && CornerGap(keypad) && IsKeyPair(keypad, (a, b))
    ensures (a, b) in table && table[(a, b)] != {}
    ensures forall p :: p in table[(a, b)] ==> |p| == Manhattan(keypad[a], keypad[b])
  {
    KeyPairsMember(keypad, (a, b));
    GapFreeNonEmpty(keypad, a, b);
    forall p | p in table[(a, b)] ensures |p| == Manhattan(keypad[a], keypad[b]) {
      ShortestPathShape(keypad, a, b, p);
    }
  }

  lemma NumericEntry(table: PathTable, a: char, pa: Coord, b: char, pb: Coord)
    requires IsPathTable(NumericKeypad, table)
    requires a in NumericKeypad && b in NumericKeypad && NumericKeypad[a] == pa && NumericKeypad[b] == pb
    requires a != b && a != ForbiddenMarker && b != ForbiddenMarker
    ensures (a, b) in table && table[(a, b)] != {}
    ensures forall p :: p in table[(a, b)] ==> |p| == Manhattan(pa, pb)
  {
    NumericCornerGap();
    EntryFacts(NumericKeypad, table, a, b);
  }

  /** The lengths the source asserts for the numeric table: A to 0 and 0 to 2 take one move,
      2 to 9 and 9 to A take three. */
  lemma NumericTableFixtures(table: PathTable)
    requires IsPathTable(NumericKeypad, table)
    ensures ('A', '0') in table && table[('A', '0')] != {} && forall p :: p in table[('A', '0')] ==> |p| == 1
    ensures ('0', '2') in table && table[('0', '2')] != {} && forall p :: p in table[('0', '2')] ==> |p| == 1
    ensures ('2', '9') in table && table[('2', '9')] != {} && forall p :: p in table[('2', '9')] ==> |p| == 3
    ensures ('9', 'A') in table && table[('9', 'A')] != {} && forall p :: p in table[('9', 'A')] ==> |p| == 3
  {
    NumericEntry(table, 'A', (2, 3), '0', (1, 3));
    NumericEntry(table, '0', (1, 3), '2', (1, 2));
    NumericEntry(table, '2', (1, 2), '9', (2, 0));
    NumericEntry(table, '9', (2, 0), 'A', (2, 3));
  }

  /** Every (path, end key) of s, with prefix put in front of the path. */
  function Extend(prefix: string, s: set<(string, char)>): set<(string, char)>
  {
    set q | q in s :: (prefix + q.0, q.1)
  }

  /** For every path p of ps, p followed by a press, in front of every entry of s. */
  function ExtendAll(prefix: string, ps: set<string>, s: set<(string, char)>): set<(string, char)>
  {
    set p, q | p in ps && q in s :: (prefix + p + "A" + q.0, q.1)
  }

  /** What _calculate_keypad_paths returns for code typed from button: every key-press
      string on the keypad one level out, with the key the arm ends over. A missing table
      entry is Python's KeyError; it is raised only when some path reaches that entry, so
      an empty entry earlier in the code hides it. */
  function KeypadPaths(code: string, button: char, paths: PathTable): Result<set<(string, char)>>
    decreases |code|
  {
    if code == [] then Ok({([], button)})
    else
      var currentChar, rest := code[0], code[1..];
      if currentChar != button then
        if (button, currentChar) !in paths then Err("KeyError")
        else if paths[(button, currentChar)] == {} then Ok({})
        else
          match KeypadPaths(rest, currentChar, paths)
          case Err(e) => Err(e)
          case Ok(s) => Ok(ExtendAll([], paths[(button, currentChar)], s))
      else
        match KeypadPaths(rest, currentChar, paths)
        case Err(e) => Err(e)
        case Ok(s) => Ok(Extend("A", s))
  }

  /** The key the arm ends over after typing code from button. */
  function LastKey(code: string, button: char): char
  {
    if code == [] then button else code[|code| - 1]
  }

  /** Strings of arrows and presses: what is typed on a directional keypad. */
  predicate Commands(s: string)
  {
    forall i :: 0 <= i < |s| ==> IsArrow(s[i]) || s[i] == 'A'
  }

  /** The positions at which an arm that starts over start presses its key, when it is sent
      the commands s. */
  function PressedAt(start: Coord, s: string): seq<Coord>
    requires Commands(s)
    decreases |s|
  {
    if s == [] then []
    else if s[0] == 'A' then [start] + PressedAt(start, s[1..])
    else
      var m := DirectionMove(s[0]);
      PressedAt((start.0 + m.0, start.1 + m.1), s[1..])
  }

  /** Where the keys of code are. */
  function KeyPositions(keypad: Keypad, code: string): (r: seq<Coord>)
    requires forall i :: 0 <= i < |code| ==> code[i] in keypad
    ensures |r| == |code|
    decreases |code|
  {
    if code == [] then [] else [keypad[code[0]]] + KeyPositions(keypad, code[1..])
  }

  /** The Manhattan distances between consecutive keys of code, starting from button. */
  function RouteLength(keypad: Keypad, code: string, button: char): nat
    requires button in keypad && forall i :: 0 <= i < |code| ==> code[i] in keypad
    decreases |code|
  {
    if code == [] then 0
    else Manhattan(keypad[button], keypad[code[0]]) + RouteLength(keypad, code[1..], code[0])
  }

  /** One arrow from start. */
  lemma PosAfterOne(start: Coord, c: char)
    requires IsArrow(c)
    ensures Arrows([c]) && PosAfter(start, [c]) == (start.0 + DirectionMove(c).0, start.1 + DirectionMove(c).1)
  {
    assert [c][..0] == [];
  }

  /** Arrows and then a press: the arm presses where the arrows took it. */
  lemma {:induction false} PressAfterArrows(start: Coord, u: string, w: string)
    requires Arrows(u) && Commands(w)
    ensures Commands(u + "A" + w)
    ensures PressedAt(start, u + "A" + w) == [PosAfter(start, u)] + PressedAt(PosAfter(start, u), w)
    decreases |u|
  {
    var s := u + "A" + w;
    assert forall i :: 0 <= i < |s| ==> s[i] == (if i < |u| then u[i] else if i == |u| then 'A' else w[i - |u| - 1]);
    if u == [] {
      assert s == "A" + w;
      assert s[1..] == w;
    } else {
      var c, u' := u[0], u[1..];
      assert s[1..] == u' + "A" + w;
      assert Arrows(u');
      PressAfterArrows((start.0 + DirectionMove(c).0, start.1 + DirectionMove(c).1), u', w);
      PosAfterOne(start, c);
      assert u == [c] + u';
      PosAfterAppend(start, [c], u');
    }
  }

  lemma ArrowsHaveNoPress(p: string)
    requires Arrows(p)
    ensures multiset(p)['A'] == 0
  {
  }

  /** The concatenation that KeypadPaths builds, with its multiset. */
  lemma StepPieces(path: string, q: string)
    ensures multiset(path + "A" + q) == multiset(path) + multiset{'A'} + multiset(q)
    ensures |path + "A" + q| == |path| + 1 + |q|
  {
  }

  /** What every expansion of code from button is: every character of code is a key; pressing
      the expansion on the keypad one level out presses exactly the keys of code, in order;
      the arm ends over the last key of code; the expansion has one 'A' per key and is
      |code| plus the Manhattan distances between consecutive keys long. */
  lemma {:induction false} ExpansionShape(keypad: Keypad, paths: PathTable, code: string, button: char, p: string, e: char)
    requires EntriesHold(keypad, paths) && button in keypad
    requires KeypadPaths(code, button, paths).Ok? && (p, e) in KeypadPaths(code, button, paths).value
    ensures forall i :: 0 <= i < |code| ==> code[i] in keypad
    ensures Commands(p) && PressedAt(keypad[button], p) == KeyPositions(keypad, code)
    ensures e == LastKey(code, button)
    ensures multiset(p)['A'] == |code|
    ensures |p| == |code| + RouteLength(keypad, code, button)
    decreases |code|
  {
    if code == [] {
      assert p == [];
    } else {
      var c, rest := code[0], code[1..];
      var path, q := ExpansionFirst(paths, code, button, p, e);
      if c != button {
        ShortestPathShape(keypad, button, c, path);
      }
      ExpansionShape(keypad, paths, rest, c, q, e);
      ExpansionStep(keypad, code, button, path, q);
    }
  }

  /** An expansion of a non-empty code: a table path to its first key (none when the arm is
      already there), a press, and an expansion of the rest. */
  lemma ExpansionFirst(paths: PathTable, code: string, button: char, p: string, e: char) returns (path: string, q: string)
    requires code != []
    requires KeypadPaths(code, button, paths).Ok? && (p, e) in KeypadPaths(code, button, paths).value
    ensures KeypadPaths(code[1..], code[0], paths).Ok? && (q, e) in KeypadPaths(code[1..], code[0], paths).value
    ensures p == path + "A" + q
    ensures code[0] == button ==> path == []
    ensures code[0] != button ==> (button, code[0]) in paths && path in paths[(button, code[0])]
    ensures LastKey(code, button) == LastKey(code[1..], code[0])
  {
    var c, rest := code[0], code[1..];
    var s' := KeypadPaths(rest, c, paths).value;
    var q2;
    if c != button {
      path, q2 :| path in paths[(button, c)] && q2 in s' && (p, e) == ([] + path + "A" + q2.0, q2.1);
      assert [] + path == path;
    } else {
      q2 :| q2 in s' && (p, e) == ("A" + q2.0, q2.1);
      path := [];
    }
    q := q2.0;
  }

  /** The step of ExpansionShape: a route to the first key, a press, and an expansion of the
      rest of the code. */
  lemma ExpansionStep(keypad: Keypad, code: string, button: char, path: string, q: string)
    requires code != [] && button in keypad && code[0] in keypad
    requires Arrows(path) && PosAfter(keypad[button], path) == keypad[code[0]]
    requires |path| == Manhattan(keypad[button], keypad[code[0]])
    requires forall i :: 0 <= i < |code[1..]| ==> code[1..][i] in keypad
    requires Commands(q) && PressedAt(keypad[code[0]], q) == KeyPositions(keypad, code[1..])
    requires multiset(q)['A'] == |code[1..]|
    requires |q| == |code[1..]| + RouteLength(keypad, code[1..], code[0])
    ensures forall i :: 0 <= i < |code| ==> code[i] in keypad
    ensures Commands(path + "A" + q) && PressedAt(keypad[button], path + "A" + q) == KeyPositions(keypad, code)
    ensures multiset(path + "A" + q)['A'] == |code|
    ensures |path + "A" + q| == |code| + RouteLength(keypad, code, button)
  {
    assert forall i :: 1 <= i < |code| ==> code[i] == code[1..][i - 1];
    PressAfterArrows(keypad[button], path, q);
    ArrowsHaveNoPress(path);
    StepPieces(path, q);
  }

  /** Every expansion of a non-empty code ends with a press. */
  lemma ExpansionEndsWithPress(paths: PathTable, code: string, button: char, p: string, e: char)
    requires code != []
    requires KeypadPaths(code, button, paths).Ok? && (p, e) in KeypadPaths(code, button, paths).value
    ensures p != [] && p[|p| - 1] == 'A'
    decreases |code|
  {
    var path, q := ExpansionFirst(paths, code, button, p, e);
    if code[1..] != [] {
      ExpansionEndsWithPress(paths, code[1..], code[0], q, e);
    } else {
      assert q == [];
    }
  }

  /** One table path per move, for a code typed from button. */
  predicate StepChosen(paths: PathTable, from: char, to: char, step: string)
  {
    if from == to then step == [] else (from, to) in paths && step in paths[(from, to)]
  }

  /** steps holds one table path per key of code: to code[0] from button, then to each key
      from the one before. */
  predicate AllChosen(paths: PathTable, code: string, button: char, steps: seq<string>)
    decreases |code|
  {
    |steps| == |code|
    && (code == [] || (StepChosen(paths, button, code[0], steps[0]) && AllChosen(paths, code[1..], code[0], steps[1..])))
  }

  /** The chosen paths, each followed by a press. */
  function Join(steps: seq<string>): string
  {
    if steps == [] then [] else steps[0] + "A" + Join(steps[1..])
  }

  /** Every way of choosing one table path per move is an expansion of the code: no
      interleaving is left out. */
  lemma {:induction false} ChoiceExpands(code: string, button: char, paths: PathTable, steps: seq<string>)
    requires AllChosen(paths, code, button, steps)
    ensures KeypadPaths(code, button, paths).Ok?
    ensures (Join(steps), LastKey(code, button)) in KeypadPaths(code, button, paths).value
    decreases |code|
  {
    if code != [] {
      var c, rest := code[0], code[1..];
      ChoiceExpands(rest, c, paths, steps[1..]);
      var s' := KeypadPaths(rest, c, paths).value;
      var q := (Join(steps[1..]), LastKey(rest, c));
      assert q in s';
      assert LastKey(code, button) == LastKey(rest, c);
      if c != button {
        assert [] + steps[0] == steps[0];
        assert (Join(steps), LastKey(code, button)) == ([] + steps[0] + "A" + q.0, q.1);
      } else {
        assert steps[0] == [];
        assert Join(steps) == "A" + q.0;
      }
    }
  }

  // ---- The recursion of _calculate_keypad_paths ----

  /** possible with the expansions of r, each behind prefix, added; or r's error. */
  function Collected(possible: set<(string, char)>, prefix: string, r: Result<set<(string, char)>>): Result<set<(string, char)>>
  {
    match r
    case Err(e) => Err(e)
    case Ok(s) => Ok(possible + Extend(prefix, s))
  }

  lemma ExtendEmpty(s: set<(string, char)>)
    ensures Extend([], s) == s
  {
    forall q: (string, char) ensures ([] + q.0, q.1) == q {
      assert [] + q.0 == q.0;
    }
  }

  lemma ExtendFront(prefix: string, u: string, s: set<(string, char)>)
    ensures Extend(prefix, Extend(u, s)) == Extend(prefix + u, s)
  {
    forall q | q in s ensures prefix + (u + q.0) == prefix + u + q.0 {
    }
    forall x | x in Extend(prefix + u, s) ensures x in Extend(prefix, Extend(u, s)) {
      var q :| q in s && x == (prefix + u + q.0, q.1);
      assert (u + q.0, q.1) in Extend(u, s);
    }
  }

  lemma ExtendAllFront(prefix: string, ps: set<string>, s: set<(string, char)>)
    ensures Extend(prefix, ExtendAll([], ps, s)) == ExtendAll(prefix, ps, s)
  {
    forall p, q | p in ps && q in s ensures prefix + ([] + p + "A" + q.0) == prefix + p + "A" + q.0 {
    }
    forall x | x in ExtendAll(prefix, ps, s) ensures x in Extend(prefix, ExtendAll([], ps, s)) {
      var p, q :| p in ps && q in s && x == (prefix + p + "A" + q.0, q.1);
      assert ([] + p + "A" + q.0, q.1) in ExtendAll([], ps, s);
    }
  }

  lemma ExtendAllAdd(prefix: string, done: set<string>, p: string, s: set<(string, char)>)
    ensures ExtendAll(prefix, done + {p}, s) == ExtendAll(prefix, done, s) + Extend(prefix + p + "A", s)
  {
    forall x | x in Extend(prefix + p + "A", s) ensures x in ExtendAll(prefix, done + {p}, s) {
      var q :| q in s && x == (prefix + p + "A" + q.0, q.1);
    }
  }

  /** explore: finished expansions go into the shared set possible; a missing table entry
      raises KeyError. */
  method Explore(currentCode: string, currentPath: string, currentButton: char, paths: PathTable, possible: set<(string, char)>)
    returns (r: Result<set<(string, char)>>)
    ensures r == Collected(possible, currentPath, KeypadPaths(currentCode, currentButton, paths))
    decreases |currentCode|, 0
  {
    if |currentCode| == 0 {
      assert currentPath + [] == currentPath;
      assert Extend(currentPath, {([], currentButton)}) == {(currentPath, currentButton)};
      assert KeypadPaths(currentCode, currentButton, paths) == Ok({([], currentButton)});
      return Ok(possible + {(currentPath, currentButton)});
    }
    var currentChar, rest := currentCode[0], currentCode[1..];
    ghost var sub := KeypadPaths(rest, currentChar, paths);
    if currentChar != currentButton {
      if (currentButton, currentChar) !in paths {
        return Err("KeyError");
      }
      var candidatePaths := paths[(currentButton, currentChar)];
      r := ExploreCandidates(candidatePaths, rest, currentPath, currentChar, paths, possible);
      if candidatePaths == {} {
        assert Extend(currentPath, {}) == {};
        assert KeypadPaths(currentCode, currentButton, paths) == Ok({});
        assert r == Ok(possible);
        assert possible + {} == possible;
        assert r == Collected(possible, currentPath, KeypadPaths(currentCode, currentButton, paths));
      } else if sub.Ok? {
        ExtendAllFront(currentPath, candidatePaths, sub.value);
        assert KeypadPaths(currentCode, currentButton, paths) == Ok(ExtendAll([], candidatePaths, sub.value));
        assert r == Collected(possible, currentPath, KeypadPaths(currentCode, currentButton, paths));
      } else {
        assert KeypadPaths(currentCode, currentButton, paths) == Err(sub.msg);
      }
    } else {
      r := Explore(rest, currentPath + "A", currentChar, paths, possible);
      if sub.Ok? {
        ExtendFront(currentPath, "A", sub.value);
        assert KeypadPaths(currentCode, currentButton, paths) == Ok(Extend("A", sub.value));
        assert r == Collected(possible, currentPath, KeypadPaths(currentCode, currentButton, paths));
      } else {
        assert KeypadPaths(currentCode, currentButton, paths) == Err(sub.msg);
      }
    }
  }

  /** The loop of explore over the candidate paths to the next key: each path and a press,
      then the rest of the code. */
  method ExploreCandidates(candidatePaths: set<string>, rest: string, currentPath: string, currentChar: char, paths: PathTable, possible: set<(string, char)>)
    returns (r: Result<set<(string, char)>>)
    ensures candidatePaths == {} ==> r == Ok(possible)
    ensures candidatePaths != {} ==> r == match KeypadPaths(rest, currentChar, paths)
      case Err(e) => Err(e)
      case Ok(s) => Ok(possible + ExtendAll(currentPath, candidatePaths, s))
    decreases |rest|, 1
  {
    ghost var sub := KeypadPaths(rest, currentChar, paths);
    var remaining := candidatePaths;
    var acc := possible;
    while remaining != {}
      invariant remaining <= candidatePaths
      invariant sub.Err? ==> remaining == candidatePaths && acc == possible
      invariant sub.Ok? ==> acc == possible + ExtendAll(currentPath, candidatePaths - remaining, sub.value)
      decreases |remaining|
    {
      var path :| path in remaining;
      var res := Explore(rest, currentPath + path + "A", currentChar, paths, acc);
      if res.Err? {
        return res;
      }
      ExtendAllAdd(currentPath, candidatePaths - remaining, path, sub.value);
      assert candidatePaths - (remaining - {path}) == (candidatePaths - remaining) + {path};
      acc := res.value;
      remaining := remaining - {path};
    }
    assert candidatePaths - remaining == candidatePaths;
    if candidatePaths == {} {
      assert sub.Ok? ==> ExtendAll(currentPath, {}, sub.value) == {};
    }
    return Ok(acc);
  }

  /** _calculate_keypad_paths: every (press string, end key) for code typed from the initial
      button, found by explore. */
  method CalculateKeypadPaths(code: string, initialButton: char, paths: PathTable) returns (r: Result<set<(string, char)>>)
    ensures r == KeypadPaths(code, initialButton, paths)
  {
    r := Explore(code, "", initialButton, paths, {});
    if KeypadPaths(code, initialButton, paths).Ok? {
      var s := KeypadPaths(code, initialButton, paths).value;
      ExtendEmpty(s);
      assert {} + Extend([], s) == s;
    }
  }

  // ---- The expansion fixtures ----

  /** The walk of get_all_shortest_paths, move by move from the front. */
  predicate ClearWalk(start: Coord, p: string, gap: Coord)
    requires Arrows(p)
    decreases |p|
  {
    p == [] ||
      var m := DirectionMove(p[0]);
      var next := (start.0 + m.0, start.1 + m.1);
      next != gap && ClearWalk(next, p[1..], gap)
  }

  lemma {:induction false} ClearWalkAvoidsGap(start: Coord, p: string, gap: Coord)
    requires Arrows(p) && ClearWalk(start, p, gap)
    ensures AvoidsGap(start, p, gap)
    decreases |p|
  {
    if p != [] {
      var m := DirectionMove(p[0]);
      var next := (start.0 + m.0, start.1 + m.1);
      ClearWalkAvoidsGap(next, p[1..], gap);
      PosAfterOne(start, p[0]);
      forall i | 1 <= i <= |p| ensures PosAfter(start, p[..i]) != gap {
        assert p[..i] == [p[0]] + p[1..][..i - 1];
        PosAfterAppend(start, [p[0]], p[1..][..i - 1]);
        if i == 1 {
          assert p[1..][..0] == [];
        }
      }
    }
  }

  /** The number of c in s. */
  function Count(s: string, c: char): nat
    decreases |s|
  {
    if s == [] then 0 else (if s[0] == c then 1 else 0) + Count(s[1..], c)
  }

  lemma {:induction false} CountIsMultiplicity(s: string, c: char)
    ensures multiset(s)[c] == Count(s, c)
    decreases |s|
  {
    if s != [] {
      assert s == [s[0]] + s[1..];
      CountIsMultiplicity(s[1..], c);
    }
  }

  /** p takes the arm from one position to another along a shortest route that keeps clear
      of the gap: as many moves as the Manhattan distance, the right number of each of the two
      arrows of the element string, and no step onto the gap. */
  predicate RouteChecked(from: Coord, to: Coord, gap: Coord, p: string)
  {
    var dx, dy := to.0 - from.0, to.1 - from.1;
    && Arrows(p) && |p| == Abs(dx) + Abs(dy)
    && Count(p, XMove(dx)) == Abs(dx) && Count(p, YMove(dy)) == Abs(dy)
    && ClearWalk(from, p, gap)
  }

  /** A checked route holds the letters of the element string. */
  lemma CheckedLetters(from: Coord, to: Coord, gap: Coord, p: string)
    requires RouteChecked(from, to, gap, p)
    ensures multiset(p) == multiset(ElementString(from, to))
  {
    var dx, dy := to.0 - from.0, to.1 - from.1;
    var hc, vc := XMove(dx), YMove(dy);
    var stock := Stock(hc, Abs(dx), vc, Abs(dy));
    ElementStock(from, to);
    StockCounts(hc, Abs(dx), vc, Abs(dy));
    CountIsMultiplicity(p, hc);
    CountIsMultiplicity(p, vc);
    var m := multiset(p);
    forall c ensures stock[c] <= m[c] {
      if c != hc && c != vc {
        assert stock[c] == 0;
      }
    }
    assert stock <= m;
    assert |m - stock| == 0;
    assert m == stock + (m - stock);
  }

  /** A checked route is in the table. */
  lemma TableHas(keypad: Keypad, table: PathTable, a: char, b: char, p: string)
    requires IsPathTable(keypad, table) && IsKeyPair(keypad, (a, b))
    requires RouteChecked(keypad[a], keypad[b], keypad[ForbiddenMarker], p)
    ensures StepChosen(table, a, b, p)
  {
    KeyPairsMember(keypad, (a, b));
    CheckedLetters(keypad[a], keypad[b], keypad[ForbiddenMarker], p);
    ClearWalkAvoidsGap(keypad[a], p, keypad[ForbiddenMarker]);
    GapFreePathsMembers(keypad, a, b, p);
  }

  lemma NumericRouteA0ViaL()
    ensures RouteChecked((2, 3), (1, 3), (0, 3), "<")
  {
    assert "<"[1..] == [];
    assert Count("<", '<') == 1;
    assert Count("<", '^') == 0;
    assert ClearWalk((1, 3), [], (0, 3));
    assert ClearWalk((2, 3), "<", (0, 3));
  }

  lemma NumericRoute02ViaU()
    ensures RouteChecked((1, 3), (1, 2), (0, 3), "^")
  {
    assert "^"[1..] == [];
    assert Count("^", '<') == 0;
    assert Count("^", '^') == 1;
    assert ClearWalk((1, 2), [], (0, 3));
    assert ClearWalk((1, 3), "^", (0, 3));
  }

  lemma NumericRoute29ViaRUU()
    ensures RouteChecked((1, 2), (2, 0), (0, 3), ">^^")
  {
    assert ">^^"[1..] == "^^";
    assert "^^"[1..] == "^";
    assert "^"[1..] == [];
    assert Count(">^^", '>') == 1;
    assert Count(">^^", '^') == 2;
    assert ClearWalk((2, 0), [], (0, 3));
    assert ClearWalk((2, 1), "^", (0, 3));
    assert ClearWalk((2, 2), "^^", (0, 3));
    assert ClearWalk((1, 2), ">^^", (0, 3));
  }

  lemma NumericRoute9AViaDDD()
    ensures RouteChecked((2, 0), (2, 3), (0, 3), "vvv")
  {
    assert "vvv"[1..] == "vv";
    assert "vv"[1..] == "v";
    assert "v"[1..] == [];
    assert Count("vvv", '<') == 0;
    assert Count("vvv", 'v') == 3;
    assert ClearWalk((2, 3), [], (0, 3));
    assert ClearWalk((2, 2), "v", (0, 3));
    assert ClearWalk((2, 1), "vv", (0, 3));
    assert ClearWalk((2, 0), "vvv", (0, 3));
  }

  lemma DirectionalRouteLAViaRRU()
    ensures RouteChecked((0, 1), (2, 0), (0, 0), ">>^")
  {
    assert ">>^"[1..] == ">^";
    assert ">^"[1..] == "^";
    assert "^"[1..] == [];
    assert Count(">>^", '>') == 2;
    assert Count(">>^", '^') == 1;
    assert ClearWalk((2, 0), [], (0, 0));
    assert ClearWalk((2, 1), "^", (0, 0));
    assert ClearWalk((1, 1), ">^", (0, 0));
    assert ClearWalk((0, 1), ">>^", (0, 0));
  }

  lemma DirectionalRouteLUViaRU()
    ensures RouteChecked((0, 1), (1, 0), (0, 0), ">^")
  {
    assert ">^"[1..] == "^";
    assert "^"[1..] == [];
    assert Count(">^", '>') == 1;
    assert Count(">^", '^') == 1;
    assert ClearWalk((1, 0), [], (0, 0));
    assert ClearWalk((1, 1), "^", (0, 0));
    assert ClearWalk((0, 1), ">^", (0, 0));
  }

  lemma DirectionalRouteLDViaR()
    ensures RouteChecked((0, 1), (1, 1), (0, 0), ">")
  {
    assert ">"[1..] == [];
    assert Count(">", '>') == 1;
    assert Count(">", '^') == 0;
    assert ClearWalk((1, 1), [], (0, 0));
    assert ClearWalk((0, 1), ">", (0, 0));
  }

  lemma DirectionalRouteRAViaU()
    ensures RouteChecked((2, 1), (2, 0), (0, 0), "^")
  {
    assert "^"[1..] == [];
    assert Count("^", '<') == 0;
    assert Count("^", '^') == 1;
    assert ClearWalk((2, 0), [], (0, 0));
    assert ClearWalk((2, 1), "^", (0, 0));
  }

  lemma DirectionalRouteRUViaLU()
    ensures RouteChecked((2, 1), (1, 0), (0, 0), "<^")
  {
    assert "<^"[1..] == "^";
    assert "^"[1..] == [];
    assert Count("<^", '<') == 1;
    assert Count("<^", '^') == 1;
    assert ClearWalk((1, 0), [], (0, 0));
    assert ClearWalk((1, 1), "^", (0, 0));
    assert ClearWalk((2, 1), "<^", (0, 0));
  }

  lemma DirectionalRouteALViaLDL()
    ensures RouteChecked((2, 0), (0, 1), (0, 0), "<v<")
  {
    assert "<v<"[1..] == "v<";
    assert "v<"[1..] == "<";
    assert "<"[1..] == [];
    assert Count("<v<", '<') == 2;
    assert Count("<v<", 'v') == 1;
    assert ClearWalk((0, 1), [], (0, 0));
    assert ClearWalk((1, 1), "<", (0, 0));
    assert ClearWalk((1, 0), "v<", (0, 0));
    assert ClearWalk((2, 0), "<v<", (0, 0));
  }

  lemma DirectionalRouteALViaDLL()
    ensures RouteChecked((2, 0), (0, 1), (0, 0), "v<<")
  {
    assert "v<<"[1..] == "<<";
    assert "<<"[1..] == "<";
    assert "<"[1..] == [];
    assert Count("v<<", '<') == 2;
    assert Count("v<<", 'v') == 1;
    assert ClearWalk((0, 1), [], (0, 0));
    assert ClearWalk((1, 1), "<", (0, 0));
    assert ClearWalk((2, 1), "<<", (0, 0));
    assert ClearWalk((2, 0), "v<<", (0, 0));
  }

  lemma DirectionalRouteARViaD()
    ensures RouteChecked((2, 0), (2, 1), (0, 0), "v")
  {
    assert "v"[1..] == [];
    assert Count("v", '<') == 0;
    assert Count("v", 'v') == 1;
    assert ClearWalk((2, 1), [], (0, 0));
    assert ClearWalk((2, 0), "v", (0, 0));
  }

  lemma DirectionalRouteAUViaL()
    ensures RouteChecked((2, 0), (1, 0), (0, 0), "<")
  {
    assert "<"[1..] == [];
    assert Count("<", '<') == 1;
    assert Count("<", '^') == 0;
    assert ClearWalk((1, 0), [], (0, 0));
    assert ClearWalk((2, 0), "<", (0, 0));
  }

  lemma DirectionalRouteADViaLD()
    ensures RouteChecked((2, 0), (1, 1), (0, 0), "<v")
  {
    assert "<v"[1..] == "v";
    assert "v"[1..] == [];
    assert Count("<v", '<') == 1;
    assert Count("<v", 'v') == 1;
    assert ClearWalk((1, 1), [], (0, 0));
    assert ClearWalk((1, 0), "v", (0, 0));
    assert ClearWalk((2, 0), "<v", (0, 0));
  }

  lemma DirectionalRouteUAViaR()
    ensures RouteChecked((1, 0), (2, 0), (0, 0), ">")
  {
    assert ">"[1..] == [];
    assert Count(">", '>') == 1;
    assert Count(">", '^') == 0;
    assert ClearWalk((2, 0), [], (0, 0));
    assert ClearWalk((1, 0), ">", (0, 0));
  }

  lemma DirectionalRouteDLViaL()
    ensures RouteChecked((1, 1), (0, 1), (0, 0), "<")
  {
    assert "<"[1..] == [];
    assert Count("<", '<') == 1;
    assert Count("<", '^') == 0;
    assert ClearWalk((0, 1), [], (0, 0));
    assert ClearWalk((1, 1), "<", (0, 0));
  }

  lemma DirectionalRouteDAViaRU()
    ensures RouteChecked((1, 1), (2, 0), (0, 0), ">^")
  {
    assert ">^"[1..] == "^";
    assert "^"[1..] == [];
    assert Count(">^", '>') == 1;
    assert Count(">^", '^') == 1;
    assert ClearWalk((2, 0), [], (0, 0));
    assert ClearWalk((2, 1), "^", (0, 0));
    assert ClearWalk((1, 1), ">^", (0, 0));
  }

  /** The table entries the fixtures use, one lemma per move. */
  lemma NumericStepA0ViaL(table: PathTable)
    requires IsPathTable(NumericKeypad, table)
    ensures StepChosen(table, 'A', '0', "<")
  {
    NumericRouteA0ViaL();
    TableHas(NumericKeypad, table, 'A', '0', "<");
  }

  lemma NumericStep02ViaU(table: PathTable)
    requires IsPathTable(NumericKeypad, table)
    ensures StepChosen(table, '0', '2', "^")
  {
    NumericRoute02ViaU();
    TableHas(NumericKeypad, table, '0', '2', "^");
  }

  lemma NumericStep29ViaRUU(table: PathTable)
    requires IsPathTable(NumericKeypad, table)
    ensures StepChosen(table, '2', '9', ">^^")
  {
    NumericRoute29ViaRUU();
    TableHas(NumericKeypad, table, '2', '9', ">^^");
  }

  lemma NumericStep9AViaDDD(table: PathTable)
    requires IsPathTable(NumericKeypad, table)
    ensures StepChosen(table, '9', 'A', "vvv")
  {
    NumericRoute9AViaDDD();
    TableHas(NumericKeypad, table, '9', 'A', "vvv");
  }

  lemma DirectionalStepLAViaRRU(table: PathTable)
    requires IsPathTable(DirectionalKeypad, table)
    ensures StepChosen(table, '<', 'A', ">>^")
  {
    DirectionalRouteLAViaRRU();
    TableHas(DirectionalKeypad, table, '<', 'A', ">>^");
  }

  lemma DirectionalStepLUViaRU(table: PathTable)
    requires IsPathTable(DirectionalKeypad, table)
    ensures StepChosen(table, '<', '^', ">^")
  {
    DirectionalRouteLUViaRU();
    TableHas(DirectionalKeypad, table, '<', '^', ">^");
  }

  lemma DirectionalStepLDViaR(table: PathTable)
    requires IsPathTable(DirectionalKeypad, table)
    ensures StepChosen(table, '<', 'v', ">")
  {
    DirectionalRouteLDViaR();
    TableHas(DirectionalKeypad, table, '<', 'v', ">");
  }

  lemma DirectionalStepRAViaU(table: PathTable)
    requires IsPathTable(DirectionalKeypad, table)
    ensures StepChosen(table, '>', 'A', "^")
  {
    DirectionalRouteRAViaU();
    TableHas(DirectionalKeypad, table, '>', 'A', "^");
  }

  lemma DirectionalStepRUViaLU(table: PathTable)
    requires IsPathTable(DirectionalKeypad, table)
    ensures StepChosen(table, '>', '^', "<^")
  {
    DirectionalRouteRUViaLU();
    TableHas(DirectionalKeypad, table, '>', '^', "<^");
  }

  lemma DirectionalStepALViaLDL(table: PathTable)
    requires IsPathTable(DirectionalKeypad, table)
    ensures StepChosen(table, 'A', '<', "<v<")
  {
    DirectionalRouteALViaLDL();
    TableHas(DirectionalKeypad, table, 'A', '<', "<v<");
  }

  lemma DirectionalStepALViaDLL(table: PathTable)
    requires IsPathTable(DirectionalKeypad, table)
    ensures StepChosen(table, 'A', '<', "v<<")
  {
    DirectionalRouteALViaDLL();
    TableHas(DirectionalKeypad, table, 'A', '<', "v<<");
  }

  lemma DirectionalStepARViaD(table: PathTable)
    requires IsPathTable(DirectionalKeypad, table)
    ensures StepChosen(table, 'A', '>', "v")
  {
    DirectionalRouteARViaD();
    TableHas(DirectionalKeypad, table, 'A', '>', "v");
  }

  lemma DirectionalStepAUViaL(table: PathTable)
    requires IsPathTable(DirectionalKeypad, table)
    ensures StepChosen(table, 'A', '^', "<")
  {
    DirectionalRouteAUViaL();
    TableHas(DirectionalKeypad, table, 'A', '^', "<");
  }

  lemma DirectionalStepADViaLD(table: PathTable)
    requires IsPathTable(DirectionalKeypad, table)
    ensures StepChosen(table, 'A', 'v', "<v")
  {
    DirectionalRouteADViaLD();
    TableHas(DirectionalKeypad, table, 'A', 'v', "<v");
  }

  lemma DirectionalStepUAViaR(table: PathTable)
    requires IsPathTable(DirectionalKeypad, table)
    ensures StepChosen(table, '^', 'A', ">")
  {
    DirectionalRouteUAViaR();
    TableHas(DirectionalKeypad, table, '^', 'A', ">");
  }

  lemma DirectionalStepDLViaL(table: PathTable)
    requires IsPathTable(DirectionalKeypad, table)
    ensures StepChosen(table, 'v', '<', "<")
  {
    DirectionalRouteDLViaL();
    TableHas(DirectionalKeypad, table, 'v', '<', "<");
  }

  lemma DirectionalStepDAViaRU(table: PathTable)
    requires IsPathTable(DirectionalKeypad, table)
    ensures StepChosen(table, 'v', 'A', ">^")
  {
    DirectionalRouteDAViaRU();
    TableHas(DirectionalKeypad, table, 'v', 'A', ">^");
  }

  /** Expansions compose: an expansion of c1 followed by an expansion of c2 from where the
      first one ends is an expansion of c1 + c2. */
  lemma {:induction false} ExpandsConcat(c1: string, c2: string, button: char, paths: PathTable, p1: string, e1: char, p2: string, e2: char)
    requires KeypadPaths(c1, button, paths).Ok? && (p1, e1) in KeypadPaths(c1, button, paths).value
    requires KeypadPaths(c2, e1, paths).Ok? && (p2, e2) in KeypadPaths(c2, e1, paths).value
    ensures KeypadPaths(c1 + c2, button, paths).Ok? && (p1 + p2, e2) in KeypadPaths(c1 + c2, button, paths).value
    decreases |c1|
  {
    if c1 == [] {
      assert p1 == [] && e1 == button;
      assert c1 + c2 == c2 && p1 + p2 == p2;
    } else {
      var path, q := ExpansionFirst(paths, c1, button, p1, e1);
      ExpandsConcat(c1[1..], c2, c1[0], paths, q, e1, p2, e2);
      var code := c1 + c2;
      assert code[0] == c1[0] && code[1..] == c1[1..] + c2;
      ExpansionCons(paths, code, button, path, q + p2, e2);
      assert p1 + p2 == path + "A" + (q + p2);
    }
  }

  /** The converse of ExpansionFirst: a table path to the first key (none when the arm is
      already there), a press and an expansion of the rest make an expansion of the code. */
  lemma ExpansionCons(paths: PathTable, code: string, button: char, path: string, q: string, e: char)
    requires code != []
    requires KeypadPaths(code[1..], code[0], paths).Ok? && (q, e) in KeypadPaths(code[1..], code[0], paths).value
    requires code[0] == button ==> path == []
    requires code[0] != button ==> (button, code[0]) in paths && path in paths[(button, code[0])]
    ensures KeypadPaths(code, button, paths).Ok? && (path + "A" + q, e) in KeypadPaths(code, button, paths).value
  {
    var c, rest := code[0], code[1..];
    var s' := KeypadPaths(rest, c, paths).value;
    if c != button {
      assert [] + path + "A" + q == path + "A" + q;
      assert (path + "A" + q, e) in ExtendAll([], paths[(button, c)], s');
    } else {
      assert path + "A" + q == "A" + q;
      assert (path + "A" + q, e) in Extend("A", s');
    }
  }

  lemma NumericExpands029AChosen(table: PathTable)
    requires StepChosen(table, 'A', '0', "<")
    requires StepChosen(table, '0', '2', "^")
    requires StepChosen(table, '2', '9', ">^^")
    requires StepChosen(table, '9', 'A', "vvv")
    ensures AllChosen(table, "029A", 'A', ["<", "^", ">^^", "vvv"])
  {
  }

  lemma NumericExpands029AJoined()
    ensures Join(["<", "^", ">^^", "vvv"]) == "<A^A>^^AvvvA"
  {
  }

  lemma NumericExpands029A(table: PathTable)
    requires StepChosen(table, 'A', '0', "<")
    requires StepChosen(table, '0', '2', "^")
    requires StepChosen(table, '2', '9', ">^^")
    requires StepChosen(table, '9', 'A', "vvv")
    ensures KeypadPaths("029A", 'A', table).Ok?
    ensures ("<A^A>^^AvvvA", 'A') in KeypadPaths("029A", 'A', table).value
  {
    NumericExpands029AChosen(table);
    NumericExpands029AJoined();
    ChoiceExpands("029A", 'A', table, ["<", "^", ">^^", "vvv"]);
  }

  lemma DirectionalExpandsFirstLevelPart1Chosen(table: PathTable)
    requires StepChosen(table, 'A', '<', "v<<")
    requires StepChosen(table, '<', 'A', ">>^")
    requires StepChosen(table, 'A', '^', "<")
    requires StepChosen(table, '^', 'A', ">")
    ensures AllChosen(table, "<A^A", 'A', ["v<<", ">>^", "<", ">"])
  {
  }

  lemma DirectionalExpandsFirstLevelPart1Joined()
    ensures Join(["v<<", ">>^", "<", ">"]) == "v<<A>>^A<A>A"
  {
  }

  lemma DirectionalExpandsFirstLevelPart1(table: PathTable)
    requires StepChosen(table, 'A', '<', "v<<")
    requires StepChosen(table, '<', 'A', ">>^")
    requires StepChosen(table, 'A', '^', "<")
    requires StepChosen(table, '^', 'A', ">")
    ensures KeypadPaths("<A^A", 'A', table).Ok?
    ensures ("v<<A>>^A<A>A", 'A') in KeypadPaths("<A^A", 'A', table).value
  {
    DirectionalExpandsFirstLevelPart1Chosen(table);
    DirectionalExpandsFirstLevelPart1Joined();
    ChoiceExpands("<A^A", 'A', table, ["v<<", ">>^", "<", ">"]);
  }

  lemma DirectionalExpandsFirstLevelPart2Chosen(table: PathTable)
    requires StepChosen(table, 'A', '>', "v")
    requires StepChosen(table, '>', '^', "<^")
    requires StepChosen(table, '^', 'A', ">")
    ensures AllChosen(table, ">^^A", 'A', ["v", "<^", "", ">"])
  {
  }

  lemma DirectionalExpandsFirstLevelPart2Joined()
    ensures Join(["v", "<^", "", ">"]) == "vA<^AA>A"
  {
  }

  lemma DirectionalExpandsFirstLevelPart2(table: PathTable)
    requires StepChosen(table, 'A', '>', "v")
    requires StepChosen(table, '>', '^', "<^")
    requires StepChosen(table, '^', 'A', ">")
    ensures KeypadPaths(">^^A", 'A', table).Ok?
    ensures ("vA<^AA>A", 'A') in KeypadPaths(">^^A", 'A', table).value
  {
    DirectionalExpandsFirstLevelPart2Chosen(table);
    DirectionalExpandsFirstLevelPart2Joined();
    ChoiceExpands(">^^A", 'A', table, ["v", "<^", "", ">"]);
  }

  lemma DirectionalExpandsFirstLevelPart3Chosen(table: PathTable)
    requires StepChosen(table, 'A', 'v', "<v")
    requires StepChosen(table, 'v', 'A', ">^")
    ensures AllChosen(table, "vvvA", 'A', ["<v", "", "", ">^"])
  {
  }

  lemma DirectionalExpandsFirstLevelPart3Joined()
    ensures Join(["<v", "", "", ">^"]) == "<vAAA>^A"
  {
  }

  lemma DirectionalExpandsFirstLevelPart3(table: PathTable)
    requires StepChosen(table, 'A', 'v', "<v")
    requires StepChosen(table, 'v', 'A', ">^")
    ensures KeypadPaths("vvvA", 'A', table).Ok?
    ensures ("<vAAA>^A", 'A') in KeypadPaths("vvvA", 'A', table).value
  {
    DirectionalExpandsFirstLevelPart3Chosen(table);
    DirectionalExpandsFirstLevelPart3Joined();
    ChoiceExpands("vvvA", 'A', table, ["<v", "", "", ">^"]);
  }

  lemma DirectionalExpandsFirstLevelUpto2(table: PathTable)
    requires KeypadPaths("<A^A", 'A', table).Ok? && ("v<<A>>^A<A>A", 'A') in KeypadPaths("<A^A", 'A', table).value
    requires KeypadPaths(">^^A", 'A', table).Ok? && ("vA<^AA>A", 'A') in KeypadPaths(">^^A", 'A', table).value
    ensures KeypadPaths("<A^A>^^A", 'A', table).Ok? && ("v<<A>>^A<A>AvA<^AA>A", 'A') in KeypadPaths("<A^A>^^A", 'A', table).value
  {
    DirectionalExpandsFirstLevelUpto2Pieces();
    ExpandsConcat("<A^A", ">^^A", 'A', table, "v<<A>>^A<A>A", 'A', "vA<^AA>A", 'A');
  }

  lemma DirectionalExpandsFirstLevelUpto2Pieces()
    ensures "<A^A" + ">^^A" == "<A^A>^^A"
    ensures "v<<A>>^A<A>A" + "vA<^AA>A" == "v<<A>>^A<A>AvA<^AA>A"
  {
    assert "<A^A" + ">^^A" == "<A^A>^^A";
    assert "v<<A>>^A<A>A" + "vA<^AA>A" == "v<<A>>^A<A>AvA<^AA>A";
  }

  lemma DirectionalExpandsFirstLevelUpto3(table: PathTable)
    requires KeypadPaths("<A^A>^^A", 'A', table).Ok? && ("v<<A>>^A<A>AvA<^AA>A", 'A') in KeypadPaths("<A^A>^^A", 'A', table).value
    requires KeypadPaths("vvvA", 'A', table).Ok? && ("<vAAA>^A", 'A') in KeypadPaths("vvvA", 'A', table).value
    ensures KeypadPaths("<A^A>^^AvvvA", 'A', table).Ok? && ("v<<A>>^A<A>AvA<^AA>A<vAAA>^A", 'A') in KeypadPaths("<A^A>^^AvvvA", 'A', table).value
  {
    DirectionalExpandsFirstLevelUpto3Pieces();
    ExpandsConcat("<A^A>^^A", "vvvA", 'A', table, "v<<A>>^A<A>AvA<^AA>A", 'A', "<vAAA>^A", 'A');
  }

  lemma DirectionalExpandsFirstLevelUpto3Pieces()
    ensures "<A^A>^^A" + "vvvA" == "<A^A>^^AvvvA"
    ensures "v<<A>>^A<A>AvA<^AA>A" + "<vAAA>^A" == "v<<A>>^A<A>AvA<^AA>A<vAAA>^A"
  {
    assert "<A^A>^^A" + "vvvA" == "<A^A>^^AvvvA";
    assert "v<<A>>^A<A>AvA<^AA>A" + "<vAAA>^A" == "v<<A>>^A<A>AvA<^AA>A<vAAA>^A";
  }

  lemma DirectionalExpandsFirstLevel(table: PathTable)
    requires StepChosen(table, 'A', '<', "v<<")
    requires StepChosen(table, '<', 'A', ">>^")
    requires StepChosen(table, 'A', '^', "<")
    requires StepChosen(table, '^', 'A', ">")
    requires StepChosen(table, 'A', '>', "v")
    requires StepChosen(table, '>', '^', "<^")
    requires StepChosen(table, 'A', 'v', "<v")
    requires StepChosen(table, 'v', 'A', ">^")
    ensures KeypadPaths("<A^A>^^AvvvA", 'A', table).Ok?
    ensures ("v<<A>>^A<A>AvA<^AA>A<vAAA>^A", 'A') in KeypadPaths("<A^A>^^AvvvA", 'A', table).value
  {
    DirectionalExpandsFirstLevelPart1(table);
    DirectionalExpandsFirstLevelPart2(table);
    DirectionalExpandsFirstLevelPart3(table);
    DirectionalExpandsFirstLevelUpto2(table);
    DirectionalExpandsFirstLevelUpto3(table);
  }

  lemma DirectionalExpandsSecondLevelPart1Chosen(table: PathTable)
    requires StepChosen(table, 'A', 'v', "<v")
    requires StepChosen(table, 'v', '<', "<")
    requires StepChosen(table, '<', 'A', ">>^")
    ensures AllChosen(table, "v<<A", 'A', ["<v", "<", "", ">>^"])
  {
  }

  lemma DirectionalExpandsSecondLevelPart1Joined()
    ensures Join(["<v", "<", "", ">>^"]) == "<vA<AA>>^A"
  {
  }

  lemma DirectionalExpandsSecondLevelPart1(table: PathTable)
    requires StepChosen(table, 'A', 'v', "<v")
    requires StepChosen(table, 'v', '<', "<")
    requires StepChosen(table, '<', 'A', ">>^")
    ensures KeypadPaths("v<<A", 'A', table).Ok?
    ensures ("<vA<AA>>^A", 'A') in KeypadPaths("v<<A", 'A', table).value
  {
    DirectionalExpandsSecondLevelPart1Chosen(table);
    DirectionalExpandsSecondLevelPart1Joined();
    ChoiceExpands("v<<A", 'A', table, ["<v", "<", "", ">>^"]);
  }

  lemma DirectionalExpandsSecondLevelPart2Chosen(table: PathTable)
    requires StepChosen(table, 'A', '>', "v")
    requires StepChosen(table, '>', '^', "<^")
    requires StepChosen(table, '^', 'A', ">")
    ensures AllChosen(table, ">>^A", 'A', ["v", "", "<^", ">"])
  {
  }

  lemma DirectionalExpandsSecondLevelPart2Joined()
    ensures Join(["v", "", "<^", ">"]) == "vAA<^A>A"
  {
  }

  lemma DirectionalExpandsSecondLevelPart2(table: PathTable)
    requires StepChosen(table, 'A', '>', "v")
    requires StepChosen(table, '>', '^', "<^")
    requires StepChosen(table, '^', 'A', ">")
    ensures KeypadPaths(">>^A", 'A', table).Ok?
    ensures ("vAA<^A>A", 'A') in KeypadPaths(">>^A", 'A', table).value
  {
    DirectionalExpandsSecondLevelPart2Chosen(table);
    DirectionalExpandsSecondLevelPart2Joined();
    ChoiceExpands(">>^A", 'A', table, ["v", "", "<^", ">"]);
  }

  lemma DirectionalExpandsSecondLevelPart3Chosen(table: PathTable)
    requires StepChosen(table, 'A', '<', "<v<")
    requires StepChosen(table, '<', 'A', ">>^")
    requires StepChosen(table, 'A', '>', "v")
    requires StepChosen(table, '>', 'A', "^")
    ensures AllChosen(table, "<A>A", 'A', ["<v<", ">>^", "v", "^"])
  {
  }

  lemma DirectionalExpandsSecondLevelPart3Joined()
    ensures Join(["<v<", ">>^", "v", "^"]) == "<v<A>>^AvA^A"
  {
  }

  lemma DirectionalExpandsSecondLevelPart3(table: PathTable)
    requires StepChosen(table, 'A', '<', "<v<")
    requires StepChosen(table, '<', 'A', ">>^")
    requires StepChosen(table, 'A', '>', "v")
    requires StepChosen(table, '>', 'A', "^")
    ensures KeypadPaths("<A>A", 'A', table).Ok?
    ensures ("<v<A>>^AvA^A", 'A') in KeypadPaths("<A>A", 'A', table).value
  {
    DirectionalExpandsSecondLevelPart3Chosen(table);
    DirectionalExpandsSecondLevelPart3Joined();
    ChoiceExpands("<A>A", 'A', table, ["<v<", ">>^", "v", "^"]);
  }

  lemma DirectionalExpandsSecondLevelPart4Chosen(table: PathTable)
    requires StepChosen(table, 'A', 'v', "<v")
    requires StepChosen(table, 'v', 'A', ">^")
    requires StepChosen(table, 'A', '<', "<v<")
    requires StepChosen(table, '<', '^', ">^")
    ensures AllChosen(table, "vA<^", 'A', ["<v", ">^", "<v<", ">^"])
  {
  }

  lemma DirectionalExpandsSecondLevelPart4Joined()
    ensures Join(["<v", ">^", "<v<", ">^"]) == "<vA>^A<v<A>^A"
  {
  }

  lemma DirectionalExpandsSecondLevelPart4(table: PathTable)
    requires StepChosen(table, 'A', 'v', "<v")
    requires StepChosen(table, 'v', 'A', ">^")
    requires StepChosen(table, 'A', '<', "<v<")
    requires StepChosen(table, '<', '^', ">^")
    ensures KeypadPaths("vA<^", 'A', table).Ok?
    ensures ("<vA>^A<v<A>^A", '^') in KeypadPaths("vA<^", 'A', table).value
  {
    DirectionalExpandsSecondLevelPart4Chosen(table);
    DirectionalExpandsSecondLevelPart4Joined();
    ChoiceExpands("vA<^", 'A', table, ["<v", ">^", "<v<", ">^"]);
  }

  lemma DirectionalExpandsSecondLevelPart5Chosen(table: PathTable)
    requires StepChosen(table, '^', 'A', ">")
    requires StepChosen(table, 'A', '>', "v")
    requires StepChosen(table, '>', 'A', "^")
    ensures AllChosen(table, "AA>A", '^', [">", "", "v", "^"])
  {
  }

  lemma DirectionalExpandsSecondLevelPart5Joined()
    ensures Join([">", "", "v", "^"]) == ">AAvA^A"
  {
  }

  lemma DirectionalExpandsSecondLevelPart5(table: PathTable)
    requires StepChosen(table, '^', 'A', ">")
    requires StepChosen(table, 'A', '>', "v")
    requires StepChosen(table, '>', 'A', "^")
    ensures KeypadPaths("AA>A", '^', table).Ok?
    ensures (">AAvA^A", 'A') in KeypadPaths("AA>A", '^', table).value
  {
    DirectionalExpandsSecondLevelPart5Chosen(table);
    DirectionalExpandsSecondLevelPart5Joined();
    ChoiceExpands("AA>A", '^', table, [">", "", "v", "^"]);
  }

  lemma DirectionalExpandsSecondLevelPart6Chosen(table: PathTable)
    requires StepChosen(table, 'A', '<', "<v<")
    requires StepChosen(table, '<', 'v', ">")
    requires StepChosen(table, 'v', 'A', ">^")
    ensures AllChosen(table, "<vAA", 'A', ["<v<", ">", ">^", ""])
  {
  }

  lemma DirectionalExpandsSecondLevelPart6Joined()
    ensures Join(["<v<", ">", ">^", ""]) == "<v<A>A>^AA"
  {
  }

  lemma DirectionalExpandsSecondLevelPart6(table: PathTable)
    requires StepChosen(table, 'A', '<', "<v<")
    requires StepChosen(table, '<', 'v', ">")
    requires StepChosen(table, 'v', 'A', ">^")
    ensures KeypadPaths("<vAA", 'A', table).Ok?
    ensures ("<v<A>A>^AA", 'A') in KeypadPaths("<vAA", 'A', table).value
  {
    DirectionalExpandsSecondLevelPart6Chosen(table);
    DirectionalExpandsSecondLevelPart6Joined();
    ChoiceExpands("<vAA", 'A', table, ["<v<", ">", ">^", ""]);
  }

  lemma DirectionalExpandsSecondLevelPart7Chosen(table: PathTable)
    requires StepChosen(table, 'A', '>', "v")
    requires StepChosen(table, '>', '^', "<^")
    requires StepChosen(table, '^', 'A', ">")
    ensures AllChosen(table, "A>^A", 'A', ["", "v", "<^", ">"])
  {
  }

  lemma DirectionalExpandsSecondLevelPart7Joined()
    ensures Join(["", "v", "<^", ">"]) == "AvA<^A>A"
  {
  }

  lemma DirectionalExpandsSecondLevelPart7(table: PathTable)
    requires StepChosen(table, 'A', '>', "v")
    requires StepChosen(table, '>', '^', "<^")
    requires StepChosen(table, '^', 'A', ">")
    ensures KeypadPaths("A>^A", 'A', table).Ok?
    ensures ("AvA<^A>A", 'A') in KeypadPaths("A>^A", 'A', table).value
  {
    DirectionalExpandsSecondLevelPart7Chosen(table);
    DirectionalExpandsSecondLevelPart7Joined();
    ChoiceExpands("A>^A", 'A', table, ["", "v", "<^", ">"]);
  }

  lemma DirectionalExpandsSecondLevelUpto2(table: PathTable)
    requires KeypadPaths("v<<A", 'A', table).Ok? && ("<vA<AA>>^A", 'A') in KeypadPaths("v<<A", 'A', table).value
    requires KeypadPaths(">>^A", 'A', table).Ok? && ("vAA<^A>A", 'A') in KeypadPaths(">>^A", 'A', table).value
    ensures KeypadPaths("v<<A>>^A", 'A', table).Ok? && ("<vA<AA>>^AvAA<^A>A", 'A') in KeypadPaths("v<<A>>^A", 'A', table).value
  {
    DirectionalExpandsSecondLevelUpto2Pieces();
    ExpandsConcat("v<<A", ">>^A", 'A', table, "<vA<AA>>^A", 'A', "vAA<^A>A", 'A');
  }

  lemma DirectionalExpandsSecondLevelUpto2Pieces()
    ensures "v<<A" + ">>^A" == "v<<A>>^A"
    ensures "<vA<AA>>^A" + "vAA<^A>A" == "<vA<AA>>^AvAA<^A>A"
  {
    assert "v<<A" + ">>^A" == "v<<A>>^A";
    assert "<vA<AA>>^A" + "vAA<^A>A" == "<vA<AA>>^AvAA<^A>A";
  }

  lemma DirectionalExpandsSecondLevelUpto3(table: PathTable)
    requires KeypadPaths("v<<A>>^A", 'A', table).Ok? && ("<vA<AA>>^AvAA<^A>A", 'A') in KeypadPaths("v<<A>>^A", 'A', table).value
    requires KeypadPaths("<A>A", 'A', table).Ok? && ("<v<A>>^AvA^A", 'A') in KeypadPaths("<A>A", 'A', table).value
    ensures KeypadPaths("v<<A>>^A<A>A", 'A', table).Ok? && ("<vA<AA>>^AvAA<^A>A<v<A>>^AvA^A", 'A') in KeypadPaths("v<<A>>^A<A>A", 'A', table).value
  {
    DirectionalExpandsSecondLevelUpto3Pieces();
    ExpandsConcat("v<<A>>^A", "<A>A", 'A', table, "<vA<AA>>^AvAA<^A>A", 'A', "<v<A>>^AvA^A", 'A');
  }

  lemma DirectionalExpandsSecondLevelUpto3Pieces()
    ensures "v<<A>>^A" + "<A>A" == "v<<A>>^A<A>A"
    ensures "<vA<AA>>^AvAA<^A>A" + "<v<A>>^AvA^A" == "<vA<AA>>^AvAA<^A>A<v<A>>^AvA^A"
  {
    assert "v<<A>>^A" + "<A>A" == "v<<A>>^A<A>A";
    assert "<vA<AA>>^AvAA<^A>A" + "<v<A>>^AvA^A" == "<vA<AA>>^AvAA<^A>A<v<A>>^AvA^A";
  }

  lemma DirectionalExpandsSecondLevelUpto4(table: PathTable)
    requires KeypadPaths("v<<A>>^A<A>A", 'A', table).Ok? && ("<vA<AA>>^AvAA<^A>A<v<A>>^AvA^A", 'A') in KeypadPaths("v<<A>>^A<A>A", 'A', table).value
    requires KeypadPaths("vA<^", 'A', table).Ok? && ("<vA>^A<v<A>^A", '^') in KeypadPaths("vA<^", 'A', table).value
    ensures KeypadPaths("v<<A>>^A<A>AvA<^", 'A', table).Ok? && ("<vA<AA>>^AvAA<^A>A<v<A>>^AvA^A<vA>^A<v<A>^A", '^') in KeypadPaths("v<<A>>^A<A>AvA<^", 'A', table).value
  {
    DirectionalExpandsSecondLevelUpto4Pieces();
    ExpandsConcat("v<<A>>^A<A>A", "vA<^", 'A', table, "<vA<AA>>^AvAA<^A>A<v<A>>^AvA^A", 'A', "<vA>^A<v<A>^A", '^');
  }

  lemma DirectionalExpandsSecondLevelUpto4Pieces()
    ensures "v<<A>>^A<A>A" + "vA<^" == "v<<A>>^A<A>AvA<^"
    ensures "<vA<AA>>^AvAA<^A>A<v<A>>^AvA^A" + "<vA>^A<v<A>^A" == "<vA<AA>>^AvAA<^A>A<v<A>>^AvA^A<vA>^A<v<A>^A"
  {
    assert "v<<A>>^A<A>A" + "vA<^" == "v<<A>>^A<A>AvA<^";
    assert "<vA<AA>>^AvAA<^A>A<v<A>>^AvA^A" + "<vA>^A<v<A>^A" == "<vA<AA>>^AvAA<^A>A<v<A>>^AvA^A<vA>^A<v<A>^A";
  }

  lemma DirectionalExpandsSecondLevelUpto5(table: PathTable)
    requires KeypadPaths("v<<A>>^A<A>AvA<^", 'A', table).Ok? && ("<vA<AA>>^AvAA<^A>A<v<A>>^AvA^A<vA>^A<v<A>^A", '^') in KeypadPaths("v<<A>>^A<A>AvA<^", 'A', table).value
    requires KeypadPaths("AA>A", '^', table).Ok? && (">AAvA^A", 'A') in KeypadPaths("AA>A", '^', table).value
    ensures KeypadPaths("v<<A>>^A<A>AvA<^AA>A", 'A', table).Ok? && ("<vA<AA>>^AvAA<^A>A<v<A>>^AvA^A<vA>^A<v<A>^A>AAvA^A", 'A') in KeypadPaths("v<<A>>^A<A>AvA<^AA>A", 'A', table).value
  {
    DirectionalExpandsSecondLevelUpto5Pieces();
    ExpandsConcat("v<<A>>^A<A>AvA<^", "AA>A", 'A', table, "<vA<AA>>^AvAA<^A>A<v<A>>^AvA^A<vA>^A<v<A>^A", '^', ">AAvA^A", 'A');
  }

  lemma DirectionalExpandsSecondLevelUpto5Pieces()
    ensures "v<<A>>^A<A>AvA<^" + "AA>A" == "v<<A>>^A<A>AvA<^AA>A"
    ensures "<vA<AA>>^AvAA<^A>A<v<A>>^AvA^A<vA>^A<v<A>^A" + ">AAvA^A" == "<vA<AA>>^AvAA<^A>A<v<A>>^AvA^A<vA>^A<v<A>^A>AAvA^A"
  {
    assert "v<<A>>^A<A>AvA<^" + "AA>A" == "v<<A>>^A<A>AvA<^AA>A";
    assert "<vA<AA>>^AvAA<^A>A<v<A>>^AvA^A<vA>^A<v<A>^A" + ">AAvA^A" == "<vA<AA>>^AvAA<^A>A<v<A>>^AvA^A<vA>^A<v<A>^A>AAvA^A";
  }

  lemma DirectionalExpandsSecondLevelUpto6(table: PathTable)
    requires KeypadPaths("v<<A>>^A<A>AvA<^AA>A", 'A', table).Ok? && ("<vA<AA>>^AvAA<^A>A<v<A>>^AvA^A<vA>^A<v<A>^A>AAvA^A", 'A') in KeypadPaths("v<<A>>^A<A>AvA<^AA>A", 'A', table).value
    requires KeypadPaths("<vAA", 'A', table).Ok? && ("<v<A>A>^AA", 'A') in KeypadPaths("<vAA", 'A', table).value
    ensures KeypadPaths("v<<A>>^A<A>AvA<^AA>A<vAA", 'A', table).Ok? && ("<vA<AA>>^AvAA<^A>A<v<A>>^AvA^A<vA>^A<v<A>^A>AAvA^A<v<A>A>^AA", 'A') in KeypadPaths("v<<A>>^A<A>AvA<^AA>A<vAA", 'A', table).value
  {
    DirectionalExpandsSecondLevelUpto6Pieces();
    ExpandsConcat("v<<A>>^A<A>AvA<^AA>A", "<vAA", 'A', table, "<vA<AA>>^AvAA<^A>A<v<A>>^AvA^A<vA>^A<v<A>^A>AAvA^A", 'A', "<v<A>A>^AA", 'A');
  }

  lemma DirectionalExpandsSecondLevelUpto6Pieces()
    ensures "v<<A>>^A<A>AvA<^AA>A" + "<vAA" == "v<<A>>^A<A>AvA<^AA>A<vAA"
    ensures "<vA<AA>>^AvAA<^A>A<v<A>>^AvA^A<vA>^A<v<A>^A>AAvA^A" + "<v<A>A>^AA" == "<vA<AA>>^AvAA<^A>A<v<A>>^AvA^A<vA>^A<v<A>^A>AAvA^A<v<A>A>^AA"
  {
    assert "v<<A>>^A<A>AvA<^AA>A" + "<vAA" == "v<<A>>^A<A>AvA<^AA>A<vAA";
    assert "<vA<AA>>^AvAA<^A>A<v<A>>^AvA^A<vA>^A<v<A>^A>AAvA^A" + "<v<A>A>^AA" == "<vA<AA>>^AvAA<^A>A<v<A>>^AvA^A<vA>^A<v<A>^A>AAvA^A<v<A>A>^AA";
  }

  lemma DirectionalExpandsSecondLevelUpto7(table: PathTable)
    requires KeypadPaths("v<<A>>^A<A>AvA<^AA>A<vAA", 'A', table).Ok? && ("<vA<AA>>^AvAA<^A>A<v<A>>^AvA^A<vA>^A<v<A>^A>AAvA^A<v<A>A>^AA", 'A') in KeypadPaths("v<<A>>^A<A>AvA<^AA>A<vAA", 'A', table).value
    requires KeypadPaths("A>^A", 'A', table).Ok? && ("AvA<^A>A", 'A') in KeypadPaths("A>^A", 'A', table).value
    ensures KeypadPaths("v<<A>>^A<A>AvA<^AA>A<vAAA>^A", 'A', table).Ok? && ("<vA<AA>>^AvAA<^A>A<v<A>>^AvA^A<vA>^A<v<A>^A>AAvA^A<v<A>A>^AAAvA<^A>A", 'A') in KeypadPaths("v<<A>>^A<A>AvA<^AA>A<vAAA>^A", 'A', table).value
  {
    DirectionalExpandsSecondLevelUpto7Pieces();
    ExpandsConcat("v<<A>>^A<A>AvA<^AA>A<vAA", "A>^A", 'A', table, "<vA<AA>>^AvAA<^A>A<v<A>>^AvA^A<vA>^A<v<A>^A>AAvA^A<v<A>A>^AA", 'A', "AvA<^A>A", 'A');
  }

  lemma DirectionalExpandsSecondLevelUpto7Pieces()
    ensures "v<<A>>^A<A>AvA<^AA>A<vAA" + "A>^A" == "v<<A>>^A<A>AvA<^AA>A<vAAA>^A"
    ensures "<vA<AA>>^AvAA<^A>A<v<A>>^AvA^A<vA>^A<v<A>^A>AAvA^A<v<A>A>^AA" + "AvA<^A>A" == "<vA<AA>>^AvAA<^A>A<v<A>>^AvA^A<vA>^A<v<A>^A>AAvA^A<v<A>A>^AAAvA<^A>A"
  {
    assert "v<<A>>^A<A>AvA<^AA>A<vAA" + "A>^A" == "v<<A>>^A<A>AvA<^AA>A<vAAA>^A";
    assert "<vA<AA>>^AvAA<^A>A<v<A>>^AvA^A<vA>^A<v<A>^A>AAvA^A<v<A>A>^AA" + "AvA<^A>A" == "<vA<AA>>^AvAA<^A>A<v<A>>^AvA^A<vA>^A<v<A>^A>AAvA^A<v<A>A>^AAAvA<^A>A";
  }

  lemma DirectionalExpandsSecondLevel(table: PathTable)
    requires StepChosen(table, 'A', 'v', "<v")
    requires StepChosen(table, 'v', '<', "<")
    requires StepChosen(table, '<', 'A', ">>^")
    requires StepChosen(table, 'A', '>', "v")
    requires StepChosen(table, '>', '^', "<^")
    requires StepChosen(table, '^', 'A', ">")
    requires StepChosen(table, 'A', '<', "<v<")
    requires StepChosen(table, '>', 'A', "^")
    requires StepChosen(table, 'v', 'A', ">^")
    requires StepChosen(table, '<', '^', ">^")
    requires StepChosen(table, '<', 'v', ">")
    ensures KeypadPaths("v<<A>>^A<A>AvA<^AA>A<vAAA>^A", 'A', table).Ok?
    ensures ("<vA<AA>>^AvAA<^A>A<v<A>>^AvA^A<vA>^A<v<A>^A>AAvA^A<v<A>A>^AAAvA<^A>A", 'A') in KeypadPaths("v<<A>>^A<A>AvA<^AA>A<vAAA>^A", 'A', table).value
  {
    DirectionalExpandsSecondLevelPart1(table);
    DirectionalExpandsSecondLevelPart2(table);
    DirectionalExpandsSecondLevelPart3(table);
    DirectionalExpandsSecondLevelPart4(table);
    DirectionalExpandsSecondLevelPart5(table);
    DirectionalExpandsSecondLevelPart6(table);
    DirectionalExpandsSecondLevelPart7(table);
    DirectionalExpandsSecondLevelUpto2(table);
    DirectionalExpandsSecondLevelUpto3(table);
    DirectionalExpandsSecondLevelUpto4(table);
    DirectionalExpandsSecondLevelUpto5(table);
    DirectionalExpandsSecondLevelUpto6(table);
    DirectionalExpandsSecondLevelUpto7(table);
  }


  /** The expansions the source asserts: "<A^A>^^AvvvA" expands "029A" on the numeric keypad,
      the 28 presses expand it on a directional keypad, and the 68 presses expand those. */
  lemma ExpansionFixtures(numeric: PathTable, directional: PathTable)
    requires IsPathTable(NumericKeypad, numeric) && IsPathTable(DirectionalKeypad, directional)
    ensures KeypadPaths("029A", 'A', numeric).Ok?
    ensures ("<A^A>^^AvvvA", 'A') in KeypadPaths("029A", 'A', numeric).value
    ensures KeypadPaths("<A^A>^^AvvvA", 'A', directional).Ok?
    ensures ("v<<A>>^A<A>AvA<^AA>A<vAAA>^A", 'A') in KeypadPaths("<A^A>^^AvvvA", 'A', directional).value
    ensures KeypadPaths("v<<A>>^A<A>AvA<^AA>A<vAAA>^A", 'A', directional).Ok?
    ensures ("<vA<AA>>^AvAA<^A>A<v<A>>^AvA^A<vA>^A<v<A>^A>AAvA^A<v<A>A>^AAAvA<^A>A", 'A')
      in KeypadPaths("v<<A>>^A<A>AvA<^AA>A<vAAA>^A", 'A', directional).value
  {
    NumericStepA0ViaL(numeric);
    NumericStep02ViaU(numeric);
    NumericStep29ViaRUU(numeric);
    NumericStep9AViaDDD(numeric);
    DirectionalStepLAViaRRU(directional);
    DirectionalStepLUViaRU(directional);
    DirectionalStepLDViaR(directional);
    DirectionalStepRAViaU(directional);
    DirectionalStepRUViaLU(directional);
    DirectionalStepALViaLDL(directional);
    DirectionalStepALViaDLL(directional);
    DirectionalStepARViaD(directional);
    DirectionalStepAUViaL(directional);
    DirectionalStepADViaLD(directional);
    DirectionalStepUAViaR(directional);
    DirectionalStepDLViaL(directional);
    DirectionalStepDAViaRU(directional);
    NumericExpands029A(numeric);
    DirectionalExpandsFirstLevel(directional);
    DirectionalExpandsSecondLevel(directional);
  }

  // ---- calculate_sequence_complexity ----

  /** calculate_sequence_complexity: the number written before the code's last key times
      the length of the shortest sequence. int() of an empty prefix, or of one that is not
      all digits, raises ValueError. */
  function SequenceComplexity(code: string, length: nat): (r: Result<nat>)
    ensures r.Ok? <==> |code| >= 2 && IsDigits(code[..|code| - 1])
    ensures r.Err? ==> r.msg == "ValueError"
  {
    var digits := if code == [] then [] else code[..|code| - 1];
    if digits != [] && IsDigits(digits) then Ok(FromDecimal(digits) * length) else Err("ValueError")
  }

  lemma {:induction false} LeadingZeros(k: nat)
    ensures IsDigits(Repeat('0', k)) && FromDecimal(Repeat('0', k)) == 0
  {
    if k > 0 {
      LeadingZeros(k - 1);
      var z, y := Repeat('0', k), Repeat('0', k - 1);
      assert z == y + ['0'] && z[..k - 1] == y;
      forall i | 0 <= i < k ensures '0' <= z[i] <= '9' {
        if i < k - 1 {
          assert z[i] == y[i];
        }
      }
    }
  }

  /** A code is any number of zeros, the decimal digits of n and a final key: its complexity
      is n times the length, zeros and all. */
  lemma ComplexityOfCode(zeros: nat, n: nat, key: char, length: nat)
    ensures SequenceComplexity(Repeat('0', zeros) + ToDecimal(n) + [key], length) == Ok(n * length)
  {
    var z, d := Repeat('0', zeros), ToDecimal(n);
    var code := z + d + [key];
    assert code[..|code| - 1] == z + d;
    LeadingZeros(zeros);
    assert IsDigits(z + d);
    FromDecimalAppend(z, d);
    assert FromDecimal(z) * Pow10(|d|) == 0;
    DecimalRoundTrip(n);
    assert FromDecimal(z + d) == n;
  }

  /** A code of digits and a final key: its complexity is the value of the digits times the
      length. */
  lemma ComplexityOfDigits(digits: string, key: char, length: nat)
    requires digits != [] && IsDigits(digits)
    ensures SequenceComplexity(digits + [key], length) == Ok(FromDecimal(digits) * length)
  {
    assert (digits + [key])[..|digits|] == digits;
  }

  /** Without a digit before the last key there is no number. */
  lemma ComplexityNeedsDigits(code: string, length: nat)
    requires |code| <= 1 || exists i :: 0 <= i < |code| - 1 && !('0' <= code[i] <= '9')
    ensures SequenceComplexity(code, length) == Err("ValueError")
  {
    if |code| > 1 {
      var i :| 0 <= i < |code| - 1 && !('0' <= code[i] <= '9');
      assert code[..|code| - 1][i] == code[i];
    }
  }

  /** The products the source lists for its five example codes. */
  lemma ComplexityFixtures()
    ensures SequenceComplexity("029A", 68) == Ok(1972)
    ensures SequenceComplexity("980A", 60) == Ok(58800)
    ensures SequenceComplexity("179A", 68) == Ok(12172)
    ensures SequenceComplexity("456A", 64) == Ok(29184)
    ensures SequenceComplexity("379A", 64) == Ok(24256)
  {
    Complexity029A();
    Complexity980A();
    Complexity179A();
    Complexity456A();
    Complexity379A();
  }

  lemma Complexity029A()
    ensures SequenceComplexity("029A", 68) == Ok(1972)
  {
    ThreeDigitValue('0', '2', '9');
    ComplexityOfDigits("029", 'A', 68);
    assert "029" + ['A'] == "029A";
  }

  lemma Complexity980A()
    ensures SequenceComplexity("980A", 60) == Ok(58800)
  {
    ThreeDigitValue('9', '8', '0');
    ComplexityOfDigits("980", 'A', 60);
    assert "980" + ['A'] == "980A";
  }

  lemma Complexity179A()
    ensures SequenceComplexity("179A", 68) == Ok(12172)
  {
    ThreeDigitValue('1', '7', '9');
    ComplexityOfDigits("179", 'A', 68);
    assert "179" + ['A'] == "179A";
  }

  lemma Complexity456A()
    ensures SequenceComplexity("456A", 64) == Ok(29184)
  {
    ThreeDigitValue('4', '5', '6');
    ComplexityOfDigits("456", 'A', 64);
    assert "456" + ['A'] == "456A";
  }

  lemma Complexity379A()
    ensures SequenceComplexity("379A", 64) == Ok(24256)
  {
    ThreeDigitValue('3', '7', '9');
    ComplexityOfDigits("379", 'A', 64);
    assert "379" + ['A'] == "379A";
  }

  // ---- calculate_shortest_manual_press_sequence_length, as a specification ----

  /** The tables as the module builds them. */
  ghost function TableOf(keypad: Keypad): (t: PathTable)
    requires ForbiddenMarker in keypad
    ensures IsPathTable(keypad, t)
  {
    forall pr ensures pr in KeyPairs(keypad) <==> IsKeyPair(keypad, pr) {
      KeyPairsMember(keypad, pr);
    }
    map pr | pr in KeyPairs(keypad) :: GapFreePaths(keypad, pr.0, pr.1)
  }

  /** A keypad has one path table. */
  lemma PathTableUnique(keypad: Keypad, table: PathTable)
    requires IsPathTable(keypad, table)
    ensures table == TableOf(keypad)
  {
  }

  /** The expansions of code, none when a lookup fails. */
  function Expansions(code: string, button: char, paths: PathTable): set<(string, char)>
  {
    match KeypadPaths(code, button, paths)
    case Ok(s) => s
    case Err(_) => {}
  }

  function Firsts(s: set<(string, char)>): set<string>
  {
    set q | q in s :: q.0
  }

  /** The key strings one level out for every string of s, typed from button. */
  function Presses(s: set<(string, char)>, button: char, paths: PathTable): set<string>
  {
    set a, b | a in s && b in Expansions(a.0, button, paths) :: b.0
  }

  /** The hand-typed strings for every numeric-arm string of ns, both robots starting over
      'A'. */
  function HandSequences(ns: set<(string, char)>, directional: PathTable): set<string>
  {
    set n, t | n in ns && t in Presses(Expansions(n.0, 'A', directional), 'A', directional) :: t
  }

  /** Every string that, typed by hand, makes the numeric arm type code. */
  function OuterSequences(code: string, numeric: PathTable, directional: PathTable): set<string>
  {
    HandSequences(Expansions(code, 'A', numeric), directional)
  }

  /** The length of a shortest string of seqs. */
  ghost function ShortestLength(seqs: set<string>): (r: nat)
    requires seqs != {}
    ensures exists s :: s in seqs && |s| == r
    ensures forall s :: s in seqs ==> r <= |s|
    decreases |seqs|
  {
    var s :| s in seqs;
    if seqs == {s} then |s|
    else
      var m := ShortestLength(seqs - {s});
      if |s| < m then |s| else m
  }

  /** The search for one code: a failed lookup raises KeyError, a numeric route that does not
      end over 'A' or a search that finds nothing raises AssertionError. */
  ghost function ShortestOuterLength(code: string, numeric: PathTable, directional: PathTable): Result<nat>
  {
    match KeypadPaths(code, 'A', numeric)
    case Err(e) => Err(e)
    case Ok(ns) =>
      if ns != {} && LastKey(code, 'A') != 'A' then Err("AssertionError")
      else if OuterSequences(code, numeric, directional) == {} then Err("AssertionError")
      else Ok(ShortestLength(OuterSequences(code, numeric, directional)))
  }

  /** The results of f for all codes in order, stopping at the first error. */
  ghost function Gather(codes: seq<string>, f: string -> Result<nat>): (r: Result<seq<nat>>)
    ensures r.Ok? ==> |r.value| == |codes|
    decreases |codes|
  {
    if codes == [] then Ok([])
    else
      match Gather(codes[..|codes| - 1], f)
      case Err(e) => Err(e)
      case Ok(ls) =>
        match f(codes[|codes| - 1])
        case Err(e) => Err(e)
        case Ok(l) => Ok(ls + [l])
  }

  /** The search for one code, as a function value. */
  ghost function Searcher(numeric: PathTable, directional: PathTable): string -> Result<nat>
  {
    code => ShortestOuterLength(code, numeric, directional)
  }

  /** The searches for all codes in order, stopping at the first error. */
  ghost function SearchAll(codes: seq<string>, numeric: PathTable, directional: PathTable): Result<seq<nat>>
  {
    Gather(codes, Searcher(numeric, directional))
  }

  /** The sum of the complexities, stopping at the first ValueError. */
  function SumComplexities(codes: seq<string>, lengths: seq<nat>): Result<nat>
    requires |lengths| == |codes|
    decreases |codes|
  {
    if codes == [] then Ok(0)
    else
      match SumComplexities(codes[..|codes| - 1], lengths[..|lengths| - 1])
      case Err(e) => Err(e)
      case Ok(s) =>
        match SequenceComplexity(codes[|codes| - 1], lengths[|lengths| - 1])
        case Err(e) => Err(e)
        case Ok(c) => Ok(s + c)
  }

  /** calculate_shortest_manual_press_sequence_length: every search first, then the sum. */
  ghost function BatchComplexity(codes: seq<string>, numeric: PathTable, directional: PathTable): Result<nat>
  {
    match SearchAll(codes, numeric, directional)
    case Err(e) => Err(e)
    case Ok(ls) => SumComplexities(codes, ls)
  }

  /** SearchAll succeeds exactly when every single search does, with their lengths. */
  lemma SearchAllPointwise(codes: seq<string>, numeric: PathTable, directional: PathTable, ls: seq<nat>)
    requires |ls| == |codes|
    ensures SearchAll(codes, numeric, directional) == Ok(ls)
        <==> forall k :: 0 <= k < |codes| ==> ShortestOuterLength(codes[k], numeric, directional) == Ok(ls[k])
  {
    var f := Searcher(numeric, directional);
    GatherPointwise(codes, f, ls);
    forall k | 0 <= k < |codes| ensures f(codes[k]) == ShortestOuterLength(codes[k], numeric, directional) {
    }
  }

  /** Gather succeeds exactly when f does on every code, with its values. */
  lemma GatherPointwise(codes: seq<string>, f: string -> Result<nat>, ls: seq<nat>)
    requires |ls| == |codes|
    ensures Gather(codes, f) == Ok(ls) <==> forall k :: 0 <= k < |codes| ==> f(codes[k]) == Ok(ls[k])
  {
    if Gather(codes, f) == Ok(ls) {
      forall k | 0 <= k < |codes| ensures f(codes[k]) == Ok(ls[k]) {
        GatherAt(codes, f, ls, k);
      }
    }
    if forall k :: 0 <= k < |codes| ==> f(codes[k]) == Ok(ls[k]) {
      GatherOfParts(codes, f, ls);
    }
  }

  lemma {:induction false} GatherAt(codes: seq<string>, f: string -> Result<nat>, ls: seq<nat>, k: nat)
    requires |ls| == |codes| && Gather(codes, f) == Ok(ls) && k < |codes|
    ensures f(codes[k]) == Ok(ls[k])
    decreases |codes|
  {
    var n := |codes| - 1;
    GatherLast(codes, f, ls);
    if k < n {
      GatherAt(codes[..n], f, ls[..n], k);
      assert codes[..n][k] == codes[k] && ls[..n][k] == ls[k];
    }
  }

  lemma {:induction false} GatherOfParts(codes: seq<string>, f: string -> Result<nat>, ls: seq<nat>)
    requires |ls| == |codes|
    requires forall k :: 0 <= k < |codes| ==> f(codes[k]) == Ok(ls[k])
    ensures Gather(codes, f) == Ok(ls)
    decreases |codes|
  {
    if codes != [] {
      var n := |codes| - 1;
      var front, lsFront := codes[..n], ls[..n];
      forall k | 0 <= k < n ensures f(front[k]) == Ok(lsFront[k]) {
        assert front[k] == codes[k] && lsFront[k] == ls[k];
      }
      GatherOfParts(front, f, lsFront);
      LastSplit(ls);
    }
  }

  lemma LastSplit(s: seq<nat>)
    requires s != []
    ensures s[..|s| - 1] + [s[|s| - 1]] == s
  {
  }

  lemma GatherLast(codes: seq<string>, f: string -> Result<nat>, ls: seq<nat>)
    requires codes != [] && |ls| == |codes|
    requires Gather(codes, f) == Ok(ls)
    ensures Gather(codes[..|codes| - 1], f) == Ok(ls[..|codes| - 1])
    ensures f(codes[|codes| - 1]) == Ok(ls[|codes| - 1])
  {
    var n := |codes| - 1;
    var ls' := Gather(codes[..n], f).value;
    assert ls' + [f(codes[n]).value] == ls;
    assert ls' == (ls' + [ls[n]])[..n];
  }

  /** An error in a prefix is the error of the whole. */
  lemma {:induction false} GatherError(codes: seq<string>, f: string -> Result<nat>, i: nat)
    requires i <= |codes| && Gather(codes[..i], f).Err?
    ensures Gather(codes, f) == Gather(codes[..i], f)
    decreases |codes|
  {
    if i < |codes| {
      var n := |codes| - 1;
      assert codes[..n][..i] == codes[..i];
      GatherError(codes[..n], f, i);
    } else {
      assert codes[..i] == codes;
    }
  }

  /** An error in the complexities of a prefix is the error of the whole sum. */
  lemma {:induction false} SumError(codes: seq<string>, lengths: seq<nat>, i: nat)
    requires |lengths| == |codes| && i <= |codes|
    requires SumComplexities(codes[..i], lengths[..i]).Err?
    ensures SumComplexities(codes, lengths) == SumComplexities(codes[..i], lengths[..i])
    decreases |codes|
  {
    if i < |codes| {
      var n := |codes| - 1;
      assert codes[..n][..i] == codes[..i] && lengths[..n][..i] == lengths[..i];
      SumError(codes[..n], lengths[..n], i);
    } else {
      assert codes[..i] == codes && lengths[..i] == lengths;
    }
  }

  // ---- calculate_shortest_manual_press_sequence_length, the loops ----

  /** Every path in table is a string of arrows. */
  ghost predicate ArrowTable(table: PathTable)
  {
    forall pr, p :: pr in table && p in table[pr] ==> Arrows(p)
  }

  /** The keys of the directional keypad: an arrow or the press key. */
  predicate IsCommand(c: char)
  {
    IsArrow(c) || c == 'A'
  }

  /** table has an entry for every move between two keys of the directional keypad. */
  ghost predicate CommandPairs(table: PathTable)
  {
    forall a, b :: IsCommand(a) && IsCommand(b) && a != b ==> (a, b) in table
  }

  /** What the search needs of the two tables. */
  ghost predicate SearchTables(numeric: PathTable, directional: PathTable)
  {
    ArrowTable(numeric) && ArrowTable(directional) && CommandPairs(directional)
  }

  lemma PathTableArrows(keypad: Keypad, table: PathTable)
    requires IsPathTable(keypad, table)
    ensures ArrowTable(table)
  {
    forall pr, p | pr in table && p in table[pr]
      ensures Arrows(p)
    {
      assert p in GapFreePaths(keypad, pr.0, pr.1);
    }
  }

  /** The tables the source builds are fit for the search. */
  lemma TablesReady(numeric: PathTable, directional: PathTable)
    requires IsPathTable(NumericKeypad, numeric) && IsPathTable(DirectionalKeypad, directional)
    ensures SearchTables(numeric, directional)
  {
    PathTableArrows(NumericKeypad, numeric);
    PathTableArrows(DirectionalKeypad, directional);
    forall a, b | IsCommand(a) && IsCommand(b) && a != b
      ensures (a, b) in directional
    {
      KeyPairsMember(DirectionalKeypad, (a, b));
    }
  }

  lemma CommandsStep(path: string, q: string)
    requires Arrows(path) && Commands(q)
    ensures Commands(path + "A" + q)
  {
    var p := path + "A" + q;
    forall i | 0 <= i < |p|
      ensures IsArrow(p[i]) || p[i] == 'A'
    {
      if i < |path| {
        assert p[i] == path[i];
      } else if i > |path| {
        assert p[i] == q[i - |path| - 1];
      }
    }
  }

  /** With a table of arrow paths every expansion is a string of commands and ends over the
      last key of the code. */
  lemma {:induction false} ExpansionCommands(paths: PathTable, code: string, button: char, p: string, e: char)
    requires ArrowTable(paths)
    requires KeypadPaths(code, button, paths).Ok? && (p, e) in KeypadPaths(code, button, paths).value
    ensures Commands(p) && e == LastKey(code, button)
    decreases |code|
  {
    if code == [] {
      assert p == [] && e == button;
    } else {
      var path, q := ExpansionFirst(paths, code, button, p, e);
      ExpansionCommands(paths, code[1..], code[0], q, e);
      CommandsStep(path, q);
    }
  }

  /** Any string of arrows and presses can be typed on the directional keypad from any of its
      keys: every lookup finds its entry. */
  lemma {:induction false} DirectionalTotal(directional: PathTable, s: string, button: char)
    requires CommandPairs(directional) && Commands(s) && IsCommand(button)
    ensures KeypadPaths(s, button, directional).Ok?
    decreases |s|
  {
    if s != [] {
      var c := s[0];
      assert IsCommand(c);
      assert Commands(s[1..]) by {
        forall i | 0 <= i < |s[1..]| ensures IsArrow(s[1..][i]) || s[1..][i] == 'A' {
          assert s[1..][i] == s[i + 1];
        }
      }
      DirectionalTotal(directional, s[1..], c);
    }
  }

  /** The expansions of a string of commands that ends over 'A', typed on the directional
      keypad from 'A': each is a string of commands and ends over 'A' again. */
  lemma DirectionalExpansion(directional: PathTable, s: string, a: (string, char))
    requires ArrowTable(directional) && CommandPairs(directional)
    requires Commands(s) && LastKey(s, 'A') == 'A'
    requires a in Expansions(s, 'A', directional)
    ensures KeypadPaths(s, 'A', directional).Ok?
    ensures Commands(a.0) && LastKey(a.0, 'A') == 'A' && a.1 == 'A'
  {
    DirectionalTotal(directional, s, 'A');
    ExpansionCommands(directional, s, 'A', a.0, a.1);
    if s != [] {
      ExpansionEndsWithPress(directional, s, 'A', a.0, a.1);
    } else {
      assert a == ([], 'A');
    }
  }

  lemma FirstsAdd(seen: set<string>, done: set<(string, char)>, b: (string, char))
    ensures seen + Firsts(done + {b}) == (seen + Firsts(done)) + {b.0}
  {
    assert b.0 in Firsts(done + {b});
  }

  lemma PressesAdd(seen: set<string>, done: set<(string, char)>, a: (string, char), button: char, paths: PathTable)
    ensures seen + Presses(done + {a}, button, paths) == (seen + Presses(done, button, paths)) + Firsts(Expansions(a.0, button, paths))
  {
    forall t | t in Firsts(Expansions(a.0, button, paths)) ensures t in Presses(done + {a}, button, paths) {
      var b :| b in Expansions(a.0, button, paths) && t == b.0;
    }
  }

  lemma HandSequencesAdd(done: set<(string, char)>, n: (string, char), directional: PathTable)
    ensures HandSequences(done + {n}, directional)
        == HandSequences(done, directional) + Presses(Expansions(n.0, 'A', directional), 'A', directional)
  {
    var added := Presses(Expansions(n.0, 'A', directional), 'A', directional);
    forall t | t in added ensures t in HandSequences(done + {n}, directional) {
      assert n in done + {n};
    }
  }

  /** The state of the search for one code: shortest_seq_found with the positions
      shortest_robot_a_pos and shortest_robot_b_pos, or nothing found yet. */
  datatype Search = NotFound | Found(sequence: string, robotAPos: char, robotBPos: char)

  /** best holds a shortest string of seen, and is empty exactly when seen is. */
  ghost predicate ShortestOf(best: Search, seen: set<string>)
  {
    && (best.NotFound? <==> seen == {})
    && (best.Found? ==> best.sequence in seen && forall t :: t in seen ==> |best.sequence| <= |t|)
  }

  /** One step of the scan: a strictly shorter string replaces the best one. */
  lemma KeepShortest(best: Search, seen: set<string>, t: string, next: Search)
    requires ShortestOf(best, seen)
    requires if best.NotFound? || |t| < |best.sequence| then next.Found? && next.sequence == t else next == best
    ensures ShortestOf(next, seen + {t})
  {
  }

  /** The innermost loop: each hand-typed string replaces the best one only when strictly
      shorter, so the first shortest one met is kept. */
  method ScanRobotB(robotBSeqs: set<(string, char)>, robotAEnd: char, robotBPos: char, best: Search, ghost seen: set<string>)
    returns (best': Search)
    requires ShortestOf(best, seen)
    ensures ShortestOf(best', seen + Firsts(robotBSeqs))
    ensures best' == best || best' == Found(best'.sequence, robotAEnd, robotBPos)
  {
    best' := best;
    var rest := robotBSeqs;
    ghost var done: set<(string, char)> := {};
    while rest != {}
      invariant done + rest == robotBSeqs
      invariant ShortestOf(best', seen + Firsts(done))
      invariant best' == best || best' == Found(best'.sequence, robotAEnd, robotBPos)
      decreases |rest|
    {
      var b :| b in rest;
      ghost var previous := best';
      if best'.NotFound? || |b.0| < |best'.sequence| {
        best' := Found(b.0, robotAEnd, robotBPos);
      }
      KeepShortest(previous, seen + Firsts(done), b.0, best');
      FirstsAdd(seen, done, b);
      MoveOne(done, rest, robotBSeqs, b);
      rest := rest - {b};
      done := done + {b};
    }
    AllMoved(done, rest, robotBSeqs);
  }

  function EndKeys(s: set<(string, char)>): set<char>
  {
    set a | a in s :: a.1
  }

  /** The middle loop: for each string of robot A's keypad, the strings typed by hand. */
  method ScanRobotA(robotASeqs: set<(string, char)>, directional: PathTable, robotBPos: char, best: Search, ghost seen: set<string>)
    returns (best': Search)
    requires forall a :: a in robotASeqs ==> KeypadPaths(a.0, robotBPos, directional).Ok?
    requires ShortestOf(best, seen)
    ensures ShortestOf(best', seen + Presses(robotASeqs, robotBPos, directional))
    ensures best' == best || (best'.Found? && best'.robotAPos in EndKeys(robotASeqs) && best'.robotBPos == robotBPos)
  {
    best' := best;
    var rest := robotASeqs;
    ghost var done: set<(string, char)> := {};
    while rest != {}
      invariant done + rest == robotASeqs
      invariant ShortestOf(best', seen + Presses(done, robotBPos, directional))
      invariant best' == best || (best'.Found? && best'.robotAPos in EndKeys(robotASeqs) && best'.robotBPos == robotBPos)
      decreases |rest|
    {
      var a :| a in rest;
      var robotBSeqs := CalculateKeypadPaths(a.0, robotBPos, directional);
      assert a.1 in EndKeys(robotASeqs);
      PressesAdd(seen, done, a, robotBPos, directional);
      best' := ScanRobotB(robotBSeqs.value, a.1, robotBPos, best', seen + Presses(done, robotBPos, directional));
      MoveOne(done, rest, robotASeqs, a);
      rest := rest - {a};
      done := done + {a};
    }
    AllMoved(done, rest, robotASeqs);
  }

  /** s can be sent to robot A from 'A', and every string that does so to robot B. */
  ghost predicate Sendable(directional: PathTable, s: string)
  {
    && KeypadPaths(s, 'A', directional).Ok?
    && forall a :: a in KeypadPaths(s, 'A', directional).value ==> KeypadPaths(a.0, 'A', directional).Ok? && a.1 == 'A'
  }

  /** A string of commands that ends over 'A' is sendable. */
  lemma CommandsSendable(directional: PathTable, s: string)
    requires ArrowTable(directional) && CommandPairs(directional)
    requires Commands(s) && LastKey(s, 'A') == 'A'
    ensures Sendable(directional, s)
  {
    DirectionalTotal(directional, s, 'A');
    forall a | a in KeypadPaths(s, 'A', directional).value
      ensures KeypadPaths(a.0, 'A', directional).Ok? && a.1 == 'A'
    {
      DirectionalExpansion(directional, s, a);
      DirectionalTotal(directional, a.0, 'A');
    }
  }

  /** Every numeric-arm string of code ends over the last key of code and is sendable. */
  lemma NumericSeqsFacts(code: string, numeric: PathTable, directional: PathTable)
    requires SearchTables(numeric, directional)
    requires KeypadPaths(code, 'A', numeric).Ok?
    ensures forall n :: n in KeypadPaths(code, 'A', numeric).value ==> n.1 == LastKey(code, 'A') && Sendable(directional, n.0)
  {
    forall n | n in KeypadPaths(code, 'A', numeric).value
      ensures n.1 == LastKey(code, 'A') && Sendable(directional, n.0)
    {
      ExpansionCommands(numeric, code, 'A', n.0, n.1);
      if code != [] {
        ExpansionEndsWithPress(numeric, code, 'A', n.0, n.1);
      } else {
        assert n == ([], 'A');
      }
      CommandsSendable(directional, n.0);
    }
  }

  /** The outer loop over the numeric-arm strings ns, which all end over lastKey: the first
      one met must end over 'A'. */
  method ScanNumeric(ns: set<(string, char)>, lastKey: char, directional: PathTable, robotAPos: char, robotBPos: char)
    returns (r: Result<Search>)
    requires forall n :: n in ns ==> n.1 == lastKey
    requires forall n {:trigger Sendable(directional, n.0)} :: n in ns ==> Sendable(directional, n.0)
    requires robotAPos == 'A' && robotBPos == 'A'
    ensures r.Err? <==> ns != {} && lastKey != 'A'
    ensures r.Err? ==> r.msg == "AssertionError"
    ensures r.Ok? ==> ShortestOf(r.value, HandSequences(ns, directional))
    ensures r.Ok? && r.value.Found? ==> r.value.robotAPos == 'A' && r.value.robotBPos == robotBPos
  {
    var best := NotFound;
    var rest := ns;
    ghost var done: set<(string, char)> := {};
    assert HandSequences(done, directional) == {};
    while rest != {}
      invariant done + rest == ns
      invariant done != {} ==> lastKey == 'A'
      invariant ShortestOf(best, HandSequences(done, directional))
      invariant best.Found? ==> best.robotAPos == 'A' && best.robotBPos == robotBPos
      decreases |rest|
    {
      var n :| n in rest;
      if n.1 != 'A' {
        return Err("AssertionError");
      }
      best := ScanOne(n, directional, robotAPos, robotBPos, best, done);
      MoveOne(done, rest, ns, n);
      rest := rest - {n};
      done := done + {n};
    }
    AllMoved(done, rest, ns);
    r := Ok(best);
  }

  /** Moving one element from the rest of a set to its processed part. */
  lemma MoveOne<T>(done: set<T>, rest: set<T>, all: set<T>, x: T)
    requires done + rest == all && x in rest
    ensures (done + {x}) + (rest - {x}) == all && |rest - {x}| < |rest|
  {
  }

  lemma AllMoved<T>(done: set<T>, rest: set<T>, all: set<T>)
    requires done + rest == all && rest == {}
    ensures done == all
  {
  }

  /** The body of the outer loop: the strings for robot A behind one more numeric-arm
      string n, after the strings done. */
  method ScanOne(n: (string, char), directional: PathTable, robotAPos: char, robotBPos: char, best: Search, ghost done: set<(string, char)>)
    returns (best': Search)
    requires Sendable(directional, n.0)
    requires robotAPos == 'A' && robotBPos == 'A'
    requires ShortestOf(best, HandSequences(done, directional))
    requires best.Found? ==> best.robotAPos == 'A' && best.robotBPos == robotBPos
    ensures ShortestOf(best', HandSequences(done + {n}, directional))
    ensures best'.Found? ==> best'.robotAPos == 'A' && best'.robotBPos == robotBPos
  {
    var robotASeqs := CalculateKeypadPaths(n.0, robotAPos, directional);
    assert Expansions(n.0, 'A', directional) == robotASeqs.value;
    HandSequencesAdd(done, n, directional);
    best' := ScanRobotA(robotASeqs.value, directional, robotBPos, best, HandSequences(done, directional));
  }

  lemma ShortestOfLength(seen: set<string>, best: Search)
    requires ShortestOf(best, seen) && best.Found?
    ensures ShortestLength(seen) == |best.sequence|
  {
  }

  /** What the scan of all numeric-arm strings of code means for the search of code. */
  lemma SearchOutcome(code: string, numeric: PathTable, directional: PathTable, best: Search)
    requires KeypadPaths(code, 'A', numeric).Ok?
    requires KeypadPaths(code, 'A', numeric).value != {} ==> LastKey(code, 'A') == 'A'
    requires ShortestOf(best, OuterSequences(code, numeric, directional))
    ensures best.NotFound? ==> ShortestOuterLength(code, numeric, directional) == Err("AssertionError")
    ensures best.Found? ==> ShortestOuterLength(code, numeric, directional) == Ok(|best.sequence|)
  {
    if best.Found? {
      ShortestOfLength(OuterSequences(code, numeric, directional), best);
    }
  }

  lemma OuterIsHand(code: string, numeric: PathTable, directional: PathTable)
    requires KeypadPaths(code, 'A', numeric).Ok?
    ensures OuterSequences(code, numeric, directional) == HandSequences(KeypadPaths(code, 'A', numeric).value, directional)
  {
  }

  /** The outer loop for one code: the numeric arm starts over 'A', each expansion must end
      over 'A', and something must be found. */
  method SearchCode(code: string, numeric: PathTable, directional: PathTable, robotAPos: char, robotBPos: char)
    returns (r: Result<Search>)
    requires SearchTables(numeric, directional)
    requires robotAPos == 'A' && robotBPos == 'A'
    ensures r.Err? ==> ShortestOuterLength(code, numeric, directional) == Err(r.msg)
    ensures r.Ok? ==> r.value.Found? && ShortestOuterLength(code, numeric, directional) == Ok(|r.value.sequence|)
    ensures r.Ok? ==> r.value.robotAPos == 'A' && r.value.robotBPos == robotBPos
  {
    var numericSeqs := CalculateKeypadPaths(code, 'A', numeric);
    if numericSeqs.Err? {
      return Err(numericSeqs.msg);
    }
    NumericSeqsFacts(code, numeric, directional);
    var found := ScanNumeric(numericSeqs.value, LastKey(code, 'A'), directional, robotAPos, robotBPos);
    if found.Err? {
      return Err(found.msg);
    }
    OuterIsHand(code, numeric, directional);
    SearchOutcome(code, numeric, directional, found.value);
    if found.value.NotFound? {
      return Err("AssertionError");
    }
    r := Ok(found.value);
  }

  /** One more result: Gather over a prefix one code longer. */
  lemma GatherStep(codes: seq<string>, i: nat, f: string -> Result<nat>, ls: seq<nat>)
    requires i < |codes| && Gather(codes[..i], f) == Ok(ls)
    ensures f(codes[i]).Err? ==> Gather(codes[..i + 1], f) == Err(f(codes[i]).msg)
    ensures f(codes[i]).Ok? ==> Gather(codes[..i + 1], f) == Ok(ls + [f(codes[i]).value])
  {
    PrefixSnoc(codes, i);
  }

  lemma PrefixSnoc<T>(s: seq<T>, i: nat)
    requires i < |s|
    ensures s[..i + 1] == s[..i] + [s[i]] && s[..i + 1][..i] == s[..i] && s[..i + 1][i] == s[i]
  {
  }

  /** One more complexity: SumComplexities of a prefix one code longer. */
  lemma SumStep(codes: seq<string>, lengths: seq<nat>, j: nat, total: nat)
    requires |lengths| == |codes| && j < |codes|
    requires SumComplexities(codes[..j], lengths[..j]) == Ok(total)
    ensures SequenceComplexity(codes[j], lengths[j]).Err? ==>
      SumComplexities(codes[..j + 1], lengths[..j + 1]) == SequenceComplexity(codes[j], lengths[j])
    ensures SequenceComplexity(codes[j], lengths[j]).Ok? ==>
      SumComplexities(codes[..j + 1], lengths[..j + 1]) == Ok(total + SequenceComplexity(codes[j], lengths[j]).value)
  {
    assert codes[..j + 1][..j] == codes[..j] && lengths[..j + 1][..j] == lengths[..j];
  }

  /** The search for codes[i], as one more step of SearchAll over the sequences found for
      the codes before it. */
  method SearchNext(codes: seq<string>, i: nat, numeric: PathTable, directional: PathTable, robotAPos: char, robotBPos: char, found: seq<(string, string)>)
    returns (r: Result<Search>)
    requires SearchTables(numeric, directional)
    requires robotAPos == 'A' && robotBPos == 'A'
    requires i < |codes| && Codes(found) == codes[..i]
    requires SearchAll(codes[..i], numeric, directional) == Ok(ShortestLengths(found))
    ensures r.Err? ==> SearchAll(codes, numeric, directional) == Err(r.msg)
    ensures r.Ok? ==> r.value.Found? && r.value.robotAPos == 'A' && r.value.robotBPos == 'A'
    ensures r.Ok? ==> Codes(found + [(codes[i], r.value.sequence)]) == codes[..i + 1]
    ensures r.Ok? ==> SearchAll(codes[..i + 1], numeric, directional) == Ok(ShortestLengths(found + [(codes[i], r.value.sequence)]))
  {
    r := SearchCode(codes[i], numeric, directional, robotAPos, robotBPos);
    GatherStep(codes, i, Searcher(numeric, directional), ShortestLengths(found));
    if r.Err? {
      GatherError(codes, Searcher(numeric, directional), i + 1);
    } else {
      AppendFound(found, codes[i], r.value.sequence);
      PrefixSnoc(codes, i);
    }
  }

  /** The first loop of calculate_shortest_manual_press_sequence_length: each code is
      searched with the robots where the previous search left them. */
  method SearchCodes(codes: seq<string>, numeric: PathTable, directional: PathTable)
    returns (r: Result<seq<(string, string)>>)
    requires SearchTables(numeric, directional)
    ensures r.Err? ==> SearchAll(codes, numeric, directional) == Err(r.msg)
    ensures r.Ok? ==> Codes(r.value) == codes && SearchAll(codes, numeric, directional) == Ok(ShortestLengths(r.value))
  {
    var robotAPos, robotBPos := 'A', 'A';
    var shortestSequences: seq<(string, string)> := [];
    var i := 0;
    while i < |codes|
      invariant 0 <= i <= |codes|
      invariant robotAPos == 'A' && robotBPos == 'A'
      invariant Codes(shortestSequences) == codes[..i]
      invariant SearchAll(codes[..i], numeric, directional) == Ok(ShortestLengths(shortestSequences))
    {
      var found := SearchNext(codes, i, numeric, directional, robotAPos, robotBPos, shortestSequences);
      if found.Err? {
        return Err(found.msg);
      }
      robotAPos, robotBPos := found.value.robotAPos, found.value.robotBPos;
      shortestSequences := shortestSequences + [(codes[i], found.value.sequence)];
      i := i + 1;
    }
    WholePrefix(codes);
    r := Ok(shortestSequences);
  }

  lemma WholePrefix<T>(s: seq<T>)
    ensures s[..|s|] == s
  {
  }

  lemma AppendFound(found: seq<(string, string)>, code: string, sequence: string)
    ensures Codes(found + [(code, sequence)]) == Codes(found) + [code]
    ensures ShortestLengths(found + [(code, sequence)]) == ShortestLengths(found) + [|sequence|]
  {
  }

  /** The lengths of the found sequences. */
  function ShortestLengths(found: seq<(string, string)>): (ls: seq<nat>)
    ensures |ls| == |found| && forall k :: 0 <= k < |found| ==> ls[k] == |found[k].1|
  {
    seq(|found|, k requires 0 <= k < |found| => |found[k].1|)
  }

  /** One term of the sum: the complexity of the j-th code added to the total so far. */
  method AddComplexity(found: seq<(string, string)>, j: nat, total: nat) returns (r: Result<nat>)
    requires j < |found| && SumComplexities(Codes(found)[..j], ShortestLengths(found)[..j]) == Ok(total)
    ensures r == SumComplexities(Codes(found)[..j + 1], ShortestLengths(found)[..j + 1])
  {
    var c := SequenceComplexity(found[j].0, |found[j].1|);
    SumStep(Codes(found), ShortestLengths(found), j, total);
    if c.Err? {
      return Err(c.msg);
    }
    r := Ok(total + c.value);
  }

  /** The sum over the list comprehension of complexities. */
  method SumOfComplexities(found: seq<(string, string)>) returns (r: Result<nat>)
    ensures r == SumComplexities(Codes(found), ShortestLengths(found))
  {
    ghost var codes, lengths := Codes(found), ShortestLengths(found);
    var total := 0;
    var j := 0;
    while j < |found|
      invariant 0 <= j <= |found|
      invariant SumComplexities(codes[..j], lengths[..j]) == Ok(total)
    {
      var next := AddComplexity(found, j, total);
      if next.Err? {
        SumError(codes, lengths, j + 1);
        return next;
      }
      total := next.value;
      j := j + 1;
    }
    assert codes[..j] == codes && lengths[..j] == lengths;
    r := Ok(total);
  }

  function Codes(found: seq<(string, string)>): (cs: seq<string>)
    ensures |cs| == |found| && forall k :: 0 <= k < |found| ==> cs[k] == found[k].0
  {
    seq(|found|, k requires 0 <= k < |found| => found[k].0)
  }

  /** calculate_shortest_manual_press_sequence_length: builds both tables, searches every
      code in order, then sums the complexities. */
  method CalculateShortestManualPressSequenceLength(codes: seq<string>) returns (r: Result<nat>)
    ensures r == BatchComplexity(codes, TableOf(NumericKeypad), TableOf(DirectionalKeypad))
  {
    var numeric := BuildPathTable(NumericKeypad);
    var directional := BuildPathTable(DirectionalKeypad);
    PathTableUnique(NumericKeypad, numeric);
    PathTableUnique(DirectionalKeypad, directional);
    TablesReady(numeric, directional);
    var found := SearchCodes(codes, numeric, directional);
    if found.Err? {
      return Err(found.msg);
    }
    r := SumOfComplexities(found.value);
  }

  /** One hand-typed string for code bounds its shortest length. */
  lemma ShortestAtMost(code: string, numeric: PathTable, directional: PathTable, n: (string, char), a: (string, char), b: (string, char))
    requires KeypadPaths(code, 'A', numeric).Ok? && n in KeypadPaths(code, 'A', numeric).value
    requires KeypadPaths(n.0, 'A', directional).Ok? && a in KeypadPaths(n.0, 'A', directional).value
    requires KeypadPaths(a.0, 'A', directional).Ok? && b in KeypadPaths(a.0, 'A', directional).value
    requires LastKey(code, 'A') == 'A'
    ensures ShortestOuterLength(code, numeric, directional).Ok?
    ensures ShortestOuterLength(code, numeric, directional).value <= |b.0|
  {
    assert b.0 in Presses(Expansions(n.0, 'A', directional), 'A', directional);
    assert b.0 in OuterSequences(code, numeric, directional);
  }

  /** The example code 029A: its search succeeds and finds nothing longer than the 68
      presses of the sequence the source checks. */
  lemma ShortestFor029A()
    ensures ShortestOuterLength("029A", TableOf(NumericKeypad), TableOf(DirectionalKeypad)).Ok?
    ensures ShortestOuterLength("029A", TableOf(NumericKeypad), TableOf(DirectionalKeypad)).value <= 68
  {
    var numeric, directional := TableOf(NumericKeypad), TableOf(DirectionalKeypad);
    ExpansionFixtures(numeric, directional);
    var n := ("<A^A>^^AvvvA", 'A');
    var a := ("v<<A>>^A<A>AvA<^AA>A<vAAA>^A", 'A');
    var b := ("<vA<AA>>^AvAA<^A>A<v<A>>^AvA^A<vA>^A<v<A>^A>AAvA^A<v<A>A>^AAAvA<^A>A", 'A');
    ShortestAtMost("029A", numeric, directional, n, a, b);
  }
}
