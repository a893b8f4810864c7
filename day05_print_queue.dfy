/** Print-queue updates (5/day5.py): an update is valid when it respects every ordering rule
    that names two of its pages; invalid updates are repaired in place by swapping violating
    pairs, rule by rule, until they are valid. Pages are modelled by their page numbers;
    parsing the text lines and converting page strings to integers are not part of the
    model. */
module PrintQueue {

  datatype Result<T> = Ok(value: T) | Err(message: string)

  type Page = int

  /** A rule (before, after): if both pages are present, before must come first. */
  type Rule = (Page, Page)

  /** list.index: the first position holding x. */
  function IndexOf(s: seq<Page>, x: Page): (r: nat)
    requires x in s
    ensures r < |s| && s[r] == x
    ensures forall k :: 0 <= k < r ==> s[k] != x
  {
    if s[0] == x then 0 else 1 + IndexOf(s[1..], x)
  }

  /** The rule is satisfied, or names a page the update does not contain. */
  predicate Respects(update: seq<Page>, rule: Rule)
  {
    rule.0 !in update || rule.1 !in update || IndexOf(update, rule.0) <= IndexOf(update, rule.1)
  }

  /** update_is_valid: stops at the first rule whose pages are present and out of order. */
  function UpdateIsValid(update: seq<Page>, rules: seq<Rule>): bool
  {
    if rules == [] then true
    else if rules[0].0 !in update || rules[0].1 !in update then UpdateIsValid(update, rules[1..])
    else if IndexOf(update, rules[0].0) > IndexOf(update, rules[0].1) then false
    else UpdateIsValid(update, rules[1..])
  }

  /** An update is valid exactly when it respects every rule. */
  lemma {:induction false} ValidMeansAllRespected(update: seq<Page>, rules: seq<Rule>)
    ensures UpdateIsValid(update, rules) <==> forall k :: 0 <= k < |rules| ==> Respects(update, rules[k])
  {
    if rules != [] {
      ValidMeansAllRespected(update, rules[1..]);
      assert forall k :: 1 <= k < |rules| ==> rules[k] == rules[1..][k - 1];
    }
  }

  /** get_middle_number: the page at len // 2; for the odd-length updates of the input, as
      many pages precede it as follow it. */
  function MiddleNumber(update: seq<Page>): (m: Page)
    requires |update| > 0
    ensures |update| % 2 == 1 ==> exists k :: 0 <= k < |update| && update[k] == m && k == |update| - 1 - k
  {
    update[|update| / 2]
  }

  /** One rule of reorder_update: a violated rule exchanges the first occurrences of its two
      pages; any other rule leaves the update alone. */
  function ApplyRule(update: seq<Page>, rule: Rule): seq<Page>
  {
    if rule.0 in update && rule.1 in update && IndexOf(update, rule.0) > IndexOf(update, rule.1) then
      update[IndexOf(update, rule.0) := rule.1][IndexOf(update, rule.1) := rule.0]
    else update
  }

  /** reorder_update: the rules applied in order, each to the result of the previous ones. */
  function Reorder(update: seq<Page>, rules: seq<Rule>): seq<Page>
  {
    if rules == [] then update
    else ApplyRule(Reorder(update, rules[..|rules| - 1]), rules[|rules| - 1])
  }

  /** The tuple assignment of reorder_update. Python evaluates both right-hand values, then
      assigns left to right and looks each index up again when it assigns: the first write
      puts `after` where `before` was, so `after` now occurs twice, and the second lookup
      still finds its original, earlier position. The net effect is an exchange. */
  method SwapPages(update: array<Page>, before: Page, after: Page)
    requires before in update[..] && after in update[..]
    requires IndexOf(update[..], before) > IndexOf(update[..], after)
    modifies update
    ensures update[..] == ApplyRule(old(update[..]), (before, after))
  {
    ghost var s := update[..];
    ghost var ib, ia := IndexOf(s, before), IndexOf(s, after);
    var x := update[IndexOf(update[..], after)];
    var y := update[IndexOf(update[..], before)];
    update[IndexOf(update[..], before)] := x;
    assert update[..] == s[ib := after];
    assert update[..][ia] == after;
    assert forall k :: 0 <= k < ia ==> update[..][k] != after;
    update[IndexOf(update[..], after)] := y;
  }

  /** reorder_update: mutates its argument in place and returns the same list. */
  method ReorderUpdate(update: array<Page>, rules: seq<Rule>) returns (same: array<Page>)
    modifies update
    ensures same == update
    ensures update[..] == Reorder(old(update[..]), rules)
  {
    var k := 0;
    while k < |rules|
      invariant 0 <= k <= |rules|
      invariant update[..] == Reorder(old(update[..]), rules[..k])
    {
      assert rules[..k + 1][..k] == rules[..k];
      var before, after := rules[k].0, rules[k].1;
      if before in update[..] && after in update[..] && IndexOf(update[..], before) > IndexOf(update[..], after) {
        SwapPages(update, before, after);
      }
      k := k + 1;
    }
    assert rules[..k] == rules;
    return update;
  }

  /** Each rule only exchanges two entries, so the update keeps its pages. */
  lemma ApplyRulePermutes(update: seq<Page>, rule: Rule)
    ensures multiset(ApplyRule(update, rule)) == multiset(update)
  {
    if rule.0 in update && rule.1 in update && IndexOf(update, rule.0) > IndexOf(update, rule.1) {
      var ib, ia := IndexOf(update, rule.0), IndexOf(update, rule.1);
      var t := update[ib := rule.1];
      assert multiset(t) == multiset(update) - multiset{rule.0} + multiset{rule.1};
      assert t[ia] == rule.1;
      assert multiset(t[ia := rule.0]) == multiset(t) - multiset{rule.1} + multiset{rule.0};
    }
  }

  lemma {:induction false} ReorderPermutes(update: seq<Page>, rules: seq<Rule>)
    ensures multiset(Reorder(update, rules)) == multiset(update)
  {
    if rules != [] {
      ReorderPermutes(update, rules[..|rules| - 1]);
      ApplyRulePermutes(Reorder(update, rules[..|rules| - 1]), rules[|rules| - 1]);
    }
  }

  /** A valid update is left unchanged: no rule finds its pages out of order. */
  lemma {:induction false} ReorderKeepsValid(update: seq<Page>, rules: seq<Rule>)
    requires UpdateIsValid(update, rules)
    ensures Reorder(update, rules) == update
  {
    ValidMeansAllRespected(update, rules);
    if rules != [] {
      var init := rules[..|rules| - 1];
      ValidMeansAllRespected(update, init);
      assert forall k :: 0 <= k < |init| ==> init[k] == rules[k];
      ReorderKeepsValid(update, init);
      assert Respects(update, rules[|rules| - 1]);
    }
  }

  /** With distinct pages, applying a violated rule puts its two pages in the right order. */
  lemma ApplyRuleRepairs(update: seq<Page>, rule: Rule)
    requires forall i, j :: 0 <= i < j < |update| ==> update[i] != update[j]
    requires rule.0 in update && rule.1 in update
    ensures Respects(ApplyRule(update, rule), rule)
  {
    if IndexOf(update, rule.0) > IndexOf(update, rule.1) {
      var ib, ia := IndexOf(update, rule.0), IndexOf(update, rule.1);
      var t := ApplyRule(update, rule);
      assert t[ia] == rule.0 && t[ib] == rule.1;
      assert IndexOf(t, rule.0) <= ia;
      assert forall k :: 0 <= k < ib && k != ia ==> t[k] == update[k];
      assert forall k :: 0 <= k < ib ==> t[k] != rule.1;
      assert IndexOf(t, rule.1) == ib;
    }
  }

  /** The repair loop with at most `fuel` rounds of reorder_update: the update once it is
      valid, or None if the rounds run out first. */
  function FixUpdate(update: seq<Page>, rules: seq<Rule>, fuel: nat): Result<seq<Page>>
    decreases fuel
  {
    if UpdateIsValid(update, rules) then Ok(update)
    else if fuel == 0 then Err("out of fuel")
    else FixUpdate(Reorder(update, rules), rules, fuel - 1)
  }

  /** A repaired update is valid, holds the same pages, and a valid update is returned as it
      is. */
  lemma {:induction false} FixUpdateCorrect(update: seq<Page>, rules: seq<Rule>, fuel: nat)
    ensures FixUpdate(update, rules, fuel).Ok? ==>
      UpdateIsValid(FixUpdate(update, rules, fuel).value, rules)
      && multiset(FixUpdate(update, rules, fuel).value) == multiset(update)
    ensures UpdateIsValid(update, rules) ==> FixUpdate(update, rules, fuel) == Ok(update)
    decreases fuel
  {
    if !UpdateIsValid(update, rules) && fuel > 0 {
      ReorderPermutes(update, rules);
      FixUpdateCorrect(Reorder(update, rules), rules, fuel - 1);
    }
  }

  /** The fix-up loop `while not update_is_valid: reorder_update`, bounded by `fuel` rounds
      since cyclic rules would keep it going for ever. */
  method FixInPlace(update: array<Page>, rules: seq<Rule>, fuel: nat) returns (valid: bool)
    modifies update
    ensures valid <==> FixUpdate(old(update[..]), rules, fuel).Ok?
    ensures valid ==> update[..] == FixUpdate(old(update[..]), rules, fuel).value
  {
    var remaining: nat := fuel;
    ghost var initial := update[..];
    valid := UpdateIsValid(update[..], rules);
    while !valid && remaining > 0
      invariant valid == UpdateIsValid(update[..], rules)
      invariant FixUpdate(update[..], rules, remaining) == FixUpdate(initial, rules, fuel)
      decreases remaining
    {
      ghost var current := update[..];
      var _ := ReorderUpdate(update, rules);
      assert FixUpdate(current, rules, remaining) == FixUpdate(update[..], rules, remaining - 1);
      remaining := remaining - 1;
      valid := UpdateIsValid(update[..], rules);
    }
  }

  /** Part one: the middle pages of the valid updates, summed. */
  function SumValidMiddles(updates: seq<seq<Page>>, rules: seq<Rule>): int
    requires forall k :: 0 <= k < |updates| ==> |updates[k]| > 0
  {
    if updates == [] then 0
    else
      var u := updates[|updates| - 1];
      SumValidMiddles(updates[..|updates| - 1], rules) + (if UpdateIsValid(u, rules) then MiddleNumber(u) else 0)
  }

  /** Adding an invalid update leaves part one unchanged. */
  lemma InvalidUpdateAddsNothing(updates: seq<seq<Page>>, rules: seq<Rule>, u: seq<Page>)
    requires forall k :: 0 <= k < |updates| ==> |updates[k]| > 0
    requires |u| > 0 && !UpdateIsValid(u, rules)
    ensures SumValidMiddles(updates + [u], rules) == SumValidMiddles(updates, rules)
  {
    assert (updates + [u])[..|updates|] == updates;
  }
}
