/** Choosing texts greedily under a source budget and two shared budgets. */
module Budgets {
  /** What may still be spent: characters of one source, characters in all, tokens in all. */
  datatype Limits = Limits(source: int, chars: int, tokens: int)

  type Counter = string -> nat

  function Chars(texts: seq<string>): nat {
    if texts == [] then 0 else Chars(texts[..|texts| - 1]) + |texts[|texts| - 1]|
  }

  function Tokens(texts: seq<string>, count: Counter): nat {
    if texts == [] then 0 else Tokens(texts[..|texts| - 1], count) + count(texts[|texts| - 1])
  }

  lemma ChargeSnoc(texts: seq<string>, t: string, count: Counter)
    ensures Chars(texts + [t]) == Chars(texts) + |t|
    ensures Tokens(texts + [t], count) == Tokens(texts, count) + count(t)
  {
    assert (texts + [t])[..|texts|] == texts;
  }

  lemma {:induction false} ChargeConcat(a: seq<string>, b: seq<string>, count: Counter)
    ensures Chars(a + b) == Chars(a) + Chars(b)
    ensures Tokens(a + b, count) == Tokens(a, count) + Tokens(b, count)
  {
    if b == [] {
      assert a + b == a;
    } else {
      var init, last := b[..|b| - 1], b[|b| - 1];
      ChargeConcat(a, init, count);
      assert a + b == (a + init) + [last] && b == init + [last];
      ChargeSnoc(a + init, last, count);
      ChargeSnoc(init, last, count);
    }
  }

  /** The order of what is charged does not matter. */
  lemma {:induction false} ChargeReversed(a: seq<string>, count: Counter)
    ensures Chars(Reversed(a)) == Chars(a) && Tokens(Reversed(a), count) == Tokens(a, count)
  {
    if a != [] {
      var init, last := a[..|a| - 1], a[|a| - 1];
      ChargeReversed(init, count);
      assert Reversed(a) == [last] + Reversed(init) && a == init + [last];
      ChargeConcat([last], Reversed(init), count);
      ChargeSnoc([], last, count);
      assert [] + [last] == [last];
      ChargeSnoc(init, last, count);
    }
  }

  function Reversed<T>(s: seq<T>): (r: seq<T>)
    ensures |r| == |s| && forall i :: 0 <= i < |s| ==> r[i] == s[|s| - 1 - i]
  {
    if s == [] then [] else [s[|s| - 1]] + Reversed(s[..|s| - 1])
  }

  function Map<T>(values: seq<T>, render: T -> string): (texts: seq<string>)
    ensures |texts| == |values| && forall i :: 0 <= i < |values| ==> texts[i] == render(values[i])
  {
    seq(|values|, i requires 0 <= i < |values| => render(values[i]))
  }

  function Left(l: Limits, texts: seq<string>, count: Counter): Limits {
    Limits(l.source - Chars(texts), l.chars - Chars(texts), l.tokens - Tokens(texts, count))
  }

  predicate Fits(l: Limits, t: string, count: Counter) {
    |t| <= l.source && |t| <= l.chars && count(t) <= l.tokens
  }

  // ---------------------------------------------------------- the greedy choice

  ghost predicate Increasing(places: seq<nat>, n: nat) {
    && (forall i :: 0 <= i < |places| ==> places[i] < n)
    && (forall i, j :: 0 <= i < j < |places| ==> places[i] < places[j])
  }

  ghost function Pick<T>(values: seq<T>, places: seq<nat>): (picked: seq<T>)
    requires Increasing(places, |values|)
    ensures |picked| == |places| && forall i :: 0 <= i < |places| ==> picked[i] == values[places[i]]
  {
    seq(|places|, i requires 0 <= i < |places| => values[places[i]])
  }

  /** First come, first served: a text is taken exactly when it fits in what those taken
      before it have left. */
  ghost function Greedy(texts: seq<string>, n: nat, l: Limits, count: Counter): (places: seq<nat>)
    requires n <= |texts|
    ensures Increasing(places, n)
  {
    if n == 0 then []
    else
      var before := Greedy(texts, n - 1, l, count);
      if Fits(Left(l, Pick(texts, before), count), texts[n - 1], count) then before + [n - 1] else before
  }

  /** The values that the greedy choice takes, in their order. */
  ghost function GreedyChoice<T>(values: seq<T>, render: T -> string, l: Limits, count: Counter): seq<T> {
    Pick(values, Greedy(Map(values, render), |values|, l, count))
  }

  /** A text is taken if and only if, together with all taken before it, it stays within the
      source's budget and within both totals; filling one to the brim is staying within. */
  lemma GreedyTakes(texts: seq<string>, i: nat, l: Limits, count: Counter)
    requires i < |texts|
    ensures var before := Pick(texts, Greedy(texts, i, l, count));
      i in Greedy(texts, |texts|, l, count) <==>
        && Chars(before) + |texts[i]| <= l.source
        && Chars(before) + |texts[i]| <= l.chars
        && Tokens(before, count) + count(texts[i]) <= l.tokens
  {
    GreedyKeeps(texts, i, |texts|, l, count);
    assert i !in Greedy(texts, i, l, count);
  }

  /** Later texts do not change what was taken. */
  lemma {:induction false} GreedyKeeps(texts: seq<string>, i: nat, n: nat, l: Limits, count: Counter)
    requires i < n <= |texts|
    ensures i in Greedy(texts, n, l, count) <==> i in Greedy(texts, i + 1, l, count)
    decreases n
  {
    hide Fits, Left, Pick;
    if i + 1 < n {
      GreedyKeeps(texts, i, n - 1, l, count);
    }
  }

  /** `chosen` are the values at `places`, and no value at another place fits in what is left. */
  ghost predicate Choice<T>(chosen: seq<T>, values: seq<T>, places: seq<nat>, render: T -> string, l: Limits, count: Counter) {
    && Increasing(places, |values|) && chosen == Pick(values, places)
    && (forall i :: 0 <= i < |values| && i !in places ==> !Fits(Left(l, Map(chosen, render), count), render(values[i]), count))
  }

  /** A choice spends nothing it does not have: a budget that is not overdrawn stays so, and
      an overdrawn one admits nothing. */
  ghost predicate Affordable<T>(chosen: seq<T>, render: T -> string, l: Limits, count: Counter) {
    var rest := Left(l, Map(chosen, render), count);
    && (l.source >= 0 ==> rest.source >= 0) && (l.source < 0 ==> chosen == [])
    && (l.chars >= 0 ==> rest.chars >= 0) && (l.chars < 0 ==> chosen == [])
    && (l.tokens >= 0 ==> rest.tokens >= 0) && (l.tokens < 0 ==> chosen == [])
  }

  lemma MapSnoc<T>(values: seq<T>, v: T, render: T -> string)
    ensures Map(values + [v], render) == Map(values, render) + [render(v)]
  {
  }

  /** Taking one more value that fits. */
  lemma TakeOne<T>(chosen: seq<T>, v: T, render: T -> string, l: Limits, count: Counter)
    requires Affordable(chosen, render, l, count) && Fits(Left(l, Map(chosen, render), count), render(v), count)
    ensures Affordable(chosen + [v], render, l, count)
    ensures var before, after := Left(l, Map(chosen, render), count), Left(l, Map(chosen + [v], render), count);
      after == Limits(before.source - |render(v)|, before.chars - |render(v)|, before.tokens - count(render(v)))
  {
    hide Map, Chars, Tokens;
    MapSnoc(chosen, v, render);
    ChargeSnoc(Map(chosen, render), render(v), count);
  }

  /** Taking or skipping the next value keeps the choice greedy. */
  lemma NextTaken<T>(chosen: seq<T>, values: seq<T>, n: nat, places: seq<nat>, render: T -> string, l: Limits, count: Counter)
    requires n < |values| && Choice(chosen, values[..n], places, render, l, count) && Affordable(chosen, render, l, count)
    requires Fits(Left(l, Map(chosen, render), count), render(values[n]), count)
    ensures Choice(chosen + [values[n]], values[..n + 1], places + [n], render, l, count)
  {
    hide Map, Chars, Tokens, Affordable;
    var v, chosen', places', values' := values[n], chosen + [values[n]], places + [n], values[..n + 1];
    TakeOne(chosen, v, render, l, count);
    assert forall i :: 0 <= i < |places| ==> places'[i] == places[i];
    assert chosen' == Pick(values', places');
    forall i | 0 <= i < |values'| && i !in places' ensures !Fits(Left(l, Map(chosen', render), count), render(values'[i]), count) {
      assert places'[|places|] == n;
      assert i != n && i !in places;
      assert values[..n][i] == values'[i];
    }
  }

  lemma NextSkipped<T>(chosen: seq<T>, values: seq<T>, n: nat, places: seq<nat>, render: T -> string, l: Limits, count: Counter)
    requires n < |values| && Choice(chosen, values[..n], places, render, l, count)
    requires !Fits(Left(l, Map(chosen, render), count), render(values[n]), count)
    ensures Choice(chosen, values[..n + 1], places, render, l, count)
  {
    hide Map, Chars, Tokens;
    var values' := values[..n + 1];
    assert forall i :: 0 <= i < n ==> values[..n][i] == values'[i];
    assert chosen == Pick(values', places);
  }

  lemma PickMaps<T>(chosen: seq<T>, values: seq<T>, n: nat, places: seq<nat>, render: T -> string, l: Limits, count: Counter)
    requires n <= |values| && Choice(chosen, values[..n], places, render, l, count)
    ensures Increasing(places, |values|) && Pick(Map(values, render), places) == Map(chosen, render)
  {
    var texts := Map(values, render);
    assert forall i :: 0 <= i < |places| ==> values[..n][places[i]] == values[places[i]];
    assert Pick(texts, places) == Map(chosen, render);
  }

  /** The `take` loop: the greedy choice, which leaves out nothing that would still fit. */
  method Take<T>(values: seq<T>, budget: int, render: T -> string, count: Counter, remaining: int, remainingTokens: int)
    returns (selected: seq<T>, chars: int, tokens: int, ghost places: seq<nat>)
    ensures selected == GreedyChoice(values, render, Limits(budget, remaining, remainingTokens), count)
    ensures places == Greedy(Map(values, render), |values|, Limits(budget, remaining, remainingTokens), count)
    ensures Choice(selected, values, places, render, Limits(budget, remaining, remainingTokens), count)
    ensures Affordable(selected, render, Limits(budget, remaining, remainingTokens), count)
    ensures chars == remaining - Chars(Map(selected, render))
    ensures tokens == remainingTokens - Tokens(Map(selected, render), count)
  {
    hide Map, Choice, Affordable, Chars, Tokens, Pick, Increasing;
    ghost var l := Limits(budget, remaining, remainingTokens);
    ghost var texts := Map(values, render);
    var used := 0;
    selected, chars, tokens, places := [], remaining, remainingTokens, [];
    NothingTaken(values, render, l, count);
    for n := 0 to |values|
      invariant Choice(selected, values[..n], places, render, l, count) && Affordable(selected, render, l, count)
      invariant places == Greedy(texts, n, l, count)
      invariant Left(l, Map(selected, render), count) == Limits(budget - used, chars, tokens)
    {
      var text := render(values[n]);
      var size, cost := |text|, count(text);
      PickMaps(selected, values, n, places, render, l, count);
      if size > budget - used || size > chars || cost > tokens {
        NextSkipped(selected, values, n, places, render, l, count);
      } else {
        TakeOne(selected, values[n], render, l, count);
        NextTaken(selected, values, n, places, render, l, count);
        places := places + [n];
        selected := selected + [values[n]];
        used, chars, tokens := used + size, chars - size, tokens - cost;
      }
    }
    assert values[..|values|] == values;
    ChoiceIsPick(selected, values, places, render, l, count);
  }

  lemma ChoiceIsPick<T>(chosen: seq<T>, values: seq<T>, places: seq<nat>, render: T -> string, l: Limits, count: Counter)
    requires Choice(chosen, values, places, render, l, count)
    ensures Increasing(places, |values|) && chosen == Pick(values, places)
  {
  }

  lemma NothingTaken<T>(values: seq<T>, render: T -> string, l: Limits, count: Counter)
    ensures Choice([], values[..0], [], render, l, count) && Affordable([], render, l, count)
    ensures Left(l, Map([], render), count) == l
  {
    assert Map<T>([], render) == [];
  }
}
