/** Assembling the context of a conversation turn: scope filter, deduplication of memories, and
    greedy choices from every source under character and token budgets. */
module ContextBuilder {
  import opened Wrappers
  import opened Budgets

  datatype Scope = User | Project | Episodic | ThreadScope

  datatype Thread = Thread(id: string, project: Option<string>)

  datatype Memory = Memory(
    id: string,
    scope: Scope,
    project: Option<string>,
    thread: Option<string>,
    kind: string,
    normalized: string,
    content: string,
    pinned: bool,
    updatedAt: real)

  /** A message or an artifact, by its id and its rendered text. */
  datatype Piece = Piece(id: string, text: string)

  type MemoryKey = (string, string)

  // ------------------------------------------------------- scope and duplicates

  predicate InScope(t: Thread, m: Memory) {
    || m.scope.User?
    || ((m.scope.Project? || m.scope.Episodic?) && t.project.Some? && m.project == t.project)
    || (m.scope.ThreadScope? && m.thread == Some(t.id))
  }

  function Scoped(t: Thread, candidates: seq<Memory>): seq<Memory> {
    if candidates == [] then []
    else (if InScope(t, candidates[0]) then [candidates[0]] else []) + Scoped(t, candidates[1..])
  }

  lemma {:induction false} ScopedIsExact(t: Thread, candidates: seq<Memory>)
    ensures forall m :: m in Scoped(t, candidates) <==> m in candidates && InScope(t, m)
  {
    hide InScope;
    if candidates != [] {
      ScopedIsExact(t, candidates[1..]);
      forall m ensures m in Scoped(t, candidates) <==> m in candidates && InScope(t, m) {
        assert m in candidates <==> m == candidates[0] || m in candidates[1..];
      }
    }
  }

  /** Pinned before unpinned, then the later updated. */
  predicate Better(x: Memory, y: Memory) {
    (x.pinned && !y.pinned) || (x.pinned == y.pinned && x.updatedAt > y.updatedAt)
  }

  /** Place `p` holds the first of the best memories with its key. */
  ghost predicate IsBest(items: seq<Memory>, p: int, keyOf: Memory -> MemoryKey) {
    && 0 <= p < |items|
    && (forall q :: 0 <= q < p && keyOf(items[q]) == keyOf(items[p]) ==> Better(items[p], items[q]))
    && (forall q :: p < q < |items| && keyOf(items[q]) == keyOf(items[p]) ==> !Better(items[q], items[p]))
  }

  ghost predicate DistinctKeys(s: seq<Memory>, keyOf: Memory -> MemoryKey) {
    forall i, j :: 0 <= i < j < |s| ==> keyOf(s[i]) != keyOf(s[j])
  }

  /** `unique` has one memory per key, the first of the best of its key. */
  ghost predicate Deduplicated(unique: seq<Memory>, items: seq<Memory>, keyOf: Memory -> MemoryKey) {
    && DistinctKeys(unique, keyOf)
    && (forall m :: m in unique ==> exists p :: 0 <= p < |items| && IsBest(items, p, keyOf) && items[p] == m)
    && (forall p :: 0 <= p < |items| && IsBest(items, p, keyOf) ==> items[p] in unique)
  }

  /** The dictionary after the first items: for each key seen, in order of first sight, its best. */
  ghost predicate Sifted(items: seq<Memory>, order: seq<MemoryKey>, best: map<MemoryKey, Memory>, at: map<MemoryKey, nat>,
                         keyOf: Memory -> MemoryKey)
  {
    && (forall i, j :: 0 <= i < j < |order| ==> order[i] != order[j])
    && (forall k :: k in order <==> k in best)
    && (forall k :: k in best ==> k in at && IsBest(items, at[k], keyOf) && items[at[k]] == best[k] && keyOf(best[k]) == k)
    && (forall q :: 0 <= q < |items| ==> keyOf(items[q]) in best)
  }

  lemma BestSnoc(items: seq<Memory>, p: nat, x: Memory, keyOf: Memory -> MemoryKey)
    requires IsBest(items, p, keyOf)
    ensures keyOf(x) != keyOf(items[p]) || !Better(x, items[p]) ==> IsBest(items + [x], p, keyOf)
    ensures keyOf(x) == keyOf(items[p]) && Better(x, items[p]) ==> IsBest(items + [x], |items|, keyOf)
  {
    var items' := items + [x];
    assert forall q :: 0 <= q < |items| ==> items'[q] == items[q];
  }

  lemma FirstOfItsKey(items: seq<Memory>, x: Memory, keyOf: Memory -> MemoryKey)
    requires forall q :: 0 <= q < |items| ==> keyOf(items[q]) != keyOf(x)
    ensures IsBest(items + [x], |items|, keyOf)
  {
    var items' := items + [x];
    assert forall q :: 0 <= q < |items| ==> items'[q] == items[q];
  }

  /** One turn of the loop, whichever branch is taken. */
  lemma SiftStep(items: seq<Memory>, x: Memory, order: seq<MemoryKey>, best: map<MemoryKey, Memory>, at: map<MemoryKey, nat>,
                 keyOf: Memory -> MemoryKey)
    requires Sifted(items, order, best, at, keyOf)
    ensures var k := keyOf(x);
      && (k !in best ==> Sifted(items + [x], order + [k], best[k := x], at[k := |items|], keyOf))
      && (k in best && Better(x, best[k]) ==> Sifted(items + [x], order, best[k := x], at[k := |items|], keyOf))
      && (k in best && !Better(x, best[k]) ==> Sifted(items + [x], order, best, at, keyOf))
  {
    hide IsBest, Better;
    var k, items' := keyOf(x), items + [x];
    assert forall q :: 0 <= q < |items| ==> items'[q] == items[q];
    assert items'[|items|] == x;
    if k !in best {
      FirstOfItsKey(items, x, keyOf);
    }
    forall j | j in best ensures k != j || !Better(x, best[j]) ==> IsBest(items', at[j], keyOf) {
      BestSnoc(items, at[j], x, keyOf);
    }
    assert forall j | j in best :: at[j] < |items| by {
      forall j | j in best ensures at[j] < |items| { BestSnoc(items, at[j], x, keyOf); BestInRange(items, at[j], keyOf); }
    }
    if k in best && Better(x, best[k]) {
      BestSnoc(items, at[k], x, keyOf);
    }
  }

  lemma BestInRange(items: seq<Memory>, p: nat, keyOf: Memory -> MemoryKey)
    requires IsBest(items, p, keyOf)
    ensures p < |items|
  {
  }

  /** Entering a memory in an ordered dictionary: a better one takes the place of its key. */
  function Put(s: seq<Memory>, x: Memory, keyOf: Memory -> MemoryKey): seq<Memory> {
    if s == [] then [x]
    else if keyOf(s[0]) == keyOf(x) then (if Better(x, s[0]) then [x] else [s[0]]) + s[1..]
    else [s[0]] + Put(s[1..], x, keyOf)
  }

  function Unique(items: seq<Memory>, keyOf: Memory -> MemoryKey): seq<Memory> {
    if items == [] then [] else Put(Unique(items[..|items| - 1], keyOf), items[|items| - 1], keyOf)
  }

  lemma {:induction false} PutAbsent(s: seq<Memory>, x: Memory, keyOf: Memory -> MemoryKey)
    requires forall i :: 0 <= i < |s| ==> keyOf(s[i]) != keyOf(x)
    ensures Put(s, x, keyOf) == s + [x]
  {
    if s != [] {
      PutAbsent(s[1..], x, keyOf);
      assert [s[0]] + (s[1..] + [x]) == s + [x];
    }
  }

  lemma {:induction false} PutPresent(s: seq<Memory>, x: Memory, p: nat, keyOf: Memory -> MemoryKey)
    requires p < |s| && keyOf(s[p]) == keyOf(x) && forall i :: 0 <= i < p ==> keyOf(s[i]) != keyOf(x)
    ensures Put(s, x, keyOf) == if Better(x, s[p]) then s[p := x] else s
  {
    hide Better;
    if p == 0 {
      assert s == [s[0]] + s[1..] && s[0 := x] == [x] + s[1..];
    } else {
      PutPresent(s[1..], x, p - 1, keyOf);
      assert s == [s[0]] + s[1..] && s[p := x] == [s[0]] + s[1..][p - 1 := x];
    }
  }

  /** The values of the dictionary, in order of first sight. */
  function Values(order: seq<MemoryKey>, best: map<MemoryKey, Memory>): (values: seq<Memory>)
    requires forall i :: 0 <= i < |order| ==> order[i] in best
    ensures |values| == |order| && forall i :: 0 <= i < |order| ==> values[i] == best[order[i]]
  {
    seq(|order|, i requires 0 <= i < |order| => best[order[i]])
  }

  /** A dictionary whose entries sit under their own keys, with the order of first sight. */
  ghost predicate Keyed(order: seq<MemoryKey>, best: map<MemoryKey, Memory>, keyOf: Memory -> MemoryKey) {
    && (forall i, j :: 0 <= i < j < |order| ==> order[i] != order[j])
    && (forall k :: k in order <==> k in best)
    && (forall k :: k in best ==> keyOf(best[k]) == k)
  }

  lemma PutNew(order: seq<MemoryKey>, best: map<MemoryKey, Memory>, x: Memory, keyOf: Memory -> MemoryKey)
    requires Keyed(order, best, keyOf) && keyOf(x) !in best && forall i :: 0 <= i < |order| ==> order[i] in best
    ensures Values(order + [keyOf(x)], best[keyOf(x) := x]) == Put(Values(order, best), x, keyOf)
  {
    hide Put;
    PutAbsent(Values(order, best), x, keyOf);
  }

  lemma PutOld(order: seq<MemoryKey>, best: map<MemoryKey, Memory>, x: Memory, keyOf: Memory -> MemoryKey)
    requires Keyed(order, best, keyOf) && keyOf(x) in best && forall i :: 0 <= i < |order| ==> order[i] in best
    ensures (if Better(x, best[keyOf(x)]) then Values(order, best[keyOf(x) := x]) else Values(order, best)) == Put(Values(order, best), x, keyOf)
  {
    hide Put, Better;
    var k, values := keyOf(x), Values(order, best);
    var p :| 0 <= p < |order| && order[p] == k;
    PutPresent(values, x, p, keyOf);
    assert Values(order, best[k := x]) == values[p := x];
  }

  /** The dictionary of the loop and the list semantics agree, branch by branch. */
  lemma ValuesStep(items: seq<Memory>, x: Memory, order: seq<MemoryKey>, best: map<MemoryKey, Memory>, at: map<MemoryKey, nat>,
                   keyOf: Memory -> MemoryKey)
    requires Sifted(items, order, best, at, keyOf) && forall i :: 0 <= i < |order| ==> order[i] in best
    requires Values(order, best) == Unique(items, keyOf)
    ensures var k := keyOf(x);
      && (k !in best ==> Values(order + [k], best[k := x]) == Unique(items + [x], keyOf))
      && (k in best && Better(x, best[k]) ==> Values(order, best[k := x]) == Unique(items + [x], keyOf))
      && (k in best && !Better(x, best[k]) ==> Values(order, best) == Unique(items + [x], keyOf))
  {
    hide Better, Values, Sifted, Keyed, Put;
    SiftedIsKeyed(items, order, best, at, keyOf);
    assert (items + [x])[..|items|] == items;
    if keyOf(x) !in best {
      PutNew(order, best, x, keyOf);
    } else {
      PutOld(order, best, x, keyOf);
    }
  }

  lemma SiftedIsKeyed(items: seq<Memory>, order: seq<MemoryKey>, best: map<MemoryKey, Memory>, at: map<MemoryKey, nat>,
                      keyOf: Memory -> MemoryKey)
    requires Sifted(items, order, best, at, keyOf)
    ensures Keyed(order, best, keyOf)
  {
    hide IsBest;
  }

  /** The deduplication loop. */
  method Deduplicate(items: seq<Memory>, keyOf: Memory -> MemoryKey) returns (unique: seq<Memory>)
    ensures unique == Unique(items, keyOf)
    ensures Deduplicated(unique, items, keyOf)
  {
    hide Sifted, Better, Deduplicated, Unique, Values;
    var order, best: map<MemoryKey, Memory> := [], map[];
    ghost var at: map<MemoryKey, nat> := map[];
    NothingSifted(keyOf);
    assert items[..0] == [];
    for n := 0 to |items|
      invariant Sifted(items[..n], order, best, at, keyOf)
      invariant forall i :: 0 <= i < |order| ==> order[i] in best
      invariant Values(order, best) == Unique(items[..n], keyOf)
    {
      var item := items[n];
      var key := keyOf(item);
      SiftStep(items[..n], item, order, best, at, keyOf);
      ValuesStep(items[..n], item, order, best, at, keyOf);
      assert items[..n + 1] == items[..n] + [item];
      if key !in best {
        order, best, at := order + [key], best[key := item], at[key := n];
      } else if Better(item, best[key]) {
        best, at := best[key := item], at[key := n];
      }
    }
    assert items[..|items|] == items;
    unique := Values(order, best);
    SiftedValues(items, order, best, at, keyOf, unique);
  }

  lemma NothingSifted(keyOf: Memory -> MemoryKey)
    ensures Sifted([], [], map[], map[], keyOf) && Values([], map[]) == Unique([], keyOf)
  {
  }

  lemma SiftedValues(items: seq<Memory>, order: seq<MemoryKey>, best: map<MemoryKey, Memory>, at: map<MemoryKey, nat>,
                     keyOf: Memory -> MemoryKey, unique: seq<Memory>)
    requires Sifted(items, order, best, at, keyOf)
    requires |unique| == |order| && forall i :: 0 <= i < |order| ==> order[i] in best && unique[i] == best[order[i]]
    ensures Deduplicated(unique, items, keyOf)
  {
    hide IsBest;
    forall m | m in unique ensures exists p :: 0 <= p < |items| && IsBest(items, p, keyOf) && items[p] == m {
      var i :| 0 <= i < |unique| && unique[i] == m;
      assert IsBest(items, at[order[i]], keyOf);
      BestInRange(items, at[order[i]], keyOf);
    }
    forall p | 0 <= p < |items| && IsBest(items, p, keyOf) ensures items[p] in unique {
      var k := keyOf(items[p]);
      BestIsOne(items, p, at[k], keyOf);
      var i :| 0 <= i < |order| && order[i] == k;
      assert unique[i] == items[p];
    }
  }

  lemma BestIsOne(items: seq<Memory>, p: nat, q: nat, keyOf: Memory -> MemoryKey)
    requires IsBest(items, p, keyOf) && IsBest(items, q, keyOf) && keyOf(items[p]) == keyOf(items[q])
    ensures p == q
  {
  }

  /** The best of a key: nothing pinned is passed over for something unpinned, and nothing
      updated later for something updated earlier. */
  lemma BestIsGreatest(items: seq<Memory>, p: nat, q: nat, keyOf: Memory -> MemoryKey)
    requires IsBest(items, p, keyOf) && q < |items| && keyOf(items[q]) == keyOf(items[p])
    ensures items[q].pinned ==> items[p].pinned
    ensures items[q].pinned == items[p].pinned ==> items[q].updatedAt <= items[p].updatedAt
    ensures q < p ==> items[q].pinned != items[p].pinned || items[q].updatedAt < items[p].updatedAt
  {
  }

  /** No project's memory is seen outside its project, and no thread's outside its thread. */
  lemma ScopeKeepsApart(t: Thread, candidates: seq<Memory>, m: Memory)
    requires m in candidates
    ensures m.scope == User ==> m in Scoped(t, candidates)
    ensures m.scope == Project || m.scope == Episodic ==> (m in Scoped(t, candidates) <==> t.project.Some? && m.project == Some(t.project.value))
    ensures m.scope == ThreadScope ==> (m in Scoped(t, candidates) <==> m.thread == Some(t.id))
  {
    ScopedIsExact(t, candidates);
  }

  // ---------------------------------------------------------------- by score

  function Insert(m: Memory, s: seq<Memory>, score: Memory -> real): seq<Memory> {
    if s == [] || score(s[0]) <= score(m) then [m] + s else [s[0]] + Insert(m, s[1..], score)
  }

  /** Highest score first; equal scores keep their order. */
  function ByScore(s: seq<Memory>, score: Memory -> real): seq<Memory> {
    if s == [] then [] else Insert(s[0], ByScore(s[1..], score), score)
  }

  ghost predicate Ranked(s: seq<Memory>, score: Memory -> real) {
    forall i, j :: 0 <= i < j < |s| ==> score(s[i]) >= score(s[j])
  }

  lemma {:induction false} InsertRanked(m: Memory, s: seq<Memory>, score: Memory -> real, keyOf: Memory -> MemoryKey)
    requires Ranked(s, score) && DistinctKeys(s, keyOf) && forall x :: x in s ==> keyOf(x) != keyOf(m)
    ensures Ranked(Insert(m, s, score), score) && DistinctKeys(Insert(m, s, score), keyOf)
    ensures forall x :: x in Insert(m, s, score) <==> x == m || x in s
  {
    hide Ranked, DistinctKeys;
    if s == [] || score(s[0]) <= score(m) {
      if s != [] {
        TailRanked(s, score, keyOf);
        assert forall x :: x in s <==> x == s[0] || x in s[1..];
      }
      ConsRanked(m, s, score, keyOf);
    } else {
      var rest := s[1..];
      TailRanked(s, score, keyOf);
      InsertRanked(m, rest, score, keyOf);
      ConsRanked(s[0], Insert(m, rest, score), score, keyOf);
      assert forall x :: x in s <==> x == s[0] || x in rest;
    }
  }

  lemma TailRanked(s: seq<Memory>, score: Memory -> real, keyOf: Memory -> MemoryKey)
    requires s != [] && Ranked(s, score) && DistinctKeys(s, keyOf)
    ensures Ranked(s[1..], score) && DistinctKeys(s[1..], keyOf)
    ensures forall x :: x in s[1..] ==> x in s && score(s[0]) >= score(x) && keyOf(s[0]) != keyOf(x)
  {
    assert forall i :: 0 <= i < |s[1..]| ==> s[1..][i] == s[i + 1];
  }

  lemma ConsRanked(m: Memory, s: seq<Memory>, score: Memory -> real, keyOf: Memory -> MemoryKey)
    requires Ranked(s, score) && DistinctKeys(s, keyOf)
    requires forall x :: x in s ==> score(m) >= score(x) && keyOf(x) != keyOf(m)
    ensures Ranked([m] + s, score) && DistinctKeys([m] + s, keyOf)
    ensures forall x :: x in [m] + s <==> x == m || x in s
  {
    assert forall i :: 0 <= i < |s| ==> s[i] in s;
  }

  lemma {:induction false} ByScoreRanks(s: seq<Memory>, score: Memory -> real, keyOf: Memory -> MemoryKey)
    requires DistinctKeys(s, keyOf)
    ensures Ranked(ByScore(s, score), score) && DistinctKeys(ByScore(s, score), keyOf)
    ensures forall x :: x in ByScore(s, score) <==> x in s
  {
    if s != [] {
      var rest := s[1..];
      assert forall i :: 0 <= i < |rest| ==> rest[i] == s[i + 1];
      ByScoreRanks(rest, score, keyOf);
      InsertRanked(s[0], ByScore(rest, score), score, keyOf);
      forall x ensures x in ByScore(s, score) <==> x in s {
        assert x in s <==> x == s[0] || x in rest;
      }
    }
  }

  function AtScore(s: seq<Memory>, score: Memory -> real, v: real): seq<Memory> {
    if s == [] then [] else (if score(s[0]) == v then [s[0]] else []) + AtScore(s[1..], score, v)
  }

  lemma AtScoreCons(m: Memory, s: seq<Memory>, score: Memory -> real, v: real)
    ensures AtScore([m] + s, score, v) == (if score(m) == v then [m] else []) + AtScore(s, score, v)
  {
    assert ([m] + s)[1..] == s;
  }

  lemma {:induction false} InsertFirstOfItsScore(m: Memory, s: seq<Memory>, score: Memory -> real, v: real)
    ensures AtScore(Insert(m, s, score), score, v) == (if score(m) == v then [m] else []) + AtScore(s, score, v)
  {
    hide AtScore;
    if s == [] || score(s[0]) <= score(m) {
      AtScoreCons(m, s, score, v);
    } else {
      InsertFirstOfItsScore(m, s[1..], score, v);
      AtScoreCons(s[0], Insert(m, s[1..], score), score, v);
      AtScoreCons(s[0], s[1..], score, v);
      assert s == [s[0]] + s[1..];
    }
  }

  /** Memories of equal score stay in the order in which they were offered. */
  lemma {:induction false} TiesKeepOrder(s: seq<Memory>, score: Memory -> real, v: real)
    ensures AtScore(ByScore(s, score), score, v) == AtScore(s, score, v)
  {
    if s != [] {
      TiesKeepOrder(s[1..], score, v);
      InsertFirstOfItsScore(s[0], ByScore(s[1..], score), score, v);
    }
  }

  // ------------------------------------------------------------- the bundle

  datatype Allowances = Allowances(total: int, tokens: int, messages: int, summary: int, memories: int, artifacts: int)

  /** What the repositories hold for one turn; permissions and configuration already rendered. */
  datatype Input = Input(
    thread: Thread,
    messages: seq<Piece>,
    summary: Option<string>,
    optedOut: bool,
    candidates: seq<Memory>,
    artifacts: seq<Piece>,
    permissions: string,
    config: string)

  /** Functions that the builder is given or that only compute: token count, normal form of a
      memory's content, score for the query, rendered provenance. */
  datatype Tools = Tools(
    count: Counter,
    normalize: string -> string,
    score: Memory -> real,
    provenance: Memory -> string)

  datatype Bundle = Bundle(
    permissions: Option<string>,
    messages: seq<Piece>,
    summary: Option<string>,
    memories: seq<Memory>,
    artifacts: seq<Piece>,
    config: Option<string>,
    provenance: seq<Memory>,
    characterCount: int,
    tokenEstimate: int)

  function KeyOf(normalize: string -> string): Memory -> MemoryKey {
    (m: Memory) => (m.kind, if m.normalized != "" then m.normalized else normalize(m.content))
  }

  function TextOf(): Piece -> string { (p: Piece) => p.text }

  function ContentOf(): Memory -> string { (m: Memory) => m.content }

  function Maybe(o: Option<string>): seq<string> {
    if o.Some? then [o.value] else []
  }

  /** Everything chosen, as rendered. */
  function Rendered(b: Bundle, tools: Tools): seq<string> {
    Maybe(b.permissions) + Map(b.messages, TextOf()) + Maybe(b.summary) + Map(b.memories, ContentOf())
      + Map(b.artifacts, TextOf()) + Maybe(b.config) + Map(b.provenance, tools.provenance)
  }

  function Candidates(input: Input): seq<Memory> {
    Scoped(input.thread, if input.optedOut then [] else input.candidates)
  }

  // --------------------------------------------------------- keeping account

  /** `chars` and `tokens` are what the texts spent so far have left of the totals. */
  ghost predicate Balanced(spent: seq<string>, count: Counter, a: Allowances, chars: int, tokens: int) {
    && chars == a.total - Chars(spent) && tokens == a.tokens - Tokens(spent, count)
    && (a.total >= 0 ==> chars >= 0) && (a.tokens >= 0 ==> tokens >= 0)
  }

  /** What `more` costs has been taken off, without overdrawing. */
  ghost predicate Spent(more: seq<string>, count: Counter, chars: int, tokens: int, chars': int, tokens': int) {
    && chars' == chars - Chars(more) && tokens' == tokens - Tokens(more, count)
    && (chars >= 0 ==> chars' >= 0) && (tokens >= 0 ==> tokens' >= 0)
  }

  lemma SpentAll(more: seq<string>, count: Counter, chars: int, tokens: int, chars': int, tokens': int)
    requires chars' == chars - Chars(more) && tokens' == tokens - Tokens(more, count)
    requires (chars >= 0 ==> chars' >= 0) && (tokens >= 0 ==> tokens' >= 0)
    ensures Spent(more, count, chars, tokens, chars', tokens')
  {
  }

  lemma Spend(spent: seq<string>, more: seq<string>, count: Counter, a: Allowances, chars: int, tokens: int, chars': int, tokens': int)
    requires Balanced(spent, count, a, chars, tokens) && Spent(more, count, chars, tokens, chars', tokens')
    ensures Balanced(spent + more, count, a, chars', tokens')
  {
    hide Chars, Tokens;
    ChargeConcat(spent, more, count);
  }

  /** No value is left out that would fit in what remains at the very end. */
  ghost predicate NoneWouldFit<T>(chosen: seq<T>, values: seq<T>, render: T -> string, budget: int, count: Counter, chars: int, tokens: int) {
    forall v :: v in values && v !in chosen ==> !Fits(Limits(budget - Chars(Map(chosen, render)), chars, tokens), render(v), count)
  }

  lemma ChoiceLeavesOut<T>(chosen: seq<T>, values: seq<T>, places: seq<nat>, render: T -> string, l: Limits, count: Counter, chars: int, tokens: int)
    requires Choice(chosen, values, places, render, l, count)
    requires chars <= Left(l, Map(chosen, render), count).chars && tokens <= Left(l, Map(chosen, render), count).tokens
    ensures NoneWouldFit(chosen, values, render, l.source, count, chars, tokens)
  {
    forall v | v in values && v !in chosen
      ensures !Fits(Limits(l.source - Chars(Map(chosen, render)), chars, tokens), render(v), count)
    {
      assert forall j :: 0 <= j < |places| ==> values[places[j]] == chosen[j] && chosen[j] in chosen;
      var i :| 0 <= i < |values| && values[i] == v;
      assert i !in places;
    }
  }

  /** The chosen are among the offered, in their order. */
  ghost predicate Subsequence<T(!new)>(s: seq<T>, t: seq<T>) {
    exists places: seq<nat> :: Increasing(places, |t|) && s == Pick(t, places)
  }

  function Mirrored(places: seq<nat>, n: nat): (r: seq<nat>)
    requires forall i :: 0 <= i < |places| ==> places[i] < n
    ensures |r| == |places| && forall i :: 0 <= i < |r| ==> r[i] == n - 1 - places[|places| - 1 - i]
  {
    seq(|places|, i requires 0 <= i < |places| => n - 1 - places[|places| - 1 - i])
  }

  lemma MirroredIncreasing(places: seq<nat>, n: nat)
    requires Increasing(places, n)
    ensures Increasing(Mirrored(places, n), n)
  {
    hide Mirrored;
    var m := Mirrored(places, n);
    forall i, j | 0 <= i < j < |m| ensures m[i] < m[j] {
      var p, q := |places| - 1 - j, |places| - 1 - i;
      assert places[p] < places[q];
    }
  }

  /** Choosing from the newest and reversing gives a choice in the given order. */
  lemma ReversedSubsequence<T(!new)>(s: seq<T>, t: seq<T>, places: seq<nat>)
    requires Increasing(places, |t|) && s == Pick(Reversed(t), places)
    ensures Subsequence(Reversed(s), t)
  {
    hide Reversed, Mirrored, Increasing, Pick;
    assert forall i :: 0 <= i < |places| ==> places[i] < |t| by { InRange(places, |t|); }
    var m := Mirrored(places, |t|);
    MirroredIncreasing(places, |t|);
    assert Reversed(s) == Pick(t, m);
  }

  lemma InRange(places: seq<nat>, n: nat)
    requires Increasing(places, n)
    ensures forall i :: 0 <= i < |places| ==> places[i] < n
  {
  }

  lemma ChoiceIsSubsequence<T(!new)>(chosen: seq<T>, values: seq<T>, places: seq<nat>, render: T -> string, l: Limits, count: Counter)
    requires Choice(chosen, values, places, render, l, count)
    ensures Subsequence(chosen, values)
    ensures forall v :: v in chosen ==> v in values
  {
    hide Fits, Left;
    forall v | v in chosen ensures v in values {
      var j :| 0 <= j < |chosen| && chosen[j] == v;
      assert values[places[j]] in values;
    }
  }

  /** Reversing a choice changes neither its members nor its cost. */
  lemma ReversedChoice<T>(s: seq<T>, render: T -> string, count: Counter)
    ensures Chars(Map(Reversed(s), render)) == Chars(Map(s, render))
    ensures Tokens(Map(Reversed(s), render), count) == Tokens(Map(s, render), count)
    ensures forall v :: v in Reversed(s) <==> v in s
  {
    hide Reversed, Map, Chars, Tokens;
    ChargeReversed(Map(s, render), count);
    assert Map(Reversed(s), render) == Reversed(Map(s, render));
    var r := Reversed(s);
    forall v | v in s ensures v in r {
      var i :| 0 <= i < |s| && s[i] == v;
      assert r[|s| - 1 - i] == v;
    }
  }

  /** Some of the best memories, one per key, by falling score. */
  ghost predicate BestRanked(chosen: seq<Memory>, items: seq<Memory>, keyOf: Memory -> MemoryKey, score: Memory -> real) {
    && DistinctKeys(chosen, keyOf) && Ranked(chosen, score)
    && (forall m :: m in chosen ==> exists p :: 0 <= p < |items| && IsBest(items, p, keyOf) && items[p] == m)
  }

  ghost predicate AllBest(ranked: seq<Memory>, items: seq<Memory>, keyOf: Memory -> MemoryKey) {
    forall p :: 0 <= p < |items| && IsBest(items, p, keyOf) ==> items[p] in ranked
  }

  lemma DeduplicatedRanked(unique: seq<Memory>, items: seq<Memory>, keyOf: Memory -> MemoryKey, score: Memory -> real)
    requires Deduplicated(unique, items, keyOf)
    ensures BestRanked(ByScore(unique, score), items, keyOf, score) && AllBest(ByScore(unique, score), items, keyOf)
  {
    hide IsBest, DistinctKeys, Ranked, ByScore;
    ByScoreRanks(unique, score, keyOf);
  }

  /** Choosing from a ranking keeps it one. */
  lemma ChosenRanked(chosen: seq<Memory>, ranked: seq<Memory>, places: seq<nat>, items: seq<Memory>, keyOf: Memory -> MemoryKey, score: Memory -> real)
    requires BestRanked(ranked, items, keyOf, score) && Increasing(places, |ranked|) && chosen == Pick(ranked, places)
    ensures BestRanked(chosen, items, keyOf, score)
  {
    hide IsBest;
    forall m | m in chosen ensures m in ranked {
      var j :| 0 <= j < |chosen| && chosen[j] == m;
      assert ranked[places[j]] in ranked;
    }
  }

  /** Memories are the same exactly when kind and normal form agree; the stored normal form counts
      unless it is empty. */
  lemma KeyExact(normalize: string -> string, m: Memory, n: Memory)
    ensures KeyOf(normalize)(m) == KeyOf(normalize)(n) <==>
      && m.kind == n.kind
      && (m.normalized != "" && n.normalized != "" ==> m.normalized == n.normalized)
      && (m.normalized == "" && n.normalized != "" ==> normalize(m.content) == n.normalized)
      && (m.normalized != "" && n.normalized == "" ==> m.normalized == normalize(n.content))
      && (m.normalized == "" && n.normalized == "" ==> normalize(m.content) == normalize(n.content))
  {
  }

  /** Memories are only ever those of an owner who has not opted out, from the thread's own scopes,
      and no two of one kind say the same once normalized. */
  lemma MemoriesAllowed(chosen: seq<Memory>, input: Input, tools: Tools)
    requires BestRanked(chosen, Candidates(input), KeyOf(tools.normalize), tools.score)
    ensures forall m :: m in chosen ==>
      && !input.optedOut && m in input.candidates
      && (m.scope == Project || m.scope == Episodic ==> input.thread.project.Some? && m.project == Some(input.thread.project.value))
      && (m.scope == ThreadScope ==> m.thread == Some(input.thread.id))
    ensures forall i, j :: 0 <= i < j < |chosen| && chosen[i].kind == chosen[j].kind ==>
      (if chosen[i].normalized != "" then chosen[i].normalized else tools.normalize(chosen[i].content))
      != (if chosen[j].normalized != "" then chosen[j].normalized else tools.normalize(chosen[j].content))
  {
    hide IsBest, Ranked;
    var offered := if input.optedOut then [] else input.candidates;
    ScopedIsExact(input.thread, offered);
    var keyOf, items := KeyOf(tools.normalize), Candidates(input);
    forall m | m in chosen ensures m in offered && InScope(input.thread, m) {
      var p :| 0 <= p < |items| && IsBest(items, p, keyOf) && items[p] == m;
      assert m in Scoped(input.thread, offered);
    }
    forall i, j | 0 <= i < j < |chosen| ensures keyOf(chosen[i]) != keyOf(chosen[j]) {
    }
  }

  // ------------------------------------------------------------------- build

  /** Each source keeps to its own budget; a negative one admits nothing. */
  ghost predicate WithinSource<T>(chosen: seq<T>, render: T -> string, budget: int) {
    if budget < 0 then chosen == [] else Chars(Map(chosen, render)) <= budget
  }

  lemma AffordableWithin<T>(chosen: seq<T>, render: T -> string, l: Limits, count: Counter)
    requires Affordable(chosen, render, l, count)
    ensures WithinSource(chosen, render, l.source)
    ensures l.chars >= 0 ==> l.chars - Chars(Map(chosen, render)) >= 0
    ensures l.tokens >= 0 ==> l.tokens - Tokens(Map(chosen, render), count) >= 0
  {
  }

  function TextIfFits(text: string, l: Limits, count: Counter): Option<string> {
    if |text| <= l.source && |text| <= l.chars && count(text) <= l.tokens then Some(text) else None
  }

  /** A text left out for lack of room does not fit later either. */
  lemma TextLeftOut(text: string, l: Limits, count: Counter, chars: int, tokens: int)
    requires TextIfFits(text, l, count).None? && chars <= l.chars && tokens <= l.tokens
    ensures !Fits(Limits(l.source, chars, tokens), text, count)
  {
  }

  lemma ConfigLeftOut(text: string, c: int, t: int, count: Counter, chars: int, tokens: int)
    requires TextIfFits(text, Limits(c, c, t), count).None? && chars <= c && tokens <= t
    ensures !Fits(Limits(chars, chars, tokens), text, count)
  {
  }

  /** A single optional text, taken when it fits. */
  method TakeText(text: string, budget: int, count: Counter, remaining: int, remainingTokens: int)
    returns (taken: Option<string>, chars: int, tokens: int)
    ensures taken == TextIfFits(text, Limits(budget, remaining, remainingTokens), count)
    ensures taken.Some? ==> taken.value == text && |text| <= budget
    ensures chars == remaining - Chars(Maybe(taken)) && tokens == remainingTokens - Tokens(Maybe(taken), count)
    ensures (remaining >= 0 ==> chars >= 0) && (remainingTokens >= 0 ==> tokens >= 0)
  {
    taken, chars, tokens := None, remaining, remainingTokens;
    if |text| <= budget && |text| <= remaining && count(text) <= remainingTokens {
      taken, chars, tokens := Some(text), remaining - |text|, remainingTokens - count(text);
      ChargeSnoc([], text, count);
      assert Maybe(taken) == [] + [text];
    }
  }

  /** The newest messages that fit, in chronological order. */
  method TakeMessages(messages: seq<Piece>, budget: int, count: Counter, remaining: int, remainingTokens: int)
    returns (recent: seq<Piece>, chars: int, tokens: int)
    ensures Subsequence(recent, messages) && WithinSource(recent, TextOf(), budget)
    ensures recent == Reversed(GreedyChoice(Reversed(messages), TextOf(), Limits(budget, remaining, remainingTokens), count))
    ensures chars == remaining - Chars(Map(recent, TextOf())) && tokens == remainingTokens - Tokens(Map(recent, TextOf()), count)
    ensures (remaining >= 0 ==> chars >= 0) && (remainingTokens >= 0 ==> tokens >= 0)
    ensures forall c, t | c <= chars && t <= tokens :: NoneWouldFit(recent, messages, TextOf(), budget, count, c, t)
  {
    hide Reversed, Map, Chars, Tokens, Affordable, Left, Fits, Greedy, GreedyChoice, Subsequence, TextOf;
    var newest := Reversed(messages);
    ghost var places;
    var selected;
    ghost var l := Limits(budget, remaining, remainingTokens);
    selected, chars, tokens, places := Take(newest, budget, TextOf(), count, remaining, remainingTokens);
    recent := Reversed(selected);
    AffordableWithin(selected, TextOf(), l, count);
    ReversedSubsequence(selected, messages, places);
    ReversedChoice(selected, TextOf(), count);
    ReversedChoice(messages, TextOf(), count);
    forall c, t | c <= chars && t <= tokens ensures NoneWouldFit(recent, messages, TextOf(), budget, count, c, t) {
      LeftAt(selected, TextOf(), l, count);
      ChoiceLeavesOut(selected, newest, places, TextOf(), l, count, c, t);
    }
    NoneReversed(selected);
  }

  lemma LeftAt<T>(chosen: seq<T>, render: T -> string, l: Limits, count: Counter)
    ensures Left(l, Map(chosen, render), count).chars == l.chars - Chars(Map(chosen, render))
    ensures Left(l, Map(chosen, render), count).tokens == l.tokens - Tokens(Map(chosen, render), count)
  {
  }

  lemma NoneReversed<T>(s: seq<T>)
    ensures s == [] ==> Reversed(s) == []
  {
  }

  /** Values taken from the front, as artifacts and provenance are. */
  method TakeInOrder<T(!new)>(values: seq<T>, budget: int, render: T -> string, count: Counter, remaining: int, remainingTokens: int)
    returns (chosen: seq<T>, chars: int, tokens: int)
    ensures Subsequence(chosen, values) && WithinSource(chosen, render, budget)
    ensures chosen == GreedyChoice(values, render, Limits(budget, remaining, remainingTokens), count)
    ensures chars == remaining - Chars(Map(chosen, render)) && tokens == remainingTokens - Tokens(Map(chosen, render), count)
    ensures (remaining >= 0 ==> chars >= 0) && (remainingTokens >= 0 ==> tokens >= 0)
    ensures forall c, t | c <= chars && t <= tokens :: NoneWouldFit(chosen, values, render, budget, count, c, t)
  {
    hide Map, Chars, Tokens, Affordable, Left, Fits, Choice, Greedy, GreedyChoice, Subsequence;
    ghost var places;
    ghost var l := Limits(budget, remaining, remainingTokens);
    chosen, chars, tokens, places := Take(values, budget, render, count, remaining, remainingTokens);
    AffordableWithin(chosen, render, l, count);
    ChoiceIsSubsequence(chosen, values, places, render, l, count);
    forall c, t | c <= chars && t <= tokens ensures NoneWouldFit(chosen, values, render, budget, count, c, t) {
      LeftAt(chosen, render, l, count);
      ChoiceLeavesOut(chosen, values, places, render, l, count, c, t);
    }
  }

  function Offer(input: Input, tools: Tools): seq<Memory> {
    ByScore(Unique(Candidates(input), KeyOf(tools.normalize)), tools.score)
  }

  /** The memories offered: in scope, the best of each key, by falling score. */
  method OfferMemories(input: Input, tools: Tools) returns (ranked: seq<Memory>)
    ensures ranked == Offer(input, tools)
    ensures BestRanked(ranked, Candidates(input), KeyOf(tools.normalize), tools.score)
    ensures AllBest(ranked, Candidates(input), KeyOf(tools.normalize))
  {
    hide BestRanked, AllBest, Deduplicated, Unique, ByScore;
    var unique := Deduplicate(Candidates(input), KeyOf(tools.normalize));
    DeduplicatedRanked(unique, Candidates(input), KeyOf(tools.normalize), tools.score);
    ranked := ByScore(unique, tools.score);
  }

  method TakeMemories(input: Input, tools: Tools, budget: int, remaining: int, remainingTokens: int)
    returns (chosen: seq<Memory>, chars: int, tokens: int)
    ensures chosen == GreedyChoice(Offer(input, tools), ContentOf(), Limits(budget, remaining, remainingTokens), tools.count)
    ensures BestRanked(chosen, Candidates(input), KeyOf(tools.normalize), tools.score) && WithinSource(chosen, ContentOf(), budget)
    ensures chars == remaining - Chars(Map(chosen, ContentOf())) && tokens == remainingTokens - Tokens(Map(chosen, ContentOf()), tools.count)
    ensures (remaining >= 0 ==> chars >= 0) && (remainingTokens >= 0 ==> tokens >= 0)
    ensures forall c, t | c <= chars && t <= tokens ::
      NoneWouldFit(chosen, AllBestOf(Candidates(input), KeyOf(tools.normalize)), ContentOf(), budget, tools.count, c, t)
  {
    hide Map, Chars, Tokens, Affordable, Left, Fits, Greedy, GreedyChoice, Offer, BestRanked, Candidates, KeyOf, ContentOf;
    var ranked := OfferMemories(input, tools);
    ghost var places;
    ghost var l := Limits(budget, remaining, remainingTokens);
    chosen, chars, tokens, places := Take(ranked, budget, ContentOf(), tools.count, remaining, remainingTokens);
    AffordableWithin(chosen, ContentOf(), l, tools.count);
    ChosenRanked(chosen, ranked, places, Candidates(input), KeyOf(tools.normalize), tools.score);
    ghost var best := AllBestOf(Candidates(input), KeyOf(tools.normalize));
    AllBestOffered(ranked, Candidates(input), KeyOf(tools.normalize));
    forall c, t | c <= chars && t <= tokens ensures NoneWouldFit(chosen, best, ContentOf(), budget, tools.count, c, t) {
      LeftAt(chosen, ContentOf(), l, tools.count);
      ChoiceLeavesOut(chosen, ranked, places, ContentOf(), l, tools.count, c, t);
    }
  }

  /** The best of each key, as they lie among the candidates. */
  ghost function AllBestOf(items: seq<Memory>, keyOf: Memory -> MemoryKey): seq<Memory> {
    BestUpTo(items, |items|, keyOf)
  }

  ghost function BestUpTo(items: seq<Memory>, n: nat, keyOf: Memory -> MemoryKey): seq<Memory>
    requires n <= |items|
  {
    if n == 0 then [] else BestUpTo(items, n - 1, keyOf) + if IsBest(items, n - 1, keyOf) then [items[n - 1]] else []
  }

  lemma {:induction false} BestUpToIsExact(items: seq<Memory>, n: nat, keyOf: Memory -> MemoryKey, m: Memory)
    requires n <= |items|
    ensures m in BestUpTo(items, n, keyOf) <==> exists p :: 0 <= p < n && IsBest(items, p, keyOf) && items[p] == m
  {
    hide IsBest;
    if n > 0 {
      BestUpToIsExact(items, n - 1, keyOf, m);
    }
  }

  lemma AllBestOffered(ranked: seq<Memory>, items: seq<Memory>, keyOf: Memory -> MemoryKey)
    requires AllBest(ranked, items, keyOf)
    ensures forall m :: m in AllBestOf(items, keyOf) ==> m in ranked
  {
    hide IsBest, BestUpTo;
    forall m | m in AllBestOf(items, keyOf) ensures m in ranked {
      BestUpToIsExact(items, |items|, keyOf, m);
    }
  }

  /** What may be spent on a source once `spent` is. */
  function Remaining(a: Allowances, source: int, spent: seq<string>, count: Counter): Limits {
    Limits(source, a.total - Chars(spent), a.tokens - Tokens(spent, count))
  }

  /** Permissions come first, then messages, summary, memories, artifacts, configuration and
      provenance, each choosing from what all before it have left. */
  ghost predicate InTurn(b: Bundle, input: Input, a: Allowances, tools: Tools) {
    var count := tools.count;
    var s1 := Maybe(b.permissions);
    var s2 := s1 + Map(b.messages, TextOf());
    var s3 := s2 + Maybe(b.summary);
    var s4 := s3 + Map(b.memories, ContentOf());
    var s5 := s4 + Map(b.artifacts, TextOf());
    var s6 := s5 + Maybe(b.config);
    && b.permissions == TextIfFits(input.permissions, Limits(a.total, a.total, a.tokens), count)
    && b.messages == Reversed(GreedyChoice(Reversed(input.messages), TextOf(), Remaining(a, a.messages, s1, count), count))
    && b.summary == (if input.summary.None? then None else TextIfFits(input.summary.value, Remaining(a, a.summary, s2, count), count))
    && b.memories == GreedyChoice(Offer(input, tools), ContentOf(), Remaining(a, a.memories, s3, count), count)
    && b.artifacts == GreedyChoice(input.artifacts, TextOf(), Remaining(a, a.artifacts, s4, count), count)
    && b.config == TextIfFits(input.config, Remaining(a, a.total - Chars(s5), s5, count), count)
    && b.provenance == GreedyChoice(b.memories, tools.provenance, Remaining(a, a.total - Chars(s6), s6, count), count)
  }

  lemma BalancedRemaining(spent: seq<string>, count: Counter, a: Allowances, chars: int, tokens: int)
    requires Balanced(spent, count, a, chars, tokens)
    ensures a.total - Chars(spent) == chars && forall source :: Remaining(a, source, spent, count) == Limits(source, chars, tokens)
  {
  }

  /** Assembles the bundle. What is counted is exactly what was chosen, no budget is overdrawn,
      and nothing is left out that would still fit at the end; the sources take their turns. */
  method Build(input: Input, a: Allowances, tools: Tools) returns (b: Bundle)
    ensures InTurn(b, input, a, tools)
    ensures b.characterCount == Chars(Rendered(b, tools)) && b.tokenEstimate == Tokens(Rendered(b, tools), tools.count)
    ensures (a.total >= 0 ==> b.characterCount <= a.total) && (a.tokens >= 0 ==> b.tokenEstimate <= a.tokens)
    ensures WithinSource(b.messages, TextOf(), a.messages) && Subsequence(b.messages, input.messages)
    ensures b.summary.Some? ==> b.summary == input.summary && |b.summary.value| <= a.summary
    ensures WithinSource(b.memories, ContentOf(), a.memories)
    ensures BestRanked(b.memories, Candidates(input), KeyOf(tools.normalize), tools.score)
    ensures WithinSource(b.artifacts, TextOf(), a.artifacts) && Subsequence(b.artifacts, input.artifacts)
    ensures Subsequence(b.provenance, b.memories)
    ensures input.optedOut ==> b.memories == []
    ensures var c, t := a.total - b.characterCount, a.tokens - b.tokenEstimate;
      && NoneWouldFit(b.messages, input.messages, TextOf(), a.messages, tools.count, c, t)
      && NoneWouldFit(b.memories, AllBestOf(Candidates(input), KeyOf(tools.normalize)), ContentOf(), a.memories, tools.count, c, t)
      && NoneWouldFit(b.artifacts, input.artifacts, TextOf(), a.artifacts, tools.count, c, t)
      && NoneWouldFit(b.provenance, b.memories, tools.provenance, c + Chars(Map(b.provenance, tools.provenance)), tools.count, c, t)
      && (input.summary.Some? && b.summary.None? ==> !Fits(Limits(a.summary, c, t), input.summary.value, tools.count))
      && (b.config.None? ==> !Fits(Limits(c, c, t), input.config, tools.count))
  {
    hide Map, Chars, Tokens, Affordable, Choice, Left, Greedy, GreedyChoice, Offer, Reversed, Subsequence, BestRanked, Candidates, KeyOf,
         ContentOf, TextOf, WithinSource, NoneWouldFit, AllBestOf, Maybe, Balanced, Remaining, Rendered, Fits, TextIfFits, Spent, InTurn;
    var count := tools.count;
    var permissions, c1, t1 := TakeText(input.permissions, a.total, count, a.total, a.tokens);
    var messages, c2, t2 := TakeMessages(input.messages, a.messages, count, c1, t1);
    var summary, c3, t3 := None, c2, t2;
    NoTexts(count);
    if input.summary.Some? {
      summary, c3, t3 := TakeText(input.summary.value, a.summary, count, c2, t2);
    }
    var memories, c4, t4 := TakeMemories(input, tools, a.memories, c3, t3);
    var artifacts, c5, t5 := TakeInOrder(input.artifacts, a.artifacts, TextOf(), count, c4, t4);
    var config, c6, t6 := TakeText(input.config, c5, count, c5, t5);
    var provenance, c7, t7 := TakeInOrder(memories, c6, tools.provenance, count, c6, t6);
    b := Bundle(permissions, messages, summary, memories, artifacts, config, provenance, a.total - c7, a.tokens - t7);

    if input.summary.Some? && summary.None? {
      TextLeftOut(input.summary.value, Limits(a.summary, c2, t2), count, c7, t7);
    }
    if config.None? {
      ConfigLeftOut(input.config, c5, t5, count, c7, t7);
    }
    SpentAll(Maybe(permissions), count, a.total, a.tokens, c1, t1);
    SpentAll(Map(messages, TextOf()), count, c1, t1, c2, t2);
    SpentAll(Maybe(summary), count, c2, t2, c3, t3);
    SpentAll(Map(memories, ContentOf()), count, c3, t3, c4, t4);
    SpentAll(Map(artifacts, TextOf()), count, c4, t4, c5, t5);
    SpentAll(Maybe(config), count, c5, t5, c6, t6);
    SpentAll(Map(provenance, tools.provenance), count, c6, t6, c7, t7);
    NoneIfOptedOut(memories, input, tools);
    Account(b, a, tools, c1, t1, c2, t2, c3, t3, c4, t4, c5, t5, c6, t6, c7, t7);
    Turns(b, input, a, tools, c1, t1, c2, t2, c3, t3, c4, t4, c5, t5, c6, t6);
    BalancedEnd(Rendered(b, tools), count, a, c7, t7);
  }

  /** Each source chose under the limits that the account says the earlier ones left. */
  lemma Turns(b: Bundle, input: Input, a: Allowances, tools: Tools, c1: int, t1: int, c2: int, t2: int, c3: int, t3: int,
              c4: int, t4: int, c5: int, t5: int, c6: int, t6: int)
    requires b.permissions == TextIfFits(input.permissions, Limits(a.total, a.total, a.tokens), tools.count)
    requires b.messages == Reversed(GreedyChoice(Reversed(input.messages), TextOf(), Limits(a.messages, c1, t1), tools.count))
    requires b.summary == if input.summary.None? then None else TextIfFits(input.summary.value, Limits(a.summary, c2, t2), tools.count)
    requires b.memories == GreedyChoice(Offer(input, tools), ContentOf(), Limits(a.memories, c3, t3), tools.count)
    requires b.artifacts == GreedyChoice(input.artifacts, TextOf(), Limits(a.artifacts, c4, t4), tools.count)
    requires b.config == TextIfFits(input.config, Limits(c5, c5, t5), tools.count)
    requires b.provenance == GreedyChoice(b.memories, tools.provenance, Limits(c6, c6, t6), tools.count)
    requires var count := tools.count;
      var s1 := Maybe(b.permissions);
      var s2 := s1 + Map(b.messages, TextOf());
      var s3 := s2 + Maybe(b.summary);
      var s4 := s3 + Map(b.memories, ContentOf());
      var s5 := s4 + Map(b.artifacts, TextOf());
      var s6 := s5 + Maybe(b.config);
      && Balanced(s1, count, a, c1, t1) && Balanced(s2, count, a, c2, t2) && Balanced(s3, count, a, c3, t3)
      && Balanced(s4, count, a, c4, t4) && Balanced(s5, count, a, c5, t5) && Balanced(s6, count, a, c6, t6)
    ensures InTurn(b, input, a, tools)
  {
    hide Map, Chars, Tokens, GreedyChoice, Offer, Reversed, ContentOf, TextOf, Maybe, Balanced, Remaining, TextIfFits;
    var count := tools.count;
    var s1 := Maybe(b.permissions);
    var s2 := s1 + Map(b.messages, TextOf());
    var s3 := s2 + Maybe(b.summary);
    var s4 := s3 + Map(b.memories, ContentOf());
    var s5 := s4 + Map(b.artifacts, TextOf());
    BalancedRemaining(s1, count, a, c1, t1);
    BalancedRemaining(s2, count, a, c2, t2);
    BalancedRemaining(s3, count, a, c3, t3);
    BalancedRemaining(s4, count, a, c4, t4);
    BalancedRemaining(s5, count, a, c5, t5);
    BalancedRemaining(s5 + Maybe(b.config), count, a, c6, t6);
  }

  /** The account of the whole bundle, source by source. */
  lemma Account(b: Bundle, a: Allowances, tools: Tools, c1: int, t1: int, c2: int, t2: int, c3: int, t3: int,
                c4: int, t4: int, c5: int, t5: int, c6: int, t6: int, c7: int, t7: int)
    requires Spent(Maybe(b.permissions), tools.count, a.total, a.tokens, c1, t1)
    requires Spent(Map(b.messages, TextOf()), tools.count, c1, t1, c2, t2)
    requires Spent(Maybe(b.summary), tools.count, c2, t2, c3, t3)
    requires Spent(Map(b.memories, ContentOf()), tools.count, c3, t3, c4, t4)
    requires Spent(Map(b.artifacts, TextOf()), tools.count, c4, t4, c5, t5)
    requires Spent(Maybe(b.config), tools.count, c5, t5, c6, t6)
    requires Spent(Map(b.provenance, tools.provenance), tools.count, c6, t6, c7, t7)
    ensures var count := tools.count;
      var s1 := Maybe(b.permissions);
      var s2 := s1 + Map(b.messages, TextOf());
      var s3 := s2 + Maybe(b.summary);
      var s4 := s3 + Map(b.memories, ContentOf());
      var s5 := s4 + Map(b.artifacts, TextOf());
      var s6 := s5 + Maybe(b.config);
      && Balanced(s1, count, a, c1, t1) && Balanced(s2, count, a, c2, t2) && Balanced(s3, count, a, c3, t3)
      && Balanced(s4, count, a, c4, t4) && Balanced(s5, count, a, c5, t5) && Balanced(s6, count, a, c6, t6)
      && Balanced(Rendered(b, tools), count, a, c7, t7)
  {
    hide Map, Chars, Tokens, Maybe, Balanced, ContentOf, TextOf;
    var count := tools.count;
    BalancedStart(count, a);
    Spend([], Maybe(b.permissions), count, a, a.total, a.tokens, c1, t1);
    var s1 := Maybe(b.permissions);
    assert [] + s1 == s1;
    Spend(s1, Map(b.messages, TextOf()), count, a, c1, t1, c2, t2);
    var s2 := s1 + Map(b.messages, TextOf());
    Spend(s2, Maybe(b.summary), count, a, c2, t2, c3, t3);
    var s3 := s2 + Maybe(b.summary);
    Spend(s3, Map(b.memories, ContentOf()), count, a, c3, t3, c4, t4);
    var s4 := s3 + Map(b.memories, ContentOf());
    Spend(s4, Map(b.artifacts, TextOf()), count, a, c4, t4, c5, t5);
    var s5 := s4 + Map(b.artifacts, TextOf());
    Spend(s5, Maybe(b.config), count, a, c5, t5, c6, t6);
    Spend(s5 + Maybe(b.config), Map(b.provenance, tools.provenance), count, a, c6, t6, c7, t7);
  }

  lemma BalancedEnd(spent: seq<string>, count: Counter, a: Allowances, chars: int, tokens: int)
    requires Balanced(spent, count, a, chars, tokens)
    ensures a.total - chars == Chars(spent) && a.tokens - tokens == Tokens(spent, count)
    ensures (a.total >= 0 ==> chars >= 0) && (a.tokens >= 0 ==> tokens >= 0)
  {
  }

  lemma BalancedStart(count: Counter, a: Allowances)
    ensures Balanced([], count, a, a.total, a.tokens)
  {
  }

  lemma NoneIfOptedOut(chosen: seq<Memory>, input: Input, tools: Tools)
    requires BestRanked(chosen, Candidates(input), KeyOf(tools.normalize), tools.score)
    ensures input.optedOut ==> chosen == []
  {
    hide BestRanked, Candidates, KeyOf;
    MemoriesAllowed(chosen, input, tools);
    if chosen != [] {
      assert chosen[0] in chosen;
    }
  }

  lemma NoTexts(count: Counter)
    ensures Chars([]) == 0 && Tokens([], count) == 0 && Maybe(None) == []
  {
  }
}
