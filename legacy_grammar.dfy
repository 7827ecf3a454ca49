/** `generate_grammar` of scripts/grammar_generation.py: from the nonterminal tables `G`
    (name -> token) and `S` (name -> positions) it writes one rule per position of a
    level-0 name under the start symbol `NT`, and one rule per pair of names holding
    consecutive positions, in the order of `sort_key`. */
module LegacyGrammar {
  import opened Wrappers
  import opened Dicts
  import opened Sorting
  import opened LegacyNames
  import opened LegacyNonTerminals
  import opened Collect

  /** `rules`: nonterminal -> its rule strings. */
  type Rules = Dict<string, seq<string>>

  /** `nt.startswith("A")`. */
  predicate StartsWithA(nt: string) {
    |nt| > 0 && nt[0] == 'A'
  }

  /** `S.get(k, [])`. */
  function Get(S: Positions, k: string): seq<int> {
    if k in S.items then S.items[k] else []
  }

  // ---------------------------------------------------------------------------------
  // find_number_for_initial_nt
  // ---------------------------------------------------------------------------------

  /** The names of `S`, in order, whose list holds the position `q`. */
  function Holding(S: Positions, q: int): seq<string> {
    FlatMap(S.keys, c => if c in S.items && q in S.items[c] then [c] else [], |S.keys|)
  }

  /** The candidates `recurse` examines for `current_nt`: for each of its positions, in
      order, the names holding the position before. */
  function Candidates(S: Positions, cur: string): seq<string> {
    FlatMap(Get(S, cur), pos => Holding(S, pos - 1), |Get(S, cur)|)
  }

  lemma HoldingMember(S: Positions, q: int, c: string)
    ensures c in Holding(S, q) <==> c in S.keys && c in S.items && q in S.items[c]
  {
    var h := c' => if c' in S.items && q in S.items[c'] then [c'] else [];
    FlatMapMember(S.keys, h, |S.keys|, c);
    if c in S.keys && c in S.items && q in S.items[c] {
      var k :| 0 <= k < |S.keys| && S.keys[k] == c;
      assert c in h(S.keys[k]);
    }
  }

  /** A candidate is a name of `S` that holds the position before one of `cur`'s. */
  lemma CandidateMember(S: Positions, cur: string, c: string)
    ensures c in Candidates(S, cur) <==>
              c in S.keys && c in S.items && exists pos :: pos in Get(S, cur) && pos - 1 in S.items[c]
  {
    var ps := Get(S, cur);
    var f := pos => Holding(S, pos - 1);
    FlatMapMember(ps, f, |ps|, c);
    if c in Candidates(S, cur) {
      var i :| 0 <= i < |ps| && c in f(ps[i]);
      HoldingMember(S, ps[i] - 1, c);
      assert ps[i] in Get(S, cur);
    }
    if c in S.keys && c in S.items && exists pos :: pos in Get(S, cur) && pos - 1 in S.items[c] {
      var pos :| pos in Get(S, cur) && pos - 1 in S.items[c];
      var i :| 0 <= i < |ps| && ps[i] == pos;
      HoldingMember(S, pos - 1, c);
      assert c in f(ps[i]);
    }
  }

  /** `recurse(current_nt, visited_nts, depth)` with `max_depth` 200: the depth test comes
      first, then the loop test; a name starting with `A` gives its number, any other
      name the first candidate that succeeds. */
  function Recurse(S: Positions, cur: string, visited: set<string>, depth: nat): (r: Result<nat, string>)
    ensures depth > 200 || cur in visited ==> r.Failure?
    ensures depth <= 200 && cur !in visited && StartsWithA(cur) ==> r == ExtractNumber(cur)
    decreases 201 - depth, 1, 0
  {
    if depth > 200 then Failure("RecursionError: maximum depth exceeded")
    else if cur in visited then Failure("ValueError: loop detected")
    else if StartsWithA(cur) then ExtractNumber(cur)
    else TryCandidates(S, Candidates(S, cur), 0, visited + {cur}, depth)
  }

  /** The candidate loop from the `k`-th candidate on: a candidate starting with `A`
      returns its number (or raises); any other is searched one level deeper, and a
      failure there (`ValueError` or `RecursionError`) moves on to the next candidate;
      with none left, `ValueError`. */
  function TryCandidates(S: Positions, cands: seq<string>, k: nat, visited: set<string>, depth: nat)
    : (r: Result<nat, string>)
    requires k <= |cands| && depth <= 200
    ensures k == |cands| ==> r == Failure(NoInitial)
    decreases 201 - depth, 0, |cands| - k
  {
    if k == |cands| then Failure(NoInitial)
    else if StartsWithA(cands[k]) then ExtractNumber(cands[k])
    else match Recurse(S, cands[k], visited, depth + 1)
      case Success(n) => Success(n)
      case Failure(_) => TryCandidates(S, cands, k + 1, visited, depth)
  }

  const NoInitial := "ValueError: no valid initial nonterminal found"

  /** `find_number_for_initial_nt(nt)`. */
  function FindNumber(S: Positions, nt: string): (r: Result<nat, string>)
    ensures StartsWithA(nt) ==> r == ExtractNumber(nt)
  {
    Recurse(S, nt, {}, 0)
  }

  /** A failing candidate is passed over: when no candidate from the `k`-th on starts
      with `A` or succeeds one level deeper, the loop raises `ValueError`. */
  lemma {:induction false} NoCandidateFails(S: Positions, cands: seq<string>, k: nat, visited: set<string>,
                                            depth: nat)
    requires k <= |cands| && depth <= 200
    requires forall j :: k <= j < |cands| ==>
               !StartsWithA(cands[j]) && Recurse(S, cands[j], visited, depth + 1).Failure?
    ensures TryCandidates(S, cands, k, visited, depth) == Failure(NoInitial)
    decreases |cands| - k
  {
    if k < |cands| {
      NoCandidateFails(S, cands, k + 1, visited, depth);
    }
  }

  /** The candidate loop returns the result of the first candidate that starts with `A`
      or succeeds one level deeper, every candidate before it having failed. */
  lemma {:induction false} FirstCandidateWins(S: Positions, cands: seq<string>, k: nat,
                                              visited: set<string>, depth: nat)
    requires k <= |cands| && depth <= 200
    requires TryCandidates(S, cands, k, visited, depth) != Failure(NoInitial)
    ensures exists j :: k <= j < |cands|
              && (forall i :: k <= i < j ==> !StartsWithA(cands[i]) && Recurse(S, cands[i], visited, depth + 1).Failure?)
              && if StartsWithA(cands[j]) then TryCandidates(S, cands, k, visited, depth) == ExtractNumber(cands[j])
                 else TryCandidates(S, cands, k, visited, depth) == Recurse(S, cands[j], visited, depth + 1)
                      && Recurse(S, cands[j], visited, depth + 1).Success?
    decreases |cands| - k
  {
    if StartsWithA(cands[k]) || Recurse(S, cands[k], visited, depth + 1).Success? {
      assert k <= k < |cands|;
    } else {
      FirstCandidateWins(S, cands, k + 1, visited, depth);
      var j :| k + 1 <= j < |cands|
              && (forall i :: k + 1 <= i < j ==> !StartsWithA(cands[i]) && Recurse(S, cands[i], visited, depth + 1).Failure?)
              && if StartsWithA(cands[j]) then TryCandidates(S, cands, k + 1, visited, depth) == ExtractNumber(cands[j])
                 else TryCandidates(S, cands, k + 1, visited, depth) == Recurse(S, cands[j], visited, depth + 1)
                      && Recurse(S, cands[j], visited, depth + 1).Success?;
      assert k <= j < |cands|;
    }
  }

  /** A number found by the search is the number of the name it started from or of some
      name of `S` that starts with `A`. */
  lemma {:induction false} RecurseFromInitial(S: Positions, cur: string, visited: set<string>, depth: nat)
    requires Recurse(S, cur, visited, depth).Success?
    ensures var n := Recurse(S, cur, visited, depth).value;
      (StartsWithA(cur) && ExtractNumber(cur) == Success(n))
      || exists c :: c in S.items && StartsWithA(c) && ExtractNumber(c) == Success(n)
    decreases 201 - depth, 1, 0
  {
    if !StartsWithA(cur) {
      var cands := Candidates(S, cur);
      forall j | 0 <= j < |cands|
        ensures cands[j] in S.items
      {
        CandidateMember(S, cur, cands[j]);
      }
      TryFromInitial(S, cands, 0, visited + {cur}, depth);
    }
  }

  lemma {:induction false} TryFromInitial(S: Positions, cands: seq<string>, k: nat, visited: set<string>,
                                          depth: nat)
    requires k <= |cands| && depth <= 200 && forall j :: 0 <= j < |cands| ==> cands[j] in S.items
    requires TryCandidates(S, cands, k, visited, depth).Success?
    ensures exists c :: c in S.items && StartsWithA(c)
              && ExtractNumber(c) == Success(TryCandidates(S, cands, k, visited, depth).value)
    decreases 201 - depth, 0, |cands| - k
  {
    var c := cands[k];
    if StartsWithA(c) {
      assert c in S.items;
    } else if Recurse(S, c, visited, depth + 1).Success? {
      RecurseFromInitial(S, c, visited, depth + 1);
    } else {
      TryFromInitial(S, cands, k + 1, visited, depth);
    }
  }

  /** `find_number_for_initial_nt` only ever returns the number of a name starting with
      `A`: the name itself, or one of `S`. */
  lemma FoundNumberIsInitial(S: Positions, nt: string)
    requires FindNumber(S, nt).Success?
    ensures (StartsWithA(nt) && ExtractNumber(nt) == FindNumber(S, nt))
            || exists c :: c in S.items && StartsWithA(c) && ExtractNumber(c) == FindNumber(S, nt)
  {
    RecurseFromInitial(S, nt, {}, 0);
  }

  // ---------------------------------------------------------------------------------
  // has_next_symbol, build_pos_to_index, position_to_nts
  // ---------------------------------------------------------------------------------

  /** `has_next_symbol(next_NT, q)`: some name of a later letter holds `q + 1`. The names
      of `S` are not empty once `sort_key` has accepted them all. */
  predicate HasNextAt(S: Positions, next: string, q: int)
    requires |next| > 0
  {
    exists f :: f in S.items && q + 1 in S.items[f] && |f| > 0 && f[0] > next[0]
  }

  /** `has_next_symbol(next_NT)`: some position of the name is followed by a position of
      a name of a later letter. */
  predicate HasNext(S: Positions, nt: string)
    requires |nt| > 0
  {
    exists p :: p in Get(S, nt) && HasNextAt(S, nt, p)
  }

  function Identity(x: int): int { x }

  /** `[p for nt, positions in S.items() if nt.startswith('A') for p in positions]`. */
  function APositions(S: Positions): seq<int> {
    FlatMap(S.keys, nt => if StartsWithA(nt) && nt in S.items then S.items[nt] else [], |S.keys|)
  }

  /** How many elements of `s` are at most `p`. */
  function CountLE(s: seq<int>, p: int): (r: nat)
    ensures p in s ==> r >= 1
  {
    if s == [] then 0
    else CountLE(s[..|s| - 1], p) + (if s[|s| - 1] <= p then 1 else 0)
  }

  lemma CountLESnoc(s: seq<int>, x: int, p: int)
    ensures CountLE(s + [x], p) == CountLE(s, p) + (if x <= p then 1 else 0)
  {
    assert (s + [x])[..|s|] == s;
  }

  lemma {:induction false} CountLEInsert(x: int, s: seq<int>, p: int)
    requires SortedBy(s, Identity)
    ensures CountLE(Insert(x, s, Identity), p) == CountLE(s, p) + (if x <= p then 1 else 0)
    decreases |s|
  {
    if s == [] || Identity(s[|s| - 1]) <= Identity(x) {
      CountLESnoc(s, x, p);
    } else {
      var init, last := s[..|s| - 1], s[|s| - 1];
      InsertBeforeLast(x, s, Identity);
      CountLEInsert(x, init, p);
      CountLESnoc(Insert(x, init, Identity), last, p);
      assert CountLE(s, p) == CountLE(init, p) + (if last <= p then 1 else 0);
    }
  }

  /** Sorting keeps the count. */
  lemma {:induction false} CountLESorted(s: seq<int>, p: int)
    ensures CountLE(SortBy(s, Identity), p) == CountLE(s, p)
    decreases |s|
  {
    if s != [] {
      CountLESorted(s[..|s| - 1], p);
      CountLEInsert(s[|s| - 1], SortBy(s[..|s| - 1], Identity), p);
    }
  }

  /** In a list whose first `k` elements are at most `p` and the rest above it, the count
      is `k`. */
  lemma {:induction false} CountLESplit(s: seq<int>, p: int, k: nat)
    requires k <= |s|
    requires forall i :: 0 <= i < k ==> s[i] <= p
    requires forall i :: k <= i < |s| ==> s[i] > p
    ensures CountLE(s, p) == k
    decreases |s|
  {
    if s != [] {
      if |s| == k {
        CountLESplit(s[..|s| - 1], p, k - 1);
      } else {
        CountLESplit(s[..|s| - 1], p, k);
      }
    }
  }

  /** The index of a position in `pos_to_index`: the rank of its last copy among the
      sorted positions of the `A` names, the number of those positions not above it
      less one. */
  function PosIndex(S: Positions, p: int): (r: Option<nat>)
    ensures r.Some? <==> p in APositions(S)
  {
    IndexIn(APositions(S), p)
  }

  /** The rank of the last copy of `p` in `ps` once sorted. */
  function IndexIn(ps: seq<int>, p: int): (r: Option<nat>)
    ensures r.Some? <==> p in ps
  {
    if p in ps then Some(CountLE(ps, p) - 1) else None
  }

  /** `build_pos_to_index(S)`: enumerate the sorted positions of the `A` names; a later
      copy of a position overwrites the index of an earlier one. */
  method BuildPosToIndex(S: Positions) returns (m: Dict<int, nat>)
    ensures forall p :: p in m.items <==> p in APositions(S)
    ensures forall p :: p in m.items ==> Some(m.items[p]) == PosIndex(S, p)
  {
    var ps := APositions(S);
    var sorted := SortBy(ps, Identity);
    m := Empty();
    for idx := 0 to |sorted|
      invariant Indexed(m, sorted, idx)
    {
      IndexedStep(m, sorted, idx);
      m := m.Put(sorted[idx], idx);
    }
    IndexedPositions(m, S, sorted);
  }

  lemma IndexedPositions(m: Dict<int, nat>, S: Positions, sorted: seq<int>)
    requires sorted == SortBy(APositions(S), Identity) && Indexed(m, sorted, |sorted|)
    ensures forall p :: p in m.items <==> p in APositions(S)
    ensures forall p :: p in m.items ==> Some(m.items[p]) == PosIndex(S, p)
  {
    var ps := APositions(S);
    SortedElementsAll(ps, Identity);
    CountLESortedAll(ps);
    IndexedAll(m, ps, sorted);
  }

  /** After `idx` steps `m` maps each position of `s[..idx]` to the index of its last
      copy there. */
  ghost predicate Indexed(m: Dict<int, nat>, s: seq<int>, idx: nat) {
    forall p :: IndexedAt(m, s, idx, p)
  }

  ghost predicate IndexedAt(m: Dict<int, nat>, s: seq<int>, idx: nat, p: int) {
    idx <= |s| && (p in m.items <==> p in s[..idx])
    && (p in m.items ==> m.items[p] < idx && s[m.items[p]] == p && forall i :: m.items[p] < i < idx ==> s[i] != p)
  }

  lemma IndexedStep(m: Dict<int, nat>, s: seq<int>, idx: nat)
    requires idx < |s| && Indexed(m, s, idx)
    ensures Indexed(m.Put(s[idx], idx), s, idx + 1)
  {
    var m' := m.Put(s[idx], idx);
    var n := idx + 1;
    assert s[..n] == s[..idx] + [s[idx]];
    forall p
      ensures IndexedAt(m', s, n, p)
    {
      assert IndexedAt(m, s, idx, p);
    }
  }

  lemma IndexedAll(m: Dict<int, nat>, ps: seq<int>, sorted: seq<int>)
    requires Indexed(m, sorted, |sorted|) && SortedBy(sorted, Identity)
    requires forall p :: p in sorted <==> p in ps
    requires forall p :: CountLE(sorted, p) == CountLE(ps, p)
    ensures forall p :: p in m.items <==> p in ps
    ensures forall p :: p in m.items ==> Some(m.items[p]) == IndexIn(ps, p)
  {
    forall p
      ensures p in m.items <==> p in ps
    {
      IndexedKey(m, sorted, p);
    }
    forall p | p in m.items
      ensures Some(m.items[p]) == IndexIn(ps, p)
    {
      IndexedValue(m, sorted, p);
    }
  }

  /** Sorting keeps the count of every position. */
  lemma CountLESortedAll(ps: seq<int>)
    ensures forall p :: CountLE(SortBy(ps, Identity), p) == CountLE(ps, p)
  {
    forall p
      ensures CountLE(SortBy(ps, Identity), p) == CountLE(ps, p)
    {
      CountLESorted(ps, p);
    }
  }

  lemma IndexedKey(m: Dict<int, nat>, sorted: seq<int>, p: int)
    requires Indexed(m, sorted, |sorted|)
    ensures p in m.items <==> p in sorted
  {
    assert IndexedAt(m, sorted, |sorted|, p);
    assert sorted[..|sorted|] == sorted;
  }

  lemma IndexedValue(m: Dict<int, nat>, sorted: seq<int>, p: int)
    requires SortedBy(sorted, Identity) && Indexed(m, sorted, |sorted|) && p in m.items
    ensures m.items[p] == CountLE(sorted, p) - 1
  {
    assert IndexedAt(m, sorted, |sorted|, p);
    LastCopyCount(sorted, p, m.items[p]);
  }

  /** In a sorted list, the last copy of `p` sits at the count of elements at most `p`,
      less one. */
  lemma LastCopyCount(s: seq<int>, p: int, last: nat)
    requires SortedBy(s, Identity) && last < |s| && s[last] == p
    requires forall i :: last < i < |s| ==> s[i] != p
    ensures CountLE(s, p) == last + 1
  {
    forall i | 0 <= i <= last
      ensures s[i] <= p
    {
      if i < last {
        assert Identity(s[i]) <= Identity(s[last]);
      }
    }
    forall i | last < i < |s|
      ensures s[i] > p
    {
      assert Identity(s[last]) <= Identity(s[i]);
    }
    CountLESplit(s, p, last + 1);
  }

  /** `m` maps each position to the names of `done` holding it, and to `nt` when it is
      among `ps`. */
  ghost predicate MapsUpTo(m: map<int, set<string>>, S: Positions, done: seq<string>, nt: string, ps: seq<int>) {
    forall p, n :: MapsAt(m, S, done, nt, ps, p, n)
  }

  ghost predicate MapsAt(m: map<int, set<string>>, S: Positions, done: seq<string>, nt: string, ps: seq<int>,
                         p: int, n: string)
  {
    p in m && n in m[p] <==> (n in done && n in S.items && p in S.items[n]) || (n == nt && p in ps)
  }

  lemma MapsStep(m: map<int, set<string>>, S: Positions, done: seq<string>, nt: string, ps: seq<int>, x: int)
    requires MapsUpTo(m, S, done, nt, ps)
    ensures MapsUpTo(m[x := (if x in m then m[x] else {}) + {nt}], S, done, nt, ps + [x])
  {
    var m' := m[x := (if x in m then m[x] else {}) + {nt}];
    forall p, n
      ensures MapsAt(m', S, done, nt, ps + [x], p, n)
    {
      assert MapsAt(m, S, done, nt, ps, p, n);
      assert p in ps + [x] <==> p in ps || p == x;
      if p == x {
        assert p in m' && m'[p] == (if x in m then m[x] else {}) + {nt};
      } else {
        assert p in m' <==> p in m;
        assert p in m ==> m'[p] == m[p];
      }
    }
  }

  lemma MapsNext(m: map<int, set<string>>, S: Positions, done: seq<string>, nt: string, nt': string)
    requires nt in S.items && MapsUpTo(m, S, done, nt, S.items[nt])
    ensures MapsUpTo(m, S, done + [nt], nt', [])
  {
    forall p, n
      ensures MapsAt(m, S, done + [nt], nt', [], p, n)
    {
      assert MapsAt(m, S, done, nt, S.items[nt], p, n);
      assert n in done + [nt] <==> n in done || n == nt;
    }
  }

  lemma MapsRename(m: map<int, set<string>>, S: Positions, done: seq<string>, nt: string, nt': string)
    requires MapsUpTo(m, S, done, nt, [])
    ensures MapsUpTo(m, S, done, nt', [])
  {
    forall p, n
      ensures MapsAt(m, S, done, nt', [], p, n)
    {
      assert MapsAt(m, S, done, nt, [], p, n);
    }
  }

  lemma MapsStart(S: Positions)
    ensures MapsUpTo(map[], S, [], "", [])
  {
    forall p, n
      ensures MapsAt(map[], S, [], "", [], p, n)
    {
    }
  }

  lemma MapsAll(m: map<int, set<string>>, S: Positions)
    requires S.Valid() && MapsUpTo(m, S, S.keys, "", [])
    ensures forall p, nt :: p in m && nt in m[p] <==> nt in S.items && p in S.items[nt]
  {
    forall p, nt
      ensures p in m && nt in m[p] <==> nt in S.items && p in S.items[nt]
    {
      assert MapsAt(m, S, S.keys, "", [], p, nt);
    }
  }

  /** `position_to_nts`: position -> the names holding it. */
  method PositionToNts(S: Positions) returns (m: map<int, set<string>>)
    requires S.Valid()
    ensures forall p, nt :: p in m && nt in m[p] <==> nt in S.items && p in S.items[nt]
  {
    m := map[];
    MapsStart(S);
    assert S.keys[..0] == [];
    for i := 0 to |S.keys|
      invariant MapsUpTo(m, S, S.keys[..i], "", [])
    {
      var nt := S.keys[i];
      var ps := S.items[nt];
      MapsRename(m, S, S.keys[..i], "", nt);
      assert ps[..0] == [];
      for j := 0 to |ps|
        invariant MapsUpTo(m, S, S.keys[..i], nt, ps[..j])
      {
        MapsStep(m, S, S.keys[..i], nt, ps[..j], ps[j]);
        assert ps[..j + 1] == ps[..j] + [ps[j]];
        var here := if ps[j] in m then m[ps[j]] else {};
        m := m[ps[j] := here + {nt}];
      }
      assert ps[..|ps|] == ps;
      MapsNext(m, S, S.keys[..i], nt, "");
      assert S.keys[..i + 1] == S.keys[..i] + [nt];
    }
    assert S.keys[..|S.keys|] == S.keys;
    MapsAll(m, S);
  }

  // ---------------------------------------------------------------------------------
  // add_rule
  // ---------------------------------------------------------------------------------

  /** A list of rules that holds each rule once. */
  predicate NoRepeats(s: seq<string>) {
    forall i, j :: 0 <= i < j < |s| ==> s[i] != s[j]
  }

  /** The (nonterminal, rule) pairs of `rules`. */
  ghost function Contents(rules: Rules): set<(string, string)> {
    set k, r | k in rules.items && r in rules.items[k] :: (k, r)
  }

  /** `add_rule(current_NT, rule)`: `rules.setdefault(current_NT, [])`, then the rule is
      appended unless the list already holds it. */
  function AddRule(rules: Rules, key: string, rule: string): (r: Rules)
    ensures rules.Valid() ==> r.Valid()
    ensures r.items.Keys == rules.items.Keys + {key}
    ensures forall k :: k in rules.items && k != key ==> r.items[k] == rules.items[k]
    ensures key in rules.items ==> rules.items[key] <= r.items[key]
    ensures rule in r.items[key]
    ensures key in rules.items && rule in rules.items[key] ==> r.items[key] == rules.items[key]
  {
    var prev := if key in rules.items then rules.items[key] else [];
    rules.Put(key, if rule in prev then prev else prev + [rule])
  }

  /** `add_rule` keeps each list free of repeats and every rule already there. */
  lemma AddRuleKeeps(rules: Rules, key: string, rule: string)
    ensures RulesOk(rules) ==> RulesOk(AddRule(rules, key, rule))
    ensures Grows(rules, AddRule(rules, key, rule))
  {
    var prev := if key in rules.items then rules.items[key] else [];
    var l := if rule in prev then prev else prev + [rule];
    var r := AddRule(rules, key, rule);
    assert r.items == rules.items[key := l];
    if RulesOk(rules) {
      assert NoRepeats(prev);
      NoRepeatsAppend(prev, rule);
      forall k | k in r.items
        ensures r.items[k] != [] && NoRepeats(r.items[k])
      {
        if k != key {
          assert r.items[k] == rules.items[k];
        }
      }
    }
  }

  /** `add_rule` adds exactly the pair it is given. */
  lemma AddRuleContents(rules: Rules, key: string, rule: string)
    ensures Contents(AddRule(rules, key, rule)) == Contents(rules) + {(key, rule)}
  {
    var prev := if key in rules.items then rules.items[key] else [];
    var l := if rule in prev then prev else prev + [rule];
    var r := AddRule(rules, key, rule);
    assert r.items == rules.items[key := l];
    forall x | x in Contents(r)
      ensures x in Contents(rules) + {(key, rule)}
    {
      var k, q :| k in r.items && q in r.items[k] && x == (k, q);
      if k == key && q != rule {
        assert q in prev;
      }
    }
    forall x | x in Contents(rules)
      ensures x in Contents(r)
    {
      var k, q :| k in rules.items && q in rules.items[k] && x == (k, q);
      if k == key {
        assert q in l;
      }
    }
    assert (key, rule) in Contents(r) by {
      assert rule in r.items[key];
    }
  }

  lemma NoRepeatsAppend(prev: seq<string>, rule: string)
    requires NoRepeats(prev)
    ensures NoRepeats(if rule in prev then prev else prev + [rule])
  {
    if rule !in prev {
      var l := prev + [rule];
      forall i, j | 0 <= i < j < |l|
        ensures l[i] != l[j]
      {
        if j == |prev| {
          assert l[i] == prev[i];
        }
      }
    }
  }

  /** Keys with lists that are not empty and hold each rule once. */
  predicate RulesOk(rules: Rules) {
    rules.Valid() && forall k :: k in rules.items ==> rules.items[k] != [] && NoRepeats(rules.items[k])
  }

  /** No list of `a` loses a rule or changes its order in `b`. */
  ghost predicate Grows(a: Rules, b: Rules) {
    forall k :: k in a.items ==> k in b.items && a.items[k] <= b.items[k]
  }

  lemma GrowsTransitive(a: Rules, b: Rules, c: Rules)
    requires Grows(a, b) && Grows(b, c)
    ensures Grows(a, c)
  {
  }

  // ---------------------------------------------------------------------------------
  // The rules
  // ---------------------------------------------------------------------------------

  /** `non_terminals_list.get(number)` on `{i: non_terminals_list[i] ...}`. */
  function Lookup(lst: seq<string>, number: Option<nat>): Option<string> {
    if number.Some? && number.value < |lst| then Some(lst[number.value]) else None
  }

  /** `f"{prefix}"` when there is no follower, `f"{prefix} {follower}"` otherwise. */
  function WithFollower(prefix: string, follower: Option<string>): string {
    match follower
    case None => prefix
    case Some(x) => prefix + " " + x
  }

  /** The start-symbol rule for the level-0 name `nt` at a position of index `number`. */
  function InitialRule(G: Prefixes, S: Positions, lst: seq<string>, nt: string, number: Option<nat>): string
    requires nt in G.items && |nt| > 0
  {
    if HasNext(S, nt) then G.items[nt] + " " + nt else WithFollower(G.items[nt], Lookup(lst, number))
  }

  /** The rule of `current_NT` for the name `next` holding the position after `pos`, with
      `number` found for `current_NT`. */
  function LaterRule(G: Prefixes, S: Positions, lst: seq<string>, next: string, pos: int, number: nat): string
    requires |next| > 0
  {
    var nextPrefix := if next in G.items then G.items[next] else "";
    if HasNextAt(S, next, pos + 1) then nextPrefix + " " + next
    else WithFollower(nextPrefix, Lookup(lst, Some(number)))
  }

  /** The pair `current_NT`, `next_NT` at `pos` reaches the rule: `next_NT` holds
      `pos + 1`, is not the consecutive name on the same level, and is not below
      `current_NT` in string order. */
  predicate Fires(S: Positions, c: string, pos: int, next: string) {
    c in S.items && pos in S.items[c] && next in S.items && pos + 1 in S.items[next] && |next| > 0
    && IsConsecutiveTransition(c, next) == Success(false) && !StrLess(next, c)
  }

  /** `sort_key` accepts every name of `S`. */
  predicate Sortable(S: Positions) {
    forall k :: k in S.items ==> SortKey(k).Success?
  }

  /** Some pair reaches the rule while `find_number_for_initial_nt` fails for its first
      name. */
  ghost predicate LaterFails(S: Positions) {
    exists c, pos, next :: Fires(S, c, pos, next) && FindNumber(S, c).Failure?
  }

  /** `len(G) == 1 and len(S) == 1` with the same single key. */
  predicate Early(G: Prefixes, S: Positions) {
    |G.keys| == 1 && |S.keys| == 1 && G.keys[0] == S.keys[0]
  }

  /** The eos rule of the start symbol `S*`. */
  function EosSet(NT: string, eos: string): set<(string, string)> {
    if NT == "S*" then {(NT, eos)} else {}
  }

  /** The positions of each name, the rows of both loops over names. */
  function Rows(S: Positions): string -> seq<int> {
    nt => Get(S, nt)
  }

  /** The rule the loop over `G` writes for the name `nt` and one of its positions. */
  function StartG(G: Prefixes, S: Positions, lst: seq<string>, NT: string): (string, int) -> set<(string, string)> {
    (nt, pos) => if nt in G.items && IsInitialName(nt) && |nt| > 0
                 then {(NT, InitialRule(G, S, lst, nt, PosIndex(S, pos)))} else {}
  }

  lemma StartGApply(G: Prefixes, S: Positions, lst: seq<string>, NT: string, nt: string, pos: int)
    ensures StartG(G, S, lst, NT)(nt, pos)
            == if nt in G.items && IsInitialName(nt) && |nt| > 0
               then {(NT, InitialRule(G, S, lst, nt, PosIndex(S, pos)))} else {}
  {
  }

  /** The rules of the start symbol: one per position of each level-0 name of `G`. */
  ghost function InitialSet(G: Prefixes, S: Positions, lst: seq<string>, NT: string): set<(string, string)> {
    Whole(G.keys, Rows(S), StartG(G, S, lst, NT))
  }

  /** A start-symbol rule is the rule of some position of some level-0 name. */
  lemma InitialSetMember(G: Prefixes, S: Positions, lst: seq<string>, NT: string, k: string, rule: string)
    requires G.Valid()
    ensures (k, rule) in InitialSet(G, S, lst, NT) <==>
              k == NT && exists nt, pos :: nt in G.items && IsInitialName(nt) && pos in Get(S, nt) && |nt| > 0
                                        && rule == InitialRule(G, S, lst, nt, PosIndex(S, pos))
  {
    if k == NT && exists nt, pos :: nt in G.items && IsInitialName(nt) && pos in Get(S, nt) && |nt| > 0
                                  && rule == InitialRule(G, S, lst, nt, PosIndex(S, pos)) {
      var nt, pos :| nt in G.items && IsInitialName(nt) && pos in Get(S, nt) && |nt| > 0
                     && rule == InitialRule(G, S, lst, nt, PosIndex(S, pos));
      assert nt in G.keys && pos in Rows(S)(nt);
      StartGApply(G, S, lst, NT, nt, pos);
      WholeIntro(G.keys, Rows(S), StartG(G, S, lst, NT), nt, pos, (k, rule));
    }
    if (k, rule) in InitialSet(G, S, lst, NT) {
      WholeElim(G.keys, Rows(S), StartG(G, S, lst, NT), (k, rule));
      var nt, pos :| nt in G.keys && pos in Rows(S)(nt) && (k, rule) in StartG(G, S, lst, NT)(nt, pos);
      StartGApply(G, S, lst, NT, nt, pos);
    }
  }

  // ---------------------------------------------------------------------------------
  // The loop over G
  // ---------------------------------------------------------------------------------

  /** `pos_to_index` as `build_pos_to_index` leaves it. */
  ghost predicate IsPosToIndex(S: Positions, m: Dict<int, nat>) {
    (forall p :: p in m.items <==> p in APositions(S))
    && forall p :: p in m.items ==> Some(m.items[p]) == PosIndex(S, p)
  }

  lemma InitialNameNonEmpty(nt: string)
    requires IsInitialName(nt)
    ensures |nt| >= 2
  {
  }

  /** `pos_to_index.get(pos)`. */
  lemma PosIndexLookup(S: Positions, m: Dict<int, nat>, p: int)
    requires IsPosToIndex(S, m)
    ensures (if p in m.items then Some(m.items[p]) else None) == PosIndex(S, p)
  {
  }

  /** `for nt, prefix in G.items(): if re.match(r"^A\d+'*$", nt): ...`: one start-symbol
      rule per position of each level-0 name. */
  method InitialRules(G: Prefixes, S: Positions, lst: seq<string>, NT: string, posToIndex: Dict<int, nat>,
                      rules: Rules)
    returns (rules': Rules)
    requires G.Valid() && RulesOk(rules) && IsPosToIndex(S, posToIndex)
    ensures RulesOk(rules') && Grows(rules, rules')
    ensures Contents(rules') == Contents(rules) + InitialSet(G, S, lst, NT)
  {
    ghost var rows, g := Rows(S), StartG(G, S, lst, NT);
    rules' := rules;
    for i := 0 to |G.keys|
      invariant RulesOk(rules') && Grows(rules, rules')
      invariant Contents(rules') == Contents(rules) + Part(G.keys, rows, g, i, "", [])
    {
      if IsInitialName(G.keys[i]) {
        ghost var before := rules';
        rules' := InitialRow(G, S, lst, NT, posToIndex, rules', i, Contents(rules));
        GrowsTransitive(rules, before, rules');
      } else {
        PartNext(G.keys, rows, g, i, [], "");
      }
    }
    PartAll(G.keys, rows, g, "");
  }

  /** `for pos in S.get(nt, [])` for the level-0 name `G.keys[i]`. */
  method InitialRow(G: Prefixes, S: Positions, lst: seq<string>, NT: string, posToIndex: Dict<int, nat>,
                    rules: Rules, i: nat, ghost base: set<(string, string)>)
    returns (rules': Rules)
    requires G.Valid() && RulesOk(rules) && IsPosToIndex(S, posToIndex)
    requires i < |G.keys| && IsInitialName(G.keys[i])
    requires Contents(rules) == base + Part(G.keys, Rows(S), StartG(G, S, lst, NT), i, "", [])
    ensures RulesOk(rules') && Grows(rules, rules')
    ensures Contents(rules') == base + Part(G.keys, Rows(S), StartG(G, S, lst, NT), i + 1, "", [])
  {
    ghost var rows, g := Rows(S), StartG(G, S, lst, NT);
    var nt := G.keys[i];
    InitialNameNonEmpty(nt);
    var ps := Get(S, nt);
    PartStart(G.keys, rows, g, i, "", nt);
    rules' := rules;
    for j := 0 to |ps|
      invariant RulesOk(rules') && Grows(rules, rules')
      invariant Contents(rules') == base + Part(G.keys, rows, g, i, nt, ps[..j])
    {
      var number := if ps[j] in posToIndex.items then Some(posToIndex.items[ps[j]]) else None;
      PosIndexLookup(S, posToIndex, ps[j]);
      // `if NT not in rules: rules[NT] = []` is the `setdefault` of `add_rule`.
      var rule := InitialRule(G, S, lst, nt, number);
      ghost var before := rules';
      rules' := AddRule(rules', NT, rule);
      AddRuleKeeps(before, NT, rule);
      AddRuleContents(before, NT, rule);
      GrowsTransitive(rules, before, rules');
      StartGApply(G, S, lst, NT, nt, ps[j]);
      PartAdd(G.keys, rows, g, i, nt, ps, j, base, Contents(before), Contents(rules'));
    }
    SliceAll(ps);
    PartNext(G.keys, rows, g, i, ps, "");
  }

  // ---------------------------------------------------------------------------------
  // The loop over sorted_nts
  // ---------------------------------------------------------------------------------

  /** The names holding the position `q`: `position_to_nts.get(q, [])`. */
  ghost function Holders(S: Positions, q: int): set<string> {
    set n | n in S.items && q in S.items[n]
  }

  /** The rules of `current_NT = c` at `pos` for the names `ns` it reaches. */
  ghost function LaterAt(G: Prefixes, S: Positions, lst: seq<string>, c: string, pos: int, ns: set<string>)
    : set<(string, string)>
  {
    set next | next in ns && Fires(S, c, pos, next) && FindNumber(S, c).Success?
      :: (c, LaterRule(G, S, lst, next, pos, FindNumber(S, c).value))
  }

  lemma LaterAtUnion(G: Prefixes, S: Positions, lst: seq<string>, c: string, pos: int, ns: set<string>, next: string)
    ensures LaterAt(G, S, lst, c, pos, ns + {next}) == LaterAt(G, S, lst, c, pos, ns) + LaterAt(G, S, lst, c, pos, {next})
  {
  }

  /** The rules the loop writes for a name and one of its positions. */
  ghost function LaterG(G: Prefixes, S: Positions, lst: seq<string>): (string, int) -> set<(string, string)> {
    (c, pos) => LaterAt(G, S, lst, c, pos, Holders(S, pos + 1))
  }

  lemma LaterGApply(G: Prefixes, S: Positions, lst: seq<string>, c: string, pos: int)
    ensures LaterG(G, S, lst)(c, pos) == LaterAt(G, S, lst, c, pos, Holders(S, pos + 1))
  {
  }

  /** The names of `ns` for which the loop raises at `current_NT = c` and `pos`: the
      pair reaches the rule and `find_number_for_initial_nt(c)` fails. */
  ghost function Failing(S: Positions, c: string, pos: int, ns: set<string>): set<string> {
    set next | next in ns && Fires(S, c, pos, next) && FindNumber(S, c).Failure?
  }

  lemma FailingUnion(S: Positions, c: string, pos: int, ns: set<string>, next: string)
    ensures Failing(S, c, pos, ns + {next}) == Failing(S, c, pos, ns) + Failing(S, c, pos, {next})
  {
  }

  lemma FailingOne(S: Positions, c: string, pos: int, next: string)
    ensures Failing(S, c, pos, {next}) != {} <==> Fires(S, c, pos, next) && FindNumber(S, c).Failure?
  {
    if Fires(S, c, pos, next) && FindNumber(S, c).Failure? {
      assert next in Failing(S, c, pos, {next});
    }
  }

  lemma FailingSubset(S: Positions, c: string, pos: int, a: set<string>, b: set<string>)
    requires a <= b
    ensures Failing(S, c, pos, a) <= Failing(S, c, pos, b)
  {
  }

  /** The names after a name and one of its positions for which the loop raises. */
  ghost function FailG(S: Positions): (string, int) -> set<string> {
    (c, pos) => Failing(S, c, pos, Holders(S, pos + 1))
  }

  lemma FailGApply(S: Positions, c: string, pos: int)
    ensures FailG(S)(c, pos) == Failing(S, c, pos, Holders(S, pos + 1))
  {
  }

  /** The rules of the later names: one per pair that reaches the rule. */
  ghost function LaterSet(G: Prefixes, S: Positions, lst: seq<string>): set<(string, string)> {
    Whole(S.keys, Rows(S), LaterG(G, S, lst))
  }

  /** A later rule of `k` is the rule of some pair `k`, `next` that reaches the rule at
      a position of `k`, when `find_number_for_initial_nt(k)` succeeds. */
  lemma LaterSetMember(G: Prefixes, S: Positions, lst: seq<string>, k: string, rule: string)
    requires S.Valid()
    ensures (k, rule) in LaterSet(G, S, lst) <==>
              FindNumber(S, k).Success? &&
              exists pos, next :: Fires(S, k, pos, next) && rule == LaterRule(G, S, lst, next, pos, FindNumber(S, k).value)
  {
    var rows, g := Rows(S), LaterG(G, S, lst);
    if (k, rule) in LaterSet(G, S, lst) {
      WholeElim(S.keys, rows, g, (k, rule));
      var c, pos :| c in S.keys && pos in rows(c) && (k, rule) in g(c, pos);
      LaterGApply(G, S, lst, c, pos);
      LaterAtMember(G, S, lst, c, pos, Holders(S, pos + 1), k, rule);
    }
    if FindNumber(S, k).Success? &&
       exists pos, next :: Fires(S, k, pos, next) && rule == LaterRule(G, S, lst, next, pos, FindNumber(S, k).value) {
      var pos, next :| Fires(S, k, pos, next) && rule == LaterRule(G, S, lst, next, pos, FindNumber(S, k).value);
      assert next in Holders(S, pos + 1);
      LaterAtMember(G, S, lst, k, pos, Holders(S, pos + 1), k, rule);
      assert k in S.keys;
      assert pos in rows(k);
      LaterGApply(G, S, lst, k, pos);
      WholeIntro(S.keys, rows, g, k, pos, (k, rule));
    }
  }

  lemma LaterAtMember(G: Prefixes, S: Positions, lst: seq<string>, c: string, pos: int, ns: set<string>,
                      k: string, rule: string)
    ensures (k, rule) in LaterAt(G, S, lst, c, pos, ns) <==>
              k == c && FindNumber(S, c).Success? &&
              exists next :: next in ns && Fires(S, c, pos, next) && rule == LaterRule(G, S, lst, next, pos, FindNumber(S, c).value)
  {
  }

  /** Nothing raises exactly when no pair reaches the rule with a failing search. */
  lemma NoFailures(S: Positions)
    requires S.Valid()
    ensures Whole(S.keys, Rows(S), FailG(S)) == {} <==> !LaterFails(S)
  {
    var rows, h := Rows(S), FailG(S);
    if LaterFails(S) {
      var c, pos, next :| Fires(S, c, pos, next) && FindNumber(S, c).Failure?;
      assert next in Holders(S, pos + 1);
      FailGApply(S, c, pos);
      WholeIntro(S.keys, rows, h, c, pos, next);
    }
    if Whole(S.keys, rows, h) != {} {
      var e :| e in Whole(S.keys, rows, h);
      WholeElim(S.keys, rows, h, e);
      var c, pos :| c in S.keys && pos in rows(c) && e in h(c, pos);
      FailGApply(S, c, pos);
      assert Fires(S, c, pos, e) && FindNumber(S, c).Failure?;
    }
  }

  /** `for next_NT in position_to_nts.get(pos + 1, [])` for `current_NT = c`: the set is
      walked in an arbitrary order. */
  method LaterNext(G: Prefixes, S: Positions, lst: seq<string>, c: string, pos: int, nexts: set<string>,
                   rules: Rules)
    returns (r: Result<Rules, string>)
    requires Sortable(S) && c in S.items && pos in S.items[c] && RulesOk(rules)
    requires forall n :: n in nexts ==> n in S.items && pos + 1 in S.items[n]
    ensures r.Failure? <==> Failing(S, c, pos, nexts) != {}
    ensures r.Success? ==> RulesOk(r.value) && Grows(rules, r.value)
                           && Contents(r.value) == Contents(rules) + LaterAt(G, S, lst, c, pos, nexts)
  {
    var rest := nexts;
    ghost var done: set<string> := {};
    var rules' := rules;
    LaterLoopStart(G, S, lst, c, pos, nexts, rules);
    while rest != {}
      invariant LaterLoop(G, S, lst, c, pos, nexts, rules, rest, done, rules')
      decreases |rest|
    {
      var next :| next in rest;
      LaterLoopIn(G, S, lst, c, pos, nexts, rules, rest, done, rules', next);
      var res := LaterStep(G, S, lst, c, pos, next, rules');
      if res.Failure? {
        FailingSubset(S, c, pos, {next}, nexts);
        return Failure(res.error);
      }
      LaterLoopStep(G, S, lst, c, pos, nexts, rules, rest, done, rules', next, res.value);
      rest := rest - {next};
      done := done + {next};
      rules' := res.value;
    }
    LaterLoopEnd(G, S, lst, c, pos, nexts, rules, done, rules');
    return Success(rules');
  }

  /** The invariant of that loop: the names of `nexts` not in `rest` are done, none of
      them failed, and their rules are added. */
  ghost predicate LaterLoop(G: Prefixes, S: Positions, lst: seq<string>, c: string, pos: int,
                            nexts: set<string>, rules: Rules, rest: set<string>, done: set<string>, rules': Rules)
  {
    rest + done == nexts && rest !! done
    && RulesOk(rules') && Grows(rules, rules')
    && Contents(rules') == Contents(rules) + LaterAt(G, S, lst, c, pos, done)
    && Failing(S, c, pos, done) == {}
  }

  lemma LaterLoopStart(G: Prefixes, S: Positions, lst: seq<string>, c: string, pos: int,
                       nexts: set<string>, rules: Rules)
    requires RulesOk(rules)
    ensures LaterLoop(G, S, lst, c, pos, nexts, rules, nexts, {}, rules)
  {
  }

  lemma LaterLoopIn(G: Prefixes, S: Positions, lst: seq<string>, c: string, pos: int,
                    nexts: set<string>, rules: Rules, rest: set<string>, done: set<string>, rules': Rules, next: string)
    requires LaterLoop(G, S, lst, c, pos, nexts, rules, rest, done, rules') && next in rest
    ensures next in nexts && RulesOk(rules')
  {
  }

  lemma LaterLoopStep(G: Prefixes, S: Positions, lst: seq<string>, c: string, pos: int,
                      nexts: set<string>, rules: Rules, rest: set<string>, done: set<string>, rules': Rules,
                      next: string, after: Rules)
    requires LaterLoop(G, S, lst, c, pos, nexts, rules, rest, done, rules') && next in rest
    requires RulesOk(after) && Grows(rules', after) && Failing(S, c, pos, {next}) == {}
    requires Contents(after) == Contents(rules') + LaterAt(G, S, lst, c, pos, {next})
    ensures LaterLoop(G, S, lst, c, pos, nexts, rules, rest - {next}, done + {next}, after)
  {
    MoveOne(rest, done, nexts, next);
    LaterNextKeeps(G, S, lst, c, pos, done, next, Contents(rules), Contents(rules'), Contents(after));
    GrowsTransitive(rules, rules', after);
  }

  lemma LaterLoopEnd(G: Prefixes, S: Positions, lst: seq<string>, c: string, pos: int,
                     nexts: set<string>, rules: Rules, done: set<string>, rules': Rules)
    requires LaterLoop(G, S, lst, c, pos, nexts, rules, {}, done, rules')
    ensures RulesOk(rules') && Grows(rules, rules') && Failing(S, c, pos, nexts) == {}
    ensures Contents(rules') == Contents(rules) + LaterAt(G, S, lst, c, pos, nexts)
  {
    assert done == nexts;
  }

  /** One more name of the set done keeps the loop's invariant. */
  lemma LaterNextKeeps(G: Prefixes, S: Positions, lst: seq<string>, c: string, pos: int,
                       done: set<string>, next: string, base: set<(string, string)>,
                       before: set<(string, string)>, after: set<(string, string)>)
    requires before == base + LaterAt(G, S, lst, c, pos, done) && Failing(S, c, pos, done) == {}
    requires after == before + LaterAt(G, S, lst, c, pos, {next}) && Failing(S, c, pos, {next}) == {}
    ensures after == base + LaterAt(G, S, lst, c, pos, done + {next}) && Failing(S, c, pos, done + {next}) == {}
  {
    FailingUnion(S, c, pos, done, next);
    LaterAtUnion(G, S, lst, c, pos, done, next);
  }

  /** The body of that loop for `next_NT = next`: a name that is the consecutive one on
      the same level, or is below `c` in string order, is skipped; otherwise the rule is
      added, once `find_number_for_initial_nt(c)` has given the number, and its failure
      is raised. */
  method LaterStep(G: Prefixes, S: Positions, lst: seq<string>, c: string, pos: int, next: string, rules: Rules)
    returns (r: Result<Rules, string>)
    requires Sortable(S) && c in S.items && pos in S.items[c] && next in S.items && pos + 1 in S.items[next]
    requires RulesOk(rules)
    ensures r.Failure? <==> Fires(S, c, pos, next) && FindNumber(S, c).Failure?
    ensures r.Failure? <==> Failing(S, c, pos, {next}) != {}
    ensures r.Success? ==> RulesOk(r.value) && Grows(rules, r.value)
                           && Contents(r.value) == Contents(rules) + LaterAt(G, S, lst, c, pos, {next})
  {
    FailingOne(S, c, pos, next);
    assert SortKey(next).Success?;
    if IsConsecutiveTransition(c, next) == Success(false) && !StrLess(next, c) {
      assert Fires(S, c, pos, next);
      // next_prefix = G.get(next_NT, "") is read by `LaterRule`.
      var number := FindNumber(S, c);
      if number.Failure? {
        return Failure(number.error);
      }
      var rule := LaterRule(G, S, lst, next, pos, number.value);
      assert LaterAt(G, S, lst, c, pos, {next}) == {(c, rule)};
      AddRuleKeeps(rules, c, rule);
      AddRuleContents(rules, c, rule);
      return Success(AddRule(rules, c, rule));
    } else {
      assert !Fires(S, c, pos, next);
      assert LaterAt(G, S, lst, c, pos, {next}) == {};
      return Success(rules);
    }
  }

  /** `for pos in S[current_NT]` for the name `ks[i]`. */
  method LaterRow(G: Prefixes, S: Positions, lst: seq<string>, posToNts: map<int, set<string>>,
                  ks: seq<string>, i: nat, rules: Rules, ghost base: set<(string, string)>)
    returns (r: Result<Rules, string>)
    requires Sortable(S) && RulesOk(rules) && i < |ks| && ks[i] in S.items
    requires forall p, nt :: p in posToNts && nt in posToNts[p] <==> nt in S.items && p in S.items[nt]
    requires Contents(rules) == base + Part(ks, Rows(S), LaterG(G, S, lst), i, "", [])
    requires Part(ks, Rows(S), FailG(S), i, "", []) == {}
    ensures r.Failure? ==> LaterFails(S)
    ensures r.Success? ==> RulesOk(r.value) && Grows(rules, r.value)
                           && Contents(r.value) == base + Part(ks, Rows(S), LaterG(G, S, lst), i + 1, "", [])
                           && Part(ks, Rows(S), FailG(S), i + 1, "", []) == {}
  {
    ghost var rows, g, h := Rows(S), LaterG(G, S, lst), FailG(S);
    var c := ks[i];
    var ps := S.items[c];
    PartStart(ks, rows, g, i, "", c);
    PartStart(ks, rows, h, i, "", c);
    var rules' := rules;
    for j := 0 to |ps|
      invariant RulesOk(rules') && Grows(rules, rules')
      invariant Contents(rules') == base + Part(ks, rows, g, i, c, ps[..j])
      invariant Part(ks, rows, h, i, c, ps[..j]) == {}
    {
      var nexts := if ps[j] + 1 in posToNts then posToNts[ps[j] + 1] else {};
      assert nexts == Holders(S, ps[j] + 1);
      var res := LaterNext(G, S, lst, c, ps[j], nexts, rules');
      if res.Failure? {
        ghost var next :| next in Failing(S, c, ps[j], nexts);
        return Failure(res.error);
      }
      FailGApply(S, c, ps[j]);
      LaterGApply(G, S, lst, c, ps[j]);
      PartAdd(ks, rows, g, i, c, ps, j, base, Contents(rules'), Contents(res.value));
      PartAdd(ks, rows, h, i, c, ps, j, {}, {}, {});
      GrowsTransitive(rules, rules', res.value);
      rules' := res.value;
    }
    SliceAll(ps);
    PartNext(ks, rows, g, i, ps, "");
    PartNext(ks, rows, h, i, ps, "");
    return Success(rules');
  }

  /** `for current_NT in sorted_nts`: every name of `S`, in the order of `sort_key`. */
  method LaterRules(G: Prefixes, S: Positions, lst: seq<string>, posToNts: map<int, set<string>>,
                    sortedNts: seq<string>, rules: Rules)
    returns (r: Result<Rules, string>)
    requires S.Valid() && Sortable(S) && RulesOk(rules)
    requires forall c :: c in sortedNts <==> c in S.items
    requires forall p, nt :: p in posToNts && nt in posToNts[p] <==> nt in S.items && p in S.items[nt]
    ensures r.Failure? <==> LaterFails(S)
    ensures r.Success? ==> RulesOk(r.value) && Grows(rules, r.value)
                           && Contents(r.value) == Contents(rules) + LaterSet(G, S, lst)
  {
    ghost var rows, g, h := Rows(S), LaterG(G, S, lst), FailG(S);
    var rules' := rules;
    for i := 0 to |sortedNts|
      invariant RulesOk(rules') && Grows(rules, rules')
      invariant Contents(rules') == Contents(rules) + Part(sortedNts, rows, g, i, "", [])
      invariant Part(sortedNts, rows, h, i, "", []) == {}
    {
      var res := LaterRow(G, S, lst, posToNts, sortedNts, i, rules', Contents(rules));
      if res.Failure? {
        return res;
      }
      GrowsTransitive(rules, rules', res.value);
      rules' := res.value;
    }
    PartAll(sortedNts, rows, g, "");
    PartAll(sortedNts, rows, h, "");
    WholeSameKeys(sortedNts, S.keys, rows, g);
    WholeSameKeys(sortedNts, S.keys, rows, h);
    NoFailures(S);
    return Success(rules');
  }

  // ---------------------------------------------------------------------------------
  // generate_grammar
  // ---------------------------------------------------------------------------------

  /** The first `sort_key` error among `ks`, in order: `sorted` computes every key before
      it compares any. */
  function FirstKeyError(ks: seq<string>): (r: Option<string>)
    ensures r.None? <==> forall k :: k in ks ==> SortKey(k).Success?
  {
    if ks == [] then None
    else if SortKey(ks[0]).Failure? then Some(SortKey(ks[0]).error)
    else FirstKeyError(ks[1..])
  }

  /** `sorted(S.keys(), key=sort_key)`. */
  function SortNames(ks: seq<string>): (r: Result<seq<string>, string>)
    ensures r.Success? <==> forall k :: k in ks ==> SortKey(k).Success?
    ensures r.Success? ==> multiset(r.value) == multiset(ks) && SortedBy(r.value, SortRank)
  {
    match FirstKeyError(ks)
    case Some(e) => Failure(e)
    case None => Success(SortBy(ks, SortRank))
  }

  lemma SortableKeys(S: Positions)
    requires S.Valid()
    ensures Sortable(S) <==> forall k :: k in S.keys ==> SortKey(k).Success?
  {
  }

  /** `sorted_nts` holds the names of `S`. */
  lemma SortedNames(S: Positions, sorted: seq<string>)
    requires S.Valid() && multiset(sorted) == multiset(S.keys)
    ensures forall c :: c in sorted <==> c in S.items
  {
    forall c
      ensures c in sorted <==> c in S.items
    {
      assert c in sorted <==> c in multiset(sorted);
      assert c in S.keys <==> c in multiset(S.keys);
    }
  }

  /** `if NT == "S*": add_rule(NT, eos_symbol)` on the empty `rules`. */
  function EosRules(NT: string, eos: string): (r: Rules)
    ensures RulesOk(r) && Contents(r) == EosSet(NT, eos)
    ensures NT == "S*" ==> NT in r.items && r.items[NT] == [eos]
  {
    var empty: Rules := Empty();
    assert Contents(empty) == {};
    AddRuleKeeps(empty, NT, eos);
    AddRuleContents(empty, NT, eos);
    if NT == "S*" then AddRule(empty, NT, eos) else empty
  }

  /** `generate_grammar(G, S, NT, eos_symbol, non_terminals_list)`: the eos rule of `S*`,
      the start-symbol rules of the level-0 names and, unless `G` and `S` hold one and
      the same name, the rules of the later names. It raises when a name of `S` has no
      `sort_key`, when `non_terminals_list` is None, and when a pair reaches its rule
      while `find_number_for_initial_nt` fails. */
  method GenerateGrammar(G: Prefixes, S: Positions, NT: string, eos: string, lst: Option<seq<string>>)
    returns (r: Result<Rules, string>)
    requires G.Valid() && S.Valid()
    ensures r.Failure? <==> !Sortable(S) || lst.None? || (!Early(G, S) && LaterFails(S))
    ensures r.Success? ==> RulesOk(r.value)
    ensures r.Success? ==> Contents(r.value) == EosSet(NT, eos) + InitialSet(G, S, lst.value, NT)
                                                + (if Early(G, S) then {} else LaterSet(G, S, lst.value))
    ensures r.Success? && NT == "S*" ==> NT in r.value.items && r.value.items[NT][0] == eos
  {
    var rules := EosRules(NT, eos);
    var sorted := SortNames(S.keys);
    SortableKeys(S);
    if sorted.Failure? {
      return Failure(sorted.error);
    }
    if lst.None? {
      return Failure("TypeError: object of type 'NoneType' has no len()");
    }
    SortedNames(S, sorted.value);
    r := GrammarRules(G, S, NT, lst.value, sorted.value, rules);
  }

  /** The two loops of `generate_grammar` on `rules`, which holds the eos rule if any;
      `pos_to_index` and `position_to_nts` cannot raise, so building them after
      `sorted_nts` keeps the order of the errors. */
  method GrammarRules(G: Prefixes, S: Positions, NT: string, lst: seq<string>, sortedNts: seq<string>, rules: Rules)
    returns (r: Result<Rules, string>)
    requires G.Valid() && S.Valid() && Sortable(S) && RulesOk(rules)
    requires forall c :: c in sortedNts <==> c in S.items
    ensures r.Failure? <==> !Early(G, S) && LaterFails(S)
    ensures r.Success? ==> RulesOk(r.value) && Grows(rules, r.value)
    ensures r.Success? ==> Contents(r.value) == Contents(rules) + InitialSet(G, S, lst, NT)
                                                + (if Early(G, S) then {} else LaterSet(G, S, lst))
  {
    var posToIndex := BuildPosToIndex(S);
    var posToNts := PositionToNts(S);
    var rules' := InitialRules(G, S, lst, NT, posToIndex, rules);
    if Early(G, S) {
      return Success(rules');
    }
    r := LaterRules(G, S, lst, posToNts, sortedNts, rules');
    if r.Success? {
      GrowsTransitive(rules, rules', r.value);
    }
  }
}
