/** `generate_non_terminals` of scripts/grammar_generation.py: from tokens grouped by level
    and by token, it names one nonterminal per group of level 0 (`A0`, `A1`, ...) and,
    on each later level, one per position, reusing the index of the nonterminal that
    held the previous position with the same token. `G` maps each name to its token,
    `S` to its positions. */
module LegacyNonTerminals {
  import opened Wrappers
  import opened Text
  import opened Dicts
  import opened LegacyNames

  /** One level of `grouped_data`: token -> its `(token, position)` pairs. */
  type Level = Dict<string, seq<(string, int)>>
  /** `grouped_data`: level number -> level. */
  type GroupedData = Dict<int, Level>
  /** `G`: nonterminal -> token. */
  type Prefixes = Dict<string, string>
  /** `S`: nonterminal -> positions. */
  type Positions = Dict<string, seq<int>>

  /** Python dictionaries keep each key once. */
  predicate LevelsValid(gd: GroupedData) {
    gd.Valid() && forall s :: s in gd.items ==> gd.items[s].Valid()
  }

  /** `[pos for _, pos in tuples]`. */
  function PositionsOf(ts: seq<(string, int)>): (r: seq<int>)
    ensures |r| == |ts| && forall j :: 0 <= j < |ts| ==> r[j] == ts[j].1
  {
    seq(|ts|, j requires 0 <= j < |ts| => ts[j].1)
  }

  predicate NoTuples(level: Level) {
    forall p :: p in level.items ==> level.items[p] == []
  }

  /** `generate_non_terminals` returns normally exactly when level 0 exists, every level
      number below `len(grouped_data)` exists, and no level from 26 on holds a token:
      `grouped_data[state]` raises `KeyError` and `vocab[global_count]` `IndexError`. */
  predicate Generable(gd: GroupedData) {
    0 in gd.items
    && forall s :: 1 <= s < |gd.keys| ==> s in gd.items && (s >= 26 ==> NoTuples(gd.items[s]))
  }

  /** The level of a name, read from its letter. */
  function LevelOf(k: string): nat
    requires |k| > 0 && IsUpper(k[0])
  {
    (k[0] as int) - ('A' as int)
  }

  /** `k` starts with a level letter and carries a number after it. */
  predicate IsGenerated(k: string) {
    |k| > 0 && IsUpper(k[0]) && NameNumber(k).Success?
  }

  lemma GeneratedName(l: nat, i: nat, count: Option<int>)
    requires l < 26
    ensures IsGenerated(Name(l, i, count)) && LevelOf(Name(l, i, count)) == l
    ensures NameNumber(Name(l, i, count)) == Success(i)
  {
    NameNumberOfName(l, i, count);
  }

  /** Every name of `S` starts with the letter of a level below `bound`. */
  predicate NamedBelow(S: Positions, bound: nat) {
    forall k :: k in S.items ==> IsGenerated(k) && LevelOf(k) < bound
  }

  /** The position `pos` is in the list of some nonterminal. */
  ghost predicate Covered(S: Positions, pos: int) {
    exists k :: k in S.items && pos in S.items[k]
  }

  /** Every position of the level is in the list of some nonterminal. */
  ghost predicate LevelCovered(level: Level, S: Positions) {
    forall p, j :: p in level.items && 0 <= j < |level.items[p]| ==> Covered(S, level.items[p][j].1)
  }

  /** No list loses a position. */
  ghost predicate Keeps(S: Positions, S': Positions) {
    forall k :: k in S.items ==> k in S'.items && S.items[k] <= S'.items[k]
  }

  lemma CoveredKept(S: Positions, S': Positions, pos: int)
    requires Keeps(S, S') && Covered(S, pos)
    ensures Covered(S', pos)
  {
    var k :| k in S.items && pos in S.items[k];
    var j :| 0 <= j < |S.items[k]| && S.items[k][j] == pos;
    assert S'.items[k][j] == pos;
  }

  /** The level-0 groups become `A0`, `A1`, ... in order: name `i` holds the token of
      group `i` and its positions. */
  ghost predicate LevelZero(level: Level, G: Prefixes, S: Positions, count: Option<int>, n: nat)
    requires level.Valid() && n <= |level.keys|
  {
    forall i :: 0 <= i < n ==> ZeroEntry(level, G, S, count, i)
  }

  /** Name `i` of level 0 holds group `i` and its positions. */
  ghost predicate ZeroEntry(level: Level, G: Prefixes, S: Positions, count: Option<int>, i: nat)
    requires level.Valid() && i < |level.keys|
  {
    Name(0, i, count) in G.items && Name(0, i, count) in S.items
    && G.items[Name(0, i, count)] == level.keys[i]
    && S.items[Name(0, i, count)] == PositionsOf(level.items[level.keys[i]])
  }

  /** Assigning a key that `S` does not hold keeps an entry. */
  lemma ZeroEntryPut(level: Level, G: Prefixes, S: Positions, count: Option<int>, i: nat,
                        k: string, v: string, w: seq<int>)
    requires level.Valid() && i < |level.keys| && ZeroEntry(level, G, S, count, i) && k !in S.items
    ensures ZeroEntry(level, G.Put(k, v), S.Put(k, w), count, i)
  {
  }

  /** Every name of `S` is a level-0 name with an index below `i`. */
  predicate ZeroNamesBelow(S: Positions, i: nat) {
    forall k :: k in S.items ==> IsGenerated(k) && LevelOf(k) == 0 && NameNumber(k).value < i
  }

  /** After the first `i` groups of level 0. */
  ghost predicate FirstDone(level: Level, G: Prefixes, S: Positions, count: Option<int>, i: nat)
    requires level.Valid() && i <= |level.keys|
  {
    G.Valid() && S.Valid() && G.items.Keys == S.items.Keys
    && ZeroNamesBelow(S, i) && LevelZero(level, G, S, count, i)
  }

  lemma ZeroNamesStep(S: Positions, i: nat, count: Option<int>, w: seq<int>)
    requires ZeroNamesBelow(S, i)
    ensures Name(0, i, count) !in S.items
    ensures ZeroNamesBelow(S.Put(Name(0, i, count), w), i + 1)
  {
    GeneratedName(0, i, count);
  }

  lemma FirstStep(level: Level, G: Prefixes, S: Positions, count: Option<int>, i: nat)
    requires level.Valid() && i < |level.keys| && FirstDone(level, G, S, count, i)
    ensures FirstDone(level, G.Put(Name(0, i, count), level.keys[i]),
                      S.Put(Name(0, i, count), PositionsOf(level.items[level.keys[i]])), count, i + 1)
  {
    var key := Name(0, i, count);
    var w := PositionsOf(level.items[level.keys[i]]);
    ZeroNamesStep(S, i, count, w);
    PutSameKeys(G, S, key, level.keys[i], w);
    LevelZeroStep(level, G, S, count, i, key, w);
  }

  /** Group `i` of level 0 named `key`, a name not yet in `S`, extends the level-0 names. */
  lemma LevelZeroStep(level: Level, G: Prefixes, S: Positions, count: Option<int>, i: nat, key: string, w: seq<int>)
    requires level.Valid() && i < |level.keys| && LevelZero(level, G, S, count, i)
    requires key == Name(0, i, count) && key !in S.items && w == PositionsOf(level.items[level.keys[i]])
    ensures LevelZero(level, G.Put(key, level.keys[i]), S.Put(key, w), count, i + 1)
  {
    forall j | 0 <= j < i + 1
      ensures ZeroEntry(level, G.Put(key, level.keys[i]), S.Put(key, w), count, j)
    {
      if j < i {
        ZeroEntryPut(level, G, S, count, j, key, level.keys[i], w);
      }
    }
  }

  /** The first loop: `G[f"A{i}..."] = prefix` and `S[...] = positions` per group. */
  method FirstLevel(level: Level, count: Option<int>) returns (G: Prefixes, S: Positions)
    requires level.Valid()
    ensures G.Valid() && S.Valid() && G.items.Keys == S.items.Keys
    ensures NamedBelow(S, 1)
    ensures LevelZero(level, G, S, count, |level.keys|)
    ensures LevelCovered(level, S)
  {
    G, S := Empty(), Empty();
    for i := 0 to |level.keys|
      invariant FirstDone(level, G, S, count, i)
    {
      FirstStep(level, G, S, count, i);
      var prefix := level.keys[i];
      var key := Name(0, i, count);
      G := G.Put(key, prefix);
      S := S.Put(key, PositionsOf(level.items[prefix]));
    }
    ZeroCovered(level, G, S, count);
  }

  /** Level 0 in full covers every position of the level. */
  lemma ZeroCovered(level: Level, G: Prefixes, S: Positions, count: Option<int>)
    requires level.Valid() && LevelZero(level, G, S, count, |level.keys|)
    ensures LevelCovered(level, S)
  {
    forall p, j | p in level.items && 0 <= j < |level.items[p]|
      ensures Covered(S, level.items[p][j].1)
    {
      var i :| 0 <= i < |level.keys| && level.keys[i] == p;
      assert ZeroEntry(level, G, S, count, i);
      assert S.items[Name(0, i, count)][j] == level.items[p][j].1;
    }
  }

  /** `pos - 1 in prev_positions and G[prev_nt] == prefix`. */
  predicate Previous(G: Prefixes, S: Positions, pos: int, prefix: string, k: string) {
    k in S.items && pos - 1 in S.items[k] && k in G.items && G.items[k] == prefix
  }

  /** `S.keys[i]` is the first name of `S` that passes the test. */
  predicate FirstPrevious(G: Prefixes, S: Positions, pos: int, prefix: string, i: int) {
    0 <= i < |S.keys| && Previous(G, S, pos, prefix, S.keys[i])
    && forall j :: 0 <= j < i ==> !Previous(G, S, pos, prefix, S.keys[j])
  }

  /** The search for a previous nonterminal: the first name of `S`, in insertion order,
      that holds `pos - 1` and whose token is `prefix`. */
  method FindPrevious(G: Prefixes, S: Positions, pos: int, prefix: string) returns (r: Option<string>)
    requires S.Valid() && G.items.Keys == S.items.Keys
    ensures r.Some? ==> exists i :: FirstPrevious(G, S, pos, prefix, i) && S.keys[i] == r.value
    ensures r.None? ==> forall k :: k in S.items ==> !Previous(G, S, pos, prefix, k)
  {
    for i := 0 to |S.keys|
      invariant forall j :: 0 <= j < i ==> !Previous(G, S, pos, prefix, S.keys[j])
    {
      var k := S.keys[i];
      if pos - 1 in S.items[k] && G.items[k] == prefix {
        assert FirstPrevious(G, S, pos, prefix, i);
        return Some(k);
      }
    }
    return None;
  }

  /** `while new_index in used_indices: new_index += 1`: the least index not in use. */
  method LeastFree(used: set<nat>) returns (n: nat)
    ensures n !in used && forall m :: 0 <= m < n ==> m in used
  {
    n := 0;
    while n in used
      invariant forall m :: 0 <= m < n ==> m in used
      decreases set m | m in used && m >= n
    {
      ghost var before := set m | m in used && m >= n;
      n := n + 1;
      assert n - 1 in before && n - 1 !in set m | m in used && m >= n;
    }
  }

  /** The temporary dictionaries of a level: same keys, every name generated for this
      level with its index among `used`. */
  predicate TempOk(tG: Prefixes, tS: Positions, used: set<nat>, state: nat) {
    tG.Valid() && tS.Valid() && tG.items.Keys == tS.items.Keys
    && forall k :: k in tS.items ==> TempName(k, used, state)
  }

  /** `k` is a name of level `state` whose index is among `used`. */
  predicate TempName(k: string, used: set<nat>, state: nat) {
    IsGenerated(k) && LevelOf(k) == state && NameNumber(k).value in used
  }

  /** Assigning a name of the level keeps the temporary dictionaries in shape. */
  lemma TempOkPut(tG: Prefixes, tS: Positions, used: set<nat>, state: nat, index: nat,
                  key: string, v: string, w: seq<int>)
    requires TempOk(tG, tS, used, state) && TempName(key, used + {index}, state)
    ensures TempOk(tG.Put(key, v), tS.Put(key, w), used + {index}, state)
  {
    PutSameKeys(tG, tS, key, v, w);
    forall k | k in tS.Put(key, w).items
      ensures TempName(k, used + {index}, state)
    {
      if k != key {
        assert TempName(k, used, state);
      }
    }
  }

  /** Assigning a key a list that extends its old one loses no position. */
  lemma KeepsPut(tS: Positions, key: string, w: seq<int>)
    requires key in tS.items ==> tS.items[key] <= w
    ensures Keeps(tS, tS.Put(key, w))
  {
  }

  /** The index for the position `pos` of the token `prefix`: that of the first previous
      nonterminal found for it, or else the least index not in use. */
  method ChooseIndex(G: Prefixes, S: Positions, used: set<nat>, prefix: string, pos: int)
    returns (index: nat, found: bool)
    requires S.Valid() && G.items.Keys == S.items.Keys && forall k :: k in S.items ==> IsGenerated(k)
    ensures found <==> exists i :: FirstPrevious(G, S, pos, prefix, i)
    ensures found ==> exists i :: FirstPrevious(G, S, pos, prefix, i) && NameNumber(S.keys[i]) == Success(index)
    ensures !found ==> index !in used && forall m :: 0 <= m < index ==> m in used
  {
    var prev := FindPrevious(G, S, pos, prefix);
    found := prev.Some?;
    if prev.Some? {
      index := NameNumber(prev.value).value;
    } else {
      index := LeastFree(used);
      assert forall i :: !FirstPrevious(G, S, pos, prefix, i) by {
        forall i | 0 <= i < |S.keys|
          ensures !Previous(G, S, pos, prefix, S.keys[i])
        {
          assert S.keys[i] in S.items;
        }
      }
    }
  }

  /** The body of the innermost loop for the position `pos` of the token `prefix`: the
      index of the first previous nonterminal found for it, or else the least free
      index, names the nonterminal of this level that receives `pos`; a list is
      extended when the name already has one after a previous nonterminal was found,
      and started otherwise, with `prefix` recorded for a new name only. */
  method PlaceTuple(G: Prefixes, S: Positions, tG: Prefixes, tS: Positions, used: set<nat>,
                    state: nat, prefix: string, pos: int, count: Option<int>)
    returns (tG': Prefixes, tS': Positions, used': set<nat>, index: nat)
    requires 0 < state < 26 && S.Valid() && G.items.Keys == S.items.Keys && NamedBelow(S, state)
    requires TempOk(tG, tS, used, state)
    ensures (exists i :: FirstPrevious(G, S, pos, prefix, i)) ==>
              exists i :: FirstPrevious(G, S, pos, prefix, i) && NameNumber(S.keys[i]) == Success(index)
    ensures (forall i :: !FirstPrevious(G, S, pos, prefix, i)) ==>
              index !in used && forall m :: 0 <= m < index ==> m in used
    ensures used' == used + {index}
    ensures var key := Name(state, index, count);
            tS'.items == tS.items[key := (if key in tS.items then tS.items[key] else []) + [pos]]
            && tG'.items == (if key in tG.items then tG.items else tG.items[key := prefix])
    ensures TempOk(tG', tS', used', state)
    ensures Keeps(tS, tS') && Covered(tS', pos)
  {
    var found;
    index, found := ChooseIndex(G, S, used, prefix, pos);
    var key := Name(state, index, count);
    GeneratedName(state, index, count);
    assert TempName(key, used + {index}, state);
    assert key in tS.items ==> TempName(key, used, state);
    tG', tS' := Assign(tG, tS, used, state, index, key, found, prefix, pos);
    used' := used + {index};
  }

  /** The dictionary updates of the innermost loop for the name `key`. */
  method Assign(tG: Prefixes, tS: Positions, used: set<nat>, state: nat, index: nat, key: string,
                found: bool, prefix: string, pos: int)
    returns (tG': Prefixes, tS': Positions)
    requires TempOk(tG, tS, used, state) && TempName(key, used + {index}, state)
    requires !found ==> key !in tS.items
    ensures tS'.items == tS.items[key := (if key in tS.items then tS.items[key] else []) + [pos]]
    ensures tG'.items == (if key in tG.items then tG.items else tG.items[key := prefix])
    ensures TempOk(tG', tS', used + {index}, state)
    ensures Keeps(tS, tS') && Covered(tS', pos)
  {
    if found && key in tS.items {
      var w := tS.items[key] + [pos];
      assert tS.items[key] <= w;
      TempOkPut(tG, tS, used, state, index, key, tG.items[key], w);
      KeepsPut(tS, key, w);
      PutUnchanged(tG, key);
      tG', tS' := tG, tS.Put(key, w);
      assert tS'.items == tS.items[key := w];
    } else {
      TempOkPut(tG, tS, used, state, index, key, prefix, [pos]);
      KeepsPut(tS, key, [pos]);
      tG', tS' := tG.Put(key, prefix), tS.Put(key, [pos]);
      assert key !in tS.items && [] + [pos] == [pos];
      assert tS'.items == tS.items[key := [pos]];
    }
    assert pos in tS'.items[key];
  }

  /** The positions of the first `t` tuples are in lists of `tS`. */
  ghost predicate TuplesCovered(tS: Positions, tuples: seq<(string, int)>, t: nat)
    requires t <= |tuples|
  {
    forall j :: 0 <= j < t ==> Covered(tS, tuples[j].1)
  }

  lemma TuplesCoveredKept(tS: Positions, tS': Positions, tuples: seq<(string, int)>, t: nat)
    requires t < |tuples| && TuplesCovered(tS, tuples, t) && Keeps(tS, tS')
    requires Covered(tS', tuples[t].1)
    ensures TuplesCovered(tS', tuples, t + 1)
  {
    forall j | 0 <= j < t
      ensures Covered(tS', tuples[j].1)
    {
      CoveredKept(tS, tS', tuples[j].1);
    }
  }

  lemma KeepsTransitive(a: Positions, b: Positions, c: Positions)
    requires Keeps(a, b) && Keeps(b, c)
    ensures Keeps(a, c)
  {
  }

  /** `for _, pos in tuples` for one token of a level. */
  method PlacePrefix(G: Prefixes, S: Positions, tG: Prefixes, tS: Positions, used: set<nat>,
                     state: nat, prefix: string, tuples: seq<(string, int)>, count: Option<int>)
    returns (tG': Prefixes, tS': Positions, used': set<nat>)
    requires 0 < state < 26 && S.Valid() && G.items.Keys == S.items.Keys && NamedBelow(S, state)
    requires TempOk(tG, tS, used, state)
    ensures TempOk(tG', tS', used', state)
    ensures Keeps(tS, tS') && forall j :: 0 <= j < |tuples| ==> Covered(tS', tuples[j].1)
  {
    tG', tS', used' := tG, tS, used;
    for t := 0 to |tuples|
      invariant TempOk(tG', tS', used', state)
      invariant Keeps(tS, tS') && TuplesCovered(tS', tuples, t)
    {
      ghost var before := tS';
      var index;
      tG', tS', used', index := PlaceTuple(G, S, tG', tS', used', state, prefix, tuples[t].1, count);
      TuplesCoveredKept(before, tS', tuples, t);
      KeepsTransitive(tS, before, tS');
    }
    assert TuplesCovered(tS', tuples, |tuples|);
  }

  /** One later level: `temp_G` and `temp_S`, or `IndexError` when the level number is 26
      or more and the level holds a token. */
  method NextLevel(G: Prefixes, S: Positions, level: Level, state: nat, count: Option<int>)
    returns (r: Result<(Prefixes, Positions), string>)
    requires 0 < state && level.Valid() && S.Valid() && G.items.Keys == S.items.Keys && NamedBelow(S, state)
    ensures r.Success? <==> state < 26 || NoTuples(level)
    ensures r.Success? ==> r.value.0.Valid() && r.value.1.Valid() && r.value.0.items.Keys == r.value.1.items.Keys
    ensures r.Success? ==> forall k :: k in r.value.1.items ==> IsGenerated(k) && LevelOf(k) == state
    ensures r.Success? ==> LevelCovered(level, r.value.1)
  {
    var tG: Prefixes, tS: Positions := Empty(), Empty();
    var used: set<nat> := {};
    for p := 0 to |level.keys|
      invariant TempOk(tG, tS, used, state)
      invariant state >= 26 ==> tS.items == map[] && forall q :: 0 <= q < p ==> level.items[level.keys[q]] == []
      invariant forall q, j :: 0 <= q < p && 0 <= j < |level.items[level.keys[q]]| ==>
                  Covered(tS, level.items[level.keys[q]][j].1)
    {
      var prefix := level.keys[p];
      var tuples := level.items[prefix];
      if state >= 26 {
        if tuples != [] {
          assert !NoTuples(level);
          return Failure("IndexError: list index out of range");
        }
      } else {
        ghost var before := tS;
        tG, tS, used := PlacePrefix(G, S, tG, tS, used, state, prefix, tuples, count);
        forall q, j | 0 <= q < p && 0 <= j < |level.items[level.keys[q]]|
          ensures Covered(tS, level.items[level.keys[q]][j].1)
        {
          CoveredKept(before, tS, level.items[level.keys[q]][j].1);
        }
      }
    }
    if state >= 26 {
      forall k | k in level.items
        ensures level.items[k] == []
      {
        var q :| 0 <= q < |level.keys| && level.keys[q] == k;
      }
    }
    forall pr, j | pr in level.items && 0 <= j < |level.items[pr]|
      ensures Covered(tS, level.items[pr][j].1)
    {
      var q :| 0 <= q < |level.keys| && level.keys[q] == pr;
    }
    return Success((tG, tS));
  }

  /** The levels below `n` exist, and those from 26 on hold no token. */
  predicate GenerableBelow(gd: GroupedData, n: nat) {
    forall s :: 0 <= s < n ==> s in gd.items && (s >= 26 ==> NoTuples(gd.items[s]))
  }

  /** Every position of the levels below `n` is in some list of `S`. */
  ghost predicate CoveredBelow(gd: GroupedData, S: Positions, n: nat)
    requires GenerableBelow(gd, n)
  {
    forall s :: 0 <= s < n ==> LevelCovered(gd.items[s], S)
  }

  /** `S.update(temp_S)` with names of a new level loses no position. */
  lemma UpdateKeeps(S: Positions, tS: Positions)
    requires tS.Valid() && forall k :: k in tS.items ==> k !in S.items
    ensures Keeps(S, Update(S, tS)) && Keeps(tS, Update(S, tS))
  {
  }

  lemma LevelCoveredKept(level: Level, S: Positions, S': Positions)
    requires LevelCovered(level, S) && Keeps(S, S')
    ensures LevelCovered(level, S')
  {
    forall p, j | p in level.items && 0 <= j < |level.items[p]|
      ensures Covered(S', level.items[p][j].1)
    {
      CoveredKept(S, S', level.items[p][j].1);
    }
  }

  /** The level-0 names survive the update with the names of a later level. */
  lemma LevelZeroUpdate(level: Level, G: Prefixes, S: Positions, tG: Prefixes, tS: Positions,
                        count: Option<int>, n: nat)
    requires level.Valid() && n <= |level.keys| && LevelZero(level, G, S, count, n)
    requires tG.Valid() && tS.Valid() && tG.items.Keys == tS.items.Keys
    requires forall k :: k in tS.items ==> k !in S.items
    ensures LevelZero(level, Update(G, tG), Update(S, tS), count, n)
  {
    forall i | 0 <= i < n
      ensures ZeroEntry(level, Update(G, tG), Update(S, tS), count, i)
    {
      assert ZeroEntry(level, G, S, count, i);
    }
  }

  /** The names of level `n` are new to `S`, and after the update every name is of a
      level up to `n`. */
  lemma NamedBelowUpdate(S: Positions, tS: Positions, n: nat)
    requires NamedBelow(S, n) && tS.Valid()
    requires forall k :: k in tS.items ==> IsGenerated(k) && LevelOf(k) == n
    ensures forall k :: k in tS.items ==> k !in S.items
    ensures NamedBelow(Update(S, tS), n + 1)
  {
  }

  /** The state after the levels below `n`. */
  ghost predicate LevelsDone(gd: GroupedData, G: Prefixes, S: Positions, count: Option<int>, n: nat)
    requires LevelsValid(gd)
  {
    G.Valid() && S.Valid() && G.items.Keys == S.items.Keys
    && NamedBelow(S, n) && GenerableBelow(gd, n) && 0 in gd.items
    && LevelZero(gd.items[0], G, S, count, |gd.items[0].keys|)
    && CoveredBelow(gd, S, n)
  }

  /** Merging the dictionaries of level `n` into the state after the levels below it. */
  lemma LevelsStep(gd: GroupedData, G: Prefixes, S: Positions, tG: Prefixes, tS: Positions,
                   count: Option<int>, n: nat)
    requires LevelsValid(gd) && 0 < n && LevelsDone(gd, G, S, count, n)
    requires n in gd.items && (n >= 26 ==> NoTuples(gd.items[n]))
    requires tG.Valid() && tS.Valid() && tG.items.Keys == tS.items.Keys
    requires forall k :: k in tS.items ==> IsGenerated(k) && LevelOf(k) == n
    requires LevelCovered(gd.items[n], tS)
    ensures LevelsDone(gd, Update(G, tG), Update(S, tS), count, n + 1)
  {
    NamedBelowUpdate(S, tS, n);
    assert GenerableBelow(gd, n + 1);
    LevelZeroUpdate(gd.items[0], G, S, tG, tS, count, |gd.items[0].keys|);
    CoveredBelowUpdate(gd, S, tS, n);
  }

  lemma CoveredBelowUpdate(gd: GroupedData, S: Positions, tS: Positions, n: nat)
    requires GenerableBelow(gd, n + 1) && CoveredBelow(gd, S, n) && LevelCovered(gd.items[n], tS)
    requires tS.Valid() && forall k :: k in tS.items ==> k !in S.items
    ensures CoveredBelow(gd, Update(S, tS), n + 1)
  {
    var S' := Update(S, tS);
    UpdateKeeps(S, tS);
    forall s | 0 <= s < n + 1
      ensures LevelCovered(gd.items[s], S')
    {
      if s < n {
        LevelCoveredKept(gd.items[s], S, S');
      } else {
        LevelCoveredKept(gd.items[s], tS, S');
      }
    }
  }


  /** `generate_non_terminals(grouped_data, count)`: `KeyError` when a level number below
      `len(grouped_data)` is missing, `IndexError` when a level from 26 on holds a token;
      otherwise `G` and `S` with the same names, level 0 named `A0`, `A1`, ... in order,
      every name of a level below `len(grouped_data)`, and every position of every level
      in the list of some name. */
  method GenerateNonTerminals(gd: GroupedData, count: Option<int>)
    returns (r: Result<(Prefixes, Positions), string>)
    requires LevelsValid(gd)
    ensures r.Success? <==> Generable(gd)
    ensures r.Success? ==> r.value.0.Valid() && r.value.1.Valid()
                           && r.value.0.items.Keys == r.value.1.items.Keys
    ensures r.Success? ==> NamedBelow(r.value.1, |gd.keys|)
    ensures r.Success? ==> LevelZero(gd.items[0], r.value.0, r.value.1, count, |gd.items[0].keys|)
    ensures r.Success? ==> forall s :: 0 <= s < |gd.keys| ==> LevelCovered(gd.items[s], r.value.1)
  {
    if 0 !in gd.items {
      return Failure("KeyError: 0");
    }
    var G, S := FirstLevel(gd.items[0], count);
    assert CoveredBelow(gd, S, 1);
    for state := 1 to |gd.keys|
      invariant LevelsDone(gd, G, S, count, state)
    {
      if state !in gd.items {
        assert !Generable(gd);
        return Failure("KeyError: level number");
      }
      var level := NextLevel(G, S, gd.items[state], state, count);
      if level.Failure? {
        assert !Generable(gd);
        return Failure(level.error);
      }
      var (tG, tS) := level.value;
      LevelsStep(gd, G, S, tG, tS, count, state);
      G, S := Update(G, tG), Update(S, tS);
    }
    assert Generable(gd);
    return Success((G, S));
  }
}
