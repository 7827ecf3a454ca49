/** The earlier, string-based LL(1) construction of `scripts/table_parsing.py`.
    Productions are strings split on whitespace. Before the table is built, the rules
    are left-factored: alternatives of a nonterminal that share their first word are
    replaced by that word followed by a `New_` nonterminal holding their suffixes, and
    FIRST conflicts among those suffixes are resolved by further sub-nonterminals.
    FIRST and the table are as in the package; FOLLOW looks only at the next symbol. */
module LegacyTable {
  import opened Wrappers
  import opened Text
  import opened Dicts
  import opened LL1

  /** A grammar whose alternatives are whitespace-separated strings. */
  type StringRules = Dict<Symbol, seq<string>>

  /** `[p.split() for p in ps]`. */
  function SplitAll(ps: seq<string>): (rs: seq<Rule>)
    ensures |rs| == |ps| && forall j :: 0 <= j < |ps| ==> rs[j] == Split(ps[j])
  {
    seq(|ps|, j requires 0 <= j < |ps| => Split(ps[j]))
  }

  /** The same grammar with every alternative split into its symbols, in the same key
      order. */
  function SplitGrammar(g: StringRules): (r: Grammar)
    ensures r.keys == g.keys && r.items.Keys == g.items.Keys
    ensures forall nt :: nt in g.items ==> r.items[nt] == SplitAll(g.items[nt])
    ensures g.Valid() ==> r.Valid()
  {
    Dict(g.keys, map nt | nt in g.items :: SplitAll(g.items[nt]))
  }

  /** `compute_first_of_string(string, first_sets)`: the scan of the package version over
      the words of the string. An empty string gives epsilon alone; a first word with no
      entry is taken as a terminal and is the whole result; a first word whose entry
      lacks epsilon gives that entry and ends the scan. */
  function FirstOfWords(s: string, fs: SymbolSets): (r: set<Symbol>)
    ensures Split(s) == [] ==> r == {Epsilon}
    ensures Split(s) != [] && Split(s)[0] !in fs ==> r == {Split(s)[0]}
    ensures Split(s) != [] && Split(s)[0] in fs && Epsilon !in fs[Split(s)[0]] ==> r == fs[Split(s)[0]]
  {
    FirstOfString(Split(s), fs)
  }

  // ---------------------------------------------------------------------------
  // FOLLOW reads only the next symbol

  /** The grammar S* -> A B c, A -> a, B -> b | epsilon, with its FIRST sets. */
  const ExampleRules: Productions :=
    map["S*" := [["A", "B", "c"]], "A" := [["a"]], "B" := [["b"], [Epsilon]]]
  const ExampleFirst: SymbolSets := map["S*" := {"a"}, "A" := {"a"}, "B" := {"b", Epsilon}]

  /** The FIRST sets of the example are a solution of the FIRST equations. */
  lemma ExampleFirstClosed()
    ensures FirstClosed(ExampleRules, ExampleFirst)
  {
    var p, f := ExampleRules, ExampleFirst;
    assert SeqFirst(["A", "B", "c"], p, f) == {"a"};
    assert SeqFirst(["a"], p, f) == {"a"};
    assert SeqFirst(["b"], p, f) == {"b"};
  }

  /** The family that leaves `c` out of FOLLOW(A). */
  const ExampleFollow: SymbolSets := map["S*" := {EndMarker}, "A" := {"b", EndMarker}, "B" := {"c"}]

  /** The next-symbol FOLLOW equations accept `ExampleFollow`. */
  lemma ExampleFollowClosed()
    ensures FollowClosed(NextSymbol, ExampleRules, ExampleFirst, StartSymbol, ExampleFollow)
  {
    var p, fs, f0 := ExampleRules, ExampleFirst, ExampleFollow;
    assert RhsDone(NextSymbol, p, fs, f0, "S*", ["A", "B", "c"], 3) by {
      assert OccOk(NextSymbol, p, fs, f0, "S*", ["A", "B", "c"], 0);
      assert OccOk(NextSymbol, p, fs, f0, "S*", ["A", "B", "c"], 1);
    }
    assert RulesDone(NextSymbol, p, fs, f0, "S*", p["S*"], 1);
    assert RulesDone(NextSymbol, p, fs, f0, "B", p["B"], 2) by {
      assert Epsilon != "B";
    }
  }

  /** Over the whole rest of the production, FOLLOW(A) holds `c`. */
  lemma WholeRestFollowHas(f: SymbolSets)
    requires FollowClosed(WholeRest, ExampleRules, ExampleFirst, StartSymbol, f)
    ensures "c" in f["A"]
  {
    ClosedAt(WholeRest, ExampleRules, ExampleFirst, StartSymbol, f, "S*", 0, 0);
    assert FirstOfString(["c"], ExampleFirst) == {"c"};
    assert FirstOfString(["B", "c"], ExampleFirst) == {"b", "c"};
  }

  /** With `follow` looking at the next symbol only, FOLLOW(A) misses `c`: B is nullable,
      so what follows A includes the `c` after B, but the script inherits FOLLOW(S*)
      instead. The least family the next-symbol equations accept, which `follow`
      computes, omits `c` from FOLLOW(A), while every solution of the equations over the
      whole rest of the production has it. */
  lemma NextSymbolFollowMissesRest(fo: SymbolSets)
    requires forall f :: FollowClosed(NextSymbol, ExampleRules, ExampleFirst, StartSymbol, f) ==> Below(fo, f)
    requires "A" in fo
    ensures "c" !in fo["A"]
    ensures forall f :: FollowClosed(WholeRest, ExampleRules, ExampleFirst, StartSymbol, f) ==> "c" in f["A"]
  {
    ExampleFollowClosed();
    forall f | FollowClosed(WholeRest, ExampleRules, ExampleFirst, StartSymbol, f)
      ensures "c" in f["A"]
    {
      WholeRestFollowHas(f);
    }
  }

  // ---------------------------------------------------------------------------
  // `replace_sublist`

  /** `sub` stands contiguously in `lst` at position `i`. */
  predicate At(lst: seq<string>, sub: seq<string>, i: nat) {
    i + |sub| <= |lst| && lst[i..i + |sub|] == sub
  }

  /** The first position, from `from` on, at which `sub` stands contiguously in `lst`. */
  function FirstOccurrence(lst: seq<string>, sub: seq<string>, from: nat): (r: Option<nat>)
    ensures r.Some? ==> from <= r.value && At(lst, sub, r.value)
    ensures r.Some? ==> forall i :: from <= i < r.value ==> !At(lst, sub, i)
    ensures r.None? ==> forall i :: from <= i ==> !At(lst, sub, i)
    decreases |lst| - from
  {
    if from + |sub| > |lst| then None
    else if lst[from..from + |sub|] == sub then Some(from)
    else FirstOccurrence(lst, sub, from + 1)
  }

  /** `replace_sublist(lst, sublist, replacement)`: the first contiguous occurrence of
      `sub` becomes the single element `replacement`; a list without one comes back
      unchanged. */
  method ReplaceSublist(lst: seq<string>, sub: seq<string>, replacement: string) returns (r: seq<string>)
    ensures r == Replaced(lst, sub, replacement)
  {
    var i := 0;
    while i + |sub| <= |lst|
      invariant FirstOccurrence(lst, sub, i) == FirstOccurrence(lst, sub, 0)
      decreases |lst| - i
    {
      if lst[i..i + |sub|] == sub {
        return lst[..i] + [replacement] + lst[i + |sub|..];
      }
      i := i + 1;
    }
    return lst;
  }

  /** The list with its first occurrence of `sub` replaced by `replacement`. */
  function Replaced(lst: seq<string>, sub: seq<string>, replacement: string): seq<string> {
    match FirstOccurrence(lst, sub, 0)
    case Some(i) => lst[..i] + [replacement] + lst[i + |sub|..]
    case None => lst
  }

  // ---------------------------------------------------------------------------
  // Grouping the alternatives of a nonterminal by their first word

  /** The first word of a production; an empty production has none and is skipped. */
  function FirstWord(): string -> Option<string> {
    p => var ws := Split(p); if ws == [] then None else Some(ws[0])
  }

  function Itself(): string -> string {
    p => p
  }

  /** `prefix_groups.setdefault(tokens[0], []).append(production)` over the productions. */
  method PrefixGroups(productions: seq<string>) returns (groups: Dict<string, seq<string>>)
    ensures groups == GroupBy(productions, FirstWord(), Itself())
  {
    groups := Empty();
    for i := 0 to |productions|
      invariant groups == GroupBy(productions[..i], FirstWord(), Itself())
    {
      assert productions[..i + 1][..i] == productions[..i];
      var tokens := Split(productions[i]);
      if tokens != [] {
        var prefix := tokens[0];
        groups := groups.Put(prefix, (if prefix in groups.items then groups.items[prefix] else []) + [productions[i]]);
      }
    }
    assert productions[..|productions|] == productions;
  }

  /** The alternative a production of a factored group leaves to the `New_`
      nonterminal: its words after the first, joined by spaces, or epsilon. */
  function SuffixOf(p: string): string {
    var ws := Split(p);
    if |ws| > 1 then Join(ws[1..]) else Epsilon
  }

  /** The first word, a space and the suffix split into the production's words again. */
  lemma SuffixRecovers(p: string)
    requires |Split(p)| > 1
    ensures Split(Split(p)[0] + " " + SuffixOf(p)) == Split(p)
  {
    var ws := Split(p);
    assert Join(ws) == ws[0] + " " + Join(ws[1..]);
    SplitJoinWords(ws);
  }

  /** The suffix of every production of a group, in order. */
  function SuffixList(group: seq<string>): (r: seq<string>)
    ensures |r| == |group| && forall j :: 0 <= j < |group| ==> r[j] == SuffixOf(group[j])
  {
    seq(|group|, j requires 0 <= j < |group| => SuffixOf(group[j]))
  }

  /** The alternatives of `New_{nt}_{prefix}`, one per production of the group. */
  method Suffixes(group: seq<string>) returns (alts: seq<string>)
    ensures alts == SuffixList(group)
  {
    alts := [];
    for j := 0 to |group|
      invariant |alts| == j && forall j' :: 0 <= j' < j ==> alts[j'] == SuffixOf(group[j'])
    {
      var tokens := Split(group[j]);
      var suffix := if |tokens| > 1 then tokens[1..] else [];
      if suffix != [] {
        alts := alts + [Join(suffix)];
      } else {
        alts := alts + [Epsilon];
      }
    }
  }

  /** `[p for p in ps if p not in group]`. */
  function Without(ps: seq<string>, group: seq<string>): (r: seq<string>)
    ensures forall p :: p in r <==> p in ps && p !in group
    ensures |r| <= |ps|
    decreases |ps|
  {
    if ps == [] then []
    else Without(ps[..|ps| - 1], group) + (if ps[|ps| - 1] in group then [] else [ps[|ps| - 1]])
  }

  /** The name of the nonterminal that takes the suffixes of a group. */
  function BaseName(nt: Symbol, prefix: Symbol): Symbol {
    "New_" + nt + "_" + prefix
  }

  /** The name of the sub-nonterminal of `base` for the FIRST symbol `first`. */
  function SubName(base: Symbol, first: Symbol): (r: Symbol)
    ensures HasPrefix(base, r) && |r| > |base|
  {
    base + "_" + first
  }

  predicate HasPrefix(base: Symbol, k: Symbol) {
    |base| <= |k| && k[..|base|] == base
  }

  lemma PrefixTrans(a: Symbol, b: Symbol, c: Symbol)
    requires HasPrefix(a, b) && HasPrefix(b, c)
    ensures HasPrefix(a, c)
  {
    assert c[..|a|] == c[..|b|][..|a|];
  }

  /** The productions of `nt` after its groups `keys[..n]` have been factored:
      each group of two or more is removed and replaced by one `prefix New_{nt}_{prefix}`. */
  function FactoredUpTo(nt: Symbol, ps: seq<string>, groups: Dict<string, seq<string>>, n: nat): seq<string>
    requires groups.Valid() && n <= |groups.keys|
  {
    if n == 0 then ps
    else
      var prev := FactoredUpTo(nt, ps, groups, n - 1);
      var prefix := groups.keys[n - 1];
      var group := groups.items[prefix];
      if |group| > 1 then Without(prev, group) + [prefix + " " + BaseName(nt, prefix)] else prev
  }

  /** The productions the factoring leaves to `nt`. */
  function Factored(nt: Symbol, ps: seq<string>): seq<string> {
    var groups := GroupBy(ps, FirstWord(), Itself());
    FactoredUpTo(nt, ps, groups, |groups.keys|)
  }

  /** The group of `nt` with first word `prefix` has two or more productions and is
      factored. */
  predicate Factors(rules: StringRules, nt: Symbol, prefix: Symbol) {
    nt in rules.items
    && var groups := GroupBy(rules.items[nt], FirstWord(), Itself());
       prefix in groups.items && |groups.items[prefix]| > 1
  }

  /** The group of `nt` with first word `prefix`. */
  function GroupOf(rules: StringRules, nt: Symbol, prefix: Symbol): seq<string>
    requires Factors(rules, nt, prefix)
  {
    GroupBy(rules.items[nt], FirstWord(), Itself()).items[prefix]
  }

  // ---------------------------------------------------------------------------
  // Grouping alternatives by FIRST

  /** The alternatives without repetitions, in order of first occurrence. */
  function Distinct(xs: seq<string>): (ds: seq<string>)
    ensures forall s :: s in ds <==> s in xs
    ensures forall i, j :: 0 <= i < j < |ds| ==> ds[i] != ds[j]
    ensures |ds| <= |xs|
    decreases |xs|
  {
    if xs == [] then []
    else
      var prev := Distinct(xs[..|xs| - 1]);
      if xs[|xs| - 1] in prev then prev else prev + [xs[|xs| - 1]]
  }

  /** `compute_first_of_string` on the words of an alternative, as a function value. */
  function FirstOf(fs: SymbolSets): string -> set<Symbol> {
    s => FirstOfWords(s, fs)
  }

  /** The alternatives of `ds` whose FIRST holds `x`, in order. */
  function Holders(ds: seq<string>, first: string -> set<Symbol>, x: Symbol): (hs: seq<string>)
    ensures forall s :: s in hs <==> s in ds && x in first(s)
    ensures |hs| <= |ds|
    decreases |ds|
  {
    if ds == [] then []
    else Holders(ds[..|ds| - 1], first, x) + (if x in first(ds[|ds| - 1]) then [ds[|ds| - 1]] else [])
  }

  /** Every symbol in the FIRST of some alternative of `ds`. */
  function Firsts(ds: seq<string>, first: string -> set<Symbol>): (xs: set<Symbol>)
    ensures forall s, x :: s in ds && x in first(s) ==> x in xs
    ensures forall x :: x in xs ==> exists s :: s in ds && x in first(s)
    decreases |ds|
  {
    if ds == [] then {} else Firsts(ds[..|ds| - 1], first) + first(ds[|ds| - 1])
  }

  /** Two distinct alternatives share a FIRST symbol (epsilon included). */
  predicate Conflicting(ds: seq<string>, fs: SymbolSets) {
    ConflictingOn(ds, FirstOf(fs))
  }

  predicate ConflictingOn(ds: seq<string>, first: string -> set<Symbol>) {
    exists x :: x in Firsts(ds, first) && |Holders(ds, first, x)| > 1
  }

  lemma DistinctSnoc(xs: seq<string>, i: nat)
    requires i < |xs|
    ensures Distinct(xs[..i + 1]) == if xs[i] in Distinct(xs[..i]) then Distinct(xs[..i]) else Distinct(xs[..i]) + [xs[i]]
  {
    assert xs[..i + 1][..i] == xs[..i];
  }

  lemma HoldersSnoc(ds: seq<string>, s: string, first: string -> set<Symbol>, x: Symbol)
    ensures Holders(ds + [s], first, x) == Holders(ds, first, x) + (if x in first(s) then [s] else [])
  {
    assert (ds + [s])[..|ds|] == ds;
  }

  lemma FirstsSnoc(ds: seq<string>, s: string, first: string -> set<Symbol>)
    ensures Firsts(ds + [s], first) == Firsts(ds, first) + first(s)
  {
    assert (ds + [s])[..|ds|] == ds;
  }

  /** `for first in first_set: a.setdefault(first, []).append(symbol)`. The set is
      visited in an order the model leaves open, as Python's set order is. */
  method AddHolder(a: Dict<Symbol, seq<string>>, symbol: string, firsts: set<Symbol>) returns (a': Dict<Symbol, seq<string>>)
    requires a.Valid()
    ensures a'.Valid() && a'.items.Keys == a.items.Keys + firsts
    ensures forall x :: x in a'.items ==> a'.items[x] == Held(a.items, symbol, firsts, x)
  {
    a' := a;
    var todo := firsts;
    ghost var done: set<Symbol> := {};
    HeldNone(a.items, symbol);
    while todo != {}
      invariant done + todo == firsts && done !! todo
      invariant a'.Valid() && a'.items == HeldMap(a.items, symbol, done)
      decreases todo
    {
      var x :| x in todo;
      HeldStep(a.items, symbol, done, x);
      a' := a'.Put(x, (if x in a'.items then a'.items[x] else []) + [symbol]);
      todo, done := todo - {x}, done + {x};
    }
  }

  /** The entry of `x` after `symbol` has been appended to the entries of `firsts`. */
  function Held(items: map<Symbol, seq<string>>, symbol: string, firsts: set<Symbol>, x: Symbol): seq<string> {
    (if x in items then items[x] else []) + (if x in firsts then [symbol] else [])
  }

  function HeldMap(items: map<Symbol, seq<string>>, symbol: string, firsts: set<Symbol>): (m: map<Symbol, seq<string>>)
    ensures m.Keys == items.Keys + firsts
    ensures forall x :: x in m ==> m[x] == Held(items, symbol, firsts, x)
  {
    map x | x in items.Keys + firsts :: Held(items, symbol, firsts, x)
  }

  lemma HeldNone(items: map<Symbol, seq<string>>, symbol: string)
    ensures HeldMap(items, symbol, {}) == items
  {
    var m := HeldMap(items, symbol, {});
    assert m.Keys == items.Keys;
    forall x | x in m
      ensures m[x] == items[x]
    {
      assert items[x] + [] == items[x];
    }
  }

  lemma HeldStep(items: map<Symbol, seq<string>>, symbol: string, done: set<Symbol>, x: Symbol)
    requires x !in done
    ensures var m := HeldMap(items, symbol, done);
      HeldMap(items, symbol, done + {x}) == m[x := (if x in m then m[x] else []) + [symbol]]
  {
    var m, m' := HeldMap(items, symbol, done), HeldMap(items, symbol, done + {x});
    var e := m[x := (if x in m then m[x] else []) + [symbol]];
    assert m'.Keys == e.Keys;
    forall y | y in m'
      ensures m'[y] == e[y]
    {
      if y == x {
        assert x !in done;
        if x in items {
          assert m[x] == items[x] + [];
        } else {
          assert x !in m;
        }
      }
    }
  }

  lemma {:induction false} NoHolders(ds: seq<string>, first: string -> set<Symbol>, x: Symbol)
    requires x !in Firsts(ds, first)
    ensures Holders(ds, first, x) == []
    decreases |ds|
  {
    if ds != [] {
      NoHolders(ds[..|ds| - 1], first, x);
    }
  }

  /** One distinct alternative more keeps the grouping equal to `Firsts` and `Holders`. */
  lemma GroupStep(a: Dict<Symbol, seq<string>>, a': Dict<Symbol, seq<string>>, ds: seq<string>, symbol: string,
                  first: string -> set<Symbol>)
    requires a.items.Keys == Firsts(ds, first)
    requires forall x :: x in a.items ==> a.items[x] == Holders(ds, first, x)
    requires a'.items.Keys == a.items.Keys + first(symbol)
    requires forall x :: x in a'.items ==> a'.items[x] == Held(a.items, symbol, first(symbol), x)
    ensures a'.items.Keys == Firsts(ds + [symbol], first)
    ensures forall x :: x in a'.items ==> a'.items[x] == Holders(ds + [symbol], first, x)
  {
    FirstsSnoc(ds, symbol, first);
    forall x | x in a'.items
      ensures a'.items[x] == Holders(ds + [symbol], first, x)
    {
      HoldersSnoc(ds, symbol, first, x);
      if x !in a.items {
        NoHolders(ds, first, x);
      }
    }
  }

  /** The grouping `a` of the alternatives of a base by FIRST, skipping repeated
      alternatives (`seen_symbols`): one entry per FIRST symbol, holding the distinct
      alternatives whose FIRST has it, in order. */
  method GroupFirsts(alts: seq<string>, fs: SymbolSets) returns (a: Dict<Symbol, seq<string>>)
    ensures a.Valid() && a.items.Keys == Firsts(Distinct(alts), FirstOf(fs))
    ensures forall x :: x in a.items ==> a.items[x] == Holders(Distinct(alts), FirstOf(fs), x)
  {
    a := Empty();
    var seen: set<string> := {};
    for i := 0 to |alts|
      invariant GroupedUpTo(alts, fs, seen, a, i)
    {
      var symbol := alts[i];
      if symbol !in seen {
        var firsts := FirstOfWords(symbol, fs);
        var a' := AddHolder(a, symbol, firsts);
        GroupedAdd(alts, fs, seen, a, i, a');
        seen, a := seen + {symbol}, a';
      } else {
        GroupedSkip(alts, fs, seen, a, i);
      }
    }
    assert alts[..|alts|] == alts;
  }

  /** The invariant of `GroupFirsts` after the first `i` alternatives. */
  ghost predicate GroupedUpTo(alts: seq<string>, fs: SymbolSets, seen: set<string>, a: Dict<Symbol, seq<string>>, i: nat)
    requires i <= |alts|
  {
    (forall s :: s in seen <==> s in alts[..i])
    && a.Valid() && a.items.Keys == Firsts(Distinct(alts[..i]), FirstOf(fs))
    && forall x :: x in a.items ==> a.items[x] == Holders(Distinct(alts[..i]), FirstOf(fs), x)
  }

  /** An alternative seen before changes nothing. */
  lemma GroupedSkip(alts: seq<string>, fs: SymbolSets, seen: set<string>, a: Dict<Symbol, seq<string>>, i: nat)
    requires i < |alts| && GroupedUpTo(alts, fs, seen, a, i) && alts[i] in seen
    ensures GroupedUpTo(alts, fs, seen, a, i + 1)
  {
    var ds := Distinct(alts[..i]);
    DistinctSnoc(alts, i);
    assert alts[i] in alts[..i];
    assert alts[i] in ds;
    SeenKept(alts, seen, i);
    GroupedSame(alts, fs, seen, a, i);
  }

  lemma SeenKept(alts: seq<string>, seen: set<string>, i: nat)
    requires i < |alts| && alts[i] in seen && forall s :: s in seen <==> s in alts[..i]
    ensures forall s :: s in seen <==> s in alts[..i + 1]
  {
    assert alts[..i + 1] == alts[..i] + [alts[i]];
  }

  lemma GroupedSame(alts: seq<string>, fs: SymbolSets, seen: set<string>, a: Dict<Symbol, seq<string>>, i: nat)
    requires i < |alts| && GroupedUpTo(alts, fs, seen, a, i)
    requires Distinct(alts[..i + 1]) == Distinct(alts[..i])
    requires forall s :: s in seen <==> s in alts[..i + 1]
    ensures GroupedUpTo(alts, fs, seen, a, i + 1)
  {
  }

  /** A new alternative joins the groups of its FIRST symbols. */
  lemma GroupedAdd(alts: seq<string>, fs: SymbolSets, seen: set<string>, a: Dict<Symbol, seq<string>>, i: nat,
                   a': Dict<Symbol, seq<string>>)
    requires i < |alts| && GroupedUpTo(alts, fs, seen, a, i) && alts[i] !in seen
    requires a'.Valid() && a'.items.Keys == a.items.Keys + FirstOfWords(alts[i], fs)
    requires forall x :: x in a'.items ==> a'.items[x] == Held(a.items, alts[i], FirstOfWords(alts[i], fs), x)
    ensures GroupedUpTo(alts, fs, seen + {alts[i]}, a', i + 1)
  {
    var ds := Distinct(alts[..i]);
    SeenStep(alts, seen, i);
    DistinctSnoc(alts, i);
    assert alts[i] !in ds;
    assert Distinct(alts[..i + 1]) == ds + [alts[i]];
    assert FirstOfWords(alts[i], fs) == FirstOf(fs)(alts[i]);
    GroupStep(a, a', ds, alts[i], FirstOf(fs));
  }

  /** The set of alternatives seen grows with the slice walked. */
  lemma SeenStep(alts: seq<string>, seen: set<string>, i: nat)
    requires i < |alts| && forall s :: s in seen <==> s in alts[..i]
    ensures forall s :: s in seen + {alts[i]} <==> s in alts[..i + 1]
  {
    assert alts[..i + 1] == alts[..i] + [alts[i]];
  }

  lemma OneKey(a: Dict<Symbol, seq<string>>, b: Symbol)
    requires a.Valid() && a.items.Keys == {b}
    ensures |a.keys| > 0 && a.keys[0] == b
  {
    assert b in a.keys;
  }

  // ---------------------------------------------------------------------------
  // The alternatives of a sub-nonterminal

  /** `prod` starts with the word `first`. */
  predicate StartsWith(prod: string, first: Symbol) {
    Split(prod) != [] && Split(prod)[0] == first
  }

  /** One production of `symb` offered to the sub-nonterminal of `first`: its suffix,
      unless already present. */
  function AddSuffixes(acc: seq<string>, prods: seq<string>, first: Symbol): (r: seq<string>)
    decreases |prods|
  {
    if prods == [] then acc
    else
      var prev := AddSuffixes(acc, prods[..|prods| - 1], first);
      var prod := prods[|prods| - 1];
      if StartsWith(prod, first) && SuffixOf(prod) !in prev then prev + [SuffixOf(prod)] else prev
  }

  /** `new_non_terminals[sub_nt]` as built from the conflicting alternatives `symbols`:
      an alternative that names no rule of `rules` (or a rule without productions) is
      taken as it is; otherwise each production of that rule starting with `first`
      gives its suffix, each suffix once. */
  function SubAlternatives(symbols: seq<string>, rules: map<Symbol, seq<string>>, first: Symbol): seq<string>
    decreases |symbols|
  {
    if symbols == [] then []
    else
      var prev := SubAlternatives(symbols[..|symbols| - 1], rules, first);
      var symb := symbols[|symbols| - 1];
      if symb !in rules || rules[symb] == [] then prev + [symb]
      else AddSuffixes(prev, rules[symb], first)
  }

  /** What the alternative `symb` may contribute to the sub-nonterminal of `first`. */
  predicate Offers(rules: map<Symbol, seq<string>>, symb: string, first: Symbol, s: string) {
    if symb !in rules || rules[symb] == [] then s == symb
    else exists prod :: prod in rules[symb] && StartsWith(prod, first) && s == SuffixOf(prod)
  }

  lemma {:induction false} AddSuffixesMember(acc: seq<string>, prods: seq<string>, first: Symbol, s: string)
    ensures s in AddSuffixes(acc, prods, first) <==>
              s in acc || exists prod :: prod in prods && StartsWith(prod, first) && s == SuffixOf(prod)
    decreases |prods|
  {
    if prods != [] {
      var init := prods[..|prods| - 1];
      AddSuffixesMember(acc, init, first, s);
      assert forall prod :: prod in prods <==> prod in init || prod == prods[|prods| - 1];
    }
  }

  /** Every alternative of the sub-nonterminal comes from one of the conflicting
      alternatives, and every contribution of each is present. */
  lemma {:induction false} SubAlternativesMember(symbols: seq<string>, rules: map<Symbol, seq<string>>, first: Symbol, s: string)
    ensures s in SubAlternatives(symbols, rules, first) <==>
              exists j :: 0 <= j < |symbols| && Offers(rules, symbols[j], first, s)
    decreases |symbols|
  {
    if symbols != [] {
      var n := |symbols| - 1;
      var init := symbols[..n];
      SubAlternativesMember(init, rules, first, s);
      var symb := symbols[n];
      if !(symb !in rules || rules[symb] == []) {
        AddSuffixesMember(SubAlternatives(init, rules, first), rules[symb], first, s);
      }
      if exists j :: 0 <= j < |symbols| && Offers(rules, symbols[j], first, s) {
        var j :| 0 <= j < |symbols| && Offers(rules, symbols[j], first, s);
        if j < n {
          assert init[j] == symbols[j];
        }
      }
      assert forall j :: 0 <= j < n ==> init[j] == symbols[j];
    }
  }

  /** Alternatives that name no rule are carried over unchanged, repetitions included. */
  lemma {:induction false} BareSubAlternatives(symbols: seq<string>, rules: map<Symbol, seq<string>>, first: Symbol)
    requires forall j :: 0 <= j < |symbols| ==> symbols[j] !in rules
    ensures SubAlternatives(symbols, rules, first) == symbols
    decreases |symbols|
  {
    if symbols != [] {
      var n := |symbols| - 1;
      BareSubAlternatives(symbols[..n], rules, first);
      Rejoin(symbols);
    }
  }

  /** The inner loop over `real_productions`. */
  method CollectSuffixes(acc: seq<string>, prods: seq<string>, first: Symbol) returns (r: seq<string>)
    ensures r == AddSuffixes(acc, prods, first)
  {
    r := acc;
    for i := 0 to |prods|
      invariant r == AddSuffixes(acc, prods[..i], first)
    {
      assert prods[..i + 1][..i] == prods[..i];
      var tokens := Split(prods[i]);
      if tokens != [] && tokens[0] == first {
        var suffix := tokens[1..];
        var productionStr := if suffix != [] then Join(suffix) else Epsilon;
        if productionStr !in r {
          r := r + [productionStr];
        }
      }
    }
    assert prods[..|prods|] == prods;
  }

  /** The loop over the conflicting alternatives `symbols`. */
  method CollectSubAlternatives(symbols: seq<string>, rules: map<Symbol, seq<string>>, first: Symbol) returns (r: seq<string>)
    ensures r == SubAlternatives(symbols, rules, first)
  {
    r := [];
    for i := 0 to |symbols|
      invariant r == SubAlternatives(symbols[..i], rules, first)
    {
      assert symbols[..i + 1][..i] == symbols[..i];
      var realProductions := if symbols[i] in rules then rules[symbols[i]] else [];
      if realProductions == [] {
        r := r + [symbols[i]];
      } else {
        r := CollectSuffixes(r, realProductions, first);
      }
    }
    assert symbols[..|symbols|] == symbols;
  }

  lemma Rejoin<T>(xs: seq<T>)
    requires xs != []
    ensures xs[..|xs| - 1] + [xs[|xs| - 1]] == xs
  {
  }

  lemma {:induction false} DistinctOfDistinct(xs: seq<string>)
    requires forall i, j :: 0 <= i < j < |xs| ==> xs[i] != xs[j]
    ensures Distinct(xs) == xs
    decreases |xs|
  {
    if xs != [] {
      var n := |xs| - 1;
      DistinctOfDistinct(xs[..n]);
      assert xs[n] !in xs[..n];
      Rejoin(xs);
    }
  }

  lemma LeadFirst(s: string, fs: SymbolSets, b: Symbol)
    requires b !in fs && StartsWith(s, b)
    ensures FirstOf(fs)(s) == {b}
  {
  }

  /** Alternatives that all begin with a word without a FIRST entry share that word as
      their only FIRST symbol. */
  lemma {:induction false} SameLead(ds: seq<string>, fs: SymbolSets, b: Symbol)
    requires b !in fs && forall s :: s in ds ==> StartsWith(s, b)
    ensures Holders(ds, FirstOf(fs), b) == ds
    ensures ds != [] ==> Firsts(ds, FirstOf(fs)) == {b}
    decreases |ds|
  {
    if ds != [] {
      var n := |ds| - 1;
      SameLead(ds[..n], fs, b);
      LeadFirst(ds[n], fs, b);
      Rejoin(ds);
    }
  }

  // ---------------------------------------------------------------------------
  // `eliminate_first_conflicts`

  const RecursionError: string := "RecursionError: maximum recursion depth exceeded"

  /** `new_rules` and `new_non_terminals`, with the `visited` set shared by the calls
      that one top-level call starts. */
  datatype Factoring = Factoring(newRules: StringRules, nnt: StringRules, visited: set<Symbol>)

  /** `new_non_terminals.get(nt_base, [])`. */
  function AltsOf(nnt: StringRules, nt: Symbol): seq<string> {
    if nt in nnt.items then nnt.items[nt] else []
  }

  /** The entry of `k` is new in `b` or differs from the one in `a`. */
  predicate Changed(a: map<Symbol, seq<string>>, b: map<Symbol, seq<string>>, k: Symbol) {
    k in b && (k !in a || b[k] != a[k])
  }

  /** From `a` to `b` nothing is removed, and every entry that changes belongs to a name
      that starts with `base`; a changed rule is also a new nonterminal. */
  ghost predicate Confined(a: Factoring, b: Factoring, base: Symbol) {
    a.newRules.items.Keys <= b.newRules.items.Keys && a.nnt.items.Keys <= b.nnt.items.Keys && a.visited <= b.visited
    && (forall k :: Changed(a.newRules.items, b.newRules.items, k) ==> HasPrefix(base, k) && k in b.nnt.items)
    && (forall k :: Changed(a.nnt.items, b.nnt.items, k) ==> HasPrefix(base, k))
  }

  lemma ConfinedTrans(a: Factoring, b: Factoring, c: Factoring, base: Symbol, base2: Symbol)
    requires Confined(a, b, base) && Confined(b, c, base2) && HasPrefix(base, base2)
    ensures Confined(a, c, base)
  {
    forall k | Changed(a.newRules.items, c.newRules.items, k)
      ensures HasPrefix(base, k) && k in c.nnt.items
    {
      if Changed(b.newRules.items, c.newRules.items, k) {
        PrefixTrans(base, base2, k);
      } else {
        assert Changed(a.newRules.items, b.newRules.items, k);
      }
    }
    forall k | Changed(a.nnt.items, c.nnt.items, k)
      ensures HasPrefix(base, k)
    {
      if Changed(b.nnt.items, c.nnt.items, k) {
        PrefixTrans(base, base2, k);
      } else {
        assert Changed(a.nnt.items, b.nnt.items, k);
      }
    }
  }

  /** Writing the entries of `sub` and `base` in both dictionaries stays within `base`. */
  lemma ConfinedWrite(a: Factoring, b: Factoring, base: Symbol, sub: Symbol, x: seq<string>, y: seq<string>,
                       x': seq<string>, y': seq<string>)
    requires HasPrefix(base, sub) && a.visited == b.visited
    requires b.nnt.items == a.nnt.items[sub := x][base := y]
    requires b.newRules.items == a.newRules.items[sub := x'][base := y']
    ensures Confined(a, b, base)
  {
  }

  /** The alternatives of `ntBase` are two or more distinct ones, all beginning with the
      same word `b`, which has no FIRST entry; none of them names a rule, each is shorter
      than `ntBase`, and no visited name is longer than `ntBase`. The conflict on `b` then
      makes a sub-nonterminal with the same alternatives and a longer name, forever. */
  ghost predicate LoopsOn(ntBase: Symbol, st: Factoring, fs: SymbolSets, b: Symbol) {
    ntBase !in st.visited && ntBase in st.nnt.items
    && (forall v :: v in st.visited ==> |v| <= |ntBase|)
    && |Distinct(st.nnt.items[ntBase])| > 1 && b !in fs
    && forall s :: s in st.nnt.items[ntBase] ==> StartsWith(s, b) && s !in st.newRules.items && |s| < |ntBase|
  }

  /** Under `LoopsOn` the grouping by FIRST has the single group `b` holding every
      distinct alternative. */
  lemma LoopsEntry(ntBase: Symbol, st: Factoring, fs: SymbolSets, b: Symbol, a: Dict<Symbol, seq<string>>)
    requires LoopsOn(ntBase, st, fs, b)
    requires a.Valid() && a.items.Keys == Firsts(Distinct(AltsOf(st.nnt, ntBase)), FirstOf(fs))
    requires forall x :: x in a.items ==> a.items[x] == Holders(Distinct(AltsOf(st.nnt, ntBase)), FirstOf(fs), x)
    ensures |a.keys| > 0 && a.keys[0] == b && a.items[b] == Distinct(AltsOf(st.nnt, ntBase))
  {
    var ds := Distinct(AltsOf(st.nnt, ntBase));
    SameLead(ds, fs, b);
    OneKey(a, b);
  }

  /** The conflict on `first` among `symbols` in `cur` is the one `LoopsOn` describes:
      `symbols` are distinct alternatives beginning with `first`, which has no FIRST
      entry, none of them names a rule and each is shorter than `ntBase`, and no visited
      name is longer than `ntBase`. */
  ghost predicate StepLoops(ntBase: Symbol, cur: Factoring, fs: SymbolSets, first: Symbol, symbols: seq<string>) {
    (forall v :: v in cur.visited ==> |v| <= |ntBase|)
    && |symbols| > 1 && first !in fs
    && (forall i, j :: 0 <= i < j < |symbols| ==> symbols[i] != symbols[j])
    && forall s :: s in symbols ==> StartsWith(s, first) && s !in cur.newRules.items && |s| < |ntBase|
  }

  lemma LoopsToStep(ntBase: Symbol, st: Factoring, fs: SymbolSets, b: Symbol)
    requires LoopsOn(ntBase, st, fs, b)
    ensures StepLoops(ntBase, st.(visited := st.visited + {ntBase}), fs, b, Distinct(st.nnt.items[ntBase]))
  {
  }

  /** The state the conflict hands to the recursive call loops again. */
  lemma LoopsStep(ntBase: Symbol, cur: Factoring, fs: SymbolSets, b: Symbol, symbols: seq<string>, mid: Factoring, sub: Symbol)
    requires StepLoops(ntBase, cur, fs, b, symbols) && sub == SubName(ntBase, b)
    requires mid.visited == cur.visited
    requires sub in mid.nnt.items && mid.nnt.items[sub] == symbols
    requires mid.newRules.items.Keys == cur.newRules.items.Keys + {sub, ntBase}
    ensures LoopsOn(sub, mid, fs, b)
  {
    DistinctOfDistinct(symbols);
  }

  /** `eliminate_first_conflicts(nt_base, new_rules, new_non_terminals, first_sets, visited)`
      with Python's recursion limit as `fuel`. A visited base is left alone; otherwise the
      distinct alternatives of the base are grouped by FIRST, and each group of two or more
      is resolved by `Conflict`. */
  method Eliminate(ntBase: Symbol, st: Factoring, fs: SymbolSets, fuel: nat) returns (r: Result<Factoring, string>)
    requires st.newRules.Valid() && st.nnt.Valid()
    ensures r.Success? ==> r.value.newRules.Valid() && r.value.nnt.Valid()
    ensures r.Success? ==> ntBase in r.value.visited && Confined(st, r.value, ntBase)
    ensures fuel > 0 && ntBase in st.visited ==> r == Success(st)
    ensures fuel > 0 && ntBase !in st.visited && !Conflicting(Distinct(AltsOf(st.nnt, ntBase)), fs) ==>
              r == Success(st.(visited := st.visited + {ntBase}))
    ensures forall b :: LoopsOn(ntBase, st, fs, b) ==> r.Failure?
    ensures fuel == 0 ==> r.Failure?
    ensures r.Failure? ==> r.error == RecursionError
    decreases fuel, 0
  {
    if fuel == 0 {
      return Failure(RecursionError);
    }
    if ntBase in st.visited {
      return Success(st);
    }
    var start := st.(visited := st.visited + {ntBase});
    var alts := AltsOf(st.nnt, ntBase);
    var a := GroupFirsts(alts, fs);
    ghost var ds := Distinct(alts);
    ghost var looping := exists b :: LoopsOn(ntBase, st, fs, b);
    ghost var b0: Symbol := "";
    if looping {
      b0 :| LoopsOn(ntBase, st, fs, b0);
      LoopsEntry(ntBase, st, fs, b0, a);
      LoopsToStep(ntBase, st, fs, b0);
    }
    GroupsOf(a, ds, FirstOf(fs), ntBase, st);
    r := ResolveGroups(ntBase, a, start, fs, fuel - 1, looping, b0);
  }

  /** No FIRST symbol is shared by two alternatives. */
  predicate NoGroup(a: Dict<Symbol, seq<string>>) {
    forall x :: x in a.items ==> |a.items[x]| <= 1
  }

  /** Without a FIRST conflict every group is a single alternative. */
  lemma GroupsSingle(a: Dict<Symbol, seq<string>>, ds: seq<string>, first: string -> set<Symbol>)
    requires a.items.Keys == Firsts(ds, first)
    requires forall x :: x in a.items ==> a.items[x] == Holders(ds, first, x)
    ensures !ConflictingOn(ds, first) ==> NoGroup(a)
  {
  }

  /** A group of two or more is made of alternatives. */
  lemma GroupsNonEmpty(a: Dict<Symbol, seq<string>>, ds: seq<string>, first: string -> set<Symbol>)
    requires forall x :: x in a.items ==> a.items[x] == Holders(ds, first, x)
    ensures !NoGroup(a) ==> ds != []
  {
    if !NoGroup(a) {
      var x :| x in a.items && |a.items[x]| > 1;
      assert a.items[x][0] in ds;
    }
  }

  /** Without a FIRST conflict every group is a single alternative, and a group of two or
      more means that the base has alternatives. */
  lemma GroupsOf(a: Dict<Symbol, seq<string>>, ds: seq<string>, first: string -> set<Symbol>, ntBase: Symbol, st: Factoring)
    requires ds == Distinct(AltsOf(st.nnt, ntBase))
    requires a.items.Keys == Firsts(ds, first)
    requires forall x :: x in a.items ==> a.items[x] == Holders(ds, first, x)
    ensures !ConflictingOn(ds, first) ==> NoGroup(a)
    ensures !NoGroup(a) ==> ntBase in st.nnt.items
  {
    GroupsSingle(a, ds, first);
    GroupsNonEmpty(a, ds, first);
    if ds != [] {
      assert ds[0] in AltsOf(st.nnt, ntBase);
    }
  }

  /** The loop `for first_sym, symbols in a.items()` over the FIRST groups of the base. */
  method ResolveGroups(ntBase: Symbol, a: Dict<Symbol, seq<string>>, start: Factoring, fs: SymbolSets, fuel: nat,
                       ghost looping: bool, ghost b0: Symbol)
    returns (r: Result<Factoring, string>)
    requires start.newRules.Valid() && start.nnt.Valid() && ntBase in start.visited && a.Valid()
    requires !NoGroup(a) ==> ntBase in start.nnt.items
    requires looping ==> |a.keys| > 0 && a.keys[0] == b0 && StepLoops(ntBase, start, fs, b0, a.items[b0])
    ensures r.Success? ==> r.value.newRules.Valid() && r.value.nnt.Valid()
    ensures r.Success? ==> Confined(start, r.value, ntBase)
    ensures NoGroup(a) ==> r == Success(start)
    ensures looping ==> r.Failure?
    ensures r.Failure? ==> r.error == RecursionError
    decreases fuel, 2
  {
    var cur := start;
    var k := 0;
    while k < |a.keys|
      invariant k <= |a.keys|
      invariant cur.newRules.Valid() && cur.nnt.Valid()
      invariant ntBase in cur.visited && Confined(start, cur, ntBase)
      invariant k == 0 ==> cur == start
      invariant NoGroup(a) ==> cur == start
      invariant looping ==> k == 0
    {
      var first := a.keys[k];
      var symbols := a.items[first];
      if |symbols| > 1 {
        var res := Conflict(ntBase, first, symbols, cur, fs, fuel);
        if res.Failure? {
          return res;
        }
        ConfinedTrans(start, cur, res.value, ntBase, ntBase);
        cur := res.value;
      }
      k := k + 1;
    }
    return Success(cur);
  }

  /** The treatment of one FIRST group `symbols` of two or more alternatives of `ntBase`:
      unless its sub-nonterminal `ntBase_first` is visited, the sub-nonterminal's
      alternatives are collected, the group is replaced in the base by `first sub`, both
      entries are copied to `new_rules`, and the sub-nonterminal is treated in turn. */
  method Conflict(ntBase: Symbol, first: Symbol, symbols: seq<string>, cur: Factoring, fs: SymbolSets, fuel: nat)
    returns (r: Result<Factoring, string>)
    requires cur.newRules.Valid() && cur.nnt.Valid() && ntBase in cur.nnt.items
    ensures r.Success? ==> r.value.newRules.Valid() && r.value.nnt.Valid()
    ensures r.Success? ==> Confined(cur, r.value, ntBase)
    ensures StepLoops(ntBase, cur, fs, first, symbols) && ntBase in cur.visited ==> r.Failure?
    ensures r.Failure? ==> r.error == RecursionError
    decreases fuel, 1
  {
    var sub := SubName(ntBase, first);
    if sub in cur.visited {
      return Success(cur);
    }
    var mid := Rewrite(ntBase, first, symbols, cur);
    if StepLoops(ntBase, cur, fs, first, symbols) {
      BareSubAlternatives(symbols, cur.newRules.items, first);
      LoopsStep(ntBase, cur, fs, first, symbols, mid, sub);
    }
    r := Eliminate(sub, mid, fs, fuel);
    if r.Success? {
      ConfinedTrans(cur, mid, r.value, ntBase, sub);
    }
  }

  /** The writes of one resolved conflict: `new_non_terminals[sub_nt]` gets the collected
      alternatives, `new_non_terminals[nt_base]` has the group replaced by `first sub_nt`,
      and `new_rules` gets copies of both entries. */
  method Rewrite(ntBase: Symbol, first: Symbol, symbols: seq<string>, cur: Factoring) returns (mid: Factoring)
    requires cur.newRules.Valid() && cur.nnt.Valid() && ntBase in cur.nnt.items
    ensures mid.newRules.Valid() && mid.nnt.Valid() && mid.visited == cur.visited
    ensures var sub := SubName(ntBase, first);
      && mid.nnt.items == cur.nnt.items[sub := SubAlternatives(symbols, cur.newRules.items, first)]
                                       [ntBase := Replaced(cur.nnt.items[ntBase], symbols, first + " " + sub)]
      && mid.newRules.items == cur.newRules.items[sub := mid.nnt.items[sub]][ntBase := mid.nnt.items[ntBase]]
      && mid.newRules.items.Keys == cur.newRules.items.Keys + {sub, ntBase}
      && Confined(cur, mid, ntBase)
  {
    var sub := SubName(ntBase, first);
    var subAlts := CollectSubAlternatives(symbols, cur.newRules.items, first);
    var nnt := cur.nnt.Put(sub, subAlts);
    assert nnt.items[ntBase] == cur.nnt.items[ntBase];
    var replaced := ReplaceSublist(nnt.items[ntBase], symbols, first + " " + sub);
    nnt := nnt.Put(ntBase, replaced);
    var newRules := cur.newRules.Put(sub, nnt.items[sub]).Put(ntBase, nnt.items[ntBase]);
    mid := Factoring(newRules, nnt, cur.visited);
    RewriteWrites(cur, mid, ntBase, sub, subAlts, replaced);
  }

  /** Writing `sub` and then `base` into both dictionaries, the same values into each. */
  lemma RewriteWrites(cur: Factoring, mid: Factoring, base: Symbol, sub: Symbol, x: seq<string>, y: seq<string>)
    requires cur.newRules.Valid() && cur.nnt.Valid() && HasPrefix(base, sub) && sub != base
    requires mid.nnt == cur.nnt.Put(sub, x).Put(base, y) && mid.visited == cur.visited
    requires mid.newRules == cur.newRules.Put(sub, mid.nnt.items[sub]).Put(base, mid.nnt.items[base])
    ensures mid.newRules.Valid() && mid.nnt.Valid()
    ensures mid.nnt.items == cur.nnt.items[sub := x][base := y]
    ensures mid.nnt.items[sub] == x && mid.nnt.items[base] == y
    ensures mid.newRules.items == cur.newRules.items[sub := x][base := y]
    ensures mid.newRules.items.Keys == cur.newRules.items.Keys + {sub, base}
    ensures Confined(cur, mid, base)
  {
    PutPut(cur.nnt, sub, x, base, y);
    assert mid.nnt.items[sub] == x && mid.nnt.items[base] == y;
    PutPut(cur.newRules, sub, x, base, y);
    ConfinedWrite(cur, mid, base, sub, x, y, x, y);
  }

  // ---------------------------------------------------------------------------
  // `remove_left_recursion`

  /** The memo that `find_first` leaves for the original rules: one entry per rule, each
      holding what its productions start with directly, and no more than any solution of
      the FIRST equations. */
  ghost predicate FirstSetsOf(rules: StringRules, fs: SymbolSets) {
    var g := SplitGrammar(rules);
    fs.Keys == rules.items.Keys
    && (forall k :: k in fs ==> EntryBase(g.items, fs, k))
    && (forall f :: FirstClosed(g.items, f) ==> Below(fs, f))
  }

  /** `k` was created while factoring a group of `nt`: its name extends the group's
      `New_` base, and the suffixes of that group conflict under the FIRST sets of the
      original rules. */
  ghost predicate Introduced(rules: StringRules, nt: Symbol, k: Symbol) {
    exists prefix, fs :: Factors(rules, nt, prefix) && FirstSetsOf(rules, fs)
      && Conflicting(Distinct(SuffixList(GroupOf(rules, nt, prefix))), fs)
      && HasPrefix(BaseName(nt, prefix), k)
  }

  lemma BaseIsNew(nt: Symbol, prefix: Symbol, k: Symbol)
    requires HasPrefix(BaseName(nt, prefix), k)
    ensures HasPrefix("New_", k) && |k| > |nt|
  {
    assert HasPrefix("New_", BaseName(nt, prefix));
    PrefixTrans("New_", BaseName(nt, prefix), k);
  }

  /** The body of `for prefix, group in prefix_groups.items()` for a group of two or more:
      the `New_` base takes the suffixes, the rule loses the group and gains
      `prefix base`, and the conflicts of the base are eliminated under the FIRST sets of
      the original rules. */
  method FactorGroup(nt: Symbol, prefix: Symbol, group: seq<string>, nr: StringRules, nnt: StringRules,
                     rules: StringRules, fuel: nat)
    returns (r: Result<(StringRules, StringRules), string>, fs: SymbolSets)
    requires rules.Valid() && nr.Valid() && nnt.Valid() && nt in nr.items
    ensures FirstSetsOf(rules, fs)
    ensures r.Failure? ==> r.error == RecursionError
    ensures r.Success? ==> r.value.0.Valid() && r.value.1.Valid()
    ensures r.Success? ==> GroupDone(nt, prefix, group, nr, nnt, r.value.0, r.value.1, fs)
  {
    var st := PrepareGroup(nt, prefix, group, nr, nnt);
    fs := OriginalFirstSets(rules);
    var res := Eliminate(BaseName(nt, prefix), st, fs, fuel);
    if res.Failure? {
      return Failure(res.error), fs;
    }
    var after := res.value;
    AfterGroup(nt, prefix, group, nr, nnt, st, after, fs);
    return Success((after.newRules, after.nnt)), fs;
  }

  /** The writes before the elimination: the base takes the suffixes of the group, and
      the rule of `nt` loses the group and gains `prefix base` at its end. */
  method PrepareGroup(nt: Symbol, prefix: Symbol, group: seq<string>, nr: StringRules, nnt: StringRules)
    returns (st: Factoring)
    requires nr.Valid() && nnt.Valid() && nt in nr.items
    ensures st.newRules.Valid() && st.nnt.Valid() && st.visited == {}
    ensures st.nnt.items == nnt.items[BaseName(nt, prefix) := SuffixList(group)]
    ensures st.newRules.items == nr.items[nt := Without(nr.items[nt], group) + [prefix + " " + BaseName(nt, prefix)]]
  {
    var base := BaseName(nt, prefix);
    var alts := Suffixes(group);
    var nnt1 := nnt.Put(base, alts);
    var nr1 := nr.Put(nt, Without(nr.items[nt], group) + [prefix + " " + base]);
    st := Factoring(nr1, nnt1, {});
  }

  /** `for nt in rules: find_first(nt, rules, first_sets)` from an empty memo, on the
      original rules split into words. */
  method OriginalFirstSets(rules: StringRules) returns (fs: SymbolSets)
    requires rules.Valid()
    ensures FirstSetsOf(rules, fs)
  {
    fs := ComputeFirstSets(SplitGrammar(rules));
  }

  /** The dictionaries `nr'` and `nnt'` after the group `prefix` of `nt` is factored:
      nothing is removed, the base is a new nonterminal, the rule of `nt` has the group
      replaced by `prefix base`, and every other change is a name that extends the base,
      made only when the group's suffixes conflict under `fs`. */
  ghost predicate GroupDone(nt: Symbol, prefix: Symbol, group: seq<string>, nr: StringRules, nnt: StringRules,
                            nr': StringRules, nnt': StringRules, fs: SymbolSets)
    requires nt in nr.items
  {
    nr.items.Keys <= nr'.items.Keys && nnt.items.Keys <= nnt'.items.Keys
    && BaseName(nt, prefix) in nnt'.items
    && nr'.items[nt] == Without(nr.items[nt], group) + [prefix + " " + BaseName(nt, prefix)]
    && (forall k :: Changed(nr.items, nr'.items, k) && k != nt ==>
          k in nnt'.items && HasPrefix(BaseName(nt, prefix), k) && Conflicting(Distinct(SuffixList(group)), fs))
    && (forall k :: Changed(nnt.items, nnt'.items, k) ==> HasPrefix(BaseName(nt, prefix), k))
  }

  /** What the elimination leaves after the writes of `FactorGroup`. */
  lemma AfterGroup(nt: Symbol, prefix: Symbol, group: seq<string>, nr: StringRules, nnt: StringRules,
                   st: Factoring, after: Factoring, fs: SymbolSets)
    requires nt in nr.items
    requires st.visited == {}
    requires st.nnt.items == nnt.items[BaseName(nt, prefix) := SuffixList(group)]
    requires st.newRules.items == nr.items[nt := Without(nr.items[nt], group) + [prefix + " " + BaseName(nt, prefix)]]
    requires Confined(st, after, BaseName(nt, prefix))
    requires !Conflicting(Distinct(AltsOf(st.nnt, BaseName(nt, prefix))), fs) ==> after == st.(visited := {BaseName(nt, prefix)})
    ensures GroupDone(nt, prefix, group, nr, nnt, after.newRules, after.nnt, fs)
  {
    var base := BaseName(nt, prefix);
    assert |base| > |nt|;
    assert !Changed(st.newRules.items, after.newRules.items, nt);
    assert AltsOf(st.nnt, base) == SuffixList(group);
    forall k | Changed(nr.items, after.newRules.items, k) && k != nt
      ensures k in after.nnt.items && HasPrefix(base, k) && Conflicting(Distinct(SuffixList(group)), fs)
    {
      assert Changed(st.newRules.items, after.newRules.items, k);
    }
    forall k | Changed(nnt.items, after.nnt.items, k)
      ensures HasPrefix(base, k)
    {
      if k != base {
        assert Changed(st.nnt.items, after.nnt.items, k);
      }
    }
  }

  /** The prefix groups of the rule `nt`. */
  function GroupsOfRule(rules: StringRules, nt: Symbol): (groups: Dict<string, seq<string>>)
    requires nt in rules.items
    ensures groups.Valid()
  {
    GroupBy(rules.items[nt], FirstWord(), Itself())
  }

  /** `nr'` and `nnt'` after the first `n` prefix groups `groups` of `nt` are factored,
      starting from `nr` and `nnt`. */
  ghost predicate NtDone(rules: StringRules, nt: Symbol, groups: Dict<string, seq<string>>, n: nat,
                         nr: StringRules, nnt: StringRules, nr': StringRules, nnt': StringRules) {
    groups.Valid() && nt in nr.items && n <= |groups.keys|
    && nr.items.Keys <= nr'.items.Keys && nnt.items.Keys <= nnt'.items.Keys
    && nr'.items[nt] == FactoredUpTo(nt, nr.items[nt], groups, n)
    && (forall k :: Changed(nr.items, nr'.items, k) && k != nt ==> k in nnt'.items && Introduced(rules, nt, k))
    && (forall k :: Changed(nnt.items, nnt'.items, k) ==>
          exists prefix :: Factors(rules, nt, prefix) && HasPrefix(BaseName(nt, prefix), k))
    && (forall i :: 0 <= i < n && |groups.items[groups.keys[i]]| > 1 ==> BaseName(nt, groups.keys[i]) in nnt'.items)
  }

  /** Factoring one more group of two or more keeps `NtDone`. */
  lemma NtStep(rules: StringRules, nt: Symbol, groups: Dict<string, seq<string>>, j: nat, nr: StringRules, nnt: StringRules,
               a0: StringRules, a1: StringRules, b0: StringRules, b1: StringRules, fs: SymbolSets)
    requires NtDone(rules, nt, groups, j, nr, nnt, a0, a1) && j < |groups.keys|
    requires nt in rules.items && groups == GroupsOfRule(rules, nt)
    requires |groups.items[groups.keys[j]]| > 1 && nt in a0.items
    requires GroupDone(nt, groups.keys[j], groups.items[groups.keys[j]], a0, a1, b0, b1, fs)
    requires FirstSetsOf(rules, fs)
    ensures NtDone(rules, nt, groups, j + 1, nr, nnt, b0, b1)
  {
    var prefix := groups.keys[j];
    var group := groups.items[prefix];
    assert Factors(rules, nt, prefix) && GroupOf(rules, nt, prefix) == group;
    forall k | Changed(nr.items, b0.items, k) && k != nt
      ensures k in b1.items && Introduced(rules, nt, k)
    {
      if Changed(a0.items, b0.items, k) {
        assert HasPrefix(BaseName(nt, prefix), k) && Conflicting(Distinct(SuffixList(group)), fs);
      } else {
        assert Changed(nr.items, a0.items, k);
      }
    }
    forall k | Changed(nnt.items, b1.items, k)
      ensures exists prefix :: Factors(rules, nt, prefix) && HasPrefix(BaseName(nt, prefix), k)
    {
      if Changed(a1.items, b1.items, k) {
        assert HasPrefix(BaseName(nt, prefix), k);
      } else {
        assert Changed(nnt.items, a1.items, k);
      }
    }
  }

  /** Before the first group nothing is done. */
  lemma NtStart(rules: StringRules, nt: Symbol, groups: Dict<string, seq<string>>, nr: StringRules, nnt: StringRules)
    requires groups.Valid() && nt in nr.items
    ensures NtDone(rules, nt, groups, 0, nr, nnt, nr, nnt)
  {
  }

  /** A group of one production is left as it is. */
  lemma NtSkip(rules: StringRules, nt: Symbol, groups: Dict<string, seq<string>>, j: nat, nr: StringRules, nnt: StringRules,
               a0: StringRules, a1: StringRules)
    requires NtDone(rules, nt, groups, j, nr, nnt, a0, a1) && j < |groups.keys|
    requires |groups.items[groups.keys[j]]| <= 1
    ensures NtDone(rules, nt, groups, j + 1, nr, nnt, a0, a1)
  {
    assert FactoredUpTo(nt, nr.items[nt], groups, j + 1) == FactoredUpTo(nt, nr.items[nt], groups, j);
  }

  /** The body of `for prefix, group in prefix_groups.items()`. */
  method FactorPrefix(nt: Symbol, rules: StringRules, groups: Dict<string, seq<string>>, j: nat,
                      nr: StringRules, nnt: StringRules, a0: StringRules, a1: StringRules, fuel: nat)
    returns (r: Result<(StringRules, StringRules), string>)
    requires rules.Valid() && a0.Valid() && a1.Valid() && nt in rules.items && groups == GroupsOfRule(rules, nt)
    requires NtDone(rules, nt, groups, j, nr, nnt, a0, a1) && j < |groups.keys| && nt in a0.items
    ensures r.Failure? ==> r.error == RecursionError
    ensures r.Success? ==> r.value.0.Valid() && r.value.1.Valid()
    ensures r.Success? ==> NtDone(rules, nt, groups, j + 1, nr, nnt, r.value.0, r.value.1)
  {
    var prefix := groups.keys[j];
    var group := groups.items[prefix];
    if |group| > 1 {
      var res, fs := FactorGroup(nt, prefix, group, a0, a1, rules, fuel);
      if res.Failure? {
        return Failure(res.error);
      }
      NtStep(rules, nt, groups, j, nr, nnt, a0, a1, res.value.0, res.value.1, fs);
      return res;
    }
    NtSkip(rules, nt, groups, j, nr, nnt, a0, a1);
    return Success((a0, a1));
  }

  /** The body of `for non_terminal, productions in rules.items()`: the productions are
      grouped by first word, and every group of two or more is factored. */
  method FactorNonterminal(nt: Symbol, rules: StringRules, nr: StringRules, nnt: StringRules, fuel: nat)
    returns (r: Result<(StringRules, StringRules), string>)
    requires rules.Valid() && nr.Valid() && nnt.Valid() && nt in rules.items && nt in nr.items
    ensures r.Failure? ==> r.error == RecursionError
    ensures r.Success? ==> r.value.0.Valid() && r.value.1.Valid()
    ensures r.Success? ==>
              NtDone(rules, nt, GroupsOfRule(rules, nt), |GroupsOfRule(rules, nt).keys|, nr, nnt, r.value.0, r.value.1)
  {
    var groups := PrefixGroups(rules.items[nt]);
    assert groups == GroupsOfRule(rules, nt);
    var cur := (nr, nnt);
    NtStart(rules, nt, groups, nr, nnt);
    for j := 0 to |groups.keys|
      invariant cur.0.Valid() && cur.1.Valid()
      invariant NtDone(rules, nt, groups, j, nr, nnt, cur.0, cur.1)
    {
      var res := FactorPrefix(nt, rules, groups, j, nr, nnt, cur.0, cur.1, fuel);
      if res.Failure? {
        return res;
      }
      cur := res.value;
    }
    return Success(cur);
  }

  // ---------------------------------------------------------------------------
  // `remove_left_recursion(rules)`

  /** No nonterminal of the input is named like a factored one. */
  predicate NoNewNames(rules: StringRules) {
    forall k :: k in rules.items ==> !HasPrefix("New_", k)
  }

  /** `new_rules` and `new_non_terminals` after the first `n` nonterminals of `rules`
      are factored: every input nonterminal is still defined; a new rule is a new
      nonterminal introduced by some factoring; every new nonterminal extends the base of
      a factored group; the base of every factored group among the first `n` is a new
      nonterminal; and, when no input name starts with `New_`, the first `n` rules are
      factored and the others unchanged. */
  ghost predicate TopDone(rules: StringRules, n: nat, nr: StringRules, nnt: StringRules)
    requires rules.Valid() && n <= |rules.keys|
  {
    rules.items.Keys <= nr.items.Keys
    && (forall k :: k in nr.items && k !in rules.items ==> k in nnt.items && exists nt :: Introduced(rules, nt, k))
    && (forall k :: k in nnt.items ==> exists nt, prefix :: Factors(rules, nt, prefix) && HasPrefix(BaseName(nt, prefix), k))
    && (forall i, prefix :: 0 <= i < n && Factors(rules, rules.keys[i], prefix) ==> BaseName(rules.keys[i], prefix) in nnt.items)
    && (NoNewNames(rules) ==>
          forall i :: 0 <= i < |rules.keys| ==>
            nr.items[rules.keys[i]] == if i < n then Factored(rules.keys[i], rules.items[rules.keys[i]]) else rules.items[rules.keys[i]])
  }

  lemma TopStart(rules: StringRules)
    requires rules.Valid()
    ensures TopDone(rules, 0, rules, Empty())
  {
  }

  /** The new rules and new nonterminals after one more nonterminal. */
  lemma TopStepNames(rules: StringRules, n: nat, nr: StringRules, nnt: StringRules, nr': StringRules, nnt': StringRules)
    requires rules.Valid() && n < |rules.keys| && TopDone(rules, n, nr, nnt)
    requires NtDone(rules, rules.keys[n], GroupsOfRule(rules, rules.keys[n]), |GroupsOfRule(rules, rules.keys[n]).keys|, nr, nnt, nr', nnt')
    ensures forall k :: k in nr'.items && k !in rules.items ==> k in nnt'.items && exists nt :: Introduced(rules, nt, k)
    ensures forall k :: k in nnt'.items ==> exists nt, prefix :: Factors(rules, nt, prefix) && HasPrefix(BaseName(nt, prefix), k)
  {
    var nt := rules.keys[n];
    forall k | k in nr'.items && k !in rules.items
      ensures k in nnt'.items && exists nt :: Introduced(rules, nt, k)
    {
      if !(k in nr.items) {
        assert Changed(nr.items, nr'.items, k) && k != nt;
      } else if Changed(nr.items, nr'.items, k) {
        assert k != nt;
      }
    }
    forall k | k in nnt'.items
      ensures exists nt, prefix :: Factors(rules, nt, prefix) && HasPrefix(BaseName(nt, prefix), k)
    {
      if k !in nnt.items || Changed(nnt.items, nnt'.items, k) {
        assert Changed(nnt.items, nnt'.items, k);
      }
    }
  }

  /** The bases of the groups of the nonterminal just factored are new nonterminals. */
  lemma TopStepBases(rules: StringRules, n: nat, nr: StringRules, nnt: StringRules, nr': StringRules, nnt': StringRules)
    requires rules.Valid() && n < |rules.keys| && TopDone(rules, n, nr, nnt)
    requires NtDone(rules, rules.keys[n], GroupsOfRule(rules, rules.keys[n]), |GroupsOfRule(rules, rules.keys[n]).keys|, nr, nnt, nr', nnt')
    ensures forall i, prefix :: 0 <= i < n + 1 && Factors(rules, rules.keys[i], prefix) ==> BaseName(rules.keys[i], prefix) in nnt'.items
  {
    var nt := rules.keys[n];
    var groups := GroupsOfRule(rules, nt);
    forall i, prefix | 0 <= i < n + 1 && Factors(rules, rules.keys[i], prefix)
      ensures BaseName(rules.keys[i], prefix) in nnt'.items
    {
      if i == n {
        assert prefix in groups.items;
        var j :| 0 <= j < |groups.keys| && groups.keys[j] == prefix;
      }
    }
  }

  /** With no `New_` input names, the nonterminal just factored holds its factored
      productions and no other input rule changes. */
  lemma TopStepRules(rules: StringRules, n: nat, nr: StringRules, nnt: StringRules, nr': StringRules, nnt': StringRules)
    requires rules.Valid() && n < |rules.keys| && TopDone(rules, n, nr, nnt) && NoNewNames(rules)
    requires NtDone(rules, rules.keys[n], GroupsOfRule(rules, rules.keys[n]), |GroupsOfRule(rules, rules.keys[n]).keys|, nr, nnt, nr', nnt')
    ensures forall i :: 0 <= i < |rules.keys| ==>
              nr'.items[rules.keys[i]] == if i < n + 1 then Factored(rules.keys[i], rules.items[rules.keys[i]]) else rules.items[rules.keys[i]]
  {
    var nt := rules.keys[n];
    forall i | 0 <= i < |rules.keys|
      ensures nr'.items[rules.keys[i]] == if i < n + 1 then Factored(rules.keys[i], rules.items[rules.keys[i]]) else rules.items[rules.keys[i]]
    {
      var k := rules.keys[i];
      if i != n {
        assert k != nt;
        if Changed(nr.items, nr'.items, k) {
          var nt', prefix, fs :| Factors(rules, nt', prefix) && FirstSetsOf(rules, fs) && HasPrefix(BaseName(nt', prefix), k);
          BaseIsNew(nt', prefix, k);
          assert false;
        }
      }
    }
  }

  /** `remove_left_recursion(rules)`, returning `new_rules` together with
      `new_non_terminals`; `fuel` bounds the depth of the recursive eliminations. */
  method RemoveLeftRecursion(rules: StringRules, fuel: nat) returns (r: Result<(StringRules, StringRules), string>)
    requires rules.Valid()
    ensures r.Failure? ==> r.error == RecursionError
    ensures r.Success? ==> r.value.0.Valid() && r.value.1.Valid()
    ensures r.Success? ==> TopDone(rules, |rules.keys|, r.value.0, r.value.1)
  {
    var nr, nnt := rules, Empty();
    TopStart(rules);
    for n := 0 to |rules.keys|
      invariant nr.Valid() && nnt.Valid()
      invariant TopDone(rules, n, nr, nnt)
    {
      var nt := rules.keys[n];
      var res := FactorNonterminal(nt, rules, nr, nnt, fuel);
      if res.Failure? {
        return Failure(res.error);
      }
      TopStepNames(rules, n, nr, nnt, res.value.0, res.value.1);
      TopStepBases(rules, n, nr, nnt, res.value.0, res.value.1);
      if NoNewNames(rules) {
        TopStepRules(rules, n, nr, nnt, res.value.0, res.value.1);
      }
      nr, nnt := res.value.0, res.value.1;
    }
    return Success((nr, nnt));
  }

  // ---------------------------------------------------------------------------
  // The new nonterminals are not merged back

  /** A rule `nt -> a b | a c`: one group of two with first word `a`. */
  function TwoAlternatives(nt: Symbol, a: string, b: string, c: string): StringRules {
    Dict([nt], map[nt := [a + " " + b, a + " " + c]])
  }

  /** The words `b` and `c` are distinct terminals and `nt` is not named like a factored
      nonterminal. */
  predicate Plain(nt: Symbol, a: string, b: string, c: string) {
    IsWord(a) && IsWord(b) && IsWord(c) && b != c && b != nt && c != nt && !HasPrefix("New_", nt)
  }

  lemma TwoFirstWords(a: string, b: string, c: string)
    requires IsWord(a) && IsWord(b) && IsWord(c)
    ensures FirstWord()(a + " " + b) == Some(a) && FirstWord()(a + " " + c) == Some(a)
  {
    SplitPair(a, b);
    SplitPair(a, c);
  }

  /** The productions form the single group `a`. */
  lemma TwoGroups(nt: Symbol, a: string, b: string, c: string)
    requires Plain(nt, a, b, c)
    ensures GroupsOfRule(TwoAlternatives(nt, a, b, c), nt) == Dict([a], map[a := [a + " " + b, a + " " + c]])
    ensures GroupBy(TwoAlternatives(nt, a, b, c).items[nt], FirstWord(), Itself()) == Dict([a], map[a := [a + " " + b, a + " " + c]])
  {
    TwoFirstWords(a, b, c);
    GroupByTwo(a + " " + b, a + " " + c, FirstWord(), Itself(), a);
    assert TwoAlternatives(nt, a, b, c).items[nt] == [a + " " + b, a + " " + c];
  }

  /** Removing a group that covers every production leaves nothing. */
  lemma {:induction false} WithoutCovered(ps: seq<string>, group: seq<string>)
    requires forall p :: p in ps ==> p in group
    ensures Without(ps, group) == []
    decreases |ps|
  {
    if ps != [] {
      WithoutCovered(ps[..|ps| - 1], group);
      assert ps[|ps| - 1] in ps;
    }
  }

  /** The factored rule is `nt -> a New_{nt}_{a}`. */
  lemma TwoFactored(nt: Symbol, a: string, b: string, c: string)
    requires Plain(nt, a, b, c)
    ensures Factored(nt, [a + " " + b, a + " " + c]) == [a + " " + BaseName(nt, a)]
  {
    var ps := [a + " " + b, a + " " + c];
    var g := Dict([a], map[a := ps]);
    TwoGroups(nt, a, b, c);
    assert TwoAlternatives(nt, a, b, c).items[nt] == ps;
    assert GroupBy(ps, FirstWord(), Itself()) == g;
    assert FactoredUpTo(nt, ps, g, 0) == ps;
    WithoutCovered(ps, ps);
    assert FactoredUpTo(nt, ps, g, 1) == [] + [a + " " + BaseName(nt, a)];
  }

  /** The suffixes of the group are `b` and `c`. */
  lemma TwoSuffixes(a: string, b: string, c: string)
    requires IsWord(a) && IsWord(b) && IsWord(c) && b != c
    ensures Distinct(SuffixList([a + " " + b, a + " " + c])) == [b, c]
  {
    SplitPair(a, b);
    SplitPair(a, c);
    SplitOfWord(b);
    SplitOfWord(c);
    assert SuffixOf(a + " " + b) == b && SuffixOf(a + " " + c) == c;
    var ds := [b, c];
    assert SuffixList([a + " " + b, a + " " + c]) == ds;
    assert ds[..1] == [b] && ds[..1][..0] == [];
  }

  /** Two alternatives whose FIRST sets are their own distinct first words never
      conflict. */
  lemma TwoHolders(b: string, c: string, first: string -> set<Symbol>)
    requires first(b) == {b} && first(c) == {c} && b != c
    ensures !ConflictingOn([b, c], first)
  {
    var ds := [b, c];
    assert ds[..1] == [b] && ds[..1][..0] == [];
    forall x
      ensures |Holders(ds, first, x)| <= 1
    {
      assert Holders(ds, first, x) == Holders([b], first, x) + (if x == c then [c] else []);
    }
  }

  /** Under the FIRST sets of the rule, the suffixes `b` and `c` share no FIRST symbol. */
  lemma TwoNoConflict(nt: Symbol, a: string, b: string, c: string, fs: SymbolSets)
    requires Plain(nt, a, b, c) && FirstSetsOf(TwoAlternatives(nt, a, b, c), fs)
    ensures !Conflicting(Distinct(SuffixList([a + " " + b, a + " " + c])), fs)
  {
    TwoSuffixes(a, b, c);
    SplitOfWord(b);
    SplitOfWord(c);
    assert b !in fs && c !in fs;
    TwoHolders(b, c, FirstOf(fs));
  }

  /** The one group of `nt -> a b | a c` does not conflict. */
  lemma TwoGroupNoConflict(nt: Symbol, a: string, b: string, c: string, nt': Symbol, prefix: Symbol, fs: SymbolSets)
    requires Plain(nt, a, b, c)
    requires Factors(TwoAlternatives(nt, a, b, c), nt', prefix) && FirstSetsOf(TwoAlternatives(nt, a, b, c), fs)
    ensures !Conflicting(Distinct(SuffixList(GroupOf(TwoAlternatives(nt, a, b, c), nt', prefix))), fs)
  {
    TwoGroups(nt, a, b, c);
    assert nt' == nt;
    assert prefix in map[a := [a + " " + b, a + " " + c]];
    assert GroupOf(TwoAlternatives(nt, a, b, c), nt', prefix) == [a + " " + b, a + " " + c];
    TwoNoConflict(nt, a, b, c, fs);
  }

  /** No name is introduced for `nt -> a b | a c`. */
  lemma TwoNothingIntroduced(nt: Symbol, a: string, b: string, c: string)
    requires Plain(nt, a, b, c)
    ensures forall nt', k :: !Introduced(TwoAlternatives(nt, a, b, c), nt', k)
  {
    var rules := TwoAlternatives(nt, a, b, c);
    forall nt', k
      ensures !Introduced(rules, nt', k)
    {
      if Introduced(rules, nt', k) {
        var prefix, fs :| Factors(rules, nt', prefix) && FirstSetsOf(rules, fs)
          && Conflicting(Distinct(SuffixList(GroupOf(rules, nt', prefix))), fs)
          && HasPrefix(BaseName(nt', prefix), k);
        TwoGroupNoConflict(nt, a, b, c, nt', prefix, fs);
      }
    }
  }

  /** `remove_left_recursion` as written on `nt -> a b | a c`: the rule becomes
      `nt -> a New_{nt}_{a}`. */
  lemma TwoRule(nt: Symbol, a: string, b: string, c: string, nr: StringRules, nnt: StringRules)
    requires Plain(nt, a, b, c) && TopDone(TwoAlternatives(nt, a, b, c), 1, nr, nnt)
    ensures nr.items[nt] == [a + " " + BaseName(nt, a)]
  {
    var rules := TwoAlternatives(nt, a, b, c);
    assert rules.keys[0] == nt && NoNewNames(rules);
    TwoFactored(nt, a, b, c);
  }

  /** ... and `New_{nt}_{a}` is a new nonterminal of `new_non_terminals` ... */
  lemma BaseIsNonterminal(nt: Symbol, a: string, b: string, c: string, nr: StringRules, nnt: StringRules)
    requires Plain(nt, a, b, c) && TopDone(TwoAlternatives(nt, a, b, c), 1, nr, nnt)
    ensures BaseName(nt, a) in nnt.items
  {
    var rules := TwoAlternatives(nt, a, b, c);
    TwoGroups(nt, a, b, c);
    assert rules.keys[0] == nt && Factors(rules, nt, a);
  }

  /** ... but has no rule in `new_rules`, the dictionary the function returns. */
  lemma BaseLeftUndefined(nt: Symbol, a: string, b: string, c: string, nr: StringRules, nnt: StringRules)
    requires Plain(nt, a, b, c) && TopDone(TwoAlternatives(nt, a, b, c), 1, nr, nnt)
    ensures BaseName(nt, a) !in nr.items
  {
    assert |BaseName(nt, a)| > |nt|;
    TwoNothingIntroduced(nt, a, b, c);
  }

  /** The merge the source leaves commented out: `new_rules[nt] = prods` for every new
      nonterminal in insertion order. */
  function MergeNew(nr: StringRules, nnt: StringRules): (m: StringRules)
    requires nnt.Valid()
    ensures nr.Valid() ==> m.Valid()
    ensures m.items.Keys == nr.items.Keys + nnt.items.Keys
    ensures forall k :: k in nnt.items ==> m.items[k] == nnt.items[k]
    ensures forall k :: k in nr.items && k !in nnt.items ==> m.items[k] == nr.items[k]
  {
    Update(nr, nnt)
  }

  /** After the merge every factored group's base has a rule, and, with no `New_` input
      names, every input nonterminal keeps its factored productions. */
  lemma MergedDefinesBases(rules: StringRules, nr: StringRules, nnt: StringRules)
    requires rules.Valid() && nnt.Valid() && TopDone(rules, |rules.keys|, nr, nnt)
    ensures forall nt, prefix :: Factors(rules, nt, prefix) ==> BaseName(nt, prefix) in MergeNew(nr, nnt).items
    ensures rules.items.Keys <= MergeNew(nr, nnt).items.Keys
    ensures NoNewNames(rules) ==>
              forall nt :: nt in rules.items ==> MergeNew(nr, nnt).items[nt] == Factored(nt, rules.items[nt])
  {
    forall nt, prefix | Factors(rules, nt, prefix)
      ensures BaseName(nt, prefix) in MergeNew(nr, nnt).items
    {
      var i :| 0 <= i < |rules.keys| && rules.keys[i] == nt;
    }
    if NoNewNames(rules) {
      forall nt | nt in rules.items
        ensures MergeNew(nr, nnt).items[nt] == Factored(nt, rules.items[nt])
      {
        var i :| 0 <= i < |rules.keys| && rules.keys[i] == nt;
        if nt in nnt.items {
          var nt', prefix :| Factors(rules, nt', prefix) && HasPrefix(BaseName(nt', prefix), nt);
          BaseIsNew(nt', prefix, nt);
          assert false;
        }
      }
    }
  }

  /** With the merge, the base of `nt -> a b | a c` is defined. */
  lemma BaseDefinedAfterMerge(nt: Symbol, a: string, b: string, c: string, nr: StringRules, nnt: StringRules)
    requires Plain(nt, a, b, c) && nnt.Valid() && TopDone(TwoAlternatives(nt, a, b, c), 1, nr, nnt)
    ensures MergeNew(nr, nnt).items[nt] == [a + " " + BaseName(nt, a)]
    ensures BaseName(nt, a) in MergeNew(nr, nnt).items
  {
    var rules := TwoAlternatives(nt, a, b, c);
    assert NoNewNames(rules) && nt in rules.items;
    TwoGroups(nt, a, b, c);
    assert Factors(rules, nt, a);
    MergedDefinesBases(rules, nr, nnt);
    TwoFactored(nt, a, b, c);
  }

  // ---------------------------------------------------------------------------
  // `parsing_table(final_rules)`

  /** Why the earlier `parsing_table` fails: the recursion of the factoring runs out, or
      the table construction fails as in the package. */
  datatype LegacyError = Recursion | TableFailed(tableError: TableError)

  /** `parsing_table(final_rules)`: the factoring, then FIRST of every nonterminal of the
      returned `new_rules`, FOLLOW from "S*" with the next-symbol lookahead, and the
      table. As the merge loop is commented out, the table is built from `new_rules`
      alone, without the new nonterminals. It yields, as ghost values, the two
      dictionaries of the factoring and the FIRST and FOLLOW sets. */
  method ParsingTable(rules: StringRules, fuel: nat)
    returns (r: Result<Table, LegacyError>, ghost nr: StringRules, ghost nnt: StringRules,
             ghost fs: SymbolSets, ghost fo: SymbolSets)
    requires rules.Valid()
    ensures r != Failure(Recursion) ==> nr.Valid() && nnt.Valid() && TopDone(rules, |rules.keys|, nr, nnt)
    ensures r != Failure(Recursion) ==> LegacyBuilt(SplitGrammar(nr), r, fs, fo)
  {
    nr, nnt, fs, fo := rules, Empty(), map[], map[];
    var factored := RemoveLeftRecursion(rules, fuel);
    if factored.Failure? {
      return Failure(Recursion), nr, nnt, fs, fo;
    }
    nr, nnt := factored.value.0, factored.value.1;
    var g := SplitGrammar(factored.value.0);
    r, fs, fo := BuildTable(g);
  }

  /** What the table construction states about a grammar `g`, its FIRST sets `fs` and
      FOLLOW sets `fo`. */
  ghost predicate LegacyBuilt(g: Grammar, r: Result<Table, LegacyError>, fs: SymbolSets, fo: SymbolSets) {
    fs.Keys == g.items.Keys && (forall f :: FirstClosed(g.items, f) ==> Below(fs, f))
    && (r == Failure(TableFailed(MissingStart)) <==> StartSymbol !in g.items)
    && (StartSymbol in g.items ==>
          fo.Keys == g.items.Keys && FollowClosed(NextSymbol, g.items, fs, StartSymbol, fo)
          && forall f :: FollowClosed(NextSymbol, g.items, fs, StartSymbol, f) ==> Below(fo, f))
    && (r.Success? <==>
          StartSymbol in g.items && forall nt :: nt in g.items ==> Disjoint(CellSets(fs, fo[nt], g.items[nt])))
    && (r.Success? ==> r.value.Keys == g.items.Keys
                       && forall nt :: nt in g.items ==> RowIs(fs, fo[nt], g.items[nt], r.value[nt]))
    && (r.Failure? ==> r.error.TableFailed?)
    && (r.Failure? && r.error.TableFailed? && r.error.tableError.CellConflict? ==>
          var c := r.error.tableError.conflict;
          c.nonterminal in g.items && WrittenTwice(CellSets(fs, fo[c.nonterminal], g.items[c.nonterminal]), c.terminal))
  }

  /** FIRST, FOLLOW with the next-symbol lookahead, and the table of a split grammar. */
  method BuildTable(g: Grammar) returns (r: Result<Table, LegacyError>, ghost fs: SymbolSets, ghost fo: SymbolSets)
    requires g.Valid()
    ensures LegacyBuilt(g, r, fs, fo)
  {
    var first := ComputeFirstSets(g);
    fs := first;
    var follow := Follow(NextSymbol, g, first, StartSymbol);
    if follow.Failure? {
      fo := map[];
      return Failure(TableFailed(MissingStart)), fs, fo;
    }
    fo := follow.value;
    var table := ComputeParsingTable(g, first, follow.value);
    if table.Failure? {
      return Failure(TableFailed(CellConflict(table.error))), fs, fo;
    }
    return Success(table.value), fs, fo;
  }

  /** As written, a table built for `nt -> a b | a c` has no row for `New_{nt}_{a}`,
      the nonterminal the factored rule of `nt` ends with. */
  lemma BaseHasNoRow(nt: Symbol, a: string, b: string, c: string, nr: StringRules, nnt: StringRules,
                     r: Result<Table, LegacyError>, fs: SymbolSets, fo: SymbolSets)
    requires Plain(nt, a, b, c) && TopDone(TwoAlternatives(nt, a, b, c), 1, nr, nnt)
    requires LegacyBuilt(SplitGrammar(nr), r, fs, fo) && r.Success?
    ensures BaseName(nt, a) !in r.value
  {
    BaseLeftUndefined(nt, a, b, c, nr, nnt);
  }
}
