/** The predictive-parsing construction of the package: FIRST sets computed by memoised
    recursion, FOLLOW sets by a fixpoint over every occurrence of a nonterminal, and the
    LL(1) table that refuses any doubly claimed cell (Aho, Lam, Sethi and Ullman,
    "Compilers", 2nd edition, sections 4.4.2 and 4.4.3, Algorithm 4.31). */
module LL1 {
  import opened Wrappers
  import opened Dicts

  type Symbol = string
  /** A production body: the list of its symbols; `[]` is the empty body. */
  type Rule = seq<Symbol>
  type Productions = map<Symbol, seq<Rule>>
  /** A grammar in the order its nonterminals were inserted. */
  type Grammar = Dict<Symbol, seq<Rule>>
  /** FIRST or FOLLOW sets, keyed by nonterminal. */
  type SymbolSets = map<Symbol, set<Symbol>>
  /** One row per nonterminal: lookahead terminal to the body to expand. */
  type Table = map<Symbol, map<Symbol, Rule>>

  const Epsilon: Symbol := "\U{3B5}"
  const EndMarker: Symbol := "$"
  const StartSymbol: Symbol := "S*"

  /** The set stored for `x`, or nothing. */
  function Val(f: SymbolSets, x: Symbol): set<Symbol> {
    if x in f then f[x] else {}
  }

  /** Every set of `a` is contained in the set of `b` for the same key. */
  predicate Below(a: SymbolSets, b: SymbolSets) {
    forall k :: k in a ==> k in b && a[k] <= b[k]
  }

  // ---------------------------------------------------------------------------
  // FIRST of a symbol string, as `compute_first_of_string` computes it

  /** The first `k` symbols of `s` are all known and nullable in `fs`. */
  predicate NullablePrefix(s: Rule, k: nat, fs: SymbolSets) {
    forall i :: 0 <= i < k && i < |s| ==> s[i] in fs && Epsilon in fs[s[i]]
  }

  /** What symbol `y` adds to a FIRST scan: its known set without epsilon, or itself
      when it has no entry (it is then taken as a terminal). */
  predicate Contributes(y: Symbol, fs: SymbolSets, x: Symbol) {
    if y in fs then x in fs[y] && x != Epsilon else x == y
  }

  /** FIRST of a symbol string. A symbol with an entry in `fs` contributes its set without
      epsilon and the scan goes on only if that set holds epsilon; the first symbol with
      no entry is added and ends the scan; epsilon is added when the scan runs off the
      end. */
  function FirstOfString(symbols: Rule, fs: SymbolSets): (r: set<Symbol>)
    ensures symbols == [] ==> r == {Epsilon}
    ensures symbols != [] && symbols[0] !in fs ==> r == {symbols[0]}
    decreases |symbols|
  {
    if symbols == [] then {Epsilon}
    else if symbols[0] in fs then
      (fs[symbols[0]] - {Epsilon})
      + (if Epsilon in fs[symbols[0]] then FirstOfString(symbols[1..], fs) else {})
    else {symbols[0]}
  }

  /** Membership in FIRST of a string: epsilon iff every symbol is nullable, or a
      contribution of some symbol reached through a nullable prefix. */
  lemma {:induction false} FirstOfStringMember(s: Rule, fs: SymbolSets, x: Symbol)
    ensures x in FirstOfString(s, fs) <==>
      (x == Epsilon && NullablePrefix(s, |s|, fs))
      || (exists k :: 0 <= k < |s| && NullablePrefix(s, k, fs) && Contributes(s[k], fs, x))
    decreases |s|
  {
    if s == [] {
    } else {
      var rest := s[1..];
      FirstOfStringMember(rest, fs, x);
      var y := s[0];
      if x in FirstOfString(s, fs) && !(y in fs && x in fs[y] && x != Epsilon) && y in fs {
        assert Epsilon in fs[y] && x in FirstOfString(rest, fs);
        if x == Epsilon && NullablePrefix(rest, |rest|, fs) {
          assert NullablePrefix(s, |s|, fs);
        } else {
          var k :| 0 <= k < |rest| && NullablePrefix(rest, k, fs) && Contributes(rest[k], fs, x);
          assert NullablePrefix(s, k + 1, fs) && Contributes(s[k + 1], fs, x);
        }
      }
      if x in FirstOfString(s, fs) && (y !in fs || (x in fs[y] && x != Epsilon)) {
        assert NullablePrefix(s, 0, fs) && Contributes(s[0], fs, x);
      }
      if x == Epsilon && NullablePrefix(s, |s|, fs) {
        assert NullablePrefix(rest, |rest|, fs);
      }
      if exists k :: 0 <= k < |s| && NullablePrefix(s, k, fs) && Contributes(s[k], fs, x) {
        var k :| 0 <= k < |s| && NullablePrefix(s, k, fs) && Contributes(s[k], fs, x);
        if k > 0 {
          assert NullablePrefix(rest, k - 1, fs) && Contributes(rest[k - 1], fs, x);
        }
      }
    }
  }

  // ---------------------------------------------------------------------------
  // FIRST of a production, as `calculate_first_of_sequence` computes it while
  // `find_first` fills the memo: a symbol is a nonterminal iff it has productions.

  function SeqFirst(symbols: Rule, g: Productions, f: SymbolSets): set<Symbol>
    decreases |symbols|
  {
    if symbols == [] then {Epsilon}
    else if symbols[0] in g then
      (Val(f, symbols[0]) - {Epsilon})
      + (if Epsilon in Val(f, symbols[0]) then SeqFirst(symbols[1..], g, f) else {})
    else {symbols[0]}
  }

  /** A production spelled `['ε']` stands for the empty body. */
  function ProdFirst(p: Rule, g: Productions, f: SymbolSets): set<Symbol> {
    if p == [Epsilon] then {Epsilon} else SeqFirst(p, g, f)
  }

  /** `f` is a solution of the FIRST equations: every production's FIRST is included
      in its nonterminal's set. The true FIRST sets are the least such `f`. */
  predicate FirstClosed(g: Productions, f: SymbolSets) {
    g.Keys <= f.Keys
    && forall nt, j :: nt in g && 0 <= j < |g[nt]| ==> ProdFirst(g[nt][j], g, f) <= f[nt]
  }

  lemma {:induction false} SeqFirstMono(s: Rule, g: Productions, a: SymbolSets, b: SymbolSets)
    requires Below(a, b)
    ensures SeqFirst(s, g, a) <= SeqFirst(s, g, b)
    decreases |s|
  {
    if s != [] && s[0] in g {
      assert Val(a, s[0]) <= Val(b, s[0]);
      SeqFirstMono(s[1..], g, a, b);
    }
  }

  /** Once every nonterminal has an entry, the two FIRST scans agree. */
  lemma {:induction false} SeqFirstIsFirstOfString(s: Rule, g: Productions, fs: SymbolSets)
    requires fs.Keys == g.Keys
    ensures SeqFirst(s, g, fs) == FirstOfString(s, fs)
    decreases |s|
  {
    if s != [] { SeqFirstIsFirstOfString(s[1..], g, fs); }
  }

  /** An entry `fs[k]` built by `find_first` holds epsilon for an `['ε']` production and
      the leading terminal of every production that starts with one. */
  predicate EntryBase(g: Productions, fs: SymbolSets, k: Symbol) {
    k in g && k in fs
    && forall j :: 0 <= j < |g[k]| ==>
         (g[k][j] == [Epsilon] ==> Epsilon in fs[k])
         && (g[k][j] != [Epsilon] && g[k][j] != [] && g[k][j][0] !in g ==> g[k][j][0] in fs[k])
         && (g[k][j] == [] ==> Epsilon in fs[k])
  }

  /** `find_first(symbol, productions, first_sets)`. `fs` is the memo before the call and
      `fs'` after it; entries present before are never changed, and every set stored is
      included in every solution of the FIRST equations that includes the memo. */
  method FindFirst(sym: Symbol, g: Productions, fs: SymbolSets) returns (r: set<Symbol>, fs': SymbolSets)
    ensures fs.Keys <= fs'.Keys <= fs.Keys + g.Keys
    ensures forall k :: k in fs ==> fs'[k] == fs[k]
    ensures sym in g ==> sym in fs'
    ensures r == if sym in fs then fs[sym] else if sym in g then fs'[sym] else {sym}
    ensures forall k :: k in fs' && k !in fs ==> EntryBase(g, fs', k)
    ensures forall f :: FirstClosed(g, f) && Below(fs, f) ==> Below(fs', f)
    decreases g.Keys - fs.Keys, 0, 0
  {
    if sym in fs {
      return fs[sym], fs;
    }
    if sym !in g {
      return {sym}, fs;
    }
    fs' := fs[sym := {}];
    var prods := g[sym];
    var j := 0;
    while j < |prods|
      invariant 0 <= j <= |prods|
      invariant fs.Keys + {sym} <= fs'.Keys <= fs.Keys + g.Keys
      invariant forall k :: k in fs ==> fs'[k] == fs[k]
      invariant forall k :: k in fs' && k !in fs && k != sym ==> EntryBase(g, fs', k)
      invariant forall i :: 0 <= i < j ==>
                  (prods[i] == [Epsilon] ==> Epsilon in fs'[sym])
                  && (prods[i] != [Epsilon] && prods[i] != [] && prods[i][0] !in g ==> prods[i][0] in fs'[sym])
                  && (prods[i] == [] ==> Epsilon in fs'[sym])
      invariant forall f :: FirstClosed(g, f) && Below(fs, f) ==> Below(fs', f)
    {
      var before := fs';
      if prods[j] == [Epsilon] {
        fs' := fs'[sym := fs'[sym] + {Epsilon}];
        forall f | FirstClosed(g, f) && Below(fs, f)
          ensures Below(fs', f)
        {
          assert ProdFirst(g[sym][j], g, f) <= f[sym];
        }
      } else {
        var s, fs2 := CalcFirstOfSequence(prods[j], g, fs');
        fs' := fs2[sym := fs2[sym] + s];
        forall f | FirstClosed(g, f) && Below(fs, f)
          ensures Below(fs', f)
        {
          assert Below(before, f);
          SeqFirstMono(prods[j], g, fs2, f);
          assert ProdFirst(g[sym][j], g, f) <= f[sym];
        }
      }
      j := j + 1;
    }
    r := fs'[sym];
  }

  /** `calculate_first_of_sequence(symbols, productions, first_sets)`, the helper nested
      in `find_first`: its result is the FIRST scan of `symbols` over the memo it leaves. */
  method CalcFirstOfSequence(symbols: Rule, g: Productions, fs: SymbolSets) returns (r: set<Symbol>, fs': SymbolSets)
    ensures fs.Keys <= fs'.Keys <= fs.Keys + g.Keys
    ensures forall k :: k in fs ==> fs'[k] == fs[k]
    ensures r == SeqFirst(symbols, g, fs')
    ensures symbols != [] && symbols[0] in g ==> symbols[0] in fs'
    ensures forall k :: k in fs' && k !in fs ==> EntryBase(g, fs', k)
    ensures forall f :: FirstClosed(g, f) && Below(fs, f) ==> Below(fs', f)
    decreases g.Keys - fs.Keys, 1, |symbols|
  {
    if symbols == [] {
      return {Epsilon}, fs;
    }
    var first := symbols[0];
    if first in g {
      fs' := fs;
      if first !in fs' {
        var _, fs2 := FindFirst(first, g, fs');
        fs' := fs2;
      }
      r := fs'[first] - {Epsilon};
      if Epsilon in fs'[first] {
        var rest, fs3 := CalcFirstOfSequence(symbols[1..], g, fs');
        fs' := fs3;
        r := r + rest;
      }
    } else {
      r, fs' := {first}, fs;
    }
  }

  /** The loop `for nt in grammar: find_first(nt, grammar, first_sets)` of `parsing_table`,
      from an empty memo. */
  method ComputeFirstSets(g: Grammar) returns (fs: SymbolSets)
    requires g.Valid()
    ensures fs.Keys == g.items.Keys
    ensures forall k :: k in fs ==> EntryBase(g.items, fs, k)
    ensures forall f :: FirstClosed(g.items, f) ==> Below(fs, f)
  {
    fs := map[];
    var k := 0;
    while k < |g.keys|
      invariant 0 <= k <= |g.keys|
      invariant forall i :: 0 <= i < k ==> g.keys[i] in fs
      invariant fs.Keys <= g.items.Keys
      invariant forall x :: x in fs ==> EntryBase(g.items, fs, x)
      invariant forall f :: FirstClosed(g.items, f) ==> Below(fs, f)
    {
      var _, fs2 := FindFirst(g.keys[k], g.items, fs);
      fs := fs2;
      k := k + 1;
    }
  }

  // ---------------------------------------------------------------------------
  // FOLLOW

  /** How `follow` reads what comes after an occurrence of a nonterminal: the package
      takes FIRST of the whole rest of the production, the earlier script in `scripts/`
      looks at the next symbol only. */
  datatype Lookahead = WholeRest | NextSymbol

  /** What the occurrence `rhs[i]` passes on to FOLLOW(rhs[i]): the symbols `adds`, and
      FOLLOW(lhs) as well when `inherits`.
      - WholeRest: FIRST of `rhs[i + 1..]` without epsilon, and FOLLOW(lhs) when that
        rest is empty or nullable.
      - NextSymbol: a nonterminal next symbol passes its FIRST without epsilon, a terminal
        next symbol passes itself; FOLLOW(lhs) is inherited at the end of the production
        or when the next symbol's FIRST holds epsilon. */
  function After(la: Lookahead, p: Productions, fs: SymbolSets, rhs: Rule, i: nat): (a: (set<Symbol>, bool))
    requires i < |rhs|
  {
    match la
    case WholeRest =>
      var fn := FirstOfString(rhs[i + 1..], fs);
      (fn - {Epsilon}, Epsilon in fn)
    case NextSymbol =>
      if i + 1 == |rhs| then ({}, true)
      else
        var next := rhs[i + 1];
        ((if next in p then Val(fs, next) - {Epsilon} else {next}), Epsilon in Val(fs, next))
  }

  /** The FOLLOW condition for the occurrence `rhs[i]` in `lhs -> rhs`: what the
      occurrence passes on is in FOLLOW(rhs[i]). */
  predicate OccOk(la: Lookahead, p: Productions, fs: SymbolSets, f: SymbolSets, lhs: Symbol, rhs: Rule, i: nat) {
    i < |rhs| ==>
      var a := After(la, p, fs, rhs, i);
      a.0 <= Val(f, rhs[i])
      && (a.1 ==> Val(f, lhs) <= Val(f, rhs[i]))
  }

  predicate RhsDone(la: Lookahead, g: Productions, fs: SymbolSets, f: SymbolSets, lhs: Symbol, rhs: Rule, n: nat) {
    forall i :: 0 <= i < n && i < |rhs| && rhs[i] in g ==> OccOk(la, g, fs, f, lhs, rhs, i)
  }

  predicate RulesDone(la: Lookahead, g: Productions, fs: SymbolSets, f: SymbolSets, lhs: Symbol, rules: seq<Rule>, m: nat) {
    forall j :: 0 <= j < m && j < |rules| ==> RhsDone(la, g, fs, f, lhs, rules[j], |rules[j]|)
  }

  /** `f` is a solution of the FOLLOW equations for start symbol `start`. The FOLLOW sets
      are the least such `f`. */
  predicate FollowClosed(la: Lookahead, g: Productions, fs: SymbolSets, start: Symbol, f: SymbolSets) {
    g.Keys <= f.Keys && start in f && EndMarker in f[start]
    && forall lhs :: lhs in g ==> RulesDone(la, g, fs, f, lhs, g[lhs], |g[lhs]|)
  }

  /** A closed family satisfies the condition at every occurrence of a nonterminal. */
  lemma ClosedAt(la: Lookahead, g: Productions, fs: SymbolSets, start: Symbol, f: SymbolSets, lhs: Symbol, j: nat, i: nat)
    requires FollowClosed(la, g, fs, start, f)
    requires lhs in g && j < |g[lhs]| && i < |g[lhs][j]| && g[lhs][j][i] in g
    ensures OccOk(la, g, fs, f, lhs, g[lhs][j], i)
  {
    assert RulesDone(la, g, fs, f, lhs, g[lhs], |g[lhs]|);
    assert RhsDone(la, g, fs, f, lhs, g[lhs][j], |g[lhs][j]|);
  }

  /** What the occurrence `i` of production `j` of `lhs` adds. */
  function AddsAt(la: Lookahead, g: Productions, fs: SymbolSets, lhs: Symbol, j: nat, i: nat): set<Symbol>
    requires lhs in g && j < |g[lhs]| && i < |g[lhs][j]|
  {
    After(la, g, fs, g[lhs][j], i).0
  }

  /** Every symbol a FOLLOW set can ever receive. */
  ghost function Universe(la: Lookahead, g: Productions, fs: SymbolSets): set<Symbol> {
    {EndMarker}
    + (set lhs, j: nat, i: nat, x | lhs in g && j < |g[lhs]| && i < |g[lhs][j]|
                          && x in AddsAt(la, g, fs, lhs, j, i) :: x)
  }

  lemma InUniverse(la: Lookahead, g: Productions, fs: SymbolSets, lhs: Symbol, j: nat, i: nat)
    requires lhs in g && j < |g[lhs]| && i < |g[lhs][j]|
    ensures AddsAt(la, g, fs, lhs, j, i) <= Universe(la, g, fs)
  {
    forall x | x in AddsAt(la, g, fs, lhs, j, i)
      ensures x in Universe(la, g, fs)
    {
    }
  }

  /** `u` holds every symbol a FOLLOW set can receive. */
  predicate UniverseOk(la: Lookahead, g: Productions, fs: SymbolSets, u: set<Symbol>) {
    EndMarker in u
    && forall lhs, j: nat, i: nat :: lhs in g && j < |g[lhs]| && i < |g[lhs][j]| ==> AddsAt(la, g, fs, lhs, j, i) <= u
  }

  lemma UniverseIsOk(la: Lookahead, g: Productions, fs: SymbolSets)
    ensures UniverseOk(la, g, fs, Universe(la, g, fs))
  {
    forall lhs, j: nat, i: nat | lhs in g && j < |g[lhs]| && i < |g[lhs][j]|
      ensures AddsAt(la, g, fs, lhs, j, i) <= Universe(la, g, fs)
    {
      InUniverse(la, g, fs, lhs, j, i);
    }
  }

  /** The pairs (N, x) with x in the universe that FOLLOW(N) does not hold yet. */
  function Unmet(g: Productions, u: set<Symbol>, f: SymbolSets): set<(Symbol, Symbol)> {
    set n, x | n in g && x in u && !(n in f && x in f[n]) :: (n, x)
  }

  lemma UnmetShrinks(g: Productions, u: set<Symbol>, a: SymbolSets, b: SymbolSets, n: Symbol, x: Symbol)
    requires Below(a, b) && a.Keys == g.Keys
    requires n in g && x in u && x in b[n] && x !in a[n]
    ensures Unmet(g, u, b) < Unmet(g, u, a)
  {
    assert (n, x) in Unmet(g, u, a);
    assert (n, x) !in Unmet(g, u, b);
  }

  lemma SubsetCard<T>(a: set<T>, b: set<T>)
    requires a <= b
    ensures |a| <= |b|
  {
    if a != {} {
      var x :| x in a;
      SubsetCard(a - {x}, b - {x});
    }
  }

  /** A set that only grew and did not grow in size is unchanged. */
  lemma SameSizeSame<T>(a: set<T>, b: set<T>)
    requires a <= b && |b| <= |a|
    ensures a == b
  {
    if a != b {
      var x :| x in b && x !in a;
      SubsetCard(a, b - {x});
    }
  }

  /** What holds throughout a pass of the FOLLOW loop that started from `passStart`:
      the sets stay within the universe, only grow, stay below every solution, and
      `changed` is set iff some set grew, `wit` being a symbol that was added. */
  ghost predicate PassInv(la: Lookahead, p: Productions, fs: SymbolSets, start: Symbol, u: set<Symbol>, passStart: SymbolSets,
                          cur: SymbolSets, changed: bool, wit: (Symbol, Symbol)) {
    cur.Keys == p.Keys && passStart.Keys == p.Keys && start in cur && EndMarker in cur[start]
    && (forall n :: n in cur ==> cur[n] <= u)
    && Below(passStart, cur)
    && (forall f :: FollowClosed(la, p, fs, start, f) ==> Below(cur, f))
    && (changed ==> wit.0 in p && wit.1 in u && wit.1 in cur[wit.0] && wit.1 !in passStart[wit.0])
    && (!changed ==> cur == passStart)
  }

  /** FOLLOW(rhs[i]) after the loop body has visited the occurrence `i` of `lhs -> rhs`. */
  function Grown(la: Lookahead, p: Productions, fs: SymbolSets, cur: SymbolSets, lhs: Symbol, rhs: Rule, i: nat): set<Symbol>
    requires i < |rhs|
  {
    var a := After(la, p, fs, rhs, i);
    Val(cur, rhs[i]) + a.0 + (if a.1 then Val(cur, lhs) else {})
  }

  /** `Grown` only adds to FOLLOW(rhs[i]) and stays within the universe. */
  lemma GrownBounds(la: Lookahead, p: Productions, fs: SymbolSets, u: set<Symbol>, cur: SymbolSets, lhs: Symbol, j: nat, i: nat)
    requires lhs in p && j < |p[lhs]| && i < |p[lhs][j]| && p[lhs][j][i] in cur
    requires UniverseOk(la, p, fs, u) && forall n :: n in cur ==> cur[n] <= u
    ensures cur[p[lhs][j][i]] <= Grown(la, p, fs, cur, lhs, p[lhs][j], i) <= u
  {
    assert AddsAt(la, p, fs, lhs, j, i) <= u;
  }

  /** `Grown` stays below every solution of the FOLLOW equations. */
  lemma GrownBelow(la: Lookahead, p: Productions, fs: SymbolSets, start: Symbol, cur: SymbolSets, lhs: Symbol, j: nat, i: nat)
    requires lhs in p && j < |p[lhs]| && i < |p[lhs][j]| && p[lhs][j][i] in p
    requires forall f :: FollowClosed(la, p, fs, start, f) ==> Below(cur, f)
    ensures forall f :: FollowClosed(la, p, fs, start, f) ==>
              Below(cur[p[lhs][j][i] := Grown(la, p, fs, cur, lhs, p[lhs][j], i)], f)
  {
    forall f | FollowClosed(la, p, fs, start, f)
      ensures Below(cur[p[lhs][j][i] := Grown(la, p, fs, cur, lhs, p[lhs][j], i)], f)
    {
      ClosedAt(la, p, fs, start, f, lhs, j, i);
    }
  }

  /** Enlarging one set keeps the family within `u` and above the pass's start. */
  lemma Enlarge(u: set<Symbol>, passStart: SymbolSets, cur: SymbolSets, symbol: Symbol, grown: set<Symbol>,
                 cur': SymbolSets)
    requires symbol in cur && cur[symbol] <= grown <= u && cur' == cur[symbol := grown]
    requires (forall n :: n in cur ==> cur[n] <= u) && Below(passStart, cur)
    ensures cur'.Keys == cur.Keys
    ensures forall n :: n in cur' ==> cur'[n] <= u
    ensures Below(cur, cur') && Below(passStart, cur')
  {
  }

  /** Growing FOLLOW(rhs[i]) to `Grown` keeps the pass invariant, with `wit'` recording
      a symbol added in this pass, and meets the FOLLOW condition of the occurrence. */
  lemma GrowStep(la: Lookahead, p: Productions, fs: SymbolSets, start: Symbol, u: set<Symbol>, passStart: SymbolSets,
                 cur: SymbolSets, changed: bool, wit: (Symbol, Symbol), lhs: Symbol, j: nat, i: nat,
                 symbol: Symbol, grown: set<Symbol>)
                 returns (wit': (Symbol, Symbol))
    requires lhs in p && j < |p[lhs]| && i < |p[lhs][j]| && symbol == p[lhs][j][i] && symbol in p
    requires UniverseOk(la, p, fs, u)
    requires PassInv(la, p, fs, start, u, passStart, cur, changed, wit)
    requires grown == Grown(la, p, fs, cur, lhs, p[lhs][j], i) && |grown| > |cur[symbol]|
    ensures PassInv(la, p, fs, start, u, passStart, cur[symbol := grown], true, wit')
    ensures OccOk(la, p, fs, cur[symbol := grown], lhs, p[lhs][j], i)
  {
    GrownBounds(la, p, fs, u, cur, lhs, j, i);
    GrownBelow(la, p, fs, start, cur, lhs, j, i);
    Enlarge(u, passStart, cur, symbol, grown, cur[symbol := grown]);
    if changed {
      wit' := wit;
    } else {
      NewElement(cur[symbol], grown);
      var x :| x in grown && x !in cur[symbol];
      wit' := (symbol, x);
    }
  }

  /** When `Grown` adds nothing, the occurrence already meets its FOLLOW condition. */
  lemma NoGrowth(la: Lookahead, p: Productions, fs: SymbolSets, cur: SymbolSets, lhs: Symbol, rhs: Rule, i: nat)
    requires i < |rhs| && rhs[i] in cur
    requires Grown(la, p, fs, cur, lhs, rhs, i) == cur[rhs[i]]
    ensures OccOk(la, p, fs, cur, lhs, rhs, i)
  {
  }

  /** The new FOLLOW(rhs[i]) computed by the loop body, in the branches of the package's
      `follow` (WholeRest) or of the earlier script's (NextSymbol). The source reads
      `follow_sets[lhs]` after its first union, which is the old FOLLOW(lhs) unless
      lhs == rhs[i], where adding it again changes nothing. */
  method Grow(la: Lookahead, p: Productions, fs: SymbolSets, cur: SymbolSets, lhs: Symbol, rhs: Rule, i: nat)
    returns (grown: set<Symbol>)
    requires i < |rhs| && rhs[i] in cur && lhs in cur
    ensures grown == Grown(la, p, fs, cur, lhs, rhs, i)
  {
    grown := cur[rhs[i]];
    if la == WholeRest {
      var fn := FirstOfString(rhs[i + 1..], fs);
      if i + 1 < |rhs| {
        grown := grown + (fn - {Epsilon});
        if Epsilon in fn {
          grown := grown + cur[lhs];
        }
      } else {
        grown := grown + cur[lhs];
      }
    } else {
      if i + 1 < |rhs| {
        var next := rhs[i + 1];
        if next in p {
          grown := grown + (Val(fs, next) - {Epsilon});
          if Epsilon in Val(fs, next) {
            grown := grown + cur[lhs];
          }
        } else {
          grown := grown + {next};
        }
      }
      if i + 1 == |rhs| || Epsilon in Val(fs, rhs[i + 1]) {
        grown := grown + cur[lhs];
      }
    }
  }

  /** The loop body of `follow` for the occurrence `i` of production `j` of `lhs`. */
  method FollowAt(la: Lookahead, p: Productions, fs: SymbolSets, start: Symbol, ghost u: set<Symbol>, lhs: Symbol, j: nat, i: nat,
                  cur: SymbolSets, changed: bool, ghost passStart: SymbolSets, ghost wit: (Symbol, Symbol))
    returns (cur': SymbolSets, changed': bool, ghost wit': (Symbol, Symbol))
    requires lhs in p && j < |p[lhs]| && i < |p[lhs][j]|
    requires UniverseOk(la, p, fs, u)
    requires PassInv(la, p, fs, start, u, passStart, cur, changed, wit)
    ensures PassInv(la, p, fs, start, u, passStart, cur', changed', wit')
    ensures changed ==> changed'
    ensures !changed' ==> cur' == cur
    ensures p[lhs][j][i] in p ==> OccOk(la, p, fs, cur', lhs, p[lhs][j], i)
  {
    cur', changed', wit' := cur, changed, wit;
    var rhs := p[lhs][j];
    var symbol := rhs[i];
    if symbol in p {
      var grown := Grow(la, p, fs, cur, lhs, rhs, i);
      if |grown| > |cur[symbol]| {
        wit' := GrowStep(la, p, fs, start, u, passStart, cur, changed, wit, lhs, j, i, symbol, grown);
        cur' := cur[symbol := grown];
        changed' := true;
      } else {
        SameSizeSame(cur[symbol], grown);
        NoGrowth(la, p, fs, cur, lhs, rhs, i);
      }
    }
  }

  /** The loop over the productions of one nonterminal. With no growth in the pass so far,
      every occurrence in them satisfies its FOLLOW condition. */
  method FollowRules(la: Lookahead, p: Productions, fs: SymbolSets, start: Symbol, ghost u: set<Symbol>, lhs: Symbol,
                     cur: SymbolSets, changed: bool, ghost passStart: SymbolSets, ghost wit: (Symbol, Symbol))
    returns (cur': SymbolSets, changed': bool, ghost wit': (Symbol, Symbol))
    requires lhs in p
    requires UniverseOk(la, p, fs, u)
    requires PassInv(la, p, fs, start, u, passStart, cur, changed, wit)
    ensures PassInv(la, p, fs, start, u, passStart, cur', changed', wit')
    ensures changed ==> changed'
    ensures !changed' ==> RulesDone(la, p, fs, passStart, lhs, p[lhs], |p[lhs]|)
  {
    cur', changed', wit' := cur, changed, wit;
    var j := 0;
    while j < |p[lhs]|
      invariant 0 <= j <= |p[lhs]|
      invariant PassInv(la, p, fs, start, u, passStart, cur', changed', wit')
      invariant changed ==> changed'
      invariant !changed' ==> RulesDone(la, p, fs, passStart, lhs, p[lhs], j)
    {
      var i := 0;
      while i < |p[lhs][j]|
        invariant 0 <= i <= |p[lhs][j]|
        invariant PassInv(la, p, fs, start, u, passStart, cur', changed', wit')
        invariant changed ==> changed'
        invariant !changed' ==> RulesDone(la, p, fs, passStart, lhs, p[lhs], j)
        invariant !changed' ==> RhsDone(la, p, fs, passStart, lhs, p[lhs][j], i)
      {
        cur', changed', wit' := FollowAt(la, p, fs, start, u, lhs, j, i, cur', changed', passStart, wit');
        i := i + 1;
      }
      j := j + 1;
    }
  }

  /** One pass of `for lhs, rhs_list in productions.items(): for rhs in rhs_list:
      for i, symbol in enumerate(rhs)`. With no growth, every occurrence satisfies
      its FOLLOW condition. */
  method FollowPass(la: Lookahead, g: Grammar, fs: SymbolSets, start: Symbol, ghost u: set<Symbol>, cur: SymbolSets)
    returns (cur': SymbolSets, changed: bool, ghost wit: (Symbol, Symbol))
    requires g.Valid()
    requires UniverseOk(la, g.items, fs, u)
    requires PassInv(la, g.items, fs, start, u, cur, cur, false, ("", ""))
    ensures PassInv(la, g.items, fs, start, u, cur, cur', changed, wit)
    ensures !changed ==> forall lhs :: lhs in g.items ==> RulesDone(la, g.items, fs, cur', lhs, g.items[lhs], |g.items[lhs]|)
  {
    var p := g.items;
    cur', changed, wit := cur, false, ("", "");
    var k := 0;
    while k < |g.keys|
      invariant 0 <= k <= |g.keys|
      invariant PassInv(la, p, fs, start, u, cur, cur', changed, wit)
      invariant !changed ==> forall k' :: 0 <= k' < k ==> RulesDone(la, p, fs, cur, g.keys[k'], p[g.keys[k']], |p[g.keys[k']]|)
    {
      cur', changed, wit := FollowRules(la, p, fs, start, u, g.keys[k], cur', changed, cur, wit);
      k := k + 1;
    }
    if !changed {
      forall lhs | lhs in p
        ensures RulesDone(la, p, fs, cur, lhs, p[lhs], |p[lhs]|)
      {
        var k' :| 0 <= k' < |g.keys| && g.keys[k'] == lhs;
      }
    }
  }

  /** A set that grew in size gained an element. */
  lemma NewElement<T>(a: set<T>, b: set<T>)
    requires a <= b && |a| < |b|
    ensures exists x :: x in b && x !in a
  {
    assert b == a + (b - a);
    var x :| x in b - a;
  }

  /** `follow(productions, first_sets, start_symbol)`: the FOLLOW sets are the least
      solution of the FOLLOW equations; a start symbol that is not a nonterminal is the
      `KeyError` of `follow_sets[start_symbol]`. */
  method Follow(la: Lookahead, g: Grammar, fs: SymbolSets, start: Symbol) returns (r: Result<SymbolSets, Symbol>)
    requires g.Valid()
    ensures r.Failure? <==> start !in g.items
    ensures r.Success? ==> r.value.Keys == g.items.Keys
    ensures r.Success? ==> FollowClosed(la, g.items, fs, start, r.value)
    ensures r.Success? ==> forall f :: FollowClosed(la, g.items, fs, start, f) ==> Below(r.value, f)
  {
    var p := g.items;
    if start !in p {
      return Failure(start);
    }
    var cur: SymbolSets := map nt | nt in p :: {};
    cur := cur[start := cur[start] + {EndMarker}];
    ghost var u := Universe(la, p, fs);
    UniverseIsOk(la, p, fs);
    assert PassInv(la, p, fs, start, u, cur, cur, false, ("", ""));
    var changed := true;
    while changed
      invariant PassInv(la, p, fs, start, u, cur, cur, false, ("", ""))
      invariant !changed ==> forall lhs :: lhs in p ==> RulesDone(la, p, fs, cur, lhs, p[lhs], |p[lhs]|)
      decreases Unmet(p, u, cur), if changed then 1 else 0
    {
      ghost var passStart := cur;
      ghost var wit;
      cur, changed, wit := FollowPass(la, g, fs, start, u, cur);
      if changed {
        UnmetShrinks(p, u, passStart, cur, wit.0, wit.1);
      }
    }
    r := Success(cur);
  }

  // ---------------------------------------------------------------------------
  // The LL(1) table

  /** The terminals written for rule `rule` of a nonterminal with FOLLOW set `follow`:
      its FIRST set without epsilon, or (`viaFollow`) the FOLLOW set when the rule is
      nullable. */
  function CellSet(fs: SymbolSets, follow: set<Symbol>, rule: Rule, viaFollow: bool): set<Symbol> {
    var fa := FirstOfString(rule, fs);
    if viaFollow then (if Epsilon in fa then follow else {}) else fa - {Epsilon}
  }

  /** The writes `compute_parsing_table` makes into the row of one nonterminal, in order:
      write `2j` for the FIRST terminals of rule `j`, write `2j + 1` for its FOLLOW
      terminals. */
  function CellSets(fs: SymbolSets, follow: set<Symbol>, rules: seq<Rule>): seq<set<Symbol>> {
    seq(2 * |rules|, a requires 0 <= a < 2 * |rules| => CellSet(fs, follow, rules[a / 2], a % 2 == 1))
  }

  /** The value each write stores: the rule for a FIRST write, the empty body for a
      FOLLOW write. */
  function CellValues(rules: seq<Rule>): seq<Rule> {
    seq(2 * |rules|, a requires 0 <= a < 2 * |rules| => if a % 2 == 1 then [] else rules[a / 2])
  }

  lemma CellsOf(fs: SymbolSets, follow: set<Symbol>, rules: seq<Rule>, j: nat)
    requires j < |rules|
    ensures |CellSets(fs, follow, rules)| == |CellValues(rules)| == 2 * |rules|
    ensures CellSets(fs, follow, rules)[2 * j] == CellSet(fs, follow, rules[j], false)
    ensures CellSets(fs, follow, rules)[2 * j + 1] == CellSet(fs, follow, rules[j], true)
    ensures CellValues(rules)[2 * j] == rules[j] && CellValues(rules)[2 * j + 1] == []
  {
    assert (2 * j) / 2 == j && (2 * j) % 2 == 0;
    assert (2 * j + 1) / 2 == j && (2 * j + 1) % 2 == 1;
  }

  /** No terminal is written twice. */
  predicate Disjoint(ss: seq<set<Symbol>>) {
    forall a, b :: 0 <= a < b < |ss| ==> ss[a] !! ss[b]
  }

  /** The row holds exactly the written cells, each with the value of its write. */
  ghost predicate RowFull(ss: seq<set<Symbol>>, vs: seq<Rule>, row: map<Symbol, Rule>) {
    |vs| == |ss|
    && (forall t :: t in row ==> exists a :: 0 <= a < |ss| && t in ss[a])
    && (forall a, t :: 0 <= a < |ss| && t in ss[a] ==> t in row && row[t] == vs[a])
  }

  /** The partial row after the writes before `n` and those of `done` from write `n`;
      `owner` names the write behind every cell, which is unique so far. */
  ghost predicate RowUpTo(ss: seq<set<Symbol>>, vs: seq<Rule>, row: map<Symbol, Rule>,
                          owner: map<Symbol, nat>, n: nat, done: set<Symbol>) {
    |vs| == |ss| && n <= |ss| && row.Keys == owner.Keys
    && (forall t :: t in owner ==>
          owner[t] <= n && owner[t] < |ss| && t in ss[owner[t]] && row[t] == vs[owner[t]]
          && (owner[t] == n ==> t in done))
    && (forall a, t :: 0 <= a < n && t in ss[a] ==> t in owner && owner[t] == a)
    && (forall t :: t in done ==> t in owner && owner[t] == n)
  }

  lemma WriteCell(ss: seq<set<Symbol>>, vs: seq<Rule>, row: map<Symbol, Rule>,
                  owner: map<Symbol, nat>, n: nat, done: set<Symbol>, t: Symbol)
    requires RowUpTo(ss, vs, row, owner, n, done) && n < |ss| && t in ss[n] && t !in row
    ensures RowUpTo(ss, vs, row[t := vs[n]], owner[t := n], n, done + {t})
  {
  }

  /** A write meeting a filled cell: an earlier write holds the same terminal. */
  lemma Clash(ss: seq<set<Symbol>>, vs: seq<Rule>, row: map<Symbol, Rule>,
              owner: map<Symbol, nat>, n: nat, done: set<Symbol>, t: Symbol)
    requires RowUpTo(ss, vs, row, owner, n, done) && n < |ss| && t in ss[n] && t !in done && t in row
    ensures owner[t] < n && t in ss[owner[t]] && !Disjoint(ss)
  {
  }

  lemma NextWrite(ss: seq<set<Symbol>>, vs: seq<Rule>, row: map<Symbol, Rule>,
                  owner: map<Symbol, nat>, n: nat)
    requires n < |ss| && RowUpTo(ss, vs, row, owner, n, ss[n])
    ensures RowUpTo(ss, vs, row, owner, n + 1, {})
  {
  }

  lemma AllWritten(ss: seq<set<Symbol>>, vs: seq<Rule>, row: map<Symbol, Rule>, owner: map<Symbol, nat>)
    requires RowUpTo(ss, vs, row, owner, |ss|, {})
    ensures Disjoint(ss) && RowFull(ss, vs, row)
  {
    forall t | t in row
      ensures exists a :: 0 <= a < |ss| && t in ss[a]
    {
      assert t in ss[owner[t]];
    }
    forall a, b | 0 <= a < b < |ss|
      ensures ss[a] !! ss[b]
    {
      forall t | t in ss[a]
        ensures t !in ss[b]
      {
        assert owner[t] == a;
      }
    }
  }

  /** The inner loop `for terminal in ...: if terminal in row: raise ...; row[terminal] = value`
      for write `n`. A failure names the terminal and an earlier write that holds it. */
  method EnterCells(ghost ss: seq<set<Symbol>>, ghost vs: seq<Rule>, n: nat, todo: set<Symbol>, value: Rule,
                    row: map<Symbol, Rule>, ghost owner: map<Symbol, nat>)
    returns (r: Result<map<Symbol, Rule>, Symbol>, ghost owner': map<Symbol, nat>)
    requires n < |ss| && todo == ss[n] && |vs| == |ss| && value == vs[n]
    requires RowUpTo(ss, vs, row, owner, n, {})
    ensures r.Success? ==> RowUpTo(ss, vs, r.value, owner', n + 1, {})
    ensures r.Failure? ==> WrittenTwice(ss, r.error) && !Disjoint(ss)
  {
    var rest := todo;
    var cur := row;
    owner' := owner;
    ghost var done: set<Symbol> := {};
    while rest != {}
      invariant rest + done == todo && rest !! done
      invariant RowUpTo(ss, vs, cur, owner', n, done)
      decreases rest
    {
      var t :| t in rest;
      if t in cur {
        Clash(ss, vs, cur, owner', n, done, t);
        return Failure(t), owner';
      }
      WriteCell(ss, vs, cur, owner', n, done, t);
      cur := cur[t := value];
      owner' := owner'[t := n];
      rest := rest - {t};
      done := done + {t};
    }
    NextWrite(ss, vs, cur, owner', n);
    return Success(cur), owner';
  }

  /** Two different writes of the same terminal, the `ValueError` of the table. */
  ghost predicate WrittenTwice(ss: seq<set<Symbol>>, t: Symbol) {
    exists a, b :: 0 <= a < b < |ss| && t in ss[a] && t in ss[b]
  }

  /** The body of `for rule in rules:` for rule `j`: its FIRST writes, then its FOLLOW
      writes when it is nullable. */
  method EnterRule(fs: SymbolSets, follow: set<Symbol>, rule: Rule, j: nat, ghost ss: seq<set<Symbol>>,
                   ghost vs: seq<Rule>, row: map<Symbol, Rule>, ghost owner: map<Symbol, nat>)
    returns (r: Result<map<Symbol, Rule>, Symbol>, ghost owner': map<Symbol, nat>)
    requires 2 * j + 1 < |ss| && |vs| == |ss|
    requires ss[2 * j] == CellSet(fs, follow, rule, false) && ss[2 * j + 1] == CellSet(fs, follow, rule, true)
    requires vs[2 * j] == rule && vs[2 * j + 1] == []
    requires RowUpTo(ss, vs, row, owner, 2 * j, {})
    ensures r.Success? ==> RowUpTo(ss, vs, r.value, owner', 2 * j + 2, {})
    ensures r.Failure? ==> WrittenTwice(ss, r.error) && !Disjoint(ss)
  {
    var fa := FirstOfString(rule, fs);
    var firsts, owner1 := EnterCells(ss, vs, 2 * j, fa - {Epsilon}, rule, row, owner);
    if firsts.Failure? {
      return firsts, owner1;
    }
    if Epsilon in fa {
      r, owner' := EnterCells(ss, vs, 2 * j + 1, follow, [], firsts.value, owner1);
    } else {
      NextWrite(ss, vs, firsts.value, owner1, 2 * j + 1);
      r, owner' := firsts, owner1;
    }
  }

  /** The row of one nonterminal, written rule by rule; the failure is the `ValueError`
      raised on the first cell written twice. */
  method BuildRow(fs: SymbolSets, follow: set<Symbol>, rules: seq<Rule>) returns (r: Result<map<Symbol, Rule>, Symbol>)
    ensures r.Success? <==> Disjoint(CellSets(fs, follow, rules))
    ensures r.Success? ==> RowFull(CellSets(fs, follow, rules), CellValues(rules), r.value)
    ensures r.Failure? ==> WrittenTwice(CellSets(fs, follow, rules), r.error)
  {
    ghost var ss := CellSets(fs, follow, rules);
    ghost var vs := CellValues(rules);
    var row: map<Symbol, Rule> := map[];
    ghost var owner: map<Symbol, nat> := map[];
    var j := 0;
    while j < |rules|
      invariant 0 <= j <= |rules| && |ss| == |vs| == 2 * |rules|
      invariant RowUpTo(ss, vs, row, owner, 2 * j, {})
    {
      CellsOf(fs, follow, rules, j);
      var next, owner1 := EnterRule(fs, follow, rules[j], j, ss, vs, row, owner);
      if next.Failure? {
        return next;
      }
      row, owner := next.value, owner1;
      j := j + 1;
    }
    AllWritten(ss, vs, row, owner);
    return Success(row);
  }

  /** A finished row: every written cell except the end marker, with its value. */
  ghost predicate RowIs(fs: SymbolSets, follow: set<Symbol>, rules: seq<Rule>, row: map<Symbol, Rule>) {
    var ss := CellSets(fs, follow, rules);
    var vs := CellValues(rules);
    EndMarker !in row
    && (forall t :: t in row ==> exists a :: 0 <= a < |ss| && t in ss[a])
    && (forall a, t :: 0 <= a < |ss| && t in ss[a] && t != EndMarker ==> t in row && row[t] == vs[a])
  }

  lemma DropEndMarker(fs: SymbolSets, follow: set<Symbol>, rules: seq<Rule>, row: map<Symbol, Rule>)
    requires RowFull(CellSets(fs, follow, rules), CellValues(rules), row)
    ensures RowIs(fs, follow, rules, row - {EndMarker})
  {
  }

  /** The cells of a finished row in the terms of the construction: every terminal of
      FIRST(rule) selects that rule, and when the rule is nullable every terminal of
      FOLLOW selects the empty body; the end marker excepted. */
  lemma RowCells(fs: SymbolSets, follow: set<Symbol>, rules: seq<Rule>, row: map<Symbol, Rule>, j: nat, t: Symbol)
    requires RowIs(fs, follow, rules, row) && j < |rules| && t != EndMarker
    ensures t in FirstOfString(rules[j], fs) && t != Epsilon ==> t in row && row[t] == rules[j]
    ensures Epsilon in FirstOfString(rules[j], fs) && t in follow ==> t in row && row[t] == []
  {
    CellsOf(fs, follow, rules, j);
  }

  /** The closing loop `for key in parsing_table: parsing_table[key].pop('$', None)`. */
  method DropEndMarkers(table: Table, keys: seq<Symbol>) returns (t: Table)
    requires forall k :: k in table ==> k in keys
    ensures t.Keys == table.Keys
    ensures forall nt :: nt in t ==> t[nt] == table[nt] - {EndMarker}
  {
    t := table;
    var i := 0;
    while i < |keys|
      invariant 0 <= i <= |keys|
      invariant t.Keys == table.Keys
      invariant forall nt :: nt in t ==>
                  t[nt] == if nt in keys[..i] then table[nt] - {EndMarker} else table[nt]
    {
      if keys[i] in t {
        t := t[keys[i] := t[keys[i]] - {EndMarker}];
      }
      i := i + 1;
    }
    assert keys[..i] == keys;
  }

  datatype Conflict = Conflict(nonterminal: Symbol, terminal: Symbol)

  /** Row `nt` of `table` is conflict-free and holds every written cell. */
  ghost predicate RowWritten(fs: SymbolSets, fo: SymbolSets, p: map<Symbol, seq<Rule>>, table: Table, nt: Symbol) {
    nt in p && nt in fo && nt in table
    && Disjoint(CellSets(fs, fo[nt], p[nt]))
    && RowFull(CellSets(fs, fo[nt], p[nt]), CellValues(p[nt]), table[nt])
  }

  /** Writing row `ks[k]` keeps the rows of the keys before it. */
  lemma RowsWritten(fs: SymbolSets, fo: SymbolSets, p: map<Symbol, seq<Rule>>, table: Table,
                    ks: seq<Symbol>, k: nat, row: map<Symbol, Rule>)
    requires k < |ks| && forall i, j :: 0 <= i < j < |ks| ==> ks[i] != ks[j]
    requires ks[k] in p && ks[k] in fo && ks[k] in table
    requires Disjoint(CellSets(fs, fo[ks[k]], p[ks[k]]))
    requires RowFull(CellSets(fs, fo[ks[k]], p[ks[k]]), CellValues(p[ks[k]]), row)
    requires forall j :: 0 <= j < k ==> RowWritten(fs, fo, p, table, ks[j])
    ensures forall j :: 0 <= j < k + 1 ==> RowWritten(fs, fo, p, table[ks[k] := row], ks[j])
  {
    forall j | 0 <= j < k + 1
      ensures RowWritten(fs, fo, p, table[ks[k] := row], ks[j])
    {
      if j < k {
        assert ks[j] != ks[k];
        assert RowWritten(fs, fo, p, table, ks[j]);
      }
    }
  }

  /** The first loop of `compute_parsing_table`: every row written, no end marker
      removed yet. */
  method WriteRows(g: Grammar, fs: SymbolSets, fo: SymbolSets) returns (r: Result<Table, Conflict>)
    requires g.Valid()
    requires g.items.Keys <= fo.Keys
    ensures r.Success? <==> forall nt :: nt in g.items ==> Disjoint(CellSets(fs, fo[nt], g.items[nt]))
    ensures r.Success? ==> r.value.Keys == g.items.Keys
    ensures r.Success? ==> forall nt :: nt in g.items ==>
              RowFull(CellSets(fs, fo[nt], g.items[nt]), CellValues(g.items[nt]), r.value[nt])
    ensures r.Failure? ==> r.error.nonterminal in g.items
                           && WrittenTwice(CellSets(fs, fo[r.error.nonterminal], g.items[r.error.nonterminal]), r.error.terminal)
  {
    var p := g.items;
    var table: Table := map nt | nt in p :: map[];
    var k := 0;
    while k < |g.keys|
      invariant 0 <= k <= |g.keys|
      invariant table.Keys == p.Keys
      invariant forall j :: 0 <= j < k ==> RowWritten(fs, fo, p, table, g.keys[j])
    {
      var nt := g.keys[k];
      var row := BuildRow(fs, fo[nt], p[nt]);
      if row.Failure? {
        return Failure(Conflict(nt, row.error));
      }
      RowsWritten(fs, fo, p, table, g.keys, k, row.value);
      table := table[nt := row.value];
      k := k + 1;
    }
    forall nt | nt in p
      ensures RowWritten(fs, fo, p, table, nt)
    {
      var j :| 0 <= j < |g.keys| && g.keys[j] == nt;
    }
    return Success(table);
  }

  /** `compute_parsing_table(productions, first_sets, follow_sets)`: a row per nonterminal
      holding exactly the written cells except the end marker, or the conflict on a cell
      written twice. */
  method ComputeParsingTable(g: Grammar, fs: SymbolSets, fo: SymbolSets) returns (r: Result<Table, Conflict>)
    requires g.Valid()
    requires g.items.Keys <= fo.Keys
    ensures r.Success? <==> forall nt :: nt in g.items ==> Disjoint(CellSets(fs, fo[nt], g.items[nt]))
    ensures r.Success? ==> r.value.Keys == g.items.Keys
    ensures r.Success? ==> forall nt :: nt in g.items ==> RowIs(fs, fo[nt], g.items[nt], r.value[nt])
    ensures r.Failure? ==> r.error.nonterminal in g.items
                           && WrittenTwice(CellSets(fs, fo[r.error.nonterminal], g.items[r.error.nonterminal]), r.error.terminal)
  {
    var written := WriteRows(g, fs, fo);
    if written.Failure? {
      return Failure(written.error);
    }
    var table := DropEndMarkers(written.value, g.keys);
    forall nt | nt in g.items
      ensures RowIs(fs, fo[nt], g.items[nt], table[nt])
    {
      DropEndMarker(fs, fo[nt], g.items[nt], written.value[nt]);
    }
    return Success(table);
  }

  // ---------------------------------------------------------------------------
  // `parsing_table(final_rules)`: merge, FIRST, FOLLOW from "S*", table

  /** The rule lists of the generator, keyed by (nonterminal, label). */
  type LabelledRules = Dict<(Symbol, Symbol), seq<Rule>>

  /** Every key of `ks` has rules in `items`. */
  predicate KeysIn(ks: seq<(Symbol, Symbol)>, items: map<(Symbol, Symbol), seq<Rule>>) {
    forall k :: 0 <= k < |ks| ==> ks[k] in items
  }

  /** The nonterminals of the first `n` keys of `ks` in the order of their first
      occurrence: the key order of the `defaultdict` that `grammar[nt].extend(rules)`
      fills. */
  function KeyNts(ks: seq<(Symbol, Symbol)>, n: nat): seq<Symbol>
    requires n <= |ks|
  {
    if n == 0 then []
    else
      var prev := KeyNts(ks, n - 1);
      if ks[n - 1].0 in prev then prev else prev + [ks[n - 1].0]
  }

  /** The rules of every one of the first `n` keys of `ks` whose nonterminal is `nt`, in
      key order. */
  function RulesOf(ks: seq<(Symbol, Symbol)>, items: map<(Symbol, Symbol), seq<Rule>>, nt: Symbol, n: nat): seq<Rule>
    requires n <= |ks| && KeysIn(ks, items)
  {
    if n == 0 then []
    else RulesOf(ks, items, nt, n - 1) + (if ks[n - 1].0 == nt then items[ks[n - 1]] else [])
  }

  /** A nonterminal is listed iff one of the first `n` keys names it, and is listed once. */
  lemma {:induction false} KeyNtsMember(ks: seq<(Symbol, Symbol)>, n: nat, nt: Symbol)
    requires n <= |ks|
    ensures nt in KeyNts(ks, n) <==> exists k :: 0 <= k < n && ks[k].0 == nt
    ensures forall a, b :: 0 <= a < b < |KeyNts(ks, n)| ==> KeyNts(ks, n)[a] != KeyNts(ks, n)[b]
  {
    if n > 0 {
      KeyNtsMember(ks, n - 1, nt);
      KeyNtsMember(ks, n - 1, ks[n - 1].0);
      if exists k :: 0 <= k < n && ks[k].0 == nt {
        var k :| 0 <= k < n && ks[k].0 == nt;
        if k < n - 1 {
          assert nt in KeyNts(ks, n - 1);
        }
      }
    }
  }

  /** A nonterminal none of the first `n` keys names has no rules. */
  lemma {:induction false} RulesOfAbsent(ks: seq<(Symbol, Symbol)>, items: map<(Symbol, Symbol), seq<Rule>>, nt: Symbol, n: nat)
    requires n <= |ks| && KeysIn(ks, items)
    requires forall k :: 0 <= k < n ==> ks[k].0 != nt
    ensures RulesOf(ks, items, nt, n) == []
  {
    if n > 0 {
      RulesOfAbsent(ks, items, nt, n - 1);
    }
  }

  /** The grammar merged from the first `n` keys, as the loop holds it. */
  ghost predicate MergedUpTo(ks: seq<(Symbol, Symbol)>, items: map<(Symbol, Symbol), seq<Rule>>, n: nat, g: Grammar)
    requires n <= |ks| && KeysIn(ks, items)
  {
    g.Valid() && g.keys == KeyNts(ks, n)
    && (forall nt :: nt in g.items <==> nt in g.keys)
    && forall nt :: nt in g.items ==> g.items[nt] == RulesOf(ks, items, nt, n)
  }

  lemma MergeStep(ks: seq<(Symbol, Symbol)>, items: map<(Symbol, Symbol), seq<Rule>>, n: nat, g: Grammar, g': Grammar)
    requires n < |ks| && KeysIn(ks, items)
    requires MergedUpTo(ks, items, n, g)
    requires g' == g.Put(ks[n].0, (if ks[n].0 in g.items then g.items[ks[n].0] else []) + items[ks[n]])
    ensures MergedUpTo(ks, items, n + 1, g')
  {
    var nt0 := ks[n].0;
    forall nt | nt in g'.items
      ensures g'.items[nt] == RulesOf(ks, items, nt, n + 1)
    {
      if nt == nt0 && nt !in g.items {
        KeyNtsMember(ks, n, nt);
        RulesOfAbsent(ks, items, nt, n);
      }
    }
  }

  /** `g` is `final_rules` merged by nonterminal: its keys are the nonterminals of the
      keys of `fr` in order of first occurrence, each holding the concatenated rules of
      its keys. */
  ghost predicate Merged(fr: LabelledRules, g: Grammar) {
    KeysIn(fr.keys, fr.items) && MergedUpTo(fr.keys, fr.items, |fr.keys|, g)
  }

  /** `for (nt, _), rules in final_rules.items(): grammar[nt].extend(rules)`. */
  method Merge(fr: LabelledRules) returns (g: Grammar)
    requires KeysIn(fr.keys, fr.items)
    ensures Merged(fr, g)
  {
    g := Empty();
    for i := 0 to |fr.keys|
      invariant MergedUpTo(fr.keys, fr.items, i, g)
    {
      var key := fr.keys[i];
      var prev := if key.0 in g.items then g.items[key.0] else [];
      ghost var before := g;
      g := g.Put(key.0, prev + fr.items[key]);
      MergeStep(fr.keys, fr.items, i, before, g);
    }
  }

  /** The merged grammar has a nonterminal iff some key names it. */
  lemma MergedNonterminals(fr: LabelledRules, g: Grammar, nt: Symbol)
    requires Merged(fr, g)
    ensures nt in g.items <==> exists k :: 0 <= k < |fr.keys| && fr.keys[k].0 == nt
  {
    KeyNtsMember(fr.keys, |fr.keys|, nt);
  }

  /** Why `parsing_table` fails: "S*" is not a nonterminal (the `KeyError` of `follow`),
      or a cell is written twice (the `ValueError` of `compute_parsing_table`). */
  datatype TableError = MissingStart | CellConflict(conflict: Conflict)

  /** `parsing_table(final_rules)`. Besides the table it yields, as ghost values, the
      merged grammar and the FIRST and FOLLOW sets it was built from. */
  method ParsingTable(fr: LabelledRules)
    returns (r: Result<Table, TableError>, ghost g: Grammar, ghost fs: SymbolSets, ghost fo: SymbolSets)
    requires fr.Valid()
    ensures Merged(fr, g)
    ensures fs.Keys == g.items.Keys && forall f :: FirstClosed(g.items, f) ==> Below(fs, f)
    ensures r == Failure(MissingStart) <==> StartSymbol !in g.items
    ensures StartSymbol in g.items ==>
              fo.Keys == g.items.Keys && FollowClosed(WholeRest, g.items, fs, StartSymbol, fo)
              && forall f :: FollowClosed(WholeRest, g.items, fs, StartSymbol, f) ==> Below(fo, f)
    ensures r.Success? <==>
              StartSymbol in g.items && forall nt :: nt in g.items ==> Disjoint(CellSets(fs, fo[nt], g.items[nt]))
    ensures r.Success? ==> r.value.Keys == g.items.Keys
                           && forall nt :: nt in g.items ==> RowIs(fs, fo[nt], g.items[nt], r.value[nt])
    ensures r.Failure? && r.error.CellConflict? ==>
              var c := r.error.conflict;
              c.nonterminal in g.items && WrittenTwice(CellSets(fs, fo[c.nonterminal], g.items[c.nonterminal]), c.terminal)
  {
    assert KeysIn(fr.keys, fr.items);
    var grammar := Merge(fr);
    g := grammar;
    var first := ComputeFirstSets(grammar);
    fs := first;
    var follow := Follow(WholeRest, grammar, first, StartSymbol);
    if follow.Failure? {
      fo := map[];
      return Failure(MissingStart), g, fs, fo;
    }
    fo := follow.value;
    var table := ComputeParsingTable(grammar, first, follow.value);
    if table.Failure? {
      return Failure(CellConflict(table.error)), g, fs, fo;
    }
    return Success(table.value), g, fs, fo;
  }
}
