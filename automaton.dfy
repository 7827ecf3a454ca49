/** The runtime pushdown automaton. Its stack holds grammar symbols with the top at the
    end of the sequence; the table maps a nonterminal and a lookahead terminal to the rule
    that replaces it. At each generation step the automaton computes the terminals that
    may come next (the frontier) with the union of their token ids, and on the generated
    id it selects the one frontier terminal the id stands for and advances the stack. */
module Automaton {
  import opened Wrappers
  import opened LL1
  import opened TokenMap

  /** The exceptions the automaton can raise. */
  datatype PdaError =
    | UnknownTerminal(terminal: Symbol)          // `map_terminals_tokens[terminal]` in `get_tokens`
    | OverlappingTokens(terminal: Symbol)        // the disjointness assertion of `get_tokens`
    | NoFrontier                                  // `current_terminals` read before any `get_tokens`
    | UnknownToken(token: TokenId)               // `map_tokens_terminals[token_gen]`
    | AmbiguousToken(token: TokenId, candidates: set<Symbol>)  // `len(check_terminals) == 1` fails
    | EmptyStack                                  // `stack.pop()` on an empty stack
    | MissingCell(nonterminal: Symbol, terminal: Symbol)     // `grammar[top][token]`
    | Mismatch(found: Symbol, expected: Symbol)  // `top == token` fails
    | RecursionLimit                              // the interpreter's recursion limit

  function Reverse<T>(s: seq<T>): (r: seq<T>)
    ensures |r| == |s| && forall i :: 0 <= i < |s| ==> r[i] == s[|s| - 1 - i]
  {
    if s == [] then [] else Reverse(s[1..]) + [s[0]]
  }

  // ---------------------------------------------------------------------------
  // The inverse map

  /** `inv` maps each token id to the terminals of the keys `done` of `m` whose ids hold
      it, and has no other entries. */
  ghost predicate InverseOver(m: TokenMap, done: set<Symbol>, inv: map<TokenId, set<Symbol>>) {
    done <= m.Keys
    && (forall tok :: tok in inv ==> inv[tok] != {})
    && (forall tok, t :: tok in inv && t in inv[tok] ==> t in done && tok in m[t])
    && (forall t, tok :: t in done && tok in m[t] ==> tok in inv && t in inv[tok])
  }

  /** The inverse map relates a token id and a terminal exactly when the terminal's ids
      hold the token. */
  lemma InverseMember(m: TokenMap, inv: map<TokenId, set<Symbol>>, tok: TokenId, t: Symbol)
    requires InverseOver(m, m.Keys, inv)
    ensures (tok in inv && t in inv[tok]) <==> (t in m && tok in m[t])
    ensures tok in inv <==> exists u :: u in m && tok in m[u]
  {
    if tok in inv {
      var u :| u in inv[tok];
      assert u in m && tok in m[u];
    }
  }

  // ---------------------------------------------------------------------------
  // Reachability through the rows of the table

  /** Each symbol of `p` after the first is a lookahead key of the row of the one before. */
  ghost predicate Path(g: Table, p: seq<Symbol>) {
    |p| > 0 && forall i :: 0 <= i < |p| - 1 ==> p[i] in g && p[i + 1] in g[p[i]]
  }

  ghost predicate Reachable(g: Table, a: Symbol, b: Symbol) {
    exists p :: Path(g, p) && p[0] == a && p[|p| - 1] == b
  }

  lemma ReachableSelf(g: Table, a: Symbol)
    ensures Reachable(g, a, a)
  {
    assert Path(g, [a]);
  }

  lemma ReachableVia(g: Table, a: Symbol, b: Symbol, c: Symbol)
    requires a in g && b in g[a] && Reachable(g, b, c)
    ensures Reachable(g, a, c)
  {
    var p :| Path(g, p) && p[0] == b && p[|p| - 1] == c;
    var q := [a] + p;
    assert forall i :: 1 <= i < |q| - 1 ==> q[i] == p[i - 1] && q[i + 1] == p[i];
    assert Path(g, q);
  }

  /** Every symbol met in a row of a symbol of `w` that is not in `v` is in `w`. */
  ghost predicate ClosedOutside(g: Table, v: set<Symbol>, w: set<Symbol>) {
    forall n :: n in w && n !in v && n in g ==> g[n].Keys <= w
  }

  /** A set closed under the rows that holds `a` holds everything reachable from `a`. */
  lemma {:induction false} ClosedHoldsReachable(g: Table, w: set<Symbol>, p: seq<Symbol>)
    requires ClosedOutside(g, {}, w) && Path(g, p) && p[0] in w
    ensures p[|p| - 1] in w
    decreases |p|
  {
    if |p| > 1 {
      assert p[1] in g[p[0]];
      var q := p[1..];
      assert Path(g, q);
      ClosedHoldsReachable(g, w, q);
    }
  }

  /** The frontier of a stack: the symbols without a row that are reachable from its top. */
  ghost function Frontier(g: Table, stack: seq<Symbol>): set<Symbol> {
    if stack == [] then {}
    else set n | n in Symbols(g) + {stack[|stack| - 1]} && Reachable(g, stack[|stack| - 1], n) && n !in g
  }

  /** Every row name and every lookahead key of the table. */
  function Symbols(g: Table): set<Symbol> {
    g.Keys + (set n, k | n in g && k in g[n] :: k)
  }

  lemma ReachableInSymbols(g: Table, a: Symbol, b: Symbol)
    requires Reachable(g, a, b)
    ensures b == a || b in Symbols(g)
  {
    var p :| Path(g, p) && p[0] == a && p[|p| - 1] == b;
    if |p| > 1 {
      var i := |p| - 2;
      assert p[i] in g && b in g[p[i]];
    }
  }

  /** What the depth-first search of `recursive_get_tokens` has found so far: `w` is the
      visited set, grown from `v`; everything it added is reachable from `top` and, except
      the symbols still being expanded (`open`), has its whole row in `w`; `tokens` lists
      each of the added symbols without a row once. */
  ghost predicate Explored(g: Table, v: set<Symbol>, open: set<Symbol>, w: set<Symbol>, top: Symbol, tokens: seq<Symbol>) {
    v <= w
    && ClosedOutside(g, v + open, w)
    && (forall n :: n in w && n !in v ==> Reachable(g, top, n))
    && (forall i, j :: 0 <= i < j < |tokens| ==> tokens[i] != tokens[j])
    && (forall x :: x in tokens <==> x in w && x !in v && x !in g)
  }

  /** Two consecutive searches: one from `top` itself, then one from a key of its row. */
  lemma ExploredChild(g: Table, v: set<Symbol>, w: set<Symbol>, tokens: seq<Symbol>, top: Symbol,
                      symbol: Symbol, w': set<Symbol>, more: seq<Symbol>)
    requires top in g && symbol in g[top] && top in w
    requires Explored(g, v, {top}, w, top, tokens)
    requires Explored(g, w, {}, w', symbol, more)
    ensures Explored(g, v, {top}, w', top, tokens + more)
  {
    forall n | n in w' && n !in v
      ensures Reachable(g, top, n)
    {
      if n !in w {
        ReachableVia(g, top, symbol, n);
      }
    }
    var all := tokens + more;
    forall i, j | 0 <= i < j < |all|
      ensures all[i] != all[j]
    {
      if i < |tokens| && j >= |tokens| {
        assert all[i] in tokens && all[j] == more[j - |tokens|];
      } else if i >= |tokens| {
        assert all[i] == more[i - |tokens|] && all[j] == more[j - |tokens|];
      }
    }
  }

  /** The finished search from a symbol that had a row. */
  lemma ExploredClose(g: Table, v: set<Symbol>, w: set<Symbol>, tokens: seq<Symbol>, top: Symbol)
    requires top in g && top in w
    requires Explored(g, v, {top}, w, top, tokens)
    requires g[top].Keys <= w
    ensures Explored(g, v, {}, w, top, tokens)
  {
  }

  /** The search from the top of the stack with nothing visited yet finds exactly the
      frontier, each symbol once. */
  lemma ExploredIsFrontier(g: Table, stack: seq<Symbol>, w: set<Symbol>, tokens: seq<Symbol>)
    requires stack != [] && stack[|stack| - 1] in w
    requires Explored(g, {}, {}, w, stack[|stack| - 1], tokens)
    ensures forall x :: x in tokens <==> x in Frontier(g, stack)
  {
    var top := stack[|stack| - 1];
    forall x | x in Frontier(g, stack)
      ensures x in tokens
    {
      var p :| Path(g, p) && p[0] == top && p[|p| - 1] == x;
      ClosedHoldsReachable(g, w, p);
    }
    forall x | x in tokens
      ensures x in Frontier(g, stack)
    {
      ReachableInSymbols(g, top, x);
    }
  }

  // ---------------------------------------------------------------------------
  // Selecting the terminal of a generated token and advancing the stack

  /** `next_state_terminal(terminal)` from stack `s`, with `fuel` nested calls allowed:
      the outcome and the stack it leaves, which is already popped when a check fails. */
  function Advance(g: Table, s: seq<Symbol>, t: Symbol, fuel: nat): (Result<(), PdaError>, seq<Symbol>)
    decreases fuel
  {
    if fuel == 0 then (Failure(RecursionLimit), s)
    else if s == [] then (Failure(EmptyStack), s)
    else
      var top, rest := s[|s| - 1], s[..|s| - 1];
      if top in g then
        if t in g[top] then Advance(g, rest + Reverse(g[top][t]), t, fuel - 1)
        else (Failure(MissingCell(top, t)), rest)
      else if top == t then (Success(()), rest)
      else (Failure(Mismatch(top, t)), rest)
  }

  /** Advancing only touches the part of the stack it needs: the symbols below are kept. */
  lemma {:induction false} AdvanceFrame(g: Table, bottom: seq<Symbol>, s: seq<Symbol>, t: Symbol, fuel: nat)
    requires Advance(g, s, t, fuel).0.Success?
    ensures Advance(g, bottom + s, t, fuel) == (Success(()), bottom + Advance(g, s, t, fuel).1)
    decreases fuel
  {
    var top, rest := s[|s| - 1], s[..|s| - 1];
    assert (bottom + s)[|bottom + s| - 1] == top;
    assert (bottom + s)[..|bottom + s| - 1] == bottom + rest;
    if top in g {
      var next := rest + Reverse(g[top][t]);
      AdvanceFrame(g, bottom, next, t, fuel - 1);
      assert (bottom + rest) + Reverse(g[top][t]) == bottom + next;
    }
  }

  /** The terminal a generated id stands for: the one frontier terminal it belongs to. */
  function Select(inv: map<TokenId, set<Symbol>>, current: Option<seq<Symbol>>, token: TokenId): (r: Result<Symbol, PdaError>)
    ensures r.Success? ==> current.Some? && token in inv && r.value in inv[token] && r.value in current.value
    ensures r.Success? ==> forall u :: u in inv[token] && u in current.value ==> u == r.value
  {
    if current.None? then Failure(NoFrontier)
    else if token !in inv then Failure(UnknownToken(token))
    else
      var check := inv[token] * (set t | t in current.value);
      if |check| != 1 then Failure(AmbiguousToken(token, check))
      else
        var t :| t in check;
        assert check == {t} by { OneElement(check, t); }
        assert forall u :: u in inv[token] && u in current.value ==> u in check;
        Success(t)
  }

  lemma OneElement<T>(s: set<T>, x: T)
    requires |s| == 1 && x in s
    ensures s == {x}
  {
    if y :| y in s && y != x {
      assert {x, y} <= s;
      assert |{x, y}| == 2;
      SubsetCard({x, y}, s);
    }
  }

  // ---------------------------------------------------------------------------
  // The automaton

  class PushdownAutomaton {
    var stack: seq<Symbol>
    const grammar: Table
    const terminalsTokens: TokenMap
    const tokensTerminals: map<TokenId, set<Symbol>>
    /** The frontier the last `get_tokens` recorded; None before the first. */
    var currentTerminals: Option<seq<Symbol>>

    /** `PushdownAutomaton(grammar, startSymbol, map)`: the stack holds the start symbol
        and the inverse map is built by the nested loops over `map`. */
    constructor(grammar: Table, startSymbol: Symbol, m: TokenMap)
      ensures stack == [startSymbol] && this.grammar == grammar && terminalsTokens == m
      ensures currentTerminals == None
      ensures InverseOver(m, m.Keys, tokensTerminals)
    {
      var inv: map<TokenId, set<Symbol>> := map[];
      var rest := m.Keys;
      while rest != {}
        invariant rest <= m.Keys
        invariant InverseOver(m, m.Keys - rest, inv)
        decreases rest
      {
        var t :| t in rest;
        inv := AddTerminal(m, m.Keys - rest, inv, t);
        rest := rest - {t};
        assert m.Keys - rest == (m.Keys - (rest + {t})) + {t};
      }
      stack := [startSymbol];
      this.grammar := grammar;
      terminalsTokens := m;
      tokensTerminals := inv;
      currentTerminals := None;
    }

    /** `self.stack` is empty. */
    predicate Eos()
      reads this
    {
      stack == []
    }

    /** `recursive_get_tokens(stack, visited)`: pops the top and, unless it was visited,
        returns it when it has no row, or searches the keys of its row in turn. */
    method RecursiveGetTokens(st: seq<Symbol>, visited: set<Symbol>)
      returns (tokens: seq<Symbol>, st': seq<Symbol>, visited': set<Symbol>)
      ensures st' == if st == [] then [] else st[..|st| - 1]
      ensures st == [] ==> tokens == [] && visited' == visited
      ensures st != [] ==> st[|st| - 1] in visited' && Explored(grammar, visited, {}, visited', st[|st| - 1], tokens)
      decreases Symbols(grammar) - visited
    {
      if st == [] {
        return [], [], visited;
      }
      var top := st[|st| - 1];
      st' := st[..|st| - 1];
      if top in visited {
        return [], st', visited;
      }
      visited' := visited + {top};
      if top !in grammar {
        ReachableSelf(grammar, top);
        return [top], st', visited';
      }
      ReachableSelf(grammar, top);
      tokens := [];
      var keys := grammar[top].Keys;
      while keys != {}
        invariant keys <= grammar[top].Keys && visited + {top} <= visited'
        invariant forall k :: k in grammar[top] && k !in keys ==> k in visited'
        invariant Explored(grammar, visited, {top}, visited', top, tokens)
        decreases keys
      {
        var symbol :| symbol in keys;
        if symbol !in visited' {
          assert symbol in Symbols(grammar) && top in Symbols(grammar) - visited;
          var more, back, after := RecursiveGetTokens(st' + [symbol], visited');
          assert back == st';
          ExploredChild(grammar, visited, visited', tokens, top, symbol, after, more);
          tokens, visited' := tokens + more, after;
        }
        keys := keys - {symbol};
      }
      ExploredClose(grammar, visited, visited', tokens, top);
    }

    /** `get_tokens()`: the union of the ids of the frontier, which is recorded in
        `current_terminals`; the ids of two frontier terminals must not overlap. */
    method GetTokens() returns (r: Result<set<TokenId>, PdaError>)
      modifies this
      ensures stack == old(stack)
      ensures r.Success? <==> FrontierMapped(terminalsTokens, Frontier(grammar, stack))
      ensures r.Success? ==> r.value == Ids(terminalsTokens, Frontier(grammar, stack))
      ensures r.Success? ==> currentTerminals.Some?
                             && (forall x :: x in currentTerminals.value <==> x in Frontier(grammar, stack))
      ensures r.Failure? ==> currentTerminals == old(currentTerminals)
    {
      var terminals, _, w := RecursiveGetTokens(stack, {});
      ghost var frontier := Frontier(grammar, stack);
      if stack != [] {
        ExploredIsFrontier(grammar, stack, w, terminals);
      }
      assert forall x :: x in terminals <==> x in frontier;
      var tokens: set<TokenId> := {};
      for i := 0 to |terminals|
        invariant stack == old(stack) && currentTerminals == old(currentTerminals)
        invariant SeqMapped(terminalsTokens, terminals[..i])
        invariant tokens == SeqIds(terminalsTokens, terminals[..i])
      {
        var terminal := terminals[i];
        if terminal !in terminalsTokens {
          SeqNotMapped(terminalsTokens, terminals, frontier, i);
          return Failure(UnknownTerminal(terminal));
        }
        if terminalsTokens[terminal] * tokens != {} {
          SeqOverlap(terminalsTokens, terminals, frontier, i);
          return Failure(OverlappingTokens(terminal));
        }
        SeqMappedStep(terminalsTokens, terminals, i);
        tokens := tokens + terminalsTokens[terminal];
      }
      assert terminals[..|terminals|] == terminals;
      SeqMappedAll(terminalsTokens, terminals, frontier);
      currentTerminals := Some(terminals);
      return Success(tokens);
    }

    /** `next_state(token_gen)`: the generated id must stand for exactly one terminal of
        the recorded frontier; the stack is only touched once it does. */
    method NextState(token: TokenId, fuel: nat) returns (r: Result<(), PdaError>)
      modifies this
      ensures currentTerminals == old(currentTerminals)
      ensures Select(tokensTerminals, currentTerminals, token).Failure? ==>
                r == Failure(Select(tokensTerminals, currentTerminals, token).error) && stack == old(stack)
      ensures Select(tokensTerminals, currentTerminals, token).Success? ==>
                (r, stack) == Advance(grammar, old(stack), Select(tokensTerminals, currentTerminals, token).value, fuel)
    {
      var selected := Select(tokensTerminals, currentTerminals, token);
      if selected.Failure? {
        return Failure(selected.error);
      }
      r := NextStateTerminal(selected.value, fuel);
    }

    /** `next_state_terminal(terminal)`: pops the top; a nonterminal is replaced by the
        reversed rule of its cell for `terminal` and the call repeats, a terminal must
        equal `terminal`. */
    method NextStateTerminal(terminal: Symbol, fuel: nat) returns (r: Result<(), PdaError>)
      modifies this
      ensures currentTerminals == old(currentTerminals)
      ensures (r, stack) == Advance(grammar, old(stack), terminal, fuel)
      decreases fuel
    {
      if fuel == 0 {
        return Failure(RecursionLimit);
      }
      if stack == [] {
        return Failure(EmptyStack);
      }
      var top := stack[|stack| - 1];
      stack := stack[..|stack| - 1];
      if top in grammar {
        if terminal !in grammar[top] {
          return Failure(MissingCell(top, terminal));
        }
        ghost var popped := stack;
        var rule := grammar[top][terminal];
        var k := |rule|;
        while k > 0
          invariant 0 <= k <= |rule|
          invariant stack == popped + Reverse(rule[k..])
          invariant currentTerminals == old(currentTerminals)
          decreases k
        {
          k := k - 1;
          assert Reverse(rule[k..]) == Reverse(rule[k + 1..]) + [rule[k]] by {
            assert rule[k..][1..] == rule[k + 1..];
          }
          stack := stack + [rule[k]];
        }
        assert rule[0..] == rule;
        r := NextStateTerminal(terminal, fuel - 1);
        return;
      }
      if top != terminal {
        return Failure(Mismatch(top, terminal));
      }
      return Success(());
    }
  }

  /** Adding the entries of terminal `t` to the inverse map. */
  method AddTerminal(m: TokenMap, done: set<Symbol>, inv: map<TokenId, set<Symbol>>, t: Symbol)
    returns (inv': map<TokenId, set<Symbol>>)
    requires InverseOver(m, done, inv) && t in m && t !in done
    ensures InverseOver(m, done + {t}, inv')
  {
    inv' := inv;
    var rest := m[t];
    while rest != {}
      invariant rest <= m[t]
      invariant (forall tok :: tok in inv' ==> inv'[tok] != {})
      invariant (forall tok, u :: tok in inv' && u in inv'[tok] ==> (u in done && tok in m[u]) || (u == t && tok in m[t] - rest))
      invariant (forall u, tok :: u in done && tok in m[u] ==> tok in inv' && u in inv'[tok])
      invariant (forall tok :: tok in m[t] - rest ==> tok in inv' && t in inv'[tok])
      decreases rest
    {
      var id :| id in rest;
      var holders := if id in inv' then inv'[id] else {};
      inv' := inv'[id := holders + {t}];
      rest := rest - {id};
    }
  }

  // ---------------------------------------------------------------------------
  // The id union of `get_tokens`

  /** Every terminal of `f` has ids, and two different terminals of `f` share none. */
  ghost predicate FrontierMapped(m: TokenMap, f: set<Symbol>) {
    (forall t :: t in f ==> t in m)
    && forall a, b :: a in f && b in f && a != b ==> m[a] * m[b] == {}
  }

  /** The union of the ids of the terminals of `f` that have ids. */
  ghost function Ids(m: TokenMap, f: set<Symbol>): set<TokenId> {
    set t, tok | t in f && t in m && tok in m[t] :: tok
  }

  ghost predicate SeqMapped(m: TokenMap, ts: seq<Symbol>) {
    (forall i :: 0 <= i < |ts| ==> ts[i] in m)
    && forall i, j :: 0 <= i < j < |ts| ==> m[ts[i]] * m[ts[j]] == {}
  }

  ghost function SeqIds(m: TokenMap, ts: seq<Symbol>): set<TokenId> {
    set i, tok | 0 <= i < |ts| && ts[i] in m && tok in m[ts[i]] :: tok
  }

  lemma SeqMappedStep(m: TokenMap, ts: seq<Symbol>, i: nat)
    requires i < |ts| && SeqMapped(m, ts[..i]) && ts[i] in m && m[ts[i]] * SeqIds(m, ts[..i]) == {}
    ensures SeqMapped(m, ts[..i + 1])
    ensures SeqIds(m, ts[..i + 1]) == SeqIds(m, ts[..i]) + m[ts[i]]
  {
    var p, q := ts[..i], ts[..i + 1];
    forall j, k | 0 <= j < k < |q|
      ensures m[q[j]] * m[q[k]] == {}
    {
      if k == i {
        forall tok | tok in m[q[j]]
          ensures tok !in m[q[k]]
        {
          assert tok in SeqIds(m, p) by { assert p[j] == q[j]; }
          assert q[k] == ts[i];
          assert tok !in m[ts[i]] * SeqIds(m, p);
        }
      } else {
        assert q[j] == p[j] && q[k] == p[k];
      }
    }
    forall tok | tok in SeqIds(m, q)
      ensures tok in SeqIds(m, p) + m[ts[i]]
    {
      var j :| 0 <= j < |q| && q[j] in m && tok in m[q[j]];
      if j < i { assert q[j] == p[j]; }
    }
    forall tok | tok in SeqIds(m, p) + m[ts[i]]
      ensures tok in SeqIds(m, q)
    {
      if tok in SeqIds(m, p) {
        var j :| 0 <= j < |p| && p[j] in m && tok in m[p[j]];
        assert q[j] == p[j];
      } else {
        assert q[i] == ts[i];
      }
    }
  }

  /** A terminal of the list without ids: the frontier is not mapped. */
  lemma SeqNotMapped(m: TokenMap, ts: seq<Symbol>, f: set<Symbol>, i: nat)
    requires i < |ts| && ts[i] !in m
    requires forall x :: x in ts <==> x in f
    ensures !FrontierMapped(m, f)
  {
    assert ts[i] in f;
  }

  /** A terminal whose ids meet those of an earlier one: the frontier overlaps. */
  lemma SeqOverlap(m: TokenMap, ts: seq<Symbol>, f: set<Symbol>, i: nat)
    requires i < |ts| && ts[i] in m && m[ts[i]] * SeqIds(m, ts[..i]) != {}
    requires forall x :: x in ts <==> x in f
    requires forall j, k :: 0 <= j < k < |ts| ==> ts[j] != ts[k]
    ensures !FrontierMapped(m, f)
  {
    var tok :| tok in m[ts[i]] * SeqIds(m, ts[..i]);
    var j :| 0 <= j < i && ts[..i][j] in m && tok in m[ts[..i][j]];
    assert ts[..i][j] == ts[j] && ts[j] != ts[i];
    assert ts[j] in f && ts[i] in f;
    assert tok in m[ts[j]] * m[ts[i]];
  }

  /** A list without repetitions that is pairwise disjoint is a mapped frontier. */
  lemma SeqMappedAll(m: TokenMap, ts: seq<Symbol>, f: set<Symbol>)
    requires SeqMapped(m, ts)
    requires forall x :: x in ts <==> x in f
    ensures FrontierMapped(m, f)
    ensures SeqIds(m, ts) == Ids(m, f)
  {
    forall a, b | a in f && b in f && a != b
      ensures m[a] * m[b] == {}
    {
      var j :| 0 <= j < |ts| && ts[j] == a;
      var k :| 0 <= k < |ts| && ts[k] == b;
      if j < k {
        assert m[ts[j]] * m[ts[k]] == {};
      } else {
        assert m[ts[k]] * m[ts[j]] == {};
        assert m[a] * m[b] == m[b] * m[a];
      }
    }
    forall tok | tok in Ids(m, f)
      ensures tok in SeqIds(m, ts)
    {
      var t :| t in f && t in m && tok in m[t];
      var j :| 0 <= j < |ts| && ts[j] == t;
    }
  }

  /** An id that `get_tokens` allows is resolved by `next_state` to exactly one terminal:
      the frontier terminal whose ids hold it. */
  lemma AllowedIdSelects(m: TokenMap, inv: map<TokenId, set<Symbol>>, f: set<Symbol>, ts: seq<Symbol>,
                         token: TokenId, t: Symbol)
    requires InverseOver(m, m.Keys, inv)
    requires FrontierMapped(m, f) && forall x :: x in ts <==> x in f
    requires t in f && token in m[t]
    ensures Select(inv, Some(ts), token) == Success(t)
  {
    assert token in inv && t in inv[token];
    var check := inv[token] * (set x | x in ts);
    forall u | u in check
      ensures u == t
    {
      assert u in f && token in m[u];
      assert token in m[u] * m[t];
    }
    assert t in check;
    assert check == {t};
  }
}
