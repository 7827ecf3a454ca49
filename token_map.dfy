/** Binding the terminals of an LL(1) table to tokenizer ids. A terminal of a regex
    class (a `regex_`-prefixed entry of the regex dictionary) gets the ids of every
    vocabulary string the class matches; every other terminal that occurs in a cell of
    the table gets the ids of the vocabulary strings its literal pattern accepts: the
    terminal itself and the terminal followed by a newline. The map is refused
    when two lookahead terminals of one row share an id, since the automaton could then
    not tell which cell a generated token selects. */
module TokenMap {
  import opened Wrappers
  import opened LL1

  /** Tokenizer ids are non-negative. */
  type TokenId = nat
  /** `tokenizer.get_vocab()`: token string to token id. */
  type Vocab = map<string, TokenId>
  /** The source text of a regex class. */
  type Pattern = string
  /** `re.compile(pattern).match(s)`: whether the pattern matches at the start of `s`.
      Regular-expression matching is not modelled; it is this parameter. */
  type Matcher = (Pattern, string) -> bool
  type TokenMap = map<Symbol, set<TokenId>>

  const RegexPrefix: string := "regex_"

  /** The ids of the vocabulary strings a regex class matches. */
  function IdsMatching(vocab: Vocab, matcher: Matcher, pattern: Pattern): set<TokenId> {
    set s | s in vocab && matcher(pattern, s) :: vocab[s]
  }

  /** `name.startswith('regex_')`. */
  predicate IsRegexName(name: string) {
    |name| >= |RegexPrefix| && name[..|RegexPrefix|] == RegexPrefix
  }

  lemma StripPrefixInjective()
    ensures forall n1, n2 :: IsRegexName(n1) && IsRegexName(n2) && n1[|RegexPrefix|..] == n2[|RegexPrefix|..] ==> n1 == n2
  {
    forall n1, n2 | IsRegexName(n1) && IsRegexName(n2) && n1[|RegexPrefix|..] == n2[|RegexPrefix|..]
      ensures n1 == n2
    {
      assert n1 == n1[..|RegexPrefix|] + n1[|RegexPrefix|..];
      assert n2 == n2[..|RegexPrefix|] + n2[|RegexPrefix|..];
    }
  }

  /** The dict comprehension over `regex_dict`: one entry per `regex_` name, keyed by the
      name without its first six characters. A missing or empty dictionary gives the
      empty map. */
  function RegexEntries(vocab: Vocab, regexDict: map<string, Pattern>, matcher: Matcher): (m: TokenMap)
    ensures forall t :: t in m <==> RegexPrefix + t in regexDict
    ensures forall t :: t in m ==> m[t] == IdsMatching(vocab, matcher, regexDict[RegexPrefix + t])
  {
    StripPrefixInjective();
    var m := map name | name in regexDict && IsRegexName(name) :: name[|RegexPrefix|..] := IdsMatching(vocab, matcher, regexDict[name]);
    assert forall t :: RegexPrefix + t in regexDict ==> t in m by {
      forall t | RegexPrefix + t in regexDict
        ensures t in m
      {
        var name := RegexPrefix + t;
        assert name[..|RegexPrefix|] == RegexPrefix && name[|RegexPrefix|..] == t;
      }
    }
    assert forall name :: IsRegexName(name) ==> name == RegexPrefix + name[|RegexPrefix|..] by {
      forall name | IsRegexName(name)
        ensures name == RegexPrefix + name[|RegexPrefix|..]
      {
        assert name == name[..|RegexPrefix|] + name[|RegexPrefix|..];
      }
    }
    m
  }

  // ---------------------------------------------------------------------------
  // The literal pattern `^{re.escape(terminal)}$`

  /** What `re.match(rf"^{re.escape(terminal)}$", s)` accepts: Python's `$` also matches
      just before a newline that ends the string. */
  predicate LiteralMatchAsWritten(terminal: Symbol, s: string) {
    s == terminal || s == terminal + "\n"
  }

  /** The literal pattern of a terminal accepts a vocabulary string other than the
      terminal itself. */
  lemma TrailingNewlineMatches()
    ensures LiteralMatchAsWritten("yes", "yes\n") && "yes\n" != "yes"
  {
  }

  /** The ids whose token string equals `terminal` (the evidently intended match). */
  function LiteralIds(vocab: Vocab, terminal: Symbol): (ids: set<TokenId>)
    ensures ids == if terminal in vocab then {vocab[terminal]} else {}
  {
    set s | s in vocab && s == terminal :: vocab[s]
  }

  /** The ids the literal pattern collects, `[token_id for token_str, token_id in
      vocab.items() if regex.match(token_str)]`: those of `terminal` and of
      `terminal + "\n"`. They are the literal ids unless the vocabulary holds
      `terminal + "\n"`. */
  function LiteralIdsAsWritten(vocab: Vocab, terminal: Symbol): (ids: set<TokenId>)
    ensures LiteralIds(vocab, terminal) <= ids
    ensures terminal + "\n" in vocab ==> vocab[terminal + "\n"] in ids
  {
    set s | s in vocab && LiteralMatchAsWritten(terminal, s) :: vocab[s]
  }

  /** Exactly those two ids: the literal ids, and the id of `terminal + "\n"` when the
      vocabulary has that string. */
  lemma LiteralIdsAsWrittenIs(vocab: Vocab, terminal: Symbol)
    ensures LiteralIdsAsWritten(vocab, terminal) ==
              LiteralIds(vocab, terminal) + (if terminal + "\n" in vocab then {vocab[terminal + "\n"]} else {})
    ensures terminal + "\n" !in vocab ==> LiteralIdsAsWritten(vocab, terminal) == LiteralIds(vocab, terminal)
  {
  }

  // ---------------------------------------------------------------------------
  // The literal mapping loop

  /** The symbols written in the cells `keys` of one row. */
  function RowSymbols(row: map<Symbol, Rule>, keys: set<Symbol>): set<Symbol> {
    set t, x | t in keys && t in row && x in row[t] :: x
  }

  /** The symbols written in the cells of the rows `rows` of `table`. */
  function CellSymbols(table: Table, rows: set<Symbol>): set<Symbol> {
    set nt, t, x | nt in rows && nt in table && t in table[nt] && x in table[nt][t] :: x
  }

  lemma RowSymbolsStep(row: map<Symbol, Rule>, keys: set<Symbol>, t: Symbol)
    requires t in row
    ensures RowSymbols(row, keys + {t}) == RowSymbols(row, keys) + (set x | x in row[t])
  {
  }

  lemma CellSymbolsStep(table: Table, rows: set<Symbol>, nt: Symbol)
    requires nt in table
    ensures CellSymbols(table, rows + {nt}) == CellSymbols(table, rows) + RowSymbols(table[nt], table[nt].Keys)
  {
  }

  /** `m` is `base` with every symbol of `added` that `base` lacks bound to the ids its
      literal pattern collects. */
  predicate Filled(vocab: Vocab, base: TokenMap, m: TokenMap, added: set<Symbol>) {
    m.Keys == base.Keys + added
    && forall t :: t in m ==> m[t] == if t in base then base[t] else LiteralIdsAsWritten(vocab, t)
  }

  lemma FillStep(vocab: Vocab, base: TokenMap, m: TokenMap, added: set<Symbol>, t: Symbol)
    requires Filled(vocab, base, m, added)
    ensures t in m ==> Filled(vocab, base, m, added + {t})
    ensures t !in m ==> Filled(vocab, base, m[t := LiteralIdsAsWritten(vocab, t)], added + {t})
  {
  }

  /** `for terminal in filtered_terminals: if terminal not in map_terminal_tokens: ...`
      for the body of one cell, nonterminals filtered out. */
  method AddCell(vocab: Vocab, nts: set<Symbol>, terminals: Rule, m: TokenMap,
                 ghost base: TokenMap, ghost added: set<Symbol>)
    returns (m': TokenMap, ghost added': set<Symbol>)
    requires Filled(vocab, base, m, added)
    ensures Filled(vocab, base, m', added')
    ensures added' == added + ((set x | x in terminals) - nts)
  {
    m', added' := m, added;
    for i := 0 to |terminals|
      invariant Filled(vocab, base, m', added')
      invariant added' == added + ((set x | x in terminals[..i]) - nts)
    {
      var terminal := terminals[i];
      assert terminals[..i + 1] == terminals[..i] + [terminal];
      if terminal !in nts {
        FillStep(vocab, base, m', added', terminal);
        if terminal !in m' {
          m' := m'[terminal := LiteralIdsAsWritten(vocab, terminal)];
        }
        added' := added' + {terminal};
      }
    }
    assert terminals[..|terminals|] == terminals;
  }

  /** `for terminals in rhs_list.values(): ...` for one row. */
  method AddRow(vocab: Vocab, nts: set<Symbol>, row: map<Symbol, Rule>, m: TokenMap,
                ghost base: TokenMap, ghost added: set<Symbol>)
    returns (m': TokenMap, ghost added': set<Symbol>)
    requires Filled(vocab, base, m, added)
    ensures Filled(vocab, base, m', added')
    ensures added' == added + (RowSymbols(row, row.Keys) - nts)
  {
    m', added' := m, added;
    var rest := row.Keys;
    ghost var done: set<Symbol> := {};
    while rest != {}
      invariant rest + done == row.Keys && rest !! done
      invariant Filled(vocab, base, m', added')
      invariant added' == added + (RowSymbols(row, done) - nts)
      decreases rest
    {
      var t :| t in rest;
      RowSymbolsStep(row, done, t);
      m', added' := AddCell(vocab, nts, row[t], m', base, added');
      rest, done := rest - {t}, done + {t};
    }
  }

  /** The literal loop of `generate_token_maps`: every symbol in a cell that is not a
      nonterminal (a row key) and has no entry yet is bound to the ids its literal pattern
      accepts. */
  method AddLiterals(vocab: Vocab, table: Table, base: TokenMap) returns (m: TokenMap)
    ensures Filled(vocab, base, m, CellSymbols(table, table.Keys) - table.Keys)
  {
    var nts := table.Keys;
    m := base;
    ghost var added: set<Symbol> := {};
    var rest := table.Keys;
    ghost var done: set<Symbol> := {};
    while rest != {}
      invariant rest + done == table.Keys && rest !! done
      invariant Filled(vocab, base, m, added)
      invariant added == CellSymbols(table, done) - nts
      decreases rest
    {
      var nt :| nt in rest;
      CellSymbolsStep(table, done, nt);
      m, added := AddRow(vocab, nts, table[nt], m, base, added);
      rest, done := rest - {nt}, done + {nt};
    }
  }

  // ---------------------------------------------------------------------------
  // `check_tokens_conflicts`

  /** Two lookahead terminals of row `nt` whose id sets intersect. */
  type TokenConflict = (Symbol, set<Symbol>)

  /** Every pair of distinct keys of row `nt` whose ids intersect. */
  function RowConflicts(nt: Symbol, row: map<Symbol, Rule>, m: TokenMap): set<TokenConflict> {
    set a, b | a in row && b in row && a != b && a in m && b in m && m[a] * m[b] != {} :: (nt, {a, b})
  }

  /** The conflicts of the rows `rows`. */
  function TableConflicts(table: Table, rows: set<Symbol>, m: TokenMap): set<TokenConflict> {
    set nt, a, b | nt in rows && nt in table && a in table[nt] && b in table[nt] && a != b && a in m && b in m
                   && m[a] * m[b] != {} :: (nt, {a, b})
  }

  /** A key of a row with at least two keys has no entry: the pairs of that row are
      looked up, so this is the `KeyError` of `map_terminal_tokens[a]`. */
  predicate MissingIn(row: map<Symbol, Rule>, m: TokenMap, t: Symbol) {
    t in row && t !in m && exists u :: u in row && u != t
  }

  /** The pairs `(a, b)` for one `a` and every later key `b`. */
  method CheckPairs(nt: Symbol, a: Symbol, bs: set<Symbol>, m: TokenMap) returns (r: Result<set<TokenConflict>, Symbol>)
    requires a !in bs
    ensures r.Failure? <==> bs != {} && (a !in m || exists b :: b in bs && b !in m)
    ensures r.Failure? ==> r.error == a || r.error in bs
    ensures r.Failure? ==> r.error !in m
    ensures r.Success? ==> r.value == set b | b in bs && a in m && b in m && m[a] * m[b] != {} :: (nt, {a, b})
  {
    var found: set<TokenConflict> := {};
    var rest := bs;
    while rest != {}
      invariant rest <= bs
      invariant rest != bs ==> a in m
      invariant forall b :: b in bs - rest ==> b in m
      invariant found == set b | b in bs - rest && a in m && b in m && m[a] * m[b] != {} :: (nt, {a, b})
      decreases rest
    {
      var b :| b in rest;
      if a !in m {
        return Failure(a);
      }
      if b !in m {
        return Failure(b);
      }
      ghost var before := bs - rest;
      if m[a] * m[b] != {} {
        found := found + {(nt, {a, b})};
      }
      rest := rest - {b};
      assert bs - rest == before + {b};
    }
    return Success(found);
  }

  /** The conflicting pairs of row `nt` with at least one key in `done`. */
  function PairsFrom(nt: Symbol, row: map<Symbol, Rule>, m: TokenMap, done: set<Symbol>): set<TokenConflict> {
    set a, b | a in done && b in row && a != b && a in m && b in m && m[a] * m[b] != {} :: (nt, {a, b})
  }

  /** Taking key `a` into `done` adds its pairs with the keys not yet done. */
  lemma PairsFromStep(nt: Symbol, row: map<Symbol, Rule>, m: TokenMap, done: set<Symbol>, a: Symbol)
    requires a in row && a !in done && done <= row.Keys
    ensures PairsFrom(nt, row, m, done + {a})
            == PairsFrom(nt, row, m, done)
               + set b | b in row.Keys - done - {a} && a in m && b in m && m[a] * m[b] != {} :: (nt, {a, b})
  {
    var later := set b | b in row.Keys - done - {a} && a in m && b in m && m[a] * m[b] != {} :: (nt, {a, b});
    forall c | c in PairsFrom(nt, row, m, done + {a})
      ensures c in PairsFrom(nt, row, m, done) + later
    {
      var x, y :| x in done + {a} && y in row && x != y && x in m && y in m && m[x] * m[y] != {} && c == (nt, {x, y});
      if x != a {
        assert c in PairsFrom(nt, row, m, done);
      } else if y in done {
        assert {x, y} == {y, x};
        assert c in PairsFrom(nt, row, m, done);
      } else {
        assert c in later;
      }
    }
  }

  /** `for a, b in itertools.combinations(rhs_list.keys(), 2)` for one row. */
  method CheckRow(nt: Symbol, row: map<Symbol, Rule>, m: TokenMap) returns (r: Result<set<TokenConflict>, Symbol>)
    ensures r.Failure? <==> exists t :: MissingIn(row, m, t)
    ensures r.Failure? ==> MissingIn(row, m, r.error)
    ensures r.Success? ==> r.value == RowConflicts(nt, row, m)
  {
    var found: set<TokenConflict> := {};
    var rest := row.Keys;
    while rest != {}
      invariant rest <= row.Keys
      invariant rest != row.Keys ==> forall t :: !MissingIn(row, m, t)
      invariant found == PairsFrom(nt, row, m, row.Keys - rest)
      decreases rest
    {
      var a :| a in rest;
      var pairs := CheckPairs(nt, a, rest - {a}, m);
      if pairs.Failure? {
        ghost var b :| b in rest - {a};
        assert MissingIn(row, m, pairs.error) by {
          if pairs.error == a {
            assert b in row && b != a;
          } else {
            assert a in row && a != pairs.error;
          }
        }
        return Failure(pairs.error);
      }
      if rest == row.Keys {
        forall t | t in row
          ensures !MissingIn(row, m, t)
        {
          assert t in rest;
          if rest - {a} == {} {
            assert t !in rest - {a};
            assert forall u :: u in row ==> u == t by {
              forall u | u in row
                ensures u == t
              {
                assert u in rest && u !in rest - {a};
              }
            }
          } else {
            assert t == a || t in rest - {a};
          }
        }
      }
      PairsFromStep(nt, row, m, row.Keys - rest, a);
      assert row.Keys - (rest - {a}) == (row.Keys - rest) + {a};
      assert row.Keys - (row.Keys - rest) - {a} == rest - {a};
      found := found + pairs.value;
      rest := rest - {a};
    }
    assert row.Keys - rest == row.Keys;
    return Success(found);
  }

  lemma TableConflictsStep(table: Table, rows: set<Symbol>, m: TokenMap, nt: Symbol)
    requires nt in table
    ensures TableConflicts(table, rows + {nt}, m) == TableConflicts(table, rows, m) + RowConflicts(nt, table[nt], m)
  {
  }

  /** `check_tokens_conflicts(table_parsing, map_terminal_tokens)`: the conflicting pairs
      of every row, or the `KeyError` of a row key without an entry. */
  method CheckTokensConflicts(table: Table, m: TokenMap) returns (r: Result<set<TokenConflict>, Symbol>)
    ensures r.Failure? <==> exists nt, t :: nt in table && MissingIn(table[nt], m, t)
    ensures r.Failure? ==> exists nt :: nt in table && MissingIn(table[nt], m, r.error)
    ensures r.Success? ==> r.value == TableConflicts(table, table.Keys, m)
  {
    var found: set<TokenConflict> := {};
    var rest := table.Keys;
    ghost var done: set<Symbol> := {};
    while rest != {}
      invariant rest + done == table.Keys && rest !! done
      invariant forall nt, t :: nt in done && MissingIn(table[nt], m, t) ==> false
      invariant found == TableConflicts(table, done, m)
      decreases rest
    {
      var nt :| nt in rest;
      var row := CheckRow(nt, table[nt], m);
      if row.Failure? {
        return Failure(row.error);
      }
      TableConflictsStep(table, done, m, nt);
      found := found + row.value;
      rest, done := rest - {nt}, done + {nt};
    }
    return Success(found);
  }

  /** A map that passes the check binds every key of a row with several keys, and the
      id sets of two different keys of one row are disjoint. */
  lemma NoConflictsDisjoint(table: Table, m: TokenMap, nt: Symbol, a: Symbol, b: Symbol)
    requires !exists nt, t :: nt in table && MissingIn(table[nt], m, t)
    requires TableConflicts(table, table.Keys, m) == {}
    requires nt in table && a in table[nt] && b in table[nt] && a != b
    ensures a in m && b in m && m[a] * m[b] == {}
  {
    assert !MissingIn(table[nt], m, a) && !MissingIn(table[nt], m, b);
    assert b in table[nt] && b != a && a in table[nt];
    assert a in m && b in m;
    assert m[a] * m[b] != {} ==> (nt, {a, b}) in TableConflicts(table, table.Keys, m);
  }

  /** Why `generate_token_maps` fails: a row key without an entry (`KeyError`), or the
      `ValueError` listing the conflicting pairs. */
  datatype MapError = MissingTerminal(terminal: Symbol) | TokenConflicts(conflicts: set<TokenConflict>)

  /** `generate_token_maps(tokenizer, table_parsing, regex_dict)`. The ghost `m` is the map
      built before the check. */
  method GenerateTokenMaps(vocab: Vocab, table: Table, regexDict: map<string, Pattern>, matcher: Matcher)
    returns (r: Result<TokenMap, MapError>, ghost m: TokenMap)
    ensures Filled(vocab, RegexEntries(vocab, regexDict, matcher), m, CellSymbols(table, table.Keys) - table.Keys)
    ensures r.Success? ==> r.value == m
    ensures r.Failure? && r.error.MissingTerminal? ==>
              exists nt :: nt in table && MissingIn(table[nt], m, r.error.terminal)
    ensures (r.Failure? && r.error.MissingTerminal?) <==> exists nt, t :: nt in table && MissingIn(table[nt], m, t)
    ensures r.Failure? && r.error.TokenConflicts? ==>
              r.error.conflicts == TableConflicts(table, table.Keys, m) && r.error.conflicts != {}
    ensures r.Success? <==>
              (!exists nt, t :: nt in table && MissingIn(table[nt], m, t)) && TableConflicts(table, table.Keys, m) == {}
  {
    var base := RegexEntries(vocab, regexDict, matcher);
    var tokens := AddLiterals(vocab, table, base);
    m := tokens;
    var conflicts := CheckTokensConflicts(table, tokens);
    if conflicts.Failure? {
      return Failure(MissingTerminal(conflicts.error)), m;
    }
    if conflicts.value != {} {
      return Failure(TokenConflicts(conflicts.value)), m;
    }
    return Success(tokens), m;
  }

  /** In the map: a regex-class entry keeps its ids, a nonterminal gets no literal entry,
      and every other cell symbol gets the ids of the vocabulary strings its literal
      pattern accepts: the string equal to it and that string followed by a newline. */
  lemma FilledEntries(vocab: Vocab, base: TokenMap, m: TokenMap, table: Table, t: Symbol)
    requires Filled(vocab, base, m, CellSymbols(table, table.Keys) - table.Keys)
    ensures t in base ==> t in m && m[t] == base[t]
    ensures t !in base && t in table ==> t !in m
    ensures t !in base && t !in table && t in CellSymbols(table, table.Keys) ==>
              t in m && m[t] == (if t in vocab then {vocab[t]} else {})
                               + (if t + "\n" in vocab then {vocab[t + "\n"]} else {})
    ensures t !in base && t !in CellSymbols(table, table.Keys) ==> t !in m
  {
    LiteralIdsAsWrittenIs(vocab, t);
  }
}
