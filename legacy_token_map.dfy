/** The earlier token-map builder of the string-based pipeline. It binds the lookahead
    terminals of the table (the keys of every row) rather than the symbols written in the
    cells, and keeps the regex-class entries as the package version does. */
module LegacyTokenMap {
  import opened Wrappers
  import opened LL1
  import opened TokenMap

  /** The lookahead terminals of the rows `rows`. */
  function KeySymbols(table: Table, rows: set<Symbol>): set<Symbol> {
    set nt, t | nt in rows && nt in table && t in table[nt] :: t
  }

  lemma KeySymbolsStep(table: Table, rows: set<Symbol>, nt: Symbol)
    requires nt in table
    ensures KeySymbols(table, rows + {nt}) == KeySymbols(table, rows) + table[nt].Keys
  {
  }

  /** `for terminal in rhs_list.keys(): if terminal not in map_terminal_tokens: ...` */
  method AddKeys(vocab: Vocab, keys: set<Symbol>, m: TokenMap, ghost base: TokenMap, ghost added: set<Symbol>)
    returns (m': TokenMap, ghost added': set<Symbol>)
    requires Filled(vocab, base, m, added)
    ensures Filled(vocab, base, m', added')
    ensures added' == added + keys
  {
    m', added' := m, added;
    var rest := keys;
    while rest != {}
      invariant rest <= keys
      invariant Filled(vocab, base, m', added')
      invariant added' == added + (keys - rest)
      decreases rest
    {
      var terminal :| terminal in rest;
      FillStep(vocab, base, m', added', terminal);
      if terminal !in m' {
        m' := m'[terminal := LiteralIdsAsWritten(vocab, terminal)];
      }
      added' := added' + {terminal};
      rest := rest - {terminal};
    }
  }

  /** Both branches of the loop over the table: every row key without an entry is bound
      to the ids its literal pattern collects. */
  method AddRowKeys(vocab: Vocab, table: Table, base: TokenMap) returns (m: TokenMap)
    ensures Filled(vocab, base, m, KeySymbols(table, table.Keys))
  {
    m := base;
    ghost var added: set<Symbol> := {};
    var rest := table.Keys;
    ghost var done: set<Symbol> := {};
    while rest != {}
      invariant rest + done == table.Keys && rest !! done
      invariant Filled(vocab, base, m, added)
      invariant added == KeySymbols(table, done)
      decreases rest
    {
      var nt :| nt in rest;
      KeySymbolsStep(table, done, nt);
      m, added := AddKeys(vocab, table[nt].Keys, m, base, added);
      rest, done := rest - {nt}, done + {nt};
    }
  }

  /** Once every row key is bound, the conflict check cannot raise `KeyError`. */
  lemma RowKeysBound(vocab: Vocab, base: TokenMap, m: TokenMap, table: Table)
    requires Filled(vocab, base, m, KeySymbols(table, table.Keys))
    ensures forall nt, t :: nt in table ==> !MissingIn(table[nt], m, t)
  {
    forall nt, t | nt in table && t in table[nt]
      ensures t in m
    {
      assert t in KeySymbols(table, table.Keys);
    }
  }

  /** `generate_token_maps(tokenizer, table_parsing, regex_dict=None)` of the string-based
      pipeline. An absent dictionary is the empty map: both are false for `if regex_dict:`. */
  method LegacyGenerateTokenMaps(vocab: Vocab, table: Table, regexDict: map<string, Pattern>, matcher: Matcher)
    returns (r: Result<TokenMap, MapError>, ghost m: TokenMap)
    ensures Filled(vocab, if regexDict != map[] then RegexEntries(vocab, regexDict, matcher) else map[],
                   m, KeySymbols(table, table.Keys))
    ensures r.Success? ==> r.value == m
    ensures r.Success? <==> TableConflicts(table, table.Keys, m) == {}
    ensures r.Failure? ==> r.error == TokenConflicts(TableConflicts(table, table.Keys, m))
  {
    var base: TokenMap := map[];
    if regexDict != map[] {
      base := RegexEntries(vocab, regexDict, matcher);
    }
    var tokens := AddRowKeys(vocab, table, base);
    m := tokens;
    RowKeysBound(vocab, base, tokens, table);
    var conflicts := CheckTokensConflicts(table, tokens);
    assert conflicts.Success?;
    if conflicts.value != {} {
      return Failure(TokenConflicts(conflicts.value)), m;
    }
    return Success(tokens), m;
  }
}
