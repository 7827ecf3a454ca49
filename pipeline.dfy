/** The compilation pipeline of `get_parsing_table_and_map_tt` and the objects of
    `generate_grammar_parameters`: the tag processor expands the grammar, the start rule
    gets the end-of-sequence token as an extra alternative, the LL(1) table is built from
    the result and its terminals are bound to tokenizer ids; the automaton starts at
    "S*" and the streamer feeds it. */
module Pipeline {
  import opened Wrappers
  import opened Dicts
  import opened TagRefine
  import opened TagInitial
  import opened TagProcessor
  import LL1
  import TokenMap
  import Automaton
  import Streamer

  /** The key under which the processor stores the alternatives of the start rule. */
  const StartKey: Key := ("S*", "RULE")

  /** `final_grammar[('S*','RULE')].append([eos_token])`: the start rule gains the
      one-token alternative `[eos]` as its last alternative; every other entry and the key
      order stay as they were. Without a start rule the subscript raises `KeyError`. */
  function AddEos(fg: Dict<Key, seq<Tokens>>, eos: string): (r: Result<Dict<Key, seq<Tokens>>, string>)
    ensures r.Failure? <==> StartKey !in fg.items
    ensures r.Success? ==>
              r.value.keys == fg.keys && r.value.items.Keys == fg.items.Keys
              && r.value.items[StartKey] == fg.items[StartKey] + [[eos]]
              && forall k :: k in fg.items && k != StartKey ==> r.value.items[k] == fg.items[k]
    ensures r.Success? && fg.Valid() ==> r.value.Valid()
  {
    if StartKey in fg.items then Success(fg.Put(StartKey, fg.items[StartKey] + [[eos]]))
    else Failure("KeyError: ('S*', 'RULE')")
  }

  /** Every rule of the key at position `k` is among the merged rules of its nonterminal. */
  lemma {:induction false} RulesOfHas(ks: seq<(LL1.Symbol, LL1.Symbol)>, items: map<(LL1.Symbol, LL1.Symbol), seq<LL1.Rule>>,
                                      n: nat, k: nat, rule: LL1.Rule)
    requires n <= |ks| && LL1.KeysIn(ks, items)
    requires k < n && rule in items[ks[k]]
    ensures rule in LL1.RulesOf(ks, items, ks[k].0, n)
  {
    if k < n - 1 {
      RulesOfHas(ks, items, n - 1, k, rule);
    }
  }

  /** Once the grammar is merged by nonterminal, "S*" is a nonterminal of the table's
      grammar and `[eos]` is one of its alternatives. */
  lemma EosAlternative(fg: Dict<Key, seq<Tokens>>, eos: string, g: LL1.Grammar)
    requires fg.Valid() && AddEos(fg, eos).Success?
    requires LL1.Merged(AddEos(fg, eos).value, g)
    ensures LL1.StartSymbol in g.items && [eos] in g.items[LL1.StartSymbol]
  {
    var fg2 := AddEos(fg, eos).value;
    var k :| 0 <= k < |fg2.keys| && fg2.keys[k] == StartKey;
    LL1.MergedNonterminals(fg2, g, LL1.StartSymbol);
    RulesOfHas(fg2.keys, fg2.items, |fg2.keys|, k, [eos]);
  }

  /** When the input grammar has an "S*" rule, a successful processing always has a start
      rule to extend: the `KeyError` can only come from a grammar without "S*". */
  lemma StartRuleKept(tokenizer: Tokenizer, gd: Dict<string, seq<string>>, f: Fields, eos: string)
    requires gd.Valid()
    requires FullGrammar(tokenizer, gd, f).Success?
    ensures "S*" in gd.items ==> AddEos(FullGrammar(tokenizer, gd, f).value.0, eos).Success?
  {
    FullGrammarFacts(tokenizer, gd, f);
  }

  /** Where `get_parsing_table_and_map_tt` stops: the processor's exception, the
      `KeyError` of a missing start rule, the table's or the token map's exception. */
  datatype PipelineError =
    | Processing(message: string)
    | MissingStartRule
    | TableFailed(tableError: LL1.TableError)
    | MapFailed(mapError: TokenMap.MapError)

  /** The grammar the table is built from: the processed grammar with `[eos]` added to
      the start rule, or where that stops. */
  function ExtendedGrammar(tokenizer: Tokenizer, eos: string, productions: Dict<string, seq<string>>)
    : (r: Result<Dict<Key, seq<Tokens>>, PipelineError>)
    requires productions.Valid()
    ensures r.Success? ==> r.value.Valid() && StartKey in r.value.items
                           && r.value.items[StartKey] != [] && r.value.items[StartKey][|r.value.items[StartKey]| - 1] == [eos]
    ensures r.Failure? ==> r.error.Processing? || r.error.MissingStartRule?
    ensures r == Failure(MissingStartRule) ==> "S*" !in productions.items
  {
    var full := FullGrammar(tokenizer, productions, Fields(map[], map[], map[]));
    if full.Failure? then Failure(Processing(full.error))
    else
      FullGrammarFacts(tokenizer, productions, Fields(map[], map[], map[]));
      StartRuleKept(tokenizer, productions, Fields(map[], map[], map[]), eos);
      match AddEos(full.value.0, eos)
      case Failure(_) => Failure(MissingStartRule)
      case Success(fg) => Success(fg)
  }

  /** What the LL(1) construction guarantees of the FIRST and FOLLOW sets of `g`: FIRST
      below every FIRST-closed family, FOLLOW a FOLLOW-closed family from "S*" below every
      other one. */
  ghost predicate FirstFollow(g: LL1.Grammar, fs: LL1.SymbolSets, fo: LL1.SymbolSets) {
    && fs.Keys == g.items.Keys && (forall f :: LL1.FirstClosed(g.items, f) ==> LL1.Below(fs, f))
    && fo.Keys == g.items.Keys && LL1.FollowClosed(LL1.WholeRest, g.items, fs, LL1.StartSymbol, fo)
    && (forall f :: LL1.FollowClosed(LL1.WholeRest, g.items, fs, LL1.StartSymbol, f) ==> LL1.Below(fo, f))
  }

  /** No cell of any row of `g` is claimed by two alternatives. */
  ghost predicate LL1Ok(g: LL1.Grammar, fs: LL1.SymbolSets, fo: LL1.SymbolSets) {
    fo.Keys == g.items.Keys && forall nt :: nt in g.items ==> LL1.Disjoint(LL1.CellSets(fs, fo[nt], g.items[nt]))
  }

  /** `t` is the table of `g`: one row per nonterminal, each holding exactly the cells
      FIRST and FOLLOW give. */
  ghost predicate TableOf(g: LL1.Grammar, fs: LL1.SymbolSets, fo: LL1.SymbolSets, t: LL1.Table) {
    fo.Keys == g.items.Keys && t.Keys == g.items.Keys
    && forall nt :: nt in g.items ==> LL1.RowIs(fs, fo[nt], g.items[nt], t[nt])
  }

  /** Some row of `t` names a terminal that `m` does not bind. */
  ghost predicate Unbound(t: LL1.Table, m: TokenMap.TokenMap) {
    exists nt, a :: nt in t && TokenMap.MissingIn(t[nt], m, a)
  }

  /** `get_parsing_table_and_map_tt(tokenizer, productions, regex_dict)`, with the
      tokenizer's vocabulary, its end-of-sequence string and the regex match as
      parameters; an absent regex dictionary is the empty map. It yields, as ghost
      values, the extended grammar, its merge by nonterminal, its FIRST and FOLLOW sets,
      the table built and the token map built. */
  method GetParsingTableAndMapTt(tokenizer: Tokenizer, eos: string, vocab: TokenMap.Vocab,
                                 productions: Dict<string, seq<string>>,
                                 regexDict: map<string, TokenMap.Pattern>, matcher: TokenMap.Matcher)
    returns (r: Result<(LL1.Table, TokenMap.TokenMap), PipelineError>,
             ghost fg: Dict<Key, seq<Tokens>>, ghost g: LL1.Grammar, ghost fs: LL1.SymbolSets, ghost fo: LL1.SymbolSets,
             ghost t: LL1.Table, ghost m: TokenMap.TokenMap)
    requires productions.Valid()
    ensures var ext := ExtendedGrammar(tokenizer, eos, productions);
      if ext.Failure? then r == Failure(ext.error)
      else ext.value == fg && LL1.Merged(fg, g) && LL1.StartSymbol in g.items && FirstFollow(g, fs, fo)
    ensures (r.Failure? && r.error.TableFailed?) <==>
              ExtendedGrammar(tokenizer, eos, productions).Success? && !LL1Ok(g, fs, fo)
    ensures r.Failure? && r.error.TableFailed? ==>
              r.error.tableError.CellConflict?
              && var c := r.error.tableError.conflict;
                 c.nonterminal in g.items && c.nonterminal in fo
                 && LL1.WrittenTwice(LL1.CellSets(fs, fo[c.nonterminal], g.items[c.nonterminal]), c.terminal)
    ensures ExtendedGrammar(tokenizer, eos, productions).Success? && LL1Ok(g, fs, fo) ==>
              TableOf(g, fs, fo, t)
              && TokenMap.Filled(vocab, TokenMap.RegexEntries(vocab, regexDict, matcher), m, TokenMap.CellSymbols(t, t.Keys) - t.Keys)
    ensures (r.Failure? && r.error.MapFailed?) <==>
              ExtendedGrammar(tokenizer, eos, productions).Success? && LL1Ok(g, fs, fo)
              && (Unbound(t, m) || TokenMap.TableConflicts(t, t.Keys, m) != {})
    ensures r.Failure? && r.error.MapFailed? && r.error.mapError.TokenConflicts? ==>
              r.error.mapError.conflicts == TokenMap.TableConflicts(t, t.Keys, m)
    ensures r.Success? ==> r.value == (t, m) && LL1.StartSymbol in t && TokenMap.TableConflicts(t, t.Keys, m) == {}
  {
    ghost var ext := ExtendedGrammar(tokenizer, eos, productions);
    var processor := new ProductionRuleProcessor(tokenizer);
    var processed := processor.ProcessFullGrammar(productions);
    fg, g, fs, fo, t, m := Empty(), Empty(), map[], map[], map[], map[];
    if processed.Failure? {
      assert ext == Failure(Processing(processed.error));
      return Failure(Processing(processed.error)), fg, g, fs, fo, t, m;
    }
    FullGrammarFacts(tokenizer, productions, Fields(map[], map[], map[]));
    var extended := AddEos(processed.value.0, eos);
    if extended.Failure? {
      assert ext == Failure(MissingStartRule);
      return Failure(MissingStartRule), fg, g, fs, fo, t, m;
    }
    assert ext == Success(extended.value);
    fg := extended.value;
    var table, merged, first, follow := LL1.ParsingTable(extended.value);
    g, fs, fo := merged, first, follow;
    EosAlternative(processed.value.0, eos, g);
    if table.Failure? {
      return Failure(TableFailed(table.error)), fg, g, fs, fo, t, m;
    }
    t := table.value;
    var tokens, built := TokenMap.GenerateTokenMaps(vocab, table.value, regexDict, matcher);
    m := built;
    if tokens.Failure? {
      return Failure(MapFailed(tokens.error)), fg, g, fs, fo, t, m;
    }
    return Success((table.value, tokens.value)), fg, g, fs, fo, t, m;
  }

  /** `generate_grammar_parameters(tokenizer, pars_tab, map_terminal_tokens)`: a fresh
      automaton over the table whose stack holds "S*", and a fresh streamer that feeds it,
      waiting for its first call. */
  method GenerateGrammarParameters(table: LL1.Table, m: TokenMap.TokenMap, eosTokenId: TokenMap.TokenId)
    returns (pda: Automaton.PushdownAutomaton, streamer: Streamer.BaseStreamer)
    ensures fresh(pda) && fresh(streamer)
    ensures pda.stack == [LL1.StartSymbol] && pda.grammar == table && pda.terminalsTokens == m
    ensures streamer.pda == pda && streamer.eosTokenId == eosTokenId && streamer.isFirstCall
  {
    pda := new Automaton.PushdownAutomaton(table, LL1.StartSymbol, m);
    streamer := new Streamer.BaseStreamer(pda, eosTokenId);
  }
}
