# grammarllm, modelled in Dafny

grammarllm constrains the output of a language model to a context-free grammar.
The model and its proofs cover five parts of the system.

- **Tag grammars** come from `ProductionRuleProcessor` in
  `grammarllm/scripts/grammar_generation.py`. Each rule's right-hand sides are split
  into text and `<<tag>>` parts. The tags are tokenised and grouped by their first
  token, and the groups are refined into sub-nonterminals `parent_k` until no list of
  productions has a shared first token. The final productions are built as the code
  builds them: for each position `j`, the expansion of tag `j` and then the words of
  text chunk `j`. When the non-empty productions of a rule share a prefix, the rule is
  stored as the one production `prefix rule_FACT`, with the suffixes under
  `rule_FACT`, and its empty productions are dropped. Both behaviours are recorded
  under Findings, each beside a corrected definition. The refinement's measure, the
  freshness of the sub-nonterminal names and the contents of every stored rule are proved
  (modules `TagExtract`, `TagInitial`, `TagRefine`, `TagFinal`, `TagProcessor`).
- **The LL(1) table**, from `grammarllm/scripts/generate_LL1_parsing_table.py`. FIRST
  is proved sound. FOLLOW is proved to be the least solution of its equations. The
  table holds exactly the entries that FIRST and FOLLOW give (module `LL1`).
- **The terminal token maps**, from `grammarllm/scripts/map_terminal_tokens.py` and
  `scripts/map_terminal_tokens.py`. A terminal gets the vocabulary ids that its regular
  expression accepts, or else the ids its literal pattern `^{re.escape(t)}$` accepts under
  `re.match`: the string equal to the terminal and the terminal followed by a newline. The tokenizer's vocabulary and
  the regular-expression matcher are parameters (modules `TokenMap`, `LegacyTokenMap`).
- **The pushdown automaton and the logits it masks**, from
  `grammarllm/modules/PushdownAutomaton.py` and `grammarllm/modules/BaseStreamer.py`.
  The automaton advances on one token by expanding table rows until a terminal is on
  top. The set of allowed tokens is the terminals reachable from the top of the stack.
  The streamer keeps only those tokens, or the end-of-sequence token once the stack is
  empty. The pipeline appends the end-of-sequence token as in
  `grammarllm/generate_with_constraints.py` (modules `Automaton`, `Streamer`, `Pipeline`).
- **The legacy string-based scripts** under `scripts/`. `table_parsing.py` covers
  FIRST/FOLLOW over strings, the left-factoring `remove_left_recursion` and the table.
  `grammar_generation.py` covers `resolve_rules_conflicts`, the position-indexed name
  generator `generate_non_terminals` and `generate_grammar` (modules `LegacyTable`,
  `LegacyGeneration`, `LegacyNonTerminals`, `LegacyGrammar`, `LegacyNames`).

Python's `str.split`, `" ".join`, `str(n)`, insertion-ordered dictionaries, grouping
with `setdefault` and `sorted` are modelled once each, in the helper modules `Text`,
`Dicts`, `Sorting`, `Collect` and `Wrappers`. The other modules use those definitions.

Methods whose source works by changing state are imperative Dafny with loop
invariants. `ProductionRuleProcessor`, `PushdownAutomaton` and the streamer are
classes whose fields the methods update. Each method is proved against a
specification function. The lemmas about that function state what the source
promises.

## Model

| member | source | states |
|---|---|---|
| Automaton.PushdownAutomaton.constructor | grammarllm/modules/PushdownAutomaton.py:3-24 | a new automaton's stack is `[startSymbol]`, it keeps the table and the id map, no frontier is recorded yet, and the inverse map is exact over every terminal of the map |
| Automaton.AddTerminal | grammarllm/modules/PushdownAutomaton.py:19-24 | adding the ids of one more terminal keeps the inverse map exact over the terminals handled so far |
| Automaton.InverseMember | grammarllm/modules/PushdownAutomaton.py:9-24 | `map_tokens_terminals[tok]` holds `t` iff `tok` is among the ids of `t`, and an id has an entry iff some terminal holds it |
| Automaton.PushdownAutomaton.RecursiveGetTokens | grammarllm/modules/PushdownAutomaton.py:27-53 | the stack copy loses its top; an empty stack gives `[]` and keeps the visited set; otherwise the top becomes visited and the terminals found are exactly the row-less symbols reachable from the top that were not yet visited, each once |
| Automaton.ExploredChild | grammarllm/modules/PushdownAutomaton.py:47-51 | the search of a row key, after the search of the symbols before it, extends the search of the row |
| Automaton.ExploredClose | grammarllm/modules/PushdownAutomaton.py:45-53 | once every key of the top's row is visited, the search of the top is complete |
| Automaton.ExploredIsFrontier | grammarllm/modules/PushdownAutomaton.py:27-56 | the search from the top of the stack with nothing visited finds exactly the frontier: the symbols without a row reachable from the top through row keys |
| Automaton.ClosedHoldsReachable | grammarllm/modules/PushdownAutomaton.py:42-51 | a set of symbols closed under the rows that holds `a` holds every symbol reachable from `a` |
| Automaton.ReachableInSymbols | grammarllm/modules/PushdownAutomaton.py:42-51 | a symbol reachable from `a` is `a` itself or a row name or row key of the table |
| Automaton.PushdownAutomaton.GetTokens | grammarllm/modules/PushdownAutomaton.py:55-68 | the stack is unchanged; the call succeeds iff every frontier terminal has ids and no two share one; the result is the union of the frontier's ids and the frontier is recorded as `current_terminals`; a failed assertion records nothing |
| Automaton.SeqMappedStep | grammarllm/modules/PushdownAutomaton.py:59-64 | one more terminal whose ids are disjoint from those gathered keeps the list pairwise disjoint and adds its ids to the union |
| Automaton.SeqNotMapped | grammarllm/modules/PushdownAutomaton.py:63 | a frontier terminal without ids makes the frontier unmapped (the `KeyError`) |
| Automaton.SeqOverlap | grammarllm/modules/PushdownAutomaton.py:63 | a terminal whose ids meet those of an earlier one makes the assertion fail |
| Automaton.SeqMappedAll | grammarllm/modules/PushdownAutomaton.py:59-68 | a repetition-free, pairwise disjoint list of the frontier is a mapped frontier and its union is the union of the frontier's ids |
| Automaton.Select | grammarllm/modules/PushdownAutomaton.py:72-77 | a selected terminal is the only terminal that both holds the id and is in the recorded frontier |
| Automaton.OneElement | grammarllm/modules/PushdownAutomaton.py:76-77 | `list(check_terminals)[0]` of a one-element set is its element |
| Automaton.PushdownAutomaton.NextState | grammarllm/modules/PushdownAutomaton.py:70-78 | when no single terminal is selected the call fails and the stack is untouched; otherwise the outcome and the new stack are those of advancing the old stack on the selected terminal |
| Automaton.PushdownAutomaton.NextStateTerminal | grammarllm/modules/PushdownAutomaton.py:81-104 | the outcome and the new stack are those of `Advance`: pop, replace a nonterminal by the reversed rule of its cell and repeat, or require the popped terminal to equal the terminal (already popped on failure) |
| Automaton.Reverse | grammarllm/modules/PushdownAutomaton.py:92-93 | `reversed(rule)`: same length, element `i` is element `|s|-1-i` of the rule |
| Automaton.Advance | grammarllm/modules/PushdownAutomaton.py:81-104 | `next_state_terminal` on a stack: a row on top is popped and replaced by the reversed cell of the terminal, a terminal on top must equal it; an empty stack, a missing cell, a mismatch or running out of fuel is an error; `AdvanceFrame` and the automaton's methods state its behaviour |
| Automaton.AdvanceFrame | grammarllm/modules/PushdownAutomaton.py:81-104 | a successful advance only touches the top of the stack: the symbols below are kept unchanged |
| Automaton.AllowedIdSelects | grammarllm/modules/PushdownAutomaton.py:55-78 | every id that `get_tokens` allows is resolved by `next_state` to exactly the frontier terminal whose ids hold it |
| Streamer.BaseStreamer.constructor | grammarllm/modules/BaseStreamer.py:6-9 | a new streamer holds its automaton and the end-of-sequence id and `is_first_call` is true |
| Streamer.BaseStreamer.Put | grammarllm/modules/BaseStreamer.py:11-31 | with an empty stack nothing changes, not even the flag; the first call past that test only clears the flag; a later end-of-sequence id changes nothing on the automaton; any other id is one `next_state` on the automaton, with its outcome |
| Streamer.MaskScores | grammarllm/modules/SimpleLogitProcessor.py:23-67 | the surviving ids are those `get_tokens` allows when there are any, else only the end-of-sequence id when the stack is empty, else no mask; the stack is unchanged and the call fails exactly when `get_tokens` does; on success the frontier is recorded as `current_terminals`, which the next `next_state` reads, and on failure `current_terminals` is unchanged |
| Streamer.EmptyFrontier | grammarllm/modules/PushdownAutomaton.py:31-43 | an empty stack has an empty frontier and a terminal on top is the whole frontier, so the end-of-sequence branch is reached only on an empty stack or a stack whose search finds nothing |
| Pipeline.AddEos | grammarllm/generate_with_constraints.py:19 | the start rule gains `[eos]` as its last alternative, every other entry and the key order are kept, and a grammar without a start rule raises `KeyError` |
| Pipeline.RulesOfHas | grammarllm/scripts/generate_LL1_parsing_table.py:96-98 | every rule of a key is among the merged rules of its nonterminal |
| Pipeline.EosAlternative | grammarllm/generate_with_constraints.py:19-21 | after merging by nonterminal, "S*" is a nonterminal of the table's grammar and `[eos]` is one of its alternatives |
| Pipeline.StartRuleKept | grammarllm/scripts/grammar_generation.py:363-425 | when the input grammar has an "S*" rule, a successful expansion keeps a start rule for `[eos]` to extend |
| Pipeline.ExtendedGrammar | grammarllm/generate_with_constraints.py:12-21 | the extended grammar is well formed and its start rule ends with `[eos]`; it stops only on the processor's error or the `KeyError`, and the `KeyError` only for an input without "S*" |
| Pipeline.GetParsingTableAndMapTt | grammarllm/generate_with_constraints.py:12-34 | the processor's error or the missing start rule is reported as such; otherwise the grammar merged by nonterminal has "S*", FIRST is below every FIRST-closed family and FOLLOW is the least FOLLOW-closed family; the table fails iff some row has a cell claimed twice, and then with a cell written twice; a built table has exactly the rows FIRST and FOLLOW give; the token map is the regex-class map plus the literal ids of every other cell symbol, and it fails iff a row key is unbound or a row has a conflict; success returns exactly that table and that map |
| Pipeline.GenerateGrammarParameters | grammarllm/generate_with_constraints.py:36-39 | a fresh automaton over the table whose stack is `["S*"]`, and a fresh streamer on it waiting for its first call |
| LL1.FirstOfString | grammarllm/scripts/generate_LL1_parsing_table.py:5-21 | `compute_first_of_string`: an empty string gives `{ε}`, and a first symbol without an entry is taken as a terminal and is the whole result |
| LL1.FirstOfStringMember | grammarllm/scripts/generate_LL1_parsing_table.py:5-21 | `ε` is in the result iff every symbol has an entry holding `ε`; any other symbol is in it iff it is contributed by some symbol reached through such a nullable prefix (its entry without `ε`, or the symbol itself when it has no entry) |
| LL1.SeqFirstMono | grammarllm/scripts/generate_LL1_parsing_table.py:24-45 | FIRST of a sequence is monotone in the memo |
| LL1.SeqFirstIsFirstOfString | grammarllm/scripts/generate_LL1_parsing_table.py:5-45 | once every nonterminal has an entry, `calculate_first_of_sequence` and `compute_first_of_string` agree |
| LL1.FindFirst | grammarllm/scripts/generate_LL1_parsing_table.py:23-62 | a memoised symbol returns its stored set and a terminal `{symbol}`; a nonterminal gets an entry; entries present before are never changed; every new entry holds `ε` for an `['ε']` production and the leading terminal of each production; and every stored set is below every solution of the FIRST equations (soundness) |
| LL1.CalcFirstOfSequence | grammarllm/scripts/generate_LL1_parsing_table.py:24-45 | an empty sequence gives `{ε}`; the result is the FIRST scan of the sequence over the memo it leaves, with the same memo guarantees as `find_first` |
| LL1.ComputeFirstSets | grammarllm/scripts/generate_LL1_parsing_table.py:140-142 | every nonterminal gets a FIRST entry and the family is below every solution of the FIRST equations |
| LL1.ClosedAt | grammarllm/scripts/generate_LL1_parsing_table.py:73-86 | a solution of the FOLLOW equations meets the condition at every occurrence `lhs -> α N β`: FIRST(β) without `ε` is in FOLLOW(N), and FOLLOW(lhs) is when β is empty or nullable |
| LL1.InUniverse | grammarllm/scripts/generate_LL1_parsing_table.py:78-86 | what an occurrence passes on stays in a finite universe of symbols |
| LL1.UniverseIsOk | grammarllm/scripts/generate_LL1_parsing_table.py:65-86 | the universe holds `$` and everything any occurrence passes on |
| LL1.UnmetShrinks | grammarllm/scripts/generate_LL1_parsing_table.py:68-89 | a pass that grows a set shrinks the finite set of missing (nonterminal, symbol) pairs, so the `while changed` loop ends |
| LL1.GrownBounds | grammarllm/scripts/generate_LL1_parsing_table.py:78-86 | the body only adds to FOLLOW(N) and stays within the universe |
| LL1.GrownBelow | grammarllm/scripts/generate_LL1_parsing_table.py:78-86 | the body keeps the family below every solution of the FOLLOW equations |
| LL1.Enlarge | grammarllm/scripts/generate_LL1_parsing_table.py:81-86 | enlarging one set keeps every other set, the universe bound and the growth since the start of the pass |
| LL1.GrowStep | grammarllm/scripts/generate_LL1_parsing_table.py:75-89 | a growing body keeps the pass invariant, records `changed` and meets the occurrence's condition |
| LL1.NoGrowth | grammarllm/scripts/generate_LL1_parsing_table.py:75-89 | a body that adds nothing finds the occurrence's condition already met |
| LL1.Grow | grammarllm/scripts/generate_LL1_parsing_table.py:78-86 | the new FOLLOW(N) computed by the two branches of the body |
| LL1.FollowAt | grammarllm/scripts/generate_LL1_parsing_table.py:74-89 | the body for one occurrence keeps the pass invariant, sets `changed` only on growth, changes nothing without it, and leaves the occurrence's condition met |
| LL1.FollowRules | grammarllm/scripts/generate_LL1_parsing_table.py:72-89 | the loop over one nonterminal's productions keeps the pass invariant; without growth every occurrence in them meets its condition |
| LL1.FollowPass | grammarllm/scripts/generate_LL1_parsing_table.py:70-89 | one pass keeps the family growing within the universe and below every solution; a pass without growth leaves every occurrence's condition met |
| LL1.SameSizeSame | grammarllm/scripts/generate_LL1_parsing_table.py:88-89 | a set that only grew and kept its size is unchanged, so `len(...) > old_size` detects every growth |
| LL1.Follow | grammarllm/scripts/generate_LL1_parsing_table.py:64-91 | a start symbol that is not a nonterminal is the `KeyError`; otherwise every nonterminal has a set, `$` is in FOLLOW(start), and the family is the least solution of the FOLLOW equations |
| LL1.CellsOf | grammarllm/scripts/generate_LL1_parsing_table.py:121-131 | rule `j` makes write `2j` of its FIRST terminals with the rule and write `2j+1` of FOLLOW with `[]` when it is nullable |
| LL1.WriteCell | grammarllm/scripts/generate_LL1_parsing_table.py:126 | writing a free cell records the write that owns it |
| LL1.Clash | grammarllm/scripts/generate_LL1_parsing_table.py:124-125 | a write meeting a filled cell meets an earlier write of the same terminal, so the writes are not disjoint |
| LL1.NextWrite | grammarllm/scripts/generate_LL1_parsing_table.py:123-131 | a finished write passes to the next one |
| LL1.AllWritten | grammarllm/scripts/generate_LL1_parsing_table.py:119-131 | once every write is done the writes are disjoint and the row holds exactly the written cells |
| LL1.EnterCells | grammarllm/scripts/generate_LL1_parsing_table.py:123-131 | the inner loop of one write: either every terminal is entered, or the `ValueError` names a terminal held by an earlier write |
| LL1.EnterRule | grammarllm/scripts/generate_LL1_parsing_table.py:121-131 | the FIRST writes of a rule, then its FOLLOW writes when it is nullable, or the conflict |
| LL1.BuildRow | grammarllm/scripts/generate_LL1_parsing_table.py:119-131 | a row is built iff no terminal is written twice; it then holds exactly the written cells with their values; a failure names a terminal written twice |
| LL1.DropEndMarker | grammarllm/scripts/generate_LL1_parsing_table.py:132-133 | removing `$` from a full row gives the finished row |
| LL1.RowCells | grammarllm/scripts/generate_LL1_parsing_table.py:121-131 | in a finished row every terminal of FIRST(rule) except `$` selects that rule, and when the rule is nullable every terminal of FOLLOW selects `[]` |
| LL1.DropEndMarkers | grammarllm/scripts/generate_LL1_parsing_table.py:132-133 | the same rows, each without `$` |
| LL1.RowsWritten | grammarllm/scripts/generate_LL1_parsing_table.py:118-131 | writing a row keeps the rows written before it |
| LL1.WriteRows | grammarllm/scripts/generate_LL1_parsing_table.py:118-131 | the rows are written iff no row writes a terminal twice; each holds exactly its written cells; a failure names a nonterminal and a terminal written twice |
| LL1.ComputeParsingTable | grammarllm/scripts/generate_LL1_parsing_table.py:112-134 | a row per nonterminal holding exactly its written cells except `$`, iff no cell is written twice; otherwise the `ValueError` with the doubly written cell |
| LL1.KeyNtsMember | grammarllm/scripts/generate_LL1_parsing_table.py:96-98 | the `defaultdict` gets a nonterminal iff some key names it, once, in order of first occurrence |
| LL1.RulesOfAbsent | grammarllm/scripts/generate_LL1_parsing_table.py:96-98 | a nonterminal no key names has no rules |
| LL1.MergeStep | grammarllm/scripts/generate_LL1_parsing_table.py:97-98 | one `extend` keeps the merged grammar exact over the keys seen |
| LL1.Merge | grammarllm/scripts/generate_LL1_parsing_table.py:96-98 | the merged grammar lists the nonterminals of the keys in order of first occurrence, each with the concatenated rules of its keys in key order |
| LL1.MergedNonterminals | grammarllm/scripts/generate_LL1_parsing_table.py:96-98 | a nonterminal is in the merged grammar iff some key names it |
| LL1.ParsingTable | grammarllm/scripts/generate_LL1_parsing_table.py:93-156 | the merged grammar, its sound FIRST sets, and with "S*" its least FOLLOW sets; a table with a row per nonterminal holding exactly the cells of the construction iff "S*" is a nonterminal and no cell is written twice; otherwise the missing start or the doubly written cell |
| TokenMap.StripPrefixInjective | grammarllm/scripts/map_terminal_tokens.py:33-37 | two `regex_` names with the same remainder are the same name, so `name[6:]` loses no entry |
| TokenMap.RegexEntries | grammarllm/scripts/map_terminal_tokens.py:31-37 | a terminal has a regex-class entry iff `regex_` followed by it is a name of the dictionary, and its ids are those of the vocabulary strings the class's `match` accepts |
| TokenMap.LiteralIds | grammarllm/scripts/map_terminal_tokens.py:45-46 | the exact-equality ids: the id of the vocabulary string equal to the terminal, if there is one. This is the intended match of the third Findings row; the code as written is `TokenMap.LiteralIdsAsWritten` |
| TokenMap.LiteralIdsAsWritten | grammarllm/scripts/map_terminal_tokens.py:45-46 | the ids `^{re.escape(t)}$` collects include the literal ids and the id of `t + "\n"` |
| TokenMap.LiteralIdsAsWrittenIs | grammarllm/scripts/map_terminal_tokens.py:45-46 | the ids the literal pattern collects are exactly the id of `t` and the id of `t + "\n"`, each when the vocabulary has that string |
| TokenMap.TrailingNewlineMatches | grammarllm/scripts/map_terminal_tokens.py:45 | the literal pattern of `yes` also accepts the vocabulary string `"yes\n"` |
| TokenMap.RowSymbolsStep | grammarllm/scripts/map_terminal_tokens.py:40 | the symbols of a row grow cell by cell |
| TokenMap.CellSymbolsStep | grammarllm/scripts/map_terminal_tokens.py:39 | the symbols of the table grow row by row |
| TokenMap.Filled | grammarllm/scripts/map_terminal_tokens.py:29-46 | the invariant of the literal loop: the keys are those of the regex-class map and the symbols added, a regex-class entry is kept and an added symbol holds the ids its literal pattern accepts |
| TokenMap.FillStep | grammarllm/scripts/map_terminal_tokens.py:43-46 | a terminal already bound keeps its entry, a new one gets the ids its literal pattern `^{re.escape(t)}$` accepts |
| TokenMap.AddCell | grammarllm/scripts/map_terminal_tokens.py:41-46 | the symbols of one cell other than the row keys are bound to the ids their literal pattern accepts, the entries present before kept |
| TokenMap.AddRow | grammarllm/scripts/map_terminal_tokens.py:40-46 | the symbols of every cell of a row other than the row keys are bound to the ids their literal pattern accepts, the entries present before kept |
| TokenMap.AddLiterals | grammarllm/scripts/map_terminal_tokens.py:39-46 | afterwards the map is the regex-class map plus every cell symbol that is not a row key, bound to the ids its literal pattern `^{re.escape(t)}$` accepts |
| TokenMap.CheckPairs | grammarllm/scripts/map_terminal_tokens.py:12-17 | for one key against the later keys of the row: the `KeyError` of a key without an entry, or exactly the pairs whose ids meet |
| TokenMap.PairsFromStep | grammarllm/scripts/map_terminal_tokens.py:12 | `itertools.combinations` visits each unordered pair of keys once |
| TokenMap.CheckRow | grammarllm/scripts/map_terminal_tokens.py:12-17 | one row fails iff some key of a row with several keys has no entry; otherwise the conflicts are exactly the unordered pairs of distinct keys whose ids meet |
| TokenMap.TableConflictsStep | grammarllm/scripts/map_terminal_tokens.py:10-17 | the conflicts of the table are those of its rows |
| TokenMap.CheckTokensConflicts | grammarllm/scripts/map_terminal_tokens.py:8-25 | the `KeyError` iff some row key lacks an entry; otherwise exactly the conflicting pairs of every row |
| TokenMap.NoConflictsDisjoint | grammarllm/scripts/map_terminal_tokens.py:10-17 | a map that passes the check binds every key of a row with several keys, and two different keys of one row have disjoint ids |
| TokenMap.GenerateTokenMaps | grammarllm/scripts/map_terminal_tokens.py:6-54 | the map is the regex-class map, then every cell symbol that is not a nonterminal and not yet bound gets the ids its literal pattern accepts (`t` and `t + "\n"`); the result is that map iff no row key is unbound and no row has a conflict; otherwise the `KeyError` or the `ValueError` listing all the conflicts |
| TokenMap.FilledEntries | grammarllm/scripts/map_terminal_tokens.py:29-46 | a regex-class entry is never overwritten, a nonterminal never gets a literal entry, every other cell symbol `t` gets the ids of the vocabulary strings `t` and `t + "\n"`, and nothing else is bound |
| LegacyTokenMap.KeySymbolsStep | scripts/map_terminal_tokens.py:34-35 | the row keys of the table grow row by row |
| LegacyTokenMap.AddKeys | scripts/map_terminal_tokens.py:35-39 | the keys of one row are bound to the ids their literal pattern accepts, the entries present before kept |
| LegacyTokenMap.AddRowKeys | scripts/map_terminal_tokens.py:34-47 | in both branches every row key without an entry is bound to the ids its literal pattern accepts, the regex-class entries kept |
| LegacyTokenMap.RowKeysBound | scripts/map_terminal_tokens.py:49 | once every row key is bound the check cannot raise `KeyError` |
| LegacyTokenMap.LegacyGenerateTokenMaps | scripts/map_terminal_tokens.py:6-55 | the regex-class map (empty without a dictionary), then every row key bound to the ids its literal pattern `^{re.escape(t)}$` accepts; the result is that map iff no row has a conflict, else the `ValueError` with all the conflicts |
| TagExtract.TagEnd | grammarllm/scripts/grammar_generation.py:18 | the lazy `(.+?)>>`: the first `>>` after at least one content character, reached without crossing a newline; none when a newline comes before every later `>>` |
| TagExtract.MatchAt | grammarllm/scripts/grammar_generation.py:18 | a match at `p` is `<<`, at least one character other than a newline, then `>>` |
| TagExtract.NextMatch | grammarllm/scripts/grammar_generation.py:22 | `finditer`/`re.search` from a position: the leftmost match at or after it, or none at all |
| TagExtract.FullMatchTag | grammarllm/scripts/grammar_generation.py:50-52 | `re.fullmatch(tag_pattern, w)`: `w` is `<<c>>` with a non-empty, newline-free content `c`, which `group(1)` gives |
| TagExtract.MatchIsTag | grammarllm/scripts/grammar_generation.py:33-52 | `match.group(0)`, taken again as a word, is a full match whose content is the match's content |
| TagExtract.TagsOfConcat | grammarllm/scripts/grammar_generation.py:49-58 | the tags and the literal words of a concatenation are those of its parts |
| TagExtract.WordsHaveNoTag | grammarllm/scripts/grammar_generation.py:49-58 | words none of which is a whole tag give no tags and are all literal |
| TagExtract.SmartSplitTags | grammarllm/scripts/grammar_generation.py:20-41 | the tags of `smart_split` are exactly the contents of the successive matches, and its other parts are the whitespace-split text between them |
| TagExtract.NoMatchTags | grammarllm/scripts/grammar_generation.py:36-39 | the text after the last match is all words |
| TagExtract.MatchTagStep | grammarllm/scripts/grammar_generation.py:26-34 | one match: the words before it, then its content as a tag |
| TagExtract.SmartSplitStep | grammarllm/scripts/grammar_generation.py:26-34 | one match adds the split text before it and the whole match |
| TagExtract.PartsStep | grammarllm/scripts/grammar_generation.py:49-58 | literal words, then one whole tag, then the rest |
| TagExtract.SmartSplitWordsAreWords | grammarllm/scripts/grammar_generation.py:28-39 | the text parts are non-empty and space-free |
| TagExtract.ChunksFlatten | grammarllm/scripts/grammar_generation.py:48-62 | the chunks between tags hold every non-tag word once, in order, and none of them is empty |
| TagExtract.OthersOf | grammarllm/scripts/grammar_generation.py:54-66 | each chunk re-joined with single spaces, or `[None]` when there is no literal text |
| TagExtract.OthersWordsOfChunks | grammarllm/scripts/grammar_generation.py:54-62 | splitting the joined chunks again gives back their words |
| TagExtract.ExtractItem | grammarllm/scripts/grammar_generation.py:43-72 | an alternative without a tag gives `([], [item])`; a tagged one gives the contents of its whole-tag parts, and others `[None]` exactly when it has no literal text |
| TagExtract.TagWordMatches | grammarllm/scripts/grammar_generation.py:22-50 | a whole tag standing anywhere in the text is a match at its position |
| TagExtract.NoTagWordsBefore | grammarllm/scripts/grammar_generation.py:26-50 | no word of a stretch where no match starts is itself a whole tag |
| TagExtract.ExtractedParts | grammarllm/scripts/grammar_generation.py:43-69 | in a tagged alternative the tags are the contents of the successive matches in order, without their delimiters, and the literal text, re-split, is the words outside the matches |
| TagExtract.ChunkWords | grammarllm/scripts/grammar_generation.py:48-62 | every chunk is a list of words |
| TagExtract.ExtractTagsAndOthers | grammarllm/scripts/grammar_generation.py:14-74 | two lists as long as the input, entry `i` of each being that of alternative `i` |
| TagInitial.TokenizeTag | grammarllm/scripts/grammar_generation.py:76-85 | without a tokenizer the whole tag is its one token |
| TagInitial.Tokenized | grammarllm/scripts/grammar_generation.py:90 | every non-empty tag of the rule once, in order of first occurrence, with its tokens |
| TagInitial.GroupsOf | grammarllm/scripts/grammar_generation.py:93-100 | only groups of at least two tags are kept |
| TagInitial.Ungrouped | grammarllm/scripts/grammar_generation.py:103-104 | the tags of the input, in input order, that stand in no group |
| TagInitial.PrefixGroups | grammarllm/scripts/grammar_generation.py:88-114 | the kept groups, each of at least two tags, and the ungrouped tags |
| TagInitial.EntriesFacts | grammarllm/scripts/grammar_generation.py:90-94 | each entry is a non-empty tag of the rule with its tokens, every such tag has an entry, and no tag has two |
| TagInitial.GroupsPick | grammarllm/scripts/grammar_generation.py:94-100 | a first token is kept iff it starts two entries or more, and its group is the entries it starts, in order |
| TagInitial.PickEntry | grammarllm/scripts/grammar_generation.py:95-97 | a member of the group of `p` is `(tag, tokens[1:])` of an entry whose tokens start with `p` |
| TagInitial.GroupEntry | grammarllm/scripts/grammar_generation.py:94-100 | `(tag, suffix)` is in the group of `p` iff the tag is a non-empty tag of the rule whose tokens are `p` followed by `suffix` |
| TagInitial.GroupTagsDistinct | grammarllm/scripts/grammar_generation.py:90-100 | no tag stands twice in a group |
| TagInitial.PrefixGroupsPartition | grammarllm/scripts/grammar_generation.py:93-104 | every input tag is either in `ungrouped_tags` or in the group of its first token, once, and in no other group |
| TagInitial.GroupOfTag | grammarllm/scripts/grammar_generation.py:94-103 | a tag is grouped iff it is a non-empty tag with a token whose first token's group is kept, and only in that group |
| TagInitial.GroupKept | grammarllm/scripts/grammar_generation.py:99-100 | a first token's group is kept iff two different tags start with it |
| TagInitial.SuffixLists | grammarllm/scripts/grammar_generation.py:136 | the suffixes of a group, in order |
| TagInitial.InitialRules | grammarllm/scripts/grammar_generation.py:121-150 | the first grammar of a rule is a well-formed dictionary |
| TagInitial.InitialRulesHas | grammarllm/scripts/grammar_generation.py:125-137 | the `i`-th group has the key `(rule_TAG_NTi, prefix)` holding its suffixes when one of its tags has more than one token |
| TagInitial.InitialRulesOnly | grammarllm/scripts/grammar_generation.py:125-137 | every key of the first grammar is the key of such a group |
| TagInitial.InitialRulesFresh | grammarllm/scripts/grammar_generation.py:133 | no name of the first grammar reads as a sub-nonterminal name `parent_k` |
| TagInitial.MapKeyInjective | grammarllm/scripts/grammar_generation.py:130 | the keys `rule::tag` of two tags of one rule differ |
| TagInitial.MapAllAt | grammarllm/scripts/grammar_generation.py:128-140 | the tags of a group are mapped to its target, every other key keeps its entry |
| TagInitial.MapGroupsAt | grammarllm/scripts/grammar_generation.py:125-140 | a tag of the `i`-th group is mapped to its target (`prefix` when all its tags are one token, `prefix rule_TAG_NTi` otherwise); a tag of no group keeps its entry |
| TagInitial.MapUngroupedAt | grammarllm/scripts/grammar_generation.py:143-147 | an ungrouped tag is mapped to its tokens joined by spaces; any other keeps its entry |
| TagInitial.InitialTagMapping | grammarllm/scripts/grammar_generation.py:116-147 | after the first grammar of a rule every tag of the rule is mapped: a grouped tag to its group's target, any other tag to its tokens joined by spaces |
| TagRefine.CommonPrefixes | grammarllm/scripts/grammar_generation.py:153-168 | a first token is a key iff there are two lists or more and at least two of them start with it; its value is the suffixes, after it, of the lists it starts, in order |
| TagRefine.SuffixesRestore | grammarllm/scripts/grammar_generation.py:159-164 | a suffix stored under `p` is exactly what follows `p` in one of the lists |
| TagRefine.SplitSubNameOf | grammarllm/scripts/grammar_generation.py:170-175 | the name `parent_n` reads back as the parent and the number |
| TagRefine.SubNameInjective | grammarllm/scripts/grammar_generation.py:170-175 | two sub-nonterminal names are equal only for the same parent and the same number, so no name is handed out twice |
| TagRefine.InitialNameNotSub | grammarllm/scripts/grammar_generation.py:133 | a name `rule_TAG_NTi` of the first grammar never reads as a sub-nonterminal name |
| TagRefine.InitialNameInjective | grammarllm/scripts/grammar_generation.py:133 | different group indices give different names |
| TagRefine.NextNameIsFresh | grammarllm/scripts/grammar_generation.py:170-175 | the next name of a parent is not yet a key of a grammar the counters are not behind |
| TagRefine.Heads | grammarllm/scripts/grammar_generation.py:193-195 | one `[common_prefix, new_nt]` per common prefix, the names numbered one after another from the parent's counter |
| TagRefine.RewritableIff | grammarllm/scripts/grammar_generation.py:187-190 | a key is rewritten exactly when two of its alternatives start with the same token |
| TagRefine.KeptSuffixes | grammarllm/scripts/grammar_generation.py:199-203 | the alternatives kept as they were start with no common prefix |
| TagRefine.RewrittenNotRewritable | grammarllm/scripts/grammar_generation.py:191-205 | after its rewrite no two alternatives of the key share a first token |
| TagRefine.MeasurePut | grammarllm/scripts/grammar_generation.py:196-205 | storing a key changes the measure by the change of that key's weight |
| TagRefine.SuffixTotals | grammarllm/scripts/grammar_generation.py:193-196 | the suffix groups weigh at most half of the lists they come from |
| TagRefine.AddSubRulesFresh | grammarllm/scripts/grammar_generation.py:193-197 | the sub-rules go under new names: every key already in the grammar keeps its alternatives |
| TagRefine.AddSubRulesMeasure | grammarllm/scripts/grammar_generation.py:193-197 | the sub-rules raise the measure by no more than the weight of the suffix groups |
| TagRefine.AddSubRulesAt | grammarllm/scripts/grammar_generation.py:193-197 | the `j`-th common prefix is stored under the `j`-th new name with its suffix group |
| TagRefine.AddSubRulesNames | grammarllm/scripts/grammar_generation.py:170-175 | moved past the new names, the counters are still ahead of every name in the grammar |
| TagRefine.StepFrame | grammarllm/scripts/grammar_generation.py:182-205 | one key of the pass changes only that key and adds keys under new names |
| TagRefine.StepCounter | grammarllm/scripts/grammar_generation.py:182-205 | one key of the pass only raises counters and keeps them ahead of every name |
| TagRefine.StepUnchanged | grammarllm/scripts/grammar_generation.py:187-190 | a key with no shared first token leaves the grammar, the counters and `changed` as they were |
| TagRefine.StepKey | grammarllm/scripts/grammar_generation.py:182-205 | after its step a key has no two alternatives sharing a first token, and `changed` is set iff it was rewritten (or already set) |
| TagRefine.StepMeasure | grammarllm/scripts/grammar_generation.py:182-205 | one key's step lowers twice the measure by at least that key's weight |
| TagRefine.IterateFresh | grammarllm/scripts/grammar_generation.py:179-205 | after the first `i` keys the grammar is well formed, the counters only grew and stay ahead, and the keys not yet visited are untouched |
| TagRefine.IterateVisited | grammarllm/scripts/grammar_generation.py:179-205 | after the first `i` keys, none of them has two alternatives sharing a first token |
| TagRefine.IterateLast | grammarllm/scripts/grammar_generation.py:182-205 | the step for key `i - 1` keeps every other entry, factors that key and sets `changed` iff it was rewritten |
| TagRefine.IterateChanged | grammarllm/scripts/grammar_generation.py:180-197 | after the first `i` keys, `changed` holds iff one of them shared a first token |
| TagRefine.IterateMeasure | grammarllm/scripts/grammar_generation.py:179-205 | the first `i` keys lower twice the measure by their own weight |
| TagRefine.IterateUnchanged | grammarllm/scripts/grammar_generation.py:179-207 | a pass that reports no change returns the grammar and the counters it was given |
| TagRefine.PassFactors | grammarllm/scripts/grammar_generation.py:177-207 | a pass keeps the grammar well formed and fresh, only adds keys, and leaves no key whose alternatives share a first token |
| TagRefine.PassChanged | grammarllm/scripts/grammar_generation.py:177-207 | a pass reports a change iff some key had alternatives sharing a first token, and otherwise changes nothing |
| TagRefine.PassMeasure | grammarllm/scripts/grammar_generation.py:238-248 | a pass at least halves the measure and lowers it when it changes anything, so the refinement loop stops |
| TagFinal.NonEmpty | grammarllm/scripts/grammar_generation.py:277 | the productions of positive length, and only those |
| TagFinal.MinLen | grammarllm/scripts/grammar_generation.py:277 | the length of a shortest production, and no production is shorter |
| TagFinal.Shorter | grammarllm/scripts/grammar_generation.py:301-303 | the productions shorter than the common prefix, and only those |
| TagFinal.SuffixesAfter | grammarllm/scripts/grammar_generation.py:294-300 | each production at least as long as the prefix contributes what follows the prefix, and nothing else is a suffix |
| TagFinal.PrefixFromShared | grammarllm/scripts/grammar_generation.py:279-284 | the prefix found is shared by every non-empty production and stops at the shortest length or where two differ |
| TagFinal.FindCommonPrefixesInProductions | grammarllm/scripts/grammar_generation.py:254-311 | `find_common_prefixes_in_productions` on list productions, whose behaviour `FactoringFails`, `FactoringNone` and `FactoringRestores` state |
| TagFinal.FactoringFails | grammarllm/scripts/grammar_generation.py:276-277 | the factoring fails, as `min` of nothing raises, exactly when there are two productions or more and all are empty |
| TagFinal.FactoringNone | grammarllm/scripts/grammar_generation.py:256-287 | without a common prefix the productions come back unchanged, which happens iff there is at most one production or two non-empty ones start differently |
| TagFinal.FactoringRestores | grammarllm/scripts/grammar_generation.py:254-311 | a factoring's prefix is the longest one shared by all non-empty productions, each of them is the prefix and a suffix, each suffix completes the prefix to a production, and what is left is the empty productions |
| TagFinal.SharedPrefix | grammarllm/scripts/grammar_generation.py:294-300 | every non-empty production is the shared prefix followed by one of the suffixes, and each suffix completes the prefix to a production |
| TagFinal.LongestPrefix | grammarllm/scripts/grammar_generation.py:279-284 | the prefix cannot be extended: some production ends there or two differ at the next position |
| TagFinal.TagTokens | grammarllm/scripts/grammar_generation.py:338-346 | a tag becomes the words of its `lhs::tag` mapping, or `<<tag>>` when that is missing or empty |
| TagFinal.OtherTokens | grammarllm/scripts/grammar_generation.py:349-351 | a literal chunk becomes its words, a missing one nothing |
| TagFinal.AlternateStep | grammarllm/scripts/grammar_generation.py:336-351 | one more position `j` of the loop appends tag `j`'s tokens, then chunk `j`'s words, before the rest |
| TagFinal.ProductionOf | grammarllm/scripts/grammar_generation.py:331-351 | `production_sublist` of one alternative, as written: for each `j` below the larger count, tag `j`'s tokens then chunk `j`'s words; `ProductionNoTag` and `TagBeforeText` state what it gives |
| TagFinal.ProductionNoTag | grammarllm/scripts/grammar_generation.py:327-351 | an alternative without tags becomes its words |
| TagFinal.Productions | grammarllm/scripts/grammar_generation.py:327-351 | one production per alternative, in order, each the alternative's `production_sublist` |
| TagFinal.FinalProductions | grammarllm/scripts/grammar_generation.py:313-361 | `create_final_productions_for_rule` as written: the productions of the alternatives, collected; `FinalProductionsFacts` states what it holds |
| TagFinal.FinalProductionsFacts | grammarllm/scripts/grammar_generation.py:313-361 | the final productions are exactly the alternatives' productions, a non-empty one only once, and no more of them than alternatives |
| TagFinal.Collect | grammarllm/scripts/grammar_generation.py:353-359 | the productions collected are those built, a non-empty one only once |
| TagFinal.CollectKeepsEmpties | grammarllm/scripts/grammar_generation.py:357-358 | an empty production is kept each time it occurs |
| TagFinal.TagBeforeText | grammarllm/scripts/grammar_generation.py:336-351 | as written, for `x <<t>>` the tag is emitted before the text that precedes it |
| TagFinal.TextBetweenTags | grammarllm/scripts/grammar_generation.py:331-351 | as written, `<<a>> <<b>> y` splits into `<<a>>`, `<<b>>`, `y` and becomes `<<a>> y <<b>>`: the text after the second tag is emitted between the two |
| TagFinal.PartTokens | grammarllm/scripts/grammar_generation.py:338-351 | a part that is not a tag stays as written |
| TagFinal.PartsUnmapped | grammarllm/scripts/grammar_generation.py:346 | parts whose tags are all unmapped come out unchanged |
| TagFinal.OrderedProductionOf | grammarllm/scripts/grammar_generation.py:336-351 | the corrected production of one alternative: every part expanded where it is written; `OrderedUnmapped` and `TextBeforeTagKept` state what it gives |
| TagFinal.OrderedUnmapped | grammarllm/scripts/grammar_generation.py:336-351 | expanded in place, an alternative whose tags are unmapped keeps its parts in their written order |
| TagFinal.SameWithoutTags | grammarllm/scripts/grammar_generation.py:327-351 | on alternatives without tags the written and the in-place expansion agree |
| TagFinal.TextBeforeTagKept | grammarllm/scripts/grammar_generation.py:336-351 | expanded in place, `x <<t>>` keeps the text before the tag |
| TagFinal.RuleEntries | grammarllm/scripts/grammar_generation.py:404-422 | what `process_full_grammar` stores for one rule, as written: the productions under `(lhs, "RULE")`, or, factored, `[prefix + [lhs_FACT]]` there and the suffixes under `(lhs_FACT, "RULE")`; `RuleEntriesUnfactored` and `RuleEntriesDropEmpty` state its behaviour |
| TagFinal.FactoredRuleEntries | grammarllm/scripts/grammar_generation.py:404-422 | the corrected storing, with the left-over productions kept beside `prefix + [lhs_FACT]`; `FactoredKeepsAlternatives` states its behaviour |
| TagFinal.RuleEntriesUnfactored | grammarllm/scripts/grammar_generation.py:405-422 | both storings fail exactly when the factoring does, and without a factoring store the productions unchanged under `(lhs, "RULE")` |
| TagFinal.FactoredDerives | grammarllm/scripts/grammar_generation.py:405-419 | the factored alternative derives exactly the non-empty productions, and beside the left-over empty ones all of them |
| TagFinal.RuleEntriesDropEmpty | grammarllm/scripts/grammar_generation.py:407-419 | as written, a factored rule derives exactly the non-empty productions, so an empty alternative is lost |
| TagFinal.FactoredKeepsAlternatives | grammarllm/scripts/grammar_generation.py:407-419 | keeping the left-over productions beside the factored one, the rule derives exactly its productions |
| TagFinal.ExampleFactoring | grammarllm/scripts/grammar_generation.py:254-311 | `[[], ["a"]]` factors to prefix `["a"]`, suffix `[]`, and leaves `[[]]` |
| TagFinal.EmptyAlternativeLost | grammarllm/scripts/grammar_generation.py:407-419 | for `[[], ["a"]]` the stored rule is `[["a", "S_FACT"]]` as written and keeps `[]` when corrected |
| TagProcessor.ValidTags | grammarllm/scripts/grammar_generation.py:215 | exactly the tags that are non-empty and not blank, in order |
| TagProcessor.Refine | grammarllm/scripts/grammar_generation.py:238-248 | the loop ends, on a well-formed grammar |
| TagProcessor.RefineFactored | grammarllm/scripts/grammar_generation.py:238-248 | the loop stops at a grammar no pass changes: well formed, fresh, keeping every key it started with, no key with two alternatives sharing a first token, counters only grown |
| TagProcessor.SubNamesDistinct | grammarllm/scripts/grammar_generation.py:170-175 | the names handed out for one parent never repeat |
| TagProcessor.BuildRule | grammarllm/scripts/grammar_generation.py:210-252 | no valid tag gives the empty grammar and leaves the fields alone; otherwise the refined grammar is stored for the rule |
| TagProcessor.BuildRuleFactored | grammarllm/scripts/grammar_generation.py:210-252 | a built tag grammar has no key whose alternatives share a first token, a pass over it changes nothing, and the counters only grew |
| TagProcessor.AddTagsFacts | grammarllm/scripts/grammar_generation.py:384-387 | the collected tags stay distinct and are those already collected and the non-empty new ones |
| TagProcessor.RuleTagsFacts | grammarllm/scripts/grammar_generation.py:381-387 | the tags of a rule are distinct, and a tag is among them iff it is a non-empty tag of one of its alternatives |
| TagProcessor.TagStep | grammarllm/scripts/grammar_generation.py:389-399 | a rule with tags gets its tag grammar built and copied into the final grammar; one without leaves both alone; `TagStepFacts` states what it keeps |
| TagProcessor.RuleStep | grammarllm/scripts/grammar_generation.py:375-422 | one rule of `process_full_grammar`: its tag grammar, then the entries `RuleEntries` gives for its final productions as written; `RuleStepFacts` and `RuleStepKeepsAlternatives` state its behaviour |
| TagProcessor.FullGrammar | grammarllm/scripts/grammar_generation.py:363-425 | `process_full_grammar`: the rules in order from an empty final grammar, the first failure ending it; `FullGrammarFacts` states its behaviour |
| TagProcessor.StoreFacts | grammarllm/scripts/grammar_generation.py:405-422 | storing a rule's productions as written extends the final grammar with `(lhs, "RULE")`; the only failure is the `min` error |
| TagProcessor.TagStepFacts | grammarllm/scripts/grammar_generation.py:392-399 | copying a rule's tag grammar keeps the final grammar well formed and keeps its keys |
| TagProcessor.RuleStepFacts | grammarllm/scripts/grammar_generation.py:375-422 | one rule's step extends the final grammar, or fails with the factoring's error |
| TagProcessor.FoldFailed | grammarllm/scripts/grammar_generation.py:375 | once one rule fails the processing fails with that error |
| TagProcessor.FoldFacts | grammarllm/scripts/grammar_generation.py:375-422 | the loop over the rules keeps what every step keeps and ends with what each step establishes for its rule |
| TagProcessor.FullGrammarFacts | grammarllm/scripts/grammar_generation.py:363-425 | a successful processing is a well-formed grammar with `(lhs, "RULE")` for every rule; a failure is the factoring's error |
| TagProcessor.RuleStepKeepsAlternatives | grammarllm/scripts/grammar_generation.py:401-422 | after a rule's step, `(lhs, "RULE")` holds its final productions unchanged; or, factored, it holds only `prefix + [lhs_FACT]` and `(lhs_FACT, "RULE")` holds the suffixes, so the rule derives exactly its non-empty productions |
| TagProcessor.ProductionRuleProcessor.constructor | grammarllm/scripts/grammar_generation.py:5-12 | the tokenizer is kept, the counters, mapping, nonterminals and rule grammars start empty |
| TagProcessor.ProductionRuleProcessor.GetPrefixGroupsForRule | grammarllm/scripts/grammar_generation.py:88-114 | the groups and the ungrouped tags are those of `TagInitial.PrefixGroups`, whose properties are proved there |
| TagProcessor.ProductionRuleProcessor.CreateInitialGrammarForRule | grammarllm/scripts/grammar_generation.py:116-150 | the first grammar and the new tag mapping are those `TagInitial` defines and characterises |
| TagProcessor.ProductionRuleProcessor.MapGroupedTags | grammarllm/scripts/grammar_generation.py:125-140 | the rules of the groups and the mapping of their tags |
| TagProcessor.ProductionRuleProcessor.AddGroup | grammarllm/scripts/grammar_generation.py:126-140 | a group of single tokens maps its tags to the prefix and adds no rule; any other adds `(rule_TAG_NTi, prefix)` with its suffixes and maps its tags to `prefix rule_TAG_NTi` |
| TagProcessor.ProductionRuleProcessor.MapUngroupedTags | grammarllm/scripts/grammar_generation.py:143-147 | each ungrouped tag is mapped to its tokens joined by spaces, nothing else changes |
| TagProcessor.ProductionRuleProcessor.MapTags | grammarllm/scripts/grammar_generation.py:128-130 | every tag of the group is mapped to the target, nothing else changes |
| TagProcessor.ProductionRuleProcessor.GetNextSubNt | grammarllm/scripts/grammar_generation.py:170-175 | the counter of the parent goes up by one, from 0 when missing, and the name is `parent_n` with the new count |
| TagProcessor.ProductionRuleProcessor.ProcessKey | grammarllm/scripts/grammar_generation.py:182-205 | one key of the pass, as `TagRefine.Step`, whose frame, counter, factoring and measure lemmas hold |
| TagProcessor.ProductionRuleProcessor.AddSubNonterminals | grammarllm/scripts/grammar_generation.py:193-197 | one fresh name per common prefix, its alternative `[prefix, name]`, its suffixes under `(name, prefix)`, and the counter advanced by their number |
| TagProcessor.ProductionRuleProcessor.ProcessGrammarIteration | grammarllm/scripts/grammar_generation.py:177-207 | one pass, as `TagRefine.Pass`, which factors every key, reports a change iff a key shared a first token and halves the measure |
| TagProcessor.ProductionRuleProcessor.BuildTagGrammarForRule | grammarllm/scripts/grammar_generation.py:210-252 | the grammar and the fields are those of `BuildRule`, which is factored and stored for the rule |
| TagProcessor.ProductionRuleProcessor.RefineLoop | grammarllm/scripts/grammar_generation.py:237-248 | the loop ends, with the grammar and counters of `Refine`, factored as `RefineFactored` states |
| TagProcessor.ProductionRuleProcessor.ProductionTokens | grammarllm/scripts/grammar_generation.py:331-351 | the tokens of one alternative are `ProductionOf` it: for each `j`, tag `j`'s tokens then chunk `j`'s words |
| TagProcessor.ProductionRuleProcessor.CreateFinalProductionsForRule | grammarllm/scripts/grammar_generation.py:313-361 | the productions are `FinalProductions`: exactly the alternatives' productions as written, in order, a non-empty one only once |
| TagProcessor.ProductionRuleProcessor.ProcessFullGrammar | grammarllm/scripts/grammar_generation.py:363-425 | the nonterminals are the rules' names, and the result, the fields and the failure are those of `FullGrammar` |
| TagProcessor.ProductionRuleProcessor.ProcessRule | grammarllm/scripts/grammar_generation.py:380-422 | the final grammar and the fields after one rule are those of `RuleStep`, which stores `[prefix + [lhs_FACT]]` alone for a factored rule |
| LegacyTable.SplitAll | scripts/table_parsing.py:84 | each production split into its words, in order |
| LegacyTable.SplitGrammar | scripts/table_parsing.py:380-386 | the same nonterminals in the same order, each with its productions split into words |
| LegacyTable.FirstOfWords | scripts/table_parsing.py:59-71 | an empty string gives `{ε}` alone; a first word without an entry is a terminal and the whole result; a first word whose entry lacks `ε` gives that entry and ends the scan |
| LegacyTable.ExampleFirstClosed | scripts/table_parsing.py:6-57 | the FIRST sets of the example grammar `S* -> A B c` and `B -> b` or `ε` solve the FIRST equations |
| LegacyTable.ExampleFollowClosed | scripts/table_parsing.py:73-110 | the example FOLLOW sets, without `c` in FOLLOW(A), solve the next-symbol equations of `follow` |
| LegacyTable.WholeRestFollowHas | scripts/table_parsing.py:90-104 | over the whole rest of the production, FOLLOW(A) must hold the `c` after the nullable B |
| LegacyTable.NextSymbolFollowMissesRest | scripts/table_parsing.py:90-104 | the least solution of the next-symbol equations, which `follow` computes, lacks `c` in FOLLOW(A), while every solution over the whole rest has it |
| LegacyTable.FirstOccurrence | scripts/table_parsing.py:197-198 | the first index from `from` on at which `sub` stands contiguously, or none |
| LegacyTable.ReplaceSublist | scripts/table_parsing.py:196-200 | the first contiguous occurrence of the sublist becomes the one replacement element; without one the list comes back unchanged |
| LegacyTable.PrefixGroups | scripts/table_parsing.py:281-287 | the productions grouped by first word in order of first occurrence, blank ones skipped |
| LegacyTable.SuffixRecovers | scripts/table_parsing.py:296-302 | the first word, a space and the stored suffix split back into the production's words |
| LegacyTable.SuffixList | scripts/table_parsing.py:296-302 | one suffix per production of the group, in order, `ε` for a one-word production |
| LegacyTable.Suffixes | scripts/table_parsing.py:294-302 | the alternatives of `New_{nt}_{prefix}` are the suffixes of its group |
| LegacyTable.Without | scripts/table_parsing.py:304 | exactly the productions not in the group |
| LegacyTable.SubName | scripts/table_parsing.py:238 | `nt_base_first` extends the name of its base |
| LegacyTable.Distinct | scripts/table_parsing.py:216-219 | the alternatives once each, in order of first occurrence (`seen_symbols`) |
| LegacyTable.Holders | scripts/table_parsing.py:221-223 | the alternatives whose FIRST holds the symbol, in order |
| LegacyTable.Firsts | scripts/table_parsing.py:221-223 | exactly the symbols in the FIRST of some alternative |
| LegacyTable.AddHolder | scripts/table_parsing.py:222-223 | every FIRST symbol of the alternative gets it appended, whatever order the set is visited in; nothing else changes |
| LegacyTable.GroupFirsts | scripts/table_parsing.py:209-223 | one entry per FIRST symbol of a distinct alternative, holding the distinct alternatives whose FIRST has it, in order |
| LegacyTable.AddSuffixesMember | scripts/table_parsing.py:250-256 | a suffix is collected iff it was already there or follows the FIRST symbol in a production |
| LegacyTable.SubAlternativesMember | scripts/table_parsing.py:243-256 | every alternative of the sub-nonterminal comes from one of the conflicting alternatives, and every contribution of each is present |
| LegacyTable.BareSubAlternatives | scripts/table_parsing.py:245-248 | alternatives naming no rule are carried over unchanged, repeats included |
| LegacyTable.CollectSuffixes | scripts/table_parsing.py:250-256 | the loop over `real_productions` computes `AddSuffixes` |
| LegacyTable.CollectSubAlternatives | scripts/table_parsing.py:241-256 | the loop over the conflicting alternatives computes `SubAlternatives` |
| LegacyTable.SameLead | scripts/table_parsing.py:221-223 | alternatives all starting with one word without a FIRST entry form one group under that word |
| LegacyTable.Eliminate | scripts/table_parsing.py:202-273 | a visited base is left alone; a base without a FIRST conflict is only marked visited; writes stay within names extending the base; a base whose conflicts recreate themselves ends in the recursion error, as does exhausted depth |
| LegacyTable.GroupsOf | scripts/table_parsing.py:234-236 | without a FIRST conflict every group is a single alternative, and a group of two or more means the base has alternatives |
| LegacyTable.ResolveGroups | scripts/table_parsing.py:234-273 | without a group of two or more nothing changes; writes stay within the base; a self-recreating conflict ends in the recursion error |
| LegacyTable.Conflict | scripts/table_parsing.py:236-273 | one FIRST group: writes stay within names extending the base, and a conflict that recreates itself ends in the recursion error |
| LegacyTable.Rewrite | scripts/table_parsing.py:238-269 | the sub-nonterminal gets the collected alternatives, the base has the group replaced by `first sub_nt`, `new_rules` gets copies of both, nothing else changes |
| LegacyTable.BaseIsNew | scripts/table_parsing.py:293 | every name created while factoring extends `New_` and is longer than its rule's name |
| LegacyTable.FactorGroup | scripts/table_parsing.py:291-311 | one group of two or more: FIRST of the original rules, the `New_` base with the suffixes, the rule without the group and with `prefix base`, the conflicts of the base eliminated |
| LegacyTable.PrepareGroup | scripts/table_parsing.py:293-305 | the base takes the group's suffixes, and the rule loses the group and gains `prefix base` at its end |
| LegacyTable.OriginalFirstSets | scripts/table_parsing.py:307-309 | an entry per original rule holding what its productions start with directly, below every solution of the FIRST equations |
| LegacyTable.AfterGroup | scripts/table_parsing.py:304-311 | what the elimination leaves after the writes of a group |
| LegacyTable.GroupsOfRule | scripts/table_parsing.py:281-287 | the prefix groups of a rule form a well-formed dictionary |
| LegacyTable.NtStep | scripts/table_parsing.py:290-311 | factoring one more group of two or more keeps the per-rule invariant |
| LegacyTable.NtSkip | scripts/table_parsing.py:291 | a group of one production is left as it is |
| LegacyTable.FactorPrefix | scripts/table_parsing.py:290-311 | the body for one prefix group keeps the per-rule invariant, or ends in the recursion error |
| LegacyTable.FactorNonterminal | scripts/table_parsing.py:280-311 | every group of two or more of the rule is factored, or the recursion error |
| LegacyTable.TopStepNames | scripts/table_parsing.py:280-311 | every new name comes from factoring some group of some rule |
| LegacyTable.TopStepBases | scripts/table_parsing.py:290-311 | the base of every factored group of the rules done so far is a new nonterminal |
| LegacyTable.TopStepRules | scripts/table_parsing.py:280-311 | with no `New_` input names, the rules done hold their factored productions and the others are untouched |
| LegacyTable.RemoveLeftRecursion | scripts/table_parsing.py:195-318 | well-formed `new_rules` and `new_non_terminals` meeting the invariant over all rules, or the recursion error |
| LegacyTable.TwoGroups | scripts/table_parsing.py:281-287 | `nt -> a b` with `nt -> a c` forms one group `a` |
| LegacyTable.WithoutCovered | scripts/table_parsing.py:304 | removing a group that covers every production leaves nothing |
| LegacyTable.TwoFactored | scripts/table_parsing.py:304-305 | the rule becomes `nt -> a New_{nt}_{a}` |
| LegacyTable.TwoSuffixes | scripts/table_parsing.py:296-302 | the suffixes of the group are `b` and `c` |
| LegacyTable.TwoHolders | scripts/table_parsing.py:221-236 | two alternatives whose FIRST sets are their own different words do not conflict |
| LegacyTable.TwoNoConflict | scripts/table_parsing.py:307-311 | under the FIRST sets of the rule, `b` and `c` share no FIRST symbol |
| LegacyTable.TwoNothingIntroduced | scripts/table_parsing.py:236-268 | no sub-nonterminal is created for `nt -> a b` with `nt -> a c` |
| LegacyTable.TwoRule | scripts/table_parsing.py:277-318 | as written, `remove_left_recursion` turns `nt -> a b` with `nt -> a c` into `nt -> a New_{nt}_{a}` |
| LegacyTable.BaseIsNonterminal | scripts/table_parsing.py:293-302 | `New_{nt}_{a}` is an entry of `new_non_terminals` |
| LegacyTable.BaseLeftUndefined | scripts/table_parsing.py:313-318 | but, with the merge commented out, `New_{nt}_{a}` has no rule in the returned `new_rules` |
| LegacyTable.MergeNew | scripts/table_parsing.py:313-315 | the merge: every new nonterminal's productions, every other rule as it was |
| LegacyTable.MergedDefinesBases | scripts/table_parsing.py:290-315 | after the merge every factored group's base has a rule, and with no `New_` input names each input rule holds its factored productions |
| LegacyTable.BaseDefinedAfterMerge | scripts/table_parsing.py:313-315 | with the merge, `nt -> a New_{nt}_{a}` and `New_{nt}_{a}` is defined |
| LegacyTable.ParsingTable | scripts/table_parsing.py:321-394 | the factoring invariant holds, and on the returned `new_rules` alone, split into symbols, FIRST is below every solution, FOLLOW from `S*` is the least next-symbol solution, and the table is built iff no cell is written twice, holding exactly the written cells |
| LegacyTable.BaseHasNoRow | scripts/table_parsing.py:313-321 | so the table built from `new_rules` has no row for `New_{nt}_{a}` |
| LegacyTable.BuildTable | scripts/table_parsing.py:347-391 | FIRST below every solution, FOLLOW the least next-symbol solution, a missing `S*` the `KeyError`, and the table iff no cell is written twice, else the doubly written cell |
| LegacyGeneration.PrefixGroupsOf | scripts/grammar_generation.py:22-34 | the prefix groups of a rule form a well-formed dictionary |
| LegacyGeneration.GroupMembers | scripts/grammar_generation.py:22-34 | a group holds exactly the productions with its first word, and its key is a word |
| LegacyGeneration.AppendedLead | scripts/grammar_generation.py:60 | the production `prefix New_{nt}_{prefix}` starts with the group's word |
| LegacyGeneration.AppendedOutside | scripts/grammar_generation.py:57-60 | a replacement appended for an earlier group is not in a later group, so a later removal keeps it |
| LegacyGeneration.FactoredUpToMembers | scripts/grammar_generation.py:37-60 | after the first `n` groups a production remains iff its first word is not that of a factored group, and every factored group has appended its replacement |
| LegacyGeneration.FactoredMembers | scripts/grammar_generation.py:20-60 | the factored productions of a rule are exactly those left alone and one `w New_{nt}_{w}` per first word `w` shared by two productions or more |
| LegacyGeneration.SuffixesRecover | scripts/grammar_generation.py:47-54 | the group's word followed by the alternative of the `New_` nonterminal splits back into the production's words; a one-word production leaves `ε` |
| LegacyGeneration.FactorFirst | scripts/grammar_generation.py:16-60 | factoring the first `n` rules keeps the keys and their order |
| LegacyGeneration.NewNonTerminals | scripts/grammar_generation.py:17-54 | the new nonterminals form a well-formed dictionary |
| LegacyGeneration.FactorFirstAt | scripts/grammar_generation.py:20-60 | the first `n` rules hold their factored productions and the others are untouched |
| LegacyGeneration.FactorRule | scripts/grammar_generation.py:37-60 | the loop over the groups of one rule: its productions become the factored ones and its groups' entries are written to `new_non_terminals` |
| LegacyGeneration.ReplaceGroup | scripts/grammar_generation.py:43-60 | `New_{nt}_{prefix}` gets the suffixes, and the rule loses the group and gains `prefix New_{nt}_{prefix}` |
| LegacyGeneration.MergeInto | scripts/grammar_generation.py:63-64 | the new nonterminals written over the rules, as `LegacyTable.MergeNew` characterises |
| LegacyGeneration.ResolveRulesConflicts | scripts/grammar_generation.py:5-66 | the result is `Resolved(rules)`, whose keys, new names and alternatives the lemmas below characterise |
| LegacyGeneration.GroupEntriesMember | scripts/grammar_generation.py:37-54 | the entries of one rule's first `j` groups are one per factored group, its `New_` name with its suffixes |
| LegacyGeneration.RuleEntries | scripts/grammar_generation.py:37-54 | the entries of a rule are those of its factored groups |
| LegacyGeneration.NewEntriesMember | scripts/grammar_generation.py:20-54 | the entries of the first `n` rules are those of their factored groups |
| LegacyGeneration.FactoredGroupNamed | scripts/grammar_generation.py:38-44 | every first word shared by two productions of a rule gives a new nonterminal |
| LegacyGeneration.NewNonTerminalNames | scripts/grammar_generation.py:38-44 | the new nonterminals are exactly `New_{nt}_{prefix}` for a rule `nt` and a first word shared by two of its productions or more |
| LegacyGeneration.NewNonTerminalAlternatives | scripts/grammar_generation.py:44-54 | each new nonterminal holds the suffixes of a factored group of that name, in the group's order |
| LegacyGeneration.ResolvedRules | scripts/grammar_generation.py:16-66 | the result defines the input and the new nonterminals; a new one has its suffixes and any other its factored productions |
| LegacyGeneration.NewNamesAreNew | scripts/grammar_generation.py:43 | every new nonterminal is named `New_...` |
| LegacyGeneration.ResolvedKeepsInput | scripts/grammar_generation.py:57-64 | when no input name starts with `New_`, nothing is overwritten and every input rule holds its factored productions |
| LegacyNonTerminals.PositionsOf | scripts/grammar_generation.py:125 | the positions of the tuples, in order |
| LegacyNonTerminals.GeneratedName | scripts/grammar_generation.py:123 | a generated name has the generated shape, its level and its index read back |
| LegacyNonTerminals.ZeroNamesStep | scripts/grammar_generation.py:122-125 | the level-0 name `A{i}` is new, so each group of level 0 gets its own name |
| LegacyNonTerminals.FirstStep | scripts/grammar_generation.py:122-125 | one group of level 0 keeps the first-loop invariant |
| LegacyNonTerminals.FirstLevel | scripts/grammar_generation.py:119-127 | `G` and `S` with the same names, `A{i}` for the `i`-th token of level 0 with its token and positions, every position of level 0 covered |
| LegacyNonTerminals.ZeroCovered | scripts/grammar_generation.py:122-125 | level 0 in full covers every one of its positions |
| LegacyNonTerminals.FindPrevious | scripts/grammar_generation.py:139-150 | the first name of `S`, in insertion order, that holds `pos - 1` and has the same token, or none when no name does |
| LegacyNonTerminals.LeastFree | scripts/grammar_generation.py:154-156 | the least index not in use |
| LegacyNonTerminals.KeepsPut | scripts/grammar_generation.py:143-147 | extending a name's list loses no position |
| LegacyNonTerminals.ChooseIndex | scripts/grammar_generation.py:139-160 | `found` iff a previous nonterminal exists; then the index is that of the first one, otherwise the least free index |
| LegacyNonTerminals.PlaceTuple | scripts/grammar_generation.py:137-160 | the index as `ChooseIndex` states, marked used; the name of this level with that index gets `pos` appended, or a new list, and its token recorded only when new |
| LegacyNonTerminals.Assign | scripts/grammar_generation.py:142-159 | `temp_S` extends or starts the name's list with `pos`, `temp_G` records the token for a new name only |
| LegacyNonTerminals.PlacePrefix | scripts/grammar_generation.py:137-160 | every position of the token's tuples ends up in some list, and none is lost |
| LegacyNonTerminals.NextLevel | scripts/grammar_generation.py:131-161 | `IndexError` iff the level number is 26 or more and the level holds a token; otherwise names all of that level, covering every position of the level |
| LegacyNonTerminals.UpdateKeeps | scripts/grammar_generation.py:162-163 | `S.update(temp_S)` with new names loses no position of either |
| LegacyNonTerminals.LevelZeroUpdate | scripts/grammar_generation.py:162-163 | the level-0 names survive the updates of later levels |
| LegacyNonTerminals.NamedBelowUpdate | scripts/grammar_generation.py:162-164 | the names of a later level are new, and after the update every name is of a level done |
| LegacyNonTerminals.LevelsStep | scripts/grammar_generation.py:130-164 | merging one later level keeps the invariant over the levels done |
| LegacyNonTerminals.CoveredBelowUpdate | scripts/grammar_generation.py:162-163 | after the update, the positions of every level done are still covered |
| LegacyNonTerminals.GenerateNonTerminals | scripts/grammar_generation.py:68-168 | `KeyError` for a missing level, `IndexError` for a level from 26 on with a token; otherwise `G` and `S` with the same names, level 0 named `A0`, `A1`, ... in order, every name of a level present, and every position of every level in some name's list |
| LegacyGrammar.HoldingMember | scripts/grammar_generation.py:194-195 | the names, in `S`'s order, whose positions hold the given one |
| LegacyGrammar.CandidateMember | scripts/grammar_generation.py:190-195 | a candidate is a name of `S` holding the position before a position of the current name |
| LegacyGrammar.Recurse | scripts/grammar_generation.py:175-205 | too deep (over 200) raises, a visited name raises, and a name starting with `A` gives its `extract_number` |
| LegacyGrammar.TryCandidates | scripts/grammar_generation.py:191-205 | with no candidate left the search raises `ValueError` |
| LegacyGrammar.FindNumber | scripts/grammar_generation.py:174-207 | a name starting with `A` gives its own number |
| LegacyGrammar.NoCandidateFails | scripts/grammar_generation.py:196-205 | when every remaining candidate neither starts with `A` nor succeeds one level deeper, the search raises `ValueError`: failures are caught and passed over |
| LegacyGrammar.FirstCandidateWins | scripts/grammar_generation.py:194-204 | a search that does not end in `ValueError` returns the result of the first candidate that starts with `A` or succeeds one level deeper, every earlier candidate having failed |
| LegacyGrammar.RecurseFromInitial | scripts/grammar_generation.py:175-205 | a number found is that of the starting name or of some name of `S` starting with `A` |
| LegacyGrammar.FoundNumberIsInitial | scripts/grammar_generation.py:174-207 | `find_number_for_initial_nt` only returns the number of a name starting with `A`: the name itself or one of `S` |
| LegacyGrammar.CountLE | scripts/grammar_generation.py:247-248 | a position present is counted at least once |
| LegacyGrammar.CountLEInsert | scripts/grammar_generation.py:247 | inserting into a sorted list adds one to the count iff the element is not above the bound |
| LegacyGrammar.CountLESorted | scripts/grammar_generation.py:247 | sorting keeps every count |
| LegacyGrammar.CountLESplit | scripts/grammar_generation.py:247-248 | in a list whose first `k` elements are at most `p` and the rest above it the count is `k` |
| LegacyGrammar.PosIndex | scripts/grammar_generation.py:244-249 | a position has an index iff it is a position of an `A` name |
| LegacyGrammar.IndexIn | scripts/grammar_generation.py:247-248 | a position has a rank iff it is in the list |
| LegacyGrammar.BuildPosToIndex | scripts/grammar_generation.py:244-249 | exactly the positions of the `A` names are keys, each with the rank of its last copy in sorted order, a later copy having overwritten an earlier |
| LegacyGrammar.IndexedValue | scripts/grammar_generation.py:247-248 | in the built map, a position's index is the number of sorted positions not above it, less one |
| LegacyGrammar.LastCopyCount | scripts/grammar_generation.py:247-248 | in a sorted list the last copy of a value sits at its count less one |
| LegacyGrammar.MapsAll | scripts/grammar_generation.py:258-261 | after the loops every position maps to exactly the names holding it |
| LegacyGrammar.PositionToNts | scripts/grammar_generation.py:258-261 | `position_to_nts` maps each position to exactly the names of `S` holding it |
| LegacyGrammar.AddRule | scripts/grammar_generation.py:221-223 | the key is created when missing and gets the rule unless it already has it; no other key changes and nothing is lost |
| LegacyGrammar.AddRuleKeeps | scripts/grammar_generation.py:221-223 | `add_rule` keeps every list free of repeats and every rule already there |
| LegacyGrammar.AddRuleContents | scripts/grammar_generation.py:221-223 | `add_rule` adds exactly the pair it is given |
| LegacyGrammar.HasNextAt | scripts/grammar_generation.py:231-236 | `has_next_symbol(next, q)`: some name of a later letter holds position `q + 1` |
| LegacyGrammar.HasNext | scripts/grammar_generation.py:231-242 | `has_next_symbol(nt)`: some position of `nt` is followed by a position of a name of a later letter |
| LegacyGrammar.InitialRule | scripts/grammar_generation.py:269-274 | the start-symbol rule of a level-0 name: `prefix nt` when a later name follows it, otherwise the prefix and the list entry of its index when there is one |
| LegacyGrammar.InitialSetMember | scripts/grammar_generation.py:263-274 | a start-symbol rule is the rule of some position of some name matching `^A\d+'*$` |
| LegacyGrammar.PosIndexLookup | scripts/grammar_generation.py:266 | `pos_to_index.get(pos)` is the position's index, or none |
| LegacyGrammar.InitialRules | scripts/grammar_generation.py:263-274 | the loop adds exactly the start-symbol rules of the level-0 names, keeping the rules there and every list free of repeats |
| LegacyGrammar.InitialRow | scripts/grammar_generation.py:265-274 | one name's positions add exactly their start-symbol rules |
| LegacyGrammar.LaterRule | scripts/grammar_generation.py:290-296 | the rule a pair adds: `next_prefix next` when a later name follows the next position, otherwise the prefix of `next` and the list entry of the number found, when there is one |
| LegacyGrammar.LaterSetMember | scripts/grammar_generation.py:282-296 | a later rule of `k` is the rule of a pair `k`, `next` that reaches the rule at a position of `k`, when the number of `k` is found |
| LegacyGrammar.LaterAtMember | scripts/grammar_generation.py:284-296 | the rules one position adds are those of the names holding the next position that reach the rule |
| LegacyGrammar.FailingOne | scripts/grammar_generation.py:285-291 | a name makes the position raise iff the pair reaches the rule and the number of the current name is not found |
| LegacyGrammar.NoFailures | scripts/grammar_generation.py:282-296 | nothing raises exactly when no pair reaches the rule with a failing search |
| LegacyGrammar.LaterNext | scripts/grammar_generation.py:284-296 | whatever the order the set is walked in: fails iff some name of it reaches the rule with a failing search; otherwise adds exactly the rules of the pairs that reach it and loses nothing |
| LegacyGrammar.LaterNextKeeps | scripts/grammar_generation.py:284-296 | one more name of the set done keeps the loop's invariant |
| LegacyGrammar.LaterStep | scripts/grammar_generation.py:285-296 | the consecutive next name and one below in string order are skipped; otherwise the rule is added, and the step fails iff the number is not found |
| LegacyGrammar.LaterRow | scripts/grammar_generation.py:283-296 | one name's positions add exactly their later rules, or fail only when some pair does |
| LegacyGrammar.LaterRules | scripts/grammar_generation.py:282-296 | fails iff some pair reaches the rule while the number search fails; otherwise adds exactly the later rules of all names |
| LegacyGrammar.FirstKeyError | scripts/grammar_generation.py:255 | no error iff every name has a `sort_key` |
| LegacyGrammar.SortNames | scripts/grammar_generation.py:216-219 | succeeds iff every name has a `sort_key`; the names are then a permutation sorted by `(number, letter)` |
| LegacyGrammar.SortableKeys | scripts/grammar_generation.py:255 | the sort succeeds iff every key of `S` has a `sort_key` |
| LegacyGrammar.SortedNames | scripts/grammar_generation.py:255 | `sorted_nts` holds exactly the names of `S` |
| LegacyGrammar.EosRules | scripts/grammar_generation.py:251-252 | for `S*` the start symbol gets the eos rule alone, otherwise nothing |
| LegacyGrammar.GenerateGrammar | scripts/grammar_generation.py:170-299 | raises iff a name has no `sort_key`, the list is None, or (past the single-name return) some pair reaches its rule with a failing search; otherwise the rules are exactly the eos rule, the start-symbol rules and, past the early return, the later rules, free of repeats, with eos first for `S*` |
| LegacyGrammar.GrammarRules | scripts/grammar_generation.py:254-296 | the two loops add exactly the start-symbol rules and, past the early return, the later rules, failing iff a later pair does |
| LegacyNames.Letter | scripts/grammar_generation.py:111-112 | `vocab[l]` is the `l`-th capital letter |
| LegacyNames.Primes | scripts/grammar_generation.py:109-110 | the suffix is a run of apostrophes, as many as `count` (none when `count` is None or negative) |
| LegacyNames.DigitsIn | scripts/grammar_generation.py:141 | `filter(str.isdigit, …)` keeps only digits and never lengthens the string |
| LegacyNames.NameNumber | scripts/grammar_generation.py:141 | the number parse succeeds exactly when some digit follows the first character; otherwise `int('')` fails |
| LegacyNames.NameNumberOfName | scripts/grammar_generation.py:123-142 | the index of a name `f"{vocab[l]}{i}" + "'" * count` is read back as `i`, and its first character is the level's letter |
| LegacyNames.NameInjective | scripts/grammar_generation.py:123 | two generated names with the same apostrophe count are equal only for the same level and index |
| LegacyNames.LeadingDigits | scripts/grammar_generation.py:211 | the maximal run of digits at the start of the string |
| LegacyNames.ExtractNumber | scripts/grammar_generation.py:210-214 | `extract_number` succeeds exactly when the name starts with a capital letter followed by a digit |
| LegacyNames.ExtractNumberOfName | scripts/grammar_generation.py:210-214 | `extract_number` reads back the index of every generated name |
| LegacyNames.SortKey | scripts/grammar_generation.py:216-219 | `sort_key` fails on the empty name and on a name with no digit after its first character, and otherwise pairs the parsed number with the first letter |
| LegacyNames.SortRankOrder | scripts/grammar_generation.py:255 | the integer rank used for sorting orders names as the `(number, letter)` tuples do |
| LegacyNames.IsConsecutiveTransition | scripts/grammar_generation.py:225-228 | fails exactly when either parse fails; otherwise true iff the letters agree and the second number is the first plus one |
| LegacyNames.ConsecutiveNames | scripts/grammar_generation.py:225-228 | on generated names the transition is consecutive iff the levels agree and the index grows by one |
| LegacyNames.StrLess | scripts/grammar_generation.py:287 | Python's `a < b` on strings, code point by code point with a proper prefix first; `StrLessIrreflexive`, `StrLessTotal` and `StrLessTransitive` state that it is a strict total order |
| LegacyNames.StrLessIrreflexive | scripts/grammar_generation.py:287 | Python's string `<` never holds between a string and itself |
| LegacyNames.StrLessTotal | scripts/grammar_generation.py:287 | of two different strings exactly one is the smaller |
| LegacyNames.StrLessTransitive | scripts/grammar_generation.py:287 | Python's string `<` is transitive |
| LegacyNames.IsInitialName | scripts/grammar_generation.py:264 | `re.match(r"^A\d+'*$", nt)`: `A`, one digit or more, apostrophes, then the end, where `$` also accepts one final newline; `InitialNames` states which generated names pass |
| LegacyNames.InitialNames | scripts/grammar_generation.py:264 | a generated name passes `^A\d+'*$` exactly when it is of level 0 |
| Text.TakeWord | grammarllm/scripts/grammar_generation.py:272 | the first word of `str.split()`: a separator-free prefix that stops at a separator or the end |
| Text.Split | grammarllm/scripts/grammar_generation.py:272 | `str.split()` yields only non-empty, separator-free words |
| Text.SplitAroundSpace | grammarllm/scripts/grammar_generation.py:343 | a separator cuts the split into the splits of the two sides |
| Text.SplitJoin | grammarllm/scripts/grammar_generation.py:145-272 | splitting a space-joined list gives the concatenation of the pieces' own splits |
| Text.SplitJoinWords | grammarllm/scripts/grammar_generation.py:145-272 | `" ".join(ws).split()` gives back `ws` when every element is a word |
| Text.SplitWordsOccur | grammarllm/scripts/grammar_generation.py:30 | every word of `s.split()` occurs in `s` |
| Text.SplitPair | grammarllm/scripts/grammar_generation.py:343 | `"13 TAG_NT1".split()` gives the two words back |
| Text.NatToString | scripts/grammar_generation.py:123 | `str(n)` is a non-empty string of digits, one digit exactly when `n < 10` |
| Text.DigitsValueOfNat | scripts/grammar_generation.py:141 | reading back the digits of `str(n)` gives `n` |
| Text.NatToStringInjective | scripts/grammar_generation.py:123 | different numbers print differently |
| Dicts.KeepShared | grammarllm/scripts/grammar_generation.py:100 | the groups kept are exactly those with more than one member, unchanged |
| Sorting.SortBy | scripts/grammar_generation.py:255 | `sorted(…, key=…)` returns a permutation of its input in rank order |

## Left out

- I/O is not part of this model: `print`, `logging`, the `save_*` helpers and the files they write, and the commented-out debug dumps.
- The language model, PyTorch tensors and the floating-point scores of `SimpleLogitProcessor` are left out. The model keeps only the decision of which token ids stay allowed.
- The tokenizer and Python's `re` engine are opaque parameters: a vocabulary map, and a predicate that says whether a pattern accepts a string. The literal path `^{re.escape(t)}$` is written out as `re.match` reads it: it accepts the terminal and the terminal followed by one newline (see Findings).
- Automaton.PushdownAutomaton.constructor: a map value that is itself a dictionary `{terminal: [tokens]}` (`grammarllm/modules/PushdownAutomaton.py:11-18`), whose ids are filed under the inner terminals, is not modelled. The model's map always sends a terminal to its ids, which is what `generate_token_maps` builds and the pipeline passes in. Values of any other type, which the constructor skips, are not modelled either.
- `functools.lru_cache` is modelled as plain functions, which give the same results.
- Python's recursion limit becomes an explicit `fuel` parameter where the source can recurse without bound (`next_state_terminal`, `eliminate_first_conflicts`). `find_number_for_initial_nt` keeps its own `max_depth` of 200. When the fuel runs out the model reports failure; what runs out of fuel on the real interpreter is not modelled.
- Iteration over a Python `set` has no defined order. Where the result depends on it, the model takes the order as a parameter and states its results for every order.
- Lists that the source shares between dictionary entries are modelled as values. Aliasing between them is not captured.
- `ProductionRuleProcessor.nt_counter` and `original_rules_mapping` are set and never read. They are left out.
- `start_productions` in `create_initial_grammar_for_rule` is built and never used, because its only use is commented out. It is left out.
- The string-key branch of `process_grammar_iteration` and of the final-production code is dead: every grammar key the processor builds is a pair. Only pair keys are modelled.
- TagRefine.PassMeasure: the termination argument "the total suffix length decreases" is false. In `[a, b], [a, c] -> [a, N]` with `N: [b], [c]` the total stays 4. The measure proved to decrease is the sum of `2^|L|` over the rewritable lists.
- TagProcessor.FullGrammarFacts states well-formedness and the `(lhs, "RULE")` entry of every rule. When the sub-grammars of two rules share a key, the later rule's entry wins, as in the dictionary update, and the lemma does not say which entries survive.
- LL1.FindFirst, LL1.ComputeFirstSets: FIRST is proved sound (it stays within every FIRST-closed family), not complete, because the memoised recursion returns too early on left-recursive grammars. `ComputeFirstSets` loops over `FindFirst` and inherits the same gap.
- LegacyTable.OriginalFirstSets: `remove_left_recursion` uses the FIRST sets of the original rules throughout the factoring, as the source does. They are not recomputed after each rewrite.
- LegacyTokenMap: a `regex_dict` of None is the empty map, because both fail `if regex_dict:`.
- Pipeline: the end-of-sequence token is a string. A tokenizer whose `eos_token` is None is not modelled.
- LegacyNames: Unicode digits other than `0`–`9`, which `str.isdigit` and `\d` also accept, are not modelled.
- Sorting.SortBy proves a permutation in rank order. Stability is not stated: names with equal sort keys may come out in another order than Python's stable `sorted` gives.
- LegacyNonTerminals.IsGenerated states only "a capital letter followed by a name with a number", which is weaker than the full `{letter}{index}{primes}` shape.
- LegacyNonTerminals.GenerateNonTerminals states that `G` and `S` have the same names, the level-0 names, and that every position is covered. It does not claim that the positions listed under one name all carry that name's token.
- LegacyGrammar.GenerateGrammar, LegacyGrammar.GrammarRules, LegacyGrammar.InitialRules, LegacyGrammar.InitialRow, LegacyGrammar.LaterRules, LegacyGrammar.LaterRow: these state the set of `(lhs, production)` pairs, the failure cases and that `S*` starts with the end-of-sequence symbol. They do not state the order of the productions within a rule's list.
- LegacyGeneration.ResolvedKeepsInput is stated for rules with no name beginning with `New_`. When an input name starts with `New_`, the new nonterminal written over it is not characterised there.
- LegacyGrammar: the early `rules.setdefault(NT, [])`, before the `A`-name loop, has no effect that the contract can observe, so it is folded into AddRule.
- The alternatives of a grammar are modelled as strings, which is what the grammars the scripts build hold. Alternatives of any other type, which the source would reject at run time, are left out.
- The example in the docstring of `generate_non_terminals` is not taken as a specification: positions of later levels depend on the input.

## Findings

| source | as written | input that shows it | evidently intended | confidence | as-written member | corrected member |
|---|---|---|---|---|---|---|
| grammarllm/scripts/grammar_generation.py:336-351 | for each `j`, tag `j` is emitted before text chunk `j` | `x <<t>>` gives the tokens of `t` before `x`; `<<a>> <<b>> y`, which starts with a tag, gives `<<a>> y <<b>>`, because the empty chunk between the two tags is dropped and `y` is paired with `a` | every part in its place: text chunks and tags in source order | not executed | TagFinal.TagBeforeText, TagFinal.TextBetweenTags | TagFinal.TextBeforeTagKept |
| grammarllm/scripts/grammar_generation.py:407-419 | the factored rule keeps only `prefix rule_FACT`, so the productions outside the shared prefix are lost | `S: [[], ["a"]]` is stored as `[["a", "S_FACT"]]` | the factored rule derives every original alternative, including the empty one | not executed | TagFinal.EmptyAlternativeLost | TagFinal.FactoredKeepsAlternatives |
| grammarllm/scripts/map_terminal_tokens.py:45-46 | the literal pattern `^{re.escape(t)}$` is matched with `re.match`, where `$` also matches before a final newline | the terminal `yes` also gets the id of the vocabulary string `"yes\n"` | only the id of the string equal to the terminal | not executed | TokenMap.TrailingNewlineMatches | TokenMap.LiteralIds |
| scripts/table_parsing.py:90-104 | `follow` looks only at the symbol right after `A`, even when that symbol is nullable | `S* -> A B c`, `B -> b` or `ε`: `c` is missing from FOLLOW(A) | FIRST of the whole rest of the production, and FOLLOW of the head when the rest is nullable | not executed | LegacyTable.NextSymbolFollowMissesRest | LegacyTable.WholeRestFollowHas |
| scripts/table_parsing.py:313-318 | with the merge loop commented out, the rules built for `New_{nt}_{a}` are not added to the returned grammar | `nt -> a b` and `nt -> a c` give `nt -> a New_nt_a` with `New_nt_a` undefined | the new nonterminals are merged into the rules | not executed | LegacyTable.BaseLeftUndefined | LegacyTable.BaseDefinedAfterMerge |
