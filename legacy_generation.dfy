/** The earlier, position-indexed grammar generator of `scripts/grammar_generation.py`:
    the one-pass left factoring `resolve_rules_conflicts`, the naming of token positions
    by level in `generate_non_terminals`, and the rule builder `generate_grammar` with
    its helpers. */
module LegacyGeneration {
  import opened Wrappers
  import opened Text
  import opened Dicts
  import opened LL1
  import opened LegacyTable

  // ---------------------------------------------------------------------------
  // What one-pass factoring does to the productions of one nonterminal

  /** The prefix groups of a list of productions. */
  function PrefixGroupsOf(ps: seq<string>): (g: Dict<string, seq<string>>)
    ensures g.Valid()
  {
    GroupBy(ps, FirstWord(), Itself())
  }

  /** The first word `w` starts two productions or more of `ps`. */
  predicate Big(ps: seq<string>, w: string) {
    var g := PrefixGroupsOf(ps);
    w in g.items && |g.items[w]| > 1
  }

  /** `q` is a production of `ps` that factoring leaves alone: it is empty, or no other
      production shares its first word. */
  predicate Kept(ps: seq<string>, q: string) {
    q in ps && match FirstWord()(q) { case None => true case Some(w) => !Big(ps, w) }
  }

  /** `q` is the production `w New_{nt}_{w}` that replaces a group. */
  ghost predicate Appended(nt: Symbol, ps: seq<string>, q: string) {
    exists w :: Big(ps, w) && q == w + " " + BaseName(nt, w)
  }

  /** A group holds exactly the productions with its first word, and its key is a word. */
  lemma GroupMembers(ps: seq<string>, w: string, q: string)
    requires w in PrefixGroupsOf(ps).items
    ensures q in PrefixGroupsOf(ps).items[w] <==> q in ps && FirstWord()(q) == Some(w)
    ensures IsWord(w)
  {
    GroupByPick(ps, FirstWord(), Itself(), w);
    PickMember(ps, FirstWord(), Itself(), w, q);
    PickNonEmpty(ps, FirstWord(), Itself(), w);
    var i :| 0 <= i < |ps| && FirstWord()(ps[i]) == Some(w);
    assert Split(ps[i])[0] == w;
    if q in ps && FirstWord()(q) == Some(w) {
      var i' :| 0 <= i' < |ps| && ps[i'] == q;
    }
  }

  /** The replacing production starts with the group's word. */
  lemma AppendedLead(nt: Symbol, w: string)
    requires IsWord(w)
    ensures FirstWord()(w + " " + BaseName(nt, w)) == Some(w)
  {
    SplitAroundSpace(w, ' ', BaseName(nt, w));
    SplitOfWord(w);
  }

  /** Some group among the first `n` with two or more productions has first word `w`. */
  ghost predicate BigBefore(g: Dict<string, seq<string>>, n: nat, w: string)
    requires g.Valid() && n <= |g.keys|
  {
    exists j :: 0 <= j < n && |g.items[g.keys[j]]| > 1 && g.keys[j] == w
  }

  /** The first word of `q` is that of a factored group among the first `n`. */
  ghost predicate RemovedBy(g: Dict<string, seq<string>>, n: nat, q: string)
    requires g.Valid() && n <= |g.keys|
  {
    FirstWord()(q).Some? && BigBefore(g, n, FirstWord()(q).value)
  }

  /** `q` replaces a factored group among the first `n`. */
  ghost predicate AppendedBy(nt: Symbol, g: Dict<string, seq<string>>, n: nat, q: string)
    requires g.Valid() && n <= |g.keys|
  {
    exists w :: BigBefore(g, n, w) && q == w + " " + BaseName(nt, w)
  }

  lemma BigBeforeStep(g: Dict<string, seq<string>>, n: nat, v: string)
    requires g.Valid() && 0 < n <= |g.keys|
    ensures BigBefore(g, n, v) <==> BigBefore(g, n - 1, v) || (v == g.keys[n - 1] && |g.items[v]| > 1)
  {
    if BigBefore(g, n, v) && v != g.keys[n - 1] {
      var j :| 0 <= j < n && |g.items[g.keys[j]]| > 1 && g.keys[j] == v;
      assert BigBefore(g, n - 1, v);
    }
    if BigBefore(g, n - 1, v) {
      var j :| 0 <= j < n - 1 && |g.items[g.keys[j]]| > 1 && g.keys[j] == v;
      assert BigBefore(g, n, v);
    }
  }

  lemma AppendedByStep(nt: Symbol, g: Dict<string, seq<string>>, n: nat, q: string)
    requires g.Valid() && 0 < n <= |g.keys|
    ensures AppendedBy(nt, g, n, q) <==>
      AppendedBy(nt, g, n - 1, q)
      || (|g.items[g.keys[n - 1]]| > 1 && q == g.keys[n - 1] + " " + BaseName(nt, g.keys[n - 1]))
  {
    if AppendedBy(nt, g, n, q) {
      var v :| BigBefore(g, n, v) && q == v + " " + BaseName(nt, v);
      BigBeforeStep(g, n, v);
    }
    if AppendedBy(nt, g, n - 1, q) {
      var v :| BigBefore(g, n - 1, v) && q == v + " " + BaseName(nt, v);
      BigBeforeStep(g, n, v);
    }
    if |g.items[g.keys[n - 1]]| > 1 {
      BigBeforeStep(g, n, g.keys[n - 1]);
    }
  }

  /** A replacement production of an earlier group is not in a later group. */
  lemma AppendedOutside(nt: Symbol, ps: seq<string>, n: nat, q: string)
    requires 0 < n <= |PrefixGroupsOf(ps).keys|
    requires AppendedBy(nt, PrefixGroupsOf(ps), n - 1, q)
    ensures q !in PrefixGroupsOf(ps).items[PrefixGroupsOf(ps).keys[n - 1]]
  {
    var g := PrefixGroupsOf(ps);
    var v :| BigBefore(g, n - 1, v) && q == v + " " + BaseName(nt, v);
    var j :| 0 <= j < n - 1 && |g.items[g.keys[j]]| > 1 && g.keys[j] == v;
    GroupMembers(ps, v, q);
    GroupMembers(ps, g.keys[n - 1], q);
    AppendedLead(nt, v);
  }

  /** After the first `n` groups: a production of `ps` remains unless its first word is
      that of a factored group, and every factored group appended its replacement. */
  lemma {:induction false} FactoredUpToMembers(nt: Symbol, ps: seq<string>, n: nat, q: string)
    requires n <= |PrefixGroupsOf(ps).keys|
    ensures q in FactoredUpTo(nt, ps, PrefixGroupsOf(ps), n) <==>
      (q in ps && !RemovedBy(PrefixGroupsOf(ps), n, q)) || AppendedBy(nt, PrefixGroupsOf(ps), n, q)
  {
    var g := PrefixGroupsOf(ps);
    if n > 0 {
      FactoredUpToMembers(nt, ps, n - 1, q);
      var w := g.keys[n - 1];
      GroupMembers(ps, w, q);
      AppendedByStep(nt, g, n, q);
      if FirstWord()(q).Some? {
        BigBeforeStep(g, n, FirstWord()(q).value);
      }
      if AppendedBy(nt, g, n - 1, q) {
        AppendedOutside(nt, ps, n, q);
      }
    }
  }

  /** `resolve_rules_conflicts` on one rule: the factored productions are exactly the
      productions left alone and one `w New_{nt}_{w}` per first word `w` shared by two
      productions or more. */
  lemma FactoredMembers(nt: Symbol, ps: seq<string>, q: string)
    ensures q in Factored(nt, ps) <==> Kept(ps, q) || Appended(nt, ps, q)
  {
    var g := PrefixGroupsOf(ps);
    FactoredUpToMembers(nt, ps, |g.keys|, q);
    if AppendedBy(nt, g, |g.keys|, q) {
      var w :| BigBefore(g, |g.keys|, w) && q == w + " " + BaseName(nt, w);
      var j :| 0 <= j < |g.keys| && |g.items[g.keys[j]]| > 1 && g.keys[j] == w;
    }
    if Appended(nt, ps, q) {
      var w :| Big(ps, w) && q == w + " " + BaseName(nt, w);
      var j :| 0 <= j < |g.keys| && g.keys[j] == w;
      assert BigBefore(g, |g.keys|, w);
    }
    if FirstWord()(q).Some? {
      var w := FirstWord()(q).value;
      if Big(ps, w) {
        var j :| 0 <= j < |g.keys| && g.keys[j] == w;
        assert BigBefore(g, |g.keys|, w);
      }
      if BigBefore(g, |g.keys|, w) {
        var j :| 0 <= j < |g.keys| && |g.items[g.keys[j]]| > 1 && g.keys[j] == w;
      }
    }
  }

  /** The alternatives of a `New_` nonterminal give back the productions of its group:
      the group's word followed by the alternative splits into the production's words,
      and a production of one word leaves epsilon. */
  lemma SuffixesRecover(nt: Symbol, ps: seq<string>, w: string, j: nat)
    requires w in PrefixGroupsOf(ps).items && j < |PrefixGroupsOf(ps).items[w]|
    ensures var q := PrefixGroupsOf(ps).items[w][j];
      (|Split(q)| > 1 ==> Split(w + " " + SuffixList(PrefixGroupsOf(ps).items[w])[j]) == Split(q))
      && (|Split(q)| == 1 ==> Split(q) == [w] && SuffixList(PrefixGroupsOf(ps).items[w])[j] == Epsilon)
  {
    var q := PrefixGroupsOf(ps).items[w][j];
    GroupMembers(ps, w, q);
    if |Split(q)| > 1 {
      SuffixRecovers(q);
    }
  }

  // ---------------------------------------------------------------------------
  // resolve_rules_conflicts

  /** The rules once the first `n` nonterminals, in key order, have their productions
      factored; the keys and their order do not change. */
  function FactorFirst(rules: StringRules, n: nat): (r: StringRules)
    requires rules.Valid() && n <= |rules.keys|
    ensures r.Valid() && r.keys == rules.keys && r.items.Keys == rules.items.Keys
  {
    if n == 0 then rules
    else
      var nt := rules.keys[n - 1];
      FactorFirst(rules, n - 1).Put(nt, Factored(nt, rules.items[nt]))
  }

  /** The entry `(New_{nt}_{prefix}, suffixes)` that the group of `prefix` writes into
      `new_non_terminals`, when it holds two productions or more. */
  function GroupPart(nt: Symbol, g: Dict<string, seq<string>>): string -> seq<(Symbol, seq<string>)> {
    prefix => if prefix in g.items && |g.items[prefix]| > 1 then [(BaseName(nt, prefix), SuffixList(g.items[prefix]))] else []
  }

  /** The entries that the first `j` groups of `nt` write, in order. */
  function GroupEntries(nt: Symbol, g: Dict<string, seq<string>>, j: nat): seq<(Symbol, seq<string>)>
    requires j <= |g.keys|
  {
    FlatMap(g.keys, GroupPart(nt, g), j)
  }

  /** The entries written for the nonterminal `nt`. */
  function RuleGroupEntries(rules: StringRules, nt: Symbol): seq<(Symbol, seq<string>)> {
    if nt in rules.items then
      var g := PrefixGroupsOf(rules.items[nt]);
      GroupEntries(nt, g, |g.keys|)
    else []
  }

  function RulePart(rules: StringRules): Symbol -> seq<(Symbol, seq<string>)> {
    nt => RuleGroupEntries(rules, nt)
  }

  /** The entries written for the first `n` nonterminals, in order. */
  function NewEntries(rules: StringRules, n: nat): seq<(Symbol, seq<string>)>
    requires n <= |rules.keys|
  {
    FlatMap(rules.keys, RulePart(rules), n)
  }

  /** `new_non_terminals` once every rule is factored. */
  function NewNonTerminals(rules: StringRules): (r: StringRules)
    requires rules.Valid()
    ensures r.Valid()
  {
    PutAll(Empty(), NewEntries(rules, |rules.keys|))
  }

  /** What `resolve_rules_conflicts(rules)` returns. */
  function Resolved(rules: StringRules): StringRules
    requires rules.Valid()
  {
    MergeNew(FactorFirst(rules, |rules.keys|), NewNonTerminals(rules))
  }

  /** Factoring the first `n` nonterminals leaves the productions of the others alone. */
  lemma {:induction false} FactorFirstAt(rules: StringRules, n: nat, i: nat)
    requires rules.Valid() && n <= |rules.keys| && i < |rules.keys|
    ensures FactorFirst(rules, n).items[rules.keys[i]]
         == if i < n then Factored(rules.keys[i], rules.items[rules.keys[i]]) else rules.items[rules.keys[i]]
  {
    if n > 0 {
      FactorFirstAt(rules, n - 1, i);
    }
  }

  /** After the first `j` groups of `nt`: its productions are factored that far, and
      `new_non_terminals` holds the entries `done` written before and those of the `j`
      groups. */
  ghost predicate RuleDone(nt: Symbol, ps: seq<string>, groups: Dict<string, seq<string>>, j: nat,
                           nr: StringRules, done: seq<(Symbol, seq<string>)>, nr': StringRules, nnt': StringRules)
    requires groups.Valid() && j <= |groups.keys|
  {
    ProductionsDone(nt, ps, groups, j, nr, nr') && EntriesDone(nt, groups, j, done, nnt')
  }

  /** The productions of `nt` are factored as far as the first `j` groups. */
  ghost predicate ProductionsDone(nt: Symbol, ps: seq<string>, groups: Dict<string, seq<string>>, j: nat,
                                  nr: StringRules, nr': StringRules)
    requires groups.Valid() && j <= |groups.keys|
  {
    nr'.keys == nr.keys && nr'.items == nr.items[nt := FactoredUpTo(nt, ps, groups, j)]
  }

  lemma ProductionsStep(nt: Symbol, ps: seq<string>, groups: Dict<string, seq<string>>, j: nat,
                        nr: StringRules, nr': StringRules)
    requires groups.Valid() && j < |groups.keys| && nt in nr.items
    requires ProductionsDone(nt, ps, groups, j, nr, nr')
    ensures var prefix := groups.keys[j];
      var group := groups.items[prefix];
      if |group| > 1 then
        ProductionsDone(nt, ps, groups, j + 1, nr, nr'.Put(nt, Without(nr'.items[nt], group) + [prefix + " " + BaseName(nt, prefix)]))
      else ProductionsDone(nt, ps, groups, j + 1, nr, nr')
  {
  }

  /** `new_non_terminals` holds the entries `done` and those of the first `j` groups. */
  ghost predicate EntriesDone(nt: Symbol, groups: Dict<string, seq<string>>, j: nat,
                              done: seq<(Symbol, seq<string>)>, nnt': StringRules)
    requires j <= |groups.keys|
  {
    nnt' == PutAll(Empty(), done + GroupEntries(nt, groups, j))
  }

  lemma EntriesStep(nt: Symbol, groups: Dict<string, seq<string>>, j: nat,
                    done: seq<(Symbol, seq<string>)>, nnt': StringRules)
    requires groups.Valid() && j < |groups.keys|
    requires EntriesDone(nt, groups, j, done, nnt')
    ensures var prefix := groups.keys[j];
      var group := groups.items[prefix];
      if |group| > 1 then EntriesDone(nt, groups, j + 1, done, nnt'.Put(BaseName(nt, prefix), SuffixList(group)))
      else EntriesDone(nt, groups, j + 1, done, nnt')
  {
    var prefix := groups.keys[j];
    var group := groups.items[prefix];
    var part := GroupPart(nt, groups)(prefix);
    assert part == if |group| > 1 then [(BaseName(nt, prefix), SuffixList(group))] else [];
    PutAllFlatMapStep(Empty(), done, groups.keys, GroupPart(nt, groups), j);
  }

  lemma RuleStep(nt: Symbol, ps: seq<string>, groups: Dict<string, seq<string>>, j: nat,
                 nr: StringRules, done: seq<(Symbol, seq<string>)>, nr': StringRules, nnt': StringRules)
    requires groups.Valid() && j < |groups.keys| && nt in nr.items
    requires RuleDone(nt, ps, groups, j, nr, done, nr', nnt')
    ensures var prefix := groups.keys[j];
      var group := groups.items[prefix];
      if |group| > 1 then
        RuleDone(nt, ps, groups, j + 1, nr, done,
                 nr'.Put(nt, Without(nr'.items[nt], group) + [prefix + " " + BaseName(nt, prefix)]),
                 nnt'.Put(BaseName(nt, prefix), SuffixList(group)))
      else RuleDone(nt, ps, groups, j + 1, nr, done, nr', nnt')
  {
    ProductionsStep(nt, ps, groups, j, nr, nr');
    EntriesStep(nt, groups, j, done, nnt');
  }

  /** The loop over the prefix groups of `nt`, whose productions are `ps`; `done` are
      the entries written by the rules before. */
  method FactorRule(nt: Symbol, ps: seq<string>, groups: Dict<string, seq<string>>, nr: StringRules, nnt: StringRules,
                    ghost done: seq<(Symbol, seq<string>)>)
    returns (nr': StringRules, nnt': StringRules)
    requires groups.Valid() && nt in nr.items && nr.items[nt] == ps && nnt == PutAll(Empty(), done)
    ensures nr' == nr.Put(nt, FactoredUpTo(nt, ps, groups, |groups.keys|))
    ensures nnt' == PutAll(Empty(), done + GroupEntries(nt, groups, |groups.keys|))
  {
    nr', nnt' := nr, nnt;
    assert nr.items[nt := ps] == nr.items;
    assert done + [] == done;
    for j := 0 to |groups.keys|
      invariant RuleDone(nt, ps, groups, j, nr, done, nr', nnt')
    {
      RuleStep(nt, ps, groups, j, nr, done, nr', nnt');
      var prefix := groups.keys[j];
      var group := groups.items[prefix];
      if |group| > 1 {
        nr', nnt' := ReplaceGroup(nt, prefix, group, nr', nnt');
      }
    }
  }

  /** One factored group: `New_{nt}_{prefix}` gets the suffixes and the productions of
      `nt` lose the group and gain `prefix New_{nt}_{prefix}`. */
  method ReplaceGroup(nt: Symbol, prefix: Symbol, group: seq<string>, nr: StringRules, nnt: StringRules)
    returns (nr': StringRules, nnt': StringRules)
    requires nt in nr.items
    ensures nr' == nr.Put(nt, Without(nr.items[nt], group) + [prefix + " " + BaseName(nt, prefix)])
    ensures nnt' == nnt.Put(BaseName(nt, prefix), SuffixList(group))
  {
    var name := BaseName(nt, prefix);
    var alts := Suffixes(group);
    nnt' := nnt.Put(name, alts);
    nr' := nr.Put(nt, Without(nr.items[nt], group) + [prefix + " " + name]);
  }

  /** `for nt, prods in new_non_terminals.items(): new_rules[nt] = prods`. */
  method MergeInto(nr: StringRules, nnt: StringRules) returns (r: StringRules)
    requires nnt.Valid()
    ensures r == MergeNew(nr, nnt)
  {
    r := nr;
    for i := 0 to |nnt.keys|
      invariant r == PutAll(nr, Pairs(nnt)[..i])
    {
      PutAllSnoc(nr, Pairs(nnt), i);
      var nt := nnt.keys[i];
      r := r.Put(nt, nnt.items[nt]);
    }
    assert Pairs(nnt)[..|nnt.keys|] == Pairs(nnt);
  }

  /** `resolve_rules_conflicts(rules)`: for every nonterminal in key order, every prefix
      group of two productions or more becomes a nonterminal `New_{nt}_{prefix}` holding
      the suffixes, and the group gives way to `prefix New_{nt}_{prefix}`; the new
      nonterminals are written over the rules at the end. */
  method ResolveRulesConflicts(rules: StringRules) returns (r: StringRules)
    requires rules.Valid()
    ensures r == Resolved(rules)
  {
    var newRules := rules;
    var newNonTerminals: StringRules := Empty();
    for n := 0 to |rules.keys|
      invariant newRules == FactorFirst(rules, n)
      invariant newNonTerminals == PutAll(Empty(), NewEntries(rules, n))
    {
      var nt := rules.keys[n];
      var groups := PrefixGroups(rules.items[nt]);
      FactorFirstAt(rules, n, n);
      newRules, newNonTerminals := FactorRule(nt, rules.items[nt], groups, newRules, newNonTerminals, NewEntries(rules, n));
    }
    r := MergeInto(newRules, newNonTerminals);
  }

  // ---------------------------------------------------------------------------
  // The new nonterminals

  /** `e` is the entry of a factored group of `nt`: its `New_` name and its suffixes. */
  ghost predicate Entry(rules: StringRules, nt: Symbol, e: (Symbol, seq<string>)) {
    exists w :: Factors(rules, nt, w) && e == (BaseName(nt, w), SuffixList(GroupOf(rules, nt, w)))
  }

  lemma GroupEntriesMember(nt: Symbol, g: Dict<string, seq<string>>, j: nat, e: (Symbol, seq<string>))
    requires g.Valid() && j <= |g.keys|
    ensures e in GroupEntries(nt, g, j) <==>
      exists i :: 0 <= i < j && |g.items[g.keys[i]]| > 1 && e == (BaseName(nt, g.keys[i]), SuffixList(g.items[g.keys[i]]))
  {
    FlatMapMember(g.keys, GroupPart(nt, g), j, e);
  }

  /** The entries of one rule are those of its factored groups. */
  lemma RuleEntries(rules: StringRules, nt: Symbol, e: (Symbol, seq<string>))
    ensures e in RuleGroupEntries(rules, nt) <==> Entry(rules, nt, e)
  {
    if nt in rules.items {
      var g := PrefixGroupsOf(rules.items[nt]);
      GroupEntriesMember(nt, g, |g.keys|, e);
      if Entry(rules, nt, e) {
        var w :| Factors(rules, nt, w) && e == (BaseName(nt, w), SuffixList(GroupOf(rules, nt, w)));
        var i :| 0 <= i < |g.keys| && g.keys[i] == w;
      }
      if e in GroupEntries(nt, g, |g.keys|) {
        var i :| 0 <= i < |g.keys| && |g.items[g.keys[i]]| > 1 && e == (BaseName(nt, g.keys[i]), SuffixList(g.items[g.keys[i]]));
        assert Factors(rules, nt, g.keys[i]);
      }
    }
  }

  /** The entries of the first `n` rules are those of their factored groups. */
  lemma NewEntriesMember(rules: StringRules, n: nat, e: (Symbol, seq<string>))
    requires n <= |rules.keys|
    ensures e in NewEntries(rules, n) <==> exists i :: 0 <= i < n && e in RuleGroupEntries(rules, rules.keys[i])
  {
    FlatMapMember(rules.keys, RulePart(rules), n, e);
  }

  /** Every first word shared by two productions or more of a nonterminal `nt` gives a
      new nonterminal `New_{nt}_{prefix}`. */
  lemma FactoredGroupNamed(rules: StringRules, nt: Symbol, w: string)
    requires rules.Valid() && Factors(rules, nt, w)
    ensures BaseName(nt, w) in NewNonTerminals(rules).items
  {
    var es := NewEntries(rules, |rules.keys|);
    var i :| 0 <= i < |rules.keys| && rules.keys[i] == nt;
    var e := (BaseName(nt, w), SuffixList(GroupOf(rules, nt, w)));
    assert Entry(rules, nt, e);
    RuleEntries(rules, nt, e);
    NewEntriesMember(rules, |rules.keys|, e);
    var j :| 0 <= j < |es| && es[j] == e;
    assert es[j].0 == BaseName(nt, w);
  }

  /** `resolve_rules_conflicts` adds exactly the nonterminals `New_{nt}_{prefix}` for a
      nonterminal `nt` and a first word `prefix` shared by two of its productions or more. */
  lemma NewNonTerminalNames(rules: StringRules, k: Symbol)
    requires rules.Valid()
    ensures k in NewNonTerminals(rules).items <==>
      exists i, w :: 0 <= i < |rules.keys| && Factors(rules, rules.keys[i], w) && k == BaseName(rules.keys[i], w)
  {
    if k in NewNonTerminals(rules).items {
      NewNonTerminalAlternatives(rules, k);
    }
    if exists i, w :: 0 <= i < |rules.keys| && Factors(rules, rules.keys[i], w) && k == BaseName(rules.keys[i], w) {
      var i, w :| 0 <= i < |rules.keys| && Factors(rules, rules.keys[i], w) && k == BaseName(rules.keys[i], w);
      FactoredGroupNamed(rules, rules.keys[i], w);
    }
  }

  /** Each new nonterminal holds the suffixes of a factored group of that name: the
      second production and every later one of the group follow the group's first word,
      in the order of the group. */
  lemma NewNonTerminalAlternatives(rules: StringRules, k: Symbol)
    requires rules.Valid() && k in NewNonTerminals(rules).items
    ensures exists i, w :: 0 <= i < |rules.keys| && Factors(rules, rules.keys[i], w) && k == BaseName(rules.keys[i], w)
                           && NewNonTerminals(rules).items[k] == SuffixList(GroupOf(rules, rules.keys[i], w))
  {
    var es := NewEntries(rules, |rules.keys|);
    var v := NewNonTerminals(rules).items[k];
    PutAllValue(Empty(), es, k);
    var j :| 0 <= j < |es| && es[j] == (k, v);
    NewEntriesMember(rules, |rules.keys|, es[j]);
    var i :| 0 <= i < |rules.keys| && es[j] in RuleGroupEntries(rules, rules.keys[i]);
    RuleEntries(rules, rules.keys[i], es[j]);
    var w :| Factors(rules, rules.keys[i], w) && es[j] == (BaseName(rules.keys[i], w), SuffixList(GroupOf(rules, rules.keys[i], w)));
    assert k == BaseName(rules.keys[i], w) && v == SuffixList(GroupOf(rules, rules.keys[i], w));
  }

  /** The result defines the input nonterminals and the new ones; a new nonterminal has its
      suffixes and any other nonterminal its factored productions. */
  lemma ResolvedRules(rules: StringRules, k: Symbol)
    requires rules.Valid()
    ensures k in Resolved(rules).items <==> k in rules.items || k in NewNonTerminals(rules).items
    ensures k in NewNonTerminals(rules).items ==> Resolved(rules).items[k] == NewNonTerminals(rules).items[k]
    ensures k in rules.items && k !in NewNonTerminals(rules).items ==>
              Resolved(rules).items[k] == Factored(k, rules.items[k])
  {
    if k in rules.items {
      var i :| 0 <= i < |rules.keys| && rules.keys[i] == k;
      FactorFirstAt(rules, |rules.keys|, i);
    }
  }

  /** Every new nonterminal is named `New_...`. */
  lemma NewNamesAreNew(rules: StringRules, k: Symbol)
    requires rules.Valid() && k in NewNonTerminals(rules).items
    ensures HasPrefix("New_", k)
  {
    NewNonTerminalAlternatives(rules, k);
    var i, w :| 0 <= i < |rules.keys| && Factors(rules, rules.keys[i], w) && k == BaseName(rules.keys[i], w);
    BaseNameIsNew(rules.keys[i], w);
  }

  lemma BaseNameIsNew(nt: Symbol, prefix: string)
    ensures HasPrefix("New_", BaseName(nt, prefix))
  {
  }

  /** When no input name starts with `New_`, the new nonterminals overwrite nothing: every
      input nonterminal gets its factored productions. */
  lemma ResolvedKeepsInput(rules: StringRules, k: Symbol)
    requires rules.Valid() && NoNewNames(rules) && k in rules.items
    ensures Resolved(rules).items[k] == Factored(k, rules.items[k])
  {
    if k in NewNonTerminals(rules).items {
      NewNamesAreNew(rules, k);
    }
    ResolvedRules(rules, k);
  }
}
