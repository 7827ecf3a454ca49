/** `ProductionRuleProcessor`: the object that expands the `<<tag>>` alternatives of a
    grammar. It keeps the counters of the sub-nonterminals it has handed out, the mapping
    of each rule's tags to what stands for them, and the tag grammar built for each rule. */
module TagProcessor {
  import opened Wrappers
  import opened Text
  import opened Dicts
  import opened TagRefine
  import opened TagExtract
  import opened TagInitial
  import opened TagFinal

  /** `tag and tag.strip()`: a tag that is not empty and not only separators. */
  predicate ValidTag(t: string) {
    t != "" && exists i :: 0 <= i < |t| && !IsSpace(t[i])
  }

  /** `valid_tags`: the tags worth processing, in order. */
  function ValidTags(tags: seq<string>): (r: seq<string>)
    ensures forall t :: t in r <==> t in tags && ValidTag(t)
    decreases |tags|
  {
    if tags == [] then []
    else
      var t := tags[|tags| - 1];
      assert tags == tags[..|tags| - 1] + [t];
      ValidTags(tags[..|tags| - 1]) + (if ValidTag(t) then [t] else [])
  }

  /** The tag grammar and the counters when the loop of `build_tag_grammar_for_rule` stops:
      passes are repeated until one of them changes nothing. */
  function Refine(g: TagRules, c: Counter): (r: (TagRules, Counter))
    requires g.Valid() && FreshOk(g, c)
    ensures r.0.Valid()
    decreases GrammarMeasure(g)
  {
    var (ng, nc, changed) := Pass(g, c);
    if !changed then (g, c)
    else
      PassMeasure(g, c);
      PassFactors(g, c);
      Refine(ng, nc)
  }

  /** The loop stops at a grammar no pass changes: well formed, keeping every key it started
      with, with no key whose alternatives share a first token, and with counters that only
      grew. */
  lemma {:induction false} RefineFactored(g: TagRules, c: Counter)
    requires g.Valid() && FreshOk(g, c)
    ensures Refine(g, c).0.Valid() && FreshOk(Refine(g, c).0, Refine(g, c).1)
    ensures !Pass(Refine(g, c).0, Refine(g, c).1).2
    ensures forall k :: k in Refine(g, c).0.items ==> !SharesFirstToken(Refine(g, c).0.items[k])
    ensures forall k :: k in g.items ==> k in Refine(g, c).0.items
    ensures forall p :: Count(c, p) <= Count(Refine(g, c).1, p)
    decreases GrammarMeasure(g)
  {
    PassChanged(g, c);
    if Pass(g, c).2 {
      var (ng, nc, _) := Pass(g, c);
      PassMeasure(g, c);
      PassFactors(g, c);
      RefineFactored(ng, nc);
    }
  }

  /** The names `get_next_sub_nt` hands out for one parent never repeat. */
  lemma SubNamesDistinct(parent: string, m: nat, n: nat)
    requires m != n
    ensures SubName(parent, m) != SubName(parent, n)
  {
    if SubName(parent, m) == SubName(parent, n) {
      SubNameInjective(parent, m, parent, n);
    }
  }

  // ---------------------------------------------------------------------------
  // `process_full_grammar` over the fields of the processor

  /** The fields the processing changes: the sub-nonterminal counters, the tag mapping
      and the per-rule tag grammars. */
  datatype Fields = Fields(counter: Counter, mapping: map<string, string>, grammars: map<string, TagRules>)

  /** `build_tag_grammar_for_rule(tags, rule)` on fields `f`: nothing without a valid tag;
      else the first grammar of the valid tags, refined until a pass changes nothing, with
      the tags mapped and the grammar stored for the rule. */
  function BuildRule(tokenizer: Tokenizer, tags: seq<string>, rule: string, f: Fields): (r: (TagRules, Fields))
    ensures r.0.Valid()
    ensures ValidTags(tags) == [] ==> r == (Empty(), f)
    ensures ValidTags(tags) != [] ==> r.1.grammars == f.grammars[rule := r.0]
  {
    var valid := ValidTags(tags);
    if valid == [] then (Empty(), f)
    else
      var (groups, ungrouped) := PrefixGroups(tokenizer, valid);
      var init := InitialRules(rule, groups, groups.keys);
      InitialRulesFresh(rule, groups, groups.keys, f.counter);
      var (g, c) := Refine(init, f.counter);
      (g, Fields(c, InitialMapping(f.mapping, tokenizer, rule, groups, ungrouped), f.grammars[rule := g]))
  }

  /** A built tag grammar is factored: each of its keys has no two alternatives with the
      same first token, and a pass over it changes nothing. */
  lemma BuildRuleFactored(tokenizer: Tokenizer, tags: seq<string>, rule: string, f: Fields)
    ensures var (g, f1) := BuildRule(tokenizer, tags, rule, f);
      && (forall k :: k in g.items ==> !SharesFirstToken(g.items[k]))
      && !Pass(g, f1.counter).2
      && forall p :: Count(f.counter, p) <= Count(f1.counter, p)
  {
    var valid := ValidTags(tags);
    if valid != [] {
      var (groups, ungrouped) := PrefixGroups(tokenizer, valid);
      var init := InitialRules(rule, groups, groups.keys);
      InitialRulesFresh(rule, groups, groups.keys, f.counter);
      RefineFactored(init, f.counter);
    } else {
      PassChanged(Empty(), f.counter);
    }
  }

  /** `tags` added to `acc` in order, skipping empty tags and those already there. */
  function AddTags(acc: seq<string>, tags: seq<string>): (r: seq<string>)
    decreases |tags|
  {
    if tags == [] then acc
    else
      var prev := AddTags(acc, tags[..|tags| - 1]);
      var t := tags[|tags| - 1];
      if t != "" && t !in prev then prev + [t] else prev
  }

  /** `rule_tags`: the distinct non-empty tags of a rule's alternatives, in first-seen order. */
  function RuleTags(tagsList: seq<seq<string>>): seq<string>
    decreases |tagsList|
  {
    if tagsList == [] then []
    else AddTags(RuleTags(tagsList[..|tagsList| - 1]), tagsList[|tagsList| - 1])
  }

  predicate Distinct(ts: seq<string>) {
    forall i, j :: 0 <= i < j < |ts| ==> ts[i] != ts[j]
  }

  lemma {:induction false} AddTagsFacts(acc: seq<string>, tags: seq<string>)
    requires Distinct(acc)
    ensures Distinct(AddTags(acc, tags))
    ensures forall t :: t in AddTags(acc, tags) <==> t in acc || (t in tags && t != "")
    decreases |tags|
  {
    if tags != [] {
      var init := tags[..|tags| - 1];
      AddTagsFacts(acc, init);
      assert tags == init + [tags[|tags| - 1]];
    }
  }

  /** The tags of a rule are distinct, and a tag is among them iff it is a non-empty tag of
      one of its alternatives. */
  lemma {:induction false} RuleTagsFacts(tagsList: seq<seq<string>>)
    ensures Distinct(RuleTags(tagsList))
    ensures forall t :: t in RuleTags(tagsList) <==> t != "" && exists i :: 0 <= i < |tagsList| && t in tagsList[i]
    decreases |tagsList|
  {
    if tagsList != [] {
      var init := tagsList[..|tagsList| - 1];
      var last := tagsList[|tagsList| - 1];
      RuleTagsFacts(init);
      AddTagsFacts(RuleTags(init), last);
      forall t | t != "" && exists i :: 0 <= i < |tagsList| && t in tagsList[i]
        ensures t in RuleTags(tagsList)
      {
        var i :| 0 <= i < |tagsList| && t in tagsList[i];
        if i < |tagsList| - 1 {
          assert init[i] == tagsList[i];
        }
      }
      forall t | t in RuleTags(init)
        ensures exists i :: 0 <= i < |tagsList| && t in tagsList[i]
      {
        var i :| 0 <= i < |init| && t in init[i];
        assert init[i] == tagsList[i];
      }
    }
  }

  /** The tag grammar of a rule with tags, copied into the final grammar. */
  function TagStep(tokenizer: Tokenizer, lhs: string, ruleTags: seq<string>, fg: Dict<Key, seq<Tokens>>, f: Fields)
    : (Dict<Key, seq<Tokens>>, Fields)
  {
    if ruleTags == [] then (fg, f)
    else
      var (tg, f1) := BuildRule(tokenizer, ruleTags, lhs, f);
      (PutAll(fg, Pairs(tg)), f1)
  }

  /** One rule of `process_full_grammar`: its tag grammar, then its final productions
      stored, factored when they share a prefix. */
  function RuleStep(tokenizer: Tokenizer, lhs: string, rhs: seq<string>, fg: Dict<Key, seq<Tokens>>, f: Fields)
    : Result<(Dict<Key, seq<Tokens>>, Fields), string>
  {
    var (fg1, f1) := TagStep(tokenizer, lhs, RuleTags(ExtractTagsAndOthers(rhs).0), fg, f);
    match RuleEntries(lhs, FinalProductions(f1.mapping, lhs, rhs))
    case Failure(e) => Failure(e)
    case Success(es) => Success((PutAll(fg1, es), f1))
  }

  /** What a rule's step leaves of the final grammar: well formed, with every key it had
      and with the rule stored under `(lhs, "RULE")`. */
  predicate Extends(fg: Dict<Key, seq<Tokens>>, fg2: Dict<Key, seq<Tokens>>, lhs: string) {
    fg2.Valid() && (lhs, "RULE") in fg2.items && forall k :: k in fg.items ==> k in fg2.items
  }

  /** Storing a rule's productions extends the grammar; the factoring fails only with its
      error. */
  lemma StoreFacts(fg: Dict<Key, seq<Tokens>>, lhs: string, prods: seq<Tokens>)
    requires fg.Valid()
    ensures var r := RuleEntries(lhs, prods);
      if r.Success? then Extends(fg, PutAll(fg, r.value), lhs) else r.error == "min() arg is an empty sequence"
  {
    match FindCommonPrefixesInProductions(prods)
    case Failure(e) =>
      FactoringFails(prods);
    case Success(res) =>
      var es := StoredEntries(lhs, prods, res);
      assert es[0].0 == (lhs, "RULE");
  }

  /** Copying a rule's tag grammar keeps the final grammar well formed and its keys. */
  lemma TagStepFacts(tokenizer: Tokenizer, lhs: string, ruleTags: seq<string>, fg: Dict<Key, seq<Tokens>>, f: Fields)
    requires fg.Valid()
    ensures TagStep(tokenizer, lhs, ruleTags, fg, f).0.Valid()
    ensures forall k :: k in fg.items ==> k in TagStep(tokenizer, lhs, ruleTags, fg, f).0.items
  {
  }

  /** One rule's step extends the final grammar; it fails only with the factoring's error. */
  lemma RuleStepFacts(tokenizer: Tokenizer, lhs: string, rhs: seq<string>, fg: Dict<Key, seq<Tokens>>, f: Fields)
    requires fg.Valid()
    ensures RuleStep(tokenizer, lhs, rhs, fg, f).Success? ==> Extends(fg, RuleStep(tokenizer, lhs, rhs, fg, f).value.0, lhs)
    ensures RuleStep(tokenizer, lhs, rhs, fg, f).Failure? ==> RuleStep(tokenizer, lhs, rhs, fg, f).error == "min() arg is an empty sequence"
  {
    var ruleTags := RuleTags(ExtractTagsAndOthers(rhs).0);
    TagStepFacts(tokenizer, lhs, ruleTags, fg, f);
    var (fg1, f1) := TagStep(tokenizer, lhs, ruleTags, fg, f);
    StoreFacts(fg1, lhs, FinalProductions(f1.mapping, lhs, rhs));
  }

  /** The state `process_full_grammar` carries from rule to rule: the final grammar so far
      and the fields. */
  type Progress = (Dict<Key, seq<Tokens>>, Fields)

  /** `step` applied to the elements of `xs` in order, from `s`; the first failure ends it. */
  function Fold<T, S>(step: (T, S) -> Result<S, string>, xs: seq<T>, s: S): Result<S, string>
    decreases |xs|
  {
    if xs == [] then Success(s)
    else
      var prev := Fold(step, xs[..|xs| - 1], s);
      if prev.Failure? then prev else step(xs[|xs| - 1], prev.value)
  }

  lemma FoldSnoc<T, S>(step: (T, S) -> Result<S, string>, xs: seq<T>, s: S, i: nat)
    requires i < |xs|
    ensures var prev := Fold(step, xs[..i], s);
      Fold(step, xs[..i + 1], s) == if prev.Failure? then prev else step(xs[i], prev.value)
  {
    assert xs[..i + 1][..i] == xs[..i];
  }

  /** Once a step fails, the fold fails with its error. */
  lemma {:induction false} FoldFailed<T, S>(step: (T, S) -> Result<S, string>, xs: seq<T>, s: S, n: nat)
    requires n <= |xs| && Fold(step, xs[..n], s).Failure?
    ensures Fold(step, xs, s) == Fold(step, xs[..n], s)
    decreases |xs|
  {
    if n < |xs| {
      var init := xs[..|xs| - 1];
      assert init[..n] == xs[..n];
      FoldFailed(step, init, s, n);
    } else {
      assert xs[..n] == xs;
    }
  }

  /** A fold keeps an invariant every step keeps, ends with what each step establishes for
      its element and no later step undoes, and fails only with the error every failing
      step gives. */
  lemma {:induction false} FoldFacts<T(!new), S(!new)>(step: (T, S) -> Result<S, string>, xs: seq<T>, s: S,
                                          inv: S -> bool, has: (S, T) -> bool, msg: string)
    requires inv(s)
    requires forall x, t :: inv(t) && step(x, t).Success? ==> inv(step(x, t).value) && has(step(x, t).value, x)
    requires forall x, y, t :: inv(t) && has(t, y) && step(x, t).Success? ==> has(step(x, t).value, y)
    requires forall x, t :: inv(t) && step(x, t).Failure? ==> step(x, t).error == msg
    ensures var r := Fold(step, xs, s);
      if r.Success? then inv(r.value) && forall i :: 0 <= i < |xs| ==> has(r.value, xs[i]) else r.error == msg
    decreases |xs|
  {
    if xs != [] {
      var init := xs[..|xs| - 1];
      var x := xs[|xs| - 1];
      FoldFacts(step, init, s, inv, has, msg);
      var prev := Fold(step, init, s);
      if prev.Success? {
        var r := step(x, prev.value);
        if r.Success? {
          forall i | 0 <= i < |xs|
            ensures has(r.value, xs[i])
          {
            if i < |xs| - 1 {
              assert init[i] == xs[i];
            }
          }
        }
      }
    }
  }

  /** The step of `process_full_grammar` for one `(lhs, rhs_list)` of `grammar_dict.items()`. */
  function RuleStepper(tokenizer: Tokenizer): ((string, seq<string>), Progress) -> Result<Progress, string> {
    (e: (string, seq<string>), p: Progress) => RuleStep(tokenizer, e.0, e.1, p.0, p.1)
  }

  /** `process_full_grammar`: the rules of the grammar in order from an empty final grammar;
      the first failure ends it. */
  function FullGrammar(tokenizer: Tokenizer, gd: Dict<string, seq<string>>, f: Fields): Result<Progress, string>
    requires gd.Valid()
  {
    Fold(RuleStepper(tokenizer), Pairs(gd), (Empty(), f))
  }

  /** A successful processing is well formed and stores every rule under `(lhs, "RULE")`;
      a failure is the factoring's error. */
  lemma FullGrammarFacts(tokenizer: Tokenizer, gd: Dict<string, seq<string>>, f: Fields)
    requires gd.Valid()
    ensures var r := FullGrammar(tokenizer, gd, f);
      if r.Success? then r.value.0.Valid() && forall lhs :: lhs in gd.items ==> (lhs, "RULE") in r.value.0.items
      else r.error == "min() arg is an empty sequence"
  {
    var step := RuleStepper(tokenizer);
    var inv := (p: Progress) => p.0.Valid();
    var has := (p: Progress, e: (string, seq<string>)) => (e.0, "RULE") in p.0.items;
    forall e, t | inv(t) && step(e, t).Success?
      ensures inv(step(e, t).value) && has(step(e, t).value, e)
    {
      RuleStepFacts(tokenizer, e.0, e.1, t.0, t.1);
    }
    forall e, y, t | inv(t) && has(t, y) && step(e, t).Success?
      ensures has(step(e, t).value, y)
    {
      RuleStepFacts(tokenizer, e.0, e.1, t.0, t.1);
    }
    forall e, t | inv(t) && step(e, t).Failure?
      ensures step(e, t).error == "min() arg is an empty sequence"
    {
      RuleStepFacts(tokenizer, e.0, e.1, t.0, t.1);
    }
    var es := Pairs(gd);
    FoldFacts(step, es, (Empty(), f), inv, has, "min() arg is an empty sequence");
    var r := FullGrammar(tokenizer, gd, f);
    if r.Success? {
      forall lhs | lhs in gd.items
        ensures (lhs, "RULE") in r.value.0.items
      {
        var i :| 0 <= i < |gd.keys| && gd.keys[i] == lhs;
        assert has(r.value, es[i]);
      }
    }
  }

  /** What a rule's step stores: unfactored, `(lhs, "RULE")` holds its final productions;
      factored, `(lhs, "RULE")` holds only the prefix followed by `lhs_FACT` and
      `(lhs_FACT, "RULE")` the suffixes, so what the rule derives through `lhs_FACT` is
      exactly its non-empty productions. */
  lemma RuleStepKeepsAlternatives(tokenizer: Tokenizer, lhs: string, rhs: seq<string>, fg: Dict<Key, seq<Tokens>>, f: Fields, q: Tokens)
    requires RuleStep(tokenizer, lhs, rhs, fg, f).Success?
    ensures var (fg2, f2) := RuleStep(tokenizer, lhs, rhs, fg, f).value;
      var prods := FinalProductions(f2.mapping, lhs, rhs);
      var fact := FactName(lhs);
      && FindCommonPrefixesInProductions(prods).Success?
      && (FindCommonPrefixesInProductions(prods).value.1.None? ==> fg2.items[(lhs, "RULE")] == prods)
      && (FindCommonPrefixesInProductions(prods).value.1.Some? ==>
            var fa := FindCommonPrefixesInProductions(prods).value.1.value;
            && (fact, "RULE") in fg2.items
            && fg2.items[(lhs, "RULE")] == [fa.prefix + [fact]]
            && fg2.items[(fact, "RULE")] == fa.suffixes
            && (Derives(fg2.items[(lhs, "RULE")], fact, fg2.items[(fact, "RULE")], q) <==> q in prods && q != []))
  {
    var (fg1, f1) := TagStep(tokenizer, lhs, RuleTags(ExtractTagsAndOthers(rhs).0), fg, f);
    var prods := FinalProductions(f1.mapping, lhs, rhs);
    var res := FindCommonPrefixesInProductions(prods).value;
    var es := StoredEntries(lhs, prods, res);
    if res.1.Some? {
      RuleEntriesDropEmpty(lhs, prods, q);
      assert FactName(lhs) != lhs by { assert |FactName(lhs)| > |lhs|; }
      PutAllAfter(fg1, es, 0);
    }
  }

  // ---------------------------------------------------------------------------
  // One more element: how each list the loops build grows

  lemma TokenizedSnoc(tokenizer: Tokenizer, tags: seq<string>, i: nat)
    requires i < |tags|
    ensures Tokenized(tokenizer, tags[..i + 1]) ==
      if tags[i] == "" then Tokenized(tokenizer, tags[..i])
      else Tokenized(tokenizer, tags[..i]).Put(tags[i], TokenizeTag(tokenizer, tags[i]))
  {
    assert tags[..i + 1][..i] == tags[..i];
  }

  lemma GroupEntriesSnoc(es: seq<Entry>, j: nat)
    requires j < |es|
    ensures var d := GroupBy(es[..j], FirstToken(), AfterFirst());
      GroupBy(es[..j + 1], FirstToken(), AfterFirst()) ==
        if es[j].1 == [] then d
        else d.Put(es[j].1[0], (if es[j].1[0] in d.items then d.items[es[j].1[0]] else []) + [(es[j].0, es[j].1[1..])])
  {
    assert es[..j + 1][..j] == es[..j];
  }

  lemma GroupListsSnoc(lists: seq<Tokens>, j: nat)
    requires j < |lists|
    ensures var d := GroupBy(lists[..j], Head(), Tail());
      GroupBy(lists[..j + 1], Head(), Tail()) ==
        if lists[j] == [] then d
        else d.Put(lists[j][0], (if lists[j][0] in d.items then d.items[lists[j][0]] else []) + [lists[j][1..]])
  {
    assert lists[..j + 1][..j] == lists[..j];
  }

  lemma UngroupedSnoc(tags: seq<string>, groups: Groups, i: nat)
    requires i < |tags|
    ensures Ungrouped(tags[..i + 1], groups) == Ungrouped(tags[..i], groups) + (if Grouped(groups, tags[i]) then [] else [tags[i]])
  {
    assert tags[..i + 1][..i] == tags[..i];
  }

  lemma ValidTagsSnoc(tags: seq<string>, i: nat)
    requires i < |tags|
    ensures ValidTags(tags[..i + 1]) == ValidTags(tags[..i]) + (if ValidTag(tags[i]) then [tags[i]] else [])
  {
    assert tags[..i + 1][..i] == tags[..i];
  }

  lemma FinalSnoc(mapping: map<string, string>, lhs: string, rhs: seq<string>, i: nat)
    requires i < |rhs|
    ensures FinalProductions(mapping, lhs, rhs[..i + 1]) ==
      var prev := FinalProductions(mapping, lhs, rhs[..i]);
      var p := ProductionOf(mapping, lhs, rhs[i]);
      if p != [] && p in prev then prev else prev + [p]
  {
    var all := Productions(mapping, lhs, rhs[..i + 1]);
    assert all[..i] == Productions(mapping, lhs, rhs[..i]);
    CollectSnoc(all, i);
    assert all[..i + 1] == all;
  }

  lemma CollectSnoc(ps: seq<Tokens>, i: nat)
    requires i < |ps|
    ensures Collect(ps[..i + 1]) == if ps[i] != [] && ps[i] in Collect(ps[..i]) then Collect(ps[..i]) else Collect(ps[..i]) + [ps[i]]
  {
    assert ps[..i + 1][..i] == ps[..i];
  }

  lemma HeadsSnoc(nt: string, base: nat, ps: seq<string>, j: nat)
    requires j < |ps|
    ensures Heads(nt, base, ps[..j + 1]) == Heads(nt, base, ps[..j]) + [[ps[j], SubName(nt, base + j + 1)]]
  {
    var a := Heads(nt, base, ps[..j + 1]);
    var b := Heads(nt, base, ps[..j]) + [[ps[j], SubName(nt, base + j + 1)]];
    assert |a| == |b|;
    forall k | 0 <= k < |a|
      ensures a[k] == b[k]
    {
      if k < j {
        assert ps[..j + 1][k] == ps[..j][k];
      }
    }
  }

  lemma KeptSnoc(lists: seq<Tokens>, cps: Dict<string, seq<Tokens>>, m: nat)
    requires m < |lists|
    ensures Kept(lists[..m + 1], cps) == Kept(lists[..m], cps) + (if lists[m] == [] || lists[m][0] !in cps.items then [lists[m]] else [])
  {
    assert lists[..m + 1][..m] == lists[..m];
  }

  lemma AddSubRulesSnoc(ng: TagRules, nt: string, base: nat, cps: Dict<string, seq<Tokens>>, j: nat)
    requires cps.Valid() && j < |cps.keys|
    ensures AddSubRules(ng, nt, base, cps, cps.keys[..j + 1]) ==
      AddSubRules(ng, nt, base, cps, cps.keys[..j]).Put((SubName(nt, base + j + 1), cps.keys[j]), cps.items[cps.keys[j]])
  {
    assert cps.keys[..j + 1][..j] == cps.keys[..j];
  }

  lemma IterateSnoc(g: TagRules, c: Counter, i: nat)
    requires g.Valid() && i < |g.keys|
    ensures var prev := Iterate(g, g.keys[..i], c);
      Iterate(g, g.keys[..i + 1], c) == Step(g, g.keys[i], prev.0, prev.1, prev.2)
  {
    assert g.keys[..i + 1][..i] == g.keys[..i];
  }

  lemma InitialRulesSnoc(rule: string, groups: Groups, i: nat)
    requires groups.Valid() && i < |groups.keys|
    ensures var p := groups.keys[i];
      InitialRules(rule, groups, groups.keys[..i + 1]) ==
        if AllSingle(groups.items[p]) then InitialRules(rule, groups, groups.keys[..i])
        else InitialRules(rule, groups, groups.keys[..i]).Put((InitialName(rule, i + 1), p), SuffixLists(groups.items[p]))
  {
    assert groups.keys[..i + 1][..i] == groups.keys[..i];
  }

  lemma MapGroupsSnoc(m: map<string, string>, rule: string, groups: Groups, i: nat)
    requires groups.Valid() && i < |groups.keys|
    ensures var p := groups.keys[i];
      MapGroups(m, rule, groups, groups.keys[..i + 1]) ==
        MapAll(MapGroups(m, rule, groups, groups.keys[..i]), rule, groups.items[p], GroupTarget(rule, i + 1, p, groups.items[p]))
  {
    assert groups.keys[..i + 1][..i] == groups.keys[..i];
  }

  lemma MapAllSnoc(m: map<string, string>, rule: string, pairs: seq<Entry>, target: string, j: nat)
    requires j < |pairs|
    ensures MapAll(m, rule, pairs[..j + 1], target) == MapAll(m, rule, pairs[..j], target)[MapKey(rule, pairs[j].0) := target]
  {
    assert pairs[..j + 1][..j] == pairs[..j];
  }

  lemma MapUngroupedSnoc(m: map<string, string>, tokenizer: Tokenizer, rule: string, tags: seq<string>, k: nat)
    requires k < |tags|
    ensures MapUngrouped(m, tokenizer, rule, tags[..k + 1]) ==
      MapUngrouped(m, tokenizer, rule, tags[..k])[MapKey(rule, tags[k]) := Join(TokenizeTag(tokenizer, tags[k]))]
  {
    assert tags[..k + 1][..k] == tags[..k];
  }

  lemma AddTagsSnoc(acc: seq<string>, tags: seq<string>, b: nat)
    requires b < |tags|
    ensures AddTags(acc, tags[..b + 1]) ==
      var prev := AddTags(acc, tags[..b]);
      if tags[b] != "" && tags[b] !in prev then prev + [tags[b]] else prev
  {
    assert tags[..b + 1][..b] == tags[..b];
  }

  lemma RuleTagsSnoc(tagsList: seq<seq<string>>, a: nat)
    requires a < |tagsList|
    ensures RuleTags(tagsList[..a + 1]) == AddTags(RuleTags(tagsList[..a]), tagsList[a])
  {
    assert tagsList[..a + 1][..a] == tagsList[..a];
  }

  /** The counters after `n` calls of `get_next_sub_nt(nt)`. */
  function Advanced(c: Counter, nt: string, n: nat): Counter {
    if n == 0 then c else c[nt := Count(c, nt) + n]
  }

  lemma AdvancedStep(c: Counter, nt: string, n: nat)
    ensures Count(Advanced(c, nt, n), nt) == Count(c, nt) + n
    ensures Advanced(c, nt, n + 1) == Advanced(c, nt, n)[nt := Count(Advanced(c, nt, n), nt) + 1]
  {
  }

  class ProductionRuleProcessor {
    /** The tokenizer the processor was built with. */
    const tokenizer: Tokenizer
    /** `sub_nt_counter`: how many sub-nonterminals each parent has handed out. */
    var subNtCounter: Counter
    /** `tag_to_nt_mapping`: `rule::tag` to the tokens that stand for the tag. */
    var tagToNtMapping: map<string, string>
    /** `non_terminals`: the rules of the last grammar processed. */
    var nonTerminals: set<string>
    /** `rule_specific_grammars`: the tag grammar built for each rule. */
    var ruleSpecificGrammars: map<string, TagRules>

    constructor(tokenizer: Tokenizer)
      ensures this.tokenizer == tokenizer
      ensures subNtCounter == map[] && tagToNtMapping == map[]
      ensures nonTerminals == {} && ruleSpecificGrammars == map[]
    {
      this.tokenizer := tokenizer;
      subNtCounter := map[];
      tagToNtMapping := map[];
      nonTerminals := {};
      ruleSpecificGrammars := map[];
    }

    /** `get_prefix_groups_for_rule(tags, rule_name)`. */
    method GetPrefixGroupsForRule(tags: seq<string>) returns (groups: Groups, ungrouped: seq<string>)
      ensures (groups, ungrouped) == PrefixGroups(tokenizer, tags)
    {
      var tokenized: Dict<string, Tokens> := Empty();
      for i := 0 to |tags|
        invariant tokenized == Tokenized(tokenizer, tags[..i])
      {
        TokenizedSnoc(tokenizer, tags, i);
        var tag := tags[i];
        if tag != "" {
          tokenized := tokenized.Put(tag, TokenizeTag(tokenizer, tag));
        }
      }
      assert tags[..|tags|] == tags;
      var prefixCounts := CountPrefixes(Pairs(tokenized));
      groups := KeepShared(prefixCounts);
      ungrouped := [];
      for i := 0 to |tags|
        invariant ungrouped == Ungrouped(tags[..i], groups)
      {
        UngroupedSnoc(tags, groups, i);
        if !Grouped(groups, tags[i]) {
          ungrouped := ungrouped + [tags[i]];
        }
      }
      assert tags[..|tags|] == tags;
    }

    /** The loop of `get_prefix_groups_for_rule` that fills `prefix_counts`. */
    static method CountPrefixes(es: seq<Entry>) returns (prefixCounts: Dict<string, seq<Entry>>)
      ensures prefixCounts == GroupBy(es, FirstToken(), AfterFirst())
    {
      prefixCounts := Empty();
      for j := 0 to |es|
        invariant prefixCounts == GroupBy(es[..j], FirstToken(), AfterFirst())
      {
        GroupEntriesSnoc(es, j);
        var (tag, tokens) := es[j];
        if tokens != [] {
          var prefix := tokens[0];
          var sofar := if prefix in prefixCounts.items then prefixCounts.items[prefix] else [];
          prefixCounts := prefixCounts.Put(prefix, sofar + [(tag, tokens[1..])]);
        }
      }
      assert es[..|es|] == es;
    }

    /** `create_initial_grammar_for_rule(prefix_groups, ungrouped_tags, rule_name)`: the
        first grammar of the rule and the mapping of each of its tags. */
    method CreateInitialGrammarForRule(groups: Groups, ungrouped: seq<string>, rule: string) returns (grammar: TagRules)
      requires groups.Valid()
      modifies this`tagToNtMapping
      ensures grammar == InitialRules(rule, groups, groups.keys)
      ensures tagToNtMapping == InitialMapping(old(tagToNtMapping), tokenizer, rule, groups, ungrouped)
    {
      grammar := MapGroupedTags(groups, rule);
      MapUngroupedTags(rule, ungrouped);
    }

    /** The loop of `create_initial_grammar_for_rule` over the groups: the rule of each
        group with a non-empty suffix, and the mapping of its tags. */
    method MapGroupedTags(groups: Groups, rule: string) returns (grammar: TagRules)
      requires groups.Valid()
      modifies this`tagToNtMapping
      ensures grammar == InitialRules(rule, groups, groups.keys)
      ensures tagToNtMapping == MapGroups(old(tagToNtMapping), rule, groups, groups.keys)
    {
      grammar := Empty();
      var ps := groups.keys;
      for i := 0 to |ps|
        invariant grammar == InitialRules(rule, groups, ps[..i])
        invariant tagToNtMapping == MapGroups(old(tagToNtMapping), rule, groups, ps[..i])
      {
        InitialRulesSnoc(rule, groups, i);
        MapGroupsSnoc(old(tagToNtMapping), rule, groups, i);
        grammar := AddGroup(rule, i + 1, ps[i], groups.items[ps[i]], grammar);
      }
      assert ps[..|ps|] == ps;
    }

    /** Group `i` (from 1) with prefix `prefix`: its rule when a suffix is not empty, and
        the mapping of its tags to the prefix, followed by the rule's name if it has one. */
    method AddGroup(rule: string, i: nat, prefix: string, pairs: seq<Entry>, grammar: TagRules) returns (g: TagRules)
      modifies this`tagToNtMapping
      ensures g == if AllSingle(pairs) then grammar else grammar.Put((InitialName(rule, i), prefix), SuffixLists(pairs))
      ensures tagToNtMapping == MapAll(old(tagToNtMapping), rule, pairs, GroupTarget(rule, i, prefix, pairs))
    {
      var target;
      g := grammar;
      if AllSingle(pairs) {
        target := prefix;
      } else {
        var nt := InitialName(rule, i);
        target := prefix + " " + nt;
        g := g.Put((nt, prefix), SuffixLists(pairs));
      }
      MapTags(rule, pairs, target);
    }

    /** The loop of `create_initial_grammar_for_rule` over the ungrouped tags: each maps to
        its own tokens joined by spaces. */
    method MapUngroupedTags(rule: string, ungrouped: seq<string>)
      modifies this`tagToNtMapping
      ensures tagToNtMapping == MapUngrouped(old(tagToNtMapping), tokenizer, rule, ungrouped)
    {
      for k := 0 to |ungrouped|
        invariant tagToNtMapping == MapUngrouped(old(tagToNtMapping), tokenizer, rule, ungrouped[..k])
      {
        MapUngroupedSnoc(old(tagToNtMapping), tokenizer, rule, ungrouped, k);
        var tag := ungrouped[k];
        var production := Join(TokenizeTag(tokenizer, tag));
        tagToNtMapping := tagToNtMapping[MapKey(rule, tag) := production];
      }
      assert ungrouped[..|ungrouped|] == ungrouped;
    }

    /** `self.tag_to_nt_mapping[f"{rule_name}::{tag}"] = target` for each tag of a group. */
    method MapTags(rule: string, pairs: seq<Entry>, target: string)
      modifies this`tagToNtMapping
      ensures tagToNtMapping == MapAll(old(tagToNtMapping), rule, pairs, target)
    {
      for j := 0 to |pairs|
        invariant tagToNtMapping == MapAll(old(tagToNtMapping), rule, pairs[..j], target)
      {
        MapAllSnoc(old(tagToNtMapping), rule, pairs, target, j);
        tagToNtMapping := tagToNtMapping[MapKey(rule, pairs[j].0) := target];
      }
      assert pairs[..|pairs|] == pairs;
    }

    /** `find_common_prefixes(token_lists)`. */
    static method FindCommonPrefixes(lists: seq<Tokens>) returns (r: Dict<string, seq<Tokens>>)
      ensures r == CommonPrefixes(lists)
    {
      if |lists| <= 1 {
        return Empty();
      }
      var prefixGroups: Dict<string, seq<Tokens>> := Empty();
      for i := 0 to |lists|
        invariant prefixGroups == GroupBy(lists[..i], Head(), Tail())
      {
        GroupListsSnoc(lists, i);
        var tokens := lists[i];
        if |tokens| > 0 {
          var first := tokens[0];
          var sofar := if first in prefixGroups.items then prefixGroups.items[first] else [];
          prefixGroups := prefixGroups.Put(first, sofar + [tokens[1..]]);
        }
      }
      assert lists[..|lists|] == lists;
      r := KeepShared(prefixGroups);
    }

    /** `get_next_sub_nt(parent_nt)`: the next name of the parent, `parent_n`. */
    method GetNextSubNt(parent: string) returns (name: string)
      modifies this`subNtCounter
      ensures subNtCounter == old(subNtCounter)[parent := Count(old(subNtCounter), parent) + 1]
      ensures name == SubName(parent, Count(old(subNtCounter), parent) + 1)
    {
      if parent !in subNtCounter {
        subNtCounter := subNtCounter[parent := 0];
      }
      subNtCounter := subNtCounter[parent := subNtCounter[parent] + 1];
      name := SubName(parent, subNtCounter[parent]);
    }

    /** The body of the loop of `process_grammar_iteration` for key `key`. */
    method ProcessKey(grammar: TagRules, key: Key, newGrammar: TagRules, changed: bool)
      returns (ng: TagRules, ch: bool)
      requires key in grammar.items
      modifies this`subNtCounter
      ensures (ng, subNtCounter, ch) == Step(grammar, key, newGrammar, old(subNtCounter), changed)
    {
      ng, ch := newGrammar, changed;
      var tokenLists := grammar.items[key];
      if |tokenLists| > 1 {
        var cps := FindCommonPrefixes(tokenLists);
        if cps.items != map[] {
          assert cps.keys != [] by {
            var p :| p in cps.items;
          }
          var heads;
          heads, ng := AddSubNonterminals(key.0, cps, newGrammar);
          ch := true;
          var newTokenLists := KeepUnshared(heads, tokenLists, cps);
          ng := ng.Put(key, newTokenLists);
        }
      }
    }

    /** The loop over the common prefixes of one key: a fresh name for each, its
        alternative `[prefix, name]`, and its suffixes stored under `(name, prefix)`. */
    method AddSubNonterminals(nt: string, cps: Dict<string, seq<Tokens>>, newGrammar: TagRules)
      returns (heads: seq<Tokens>, ng: TagRules)
      requires cps.Valid()
      modifies this`subNtCounter
      ensures heads == Heads(nt, Count(old(subNtCounter), nt), cps.keys)
      ensures ng == AddSubRules(newGrammar, nt, Count(old(subNtCounter), nt), cps, cps.keys)
      ensures subNtCounter == Advanced(old(subNtCounter), nt, |cps.keys|)
    {
      ghost var base := Count(subNtCounter, nt);
      heads, ng := [], newGrammar;
      for j := 0 to |cps.keys|
        invariant heads == Heads(nt, base, cps.keys[..j])
        invariant ng == AddSubRules(newGrammar, nt, base, cps, cps.keys[..j])
        invariant subNtCounter == Advanced(old(subNtCounter), nt, j)
      {
        HeadsSnoc(nt, base, cps.keys, j);
        AddSubRulesSnoc(newGrammar, nt, base, cps, j);
        AdvancedStep(old(subNtCounter), nt, j);
        var p := cps.keys[j];
        var newNt := GetNextSubNt(nt);
        assert newNt == SubName(nt, base + j + 1);
        heads := heads + [[p, newNt]];
        ng := ng.Put((newNt, p), cps.items[p]);
      }
      assert cps.keys[..|cps.keys|] == cps.keys;
    }

    /** The loop that keeps the empty alternatives and those whose first token is not
        shared, after the new ones. */
    static method KeepUnshared(heads: seq<Tokens>, tokenLists: seq<Tokens>, cps: Dict<string, seq<Tokens>>)
      returns (newTokenLists: seq<Tokens>)
      ensures newTokenLists == heads + Kept(tokenLists, cps)
    {
      newTokenLists := heads;
      for m := 0 to |tokenLists|
        invariant newTokenLists == heads + Kept(tokenLists[..m], cps)
      {
        KeptSnoc(tokenLists, cps, m);
        var tokens := tokenLists[m];
        if |tokens| > 0 && tokens[0] !in cps.items {
          newTokenLists := newTokenLists + [tokens];
        } else if |tokens| == 0 {
          newTokenLists := newTokenLists + [tokens];
        }
      }
      assert tokenLists[..|tokenLists|] == tokenLists;
    }

    /** `process_grammar_iteration(grammar)`: one pass over the keys of the grammar, on a
        copy of it. */
    method ProcessGrammarIteration(grammar: TagRules) returns (newGrammar: TagRules, changed: bool)
      requires grammar.Valid()
      modifies this`subNtCounter
      ensures (newGrammar, subNtCounter, changed) == Pass(grammar, old(subNtCounter))
    {
      newGrammar, changed := grammar, false;
      var ks := grammar.keys;
      for i := 0 to |ks|
        invariant (newGrammar, subNtCounter, changed) == Iterate(grammar, ks[..i], old(subNtCounter))
      {
        IterateSnoc(grammar, old(subNtCounter), i);
        newGrammar, changed := ProcessKey(grammar, ks[i], newGrammar, changed);
      }
      assert ks[..|ks|] == ks;
    }

    /** `build_tag_grammar_for_rule(tags, rule_name)`. */
    method BuildTagGrammarForRule(tags: seq<string>, rule: string) returns (grammar: TagRules)
      modifies this`subNtCounter, this`tagToNtMapping, this`ruleSpecificGrammars
      ensures (grammar, Fields(subNtCounter, tagToNtMapping, ruleSpecificGrammars)) ==
        BuildRule(tokenizer, tags, rule, Fields(old(subNtCounter), old(tagToNtMapping), old(ruleSpecificGrammars)))
    {
      var validTags := FilterValidTags(tags);
      if validTags == [] {
        return Empty();
      }
      var groups, ungrouped := GetPrefixGroupsForRule(validTags);
      grammar := CreateInitialGrammarForRule(groups, ungrouped, rule);
      InitialRulesFresh(rule, groups, groups.keys, subNtCounter);
      grammar := RefineLoop(grammar);
      ruleSpecificGrammars := ruleSpecificGrammars[rule := grammar];
    }

    /** `valid_tags = [tag for tag in tags if tag and tag.strip()]`. */
    static method FilterValidTags(tags: seq<string>) returns (validTags: seq<string>)
      ensures validTags == ValidTags(tags)
    {
      validTags := [];
      for i := 0 to |tags|
        invariant validTags == ValidTags(tags[..i])
      {
        ValidTagsSnoc(tags, i);
        var tag := tags[i];
        if tag != "" && exists k :: 0 <= k < |tag| && !IsSpace(tag[k]) {
          validTags := validTags + [tag];
        }
      }
      assert tags[..|tags|] == tags;
    }

    /** The `while True` loop of `build_tag_grammar_for_rule`: passes until one reports no
        change. It stops because a pass that changes something lowers the measure. */
    method RefineLoop(start: TagRules) returns (grammar: TagRules)
      requires start.Valid() && FreshOk(start, subNtCounter)
      modifies this`subNtCounter
      ensures (grammar, subNtCounter) == Refine(start, old(subNtCounter))
      ensures grammar.Valid()
    {
      grammar := start;
      while true
        invariant grammar.Valid() && FreshOk(grammar, subNtCounter)
        invariant Refine(grammar, subNtCounter) == Refine(start, old(subNtCounter))
        decreases GrammarMeasure(grammar)
      {
        ghost var c := subNtCounter;
        var newGrammar, changed := ProcessGrammarIteration(grammar);
        if !changed {
          PassChanged(grammar, c);
          break;
        }
        PassMeasure(grammar, c);
        PassFactors(grammar, c);
        grammar := newGrammar;
      }
    }

    /** `production_sublist` for the alternative `item`, whose tags and text chunks are
        `tags` and `others`: for each `j`, tag `j` by its mapping and then the words of
        chunk `j`. */
    method ProductionTokens(lhs: string, item: string, tags: seq<string>, others: seq<Option<string>>)
      returns (sublist: Tokens)
      requires tags == ExtractItem(item).0 && others == ExtractItem(item).1
      ensures sublist == ProductionOf(tagToNtMapping, lhs, item)
    {
      var maxLen := Max(|tags|, |others|);
      sublist := [];
      for j := 0 to maxLen
        invariant sublist + Alternate(tagToNtMapping, lhs, tags, others, j, maxLen) ==
                  Alternate(tagToNtMapping, lhs, tags, others, 0, maxLen)
      {
        var tagTokens := if j < |tags| then TagTokens(tagToNtMapping, lhs, tags[j]) else [];
        var otherTokens := if j < |others| then OtherTokens(others[j]) else [];
        AlternateStep(tagToNtMapping, lhs, tags, others, j, maxLen, sublist, tagTokens, otherTokens);
        sublist := sublist + tagTokens + otherTokens;
      }
      assert Alternate(tagToNtMapping, lhs, tags, others, maxLen, maxLen) == [];
      assert sublist == sublist + [];
    }

    /** `create_final_productions_for_rule(lhs, rhs_list, _)`: the production of each
        alternative, in order, a non-empty one only once. */
    method CreateFinalProductionsForRule(lhs: string, rhs: seq<string>) returns (productions: seq<Tokens>)
      ensures productions == FinalProductions(tagToNtMapping, lhs, rhs)
    {
      var (tagsList, othersList) := ExtractTagsAndOthers(rhs);
      productions := [];
      for i := 0 to |rhs|
        invariant productions == FinalProductions(tagToNtMapping, lhs, rhs[..i])
      {
        var sublist := ProductionTokens(lhs, rhs[i], tagsList[i], othersList[i]);
        FinalSnoc(tagToNtMapping, lhs, rhs, i);
        productions := AddProduction(productions, sublist);
      }
      assert rhs[..|rhs|] == rhs;
    }

    /** A non-empty production is added unless it is already present; an empty one always. */
    static method AddProduction(productions: seq<Tokens>, sublist: Tokens) returns (r: seq<Tokens>)
      ensures r == if sublist != [] && sublist in productions then productions else productions + [sublist]
    {
      r := productions;
      if sublist != [] {
        if sublist !in productions {
          r := productions + [sublist];
        }
      } else {
        r := productions + [[]];
      }
    }

    /** `process_full_grammar(grammar_dict)`: the rules in order, each with its tag
        grammar and its factored final productions; the `ValueError` of a factoring ends
        the processing as a failure. */
    method ProcessFullGrammar(grammarDict: Dict<string, seq<string>>)
      returns (r: Result<(Dict<Key, seq<Tokens>>, map<string, string>), string>)
      requires grammarDict.Valid()
      modifies this`nonTerminals, this`subNtCounter, this`tagToNtMapping, this`ruleSpecificGrammars
      ensures nonTerminals == grammarDict.items.Keys
      ensures var full := FullGrammar(tokenizer, grammarDict, Fields(old(subNtCounter), old(tagToNtMapping), old(ruleSpecificGrammars)));
        && full.Success? == r.Success?
        && (r.Success? ==> full.value == (r.value.0, Fields(subNtCounter, tagToNtMapping, ruleSpecificGrammars))
                           && r.value.1 == tagToNtMapping)
        && (r.Failure? ==> full.error == r.error)
    {
      nonTerminals := grammarDict.items.Keys;
      ghost var s0: Progress := (Empty(), Fields(subNtCounter, tagToNtMapping, ruleSpecificGrammars));
      ghost var es := Pairs(grammarDict);
      var finalGrammar: Dict<Key, seq<Tokens>> := Empty();
      var ks := grammarDict.keys;
      for i := 0 to |ks|
        invariant Fold(RuleStepper(tokenizer), es[..i], s0) ==
          Success((finalGrammar, Fields(subNtCounter, tagToNtMapping, ruleSpecificGrammars)))
        invariant nonTerminals == grammarDict.items.Keys
      {
        FoldSnoc(RuleStepper(tokenizer), es, s0, i);
        var lhs := ks[i];
        var step := ProcessRule(lhs, grammarDict.items[lhs], finalGrammar);
        if step.Failure? {
          FoldFailed(RuleStepper(tokenizer), es, s0, i + 1);
          return Failure(step.error);
        }
        finalGrammar := step.value;
      }
      assert es[..|ks|] == es;
      r := Success((finalGrammar, tagToNtMapping));
    }

    /** The body of the loop of `process_full_grammar` for rule `lhs`. */
    method ProcessRule(lhs: string, rhs: seq<string>, finalGrammar: Dict<Key, seq<Tokens>>)
      returns (r: Result<Dict<Key, seq<Tokens>>, string>)
      modifies this`subNtCounter, this`tagToNtMapping, this`ruleSpecificGrammars
      ensures var step := RuleStep(tokenizer, lhs, rhs, finalGrammar,
                                   Fields(old(subNtCounter), old(tagToNtMapping), old(ruleSpecificGrammars)));
        && step.Success? == r.Success?
        && (r.Success? ==> step.value == (r.value, Fields(subNtCounter, tagToNtMapping, ruleSpecificGrammars)))
        && (r.Failure? ==> step.error == r.error)
    {
      var (tagsList, _) := ExtractTagsAndOthers(rhs);
      var ruleTags := CollectRuleTags(tagsList);
      var fg := finalGrammar;
      if ruleTags != [] {
        var tagGrammar := BuildTagGrammarForRule(ruleTags, lhs);
        fg := CopyEntries(fg, tagGrammar);
      }
      var productions := CreateFinalProductionsForRule(lhs, rhs);
      var factoring := TagFinal.FindCommonPrefixesInProductions(productions);
      if factoring.Failure? {
        return Failure(factoring.error);
      }
      var (_, info) := factoring.value;
      if info.Some? {
        var newNt := FactName(lhs);
        PutAllTwo(fg, ((lhs, "RULE"), [info.value.prefix + [newNt]]), ((newNt, "RULE"), info.value.suffixes));
        fg := fg.Put((lhs, "RULE"), [info.value.prefix + [newNt]]);
        fg := fg.Put((newNt, "RULE"), info.value.suffixes);
      } else {
        PutAllOne(fg, ((lhs, "RULE"), productions));
        fg := fg.Put((lhs, "RULE"), productions);
      }
      r := Success(fg);
    }

    /** `rule_tags`: the distinct non-empty tags of the alternatives, in first-seen order. */
    static method CollectRuleTags(tagsList: seq<seq<string>>) returns (ruleTags: seq<string>)
      ensures ruleTags == RuleTags(tagsList)
    {
      ruleTags := [];
      for a := 0 to |tagsList|
        invariant ruleTags == RuleTags(tagsList[..a])
      {
        RuleTagsSnoc(tagsList, a);
        var tags := tagsList[a];
        ghost var before := ruleTags;
        for b := 0 to |tags|
          invariant ruleTags == AddTags(before, tags[..b])
        {
          AddTagsSnoc(before, tags, b);
          var tag := tags[b];
          if tag != "" && tag !in ruleTags {
            ruleTags := ruleTags + [tag];
          }
        }
        assert tags[..|tags|] == tags;
      }
      assert tagsList[..|tagsList|] == tagsList;
    }

    /** `for key, value in rule_tag_grammar.items(): final_grammar[key] = value`. */
    static method CopyEntries(fg: Dict<Key, seq<Tokens>>, tg: TagRules) returns (r: Dict<Key, seq<Tokens>>)
      requires tg.Valid()
      ensures r == PutAll(fg, Pairs(tg))
    {
      r := fg;
      var es := Pairs(tg);
      for k := 0 to |tg.keys|
        invariant r == PutAll(fg, es[..k])
      {
        PutAllSnoc(fg, es, k);
        var key := tg.keys[k];
        r := r.Put(key, tg.items[key]);
      }
      assert es[..|es|] == es;
    }
  }
}
