/** The refinement of one rule's tag grammar in `ProductionRuleProcessor`: the shared
    first tokens of `find_common_prefixes`, the sub-nonterminal names of
    `get_next_sub_nt`, one pass of `process_grammar_iteration`, and the measure that makes
    the fixpoint loop of `build_tag_grammar_for_rule` stop. */
module TagRefine {
  import opened Wrappers
  import opened Text
  import opened Dicts

  type Tokens = seq<string>

  /** A key of a tag grammar: a nonterminal and the token it was split off at. */
  type Key = (string, string)

  /** A tag grammar: each key's alternatives, as token lists, in insertion order. */
  type TagRules = Dict<Key, seq<Tokens>>

  /** `sub_nt_counter`: how many sub-nonterminals each parent has handed out. */
  type Counter = map<string, nat>

  // ---------------------------------------------------------------------------
  // `find_common_prefixes`

  function Head(): Tokens -> Option<string> {
    l => if l == [] then None else Some(l[0])
  }

  function Tail(): Tokens -> Tokens {
    l => if l == [] then [] else l[1..]
  }

  /** The suffixes, in order, of the lists that start with `p`. */
  function Suffixes(lists: seq<Tokens>, p: string): seq<Tokens> {
    Pick(lists, Head(), Tail(), p)
  }

  /** `find_common_prefixes(token_lists)`: the first tokens shared by at least two lists,
      each with the suffixes of the lists it starts, in order (nothing for one list). */
  function CommonPrefixes(lists: seq<Tokens>): (r: Dict<string, seq<Tokens>>)
    ensures r.Valid()
    ensures forall p :: p in r.items <==> |lists| > 1 && |Suffixes(lists, p)| > 1
    ensures forall p :: p in r.items ==> r.items[p] == Suffixes(lists, p)
  {
    if |lists| <= 1 then Empty()
    else
      var g := GroupBy(lists, Head(), Tail());
      assert forall p :: (p in g.items <==> Suffixes(lists, p) != []) && (p in g.items ==> g.items[p] == Suffixes(lists, p)) by {
        forall p
          ensures (p in g.items <==> Suffixes(lists, p) != []) && (p in g.items ==> g.items[p] == Suffixes(lists, p))
        {
          GroupByPick(lists, Head(), Tail(), p);
        }
      }
      KeepShared(g)
  }

  /** A suffix stored under `p` is exactly what follows `p` in one of the lists. */
  lemma SuffixesRestore(lists: seq<Tokens>, p: string, v: Tokens)
    ensures v in Suffixes(lists, p) <==> [p] + v in lists
  {
    PickMember(lists, Head(), Tail(), p, v);
    if [p] + v in lists {
      var i :| 0 <= i < |lists| && lists[i] == [p] + v;
      assert Head()(lists[i]) == Some(p) && Tail()(lists[i]) == v;
    }
    if v in Suffixes(lists, p) {
      var i :| 0 <= i < |lists| && Head()(lists[i]) == Some(p) && Tail()(lists[i]) == v;
      assert lists[i] == [p] + v;
    }
  }

  // ---------------------------------------------------------------------------
  // Names

  /** `f"{parent_nt}_{n}"`. */
  function SubName(parent: string, n: nat): string {
    parent + "_" + NatToString(n)
  }

  /** `f"{rule_name}_TAG_NT{i}"`. */
  function InitialName(rule: string, i: nat): string {
    rule + "_TAG_NT" + NatToString(i)
  }

  function Count(c: Counter, nt: string): nat {
    if nt in c then c[nt] else 0
  }

  /** Reads a name back as `parent_n` when its last `_`-segment is a numeral. */
  function SplitSubName(nt: string): Option<(string, nat)> {
    match AfterLastUnderscore(nt)
    case None => None
    case Some(d) =>
      if d != [] && AllDigits(d) && |d| < |nt| then Some((nt[..|nt| - |d| - 1], DigitsValue(d))) else None
  }

  lemma DigitsHaveNoUnderscore(s: string)
    requires AllDigits(s)
    ensures forall i :: 0 <= i < |s| ==> s[i] != '_'
  {
    forall i | 0 <= i < |s|
      ensures s[i] != '_'
    {
      assert IsDigit(s[i]);
    }
  }

  lemma SplitSubNameOf(parent: string, n: nat)
    ensures SplitSubName(SubName(parent, n)) == Some((parent, n))
  {
    var d := NatToString(n);
    DigitsHaveNoUnderscore(d);
    AfterLastUnderscoreOf(parent, d);
    DigitsValueOfNat(n);
    var s := SubName(parent, n);
    assert s[..|s| - |d| - 1] == parent;
  }

  /** `get_next_sub_nt` never hands out one name twice: a name determines its parent and
      its number. */
  lemma SubNameInjective(p: string, m: nat, q: string, n: nat)
    requires SubName(p, m) == SubName(q, n)
    ensures p == q && m == n
  {
    SplitSubNameOf(p, m);
    SplitSubNameOf(q, n);
  }

  /** The names of the first grammar never read as sub-nonterminal names. */
  lemma InitialNameNotSub(rule: string, i: nat)
    ensures SplitSubName(InitialName(rule, i)) == None
  {
    var tail := "NT" + NatToString(i);
    assert InitialName(rule, i) == (rule + "_TAG") + "_" + tail;
    assert forall k :: 0 <= k < |tail| ==> tail[k] != '_' by {
      DigitsHaveNoUnderscore(NatToString(i));
      assert forall k :: 2 <= k < |tail| ==> tail[k] == NatToString(i)[k - 2];
    }
    AfterLastUnderscoreOf(rule + "_TAG", tail);
    assert !IsDigit(tail[0]);
  }

  lemma InitialNameInjective(rule: string, i: nat, j: nat)
    requires InitialName(rule, i) == InitialName(rule, j)
    ensures i == j
  {
    var a := rule + "_TAG_NT";
    assert NatToString(i) == InitialName(rule, i)[|a|..];
    assert NatToString(j) == InitialName(rule, j)[|a|..];
    NatToStringInjective(i, j);
  }

  /** A name is not ahead of the counter: if it reads as `parent_n`, then `parent` has
      already handed out `n`. */
  predicate NameOk(nt: string, c: Counter) {
    match SplitSubName(nt)
    case None => true
    case Some((parent, n)) => n <= Count(c, parent)
  }

  /** Every key of `g` is a name the counter is not behind. */
  predicate FreshOk(g: TagRules, c: Counter) {
    forall k :: k in g.items ==> NameOk(k.0, c)
  }

  predicate CounterLe(c: Counter, d: Counter) {
    forall p :: p in c ==> p in d && c[p] <= d[p]
  }

  /** The next name of a parent is not in a grammar the counter is not behind. */
  lemma NextNameIsFresh(g: TagRules, c: Counter, nt: string, p: string)
    requires FreshOk(g, c)
    ensures (SubName(nt, Count(c, nt) + 1), p) !in g.items
  {
    var name := SubName(nt, Count(c, nt) + 1);
    SplitSubNameOf(nt, Count(c, nt) + 1);
    assert !NameOk(name, c);
  }

  // ---------------------------------------------------------------------------
  // One pass of `process_grammar_iteration`

  /** A key whose alternatives share a first token is rewritten. */
  predicate Rewritable(lists: seq<Tokens>) {
    |lists| > 1 && CommonPrefixes(lists).items != map[]
  }

  /** Two of the alternatives start with the same token. */
  predicate SharesFirstToken(lists: seq<Tokens>) {
    exists i, j :: 0 <= i < j < |lists| && lists[i] != [] && lists[j] != [] && lists[i][0] == lists[j][0]
  }

  /** The test of `process_grammar_iteration` holds exactly when two alternatives start
      with the same token. */
  lemma RewritableIff(lists: seq<Tokens>)
    ensures Rewritable(lists) <==> SharesFirstToken(lists)
  {
    var cps := CommonPrefixes(lists);
    if SharesFirstToken(lists) {
      var i, j :| 0 <= i < j < |lists| && lists[i] != [] && lists[j] != [] && lists[i][0] == lists[j][0];
      var p := lists[i][0];
      assert Head()(lists[i]) == Some(p) && Head()(lists[j]) == Some(p);
      PickTwo(lists, Head(), Tail(), p);
      assert p in cps.items;
    }
    if Rewritable(lists) {
      if forall p :: p !in cps.items {
        NoItems(cps.items);
      }
      var p :| p in cps.items;
      PickTwo(lists, Head(), Tail(), p);
      var i, j :| 0 <= i < j < |lists| && Head()(lists[i]) == Some(p) && Head()(lists[j]) == Some(p);
      assert lists[i] != [] && lists[j] != [] && lists[i][0] == lists[j][0];
    }
  }

  /** `[common_prefix, new_nt]` for each common prefix, the names numbered from `base + 1`. */
  function Heads(nt: string, base: nat, ps: seq<string>): (r: seq<Tokens>)
    ensures |r| == |ps|
    ensures forall j :: 0 <= j < |ps| ==> r[j] == [ps[j], SubName(nt, base + j + 1)]
  {
    seq(|ps|, j requires 0 <= j < |ps| => [ps[j], SubName(nt, base + j + 1)])
  }

  /** The lists kept as they are: the empty ones and those whose first token is not
      shared. */
  function Kept(lists: seq<Tokens>, cps: Dict<string, seq<Tokens>>): seq<Tokens>
    decreases |lists|
  {
    if lists == [] then []
    else
      var l := lists[|lists| - 1];
      Kept(lists[..|lists| - 1], cps) + (if l == [] || l[0] !in cps.items then [l] else [])
  }

  /** The new alternatives of a rewritten key. */
  function Rewritten(nt: string, base: nat, lists: seq<Tokens>): seq<Tokens> {
    var cps := CommonPrefixes(lists);
    Heads(nt, base, cps.keys) + Kept(lists, cps)
  }

  /** The grammar after `new_grammar[(new_nt, p)] = suffixes` for the first `|ps|` common
      prefixes of a key. */
  function AddSubRules(ng: TagRules, nt: string, base: nat, cps: Dict<string, seq<Tokens>>, ps: seq<string>): TagRules
    requires forall p :: p in ps ==> p in cps.items
    decreases |ps|
  {
    if ps == [] then ng
    else
      var p := ps[|ps| - 1];
      AddSubRules(ng, nt, base, cps, ps[..|ps| - 1]).Put((SubName(nt, base + |ps|), p), cps.items[p])
  }

  /** The loop body of `process_grammar_iteration` for key `k`, on the new grammar, the
      counters and the `changed` flag so far. */
  function Step(g: TagRules, k: Key, ng: TagRules, c: Counter, changed: bool): (TagRules, Counter, bool)
    requires k in g.items
  {
    var lists := g.items[k];
    if Rewritable(lists) then
      var cps := CommonPrefixes(lists);
      var base := Count(c, k.0);
      (AddSubRules(ng, k.0, base, cps, cps.keys).Put(k, Rewritten(k.0, base, lists)), c[k.0 := base + |cps.keys|], true)
    else (ng, c, changed)
  }

  /** The pass over the keys `ks` of `g`, starting from a copy of `g`. */
  function Iterate(g: TagRules, ks: seq<Key>, c: Counter): (TagRules, Counter, bool)
    requires forall k :: k in ks ==> k in g.items
    decreases |ks|
  {
    if ks == [] then (g, c, false)
    else
      var prev := Iterate(g, ks[..|ks| - 1], c);
      Step(g, ks[|ks| - 1], prev.0, prev.1, prev.2)
  }

  // ---------------------------------------------------------------------------
  // A rewritten key shares no first token any more

  lemma {:induction false} HeadsSuffixes(nt: string, base: nat, ps: seq<string>, h: string)
    requires forall i, j :: 0 <= i < j < |ps| ==> ps[i] != ps[j]
    ensures |Suffixes(Heads(nt, base, ps), h)| == if h in ps then 1 else 0
    decreases |ps|
  {
    if ps != [] {
      var qs := ps[..|ps| - 1];
      var hs := Heads(nt, base, ps);
      assert hs == Heads(nt, base, qs) + [hs[|ps| - 1]];
      HeadsSuffixes(nt, base, qs, h);
      PickConcat(Heads(nt, base, qs), [hs[|ps| - 1]], Head(), Tail(), h);
      assert [hs[|ps| - 1]][..0] == [];
      assert ps[|ps| - 1] !in qs;
    }
  }

  lemma {:induction false} KeptSuffixes(lists: seq<Tokens>, cps: Dict<string, seq<Tokens>>, h: string)
    ensures h in cps.items ==> Suffixes(Kept(lists, cps), h) == []
    ensures |Suffixes(Kept(lists, cps), h)| <= |Suffixes(lists, h)|
    decreases |lists|
  {
    if lists != [] {
      var l := lists[|lists| - 1];
      var rest := lists[..|lists| - 1];
      var tail := if l == [] || l[0] !in cps.items then [l] else [];
      KeptSuffixes(rest, cps, h);
      PickConcat(Kept(rest, cps), tail, Head(), Tail(), h);
      if tail != [] {
        assert tail[..0] == [];
      }
    }
  }

  /** After the rewrite, every first token starts at most one alternative. */
  lemma RewrittenNotRewritable(nt: string, base: nat, lists: seq<Tokens>)
    requires Rewritable(lists)
    ensures !Rewritable(Rewritten(nt, base, lists))
  {
    var cps := CommonPrefixes(lists);
    var r := Rewritten(nt, base, lists);
    forall h
      ensures |Suffixes(r, h)| <= 1
    {
      HeadsSuffixes(nt, base, cps.keys, h);
      KeptSuffixes(lists, cps, h);
      PickConcat(Heads(nt, base, cps.keys), Kept(lists, cps), Head(), Tail(), h);
    }
    var d := CommonPrefixes(r);
    assert forall p :: p !in d.items;
    NoItems(d.items);
  }

  // ---------------------------------------------------------------------------
  // A measure that every changing pass halves at least

  function Pow2(n: nat): (r: nat)
    ensures r >= 1
  {
    if n == 0 then 1 else 2 * Pow2(n - 1)
  }

  /** The sum of `2^len(l)` over the lists. */
  function Total(lists: seq<Tokens>): nat
    decreases |lists|
  {
    if lists == [] then 0 else Total(lists[..|lists| - 1]) + Pow2(|lists[|lists| - 1]|)
  }

  /** What a key counts towards the measure: only keys that will still be rewritten. */
  function Weight(lists: seq<Tokens>): nat {
    if Rewritable(lists) then Total(lists) else 0
  }

  function Measure(ks: seq<Key>, items: map<Key, seq<Tokens>>): nat
    requires forall k :: k in ks ==> k in items
    decreases |ks|
  {
    if ks == [] then 0 else Measure(ks[..|ks| - 1], items) + Weight(items[ks[|ks| - 1]])
  }

  lemma WeightAtMostTotal(lists: seq<Tokens>)
    ensures Weight(lists) <= Total(lists)
  {
  }

  /** The measure of a tag grammar. */
  function GrammarMeasure(g: TagRules): nat
    requires g.Valid()
  {
    Measure(g.keys, g.items)
  }

  /** Replacing the alternatives of a listed key (listed once) changes the measure by the
      change of its weight. */
  lemma {:induction false} MeasureReplace(ks: seq<Key>, items: map<Key, seq<Tokens>>, k: Key, v: seq<Tokens>)
    requires forall i, j :: 0 <= i < j < |ks| ==> ks[i] != ks[j]
    requires forall x :: x in ks ==> x in items
    requires k in ks
    ensures k in items && Measure(ks, items[k := v]) + Weight(items[k]) == Measure(ks, items) + Weight(v)
    decreases |ks|
  {
    var rest := ks[..|ks| - 1];
    var last := ks[|ks| - 1];
    if last == k {
      assert k !in rest;
      MeasureUnlisted(rest, items, k, v);
    } else {
      assert k in rest;
      MeasureReplace(rest, items, k, v);
    }
  }

  /** Replacing the alternatives of a key that is not listed changes nothing. */
  lemma {:induction false} MeasureUnlisted(ks: seq<Key>, items: map<Key, seq<Tokens>>, k: Key, v: seq<Tokens>)
    requires forall x :: x in ks ==> x in items
    requires k !in ks
    ensures Measure(ks, items[k := v]) == Measure(ks, items)
    decreases |ks|
  {
    if ks != [] {
      MeasureUnlisted(ks[..|ks| - 1], items, k, v);
    }
  }

  lemma MeasurePut(d: TagRules, k: Key, v: seq<Tokens>)
    requires d.Valid()
    ensures k in d.items ==> GrammarMeasure(d.Put(k, v)) + Weight(d.items[k]) == GrammarMeasure(d) + Weight(v)
    ensures k !in d.items ==> GrammarMeasure(d.Put(k, v)) == GrammarMeasure(d) + Weight(v)
  {
    if k in d.items {
      MeasureReplace(d.keys, d.items, k, v);
    } else {
      MeasureUnlisted(d.keys, d.items, k, v);
    }
    if k !in d.items {
      assert (d.keys + [k])[..|d.keys|] == d.keys;
    }
  }

  /** The totals of the suffix groups of the first tokens `ps`. */
  function SumTotals(lists: seq<Tokens>, ps: seq<string>): nat
    decreases |ps|
  {
    if ps == [] then 0 else SumTotals(lists, ps[..|ps| - 1]) + Total(Suffixes(lists, ps[|ps| - 1]))
  }

  lemma SuffixesSnoc(lists: seq<Tokens>, x: Tokens, p: string)
    ensures Suffixes(lists + [x], p) == Suffixes(lists, p) + (if x != [] && x[0] == p then [x[1..]] else [])
  {
    assert (lists + [x])[..|lists|] == lists;
  }

  lemma TotalSnoc(lists: seq<Tokens>, x: Tokens)
    ensures Total(lists + [x]) == Total(lists) + Pow2(|x|)
  {
    assert (lists + [x])[..|lists|] == lists;
  }

  lemma {:induction false} SumTotalsSnoc(lists: seq<Tokens>, x: Tokens, ps: seq<string>)
    requires forall i, j :: 0 <= i < j < |ps| ==> ps[i] != ps[j]
    ensures SumTotals(lists + [x], ps) == SumTotals(lists, ps) + (if x != [] && x[0] in ps then Pow2(|x| - 1) else 0)
    decreases |ps|
  {
    if ps != [] {
      var qs := ps[..|ps| - 1];
      var p := ps[|ps| - 1];
      assert ps == qs + [p];
      SumTotalsSnoc(lists, x, qs);
      SuffixesSnoc(lists, x, p);
      if x != [] && x[0] == p {
        TotalSnoc(Suffixes(lists, p), x[1..]);
        assert p !in qs;
      } else {
        assert Suffixes(lists + [x], p) == Suffixes(lists, p);
        assert x != [] ==> (x[0] in ps <==> x[0] in qs);
      }
    }
  }

  /** Splitting off a first token halves `2^len` of every list it starts, and each list
      starts at most one group. */
  lemma {:induction false} SuffixTotals(lists: seq<Tokens>, ps: seq<string>)
    requires forall i, j :: 0 <= i < j < |ps| ==> ps[i] != ps[j]
    ensures 2 * SumTotals(lists, ps) <= Total(lists)
    decreases |lists|
  {
    if lists == [] {
      SumTotalsEmpty(ps);
    } else {
      var rest := lists[..|lists| - 1];
      var x := lists[|lists| - 1];
      assert lists == rest + [x];
      SuffixTotals(rest, ps);
      SumTotalsSnoc(rest, x, ps);
      TotalSnoc(rest, x);
    }
  }

  lemma {:induction false} SumTotalsEmpty(ps: seq<string>)
    ensures SumTotals([], ps) == 0
    decreases |ps|
  {
    if ps != [] {
      SumTotalsEmpty(ps[..|ps| - 1]);
    }
  }

  // ---------------------------------------------------------------------------
  // The pass keeps names fresh and lowers the measure

  lemma FreshMono(g: TagRules, c: Counter, d: Counter)
    requires FreshOk(g, c)
    requires forall p :: Count(c, p) <= Count(d, p)
    ensures FreshOk(g, d)
  {
    forall k | k in g.items
      ensures NameOk(k.0, d)
    {
      assert NameOk(k.0, c);
    }
  }

  /** The sub-rules of one rewritten key each go under a new name, so nothing already in
      the grammar changes. */
  lemma {:induction false} AddSubRulesFresh(ng: TagRules, nt: string, c: Counter,
                                            cps: Dict<string, seq<Tokens>>, ps: seq<string>)
    requires ng.Valid() && FreshOk(ng, c)
    requires forall p :: p in ps ==> p in cps.items
    ensures AddSubRules(ng, nt, Count(c, nt), cps, ps).Valid()
    ensures forall k :: k in ng.items ==> k in AddSubRules(ng, nt, Count(c, nt), cps, ps).items
                                          && AddSubRules(ng, nt, Count(c, nt), cps, ps).items[k] == ng.items[k]
    decreases |ps|
  {
    if ps != [] {
      var base := Count(c, nt);
      var qs := ps[..|ps| - 1];
      var p := ps[|ps| - 1];
      AddSubRulesFresh(ng, nt, c, cps, qs);
      AddSubRulesNames(ng, nt, c, cps, qs);
      var prev := AddSubRules(ng, nt, base, cps, qs);
      NextNameIsFresh(prev, c[nt := base + |qs|], nt, p);
      PutNewKey(ng, prev, (SubName(nt, base + |ps|), p), cps.items[p]);
    }
  }

  /** Putting a key that is not yet in `r` keeps every entry `r` shares with `ng`. */
  lemma PutNewKey(ng: TagRules, r: TagRules, key: Key, v: seq<Tokens>)
    requires r.Valid() && key !in r.items
    requires forall k :: k in ng.items ==> k in r.items && r.items[k] == ng.items[k]
    ensures r.Put(key, v).Valid()
    ensures forall k :: k in ng.items ==> k in r.Put(key, v).items && r.Put(key, v).items[k] == ng.items[k]
  {
  }

  lemma AddFreshKey(g: TagRules, k: Key, v: seq<Tokens>, c: Counter)
    requires FreshOk(g, c) && NameOk(k.0, c)
    ensures FreshOk(g.Put(k, v), c)
  {
  }

  /** Adding the sub-rules raises the measure by no more than the totals of the suffix
      groups. */
  lemma {:induction false} AddSubRulesMeasure(ng: TagRules, nt: string, base: nat, lists: seq<Tokens>,
                                              cps: Dict<string, seq<Tokens>>, ps: seq<string>)
    requires ng.Valid()
    requires forall p :: p in ps ==> p in cps.items && cps.items[p] == Suffixes(lists, p)
    ensures AddSubRules(ng, nt, base, cps, ps).Valid()
    ensures GrammarMeasure(AddSubRules(ng, nt, base, cps, ps)) <= GrammarMeasure(ng) + SumTotals(lists, ps)
    decreases |ps|
  {
    if ps != [] {
      var qs := ps[..|ps| - 1];
      var p := ps[|ps| - 1];
      AddSubRulesMeasure(ng, nt, base, lists, cps, qs);
      var prev := AddSubRules(ng, nt, base, cps, qs);
      AddOneMeasure(prev, (SubName(nt, base + |ps|), p), Suffixes(lists, p));
      assert SumTotals(lists, ps) == SumTotals(lists, qs) + Total(Suffixes(lists, p));
    }
  }

  /** Putting one key raises the measure by at most what its alternatives total. */
  lemma AddOneMeasure(prev: TagRules, key: Key, v: seq<Tokens>)
    requires prev.Valid()
    ensures GrammarMeasure(prev.Put(key, v)) <= GrammarMeasure(prev) + Total(v)
  {
    MeasurePut(prev, key, v);
    WeightAtMostTotal(v);
  }

  /** The `j`-th common prefix goes under the `j`-th new name, with its suffix group. */
  lemma {:induction false} AddSubRulesAt(ng: TagRules, nt: string, base: nat, cps: Dict<string, seq<Tokens>>,
                                         ps: seq<string>, j: nat)
    requires forall p :: p in ps ==> p in cps.items
    requires j < |ps|
    ensures (SubName(nt, base + j + 1), ps[j]) in AddSubRules(ng, nt, base, cps, ps).items
    ensures AddSubRules(ng, nt, base, cps, ps).items[(SubName(nt, base + j + 1), ps[j])] == cps.items[ps[j]]
    decreases |ps|
  {
    var qs := ps[..|ps| - 1];
    if j < |qs| {
      AddSubRulesAt(ng, nt, base, cps, qs, j);
      assert qs[j] == ps[j];
      if SubName(nt, base + |ps|) == SubName(nt, base + j + 1) {
        SubNameInjective(nt, base + |ps|, nt, base + j + 1);
      }
    }
  }

  /** One key of the pass: only that key and new names change. */
  lemma StepFrame(g: TagRules, k: Key, ng: TagRules, c: Counter, changed: bool)
    requires k in g.items && ng.Valid() && FreshOk(ng, c)
    ensures Step(g, k, ng, c, changed).0.Valid()
    ensures forall x :: x in ng.items && x != k ==> x in Step(g, k, ng, c, changed).0.items
                                                    && Step(g, k, ng, c, changed).0.items[x] == ng.items[x]
  {
    if Rewritable(g.items[k]) {
      StepRewrittenFrame(g, k, ng, c, changed);
    } else {
      StepUnchanged(g, k, ng, c, changed);
    }
  }

  lemma StepRewrittenFrame(g: TagRules, k: Key, ng: TagRules, c: Counter, changed: bool)
    requires k in g.items && ng.Valid() && FreshOk(ng, c) && Rewritable(g.items[k])
    ensures Step(g, k, ng, c, changed).0.Valid()
    ensures forall x :: x in ng.items && x != k ==> x in Step(g, k, ng, c, changed).0.items
                                                    && Step(g, k, ng, c, changed).0.items[x] == ng.items[x]
  {
    var lists := g.items[k];
    RewriteFrame(ng, k, c, CommonPrefixes(lists), Rewritten(k.0, Count(c, k.0), lists));
  }

  /** Rewriting key `k` of `ng` with the groups `cps` touches no other key of `ng`. */
  lemma RewriteFrame(ng: TagRules, k: Key, c: Counter, cps: Dict<string, seq<Tokens>>, v: seq<Tokens>)
    requires ng.Valid() && FreshOk(ng, c)
    requires forall p :: p in cps.keys ==> p in cps.items
    ensures AddSubRules(ng, k.0, Count(c, k.0), cps, cps.keys).Put(k, v).Valid()
    ensures forall x :: x in ng.items && x != k ==>
              x in AddSubRules(ng, k.0, Count(c, k.0), cps, cps.keys).Put(k, v).items
              && AddSubRules(ng, k.0, Count(c, k.0), cps, cps.keys).Put(k, v).items[x] == ng.items[x]
  {
    AddSubRulesFresh(ng, k.0, c, cps, cps.keys);
  }

  /** One key of the pass: the counter stays ahead of every name. */
  lemma StepCounter(g: TagRules, k: Key, ng: TagRules, c: Counter, changed: bool)
    requires k in g.items && FreshOk(ng, c) && k in ng.items
    ensures FreshOk(Step(g, k, ng, c, changed).0, Step(g, k, ng, c, changed).1)
    ensures forall p :: Count(c, p) <= Count(Step(g, k, ng, c, changed).1, p)
  {
    if Rewritable(g.items[k]) {
      StepRewrittenFresh(g, k, ng, c, changed);
      StepRewrittenCounter(g, k, ng, c, changed);
    } else {
      StepUnchanged(g, k, ng, c, changed);
    }
  }

  lemma StepUnchanged(g: TagRules, k: Key, ng: TagRules, c: Counter, changed: bool)
    requires k in g.items && !Rewritable(g.items[k])
    ensures Step(g, k, ng, c, changed) == (ng, c, changed)
  {
  }

  lemma StepRewrittenFresh(g: TagRules, k: Key, ng: TagRules, c: Counter, changed: bool)
    requires k in g.items && FreshOk(ng, c) && k in ng.items && Rewritable(g.items[k])
    ensures FreshOk(Step(g, k, ng, c, changed).0, Step(g, k, ng, c, changed).1)
  {
    var lists := g.items[k];
    RewriteCounter(ng, k, c, CommonPrefixes(lists), Rewritten(k.0, Count(c, k.0), lists));
  }

  lemma StepRewrittenCounter(g: TagRules, k: Key, ng: TagRules, c: Counter, changed: bool)
    requires k in g.items && Rewritable(g.items[k])
    ensures forall p :: Count(c, p) <= Count(Step(g, k, ng, c, changed).1, p)
  {
    CounterBump(c, k.0, |CommonPrefixes(g.items[k]).keys|);
  }

  /** Rewriting key `k` of `ng` with the groups `cps` keeps the names fresh. */
  lemma RewriteCounter(ng: TagRules, k: Key, c: Counter, cps: Dict<string, seq<Tokens>>, v: seq<Tokens>)
    requires k in ng.items && FreshOk(ng, c)
    requires forall p :: p in cps.keys ==> p in cps.items
    ensures FreshOk(AddSubRules(ng, k.0, Count(c, k.0), cps, cps.keys).Put(k, v), c[k.0 := Count(c, k.0) + |cps.keys|])
  {
    var base := Count(c, k.0);
    AddSubRulesNames(ng, k.0, c, cps, cps.keys);
    var r1 := AddSubRules(ng, k.0, base, cps, cps.keys);
    var c1 := c[k.0 := base + |cps.keys|];
    PutOverFresh(r1, k, v, c, c1);
    CounterBump(c, k.0, |cps.keys|);
  }

  /** The sub-rules' names are the counter's next ones, so the counter, moved past them,
      stays ahead of every name. */
  lemma {:induction false} AddSubRulesNames(ng: TagRules, nt: string, c: Counter,
                                            cps: Dict<string, seq<Tokens>>, ps: seq<string>)
    requires FreshOk(ng, c)
    requires forall p :: p in ps ==> p in cps.items
    ensures FreshOk(AddSubRules(ng, nt, Count(c, nt), cps, ps), c[nt := Count(c, nt) + |ps|])
    decreases |ps|
  {
    var base := Count(c, nt);
    if ps == [] {
      FreshMono(ng, c, c[nt := base]);
    } else {
      var qs := ps[..|ps| - 1];
      var p := ps[|ps| - 1];
      var m := base + |qs|;
      var prev := AddSubRules(ng, nt, base, cps, qs);
      assert p in ps;
      assert AddSubRules(ng, nt, base, cps, ps) == prev.Put((SubName(nt, m + 1), p), cps.items[p]);
      AddSubRulesNames(ng, nt, c, cps, qs);
      AddNextName(prev, nt, c, m, p, cps.items[p]);
      assert base + |ps| == m + 1;
    }
  }

  /** Handing out name `m + 1` of `nt` and adding a key under it keeps the names fresh. */
  lemma AddNextName(prev: TagRules, nt: string, c: Counter, m: nat, p: string, v: seq<Tokens>)
    requires FreshOk(prev, c[nt := m])
    ensures FreshOk(prev.Put((SubName(nt, m + 1), p), v), c[nt := m + 1])
  {
    FreshMono(prev, c[nt := m], c[nt := m + 1]);
    SplitSubNameOf(nt, m + 1);
    AddFreshKey(prev, (SubName(nt, m + 1), p), v, c[nt := m + 1]);
  }

  lemma CounterBump(c: Counter, nt: string, n: nat)
    ensures forall p :: Count(c, p) <= Count(c[nt := Count(c, nt) + n], p)
  {
  }

  /** A key whose name was fresh for an older counter may be put into a grammar fresh for
      a newer one. */
  lemma PutOverFresh(r: TagRules, k: Key, v: seq<Tokens>, c: Counter, c1: Counter)
    requires FreshOk(r, c1) && NameOk(k.0, c)
    requires forall p :: Count(c, p) <= Count(c1, p)
    ensures FreshOk(r.Put(k, v), c1)
  {
    assert NameOk(k.0, c1);
  }

  /** One key of the pass: the key ends up with alternatives that share no first token,
      and `changed` records whether it was rewritten. */
  lemma StepKey(g: TagRules, k: Key, ng: TagRules, c: Counter, changed: bool)
    requires k in g.items && k in ng.items && ng.items[k] == g.items[k]
    ensures k in Step(g, k, ng, c, changed).0.items && !SharesFirstToken(Step(g, k, ng, c, changed).0.items[k])
    ensures Step(g, k, ng, c, changed).2 == (changed || Rewritable(g.items[k]))
  {
    var lists := g.items[k];
    if Rewritable(lists) {
      RewrittenNotRewritable(k.0, Count(c, k.0), lists);
      RewritableIff(Rewritten(k.0, Count(c, k.0), lists));
    } else {
      RewritableIff(lists);
    }
  }

  /** One key of the pass lowers twice the measure by at least the key's own weight. */
  lemma StepMeasure(g: TagRules, k: Key, ng: TagRules, c: Counter, changed: bool)
    requires k in g.items && ng.Valid() && FreshOk(ng, c)
    requires k in ng.items && ng.items[k] == g.items[k]
    ensures Step(g, k, ng, c, changed).0.Valid()
    ensures 2 * GrammarMeasure(Step(g, k, ng, c, changed).0) + Weight(g.items[k]) <= 2 * GrammarMeasure(ng)
  {
    var lists := g.items[k];
    StepFrame(g, k, ng, c, changed);
    if Rewritable(lists) {
      var cps := CommonPrefixes(lists);
      var base := Count(c, k.0);
      AddSubRulesMeasure(ng, k.0, base, lists, cps, cps.keys);
      AddSubRulesFresh(ng, k.0, c, cps, cps.keys);
      SuffixTotals(lists, cps.keys);
      var r1 := AddSubRules(ng, k.0, base, cps, cps.keys);
      RewrittenNotRewritable(k.0, base, lists);
      MeasurePut(r1, k, Rewritten(k.0, base, lists));
    }
  }

  // ---------------------------------------------------------------------------
  // A whole pass

  /** The first `i` keys of the pass: the grammar stays well formed, the names fresh,
      the counters only grow and the keys not yet visited are untouched. */
  lemma {:induction false} IterateFresh(g: TagRules, c: Counter, i: nat)
    requires g.Valid() && FreshOk(g, c) && i <= |g.keys|
    ensures Iterate(g, g.keys[..i], c).0.Valid()
    ensures FreshOk(Iterate(g, g.keys[..i], c).0, Iterate(g, g.keys[..i], c).1)
    ensures forall p :: Count(c, p) <= Count(Iterate(g, g.keys[..i], c).1, p)
    ensures forall j :: i <= j < |g.keys| ==> g.keys[j] in Iterate(g, g.keys[..i], c).0.items
                                              && Iterate(g, g.keys[..i], c).0.items[g.keys[j]] == g.items[g.keys[j]]
  {
    if i > 0 {
      IterateFresh(g, c, i - 1);
      var prev := Iterate(g, g.keys[..i - 1], c);
      var k := g.keys[i - 1];
      IterateUnfold(g, c, i);
      StepFrame(g, k, prev.0, prev.1, prev.2);
      StepCounter(g, k, prev.0, prev.1, prev.2);
      forall j | i <= j < |g.keys|
        ensures g.keys[j] != k
      {
      }
    }
  }

  /** `Iterate` on the first `i` keys is the step for key `i - 1` after the first `i - 1`. */
  lemma IterateUnfold(g: TagRules, c: Counter, i: nat)
    requires g.Valid() && 0 < i <= |g.keys|
    ensures var prev := Iterate(g, g.keys[..i - 1], c);
      Iterate(g, g.keys[..i], c) == Step(g, g.keys[i - 1], prev.0, prev.1, prev.2)
  {
    assert g.keys[..i][..i - 1] == g.keys[..i - 1];
  }

  /** After the first `i` keys, none of them shares a first token among its
      alternatives. */
  lemma {:induction false} IterateVisited(g: TagRules, c: Counter, i: nat)
    requires g.Valid() && FreshOk(g, c) && i <= |g.keys|
    ensures forall j :: 0 <= j < i ==> g.keys[j] in Iterate(g, g.keys[..i], c).0.items
                                       && !SharesFirstToken(Iterate(g, g.keys[..i], c).0.items[g.keys[j]])
  {
    if i > 0 {
      IterateVisited(g, c, i - 1);
      IterateLast(g, c, i);
      VisitedStep(g, i, Iterate(g, g.keys[..i - 1], c).0, Iterate(g, g.keys[..i], c).0);
    }
  }

  /** What the step for key `i - 1` does, seen from the pass over the first `i` keys. */
  lemma IterateLast(g: TagRules, c: Counter, i: nat)
    requires g.Valid() && FreshOk(g, c) && 0 < i <= |g.keys|
    ensures var prev, next := Iterate(g, g.keys[..i - 1], c), Iterate(g, g.keys[..i], c);
      && (forall x :: x in prev.0.items && x != g.keys[i - 1] ==> x in next.0.items && next.0.items[x] == prev.0.items[x])
      && g.keys[i - 1] in next.0.items && !SharesFirstToken(next.0.items[g.keys[i - 1]])
      && next.2 == (prev.2 || Rewritable(g.items[g.keys[i - 1]]))
  {
    IterateFresh(g, c, i - 1);
    var prev := Iterate(g, g.keys[..i - 1], c);
    var k := g.keys[i - 1];
    IterateUnfold(g, c, i);
    StepFrame(g, k, prev.0, prev.1, prev.2);
    StepKey(g, k, prev.0, prev.1, prev.2);
  }

  lemma VisitedStep(g: TagRules, i: nat, prev: TagRules, next: TagRules)
    requires g.Valid() && 0 < i <= |g.keys|
    requires forall j :: 0 <= j < i - 1 ==> g.keys[j] in prev.items && !SharesFirstToken(prev.items[g.keys[j]])
    requires forall x :: x in prev.items && x != g.keys[i - 1] ==> x in next.items && next.items[x] == prev.items[x]
    requires g.keys[i - 1] in next.items && !SharesFirstToken(next.items[g.keys[i - 1]])
    ensures forall j :: 0 <= j < i ==> g.keys[j] in next.items && !SharesFirstToken(next.items[g.keys[j]])
  {
    forall j | 0 <= j < i - 1
      ensures g.keys[j] != g.keys[i - 1]
    {
    }
  }

  /** After the first `i` keys, `changed` says whether any of them had to be rewritten. */
  lemma {:induction false} IterateChanged(g: TagRules, c: Counter, i: nat)
    requires g.Valid() && FreshOk(g, c) && i <= |g.keys|
    ensures Iterate(g, g.keys[..i], c).2 <==> exists j :: 0 <= j < i && Rewritable(g.items[g.keys[j]])
  {
    if i > 0 {
      IterateChanged(g, c, i - 1);
      IterateLast(g, c, i);
    }
  }

  /** The first `i` keys lower twice the measure by their own weight. */
  lemma {:induction false} IterateMeasure(g: TagRules, c: Counter, i: nat)
    requires g.Valid() && FreshOk(g, c) && i <= |g.keys|
    ensures Iterate(g, g.keys[..i], c).0.Valid()
    ensures 2 * GrammarMeasure(Iterate(g, g.keys[..i], c).0) + Measure(g.keys[..i], g.items) <= 2 * GrammarMeasure(g)
  {
    if i > 0 {
      IterateMeasure(g, c, i - 1);
      IterateLastMeasure(g, c, i);
      MeasurePrefix(g.keys, g.items, i);
    }
  }

  lemma MeasurePrefix(ks: seq<Key>, items: map<Key, seq<Tokens>>, i: nat)
    requires forall k :: k in ks ==> k in items
    requires 0 < i <= |ks|
    ensures Measure(ks[..i], items) == Measure(ks[..i - 1], items) + Weight(items[ks[i - 1]])
  {
    assert ks[..i][..i - 1] == ks[..i - 1];
  }

  /** The step for key `i - 1` lowers twice the measure by that key's weight. */
  lemma IterateLastMeasure(g: TagRules, c: Counter, i: nat)
    requires g.Valid() && FreshOk(g, c) && 0 < i <= |g.keys|
    ensures Iterate(g, g.keys[..i - 1], c).0.Valid() && Iterate(g, g.keys[..i], c).0.Valid()
    ensures 2 * GrammarMeasure(Iterate(g, g.keys[..i], c).0) + Weight(g.items[g.keys[i - 1]])
            <= 2 * GrammarMeasure(Iterate(g, g.keys[..i - 1], c).0)
  {
    IterateFresh(g, c, i - 1);
    var prev := Iterate(g, g.keys[..i - 1], c);
    var k := g.keys[i - 1];
    IterateUnfold(g, c, i);
    StepMeasure(g, k, prev.0, prev.1, prev.2);
  }

  /** A pass that changes nothing hands back the grammar and the counters it was given. */
  lemma {:induction false} IterateUnchanged(g: TagRules, c: Counter, i: nat)
    requires g.Valid() && i <= |g.keys|
    ensures !Iterate(g, g.keys[..i], c).2 ==> Iterate(g, g.keys[..i], c).0 == g && Iterate(g, g.keys[..i], c).1 == c
  {
    if i > 0 {
      IterateUnchanged(g, c, i - 1);
      IterateUnfold(g, c, i);
      var prev := Iterate(g, g.keys[..i - 1], c);
      if !Rewritable(g.items[g.keys[i - 1]]) {
        StepUnchanged(g, g.keys[i - 1], prev.0, prev.1, prev.2);
      }
    }
  }

  lemma {:induction false} MeasureAtLeast(ks: seq<Key>, items: map<Key, seq<Tokens>>, j: nat)
    requires forall k :: k in ks ==> k in items
    requires j < |ks|
    ensures Weight(items[ks[j]]) <= Measure(ks, items)
    decreases |ks|
  {
    if j < |ks| - 1 {
      MeasureAtLeast(ks[..|ks| - 1], items, j);
      assert ks[..|ks| - 1][j] == ks[j];
    }
  }

  lemma {:induction false} TotalPositive(lists: seq<Tokens>)
    requires lists != []
    ensures Total(lists) >= 1
  {
  }

  /** `process_grammar_iteration(grammar)`: one pass over every key of the grammar. */
  function Pass(g: TagRules, c: Counter): (TagRules, Counter, bool)
    requires g.Valid()
  {
    Iterate(g, g.keys, c)
  }

  /** A pass keeps the grammar well formed and its names fresh, only adds keys, and leaves
      no key whose alternatives share a first token. */
  lemma PassFactors(g: TagRules, c: Counter)
    requires g.Valid() && FreshOk(g, c)
    ensures Pass(g, c).0.Valid() && FreshOk(Pass(g, c).0, Pass(g, c).1)
    ensures forall p :: Count(c, p) <= Count(Pass(g, c).1, p)
    ensures forall k :: k in g.items ==> k in Pass(g, c).0.items && !SharesFirstToken(Pass(g, c).0.items[k])
  {
    assert g.keys[..|g.keys|] == g.keys;
    IterateFresh(g, c, |g.keys|);
    IterateVisited(g, c, |g.keys|);
  }

  /** A pass reports a change exactly when some key had alternatives sharing a first
      token, and it changes nothing otherwise. */
  lemma PassChanged(g: TagRules, c: Counter)
    requires g.Valid() && FreshOk(g, c)
    ensures Pass(g, c).2 <==> exists k :: k in g.items && SharesFirstToken(g.items[k])
    ensures !Pass(g, c).2 ==> Pass(g, c).0 == g && Pass(g, c).1 == c
  {
    assert g.keys[..|g.keys|] == g.keys;
    IterateChanged(g, c, |g.keys|);
    IterateUnchanged(g, c, |g.keys|);
    forall k | k in g.items
      ensures Rewritable(g.items[k]) <==> SharesFirstToken(g.items[k])
    {
      RewritableIff(g.items[k]);
    }
    if exists k :: k in g.items && SharesFirstToken(g.items[k]) {
      var k :| k in g.items && SharesFirstToken(g.items[k]);
      var j :| 0 <= j < |g.keys| && g.keys[j] == k;
      assert Rewritable(g.items[g.keys[j]]);
    }
  }

  /** A pass at least halves the measure, and a pass that changes something lowers it:
      this is why the loop of `build_tag_grammar_for_rule` stops. */
  lemma PassMeasure(g: TagRules, c: Counter)
    requires g.Valid() && FreshOk(g, c)
    ensures Pass(g, c).0.Valid()
    ensures 2 * GrammarMeasure(Pass(g, c).0) <= GrammarMeasure(g)
    ensures Pass(g, c).2 ==> GrammarMeasure(Pass(g, c).0) < GrammarMeasure(g)
  {
    assert g.keys[..|g.keys|] == g.keys;
    IterateMeasure(g, c, |g.keys|);
    IterateChanged(g, c, |g.keys|);
    if Pass(g, c).2 {
      var j :| 0 <= j < |g.keys| && Rewritable(g.items[g.keys[j]]);
      MeasureAtLeast(g.keys, g.items, j);
      TotalPositive(g.items[g.keys[j]]);
    }
  }
}
