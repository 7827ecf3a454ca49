/** The first grammar of one rule's tags in `ProductionRuleProcessor`: the tags are
    tokenized and grouped by their first sub-token (`get_prefix_groups_for_rule`), each
    group becomes one key whose alternatives are the rest of its tags
    (`create_initial_grammar_for_rule`), and every tag is mapped to what stands for it in
    the rule (`tag_to_nt_mapping`). */
module TagInitial {
  import opened Wrappers
  import opened Text
  import opened Dicts
  import opened TagRefine

  /** The tokenizer the processor was built with, as its `tokenize` function. */
  type Tokenizer = Option<string -> seq<string>>

  /** `tokenize_tag(tag)`: without a tokenizer the whole tag is one token. */
  function TokenizeTag(tokenizer: Tokenizer, tag: string): (r: Tokens)
    ensures tokenizer.None? ==> r == [tag]
  {
    match tokenizer
    case None => [tag]
    case Some(f) => f(tag)
  }

  // ---------------------------------------------------------------------------
  // `get_prefix_groups_for_rule`

  /** `{tag: self.tokenize_tag(tag) for tag in tags if tag}`: every non-empty tag once, in
      order of first occurrence, with its tokens. */
  function Tokenized(tokenizer: Tokenizer, tags: seq<string>): (d: Dict<string, Tokens>)
    ensures d.Valid()
    ensures forall t :: t in d.items <==> t in tags && t != ""
    ensures forall t :: t in d.items ==> d.items[t] == TokenizeTag(tokenizer, t)
    decreases |tags|
  {
    if tags == [] then Empty()
    else
      var t := tags[|tags| - 1];
      assert tags == tags[..|tags| - 1] + [t];
      var d := Tokenized(tokenizer, tags[..|tags| - 1]);
      if t == "" then d else d.Put(t, TokenizeTag(tokenizer, t))
  }

  /** A tag with a list of tokens: its tokens in `tokenized`, its suffix in a group. */
  type Entry = (string, Tokens)

  function FirstToken(): Entry -> Option<string> {
    (e: Entry) => if e.1 == [] then None else Some(e.1[0])
  }

  function AfterFirst(): Entry -> Entry {
    (e: Entry) => (e.0, if e.1 == [] then [] else e.1[1..])
  }

  /** Prefix groups: each first token with the tags it starts and their suffixes. */
  type Groups = Dict<string, seq<Entry>>

  /** The groups of `get_prefix_groups_for_rule`: `prefix_counts`, built by the loop over
      the tokenized tags that have a token, cut down to the groups of at least two. */
  function GroupsOf(tokenizer: Tokenizer, tags: seq<string>): (groups: Groups)
    ensures groups.Valid()
    ensures forall p :: p in groups.items ==> |groups.items[p]| > 1
  {
    KeepShared(GroupBy(Pairs(Tokenized(tokenizer, tags)), FirstToken(), AfterFirst()))
  }

  /** Tag `t` stands in the group of `p`. */
  predicate InGroup(groups: Groups, p: string, t: string) {
    p in groups.items && exists i :: 0 <= i < |groups.items[p]| && groups.items[p][i].0 == t
  }

  predicate Grouped(groups: Groups, t: string) {
    exists p :: p in groups.items && InGroup(groups, p, t)
  }

  /** `[tag for tag in tags if tag not in grouped_tags]`. */
  function Ungrouped(tags: seq<string>, groups: Groups): (r: seq<string>)
    ensures |r| <= |tags|
    ensures forall t :: t in r <==> t in tags && !Grouped(groups, t)
    decreases |tags|
  {
    if tags == [] then []
    else
      var t := tags[|tags| - 1];
      assert tags == tags[..|tags| - 1] + [t];
      Ungrouped(tags[..|tags| - 1], groups) + (if Grouped(groups, t) then [] else [t])
  }

  /** `get_prefix_groups_for_rule(tags, rule_name)`. */
  function PrefixGroups(tokenizer: Tokenizer, tags: seq<string>): (r: (Groups, seq<string>))
    ensures r.0.Valid()
    ensures forall p :: p in r.0.items ==> |r.0.items[p]| > 1
  {
    var groups := GroupsOf(tokenizer, tags);
    (groups, Ungrouped(tags, groups))
  }

  /** What the grouping needs of `tokenized.items()`: each entry is a non-empty tag of
      the rule with its tokens, every such tag has an entry, and no tag has two. */
  lemma EntriesFacts(tokenizer: Tokenizer, tags: seq<string>)
    ensures var es := Pairs(Tokenized(tokenizer, tags));
      && (forall i :: 0 <= i < |es| ==> es[i].0 in tags && es[i].0 != "" && es[i].1 == TokenizeTag(tokenizer, es[i].0))
      && (forall t :: t in tags && t != "" ==> exists i :: 0 <= i < |es| && es[i].0 == t)
      && (forall i, j :: 0 <= i < j < |es| ==> es[i].0 != es[j].0)
  {
    var d := Tokenized(tokenizer, tags);
    forall t | t in tags && t != ""
      ensures exists i :: 0 <= i < |d.keys| && d.keys[i] == t
    {
      assert t in d.keys;
    }
  }

  /** The kept groups are the first tokens of two entries or more, each with the entries
      it starts. */
  lemma GroupsPick(tokenizer: Tokenizer, tags: seq<string>, p: string)
    ensures var es := Pairs(Tokenized(tokenizer, tags));
      && (p in GroupsOf(tokenizer, tags).items <==> |Pick(es, FirstToken(), AfterFirst(), p)| > 1)
      && (p in GroupsOf(tokenizer, tags).items ==> GroupsOf(tokenizer, tags).items[p] == Pick(es, FirstToken(), AfterFirst(), p))
  {
    GroupByPick(Pairs(Tokenized(tokenizer, tags)), FirstToken(), AfterFirst(), p);
  }

  /** A member of the group of `p` is the suffix of an entry whose tokens start with `p`. */
  lemma PickEntry(es: seq<Entry>, p: string, e: Entry)
    ensures e in Pick(es, FirstToken(), AfterFirst(), p) <==> exists i :: 0 <= i < |es| && es[i] == (e.0, [p] + e.1)
  {
    PickMember(es, FirstToken(), AfterFirst(), p, e);
    if e in Pick(es, FirstToken(), AfterFirst(), p) {
      var i :| 0 <= i < |es| && FirstToken()(es[i]) == Some(p) && AfterFirst()(es[i]) == e;
      assert es[i].1 == [p] + e.1;
    }
    if exists i :: 0 <= i < |es| && es[i] == (e.0, [p] + e.1) {
      var i :| 0 <= i < |es| && es[i] == (e.0, [p] + e.1);
      assert FirstToken()(es[i]) == Some(p) && AfterFirst()(es[i]) == e;
    }
  }

  /** An entry of the group of `p` is a non-empty tag whose tokens are `p` and then the
      entry's suffix. */
  lemma GroupEntry(tokenizer: Tokenizer, tags: seq<string>, p: string, e: Entry)
    requires p in GroupsOf(tokenizer, tags).items
    ensures e in GroupsOf(tokenizer, tags).items[p] <==>
              e.0 in tags && e.0 != "" && TokenizeTag(tokenizer, e.0) == [p] + e.1
  {
    if e in GroupsOf(tokenizer, tags).items[p] {
      GroupEntryTokens(tokenizer, tags, p, e);
    }
    if e.0 in tags && e.0 != "" && TokenizeTag(tokenizer, e.0) == [p] + e.1 {
      GroupEntryOfTag(tokenizer, tags, p, e);
    }
  }

  lemma GroupEntryTokens(tokenizer: Tokenizer, tags: seq<string>, p: string, e: Entry)
    requires p in GroupsOf(tokenizer, tags).items && e in GroupsOf(tokenizer, tags).items[p]
    ensures e.0 in tags && e.0 != "" && TokenizeTag(tokenizer, e.0) == [p] + e.1
  {
    var es := Pairs(Tokenized(tokenizer, tags));
    GroupsPick(tokenizer, tags, p);
    PickEntry(es, p, e);
    EntriesFacts(tokenizer, tags);
  }

  lemma GroupEntryOfTag(tokenizer: Tokenizer, tags: seq<string>, p: string, e: Entry)
    requires p in GroupsOf(tokenizer, tags).items
    requires e.0 in tags && e.0 != "" && TokenizeTag(tokenizer, e.0) == [p] + e.1
    ensures e in GroupsOf(tokenizer, tags).items[p]
  {
    var es := Pairs(Tokenized(tokenizer, tags));
    EntryIndexOf(tokenizer, tags, e.0);
    var i :| 0 <= i < |es| && es[i].0 == e.0;
    EntryTokens(tokenizer, tags, i);
    PickedEntry(es, i, p, e);
    GroupsPick(tokenizer, tags, p);
  }

  /** A valid tag has an entry. */
  lemma EntryIndexOf(tokenizer: Tokenizer, tags: seq<string>, t: string)
    requires t in tags && t != ""
    ensures exists i :: 0 <= i < |Pairs(Tokenized(tokenizer, tags))| && Pairs(Tokenized(tokenizer, tags))[i].0 == t
  {
    EntriesFacts(tokenizer, tags);
  }

  /** An entry holds its tag's tokens. */
  lemma EntryTokens(tokenizer: Tokenizer, tags: seq<string>, i: nat)
    requires i < |Pairs(Tokenized(tokenizer, tags))|
    ensures var e := Pairs(Tokenized(tokenizer, tags))[i]; e.1 == TokenizeTag(tokenizer, e.0)
  {
    EntriesFacts(tokenizer, tags);
  }

  lemma PickedEntry(es: seq<Entry>, i: nat, p: string, e: Entry)
    requires i < |es| && es[i] == (e.0, [p] + e.1)
    ensures e in Pick(es, FirstToken(), AfterFirst(), p)
  {
    PickEntry(es, p, e);
  }

  /** No tag stands twice in a group. */
  lemma GroupTagsDistinct(tokenizer: Tokenizer, tags: seq<string>, p: string)
    requires p in GroupsOf(tokenizer, tags).items
    ensures var g := GroupsOf(tokenizer, tags).items[p];
      forall i, j :: 0 <= i < j < |g| ==> g[i].0 != g[j].0
  {
    GroupsPick(tokenizer, tags, p);
    EntriesFacts(tokenizer, tags);
    PickTagsDistinct(Pairs(Tokenized(tokenizer, tags)), p);
  }

  lemma {:induction false} PickTagsDistinct(es: seq<Entry>, p: string)
    requires forall i, j :: 0 <= i < j < |es| ==> es[i].0 != es[j].0
    ensures var g := Pick(es, FirstToken(), AfterFirst(), p);
      forall i, j :: 0 <= i < j < |g| ==> g[i].0 != g[j].0
    decreases |es|
  {
    if es != [] {
      var rest := es[..|es| - 1];
      var last := es[|es| - 1];
      PickTagsDistinct(rest, p);
      var g := Pick(es, FirstToken(), AfterFirst(), p);
      var h := Pick(rest, FirstToken(), AfterFirst(), p);
      if FirstToken()(last) == Some(p) {
        assert g == h + [AfterFirst()(last)];
        assert g[|h|].0 == last.0;
        assert forall i :: 0 <= i < |h| ==> g[i] == h[i];
        forall i | 0 <= i < |h|
          ensures h[i].0 != last.0
        {
          PickMember(rest, FirstToken(), AfterFirst(), p, h[i]);
          var k :| 0 <= k < |rest| && FirstToken()(rest[k]) == Some(p) && AfterFirst()(rest[k]) == h[i];
          assert rest[k] == es[k];
        }
      } else {
        assert g == h;
      }
    }
  }

  /** Every tag stands in exactly one place: in the group of its first token, once, when
      that group has been kept, and in `ungrouped_tags` otherwise. */
  lemma PrefixGroupsPartition(tokenizer: Tokenizer, tags: seq<string>, t: string)
    requires t in tags
    ensures var (groups, ungrouped) := PrefixGroups(tokenizer, tags);
      var toks := TokenizeTag(tokenizer, t);
      && (t in ungrouped <==> !Grouped(groups, t))
      && (Grouped(groups, t) <==> t != "" && toks != [] && toks[0] in groups.items)
      && (forall p :: InGroup(groups, p, t) ==> p == toks[0])
      && (forall p, i, j :: p in groups.items && 0 <= i < j < |groups.items[p]| ==>
            groups.items[p][i].0 != groups.items[p][j].0)
  {
    GroupOfTag(tokenizer, tags, t);
    GroupsDistinct(tokenizer, tags);
  }

  /** A tag stands only in the group of its first token, and does so when that group is
      kept. */
  lemma GroupOfTag(tokenizer: Tokenizer, tags: seq<string>, t: string)
    ensures var groups := GroupsOf(tokenizer, tags);
      var toks := TokenizeTag(tokenizer, t);
      && (Grouped(groups, t) <==> t in tags && t != "" && toks != [] && toks[0] in groups.items)
      && (forall p :: InGroup(groups, p, t) ==> p == toks[0])
  {
    var groups := GroupsOf(tokenizer, tags);
    var toks := TokenizeTag(tokenizer, t);
    forall p | InGroup(groups, p, t)
      ensures t in tags && t != "" && toks != [] && p == toks[0]
    {
      InGroupTokens(tokenizer, tags, p, t);
    }
    if t in tags && t != "" && toks != [] && toks[0] in groups.items {
      InFirstGroup(tokenizer, tags, t);
    }
  }

  lemma InGroupTokens(tokenizer: Tokenizer, tags: seq<string>, p: string, t: string)
    requires InGroup(GroupsOf(tokenizer, tags), p, t)
    ensures t in tags && t != "" && StartsWith(TokenizeTag(tokenizer, t), p)
  {
    var g := GroupsOf(tokenizer, tags).items[p];
    var i :| 0 <= i < |g| && g[i].0 == t;
    GroupEntryTokens(tokenizer, tags, p, g[i]);
  }

  lemma InFirstGroup(tokenizer: Tokenizer, tags: seq<string>, t: string)
    requires t in tags && t != "" && TokenizeTag(tokenizer, t) != []
    requires TokenizeTag(tokenizer, t)[0] in GroupsOf(tokenizer, tags).items
    ensures InGroup(GroupsOf(tokenizer, tags), TokenizeTag(tokenizer, t)[0], t)
  {
    var toks := TokenizeTag(tokenizer, t);
    var es := Pairs(Tokenized(tokenizer, tags));
    EntriesFacts(tokenizer, tags);
    var i :| 0 <= i < |es| && es[i].0 == t;
    PickedHasTag(es, i, toks);
    GroupsPick(tokenizer, tags, toks[0]);
  }

  /** The entry of a tag whose tokens start with `toks[0]` is picked for that token. */
  lemma PickedHasTag(es: seq<Entry>, i: nat, toks: Tokens)
    requires i < |es| && es[i].1 == toks && toks != []
    ensures exists j :: 0 <= j < |Pick(es, FirstToken(), AfterFirst(), toks[0])| &&
                        Pick(es, FirstToken(), AfterFirst(), toks[0])[j].0 == es[i].0
  {
    var e := (es[i].0, toks[1..]);
    assert toks == [toks[0]] + toks[1..];
    assert es[i] == (e.0, [toks[0]] + e.1);
    PickEntry(es, toks[0], e);
    var g := Pick(es, FirstToken(), AfterFirst(), toks[0]);
    var j :| 0 <= j < |g| && g[j] == e;
  }

  lemma GroupsDistinct(tokenizer: Tokenizer, tags: seq<string>)
    ensures var groups := GroupsOf(tokenizer, tags);
      forall p, i, j :: p in groups.items && 0 <= i < j < |groups.items[p]| ==>
        groups.items[p][i].0 != groups.items[p][j].0
  {
    var groups := GroupsOf(tokenizer, tags);
    forall p | p in groups.items
      ensures forall i, j :: 0 <= i < j < |groups.items[p]| ==> groups.items[p][i].0 != groups.items[p][j].0
    {
      GroupTagsDistinct(tokenizer, tags, p);
    }
  }

  /** A group is kept exactly when two different tags start with its token. */
  lemma GroupKept(tokenizer: Tokenizer, tags: seq<string>, p: string)
    ensures p in GroupsOf(tokenizer, tags).items <==> TwoTagsStart(tokenizer, tags, p)
  {
    GroupsPick(tokenizer, tags, p);
    EntriesFacts(tokenizer, tags);
    var es := Pairs(Tokenized(tokenizer, tags));
    PickTwo(es, FirstToken(), AfterFirst(), p);
    if p in GroupsOf(tokenizer, tags).items {
      KeptHasTwo(tokenizer, tags, es, p);
    }
    if TwoTagsStart(tokenizer, tags, p) {
      TwoHaveKept(tokenizer, tags, es, p);
    }
  }

  /** Two different non-empty tags of the rule whose tokens start with `p`. */
  predicate TwoTagsStart(tokenizer: Tokenizer, tags: seq<string>, p: string) {
    exists t, u :: t in tags && u in tags && t != u && t != "" && u != ""
                   && StartsWith(TokenizeTag(tokenizer, t), p) && StartsWith(TokenizeTag(tokenizer, u), p)
  }

  lemma KeptHasTwo(tokenizer: Tokenizer, tags: seq<string>, es: seq<Entry>, p: string)
    requires forall i :: 0 <= i < |es| ==> es[i].0 in tags && es[i].0 != "" && es[i].1 == TokenizeTag(tokenizer, es[i].0)
    requires forall i, j :: 0 <= i < j < |es| ==> es[i].0 != es[j].0
    requires exists i, j :: 0 <= i < j < |es| && FirstToken()(es[i]) == Some(p) && FirstToken()(es[j]) == Some(p)
    ensures TwoTagsStart(tokenizer, tags, p)
  {
    var i, j :| 0 <= i < j < |es| && FirstToken()(es[i]) == Some(p) && FirstToken()(es[j]) == Some(p);
    assert StartsWith(TokenizeTag(tokenizer, es[i].0), p) && StartsWith(TokenizeTag(tokenizer, es[j].0), p);
  }

  lemma TwoHaveKept(tokenizer: Tokenizer, tags: seq<string>, es: seq<Entry>, p: string)
    requires forall i :: 0 <= i < |es| ==> es[i].1 == TokenizeTag(tokenizer, es[i].0)
    requires forall t :: t in tags && t != "" ==> exists i :: 0 <= i < |es| && es[i].0 == t
    requires TwoTagsStart(tokenizer, tags, p)
    ensures exists i, j :: 0 <= i < j < |es| && FirstToken()(es[i]) == Some(p) && FirstToken()(es[j]) == Some(p)
  {
    var t, u :| t in tags && u in tags && t != u && t != "" && u != ""
                && StartsWith(TokenizeTag(tokenizer, t), p) && StartsWith(TokenizeTag(tokenizer, u), p);
    var i :| 0 <= i < |es| && es[i].0 == t;
    var j :| 0 <= j < |es| && es[j].0 == u;
    assert FirstToken()(es[i]) == Some(p) && FirstToken()(es[j]) == Some(p);
    if j < i {
      assert 0 <= j < i < |es| && FirstToken()(es[j]) == Some(p) && FirstToken()(es[i]) == Some(p);
    } else {
      assert 0 <= i < j < |es| && FirstToken()(es[i]) == Some(p) && FirstToken()(es[j]) == Some(p);
    }
  }

  predicate StartsWith(toks: Tokens, p: string) {
    toks != [] && toks[0] == p
  }

  // ---------------------------------------------------------------------------
  // `create_initial_grammar_for_rule`

  /** Every tag of the group is the prefix token alone. */
  predicate AllSingle(pairs: seq<Entry>) {
    forall i :: 0 <= i < |pairs| ==> pairs[i].1 == []
  }

  /** `[suffix for _, suffix in tag_suffix_pairs]`. */
  function SuffixLists(pairs: seq<Entry>): (r: seq<Tokens>)
    ensures |r| == |pairs| && forall i :: 0 <= i < |pairs| ==> r[i] == pairs[i].1
  {
    seq(|pairs|, i requires 0 <= i < |pairs| => pairs[i].1)
  }

  /** The grammar built from the groups of the prefixes `ps`, the `i`-th of them (from 1)
      under `rule_TAG_NTi`; a group of one-token tags adds no key. */
  function InitialRules(rule: string, groups: Groups, ps: seq<string>): (r: TagRules)
    requires forall p :: p in ps ==> p in groups.items
    ensures r.Valid()
    decreases |ps|
  {
    if ps == [] then Empty()
    else
      var prev := InitialRules(rule, groups, ps[..|ps| - 1]);
      var p := ps[|ps| - 1];
      if AllSingle(groups.items[p]) then prev
      else prev.Put((InitialName(rule, |ps|), p), SuffixLists(groups.items[p]))
  }

  /** The `i`-th group (from 1) has a key, holding the group's suffixes, when one of its
      tags has more than one token. */
  lemma {:induction false} InitialRulesHas(rule: string, groups: Groups, ps: seq<string>, i: nat)
    requires forall p :: p in ps ==> p in groups.items
    requires i < |ps| && !AllSingle(groups.items[ps[i]])
    ensures (InitialName(rule, i + 1), ps[i]) in InitialRules(rule, groups, ps).items
    ensures InitialRules(rule, groups, ps).items[(InitialName(rule, i + 1), ps[i])] == SuffixLists(groups.items[ps[i]])
    decreases |ps|
  {
    var qs := ps[..|ps| - 1];
    var last := ps[|ps| - 1];
    var prev := InitialRules(rule, groups, qs);
    var k := (InitialName(rule, i + 1), ps[i]);
    if i < |qs| {
      assert qs[i] == ps[i];
      InitialRulesHas(rule, groups, qs, i);
      if !AllSingle(groups.items[last]) {
        if InitialName(rule, i + 1) == InitialName(rule, |ps|) {
          InitialNameInjective(rule, i + 1, |ps|);
        }
        assert k != (InitialName(rule, |ps|), last);
        assert InitialRules(rule, groups, ps).items == prev.items[(InitialName(rule, |ps|), last) := SuffixLists(groups.items[last])];
      }
    }
  }

  /** Every key of the first grammar is the key of such a group. */
  lemma {:induction false} InitialRulesOnly(rule: string, groups: Groups, ps: seq<string>, k: Key)
    requires forall p :: p in ps ==> p in groups.items
    requires k in InitialRules(rule, groups, ps).items
    ensures exists i :: 0 <= i < |ps| && k == (InitialName(rule, i + 1), ps[i]) && !AllSingle(groups.items[ps[i]])
    decreases |ps|
  {
    var qs := ps[..|ps| - 1];
    var n := |ps| - 1;
    if k == (InitialName(rule, n + 1), ps[n]) && !AllSingle(groups.items[ps[n]]) {
    } else {
      InitialRulesOnly(rule, groups, qs, k);
      var i :| 0 <= i < |qs| && k == (InitialName(rule, i + 1), qs[i]) && !AllSingle(groups.items[qs[i]]);
      assert qs[i] == ps[i];
    }
  }

  /** No name of the first grammar reads as a sub-nonterminal name, so the grammar is
      fresh for any counter. */
  lemma InitialRulesFresh(rule: string, groups: Groups, ps: seq<string>, c: Counter)
    requires forall p :: p in ps ==> p in groups.items
    ensures FreshOk(InitialRules(rule, groups, ps), c)
  {
    forall k | k in InitialRules(rule, groups, ps).items
      ensures NameOk(k.0, c)
    {
      InitialRulesOnly(rule, groups, ps, k);
      var i :| 0 <= i < |ps| && k == (InitialName(rule, i + 1), ps[i]) && !AllSingle(groups.items[ps[i]]);
      InitialNameNotSub(rule, i + 1);
    }
  }

  /** `f"{rule_name}::{tag}"`, the key of a tag in `tag_to_nt_mapping`. */
  function MapKey(rule: string, tag: string): string {
    rule + "::" + tag
  }

  lemma MapKeyInjective(rule: string, t: string, u: string)
    requires MapKey(rule, t) == MapKey(rule, u)
    ensures t == u
  {
    assert t == MapKey(rule, t)[|rule| + 2..];
    assert u == MapKey(rule, u)[|rule| + 2..];
  }

  /** What a tag of the `i`-th group stands for: the prefix alone when the group's tags are
      all one token, else the prefix and the group's nonterminal. */
  function GroupTarget(rule: string, i: nat, p: string, pairs: seq<Entry>): string {
    if AllSingle(pairs) then p else p + " " + InitialName(rule, i)
  }

  /** `tag_to_nt_mapping[f"{rule_name}::{tag}"] = target` for the tags of the pairs, in
      order. */
  function MapAll(m: map<string, string>, rule: string, pairs: seq<Entry>, target: string): map<string, string>
    decreases |pairs|
  {
    if pairs == [] then m
    else MapAll(m, rule, pairs[..|pairs| - 1], target)[MapKey(rule, pairs[|pairs| - 1].0) := target]
  }

  /** The mapping after the groups of the prefixes `ps`. */
  function MapGroups(m: map<string, string>, rule: string, groups: Groups, ps: seq<string>): map<string, string>
    requires forall p :: p in ps ==> p in groups.items
    decreases |ps|
  {
    if ps == [] then m
    else
      var p := ps[|ps| - 1];
      MapAll(MapGroups(m, rule, groups, ps[..|ps| - 1]), rule, groups.items[p], GroupTarget(rule, |ps|, p, groups.items[p]))
  }

  /** The mapping after the ungrouped tags: each maps to its tokens joined by spaces. */
  function MapUngrouped(m: map<string, string>, tokenizer: Tokenizer, rule: string, tags: seq<string>): map<string, string>
    decreases |tags|
  {
    if tags == [] then m
    else
      var t := tags[|tags| - 1];
      MapUngrouped(m, tokenizer, rule, tags[..|tags| - 1])[MapKey(rule, t) := Join(TokenizeTag(tokenizer, t))]
  }

  /** `tag_to_nt_mapping` after `create_initial_grammar_for_rule`. */
  function InitialMapping(m: map<string, string>, tokenizer: Tokenizer, rule: string, groups: Groups,
                          ungrouped: seq<string>): map<string, string>
    requires groups.Valid()
  {
    MapUngrouped(MapGroups(m, rule, groups, groups.keys), tokenizer, rule, ungrouped)
  }

  /** The tags of the pairs are mapped to the target; every other key keeps its entry. */
  lemma {:induction false} MapAllAt(m: map<string, string>, rule: string, pairs: seq<Entry>, target: string, t: string)
    ensures (exists i :: 0 <= i < |pairs| && pairs[i].0 == t) ==>
              MapKey(rule, t) in MapAll(m, rule, pairs, target) && MapAll(m, rule, pairs, target)[MapKey(rule, t)] == target
    ensures (forall i :: 0 <= i < |pairs| ==> pairs[i].0 != t) ==>
              (MapKey(rule, t) in MapAll(m, rule, pairs, target) <==> MapKey(rule, t) in m)
              && (MapKey(rule, t) in m ==> MapAll(m, rule, pairs, target)[MapKey(rule, t)] == m[MapKey(rule, t)])
    decreases |pairs|
  {
    if pairs != [] {
      var rest := pairs[..|pairs| - 1];
      var last := pairs[|pairs| - 1];
      MapAllAt(m, rule, rest, target, t);
      if MapKey(rule, last.0) == MapKey(rule, t) {
        MapKeyInjective(rule, last.0, t);
      }
      if exists i :: 0 <= i < |pairs| && pairs[i].0 == t {
        var i :| 0 <= i < |pairs| && pairs[i].0 == t;
        if i < |rest| {
          assert rest[i] == pairs[i];
        }
      }
      if forall i :: 0 <= i < |pairs| ==> pairs[i].0 != t {
        assert forall i :: 0 <= i < |rest| ==> rest[i] == pairs[i];
      }
    }
  }

  /** A tag that stands in the `i`-th group only is mapped to that group's target; a tag
      of no group keeps its entry. */
  lemma {:induction false} MapGroupsAt(m: map<string, string>, rule: string, groups: Groups, ps: seq<string>, t: string)
    requires forall p :: p in ps ==> p in groups.items
    requires forall i, j :: 0 <= i < j < |ps| && InGroup(groups, ps[i], t) ==> !InGroup(groups, ps[j], t)
    ensures forall i :: 0 <= i < |ps| && InGroup(groups, ps[i], t) ==>
              MapKey(rule, t) in MapGroups(m, rule, groups, ps)
              && MapGroups(m, rule, groups, ps)[MapKey(rule, t)] == GroupTarget(rule, i + 1, ps[i], groups.items[ps[i]])
    ensures (forall i :: 0 <= i < |ps| ==> !InGroup(groups, ps[i], t)) ==>
              (MapKey(rule, t) in MapGroups(m, rule, groups, ps) <==> MapKey(rule, t) in m)
              && (MapKey(rule, t) in m ==> MapGroups(m, rule, groups, ps)[MapKey(rule, t)] == m[MapKey(rule, t)])
    decreases |ps|
  {
    if ps != [] {
      var qs := ps[..|ps| - 1];
      var p := ps[|ps| - 1];
      assert forall i :: 0 <= i < |qs| ==> qs[i] == ps[i];
      MapGroupsAt(m, rule, groups, qs, t);
      MapAllAt(MapGroups(m, rule, groups, qs), rule, groups.items[p], GroupTarget(rule, |ps|, p, groups.items[p]), t);
    }
  }

  /** An ungrouped tag is mapped to its tokens joined by spaces; any other tag keeps its
      entry. */
  lemma {:induction false} MapUngroupedAt(m: map<string, string>, tokenizer: Tokenizer, rule: string, tags: seq<string>, t: string)
    ensures t in tags ==> MapKey(rule, t) in MapUngrouped(m, tokenizer, rule, tags)
                          && MapUngrouped(m, tokenizer, rule, tags)[MapKey(rule, t)] == Join(TokenizeTag(tokenizer, t))
    ensures t !in tags ==> (MapKey(rule, t) in MapUngrouped(m, tokenizer, rule, tags) <==> MapKey(rule, t) in m)
                           && (MapKey(rule, t) in m ==> MapUngrouped(m, tokenizer, rule, tags)[MapKey(rule, t)] == m[MapKey(rule, t)])
    decreases |tags|
  {
    if tags != [] {
      var rest := tags[..|tags| - 1];
      var last := tags[|tags| - 1];
      assert tags == rest + [last];
      MapUngroupedAt(m, tokenizer, rule, rest, t);
      if MapKey(rule, last) == MapKey(rule, t) {
        MapKeyInjective(rule, last, t);
      }
    }
  }

  /** After the first grammar of a rule, every tag of the rule is mapped: a grouped tag to
      its group's prefix (and nonterminal, unless the group's tags are all one token), any
      other tag to its tokens joined by spaces. */
  lemma InitialTagMapping(m: map<string, string>, tokenizer: Tokenizer, rule: string, tags: seq<string>, t: string)
    requires t in tags
    ensures var (groups, ungrouped) := PrefixGroups(tokenizer, tags);
      var mapping := InitialMapping(m, tokenizer, rule, groups, ungrouped);
      && MapKey(rule, t) in mapping
      && (!Grouped(groups, t) ==> mapping[MapKey(rule, t)] == Join(TokenizeTag(tokenizer, t)))
      && (forall i :: 0 <= i < |groups.keys| && InGroup(groups, groups.keys[i], t) ==>
            mapping[MapKey(rule, t)] == GroupTarget(rule, i + 1, groups.keys[i], groups.items[groups.keys[i]]))
  {
    var (groups, ungrouped) := PrefixGroups(tokenizer, tags);
    PrefixGroupsPartition(tokenizer, tags, t);
    var ps := groups.keys;
    MapGroupsAt(m, rule, groups, ps, t);
    MapUngroupedAt(MapGroups(m, rule, groups, ps), tokenizer, rule, ungrouped, t);
    if !Grouped(groups, t) {
      assert forall i :: 0 <= i < |ps| ==> !InGroup(groups, ps[i], t);
    }
  }
}
