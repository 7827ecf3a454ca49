/** The productions of one rule after tag expansion in `ProductionRuleProcessor`: each
    alternative with its tags replaced by what they are mapped to
    (`create_final_productions_for_rule`), and the left factoring of the rule's longest
    common prefix (`find_common_prefixes_in_productions`, used by
    `process_full_grammar`). */
module TagFinal {
  import opened Wrappers
  import opened Text
  import opened TagRefine
  import opened TagExtract
  import opened TagInitial

  // ---------------------------------------------------------------------------
  // `find_common_prefixes_in_productions`

  /** The non-empty productions, in order. */
  function NonEmpty(ps: seq<Tokens>): (r: seq<Tokens>)
    ensures forall q :: q in r <==> q in ps && q != []
    decreases |ps|
  {
    if ps == [] then []
    else
      var q := ps[|ps| - 1];
      assert ps == ps[..|ps| - 1] + [q];
      NonEmpty(ps[..|ps| - 1]) + (if q != [] then [q] else [])
  }

  /** `min(len(prod) for prod in tokenized_productions if len(prod) > 0)`. */
  function MinLen(ne: seq<Tokens>): (n: nat)
    requires ne != []
    ensures forall i :: 0 <= i < |ne| ==> n <= |ne[i]|
    ensures exists i :: 0 <= i < |ne| && n == |ne[i]|
    decreases |ne|
  {
    if |ne| == 1 then |ne[0]|
    else
      var m := MinLen(ne[..|ne| - 1]);
      var l := |ne[|ne| - 1]|;
      assert forall i :: 0 <= i < |ne| - 1 ==> ne[..|ne| - 1][i] == ne[i];
      if l < m then l else m
  }

  /** Every production of `ne` has the same symbol at position `i`: the set of
      `tokens_at_pos` has one element. */
  predicate SameAt(ne: seq<Tokens>, i: nat)
    requires ne != [] && forall k :: 0 <= k < |ne| ==> i < |ne[k]|
  {
    forall k :: 0 <= k < |ne| ==> ne[k][i] == ne[0][i]
  }

  /** The loop over `range(min_len)` from position `i` on: the shared symbols up to the
      first position where the productions differ, or up to `n`. */
  function PrefixFrom(ne: seq<Tokens>, i: nat, n: nat): Tokens
    requires ne != [] && i <= n && forall k :: 0 <= k < |ne| ==> n <= |ne[k]|
    decreases n - i
  {
    if i == n || !SameAt(ne, i) then [] else [ne[0][i]] + PrefixFrom(ne, i + 1, n)
  }

  /** A left factoring: the common prefix and what follows it in each long enough
      production (`factorization_info`). */
  datatype Factoring = Factoring(prefix: Tokens, suffixes: seq<Tokens>)

  /** The productions shorter than `n` (`new_productions`). */
  function Shorter(ps: seq<Tokens>, n: nat): (r: seq<Tokens>)
    ensures forall q :: q in r <==> q in ps && |q| < n
    decreases |ps|
  {
    if ps == [] then []
    else
      var q := ps[|ps| - 1];
      assert ps == ps[..|ps| - 1] + [q];
      Shorter(ps[..|ps| - 1], n) + (if |q| < n then [q] else [])
  }

  /** What follows the first `n` symbols in each production of length `n` or more. */
  function SuffixesAfter(ps: seq<Tokens>, n: nat): (r: seq<Tokens>)
    ensures forall s :: s in r <==> exists q :: q in ps && |q| >= n && s == q[n..]
    decreases |ps|
  {
    if ps == [] then []
    else
      var q := ps[|ps| - 1];
      var rest := ps[..|ps| - 1];
      assert ps == rest + [q];
      SuffixesAfter(rest, n) + (if |q| >= n then [q[n..]] else [])
  }

  /** `find_common_prefixes_in_productions(productions)` on list productions: the
      productions left for the rule and the factoring, if any. `min` of no lengths raises
      `ValueError`. */
  function FindCommonPrefixesInProductions(ps: seq<Tokens>): Result<(seq<Tokens>, Option<Factoring>), string> {
    if |ps| <= 1 then Success((ps, None))
    else
      var ne := NonEmpty(ps);
      if ne == [] then Failure("min() arg is an empty sequence")
      else
        var cp := PrefixFrom(ne, 0, MinLen(ne));
        if cp == [] then Success((ps, None))
        else Success((Shorter(ps, |cp|), Some(Factoring(cp, SuffixesAfter(ps, |cp|)))))
  }

  /** The prefix found from position `i` is shared by all the productions, and it stops at
      `n` or where they differ. */
  lemma {:induction false} PrefixFromShared(ne: seq<Tokens>, i: nat, n: nat)
    requires ne != [] && i <= n && forall k :: 0 <= k < |ne| ==> n <= |ne[k]|
    ensures i + |PrefixFrom(ne, i, n)| <= n
    ensures forall k, m :: 0 <= k < |ne| && 0 <= m < |PrefixFrom(ne, i, n)| ==> ne[k][i + m] == PrefixFrom(ne, i, n)[m]
    ensures i + |PrefixFrom(ne, i, n)| < n ==> !SameAt(ne, i + |PrefixFrom(ne, i, n)|)
    decreases n - i
  {
    if i < n && SameAt(ne, i) {
      PrefixFromShared(ne, i + 1, n);
      var r := PrefixFrom(ne, i + 1, n);
      assert PrefixFrom(ne, i, n) == [ne[0][i]] + r;
      forall k, m | 0 <= k < |ne| && 1 <= m < 1 + |r|
        ensures ne[k][i + m] == PrefixFrom(ne, i, n)[m]
      {
        assert ne[k][(i + 1) + (m - 1)] == r[m - 1];
      }
    }
  }

  /** The error case: more than one production, and all of them empty. */
  lemma FactoringFails(ps: seq<Tokens>)
    ensures FindCommonPrefixesInProductions(ps).Failure? <==> |ps| > 1 && forall q :: q in ps ==> q == []
  {
    if |ps| > 1 && NonEmpty(ps) != [] {
      assert NonEmpty(ps)[0] in NonEmpty(ps);
    }
  }

  /** No factoring leaves the productions as they are; there is none exactly when there
      is at most one production or the non-empty ones do not all start alike. */
  lemma FactoringNone(ps: seq<Tokens>)
    requires FindCommonPrefixesInProductions(ps).Success?
    ensures FindCommonPrefixesInProductions(ps).value.1.None? ==> FindCommonPrefixesInProductions(ps).value.0 == ps
    ensures FindCommonPrefixesInProductions(ps).value.1.None? <==>
              |ps| <= 1 || exists q, q' :: q in ps && q' in ps && q != [] && q' != [] && q[0] != q'[0]
  {
    if |ps| > 1 {
      var ne := NonEmpty(ps);
      assert ne[0] in ne;
      var n := MinLen(ne);
      PrefixFromShared(ne, 0, n);
      var cp := PrefixFrom(ne, 0, n);
      if exists q, q' :: q in ps && q' in ps && q != [] && q' != [] && q[0] != q'[0] {
        var q, q' :| q in ps && q' in ps && q != [] && q' != [] && q[0] != q'[0];
      }
      if cp == [] {
        var i :| 0 <= i < |ne| && n == |ne[i]|;
        assert ne[i] in ne;
        assert !SameAt(ne, 0);
        var k :| 0 <= k < |ne| && ne[k][0] != ne[0][0];
        assert ne[k] in ps && ne[0] in ps;
      }
    }
  }

  /** A factoring reproduces the productions: its prefix is the longest one that all the
      non-empty productions share, each of them is the prefix followed by one of the
      suffixes, each suffix completes the prefix to a production, and what is left for the
      rule is the empty productions. */
  lemma FactoringRestores(ps: seq<Tokens>)
    requires FindCommonPrefixesInProductions(ps).Success?
    requires FindCommonPrefixesInProductions(ps).value.1.Some?
    ensures var (rest, f) := (FindCommonPrefixesInProductions(ps).value.0, FindCommonPrefixesInProductions(ps).value.1.value);
      && f.prefix != [] && f.suffixes != []
      && (forall q :: q in ps && q != [] ==> |f.prefix| <= |q| && q == f.prefix + q[|f.prefix|..] && q[|f.prefix|..] in f.suffixes)
      && (forall s :: s in f.suffixes ==> f.prefix + s in ps)
      && (forall q :: q in rest <==> q in ps && q == [])
      && ((exists q :: q in ps && q != [] && |q| == |f.prefix|)
          || exists q, q' :: q in ps && q' in ps && q != [] && q' != [] && q[|f.prefix|] != q'[|f.prefix|])
  {
    var ne := NonEmpty(ps);
    var n := MinLen(ne);
    var cp := PrefixFrom(ne, 0, n);
    assert FindCommonPrefixesInProductions(ps) == Success((Shorter(ps, |cp|), Some(Factoring(cp, SuffixesAfter(ps, |cp|)))));
    PrefixRestores(ps, ne, n, cp);
  }

  /** `FactoringRestores` for the prefix found, stated on its parts. */
  lemma PrefixRestores(ps: seq<Tokens>, ne: seq<Tokens>, n: nat, cp: Tokens)
    requires ne == NonEmpty(ps) && ne != [] && n == MinLen(ne) && cp == PrefixFrom(ne, 0, n) && cp != []
    ensures SuffixesAfter(ps, |cp|) != []
    ensures forall q :: q in ps && q != [] ==> |cp| <= |q| && q == cp + q[|cp|..] && q[|cp|..] in SuffixesAfter(ps, |cp|)
    ensures forall s :: s in SuffixesAfter(ps, |cp|) ==> cp + s in ps
    ensures forall q :: q in Shorter(ps, |cp|) <==> q in ps && q == []
    ensures (exists q :: q in ps && q != [] && |q| == |cp|)
            || exists q, q' :: q in ps && q' in ps && q != [] && q' != [] && q[|cp|] != q'[|cp|]
  {
    PrefixFromStart(ne, n);
    SharedPrefix(ps, ne, cp);
    LongestPrefix(ps, ne, n, cp);
    SuffixOfFirst(ps, ne, |cp|);
  }

  /** `PrefixFromShared` from position 0. */
  lemma PrefixFromStart(ne: seq<Tokens>, n: nat)
    requires ne != [] && forall k :: 0 <= k < |ne| ==> n <= |ne[k]|
    ensures var cp := PrefixFrom(ne, 0, n);
      && |cp| <= n
      && (forall k :: 0 <= k < |ne| ==> |cp| <= |ne[k]|)
      && (forall k, m :: 0 <= k < |ne| && 0 <= m < |cp| ==> ne[k][m] == cp[m])
      && (|cp| < n ==> !SameAt(ne, |cp|))
  {
    PrefixFromShared(ne, 0, n);
    var cp := PrefixFrom(ne, 0, n);
    forall k, m | 0 <= k < |ne| && 0 <= m < |cp|
      ensures ne[k][m] == cp[m]
    {
      assert ne[k][0 + m] == cp[m];
    }
  }

  /** The first non-empty production, if long enough, leaves a suffix. */
  lemma SuffixOfFirst(ps: seq<Tokens>, ne: seq<Tokens>, m: nat)
    requires ne != [] && m <= |ne[0]| && forall q :: q in ne ==> q in ps
    ensures SuffixesAfter(ps, m) != []
  {
    assert ne[0] in ne;
    assert ne[0][m..] in SuffixesAfter(ps, m);
  }

  /** A prefix of every non-empty production: each is the prefix and a suffix, and each
      suffix completes the prefix to a production. */
  lemma SharedPrefix(ps: seq<Tokens>, ne: seq<Tokens>, cp: Tokens)
    requires forall q :: q in ne <==> q in ps && q != []
    requires forall k :: 0 <= k < |ne| ==> |cp| <= |ne[k]|
    requires forall k, m :: 0 <= k < |ne| && 0 <= m < |cp| ==> ne[k][m] == cp[m]
    requires cp != []
    ensures forall q :: q in ps && q != [] ==> |cp| <= |q| && q == cp + q[|cp|..] && q[|cp|..] in SuffixesAfter(ps, |cp|)
    ensures forall s :: s in SuffixesAfter(ps, |cp|) ==> cp + s in ps
  {
    forall q | q in ps && q != []
      ensures |cp| <= |q| && q == cp + q[|cp|..]
    {
      var k :| 0 <= k < |ne| && ne[k] == q;
      assert q[..|cp|] == cp;
    }
    forall s | s in SuffixesAfter(ps, |cp|)
      ensures cp + s in ps
    {
      var q :| q in ps && |q| >= |cp| && s == q[|cp|..];
      var k :| 0 <= k < |ne| && ne[k] == q;
      assert q[..|cp|] == cp;
      assert q == cp + s;
    }
  }

  /** The prefix found stops at the shortest production or where two productions differ. */
  lemma LongestPrefix(ps: seq<Tokens>, ne: seq<Tokens>, n: nat, cp: Tokens)
    requires ne != [] && forall q :: q in ne <==> q in ps && q != []
    requires forall k :: 0 <= k < |ne| ==> n <= |ne[k]|
    requires exists i :: 0 <= i < |ne| && n == |ne[i]|
    requires |cp| <= n && (|cp| < n ==> !SameAt(ne, |cp|))
    ensures (exists q :: q in ps && q != [] && |q| == |cp|)
            || exists q, q' :: q in ps && q' in ps && q != [] && q' != [] && q[|cp|] != q'[|cp|]
  {
    if |cp| < n {
      var k :| 0 <= k < |ne| && ne[k][|cp|] != ne[0][|cp|];
      assert ne[k] in ne && ne[0] in ne;
    } else {
      var i :| 0 <= i < |ne| && n == |ne[i]|;
      assert ne[i] in ne;
    }
  }

  // ---------------------------------------------------------------------------
  // `create_final_productions_for_rule`

  /** The tokens a tag of rule `lhs` stands for: the words of what the mapping gives for
      `lhs::tag`, or the tag itself, re-wrapped, when that is missing or empty. */
  function TagTokens(mapping: map<string, string>, lhs: string, tag: string): (r: Tokens)
    ensures tag != "" && (MapKey(lhs, tag) !in mapping || mapping[MapKey(lhs, tag)] == "") ==> r == ["<<" + tag + ">>"]
    ensures tag != "" && MapKey(lhs, tag) in mapping && mapping[MapKey(lhs, tag)] != "" ==> r == Split(mapping[MapKey(lhs, tag)])
  {
    if tag == "" then []
    else
      var key := MapKey(lhs, tag);
      if key in mapping && mapping[key] != "" then Split(mapping[key]) else ["<<" + tag + ">>"]
  }

  /** The words of a literal chunk; a missing or blank one gives none. */
  function OtherTokens(other: Option<string>): (r: Tokens)
    ensures AllWords(r)
    ensures other.None? ==> r == []
  {
    match other
    case None => []
    case Some(o) => Split(o)
  }

  /** The loop over `range(max_len)` from `j` on, as written: tag `j`'s tokens, then
      chunk `j`'s words. */
  function Alternate(mapping: map<string, string>, lhs: string, tags: seq<string>, others: seq<Option<string>>, j: nat, n: nat): Tokens
    requires j <= n
    decreases n - j
  {
    if j == n then []
    else
      (if j < |tags| then TagTokens(mapping, lhs, tags[j]) else [])
      + (if j < |others| then OtherTokens(others[j]) else [])
      + Alternate(mapping, lhs, tags, others, j + 1, n)
  }

  /** One more position of the loop: what was gathered, then tag `j`'s tokens and chunk
      `j`'s words, then the rest. */
  lemma AlternateStep(mapping: map<string, string>, lhs: string, tags: seq<string>, others: seq<Option<string>>,
                      j: nat, n: nat, acc: Tokens, tagTokens: Tokens, otherTokens: Tokens)
    requires j < n
    requires tagTokens == if j < |tags| then TagTokens(mapping, lhs, tags[j]) else []
    requires otherTokens == if j < |others| then OtherTokens(others[j]) else []
    ensures acc + Alternate(mapping, lhs, tags, others, j, n) ==
            (acc + tagTokens + otherTokens) + Alternate(mapping, lhs, tags, others, j + 1, n)
  {
    var rest := Alternate(mapping, lhs, tags, others, j + 1, n);
    assert Alternate(mapping, lhs, tags, others, j, n) == tagTokens + otherTokens + rest;
    SeqAssoc(acc, tagTokens + otherTokens, rest);
    SeqAssoc(acc, tagTokens, otherTokens);
  }

  lemma SeqAssoc<T>(a: seq<T>, b: seq<T>, c: seq<T>)
    ensures a + (b + c) == (a + b) + c
  {
  }

  function Max(a: nat, b: nat): nat {
    if a < b then b else a
  }

  /** The production one alternative becomes, as written. */
  function ProductionOf(mapping: map<string, string>, lhs: string, item: string): Tokens {
    var (tags, others) := ExtractItem(item);
    Alternate(mapping, lhs, tags, others, 0, Max(|tags|, |others|))
  }

  /** An alternative without tags becomes its words. */
  lemma ProductionNoTag(mapping: map<string, string>, lhs: string, item: string)
    requires !HasTag(item)
    ensures ProductionOf(mapping, lhs, item) == Split(item)
  {
    assert Alternate(mapping, lhs, [], [Some(item)], 1, 1) == [];
  }

  /** The list of productions being built: a non-empty production is added unless it is
      already present, an empty one always. */
  function Collect(ps: seq<Tokens>): (r: seq<Tokens>)
    ensures forall q :: q in r <==> q in ps
    ensures forall i, j :: 0 <= i < j < |r| && r[i] != [] ==> r[i] != r[j]
    ensures |r| <= |ps|
    decreases |ps|
  {
    if ps == [] then []
    else
      var p := ps[|ps| - 1];
      var prev := Collect(ps[..|ps| - 1]);
      assert ps == ps[..|ps| - 1] + [p];
      if p != [] && p in prev then prev else prev + [p]
  }

  /** An empty alternative is kept once for each time it occurs. */
  lemma {:induction false} CollectKeepsEmpties(ps: seq<Tokens>)
    ensures multiset(Collect(ps))[[]] == multiset(ps)[[]]
    decreases |ps|
  {
    if ps != [] {
      var p := ps[|ps| - 1];
      CollectKeepsEmpties(ps[..|ps| - 1]);
      assert ps == ps[..|ps| - 1] + [p];
    }
  }

  /** The production of each alternative, as written. */
  function Productions(mapping: map<string, string>, lhs: string, rhs: seq<string>): (r: seq<Tokens>)
    ensures |r| == |rhs| && forall i :: 0 <= i < |rhs| ==> r[i] == ProductionOf(mapping, lhs, rhs[i])
  {
    seq(|rhs|, i requires 0 <= i < |rhs| => ProductionOf(mapping, lhs, rhs[i]))
  }

  /** `create_final_productions_for_rule(lhs, rhs_list, _)` as written. */
  function FinalProductions(mapping: map<string, string>, lhs: string, rhs: seq<string>): seq<Tokens> {
    Collect(Productions(mapping, lhs, rhs))
  }

  /** Every alternative's production is among the final productions, and nothing else is;
      a non-empty production is kept once, and there are no more productions than
      alternatives. */
  lemma FinalProductionsFacts(mapping: map<string, string>, lhs: string, rhs: seq<string>)
    ensures var r := FinalProductions(mapping, lhs, rhs);
      && (forall q :: q in r <==> exists i :: 0 <= i < |rhs| && q == ProductionOf(mapping, lhs, rhs[i]))
      && (forall i, j :: 0 <= i < j < |r| && r[i] != [] ==> r[i] != r[j])
      && |r| <= |rhs|
  {
    var ps := Productions(mapping, lhs, rhs);
    forall q | (exists i :: 0 <= i < |rhs| && q == ProductionOf(mapping, lhs, rhs[i]))
      ensures q in ps
    {
      var i :| 0 <= i < |rhs| && q == ProductionOf(mapping, lhs, rhs[i]);
      assert ps[i] == q;
    }
  }

  /** The word order as written: `<<t>>` after the text `x` is emitted before it. */
  lemma TagBeforeText(mapping: map<string, string>, lhs: string)
    requires MapKey(lhs, "t") !in mapping
    ensures SmartSplit("x <<t>>") == ["x", "<<t>>"]
    ensures ProductionOf(mapping, lhs, "x <<t>>") == ["<<t>>", "x"]
  {
    ExampleParts();
    ExampleExtract();
    assert Split("x") == ["x"] by {
      assert TakeWord("x") == "x";
    }
  }

  lemma ExampleParts()
    ensures HasTag("x <<t>>")
    ensures SmartSplit("x <<t>>") == ["x", "<<t>>"]
    ensures FullMatchTag("<<t>>") == Some("t") && FullMatchTag("x").None?
  {
    var s := "x <<t>>";
    ExampleSearch();
    ExampleWords();
    assert s[0..2] == "x " && s[7..] == "";
    assert SmartSplitFrom(s, 7) == [];
    assert SmartSplit(s) == ["x", s[2..7]];
    MatchIsTag(s, 2, 7);
    assert s[2..7] == "<<t>>" && s[4..5] == "t";
  }

  /** In `x <<t>>` the one match spans positions 2 to 7. */
  lemma ExampleMatch()
    ensures MatchAt("x <<t>>", 0).None? && MatchAt("x <<t>>", 1).None?
    ensures MatchAt("x <<t>>", 2) == Some(7)
  {
    var s := "x <<t>>";
    assert s[0..2][0] == 'x' && s[1..3][0] == ' ';
    assert s[2..4] == "<<" && s[4] != '\n' && s[5..7] == ">>";
    assert TagEnd(s, 4, 5) == Some(5);
  }

  lemma ExampleSearch()
    ensures NextMatch("x <<t>>", 0) == Some((2, 7))
    ensures NextMatch("x <<t>>", 7).None?
  {
    ExampleMatch();
  }

  lemma ExampleWords()
    ensures Split(" ") == [] && Split("x ") == ["x"]
  {
    assert TakeWord(" ") == [] && TakeWord("x ") == "x";
  }

  lemma ExampleExtract()
    ensures ExtractItem("x <<t>>") == (["t"], [Some("x")])
  {
    ExampleParts();
    var words := ["x", "<<t>>"];
    assert words[1..] == ["<<t>>"] && words[1..][1..] == [];
    assert [] + ["x"] == ["x"];
    assert Chunks(words[1..][1..], []) == [];
    assert Chunks(words[1..], ["x"]) == [["x"]];
    assert Chunks(words, []) == [["x"]];
    assert Join(["x"]) == "x";
    assert TagOf("x") == [] && TagOf("<<t>>") == ["t"];
    assert TagsOf(words[1..][1..]) == [];
    assert TagsOf(words) == ["t"];
    assert OthersOf([["x"]]) == [Some("x")];
  }

  /** As written, text is paired with the tag before it even in an alternative that starts
      with a tag: in `<<a>> <<b>> y` the chunk `y` is the first chunk, so it comes out
      between the two tags. */
  lemma TextBetweenTags(mapping: map<string, string>, lhs: string)
    requires MapKey(lhs, "a") !in mapping && MapKey(lhs, "b") !in mapping
    ensures SmartSplit("<<a>> <<b>> y") == ["<<a>>", "<<b>>", "y"]
    ensures ProductionOf(mapping, lhs, "<<a>> <<b>> y") == ["<<a>>", "y", "<<b>>"]
  {
    AdjacentParts();
    AdjacentExtract();
    AdjacentAlternate(mapping, lhs);
  }

  lemma AdjacentAlternate(mapping: map<string, string>, lhs: string)
    requires MapKey(lhs, "a") !in mapping && MapKey(lhs, "b") !in mapping
    ensures Alternate(mapping, lhs, ["a", "b"], [Some("y")], 0, 2) == ["<<a>>", "y", "<<b>>"]
  {
    var tags, others := ["a", "b"], [Some("y")];
    assert Split("y") == ["y"] by {
      assert TakeWord("y") == "y";
    }
    assert "<<" + "a" + ">>" == "<<a>>" && "<<" + "b" + ">>" == "<<b>>";
    assert TagTokens(mapping, lhs, "a") == ["<<a>>"];
    assert TagTokens(mapping, lhs, "b") == ["<<b>>"];
    assert OtherTokens(Some("y")) == ["y"];
    assert Alternate(mapping, lhs, tags, others, 2, 2) == [];
    assert Alternate(mapping, lhs, tags, others, 1, 2) == ["<<b>>"] + [] + [];
    assert Alternate(mapping, lhs, tags, others, 0, 2) == ["<<a>>"] + ["y"] + ["<<b>>"];
  }

  lemma AdjacentParts()
    ensures HasTag("<<a>> <<b>> y")
    ensures SmartSplit("<<a>> <<b>> y") == ["<<a>>", "<<b>>", "y"]
    ensures FullMatchTag("<<a>>") == Some("a") && FullMatchTag("<<b>>") == Some("b")
  {
    var s := "<<a>> <<b>> y";
    AdjacentSearch();
    assert Split(s[0..0]) == [] && Split(s[5..6]) == [];
    assert Split(s[11..]) == ["y"] by {
      assert s[11..] == " y";
      assert TakeWord("y") == "y";
    }
    assert SmartSplitFrom(s, 11) == ["y"];
    assert SmartSplitFrom(s, 5) == [s[6..11]] + ["y"];
    assert SmartSplit(s) == [s[0..5]] + [s[6..11]] + ["y"];
    MatchIsTag(s, 0, 5);
    MatchIsTag(s, 6, 11);
    assert s[0..5] == "<<a>>" && s[2..3] == "a";
    assert s[6..11] == "<<b>>" && s[8..9] == "b";
  }

  /** In `<<a>> <<b>> y` the matches span positions 0 to 5 and 6 to 11. */
  lemma AdjacentSearch()
    ensures NextMatch("<<a>> <<b>> y", 0) == Some((0, 5))
    ensures NextMatch("<<a>> <<b>> y", 5) == Some((6, 11))
    ensures NextMatch("<<a>> <<b>> y", 11).None?
  {
    var s := "<<a>> <<b>> y";
    assert s[0..2] == "<<" && s[2] != '\n' && s[3..5] == ">>";
    assert TagEnd(s, 2, 3) == Some(3);
    assert MatchAt(s, 0) == Some(5);
    assert s[5..7][0] == ' ';
    assert MatchAt(s, 5).None?;
    assert s[6..8] == "<<" && s[8] != '\n' && s[9..11] == ">>";
    assert TagEnd(s, 8, 9) == Some(9);
    assert MatchAt(s, 6) == Some(11);
  }

  lemma AdjacentWords()
    ensures FullMatchTag("y").None?
    ensures Chunks(["<<a>>", "<<b>>", "y"], []) == [["y"]]
    ensures TagsOf(["<<a>>", "<<b>>", "y"]) == ["a", "b"]
  {
    AdjacentParts();
    var words := ["<<a>>", "<<b>>", "y"];
    assert FullMatchTag("y").None?;
    assert words[1..] == ["<<b>>", "y"] && words[1..][1..] == ["y"] && words[1..][1..][1..] == [];
    assert Chunks(words[1..][1..], []) == [["y"]] by {
      assert [] + ["y"] == ["y"];
      assert Chunks(words[1..][1..][1..], ["y"]) == [["y"]];
    }
    assert Chunks(words[1..], []) == [["y"]];
    assert Chunks(words, []) == [["y"]];
    assert TagOf("<<a>>") == ["a"] && TagOf("<<b>>") == ["b"] && TagOf("y") == [];
    assert TagsOf(words[1..][1..]) == [];
    assert TagsOf(words[1..]) == ["b"];
  }

  lemma AdjacentExtract()
    ensures ExtractItem("<<a>> <<b>> y") == (["a", "b"], [Some("y")])
  {
    AdjacentParts();
    AdjacentWords();
    assert Join(["y"]) == "y";
    assert OthersOf([["y"]]) == [Some("y")];
  }

  /** The tokens of one part of an alternative: an unmapped tag stays as it is written. */
  function PartTokens(mapping: map<string, string>, lhs: string, w: string): (r: Tokens)
    ensures FullMatchTag(w).None? ==> r == [w]
  {
    match FullMatchTag(w)
    case Some(c) => TagTokens(mapping, lhs, c)
    case None => [w]
  }

  /** The parts' tokens, in the order of the parts. */
  function PartsTokens(mapping: map<string, string>, lhs: string, ws: seq<string>): Tokens {
    if ws == [] then [] else PartTokens(mapping, lhs, ws[0]) + PartsTokens(mapping, lhs, ws[1..])
  }

  /** The production one alternative becomes with its tags expanded in place. */
  function OrderedProductionOf(mapping: map<string, string>, lhs: string, item: string): Tokens {
    if HasTag(item) then PartsTokens(mapping, lhs, SmartSplit(item)) else Split(item)
  }

  /** The tags of the rule that the mapping knows nothing about. */
  predicate Unmapped(mapping: map<string, string>, lhs: string, ws: seq<string>) {
    forall i :: 0 <= i < |ws| && FullMatchTag(ws[i]).Some? ==> MapKey(lhs, FullMatchTag(ws[i]).value) !in mapping
  }

  lemma {:induction false} PartsUnmapped(mapping: map<string, string>, lhs: string, ws: seq<string>)
    requires Unmapped(mapping, lhs, ws)
    ensures PartsTokens(mapping, lhs, ws) == ws
    decreases |ws|
  {
    if ws != [] {
      assert Unmapped(mapping, lhs, ws[1..]) by {
        forall i | 0 <= i < |ws[1..]| && FullMatchTag(ws[1..][i]).Some?
          ensures MapKey(lhs, FullMatchTag(ws[1..][i]).value) !in mapping
        {
          assert ws[1..][i] == ws[i + 1];
        }
      }
      PartsUnmapped(mapping, lhs, ws[1..]);
    }
  }

  /** Expanded in place, an alternative whose tags are all unmapped keeps its parts in
      their order. */
  lemma OrderedUnmapped(mapping: map<string, string>, lhs: string, item: string)
    requires HasTag(item) && Unmapped(mapping, lhs, SmartSplit(item))
    ensures OrderedProductionOf(mapping, lhs, item) == SmartSplit(item)
  {
    PartsUnmapped(mapping, lhs, SmartSplit(item));
  }

  /** The text alternatives are the same in both. */
  lemma SameWithoutTags(mapping: map<string, string>, lhs: string, item: string)
    requires !HasTag(item)
    ensures OrderedProductionOf(mapping, lhs, item) == ProductionOf(mapping, lhs, item) == Split(item)
  {
    ProductionNoTag(mapping, lhs, item);
  }

  /** Expanded in place, the example keeps the text before the tag. */
  lemma TextBeforeTagKept(mapping: map<string, string>, lhs: string)
    requires MapKey(lhs, "t") !in mapping
    ensures OrderedProductionOf(mapping, lhs, "x <<t>>") == ["x", "<<t>>"]
  {
    ExampleParts();
    var ws := SmartSplit("x <<t>>");
    assert Unmapped(mapping, lhs, ws) by {
      forall i | 0 <= i < |ws| && FullMatchTag(ws[i]).Some?
        ensures MapKey(lhs, FullMatchTag(ws[i]).value) !in mapping
      {
        assert i == 1;
      }
    }
    OrderedUnmapped(mapping, lhs, "x <<t>>");
  }

  // ---------------------------------------------------------------------------
  // The entries `process_full_grammar` stores for one rule

  /** The rule that takes the suffixes of a factored rule. */
  function FactName(lhs: string): string {
    lhs + "_FACT"
  }

  /** One step of expanding `fact` in the alternative `m` into one of `alts`; an
      alternative that does not end with `fact` stands for itself. */
  predicate DerivesFrom(m: Tokens, fact: string, alts: seq<Tokens>, q: Tokens) {
    if m != [] && m[|m| - 1] == fact then exists s :: s in alts && q == m[..|m| - 1] + s else q == m
  }

  /** `q` is one of the alternatives of `main` with `fact` expanded. */
  predicate Derives(main: seq<Tokens>, fact: string, alts: seq<Tokens>, q: Tokens) {
    exists m :: m in main && DerivesFrom(m, fact, alts, q)
  }

  /** The entries for rule `lhs` with final productions `prods` and factoring result `res`,
      as written: with a factoring, `(lhs, "RULE")` becomes the prefix followed by
      `lhs_FACT`, and `(lhs_FACT, "RULE")` the suffixes; the productions left over by the
      factoring are not stored. */
  function StoredEntries(lhs: string, prods: seq<Tokens>, res: (seq<Tokens>, Option<Factoring>)): seq<(Key, seq<Tokens>)> {
    match res.1
    case None => [((lhs, "RULE"), prods)]
    case Some(f) => [((lhs, "RULE"), [f.prefix + [FactName(lhs)]]), ((FactName(lhs), "RULE"), f.suffixes)]
  }

  /** The entries with the left-over productions kept beside the factored one. */
  function KeptEntries(lhs: string, prods: seq<Tokens>, res: (seq<Tokens>, Option<Factoring>)): seq<(Key, seq<Tokens>)> {
    match res.1
    case None => [((lhs, "RULE"), prods)]
    case Some(f) => [((lhs, "RULE"), [f.prefix + [FactName(lhs)]] + res.0), ((FactName(lhs), "RULE"), f.suffixes)]
  }

  /** What `process_full_grammar` stores for one rule, as written. */
  function RuleEntries(lhs: string, prods: seq<Tokens>): Result<seq<(Key, seq<Tokens>)>, string> {
    match FindCommonPrefixesInProductions(prods)
    case Failure(e) => Failure(e)
    case Success(res) => Success(StoredEntries(lhs, prods, res))
  }

  /** What is stored for one rule when the left-over productions are kept. */
  function FactoredRuleEntries(lhs: string, prods: seq<Tokens>): Result<seq<(Key, seq<Tokens>)>, string> {
    match FindCommonPrefixesInProductions(prods)
    case Failure(e) => Failure(e)
    case Success(res) => Success(KeptEntries(lhs, prods, res))
  }

  /** Both fail exactly when the factoring does, and store the productions unchanged when
      there is no factoring. */
  lemma RuleEntriesUnfactored(lhs: string, prods: seq<Tokens>)
    ensures RuleEntries(lhs, prods).Failure? <==> |prods| > 1 && forall q :: q in prods ==> q == []
    ensures FactoredRuleEntries(lhs, prods).Failure? <==> |prods| > 1 && forall q :: q in prods ==> q == []
    ensures FindCommonPrefixesInProductions(prods).Success? && FindCommonPrefixesInProductions(prods).value.1.None? ==>
              RuleEntries(lhs, prods) == FactoredRuleEntries(lhs, prods) == Success([((lhs, "RULE"), prods)])
  {
    FactoringFails(prods);
  }

  /** With a factoring's prefix and suffixes, the factored alternative alone derives the
      non-empty productions, and with the left-over empty ones beside it all of them. */
  lemma FactoredDerives(prods: seq<Tokens>, cp: Tokens, sufs: seq<Tokens>, rest: seq<Tokens>, fact: string, q: Tokens)
    requires cp != []
    requires forall q :: q in prods && q != [] ==> |cp| <= |q| && q == cp + q[|cp|..] && q[|cp|..] in sufs
    requires forall s :: s in sufs ==> cp + s in prods
    requires forall q :: q in rest <==> q in prods && q == []
    ensures Derives([cp + [fact]], fact, sufs, q) <==> q in prods && q != []
    ensures Derives([cp + [fact]] + rest, fact, sufs, q) <==> q in prods
  {
    var m := cp + [fact];
    assert m[..|m| - 1] == cp;
    if q in prods && q != [] {
      assert DerivesFrom(m, fact, sufs, q);
    }
    if q in prods && q == [] {
      assert q in [m] + rest && DerivesFrom(q, fact, sufs, q);
    }
    if Derives([m] + rest, fact, sufs, q) {
      var m' :| m' in [m] + rest && DerivesFrom(m', fact, sufs, q);
      if m' != m {
        assert m' in rest;
      }
    }
  }

  /** As written, a factored rule derives exactly the non-empty productions: an empty
      alternative is lost. */
  lemma RuleEntriesDropEmpty(lhs: string, prods: seq<Tokens>, q: Tokens)
    requires FindCommonPrefixesInProductions(prods).Success? && FindCommonPrefixesInProductions(prods).value.1.Some?
    ensures RuleEntries(lhs, prods).Success? && |RuleEntries(lhs, prods).value| == 2
    ensures var es := RuleEntries(lhs, prods).value;
      Derives(es[0].1, FactName(lhs), es[1].1, q) <==> q in prods && q != []
  {
    FactoringRestores(prods);
    var res := FindCommonPrefixesInProductions(prods).value;
    var f := res.1.value;
    FactoredDerives(prods, f.prefix, f.suffixes, res.0, FactName(lhs), q);
  }

  /** Keeping the left-over productions, a factored rule derives exactly the productions. */
  lemma FactoredKeepsAlternatives(lhs: string, prods: seq<Tokens>, q: Tokens)
    requires FindCommonPrefixesInProductions(prods).Success? && FindCommonPrefixesInProductions(prods).value.1.Some?
    ensures FactoredRuleEntries(lhs, prods).Success? && |FactoredRuleEntries(lhs, prods).value| == 2
    ensures var es := FactoredRuleEntries(lhs, prods).value;
      Derives(es[0].1, FactName(lhs), es[1].1, q) <==> q in prods
  {
    FactoringRestores(prods);
    var res := FindCommonPrefixesInProductions(prods).value;
    var f := res.1.value;
    FactoredDerives(prods, f.prefix, f.suffixes, res.0, FactName(lhs), q);
  }

  /** The factoring of `[[], ["a"]]`. */
  lemma ExampleFactoring()
    ensures FindCommonPrefixesInProductions([[], ["a"]]) == Success(([[]], Some(Factoring(["a"], [[]]))))
  {
    var prods: seq<Tokens> := [[], ["a"]];
    var ne := NonEmpty(prods);
    assert prods[..1] == [[]] && prods[..1][..0] == [];
    assert NonEmpty(prods[..1]) == [];
    assert ne == [["a"]];
    assert MinLen(ne) == 1;
    assert SameAt(ne, 0);
    assert PrefixFrom(ne, 1, 1) == [];
    assert PrefixFrom(ne, 0, 1) == ["a"];
    assert Shorter(prods[..1], 1) == [[]];
    assert Shorter(prods, 1) == [[]];
    assert ["a"][1..] == [];
    assert SuffixesAfter(prods[..1], 1) == [];
    assert SuffixesAfter(prods, 1) == [[]];
  }

  /** The entries for `[[], ["a"]]`: as written the empty alternative is gone, kept
      beside the factored one it stays. */
  lemma EmptyAlternativeLost()
    ensures RuleEntries("S", [[], ["a"]]) == Success([(("S", "RULE"), [["a", "S_FACT"]]), (("S_FACT", "RULE"), [[]])])
    ensures FactoredRuleEntries("S", [[], ["a"]]) == Success([(("S", "RULE"), [["a", "S_FACT"], []]), (("S_FACT", "RULE"), [[]])])
  {
    ExampleFactoring();
    var res: (seq<Tokens>, Option<Factoring>) := ([[]], Some(Factoring(["a"], [[]])));
    ExampleEntries(res);
  }

  lemma ExampleEntries(res: (seq<Tokens>, Option<Factoring>))
    requires res == ([[]], Some(Factoring(["a"], [[]])))
    ensures StoredEntries("S", [[], ["a"]], res) == [(("S", "RULE"), [["a", "S_FACT"]]), (("S_FACT", "RULE"), [[]])]
    ensures KeptEntries("S", [[], ["a"]], res) == [(("S", "RULE"), [["a", "S_FACT"], []]), (("S_FACT", "RULE"), [[]])]
  {
    var fact := FactName("S");
    assert fact == "S_FACT";
    var main := ["a"] + [fact];
    assert main == ["a", "S_FACT"];
    assert [main] + res.0 == [["a", "S_FACT"], []];
  }
}
