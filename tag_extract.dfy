/** Splitting the alternatives of a rule into `<<tag>>` parts and literal text, as the
    tag pattern `<<(.+?)>>` finds them: a tag is `<<`, then the shortest non-empty run of
    characters other than a newline that is followed by `>>`, then that `>>`. */
module TagExtract {
  import opened Wrappers
  import opened Text

  // ---------------------------------------------------------------------------
  // The tag pattern

  /** The end of the lazy `.+?` of a tag whose content starts at `c`, scanning candidate
      ends from `e`: the first position holding `>>` reached without crossing a newline. */
  /** `>>` stands at position `k` of `s`. */
  predicate CloseAt(s: string, k: nat) {
    k + 2 <= |s| && s[k..k + 2] == ">>"
  }

  function TagEnd(s: string, c: nat, e: nat): (r: Option<nat>)
    requires c < e <= |s|
    requires forall k :: c <= k < e - 1 ==> s[k] != '\n'
    ensures r.Some? ==> e <= r.value && CloseAt(s, r.value)
    ensures r.Some? ==> forall k :: c <= k < r.value ==> s[k] != '\n'
    ensures r.Some? ==> forall k: nat :: e <= k < r.value ==> !CloseAt(s, k)
    ensures r.None? ==> forall k: nat :: e <= k && CloseAt(s, k) ==> exists i :: e - 1 <= i < k && s[i] == '\n'
    decreases |s| - e
  {
    if s[e - 1] == '\n' then None
    else if e + 2 > |s| then None
    else if s[e..e + 2] == ">>" then Some(e)
    else TagEnd(s, c, e + 1)
  }

  /** The end of the tag match starting at `p`, if there is one. */
  function MatchAt(s: string, p: nat): (r: Option<nat>)
    ensures r.Some? ==> p + 5 <= r.value <= |s| && s[p..p + 2] == "<<" && s[r.value - 2..r.value] == ">>"
    ensures r.Some? ==> forall k :: p + 2 <= k < r.value - 2 ==> s[k] != '\n'
  {
    if p + 3 <= |s| && s[p..p + 2] == "<<" then
      match TagEnd(s, p + 2, p + 3)
      case Some(e) => Some(e + 2)
      case None => None
    else None
  }

  /** `re.search` from position `from`: the leftmost match, as its start and end. */
  function NextMatch(s: string, from: nat): (r: Option<(nat, nat)>)
    ensures r.Some? ==> from <= r.value.0 && MatchAt(s, r.value.0) == Some(r.value.1)
    ensures r.None? ==> forall p :: from <= p ==> MatchAt(s, p).None?
    ensures r.Some? ==> forall p :: from <= p < r.value.0 ==> MatchAt(s, p).None?
    decreases |s| - from
  {
    if from >= |s| then
      assert forall p :: from <= p ==> MatchAt(s, p).None? by {
        forall p | from <= p
          ensures MatchAt(s, p).None?
        {
          assert !(p + 3 <= |s|);
        }
      }
      None
    else match MatchAt(s, from)
      case Some(end) => Some((from, end))
      case None => NextMatch(s, from + 1)
  }

  /** `re.search(tag_pattern, item)`. */
  predicate HasTag(s: string) {
    NextMatch(s, 0).Some?
  }

  /** `re.fullmatch(tag_pattern, w)`: the content of `w` when the whole of `w` is a tag. */
  function FullMatchTag(w: string): (r: Option<string>)
    ensures r.Some? ==> w == "<<" + r.value + ">>" && |r.value| > 0
    ensures r.Some? ==> forall k :: 0 <= k < |r.value| ==> r.value[k] != '\n'
  {
    if |w| >= 5 && w[..2] == "<<" && w[|w| - 2..] == ">>" && forall k :: 2 <= k < |w| - 2 ==> w[k] != '\n' then
      assert w == w[..2] + w[2..|w| - 2] + w[|w| - 2..];
      Some(w[2..|w| - 2])
    else None
  }

  /** A match, taken as a word, is a full match whose content is the tag's content. */
  lemma MatchIsTag(s: string, p: nat, end: nat)
    requires MatchAt(s, p) == Some(end)
    ensures FullMatchTag(s[p..end]) == Some(s[p + 2..end - 2])
  {
    var w := s[p..end];
    assert w[..2] == s[p..p + 2];
    assert w[|w| - 2..] == s[end - 2..end];
    assert forall k :: 2 <= k < |w| - 2 ==> w[k] == s[p + k];
    assert w[2..|w| - 2] == s[p + 2..end - 2];
  }

  // ---------------------------------------------------------------------------
  // `smart_split`

  /** The parts of `s` from position `last` on: the words of the text before each match,
      then the match itself as one part, then the words after the last match. */
  function SmartSplitFrom(s: string, last: nat): seq<string>
    requires last <= |s|
    decreases |s| - last
  {
    match NextMatch(s, last)
    case None => Split(s[last..])
    case Some((start, end)) => Split(s[last..start]) + [s[start..end]] + SmartSplitFrom(s, end)
  }

  /** `smart_split(item)`. */
  function SmartSplit(s: string): seq<string> {
    SmartSplitFrom(s, 0)
  }

  /** The contents of the successive matches of `s` from `last` on (what `finditer`
      yields as `group(1)`). */
  function MatchContents(s: string, last: nat): seq<string>
    requires last <= |s|
    decreases |s| - last
  {
    match NextMatch(s, last)
    case None => []
    case Some((start, end)) => [s[start + 2..end - 2]] + MatchContents(s, end)
  }

  /** The content of a part that is a whole tag, as a list of one. */
  function TagOf(w: string): seq<string> {
    match FullMatchTag(w)
    case Some(c) => [c]
    case None => []
  }

  /** A part that is not a whole tag, as a list of one. */
  function LiteralOf(w: string): seq<string> {
    if FullMatchTag(w).Some? then [] else [w]
  }

  /** The contents of the parts that are whole tags, in order. */
  function TagsOf(ws: seq<string>): seq<string> {
    if ws == [] then [] else TagOf(ws[0]) + TagsOf(ws[1..])
  }

  /** The parts that are not whole tags, in order. */
  function LiteralsOf(ws: seq<string>): seq<string> {
    if ws == [] then [] else LiteralOf(ws[0]) + LiteralsOf(ws[1..])
  }

  lemma {:induction false} TagsOfConcat(a: seq<string>, b: seq<string>)
    ensures TagsOf(a + b) == TagsOf(a) + TagsOf(b)
    ensures LiteralsOf(a + b) == LiteralsOf(a) + LiteralsOf(b)
    decreases |a|
  {
    if a != [] {
      assert (a + b)[0] == a[0];
      assert (a + b)[1..] == a[1..] + b;
      TagsOfConcat(a[1..], b);
      assert TagOf(a[0]) + (TagsOf(a[1..]) + TagsOf(b)) == (TagOf(a[0]) + TagsOf(a[1..])) + TagsOf(b);
      assert LiteralOf(a[0]) + (LiteralsOf(a[1..]) + LiteralsOf(b)) == (LiteralOf(a[0]) + LiteralsOf(a[1..])) + LiteralsOf(b);
    } else {
      assert a + b == b;
    }
  }

  /** None of the parts is a whole tag. */
  predicate NoTags(ws: seq<string>) {
    forall i :: 0 <= i < |ws| ==> FullMatchTag(ws[i]).None?
  }

  /** Parts that are not whole tags are all literal text. */
  lemma {:induction false} WordsHaveNoTag(ws: seq<string>)
    requires NoTags(ws)
    ensures TagsOf(ws) == [] && LiteralsOf(ws) == ws
    decreases |ws|
  {
    if ws != [] {
      WordsHaveNoTag(ws[1..]);
    }
  }

  /** The tags `smart_split` yields are exactly the contents of the successive matches,
      and its other parts are the words outside them. */
  lemma {:induction false} SmartSplitTags(s: string, last: nat)
    requires last <= |s|
    ensures TagsOf(SmartSplitFrom(s, last)) == MatchContents(s, last)
    ensures LiteralsOf(SmartSplitFrom(s, last)) == SmartSplitWords(s, last)
    decreases |s| - last
  {
    match NextMatch(s, last)
    case None =>
      NoMatchTags(s, last);
    case Some((start, end)) =>
      SmartSplitTags(s, end);
      MatchTagStep(s, last, start, end);
      MatchContentsStep(s, last, start, end);
      SmartSplitWordsStep(s, last, start, end);
  }

  /** The text after the last match is all words. */
  lemma NoMatchTags(s: string, last: nat)
    requires last <= |s| && NextMatch(s, last).None?
    ensures TagsOf(SmartSplitFrom(s, last)) == []
    ensures LiteralsOf(SmartSplitFrom(s, last)) == Split(s[last..])
  {
    NoTagWordsBefore(s, last, |s|);
    assert s[last..|s|] == s[last..];
    WordsHaveNoTag(Split(s[last..]));
  }

  /** One match of `SmartSplitTags`: the words before the match, then the match. */
  lemma MatchTagStep(s: string, last: nat, start: nat, end: nat)
    requires last <= start && NextMatch(s, last) == Some((start, end))
    ensures TagsOf(SmartSplitFrom(s, last)) == [s[start + 2..end - 2]] + TagsOf(SmartSplitFrom(s, end))
    ensures LiteralsOf(SmartSplitFrom(s, last)) == Split(s[last..start]) + LiteralsOf(SmartSplitFrom(s, end))
  {
    var pre := Split(s[last..start]);
    SmartSplitStep(s, last, start, end);
    NoTagWordsBefore(s, last, start);
    MatchIsTag(s, start, end);
    PartsStep(pre, s[start..end], s[start + 2..end - 2], SmartSplitFrom(s, end));
  }

  // The three views of the text from `last` on, one match further (kept apart: together
  // they cost the solver far more than one at a time).

  lemma SmartSplitStep(s: string, last: nat, start: nat, end: nat)
    requires last <= start && NextMatch(s, last) == Some((start, end))
    ensures SmartSplitFrom(s, last) == Split(s[last..start]) + [s[start..end]] + SmartSplitFrom(s, end)
  {
  }

  lemma MatchContentsStep(s: string, last: nat, start: nat, end: nat)
    requires last <= start && NextMatch(s, last) == Some((start, end))
    ensures MatchContents(s, last) == [s[start + 2..end - 2]] + MatchContents(s, end)
  {
  }

  lemma SmartSplitWordsStep(s: string, last: nat, start: nat, end: nat)
    requires last <= start && NextMatch(s, last) == Some((start, end))
    ensures SmartSplitWords(s, last) == Split(s[last..start]) + SmartSplitWords(s, end)
  {
  }

  /** Words without tags, then one tag, then the rest. */
  lemma PartsStep(pre: seq<string>, m: string, c: string, rest: seq<string>)
    requires NoTags(pre) && FullMatchTag(m) == Some(c)
    ensures TagsOf(pre + [m] + rest) == [c] + TagsOf(rest)
    ensures LiteralsOf(pre + [m] + rest) == pre + LiteralsOf(rest)
  {
    WordsHaveNoTag(pre);
    TagsOfConcat(pre + [m], rest);
    TagsOfConcat(pre, [m]);
    var single := [m];
    assert single[1..] == [];
    assert TagsOf(single) == [c] by {
      assert TagsOf(single) == TagOf(m) + TagsOf([]);
    }
    assert LiteralsOf(single) == [] by {
      assert LiteralsOf(single) == LiteralOf(m) + LiteralsOf([]);
    }
    assert TagsOf(pre + single) == [c];
    assert LiteralsOf(pre + single) == pre;
  }

  /** The words of the text outside the matches, from `last` on. */
  function SmartSplitWords(s: string, last: nat): seq<string>
    requires last <= |s|
    decreases |s| - last
  {
    match NextMatch(s, last)
    case None => Split(s[last..])
    case Some((start, end)) => Split(s[last..start]) + SmartSplitWords(s, end)
  }

  lemma {:induction false} SmartSplitWordsAreWords(s: string, last: nat)
    requires last <= |s|
    ensures AllWords(SmartSplitWords(s, last))
    decreases |s| - last
  {
    match NextMatch(s, last)
    case None =>
    case Some((start, end)) =>
      SmartSplitWordsAreWords(s, end);
  }

  // ---------------------------------------------------------------------------
  // `extract_tags_and_others`

  /** The runs of consecutive non-tag parts of `ws`, with `cur` the run in progress: the
      `current_chunk` of the loop over `words`. */
  function Chunks(ws: seq<string>, cur: seq<string>): seq<seq<string>> {
    if ws == [] then (if cur != [] then [cur] else [])
    else if FullMatchTag(ws[0]).Some? then (if cur != [] then [cur] else []) + Chunks(ws[1..], [])
    else Chunks(ws[1..], cur + [ws[0]])
  }

  /** The runs hold every non-tag part once, in order, and none of them is empty. */
  lemma {:induction false} ChunksFlatten(ws: seq<string>, cur: seq<string>)
    ensures Flatten(Chunks(ws, cur)) == cur + LiteralsOf(ws)
    ensures forall i :: 0 <= i < |Chunks(ws, cur)| ==> Chunks(ws, cur)[i] != []
    decreases |ws|
  {
    if ws == [] {
      assert Flatten([cur]) == cur + Flatten([]);
    } else if FullMatchTag(ws[0]).Some? {
      ChunksFlatten(ws[1..], []);
      var rest := Chunks(ws[1..], []);
      if cur != [] {
        assert ([cur] + rest)[1..] == rest;
        assert Flatten([cur] + rest) == cur + Flatten(rest);
      } else {
        assert [] + rest == rest;
      }
    } else {
      ChunksFlatten(ws[1..], cur + [ws[0]]);
    }
  }

  /** The `others` of one alternative: each run re-joined with single spaces, or `[None]`
      when there is no literal text. */
  function OthersOf(chunks: seq<seq<string>>): (others: seq<Option<string>>)
    ensures chunks == [] ==> others == [None]
    ensures chunks != [] ==> |others| == |chunks| && forall i :: 0 <= i < |chunks| ==> others[i] == Some(Join(chunks[i]))
  {
    if chunks == [] then [None] else seq(|chunks|, i requires 0 <= i < |chunks| => Some(Join(chunks[i])))
  }

  /** The text of a list of optional chunks, split into words: what re-splitting the
      literal parts of an alternative gives. */
  function OthersWords(others: seq<Option<string>>): seq<string> {
    if others == [] then []
    else (match others[0] case Some(o) => Split(o) case None => []) + OthersWords(others[1..])
  }

  lemma {:induction false} OthersWordsOfChunks(chunks: seq<seq<string>>)
    requires forall i :: 0 <= i < |chunks| ==> AllWords(chunks[i])
    ensures OthersWords(OthersOf(chunks)) == Flatten(chunks)
    decreases |chunks|
  {
    if chunks != [] {
      var others := OthersOf(chunks);
      SplitJoinWords(chunks[0]);
      if |chunks| > 1 {
        OthersWordsOfChunks(chunks[1..]);
        assert others[1..] == OthersOf(chunks[1..]);
      } else {
        assert others[1..] == [];
      }
    }
  }

  /** One alternative: its tag contents and its literal chunks. */
  function ExtractItem(item: string): (r: (seq<string>, seq<Option<string>>))
    ensures !HasTag(item) ==> r == ([], [Some(item)])
    ensures HasTag(item) ==> r.0 == TagsOf(SmartSplit(item))
    ensures HasTag(item) ==> (r.1 == [None] <==> LiteralsOf(SmartSplit(item)) == [])
  {
    if HasTag(item) then
      var words := SmartSplit(item);
      var chunks := Chunks(words, []);
      ChunksFlatten(words, []);
      assert chunks == [] ==> LiteralsOf(words) == [];
      assert chunks != [] ==> Flatten(chunks) != [] by {
        if chunks != [] {
          assert Flatten(chunks) == chunks[0] + Flatten(chunks[1..]);
        }
      }
      (TagsOf(words), OthersOf(chunks))
    else ([], [Some(item)])
  }

  /** A whole tag standing anywhere in `s` is found by a search started at its position. */
  lemma TagWordMatches(s: string, q: nat, w: string)
    requires q + |w| <= |s| && s[q..q + |w|] == w && FullMatchTag(w).Some?
    ensures MatchAt(s, q).Some?
  {
    var k := q + |w| - 2;
    assert s[q..q + 2] == w[..2];
    assert s[k..k + 2] == w[|w| - 2..];
    assert CloseAt(s, k);
    assert forall i :: q + 2 <= i < k ==> s[i] == w[i - q];
  }

  /** No word of the text stretch `s[last..stop]`, where no match starts, is itself a
      tag: the leftmost search would have found it first. */
  lemma NoTagWordsBefore(s: string, last: nat, stop: nat)
    requires last <= stop <= |s|
    requires forall p :: last <= p < stop ==> MatchAt(s, p).None?
    ensures NoTags(Split(s[last..stop]))
  {
    var t := s[last..stop];
    var ws := Split(t);
    SplitWordsOccur(t);
    forall i | 0 <= i < |ws|
      ensures FullMatchTag(ws[i]).None?
    {
      var w := ws[i];
      assert w in ws;
      var q: nat :| OccursAt(t, w, q);
      OccursInSlice(s, last, stop, w, q);
      if FullMatchTag(w).Some? {
        TagWordMatches(s, last + q, w);
      }
    }
  }

  /** In a tagged alternative the tags are the contents of the successive matches, in
      order, and the literal text, re-split into words, is the sequence of the words
      outside the matches. */
  lemma ExtractedParts(item: string)
    requires HasTag(item)
    ensures ExtractItem(item).0 == MatchContents(item, 0)
    ensures OthersWords(ExtractItem(item).1) == SmartSplitWords(item, 0)
  {
    var words := SmartSplit(item);
    SmartSplitTags(item, 0);
    SmartSplitWordsAreWords(item, 0);
    var chunks := Chunks(words, []);
    ChunksFlatten(words, []);
    ChunkWords(words, []);
    OthersWordsOfChunks(chunks);
  }

  lemma {:induction false} ChunkWords(ws: seq<string>, cur: seq<string>)
    requires AllWords(cur) && AllWords(LiteralsOf(ws))
    ensures forall i :: 0 <= i < |Chunks(ws, cur)| ==> AllWords(Chunks(ws, cur)[i])
    decreases |ws|
  {
    if ws != [] {
      var head := LiteralOf(ws[0]);
      assert LiteralsOf(ws) == head + LiteralsOf(ws[1..]);
      assert forall i :: 0 <= i < |LiteralsOf(ws[1..])| ==> LiteralsOf(ws[1..])[i] == LiteralsOf(ws)[|head| + i];
      if FullMatchTag(ws[0]).Some? {
        ChunkWords(ws[1..], []);
      } else {
        assert IsWord(LiteralsOf(ws)[0]);
        ChunkWords(ws[1..], cur + [ws[0]]);
      }
    }
  }

  /** `extract_tags_and_others(rhs_list)`: one entry of each list per alternative. */
  function ExtractTagsAndOthers(rhs: seq<string>): (r: (seq<seq<string>>, seq<seq<Option<string>>>))
    ensures |r.0| == |rhs| && |r.1| == |rhs|
    ensures forall i {:trigger r.0[i]} :: 0 <= i < |rhs| ==> r.0[i] == ExtractItem(rhs[i]).0
    ensures forall i {:trigger r.1[i]} :: 0 <= i < |rhs| ==> r.1[i] == ExtractItem(rhs[i]).1
  {
    (seq(|rhs|, i requires 0 <= i < |rhs| => ExtractItem(rhs[i]).0),
     seq(|rhs|, i requires 0 <= i < |rhs| => ExtractItem(rhs[i]).1))
  }
}
