/** String helpers with the exact meaning of the Python built-ins the grammar compiler
    relies on: `str.split()` with no argument, `' '.join(...)`, `str(n)` for a natural
    number, `int(...)` of a digit string, and the part of a name after its last `_`. */
module Text {

  /** The characters for which Python's `str.isspace()` holds, i.e. the separators of
      `str.split()` with no argument. */
  predicate IsSpace(c: char) {
    c == ' ' || c == '\t' || c == '\n' || c == '\r' || c == '\U{B}' || c == '\U{C}'
    || c == '\U{1C}' || c == '\U{1D}' || c == '\U{1E}' || c == '\U{1F}'
    || c == '\U{85}' || c == '\U{A0}' || c == '\U{1680}'
    || ('\U{2000}' <= c <= '\U{200A}')
    || c == '\U{2028}' || c == '\U{2029}' || c == '\U{202F}' || c == '\U{205F}' || c == '\U{3000}'
  }

  /** A word, as `str.split()` produces them: non-empty and free of separators. */
  predicate IsWord(w: string) {
    |w| > 0 && forall i :: 0 <= i < |w| ==> !IsSpace(w[i])
  }

  predicate AllWords(ws: seq<string>) {
    forall i :: 0 <= i < |ws| ==> IsWord(ws[i])
  }

  /** The longest prefix of `s` that holds no separator. */
  function TakeWord(s: string): (w: string)
    ensures |w| <= |s| && w == s[..|w|]
    ensures forall i :: 0 <= i < |w| ==> !IsSpace(s[i])
    ensures |w| < |s| ==> IsSpace(s[|w|])
  {
    if s == [] || IsSpace(s[0]) then [] else [s[0]] + TakeWord(s[1..])
  }

  /** Python's `s.split()`: the maximal runs of non-separator characters, in order. */
  function Split(s: string): (ws: seq<string>)
    ensures AllWords(ws)
    decreases |s|
  {
    if s == [] then []
    else if IsSpace(s[0]) then Split(s[1..])
    else
      var w := TakeWord(s);
      [w] + Split(s[|w|..])
  }

  /** Python's `' '.join(ws)`. */
  function Join(ws: seq<string>): string {
    if ws == [] then ""
    else if |ws| == 1 then ws[0]
    else ws[0] + " " + Join(ws[1..])
  }

  /** Concatenation of a sequence of word lists. */
  function Flatten(wss: seq<seq<string>>): seq<string> {
    if wss == [] then [] else wss[0] + Flatten(wss[1..])
  }

  /** A separator splits a string into two independent halves. */
  lemma {:induction false} SplitAroundSpace(a: string, c: char, b: string)
    requires IsSpace(c)
    ensures Split(a + [c] + b) == Split(a) + Split(b)
    decreases |a|
  {
    var s := a + [c] + b;
    if a == [] {
      assert s[1..] == b;
    } else if IsSpace(a[0]) {
      assert s[1..] == a[1..] + [c] + b;
      SplitAroundSpace(a[1..], c, b);
    } else {
      var w := TakeWord(a);
      TakeWordStops(a, [c] + b);
      assert a + [c] + b == a + ([c] + b);
      assert TakeWord(s) == w;
      assert s[|w|..] == a[|w|..] + [c] + b;
      SplitAroundSpace(a[|w|..], c, b);
    }
  }

  lemma {:induction false} TakeWordStops(a: string, rest: string)
    requires rest != [] && IsSpace(rest[0])
    ensures TakeWord(a + rest) == TakeWord(a)
    decreases |a|
  {
    if a == [] {
      assert a + rest == rest;
    } else if !IsSpace(a[0]) {
      assert (a + rest)[1..] == a[1..] + rest;
      TakeWordStops(a[1..], rest);
    }
  }

  lemma {:induction false} SplitOfWord(w: string)
    requires IsWord(w)
    ensures Split(w) == [w]
  {
    assert TakeWord(w) == w by { TakeWordWhole(w); }
    assert w[|w|..] == [];
  }

  lemma {:induction false} TakeWordWhole(w: string)
    requires forall i :: 0 <= i < |w| ==> !IsSpace(w[i])
    ensures TakeWord(w) == w
    decreases |w|
  {
    if w != [] { TakeWordWhole(w[1..]); }
  }

  /** `' '.join(ws).split()` is the concatenation of the words' own splits. */
  lemma {:induction false} SplitJoin(ws: seq<string>)
    ensures Split(Join(ws)) == Flatten(seq(|ws|, i requires 0 <= i < |ws| => Split(ws[i])))
    decreases |ws|
  {
    var parts := seq(|ws|, i requires 0 <= i < |ws| => Split(ws[i]));
    if ws == [] {
    } else if |ws| == 1 {
      assert parts == [Split(ws[0])];
      assert Flatten(parts) == Split(ws[0]) + Flatten([]);
    } else {
      SplitAroundSpace(ws[0], ' ', Join(ws[1..]));
      assert Join(ws) == ws[0] + [' '] + Join(ws[1..]);
      SplitJoin(ws[1..]);
      assert parts[1..] == seq(|ws[1..]|, i requires 0 <= i < |ws[1..]| => Split(ws[1..][i]));
    }
  }

  /** Joining words with single spaces and splitting again gives the words back. */
  lemma {:induction false} SplitJoinWords(ws: seq<string>)
    requires AllWords(ws)
    ensures Split(Join(ws)) == ws
    decreases |ws|
  {
    if ws == [] {
    } else if |ws| == 1 {
      SplitOfWord(ws[0]);
    } else {
      SplitJoinWords(ws[1..]);
      SplitJoinStep(ws[0], ws[1..]);
      assert ws == [ws[0]] + ws[1..];
    }
  }

  /** One more word in front of a list that splits back. */
  lemma SplitJoinStep(w: string, rest: seq<string>)
    requires IsWord(w) && rest != [] && Split(Join(rest)) == rest
    ensures Split(Join([w] + rest)) == [w] + rest
  {
    var ws := [w] + rest;
    assert ws[0] == w && ws[1..] == rest;
    assert Join(ws) == w + [' '] + Join(rest);
    SplitAroundSpace(w, ' ', Join(rest));
    SplitOfWord(w);
  }

  /** `w` stands in `s` at position `q`. */
  predicate OccursAt(s: string, w: string, q: nat) {
    q + |w| <= |s| && s[q..q + |w|] == w
  }

  /** What stands in a slice of `s` stands in `s`, shifted by the slice's start. */
  lemma OccursInSlice(s: string, a: nat, b: nat, w: string, q: nat)
    requires a <= b <= |s| && OccursAt(s[a..b], w, q)
    ensures OccursAt(s, w, a + q)
  {
    var x, y := s[a..b][q..q + |w|], s[a + q..a + q + |w|];
    assert forall j :: 0 <= j < |w| ==> x[j] == y[j];
  }

  /** Every word of `s.split()` stands somewhere in `s`. */
  lemma {:induction false} SplitWordsOccur(s: string)
    ensures forall w :: w in Split(s) ==> exists q: nat :: OccursAt(s, w, q)
    decreases |s|
  {
    if s == [] {
    } else if IsSpace(s[0]) {
      SplitWordsOccur(s[1..]);
      forall w | w in Split(s[1..])
        ensures exists q: nat :: OccursAt(s, w, q)
      {
        var q: nat :| OccursAt(s[1..], w, q);
        assert s[q + 1..q + 1 + |w|] == w;
        assert OccursAt(s, w, q + 1);
      }
    } else {
      var w0 := TakeWord(s);
      var rest := s[|w0|..];
      SplitWordsOccur(rest);
      assert OccursAt(s, w0, 0);
      forall w | w in Split(rest)
        ensures exists q: nat :: OccursAt(s, w, q)
      {
        var q: nat :| OccursAt(rest, w, q);
        assert s[|w0| + q..|w0| + q + |w|] == w;
        assert OccursAt(s, w, |w0| + q);
      }
    }
  }

  /** `f"{a} {b}".split()` for two words. */
  lemma SplitPair(a: string, b: string)
    requires IsWord(a) && IsWord(b)
    ensures Split(a + " " + b) == [a, b]
  {
    SplitJoinWords([a, b]);
    assert Join([a, b]) == a + " " + Join([b]);
  }

  // ---------------------------------------------------------------------------
  // Decimal numerals: str(n) and int(digits)

  predicate IsDigit(c: char) { '0' <= c <= '9' }

  predicate AllDigits(s: string) {
    forall i :: 0 <= i < |s| ==> IsDigit(s[i])
  }

  function DigitChar(d: nat): (c: char)
    requires d < 10
    ensures IsDigit(c) && (c as int) - ('0' as int) == d
  {
    (('0' as int) + d) as char
  }

  /** Python's `str(n)` for a natural number. */
  function NatToString(n: nat): (s: string)
    ensures |s| > 0 && AllDigits(s)
    ensures n < 10 <==> |s| == 1
  {
    if n < 10 then [DigitChar(n)] else NatToString(n / 10) + [DigitChar(n % 10)]
  }

  /** Python's `int(s)` for a string made of ASCII digits only. */
  function DigitsValue(s: string): nat
    requires AllDigits(s)
  {
    if s == [] then 0
    else 10 * DigitsValue(s[..|s| - 1]) + ((s[|s| - 1] as int) - ('0' as int))
  }

  lemma {:induction false} DigitsValueOfNat(n: nat)
    ensures DigitsValue(NatToString(n)) == n
  {
    var s := NatToString(n);
    if n >= 10 {
      DigitsValueOfNat(n / 10);
      assert s[..|s| - 1] == NatToString(n / 10);
    }
  }

  /** Different numbers are printed differently. */
  lemma NatToStringInjective(m: nat, n: nat)
    requires NatToString(m) == NatToString(n)
    ensures m == n
  {
    DigitsValueOfNat(m);
    DigitsValueOfNat(n);
  }

  // ---------------------------------------------------------------------------
  // The segment after the last underscore of a name

  /** The text after the last `_` of `s`, or None when `s` holds no `_`. */
  function AfterLastUnderscore(s: string): (r: Option<string>)
    ensures r.Some? ==> exists k :: 0 <= k < |s| && s[k] == '_' && r.value == s[k + 1..]
    ensures r.Some? ==> forall i :: 0 <= i < |r.value| ==> r.value[i] != '_'
    ensures r.None? ==> forall i :: 0 <= i < |s| ==> s[i] != '_'
  {
    if s == [] then None
    else if s[|s| - 1] == '_' then Some([])
    else match AfterLastUnderscore(s[..|s| - 1])
      case None => None
      case Some(t) => Some(t + [s[|s| - 1]])
  }

  lemma {:induction false} AfterLastUnderscoreOf(a: string, b: string)
    requires forall i :: 0 <= i < |b| ==> b[i] != '_'
    ensures AfterLastUnderscore(a + "_" + b) == Some(b)
    decreases |b|
  {
    var s := a + "_" + b;
    if b == [] {
      assert s[|s| - 1] == '_';
    } else {
      assert s[..|s| - 1] == a + "_" + b[..|b| - 1];
      AfterLastUnderscoreOf(a, b[..|b| - 1]);
      assert b[..|b| - 1] + [b[|b| - 1]] == b;
    }
  }

  /** `a + "_" + b == c + "_" + d` with `b`, `d` free of `_` splits both sides alike. */
  lemma UnderscoreSplitUnique(a: string, b: string, c: string, d: string)
    requires forall i :: 0 <= i < |b| ==> b[i] != '_'
    requires forall i :: 0 <= i < |d| ==> d[i] != '_'
    requires a + "_" + b == c + "_" + d
    ensures a == c && b == d
  {
    AfterLastUnderscoreOf(a, b);
    AfterLastUnderscoreOf(c, d);
    assert b == d;
    var s := a + "_" + b;
    assert a == s[..|a|];
    assert c == s[..|c|];
  }

  import opened Wrappers
}
