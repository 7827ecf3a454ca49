/** The names of the position-indexed generator of scripts/grammar_generation.py: a
    capital letter for the level, a decimal index and a run of apostrophes, as
    `generate_non_terminals` builds them, and the string tests `generate_grammar` applies
    to them (`extract_number`, `sort_key`, `is_consecutive_transition`, Python's string
    order and the `^A\d+'*$` pattern). */
module LegacyNames {
  import opened Wrappers
  import opened Text

  predicate IsUpper(c: char) { 'A' <= c <= 'Z' }

  /** `vocab[l]`, the letter of level `l`. */
  function Letter(l: nat): (c: char)
    requires l < 26
    ensures IsUpper(c) && (c as int) - ('A' as int) == l
  {
    (('A' as int) + l) as char
  }

  /** `"'" * count`, where a `count` of None means 0 and a negative one gives "". */
  function Primes(count: Option<int>): (s: string)
    ensures forall i :: 0 <= i < |s| ==> s[i] == '\''
    ensures |s| == match count case None => 0 case Some(c) => if c < 0 then 0 else c
  {
    match count
    case None => ""
    case Some(c) => seq(if c < 0 then 0 else c, _ => '\'')
  }

  /** `f"{vocab[l]}{i}" + "'" * count`. */
  function Name(l: nat, i: nat, count: Option<int>): string
    requires l < 26
  {
    [Letter(l)] + NatToString(i) + Primes(count)
  }

  /** `''.join(filter(str.isdigit, s))`. */
  function DigitsIn(s: string): (r: string)
    ensures AllDigits(r) && |r| <= |s|
  {
    if s == [] then []
    else DigitsIn(s[..|s| - 1]) + (if IsDigit(s[|s| - 1]) then [s[|s| - 1]] else [])
  }

  lemma {:induction false} DigitsInConcat(a: string, b: string)
    ensures DigitsIn(a + b) == DigitsIn(a) + DigitsIn(b)
    decreases |b|
  {
    if b == [] {
      assert a + b == a;
    } else {
      assert (a + b)[..|a + b| - 1] == a + b[..|b| - 1];
      DigitsInConcat(a, b[..|b| - 1]);
    }
  }

  lemma {:induction false} DigitsInDigits(s: string)
    requires AllDigits(s)
    ensures DigitsIn(s) == s
  {
    if s != [] {
      DigitsInDigits(s[..|s| - 1]);
    }
  }

  lemma {:induction false} DigitsInNone(s: string)
    requires forall i :: 0 <= i < |s| ==> !IsDigit(s[i])
    ensures DigitsIn(s) == []
  {
    if s != [] {
      DigitsInNone(s[..|s| - 1]);
    }
  }

  /** `int(''.join(filter(str.isdigit, nt[1:])))`: the digits after the first character,
      read as a number; `int('')` raises `ValueError`. */
  function NameNumber(nt: string): (r: Result<nat, string>)
    ensures r.Success? <==> |nt| > 1 && DigitsIn(nt[1..]) != []
  {
    var ds := if nt == [] then [] else DigitsIn(nt[1..]);
    if ds == [] then Failure("ValueError: invalid literal for int()") else Success(DigitsValue(ds))
  }

  /** The index of a generated name is read back from it. */
  lemma NameNumberOfName(l: nat, i: nat, count: Option<int>)
    requires l < 26
    ensures NameNumber(Name(l, i, count)) == Success(i)
    ensures Name(l, i, count)[0] == Letter(l)
  {
    var nt := Name(l, i, count);
    assert nt[1..] == NatToString(i) + Primes(count);
    DigitsInConcat(NatToString(i), Primes(count));
    DigitsInDigits(NatToString(i));
    DigitsInNone(Primes(count));
    assert DigitsIn(nt[1..]) == NatToString(i);
    DigitsValueOfNat(i);
  }

  /** Different levels or indices give different names. */
  lemma NameInjective(l: nat, i: nat, m: nat, j: nat, count: Option<int>)
    requires l < 26 && m < 26 && Name(l, i, count) == Name(m, j, count)
    ensures l == m && i == j
  {
    NameNumberOfName(l, i, count);
    NameNumberOfName(m, j, count);
  }

  /** The longest run of digits at the start of `s`. */
  function LeadingDigits(s: string): (r: string)
    ensures AllDigits(r) && |r| <= |s| && r == s[..|r|]
    ensures |r| < |s| ==> !IsDigit(s[|r|])
  {
    if s == [] || !IsDigit(s[0]) then [] else [s[0]] + LeadingDigits(s[1..])
  }

  /** `extract_number(nt)`: `re.match(r'[A-Z](\d+)', nt)` needs a capital letter and at
      least one digit at the start; the number is the whole run of digits after the
      letter. Otherwise `ValueError`. */
  function ExtractNumber(nt: string): (r: Result<nat, string>)
    ensures r.Success? <==> |nt| >= 2 && IsUpper(nt[0]) && IsDigit(nt[1])
  {
    if |nt| >= 2 && IsUpper(nt[0]) && IsDigit(nt[1]) then Success(DigitsValue(LeadingDigits(nt[1..])))
    else Failure("ValueError: Formato non valido per simbolo")
  }

  /** `extract_number` reads back the index of a generated name. */
  lemma ExtractNumberOfName(l: nat, i: nat, count: Option<int>)
    requires l < 26
    ensures ExtractNumber(Name(l, i, count)) == Success(i)
  {
    var nt := Name(l, i, count);
    var ds := NatToString(i);
    assert nt[1..] == ds + Primes(count);
    LeadingDigitsOf(ds, Primes(count));
    DigitsValueOfNat(i);
  }

  lemma {:induction false} LeadingDigitsOf(ds: string, rest: string)
    requires AllDigits(ds) && (rest == [] || !IsDigit(rest[0]))
    ensures LeadingDigits(ds + rest) == ds
    decreases |ds|
  {
    if ds != [] {
      assert (ds + rest)[1..] == ds[1..] + rest;
      LeadingDigitsOf(ds[1..], rest);
    }
  }

  /** `sort_key(nt)`: `(number, letter)`; an empty name raises `IndexError` and one
      without digits after its first character `ValueError`. */
  function SortKey(nt: string): (r: Result<(nat, char), string>)
    ensures r.Success? <==> |nt| > 1 && DigitsIn(nt[1..]) != []
    ensures r.Success? ==> r.value.1 == nt[0] && Success(r.value.0) == NameNumber(nt)
  {
    if nt == [] then Failure("IndexError: string index out of range")
    else match NameNumber(nt)
      case Failure(e) => Failure(e)
      case Success(n) => Success((n, nt[0]))
  }

  /** The integer order of `sort_key` tuples: the number first, then the letter. */
  function SortRank(nt: string): int {
    match SortKey(nt)
    case Success((n, c)) => n * 0x11_0000 + c as int
    case Failure(_) => 0
  }

  /** Ranks compare as the `(number, letter)` tuples do. */
  lemma SortRankOrder(a: string, b: string)
    requires SortKey(a).Success? && SortKey(b).Success?
    ensures var (n, c) := SortKey(a).value;
      var (m, d) := SortKey(b).value;
      SortRank(a) <= SortRank(b) <==> n < m || (n == m && c <= d)
  {
    var (n, c) := SortKey(a).value;
    var (m, d) := SortKey(b).value;
    assert 0 <= c as int < 0x11_0000 && 0 <= d as int < 0x11_0000;
    if n < m {
      assert n * 0x11_0000 + 0x11_0000 <= m * 0x11_0000;
    } else if m < n {
      assert m * 0x11_0000 + 0x11_0000 <= n * 0x11_0000;
    }
  }

  /** `is_consecutive_transition(c, n)`: same letter and the number one higher; the
      number parse fails as in `sort_key`. */
  function IsConsecutiveTransition(c: string, n: string): (r: Result<bool, string>)
    ensures r.Success? <==> SortKey(c).Success? && SortKey(n).Success?
    ensures r.Success? ==> (r.value <==> c[0] == n[0] && SortKey(n).value.0 == SortKey(c).value.0 + 1)
  {
    match (SortKey(c), SortKey(n))
    case (Success((cn, cl)), Success((nn, nl))) => Success(cl == nl && nn == cn + 1)
    case (Failure(e), _) => Failure(e)
    case (_, Failure(e)) => Failure(e)
  }

  /** On generated names: the level is the same and the index one higher. */
  lemma ConsecutiveNames(l: nat, i: nat, m: nat, j: nat, count: Option<int>)
    requires l < 26 && m < 26
    ensures IsConsecutiveTransition(Name(l, i, count), Name(m, j, count)) == Success(l == m && j == i + 1)
  {
    NameNumberOfName(l, i, count);
    NameNumberOfName(m, j, count);
  }

  /** Python's `a < b` on strings: code point by code point, a proper prefix first. */
  function StrLess(a: string, b: string): bool
    decreases |a|
  {
    if b == [] then false
    else if a == [] then true
    else if a[0] != b[0] then a[0] < b[0]
    else StrLess(a[1..], b[1..])
  }

  lemma {:induction false} StrLessIrreflexive(a: string)
    ensures !StrLess(a, a)
    decreases |a|
  {
    if a != [] {
      StrLessIrreflexive(a[1..]);
    }
  }

  /** The order is total: of two different strings one is smaller. */
  lemma {:induction false} StrLessTotal(a: string, b: string)
    requires a != b
    ensures StrLess(a, b) != StrLess(b, a)
    decreases |a|
  {
    if a != [] && b != [] && a[0] == b[0] {
      assert a == [a[0]] + a[1..] && b == [b[0]] + b[1..];
      StrLessTotal(a[1..], b[1..]);
    }
  }

  lemma {:induction false} StrLessTransitive(a: string, b: string, c: string)
    requires StrLess(a, b) && StrLess(b, c)
    ensures StrLess(a, c)
    decreases |a|
  {
    if a != [] && a[0] == b[0] && b[0] == c[0] {
      StrLessTransitive(a[1..], b[1..], c[1..]);
    }
  }

  predicate IsPrimes(s: string) {
    forall i :: 0 <= i < |s| ==> s[i] == '\''
  }

  /** `re.match(r"^A\d+'*$", nt)`: "A", one digit or more, apostrophes, and the end of
      the string, where Python's `$` also matches before one final newline. */
  predicate IsInitialName(nt: string) {
    var body := if |nt| > 0 && nt[|nt| - 1] == '\n' then nt[..|nt| - 1] else nt;
    |body| >= 2 && body[0] == 'A' && IsDigit(body[1])
    && var ds := LeadingDigits(body[1..]);
       IsPrimes(body[1 + |ds|..])
  }

  /** The generated names that pass `^A\d+'*$` are exactly those of level 0. */
  lemma InitialNames(l: nat, i: nat, count: Option<int>)
    requires l < 26
    ensures IsInitialName(Name(l, i, count)) <==> l == 0
  {
    var nt := Name(l, i, count);
    var ds := NatToString(i);
    assert nt[|nt| - 1] != '\n' by {
      if |Primes(count)| > 0 {
        assert nt[|nt| - 1] == Primes(count)[|Primes(count)| - 1];
      } else {
        assert nt[|nt| - 1] == ds[|ds| - 1];
      }
    }
    assert nt[1..] == ds + Primes(count);
    LeadingDigitsOf(ds, Primes(count));
    assert nt[1 + |ds|..] == Primes(count);
  }
}
