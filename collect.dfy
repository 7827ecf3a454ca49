/** The sets a nested loop collects: for each key of a list, in order, and each entry
    of its row, the set `g` gives for the pair. A loop invariant names the part
    collected so far: the keys before `i` in full, and the entries `done` of the
    current key `cur`. */
module Collect {

  ghost function Part<K, P, E>(keys: seq<K>, rows: K -> seq<P>, g: (K, P) -> set<E>,
                               i: nat, cur: K, done: seq<P>): set<E>
    requires i <= |keys|
  {
    set k, p, e | k in keys && p in rows(k) && e in g(k, p) && (k in keys[..i] || (k == cur && p in done)) :: e
  }

  ghost function Whole<K, P, E>(keys: seq<K>, rows: K -> seq<P>, g: (K, P) -> set<E>): set<E> {
    set k, p, e | k in keys && p in rows(k) && e in g(k, p) :: e
  }

  /** What the whole loop collects, element by element. */
  lemma WholeIntro<K, P, E>(keys: seq<K>, rows: K -> seq<P>, g: (K, P) -> set<E>, k: K, p: P, e: E)
    requires k in keys && p in rows(k) && e in g(k, p)
    ensures e in Whole(keys, rows, g)
  {
  }

  lemma WholeElim<K, P, E>(keys: seq<K>, rows: K -> seq<P>, g: (K, P) -> set<E>, e: E)
    requires e in Whole(keys, rows, g)
    ensures exists k, p :: k in keys && p in rows(k) && e in g(k, p)
  {
  }

  /** Only the keys that occur matter, not their order or repeats. */
  lemma WholeSameKeys<K, P, E>(keys: seq<K>, keys': seq<K>, rows: K -> seq<P>, g: (K, P) -> set<E>)
    requires forall k :: k in keys <==> k in keys'
    ensures Whole(keys, rows, g) == Whole(keys', rows, g)
  {
  }

  /** One more entry of the current key. */
  lemma PartStep<K, P, E>(keys: seq<K>, rows: K -> seq<P>, g: (K, P) -> set<E>,
                          i: nat, cur: K, done: seq<P>, x: P)
    requires i <= |keys| && cur in keys && x in rows(cur)
    ensures Part(keys, rows, g, i, cur, done + [x]) == Part(keys, rows, g, i, cur, done) + g(cur, x)
  {
    var A := Part(keys, rows, g, i, cur, done + [x]);
    var B := Part(keys, rows, g, i, cur, done);
    forall y | y in A
      ensures y in B || y in g(cur, x)
    {
      var k, p :| k in keys && p in rows(k) && y in g(k, p) && (k in keys[..i] || (k == cur && p in done + [x]));
      if k == cur && p != x {
        assert p in done + [x] ==> p in done;
      }
    }
    forall y | y in g(cur, x)
      ensures y in A
    {
      assert x in done + [x];
    }
  }

  /** A loop that adds `g(cur, s[j])` to what it has collected keeps the invariant. */
  lemma PartAdd<K, P, E>(keys: seq<K>, rows: K -> seq<P>, g: (K, P) -> set<E>,
                         i: nat, cur: K, s: seq<P>, j: nat, base: set<E>, before: set<E>, after: set<E>)
    requires i <= |keys| && cur in keys && s == rows(cur) && j < |s|
    requires before == base + Part(keys, rows, g, i, cur, s[..j])
    requires after == before + g(cur, s[j])
    ensures after == base + Part(keys, rows, g, i, cur, s[..j + 1])
  {
    assert s[..j + 1] == s[..j] + [s[j]];
    PartStep(keys, rows, g, i, cur, s[..j], s[j]);
  }

  /** Past the key `keys[i]` once all its entries are done, or when none of them gives
      anything. */
  lemma PartNext<K, P, E>(keys: seq<K>, rows: K -> seq<P>, g: (K, P) -> set<E>,
                          i: nat, done: seq<P>, cur': K)
    requires i < |keys|
    requires done == rows(keys[i]) || (done == [] && forall p :: p in rows(keys[i]) ==> g(keys[i], p) == {})
    ensures Part(keys, rows, g, i, keys[i], done) == Part(keys, rows, g, i + 1, cur', [])
  {
    assert keys[..i + 1] == keys[..i] + [keys[i]];
  }

  /** Starting a key adds nothing. */
  lemma PartStart<K, P, E>(keys: seq<K>, rows: K -> seq<P>, g: (K, P) -> set<E>,
                           i: nat, cur: K, cur': K)
    requires i <= |keys|
    ensures Part(keys, rows, g, i, cur, []) == Part(keys, rows, g, i, cur', [])
  {
  }

  lemma PartAll<K, P, E>(keys: seq<K>, rows: K -> seq<P>, g: (K, P) -> set<E>, cur: K)
    ensures Part(keys, rows, g, |keys|, cur, []) == Whole(keys, rows, g)
  {
    assert keys[..|keys|] == keys;
  }

  /** Adding the same elements to what is collected and to the part it equals keeps
      the equation. */
  lemma AddBoth<E>(base: set<E>, before: set<E>, after: set<E>, part: set<E>, part': set<E>, extra: set<E>)
    requires before == base + part && after == before + extra && part' == part + extra
    ensures after == base + part'
  {
  }

  /** A loop over a set moves one element from what is left to what is done. */
  lemma MoveOne<E>(rest: set<E>, done: set<E>, all: set<E>, x: E)
    requires rest + done == all && rest !! done && x in rest
    ensures (rest - {x}) + (done + {x}) == all && (rest - {x}) !! (done + {x})
  {
  }

  /** The slices a loop over a list walks through. */
  lemma SliceStep<T>(s: seq<T>, j: nat)
    requires j < |s|
    ensures s[..j + 1] == s[..j] + [s[j]]
  {
  }

  lemma SliceAll<T>(s: seq<T>)
    ensures s[..|s|] == s
  {
  }
}
