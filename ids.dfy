/**
 * Identifier normalisation and the order of storage keys.
 *
 * Every survey, user and token id reaches a query as `id.split("-").join("")`:
 * the hyphens of the external (uuid) spelling are dropped and the rest is kept
 * in order. The result is the storage key used throughout the model.
 */
module Ids {

  /** `id.split("-").join("")`: every '-' removed, every other character kept in order. */
  function Normalize(id: string): (key: string)
    ensures '-' !in key
    ensures |key| <= |id|
  {
    if id == [] then []
    else (if id[0] == '-' then [] else [id[0]]) + Normalize(id[1..])
  }

  /** Splitting and joining works piecewise: normalising a concatenation
      normalises each part and keeps them in order. */
  lemma {:induction false} NormalizeAppend(a: string, b: string)
    ensures Normalize(a + b) == Normalize(a) + Normalize(b)
  {
    if a == [] {
      assert a + b == b;
    } else {
      assert (a + b)[0] == a[0];
      assert (a + b)[1..] == a[1..] + b;
      NormalizeAppend(a[1..], b);
    }
  }

  /** A key that already has no hyphen is its own normal form. */
  lemma {:induction false} NormalizeKeepsKeys(s: string)
    requires '-' !in s
    ensures Normalize(s) == s
  {
    if s != [] {
      assert s[0] in s;
      assert forall c :: c in s[1..] ==> c in s;
      NormalizeKeepsKeys(s[1..]);
      assert [s[0]] + s[1..] == s;
    }
  }

  /** Normalising twice is the same as normalising once. */
  lemma NormalizeIdempotent(id: string)
    ensures Normalize(Normalize(id)) == Normalize(id)
  {
    NormalizeKeepsKeys(Normalize(id));
  }

  /** Exactly the hyphens are lost: every other character keeps its multiplicity. */
  lemma {:induction false} NormalizeCounts(id: string)
    ensures multiset(Normalize(id))['-'] == 0
    ensures forall c :: c != '-' ==> multiset(Normalize(id))[c] == multiset(id)[c]
  {
    if id != [] {
      NormalizeCounts(id[1..]);
      assert id == [id[0]] + id[1..];
      assert multiset(id) == multiset{id[0]} + multiset(id[1..]);
    }
  }

  /** Strict lexicographic order on keys; on lower-case hex keys of equal
      length it is the order Postgres gives uuids in `ORDER BY id`. */
  predicate KeyLess(a: string, b: string)
  {
    if b == [] then false
    else if a == [] then true
    else if a[0] != b[0] then a[0] < b[0]
    else KeyLess(a[1..], b[1..])
  }

  lemma {:induction false} KeyLessIrreflexive(a: string)
    ensures !KeyLess(a, a)
  {
    if a != [] {
      KeyLessIrreflexive(a[1..]);
    }
  }

  lemma {:induction false} KeyLessAsymmetric(a: string, b: string)
    requires KeyLess(a, b)
    ensures !KeyLess(b, a)
  {
    if a != [] && b != [] && a[0] == b[0] {
      KeyLessAsymmetric(a[1..], b[1..]);
    }
  }

  lemma {:induction false} KeyLessTransitive(a: string, b: string, c: string)
    requires KeyLess(a, b) && KeyLess(b, c)
    ensures KeyLess(a, c)
  {
    if a != [] && b != [] && c != [] && a[0] == b[0] && b[0] == c[0] {
      KeyLessTransitive(a[1..], b[1..], c[1..]);
    }
  }

  lemma {:induction false} KeyLessTotal(a: string, b: string)
    requires a != b
    ensures KeyLess(a, b) || KeyLess(b, a)
  {
    if a != [] && b != [] && a[0] == b[0] {
      assert a == [a[0]] + a[1..] && b == [b[0]] + b[1..];
      KeyLessTotal(a[1..], b[1..]);
    }
  }
}
