/**
 * The edit distance the resolver obtains from the `editdistance` package,
 * given here as the Levenshtein distance: the least number of single
 * character insertions, deletions and substitutions turning one string into
 * the other.
 */
module EditDistance {

  function Min3(x: nat, y: nat, z: nat): nat
  {
    if x <= y && x <= z then x else if y <= z then y else z
  }

  function Max(x: nat, y: nat): nat
  {
    if x >= y then x else y
  }

  function Levenshtein(a: string, b: string): nat
    decreases |a| + |b|
  {
    if a == [] then |b|
    else if b == [] then |a|
    else Min3(Levenshtein(a[1..], b) + 1,
              Levenshtein(a, b[1..]) + 1,
              Levenshtein(a[1..], b[1..]) + (if a[0] == b[0] then 0 else 1))
  }

  /** A string is at distance zero from itself. */
  lemma {:induction false} LevenshteinSelf(a: string)
    ensures Levenshtein(a, a) == 0
  {
    if a != [] {
      LevenshteinSelf(a[1..]);
    }
  }

  /** The distance never exceeds the longer length (substitute along the shorter, insert or delete the rest). */
  lemma {:induction false} LevenshteinBounded(a: string, b: string)
    ensures Levenshtein(a, b) <= Max(|a|, |b|)
    decreases |a| + |b|
  {
    if a != [] && b != [] {
      LevenshteinBounded(a[1..], b[1..]);
    }
  }

  /** Distance zero means equal strings. */
  lemma {:induction false} LevenshteinZero(a: string, b: string)
    requires Levenshtein(a, b) == 0
    ensures a == b
    decreases |a| + |b|
  {
    if a != [] && b != [] {
      LevenshteinZero(a[1..], b[1..]);
      assert a == [a[0]] + a[1..] && b == [b[0]] + b[1..];
    }
  }
}
