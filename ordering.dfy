/** Lexicographic orderings, as the C++ standard library and the Slice
  * generated `operator<` compare strings, vectors, maps and structs. */
module Ordering {

  /** A strict total order: irreflexive, transitive and total. */
  ghost predicate StrictTotal<T(!new)>(less: (T, T) -> bool)
  {
    && (forall x: T :: !less(x, x))
    && (forall x: T, y: T, z: T :: less(x, y) && less(y, z) ==> less(x, z))
    && (forall x: T, y: T :: x == y || less(x, y) || less(y, x))
  }

  /** `std::lexicographical_compare` over two sequences. */
  predicate SeqLess<T>(a: seq<T>, b: seq<T>, less: (T, T) -> bool)
    decreases |a|
  {
    && |b| > 0
    && (|a| == 0 || less(a[0], b[0]) || (!less(b[0], a[0]) && SeqLess(a[1..], b[1..], less)))
  }

  lemma {:induction false} SeqLessIrreflexive<T(!new)>(a: seq<T>, less: (T, T) -> bool)
    requires StrictTotal(less)
    ensures !SeqLess(a, a, less)
    decreases |a|
  {
    if |a| > 0 {
      SeqLessIrreflexive(a[1..], less);
    }
  }

  lemma {:induction false} SeqLessTransitive<T(!new)>(a: seq<T>, b: seq<T>, c: seq<T>, less: (T, T) -> bool)
    requires StrictTotal(less)
    requires SeqLess(a, b, less) && SeqLess(b, c, less)
    ensures SeqLess(a, c, less)
    decreases |a|
  {
    if |a| > 0 && !less(a[0], b[0]) && !less(b[0], c[0]) {
      assert a[0] == b[0] && b[0] == c[0];
      SeqLessTransitive(a[1..], b[1..], c[1..], less);
    }
  }

  lemma {:induction false} SeqLessTotal<T(!new)>(a: seq<T>, b: seq<T>, less: (T, T) -> bool)
    requires StrictTotal(less)
    ensures a == b || SeqLess(a, b, less) || SeqLess(b, a, less)
    decreases |a|
  {
    if |a| > 0 && |b| > 0 && a[0] == b[0] {
      SeqLessTotal(a[1..], b[1..], less);
      if a[1..] == b[1..] {
        assert a == [a[0]] + a[1..] && b == [b[0]] + b[1..];
      }
    }
  }

  lemma SeqLessAsymmetric<T(!new)>(a: seq<T>, b: seq<T>, less: (T, T) -> bool)
    requires StrictTotal(less)
    requires SeqLess(a, b, less)
    ensures !SeqLess(b, a, less)
  {
    if SeqLess(b, a, less) {
      SeqLessTransitive(a, b, a, less);
      SeqLessIrreflexive(a, less);
    }
  }

  predicate CharLess(x: char, y: char) { x < y }

  predicate IntLess(x: int, y: int) { x < y }

  /** `std::string::operator<`: lexicographic on the characters' codes. */
  predicate StringLess(a: string, b: string)
  {
    SeqLess(a, b, CharLess)
  }

  lemma StringLessStrictTotal()
    ensures StrictTotal(StringLess)
  {
    assert StrictTotal(CharLess);
    forall a: string {
      SeqLessIrreflexive(a, CharLess);
    }
    forall a: string, b: string, c: string | StringLess(a, b) && StringLess(b, c) {
      SeqLessTransitive(a, b, c, CharLess);
    }
    forall a: string, b: string {
      SeqLessTotal(a, b, CharLess);
    }
  }
}
