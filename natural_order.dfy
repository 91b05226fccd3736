/** The orders under which the BOM is sorted.

    Python compares lists, tuples and strings lexicographically, a proper prefix
    first. Sort keys here are lists of atoms: integers, compared numerically, and
    strings, compared character by character. Under Python 2 an int is smaller
    than any str; Atom order follows that rule. The natural keys never put an int
    and a str at the same position, so the rule only makes the order total. */
module NaturalOrder {

  /** One component of a sort key: an integer or a string. */
  datatype Atom = Num(n: int) | Txt(s: string)

  /** A sort key, compared like a Python list. */
  type Key = seq<Atom>

  /** Lexicographic order induced by `less`: first difference decides, a proper prefix is smaller. */
  predicate LexLess<T(==)>(a: seq<T>, b: seq<T>, less: (T, T) -> bool)
    decreases |a|
  {
    if a == [] then b != []
    else if b == [] then false
    else if a[0] == b[0] then LexLess(a[1..], b[1..], less)
    else less(a[0], b[0])
  }

  /** `less` is irreflexive and transitive. */
  ghost predicate StrictOrder<T(!new)>(less: (T, T) -> bool) {
    && (forall x :: !less(x, x))
    && (forall x, y, z :: less(x, y) && less(y, z) ==> less(x, z))
  }

  /** Any two distinct values are related one way or the other. */
  ghost predicate Connected<T(!new)>(less: (T, T) -> bool) {
    forall x, y :: x != y ==> less(x, y) || less(y, x)
  }

  predicate CharLess(a: char, b: char) { a < b }

  /** Python string comparison: by character code, a proper prefix first. */
  predicate StrLess(a: string, b: string) {
    LexLess(a, b, CharLess)
  }

  /** Python 2 comparison of an int or str with an int or str. */
  predicate AtomLess(a: Atom, b: Atom) {
    match (a, b)
    case (Num(x), Num(y)) => x < y
    case (Txt(x), Txt(y)) => StrLess(x, y)
    case (Num(_), Txt(_)) => true
    case (Txt(_), Num(_)) => false
  }

  /** Python list comparison of two keys. */
  predicate KeyLess(a: Key, b: Key) {
    LexLess(a, b, AtomLess)
  }

  /** `a` sorts no later than `b`. */
  predicate KeyLeq(a: Key, b: Key) {
    KeyLess(a, b) || a == b
  }

  lemma {:induction false} LexIrreflexive<T>(a: seq<T>, less: (T, T) -> bool)
    ensures !LexLess(a, a, less)
    decreases |a|
  {
    if a != [] {
      LexIrreflexive(a[1..], less);
    }
  }

  lemma {:induction false} LexTransitive<T(!new)>(a: seq<T>, b: seq<T>, c: seq<T>, less: (T, T) -> bool)
    requires StrictOrder(less)
    requires LexLess(a, b, less) && LexLess(b, c, less)
    ensures LexLess(a, c, less)
    decreases |a|
  {
    if a != [] && a[0] == b[0] && b[0] == c[0] {
      LexTransitive(a[1..], b[1..], c[1..], less);
    }
  }

  lemma {:induction false} LexConnected<T(!new)>(a: seq<T>, b: seq<T>, less: (T, T) -> bool)
    requires Connected(less)
    requires a != b
    ensures LexLess(a, b, less) || LexLess(b, a, less)
    decreases |a|
  {
    if a != [] && b != [] && a[0] == b[0] {
      assert a == [a[0]] + a[1..] && b == [b[0]] + b[1..];
      LexConnected(a[1..], b[1..], less);
    }
  }

  lemma CharLessStrictTotal()
    ensures StrictOrder(CharLess) && Connected(CharLess)
  {
  }

  lemma AtomLessStrictTotal()
    ensures StrictOrder(AtomLess) && Connected(AtomLess)
  {
    CharLessStrictTotal();
    forall a: Atom
      ensures !AtomLess(a, a)
    {
      if a.Txt? { LexIrreflexive(a.s, CharLess); }
    }
    forall a: Atom, b: Atom, c: Atom | AtomLess(a, b) && AtomLess(b, c)
      ensures AtomLess(a, c)
    {
      if a.Txt? && b.Txt? && c.Txt? { LexTransitive(a.s, b.s, c.s, CharLess); }
    }
    forall a: Atom, b: Atom | a != b
      ensures AtomLess(a, b) || AtomLess(b, a)
    {
      if a.Txt? && b.Txt? { LexConnected(a.s, b.s, CharLess); }
    }
  }

  /** Key order is a strict total order: irreflexive ... */
  lemma KeyLessIrreflexive(a: Key)
    ensures !KeyLess(a, a)
  {
    LexIrreflexive(a, AtomLess);
  }

  /** ... transitive ... */
  lemma KeyLessTransitive(a: Key, b: Key, c: Key)
    requires KeyLess(a, b) && KeyLess(b, c)
    ensures KeyLess(a, c)
  {
    AtomLessStrictTotal();
    LexTransitive(a, b, c, AtomLess);
  }

  /** ... and connected, so any two keys compare. */
  lemma KeyLessConnected(a: Key, b: Key)
    ensures KeyLess(a, b) || a == b || KeyLess(b, a)
  {
    if a != b {
      AtomLessStrictTotal();
      LexConnected(a, b, AtomLess);
    }
  }

  lemma KeyLeqTransitive(a: Key, b: Key, c: Key)
    requires KeyLeq(a, b) && KeyLeq(b, c)
    ensures KeyLeq(a, c)
  {
    if KeyLess(a, b) && KeyLess(b, c) {
      KeyLessTransitive(a, b, c);
    }
  }

  /** Not less means greater or equal. */
  lemma KeyNotLess(a: Key, b: Key)
    requires !KeyLess(a, b)
    ensures KeyLeq(b, a)
  {
    KeyLessConnected(a, b);
  }
}
