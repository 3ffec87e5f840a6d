/** The orders `d3.ascending` compares by: numbers, and strings as JavaScript's
    `<` compares them. */
module Order {

  /** `a <= b` on strings: lexicographic on character codes, a proper prefix first. */
  predicate LexLe(a: string, b: string)
  {
    a == [] || (b != [] && (a[0] < b[0] || (a[0] == b[0] && LexLe(a[1..], b[1..]))))
  }

  lemma {:induction false} LexLeTotal(a: string, b: string)
    ensures LexLe(a, b) || LexLe(b, a)
  {
    if a != [] && b != [] && a[0] == b[0] {
      LexLeTotal(a[1..], b[1..]);
    }
  }

  lemma {:induction false} LexLeAntisymmetric(a: string, b: string)
    requires LexLe(a, b) && LexLe(b, a)
    ensures a == b
  {
    if a != [] && b != [] {
      LexLeAntisymmetric(a[1..], b[1..]);
      assert a == [a[0]] + a[1..] && b == [b[0]] + b[1..];
    }
  }

  lemma {:induction false} LexLeTransitive(a: string, b: string, c: string)
    requires LexLe(a, b) && LexLe(b, c)
    ensures LexLe(a, c)
  {
    if a != [] && b != [] && c != [] && a[0] == b[0] && b[0] == c[0] {
      LexLeTransitive(a[1..], b[1..], c[1..]);
    }
  }

  /** What a comparator compares: a date's timestamp, or a string sort key. */
  datatype Key = Time(t: int) | Name(s: string)

  /** Ascending order on keys. Keys of one comparator are all of one kind; the
      order between the kinds only makes the relation total. */
  predicate KeyLe(x: Key, y: Key)
  {
    match (x, y)
    case (Time(s), Time(t)) => s <= t
    case (Name(a), Name(b)) => LexLe(a, b)
    case (Time(_), Name(_)) => true
    case (Name(_), Time(_)) => false
  }

  predicate KeyLt(x: Key, y: Key)
  {
    KeyLe(x, y) && x != y
  }

  lemma KeyLeTotal(x: Key, y: Key)
    ensures KeyLe(x, y) || KeyLe(y, x)
  {
    if x.Name? && y.Name? {
      LexLeTotal(x.s, y.s);
    }
  }

  lemma KeyLeAntisymmetric(x: Key, y: Key)
    requires KeyLe(x, y) && KeyLe(y, x)
    ensures x == y
  {
    if x.Name? && y.Name? {
      LexLeAntisymmetric(x.s, y.s);
    }
  }

  lemma KeyLeTransitive(x: Key, y: Key, z: Key)
    requires KeyLe(x, y) && KeyLe(y, z)
    ensures KeyLe(x, z)
  {
    if x.Name? && y.Name? && z.Name? {
      LexLeTransitive(x.s, y.s, z.s);
    }
  }
}
