/** Text order: strings compared code unit by code unit, as JavaScript's default sort and
    a byte-order database collation do. */
module TextOrder {

  /** Strict order on text. */
  predicate Below(a: string, b: string)
  {
    if b == "" then false
    else if a == "" then true
    else a[0] < b[0] || (a[0] == b[0] && Below(a[1..], b[1..]))
  }

  lemma {:induction false} BelowTransitive(a: string, b: string, c: string)
    requires Below(a, b) && Below(b, c)
    ensures Below(a, c)
  {
    if a != "" && a[0] == b[0] == c[0] {
      BelowTransitive(a[1..], b[1..], c[1..]);
    }
  }

  /** Exactly one of "before", "equal", "after" holds for any two texts. */
  lemma {:induction false} BelowTrichotomy(a: string, b: string)
    ensures Below(a, b) ==> !Below(b, a) && a != b
    ensures a != b ==> Below(a, b) || Below(b, a)
  {
    if a != "" && b != "" && a[0] == b[0] {
      BelowTrichotomy(a[1..], b[1..]);
      assert a == [a[0]] + a[1..] && b == [b[0]] + b[1..];
    }
  }
}
