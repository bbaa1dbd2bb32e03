/** Strict total orders on keys: what `operator<` must be for the skip list to work. */
module Orders {

  /** True; naming a triple of keys with it is what brings the three laws of the order to bear on them. */
  ghost predicate Chosen<K>(a: K, b: K, c: K) {
    true
  }

  ghost predicate StrictTotal<K(!new)>(lt: (K, K) -> bool) {
    forall a: K, b: K, c: K {:trigger Chosen(a, b, c)} :: Chosen(a, b, c) ==>
      && !lt(a, a)
      && (a == b || lt(a, b) || lt(b, a))
      && (lt(a, b) && lt(b, c) ==> lt(a, c))
  }

  /** `std::string::operator<`: the first differing character decides, a proper prefix is smaller. */
  predicate StringLess(a: string, b: string) {
    if b == [] then false
    else if a == [] then true
    else if a[0] != b[0] then a[0] < b[0]
    else StringLess(a[1..], b[1..])
  }

  lemma {:induction false} StringLessIrreflexive(a: string)
    ensures !StringLess(a, a)
  {
    if a != [] {
      StringLessIrreflexive(a[1..]);
    }
  }

  lemma {:induction false} StringLessTotal(a: string, b: string)
    ensures a == b || StringLess(a, b) || StringLess(b, a)
  {
    if a != [] && b != [] && a[0] == b[0] {
      StringLessTotal(a[1..], b[1..]);
      assert a == [a[0]] + a[1..] && b == [b[0]] + b[1..];
    }
  }

  lemma {:induction false} StringLessTransitive(a: string, b: string, c: string)
    requires StringLess(a, b) && StringLess(b, c)
    ensures StringLess(a, c)
  {
    if a != [] && a[0] == b[0] && b[0] == c[0] {
      StringLessTransitive(a[1..], b[1..], c[1..]);
    }
  }

  lemma StringLessIsStrictTotal()
    ensures StrictTotal(StringLess)
  {
    forall a: string, b: string, c: string
      ensures !StringLess(a, a)
      ensures a == b || StringLess(a, b) || StringLess(b, a)
      ensures StringLess(a, b) && StringLess(b, c) ==> StringLess(a, c)
    {
      StringLessIrreflexive(a);
      StringLessTotal(a, b);
      if StringLess(a, b) && StringLess(b, c) {
        StringLessTransitive(a, b, c);
      }
    }
  }
}
