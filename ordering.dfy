/** The key order of a two-column `groupby`: Python's comparison of str
    values, applied to the first column and then to the second. */
module Ordering {
  import opened Counting

  /** Python's `a <= b` on str: code point by code point, a proper prefix first. */
  predicate StrLe(a: string, b: string) {
    if a == [] then true
    else if b == [] then false
    else if a[0] != b[0] then a[0] < b[0]
    else StrLe(a[1..], b[1..])
  }

  lemma {:induction false} StrLeTotal(a: string, b: string)
    ensures StrLe(a, b) || StrLe(b, a)
  {
    if a != [] && b != [] && a[0] == b[0] {
      StrLeTotal(a[1..], b[1..]);
    }
  }

  lemma {:induction false} StrLeRefl(a: string)
    ensures StrLe(a, a)
  {
    if a != [] {
      StrLeRefl(a[1..]);
    }
  }

  lemma {:induction false} StrLeTrans(a: string, b: string, c: string)
    requires StrLe(a, b) && StrLe(b, c)
    ensures StrLe(a, c)
  {
    if a != [] && b != [] && c != [] && a[0] == b[0] == c[0] {
      StrLeTrans(a[1..], b[1..], c[1..]);
    }
  }

  lemma {:induction false} StrLeAntisym(a: string, b: string)
    requires StrLe(a, b) && StrLe(b, a)
    ensures a == b
  {
    if a != [] && b != [] {
      StrLeAntisym(a[1..], b[1..]);
      assert a == [a[0]] + a[1..] && b == [b[0]] + b[1..];
    }
  }

  /** Tuple order on (first, second): the first columns decide unless equal. */
  predicate PairLe(a: (string, string), b: (string, string)) {
    (StrLe(a.0, b.0) && a.0 != b.0) || (a.0 == b.0 && StrLe(a.1, b.1))
  }

  lemma PairLeAntisym(a: (string, string), b: (string, string))
    requires PairLe(a, b) && PairLe(b, a)
    ensures a == b
  {
    if a.0 != b.0 {
      StrLeAntisym(a.0, b.0);
    } else {
      StrLeAntisym(a.1, b.1);
    }
  }

  /** Ascending two-column key: the order `groupby([c1, c2])` emits groups in. */
  function ByPairKey(a: Entry<(string, string)>, b: Entry<(string, string)>): bool {
    PairLe(a.key, b.key)
  }

  lemma ByPairKeyIsPreorder()
    ensures TotalPreorder(ByPairKey)
  {
    forall a: Entry<(string, string)>, b: Entry<(string, string)>
      ensures ByPairKey(a, b) || ByPairKey(b, a)
    {
      StrLeTotal(a.key.0, b.key.0);
      StrLeTotal(a.key.1, b.key.1);
    }
    forall a: Entry<(string, string)>, b: Entry<(string, string)>, c: Entry<(string, string)>
      | ByPairKey(a, b) && ByPairKey(b, c)
      ensures ByPairKey(a, c)
    {
      if a.key.0 == b.key.0 == c.key.0 {
        StrLeTrans(a.key.1, b.key.1, c.key.1);
      } else {
        StrLeRefl(b.key.0);
        StrLeTrans(a.key.0, b.key.0, c.key.0);
        if a.key.0 == c.key.0 {
          StrLeAntisym(a.key.0, b.key.0);
        }
      }
    }
  }
}
