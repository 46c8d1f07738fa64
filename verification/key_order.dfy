/**
 The order in which a `std::map<std::string, T>` visits its keys: ascending by
 `std::string` comparison, i.e. lexicographic over the characters, a proper
 prefix first. Characters compare by code point, which agrees with the
 unsigned byte order C++ uses on the UTF-8 encoding of the same text.
 */
module KeyOrder {

  /** `a` comes no later than `b` in key order. */
  predicate Below(a: string, b: string)
    decreases |a|
  {
    if |a| == 0 then true
    else if |b| == 0 then false
    else if a[0] != b[0] then a[0] < b[0]
    else Below(a[1..], b[1..])
  }

  lemma {:induction false} BelowTotal(a: string, b: string)
    ensures Below(a, b) || Below(b, a)
    decreases |a|
  {
    if |a| > 0 && |b| > 0 && a[0] == b[0] {
      BelowTotal(a[1..], b[1..]);
    }
  }

  lemma {:induction false} BelowAntisymmetric(a: string, b: string)
    requires Below(a, b) && Below(b, a)
    ensures a == b
    decreases |a|
  {
    if |a| > 0 {
      BelowAntisymmetric(a[1..], b[1..]);
      assert a == [a[0]] + a[1..];
      assert b == [b[0]] + b[1..];
    }
  }

  lemma {:induction false} BelowTransitive(a: string, b: string, c: string)
    requires Below(a, b) && Below(b, c)
    ensures Below(a, c)
    decreases |a|
  {
    if |a| > 0 && a[0] == b[0] && b[0] == c[0] {
      BelowTransitive(a[1..], b[1..], c[1..]);
    }
  }

  /** The keys of a map listed one after another, each strictly after the one before. */
  predicate Ascending(keys: seq<string>) {
    forall i, j | 0 <= i < j < |keys| :: Below(keys[i], keys[j]) && keys[i] != keys[j]
  }

  /** Every non-empty finite set of keys has a first key. */
  lemma {:induction false} LeastExists(ks: set<string>)
    requires ks != {}
    ensures exists m :: m in ks && forall k | k in ks :: Below(m, k)
    decreases |ks|
  {
    var x :| x in ks;
    if ks == {x} {
      BelowTotal(x, x);
      assert forall k | k in ks :: Below(x, k);
    } else {
      var rest := ks - {x};
      assert rest != {} by {
        var y :| y in ks && y != x;
        assert y in rest;
      }
      LeastExists(rest);
      var m :| m in rest && forall k | k in rest :: Below(m, k);
      BelowTotal(m, x);
      if Below(m, x) {
        forall k | k in ks ensures Below(m, k) {
          if k != x {
            assert k in rest;
          }
        }
        assert m in ks;
      } else {
        forall k | k in ks ensures Below(x, k) {
          if k != x {
            assert k in rest;
            BelowTransitive(x, m, k);
          } else {
            BelowTotal(x, x);
          }
        }
      }
    }
  }

  /** The first key of a non-empty set. */
  function Least(ks: set<string>): (m: string)
    requires ks != {}
    ensures m in ks
    ensures forall k | k in ks :: Below(m, k)
  {
    LeastExists(ks);
    forall a, b | Below(a, b) && Below(b, a)
      ensures a == b
    {
      BelowAntisymmetric(a, b);
    }
    var m :| m in ks && forall k | k in ks :: Below(m, k);
    m
  }

  /** The keys of a set in the order a `std::map` iterates them. */
  function SortedKeys(ks: set<string>): (r: seq<string>)
    ensures |r| == |ks|
    ensures forall k :: k in r <==> k in ks
    ensures Ascending(r)
    decreases |ks|
  {
    if ks == {} then []
    else
      var m := Least(ks);
      var rest := SortedKeys(ks - {m});
      [m] + rest
  }
}
