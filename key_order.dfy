/** The iteration order of a plist Dictionary.

    A Dictionary is a `std::map<std::string, Value>`, so its entries are
    visited in ascending key order under `std::string` comparison: the
    lexicographic order of the characters, where a proper prefix comes first.
    Characters compare by their code, which for the bytes of a `std::string`
    is the order of `unsigned char` that `std::char_traits<char>` uses. */
module KeyOrder {

  /** Strict lexicographic order on keys. */
  predicate KeyLess(a: string, b: string)
    decreases |a|
  {
    if a == [] then b != []
    else b != [] && (a[0] < b[0] || (a[0] == b[0] && KeyLess(a[1..], b[1..])))
  }

  lemma {:induction false} KeyLessIrreflexive(a: string)
    ensures !KeyLess(a, a)
    decreases |a|
  {
    if a != [] {
      KeyLessIrreflexive(a[1..]);
    }
  }

  lemma {:induction false} KeyLessAsymmetric(a: string, b: string)
    ensures KeyLess(a, b) ==> !KeyLess(b, a)
    decreases |a|
  {
    if a != [] && b != [] {
      KeyLessAsymmetric(a[1..], b[1..]);
    }
  }

  lemma {:induction false} KeyLessTransitive(a: string, b: string, c: string)
    requires KeyLess(a, b) && KeyLess(b, c)
    ensures KeyLess(a, c)
    decreases |a|
  {
    if a != [] && a[0] == b[0] && b[0] == c[0] {
      KeyLessTransitive(a[1..], b[1..], c[1..]);
    }
  }

  lemma {:induction false} KeyLessTotal(a: string, b: string)
    ensures a == b || KeyLess(a, b) || KeyLess(b, a)
    decreases |a|
  {
    if a != [] && b != [] && a[0] == b[0] {
      KeyLessTotal(a[1..], b[1..]);
      if a[1..] == b[1..] {
        assert a == [a[0]] + a[1..];
        assert b == [b[0]] + b[1..];
      }
    }
  }

  /** `k` is the first key of `s` in map order. */
  predicate IsLeast(k: string, s: set<string>)
  {
    k in s && forall j {:trigger KeyLess(k, j)} | j in s :: j == k || KeyLess(k, j)
  }

  lemma {:induction false} LeastExists(s: set<string>) returns (k: string)
    requires s != {}
    ensures IsLeast(k, s)
    decreases |s|
  {
    var x :| x in s;
    if s == {x} {
      k := x;
      KeyLessIrreflexive(x);
    } else {
      var k' := LeastExists(s - {x});
      KeyLessTotal(x, k');
      if KeyLess(x, k') {
        k := x;
        forall j | j in s
          ensures j == k || KeyLess(k, j)
        {
          if j != x && j != k' {
            KeyLessTransitive(x, k', j);
          }
        }
      } else {
        k := k';
      }
    }
  }

  lemma HasLeast(s: set<string>)
    requires s != {}
    ensures exists k :: IsLeast(k, s)
  {
    var k := LeastExists(s);
  }

  lemma LeastUnique(s: set<string>, a: string, b: string)
    requires IsLeast(a, s) && IsLeast(b, s)
    ensures a == b
  {
    KeyLessAsymmetric(a, b);
  }

  /** The smallest key of a non-empty key set. */
  function Least(s: set<string>): (k: string)
    requires s != {}
    ensures IsLeast(k, s)
  {
    HasLeast(s);
    forall a, b | IsLeast(a, s) && IsLeast(b, s)
      ensures a == b
    {
      LeastUnique(s, a, b);
    }
    var k :| IsLeast(k, s); k
  }

  predicate StrictlySorted(ks: seq<string>)
  {
    forall i, j | 0 <= i < j < |ks| :: KeyLess(ks[i], ks[j])
  }

  /** The least key followed by a strictly sorted listing of the other keys
      is strictly sorted. */
  lemma LeastFirst(s: set<string>, k: string, tail: seq<string>)
    requires IsLeast(k, s) && StrictlySorted(tail)
    requires forall j | 0 <= j < |tail| :: tail[j] in s && tail[j] != k
    ensures StrictlySorted([k] + tail)
  {
    var ks := [k] + tail;
    forall i, j | 0 <= i < j < |ks|
      ensures KeyLess(ks[i], ks[j])
    {
      if i == 0 {
        assert ks[j] == tail[j - 1];
      } else {
        assert ks[i] == tail[i - 1] && ks[j] == tail[j - 1];
      }
    }
  }

  /** The keys of a dictionary in the order `std::map` iterates them:
      as many as there are entries, each of them a key of the dictionary.
      That every key appears, and in ascending order, is proved below. */
  function SortedKeys<V>(m: map<string, V>): (ks: seq<string>)
    ensures |ks| == |m|
    ensures forall i | 0 <= i < |ks| :: ks[i] in m
    decreases |m|
  {
    if m == map[] then []
    else
      var k := Least(m.Keys);
      var rest := m - {k};
      assert |rest| == |m| - 1 by {
        assert rest.Keys == m.Keys - {k};
      }
      var tail := SortedKeys(rest);
      [k] + tail
  }

  /** The first key of a strictly sorted listing of a dictionary's keys is
      its least key. */
  lemma SortedHeadIsLeast<V>(m: map<string, V>, ks: seq<string>)
    requires StrictlySorted(ks) && ks != []
    requires forall k :: k in ks <==> k in m
    ensures IsLeast(ks[0], m.Keys)
  {
    forall j | j in m.Keys
      ensures j == ks[0] || KeyLess(ks[0], j)
    {
      assert j in ks;
      var i :| 0 <= i < |ks| && ks[i] == j;
      assert i == 0 || KeyLess(ks[0], ks[i]);
    }
  }

  /** Dropping the first key of a strictly sorted listing leaves a strictly
      sorted listing of the remaining keys. */
  lemma SortedTail<V>(m: map<string, V>, ks: seq<string>)
    requires StrictlySorted(ks) && ks != []
    requires forall k :: k in ks <==> k in m
    ensures StrictlySorted(ks[1..])
    ensures forall k :: k in ks[1..] <==> k in m - {ks[0]}
  {
    forall j | j in ks[1..]
      ensures j in m - {ks[0]}
    {
      var i :| 1 <= i < |ks| && ks[i] == j;
      assert KeyLess(ks[0], ks[i]);
      KeyLessIrreflexive(ks[0]);
    }
    forall j | j in m - {ks[0]}
      ensures j in ks[1..]
    {
      assert j in ks;
      var i :| 0 <= i < |ks| && ks[i] == j;
      assert i != 0;
    }
  }

  /** Every key of a dictionary is visited. */
  lemma {:induction false} SortedKeysComplete<V>(m: map<string, V>, k: string)
    requires k in m
    ensures k in SortedKeys(m)
    decreases |m|
  {
    var least := Least(m.Keys);
    if k != least {
      var rest := m - {least};
      assert |rest| < |m| by {
        assert rest.Keys == m.Keys - {least};
      }
      SortedKeysComplete(rest, k);
    }
  }

  /** A dictionary is visited in strictly ascending key order. */
  lemma {:induction false} SortedKeysSorted<V>(m: map<string, V>)
    ensures StrictlySorted(SortedKeys(m))
    decreases |m|
  {
    if m != map[] {
      var k := Least(m.Keys);
      var rest := m - {k};
      assert |rest| < |m| by {
        assert rest.Keys == m.Keys - {k};
      }
      SortedKeysSorted(rest);
      LeastFirst(m.Keys, k, SortedKeys(rest));
    }
  }

  /** Map order is the only order of a key set that is strictly ascending:
      any strictly sorted listing of exactly the dictionary's keys is the
      order in which the dictionary is visited. */
  lemma {:induction false} SortedKeysUnique<V>(m: map<string, V>, ks: seq<string>)
    requires StrictlySorted(ks)
    requires forall k :: k in ks <==> k in m
    ensures SortedKeys(m) == ks
    decreases |ks|
  {
    if ks == [] {
      assert m.Keys == {};
    } else {
      assert ks[0] in m;
      var k := Least(m.Keys);
      SortedHeadIsLeast(m, ks);
      LeastUnique(m.Keys, k, ks[0]);
      SortedTail(m, ks);
      SortedKeysUnique(m - {k}, ks[1..]);
    }
  }
}
