/** Ordered maps and stable sorting, as the standard library provides them to the program. */
module Ordering {

  ghost predicate TotalPreorder<T(!new)>(le: (T, T) -> bool) {
    && (forall a, b :: le(a, b) || le(b, a))
    && (forall a, b, c :: le(a, b) && le(b, c) ==> le(a, c))
  }

  ghost predicate TotalOrder<T(!new)>(le: (T, T) -> bool) {
    TotalPreorder(le) && forall a, b :: le(a, b) && le(b, a) ==> a == b
  }

  ghost predicate SortedBy<T>(le: (T, T) -> bool, s: seq<T>) {
    forall i, j | 0 <= i < j < |s| :: le(s[i], s[j])
  }

  // ------------------------------------------------ lexicographic order

  predicate LexLe<T(==)>(le: (T, T) -> bool, a: seq<T>, b: seq<T>) {
    if a == [] then true
    else if b == [] then false
    else if a[0] == b[0] then LexLe(le, a[1..], b[1..])
    else le(a[0], b[0])
  }

  predicate CharLe(a: char, b: char) {
    a <= b
  }

  predicate StringLe(a: string, b: string) {
    LexLe(CharLe, a, b)
  }

  /** The order of a tuple of strings, written as a sequence of its components. */
  predicate TupleLe(a: seq<string>, b: seq<string>) {
    LexLe(StringLe, a, b)
  }

  lemma {:induction false} LexTotal<T(!new)>(le: (T, T) -> bool, a: seq<T>, b: seq<T>)
    requires TotalOrder(le)
    ensures LexLe(le, a, b) || LexLe(le, b, a)
    ensures LexLe(le, a, b) && LexLe(le, b, a) ==> a == b
  {
    if a != [] && b != [] && a[0] == b[0] {
      LexTotal(le, a[1..], b[1..]);
      assert a == [a[0]] + a[1..] && b == [b[0]] + b[1..];
    }
  }

  lemma {:induction false} LexTransitive<T(!new)>(le: (T, T) -> bool, a: seq<T>, b: seq<T>, c: seq<T>)
    requires TotalOrder(le) && LexLe(le, a, b) && LexLe(le, b, c)
    ensures LexLe(le, a, c)
  {
    if a != [] && a[0] == b[0] && b[0] == c[0] {
      LexTransitive(le, a[1..], b[1..], c[1..]);
    }
  }

  /** The first `k` characters agree, and there `a` ends or has the smaller character. */
  predicate SplitsAt(a: string, b: string, k: nat) {
    k <= |a| && k < |b| && a[..k] == b[..k] && (k == |a| || (a[k] as int) < (b[k] as int))
  }

  /** Dictionary order: a proper prefix comes first, and otherwise the first characters that differ decide. */
  ghost predicate Precedes(a: string, b: string) {
    exists k: nat :: SplitsAt(a, b, k)
  }

  lemma SplitsLater(a: string, b: string, k: nat)
    requires a != [] && b != [] && a[0] == b[0]
    ensures SplitsAt(a, b, k + 1) <==> SplitsAt(a[1..], b[1..], k)
  {
    var c, d := a[1..], b[1..];
    assert a == [a[0]] + c && b == [b[0]] + d;
    if k + 1 <= |a| && k + 1 <= |b| {
      assert a[..k + 1] == [a[0]] + c[..k] && b[..k + 1] == [b[0]] + d[..k];
    }
  }

  lemma PrecedesTail(a: string, b: string)
    requires a != [] && b != [] && a[0] == b[0]
    ensures Precedes(a, b) <==> Precedes(a[1..], b[1..])
  {
    if k: nat :| SplitsAt(a, b, k) {
      assert k != 0;
      SplitsLater(a, b, k - 1);
    }
    if k: nat :| SplitsAt(a[1..], b[1..], k) {
      SplitsLater(a, b, k);
    }
  }

  lemma SplitsInside(a: string, b: string)
    ensures forall k: nat | SplitsAt(a, b, k) && k > 0 :: a != [] && b != [] && a[0] == b[0]
  {
    forall k: nat | SplitsAt(a, b, k) && k > 0 ensures a != [] && b != [] && a[0] == b[0] {
      assert a[..k][0] == a[0] && b[..k][0] == b[0];
    }
  }

  lemma PrecedesHead(a: string, b: string)
    requires a == [] || b == [] || a[0] != b[0]
    ensures Precedes(a, b) <==> b != [] && (a == [] || a[0] < b[0])
  {
    SplitsInside(a, b);
    if b != [] && (a == [] || a[0] < b[0]) {
      assert SplitsAt(a, b, 0);
    }
  }

  lemma {:induction false} StringLeExactly(a: string, b: string)
    ensures StringLe(a, b) <==> a == b || Precedes(a, b)
  {
    if a != [] && b != [] && a[0] == b[0] {
      StringLeExactly(a[1..], b[1..]);
      PrecedesTail(a, b);
      assert a == [a[0]] + a[1..] && b == [b[0]] + b[1..];
    } else {
      PrecedesHead(a, b);
    }
  }

  lemma StringOrder()
    ensures TotalOrder(StringLe)
  {
    assert TotalOrder(CharLe);
    forall a: string, b: string
      ensures StringLe(a, b) || StringLe(b, a)
      ensures StringLe(a, b) && StringLe(b, a) ==> a == b
    {
      LexTotal(CharLe, a, b);
    }
    forall a: string, b: string, c: string | StringLe(a, b) && StringLe(b, c) ensures StringLe(a, c) {
      LexTransitive(CharLe, a, b, c);
    }
  }

  lemma TupleOrder()
    ensures TotalOrder(TupleLe)
  {
    StringOrder();
    forall a: seq<string>, b: seq<string>
      ensures TupleLe(a, b) || TupleLe(b, a)
      ensures TupleLe(a, b) && TupleLe(b, a) ==> a == b
    {
      LexTotal(StringLe, a, b);
    }
    forall a: seq<string>, b: seq<string>, c: seq<string> | TupleLe(a, b) && TupleLe(b, c) ensures TupleLe(a, c) {
      LexTransitive(StringLe, a, b, c);
    }
  }

  // ------------------------------------------------ the keys of an ordered map

  ghost predicate IsLeast<K>(le: (K, K) -> bool, keys: set<K>, k: K) {
    k in keys && forall other | other in keys :: le(k, other)
  }

  lemma {:induction false} LeastExists<K(!new)>(le: (K, K) -> bool, keys: set<K>)
    requires TotalOrder(le) && keys != {}
    ensures exists k :: IsLeast(le, keys, k)
    decreases |keys|
  {
    var k :| k in keys;
    if keys == {k} {
      assert IsLeast(le, keys, k);
    } else {
      LeastExists(le, keys - {k});
      var m :| IsLeast(le, keys - {k}, m);
      assert IsLeast(le, keys, if le(k, m) then k else m);
    }
  }

  ghost function Least<K(!new)>(le: (K, K) -> bool, keys: set<K>): K
    requires TotalOrder(le) && keys != {}
    ensures IsLeast(le, keys, Least(le, keys))
  {
    LeastExists(le, keys);
    var k :| IsLeast(le, keys, k);
    k
  }

  /** The keys of an ordered map in iteration order. */
  ghost function SortedKeys<K(!new)>(le: (K, K) -> bool, keys: set<K>): (r: seq<K>)
    requires TotalOrder(le)
    ensures |r| == |keys|
    decreases |keys|
  {
    if keys == {} then []
    else
      var k := Least(le, keys);
      [k] + SortedKeys(le, keys - {k})
  }

  lemma {:induction false} SortedKeysCover<K(!new)>(le: (K, K) -> bool, keys: set<K>)
    requires TotalOrder(le)
    ensures forall k :: k in keys <==> k in SortedKeys(le, keys)
    decreases |keys|
  {
    if keys != {} {
      var k := Least(le, keys);
      SortedKeysCover(le, keys - {k});
      assert SortedKeys(le, keys) == [k] + SortedKeys(le, keys - {k});
    }
  }

  lemma {:induction false} SortedKeysAscend<K(!new)>(le: (K, K) -> bool, keys: set<K>, i: nat, j: nat)
    requires TotalOrder(le) && i < j < |keys|
    ensures var r := SortedKeys(le, keys);
            le(r[i], r[j]) && r[i] != r[j]
    decreases |keys|
  {
    var k := Least(le, keys);
    var rest := SortedKeys(le, keys - {k});
    assert SortedKeys(le, keys) == [k] + rest;
    if i == 0 {
      SortedKeysCover(le, keys - {k});
      assert rest[j - 1] in rest;
    } else {
      SortedKeysAscend(le, keys - {k}, i - 1, j - 1);
    }
  }

  lemma LeastIsUnique<K(!new)>(le: (K, K) -> bool, keys: set<K>, k: K)
    requires TotalOrder(le) && IsLeast(le, keys, k)
    ensures k == Least(le, keys)
  {
  }

  method SortKeys<K(==, !new)>(le: (K, K) -> bool, keys: set<K>) returns (r: seq<K>)
    requires TotalOrder(le)
    ensures r == SortedKeys(le, keys)
  {
    r := [];
    var rest := keys;
    while rest != {}
      invariant SortedKeys(le, keys) == r + SortedKeys(le, rest)
      decreases |rest|
    {
      var k := PickLeast(le, rest);
      assert SortedKeys(le, rest) == [k] + SortedKeys(le, rest - {k});
      assert r + ([k] + SortedKeys(le, rest - {k})) == r + [k] + SortedKeys(le, rest - {k});
      r, rest := r + [k], rest - {k};
    }
  }

  method PickLeast<K(==, !new)>(le: (K, K) -> bool, keys: set<K>) returns (k: K)
    requires TotalOrder(le) && keys != {}
    ensures k in keys && k == Least(le, keys)
  {
    LeastExists(le, keys);
    ghost var least :| IsLeast(le, keys, least);
    k :| k in keys && forall other | other in keys :: le(k, other);
    LeastIsUnique(le, keys, k);
  }

  lemma KeysWithout<K, V>(m: map<K, V>, k: K)
    requires k in m
    ensures (m - {k}).Keys == m.Keys - {k} && |m - {k}| == |m| - 1 && |m.Keys| == |m| && m.Keys != {}
  {
    var rest := m - {k};
    assert rest.Keys == m.Keys - {k};
    assert |rest.Keys| == |rest|;
  }

  lemma WithoutCommutes<K, V>(m: map<K, V>, a: K, b: K)
    ensures m - {a} - {b} == m - {b} - {a}
  {
  }

  ghost function FirstKey<K(!new), V>(le: (K, K) -> bool, m: map<K, V>): (k: K)
    requires TotalOrder(le) && m != map[]
    ensures k in m
  {
    var some :| some in m;
    KeysWithout(m, some);
    Least(le, m.Keys)
  }

  ghost function Values<K(!new), V>(le: (K, K) -> bool, m: map<K, V>): (r: seq<V>)
    requires TotalOrder(le)
    decreases |m|
  {
    if m == map[] then []
    else
      var k := FirstKey(le, m);
      KeysWithout(m, k);
      [m[k]] + Values(le, m - {k})
  }

  lemma {:induction false} ValuesInKeyOrder<K(!new), V>(le: (K, K) -> bool, m: map<K, V>, i: nat)
    requires TotalOrder(le)
    ensures |Values(le, m)| == |m| == |m.Keys|
    ensures i < |m| ==> var k := SortedKeys(le, m.Keys)[i]; k in m && Values(le, m)[i] == m[k]
    decreases |m|
  {
    if m != map[] {
      var k := FirstKey(le, m);
      var rest := m - {k};
      KeysWithout(m, k);
      ValuesInKeyOrder(le, rest, if i == 0 then 0 else i - 1);
      assert SortedKeys(le, m.Keys) == [k] + SortedKeys(le, rest.Keys);
      assert Values(le, m) == [m[k]] + Values(le, rest);
    } else {
      assert m.Keys == {};
    }
  }

  /** The values of an ordered map, in the order of its keys. */
  method IntoValues<K(==, !new), V>(le: (K, K) -> bool, m: map<K, V>) returns (values: seq<V>)
    requires TotalOrder(le)
    ensures values == Values(le, m)
  {
    values := [];
    var rest := m;
    while rest != map[]
      invariant Values(le, m) == values + Values(le, rest)
      decreases |rest|
    {
      ghost var some :| some in rest;
      KeysWithout(rest, some);
      var k := PickLeast(le, rest.Keys);
      KeysWithout(rest, k);
      assert Values(le, rest) == [rest[k]] + Values(le, rest - {k});
      values, rest := values + [rest[k]], rest - {k};
    }
  }

  /** Taking one key out of an ordered map takes exactly its value out of the iteration. */
  lemma {:induction false} ValuesWithout<K(!new), V>(le: (K, K) -> bool, m: map<K, V>, k: K)
    requires TotalOrder(le) && k in m
    ensures multiset(Values(le, m)) == multiset(Values(le, m - {k})) + multiset{m[k]}
    decreases |m|
  {
    var first := FirstKey(le, m);
    FirstValue(le, m);
    if k != first {
      var rest, without := m - {first}, m - {k};
      KeysWithout(m, first);
      ValuesWithout(le, rest, k);
      SameFirst(le, m, k);
      FirstValue(le, without);
      WithoutCommutes(m, k, first);
    }
  }

  lemma FirstValue<K(!new), V>(le: (K, K) -> bool, m: map<K, V>)
    requires TotalOrder(le) && m != map[]
    ensures var first := FirstKey(le, m);
            multiset(Values(le, m)) == multiset{m[first]} + multiset(Values(le, m - {first}))
  {
    var first := FirstKey(le, m);
    assert Values(le, m) == [m[first]] + Values(le, m - {first});
  }

  lemma SameFirst<K(!new), V>(le: (K, K) -> bool, m: map<K, V>, k: K)
    requires TotalOrder(le) && k in m && k != FirstKey(le, m)
    ensures m - {k} != map[] && FirstKey(le, m - {k}) == FirstKey(le, m)
  {
    var without, first := m - {k}, FirstKey(le, m);
    KeysWithout(m, k);
    assert first in without;
    assert IsLeast(le, m.Keys, first);
    LeastIsUnique(le, without.Keys, first);
  }

  // ------------------------------------------------ stable sorting

  function Insert<T>(le: (T, T) -> bool, x: T, s: seq<T>): seq<T> {
    if s == [] || le(x, s[0]) then [x] + s else [s[0]] + Insert(le, x, s[1..])
  }

  /** The standard library's stable sort. */
  function Sort<T>(le: (T, T) -> bool, s: seq<T>): seq<T> {
    if s == [] then [] else Insert(le, s[0], Sort(le, s[1..]))
  }

  lemma {:induction false} InsertSorts<T(!new)>(le: (T, T) -> bool, x: T, s: seq<T>)
    requires TotalPreorder(le) && SortedBy(le, s)
    ensures SortedBy(le, Insert(le, x, s))
    ensures multiset(Insert(le, x, s)) == multiset(s) + multiset{x}
  {
    if s != [] {
      assert s == [s[0]] + s[1..];
      if !le(x, s[0]) {
        InsertSorts(le, x, s[1..]);
        var r := Insert(le, x, s[1..]);
        forall y | y in r ensures le(s[0], y) {
          assert y in multiset(r);
          assert y == x || y in s[1..];
        }
      } else {
        forall y | y in s ensures le(x, y) {
        }
      }
    }
  }

  /** The elements of `s` that compare equal to `x`, in order. */
  function Ties<T>(le: (T, T) -> bool, x: T, s: seq<T>): seq<T> {
    if s == [] then []
    else (if le(x, s[0]) && le(s[0], x) then [s[0]] else []) + Ties(le, x, s[1..])
  }

  lemma {:induction false} InsertIsStable<T(!new)>(le: (T, T) -> bool, y: T, s: seq<T>, x: T)
    requires TotalPreorder(le)
    ensures Ties(le, x, Insert(le, y, s)) == Ties(le, x, [y] + s)
  {
    if s != [] && !le(y, s[0]) {
      InsertIsStable(le, y, s[1..], x);
      assert ([y] + s)[1..] == s && ([y] + s[1..])[1..] == s[1..];
      assert Insert(le, y, s) == [s[0]] + Insert(le, y, s[1..]);
      assert Insert(le, y, s)[1..] == Insert(le, y, s[1..]);
    }
  }

  /** The sort is stable: elements that compare equal keep their order. */
  lemma {:induction false} SortIsStable<T(!new)>(le: (T, T) -> bool, s: seq<T>, x: T)
    requires TotalPreorder(le)
    ensures Ties(le, x, Sort(le, s)) == Ties(le, x, s)
  {
    if s != [] {
      var rest := Sort(le, s[1..]);
      SortIsStable(le, s[1..], x);
      InsertIsStable(le, s[0], rest, x);
      assert ([s[0]] + rest)[1..] == rest;
    }
  }

  lemma {:induction false} SortSorts<T(!new)>(le: (T, T) -> bool, s: seq<T>)
    requires TotalPreorder(le)
    ensures SortedBy(le, Sort(le, s)) && multiset(Sort(le, s)) == multiset(s)
  {
    if s != [] {
      SortSorts(le, s[1..]);
      InsertSorts(le, s[0], Sort(le, s[1..]));
      assert s == [s[0]] + s[1..];
    }
  }

  lemma {:induction false} TiesIn<T>(le: (T, T) -> bool, x: T, s: seq<T>, y: T)
    ensures y in Ties(le, x, s) ==> y in s
  {
    if s != [] {
      TiesIn(le, x, s[1..], y);
    }
  }

  lemma {:induction false} TiesOrdered<T(!new)>(le: (T, T) -> bool, x: T, key: (T, T) -> bool, s: seq<T>)
    requires SortedBy(key, s)
    ensures SortedBy(key, Ties(le, x, s))
  {
    if s != [] {
      TiesOrdered(le, x, key, s[1..]);
      forall y | y in Ties(le, x, s[1..]) ensures key(s[0], y) {
        TiesIn(le, x, s[1..], y);
        var k :| 0 <= k < |s[1..]| && s[1..][k] == y;
        assert s[k + 1] == y;
      }
    }
  }

  lemma {:induction false} TieAt<T>(le: (T, T) -> bool, x: T, s: seq<T>, i: nat, j: nat) returns (p: nat, q: nat)
    requires i <= j < |s|
    requires le(x, s[i]) && le(s[i], x) && le(x, s[j]) && le(s[j], x)
    ensures p <= q < |Ties(le, x, s)| && (i < j ==> p < q)
    ensures Ties(le, x, s)[p] == s[i] && Ties(le, x, s)[q] == s[j]
    decreases |s|
  {
    var first := if le(x, s[0]) && le(s[0], x) then 1 else 0;
    if i == 0 {
      p := 0;
      if j == 0 {
        q := 0;
      } else {
        var _, r := TieAt(le, x, s[1..], j - 1, j - 1);
        q := r + 1;
      }
    } else {
      p, q := TieAt(le, x, s[1..], i - 1, j - 1);
      p, q := p + first, q + first;
    }
  }

  /** Sorting by `le` what is already in order by `key`: elements that compare equal stay in that order. */
  lemma SortKeepsOrder<T(!new)>(le: (T, T) -> bool, key: (T, T) -> bool, s: seq<T>, i: nat, j: nat)
    requires TotalPreorder(le) && SortedBy(key, s) && i < j < |Sort(le, s)| && le(Sort(le, s)[j], Sort(le, s)[i])
    ensures key(Sort(le, s)[i], Sort(le, s)[j])
  {
    var r := Sort(le, s);
    SortSorts(le, s);
    SortIsStable(le, s, r[i]);
    TiesOrdered(le, r[i], key, s);
    var p, q := TieAt(le, r[i], r, i, j);
  }
}
