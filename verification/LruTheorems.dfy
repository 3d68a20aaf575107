/** Two theorems about every history of an LRU cache: a larger cache contains a smaller one, and the order of the
    list is the order of last use. */
module LruTheorems {
  import opened LruSpec

  // ---------- inclusion ----------

  /** a is b with some entries left out: same entries, same order. */
  predicate Sub<K(==), V(==)>(a: Entries<K, V>, b: Entries<K, V>) {
    if a == [] then true
    else if b == [] then false
    else if a[0] == b[0] then Sub(a[1..], b[1..])
    else Sub(a, b[1..])
  }

  lemma {:induction false} SubTail<K, V>(a: Entries<K, V>, b: Entries<K, V>)
    requires a != [] && Sub(a, b)
    ensures Sub(a[1..], b)
    decreases |b|
  {
    if a[0] == b[0] {
      if |a| > 1 && a[1] == b[0] {
        SubTail(a[1..], b[1..]);
      }
    } else {
      SubTail(a, b[1..]);
      if |a| > 1 && a[1] == b[0] {
        SubTail(a[1..], b[1..]);
      }
    }
  }

  /** One more entry in front of b does not matter. */
  lemma SubCons<K, V>(a: Entries<K, V>, x: Entry<K, V>, b: Entries<K, V>)
    requires Sub(a, b)
    ensures Sub(a, [x] + b)
  {
    if a != [] && a[0] == x {
      SubTail(a, b);
    }
  }

  lemma {:induction false} SubMember<K, V>(a: Entries<K, V>, b: Entries<K, V>, e: Entry<K, V>)
    requires Sub(a, b) && e in a
    ensures e in b
    decreases |b|
  {
    if a[0] == b[0] {
      if e != a[0] {
        assert a == [a[0]] + a[1..];
        SubMember(a[1..], b[1..], e);
      }
    } else {
      SubMember(a, b[1..], e);
    }
  }

  /** Two entries that follow one another in a do so in b. */
  lemma {:induction false} SubOrder<K, V>(a: Entries<K, V>, b: Entries<K, V>, i: nat, j: nat) returns (i': nat, j': nat)
    requires Sub(a, b) && i < j < |a|
    ensures i' < j' < |b| && b[i'] == a[i] && b[j'] == a[j]
    decreases |b|
  {
    if a[0] == b[0] {
      if i > 0 {
        i', j' := SubOrder(a[1..], b[1..], i - 1, j - 1);
      } else {
        SubMember(a[1..], b[1..], a[1..][j - 1]);
        var k :| 0 <= k < |b[1..]| && b[1..][k] == a[j];
        i', j' := 0, k;
      }
      i', j' := if i == 0 then 0 else i' + 1, j' + 1;
    } else {
      i', j' := SubOrder(a, b[1..], i, j);
      i', j' := i' + 1, j' + 1;
    }
  }

  lemma SubFront<K, V>(x: Entry<K, V>, a: Entries<K, V>, b: Entries<K, V>)
    requires Sub(a, b)
    ensures Sub([x] + a, [x] + b)
  {
    assert ([x] + a)[1..] == a && ([x] + b)[1..] == b;
  }

  /** Dropping the same key on both sides keeps inclusion. */
  lemma {:induction false} SubWithout<K, V>(a: Entries<K, V>, b: Entries<K, V>, k: K)
    requires Sub(a, b)
    ensures Sub(Without(a, k), Without(b, k))
    decreases |b|
  {
    if a != [] {
      if a[0] == b[0] {
        SubWithout(a[1..], b[1..], k);
        if a[0].key != k {
          SubFront(a[0], Without(a[1..], k), Without(b[1..], k));
        } else {
          assert Without(a, k) == Without(a[1..], k) && Without(b, k) == Without(b[1..], k);
        }
      } else {
        SubWithout(a, b[1..], k);
        if b[0].key != k {
          SubCons(Without(a, k), b[0], Without(b[1..], k));
        } else {
          assert Without(b, k) == Without(b[1..], k);
        }
      }
    }
  }

  /** Dropping the last entry on the left keeps inclusion, and so does dropping it on both sides. */
  lemma {:induction false} SubLast<K, V>(a: Entries<K, V>, b: Entries<K, V>)
    requires Sub(a, b) && a != []
    ensures b != [] && Sub(a[..|a| - 1], b[..|b| - 1])
    decreases |b|
  {
    var a', b' := a[..|a| - 1], b[..|b| - 1];
    if a[0] == b[0] {
      if |a| > 1 {
        SubLast(a[1..], b[1..]);
        assert a'[1..] == a[1..][..|a[1..]| - 1] && b'[1..] == b[1..][..|b[1..]| - 1];
      }
    } else {
      SubLast(a, b[1..]);
      assert b'[1..] == b[1..][..|b[1..]| - 1];
      if a' != [] {
        SubCons(a', b[0], b'[1..]);
        assert b' == [b[0]] + b'[1..];
      }
    }
  }

  lemma {:induction false} SubInit<K, V>(a: Entries<K, V>, b: Entries<K, V>)
    requires Sub(a, b) && a != []
    ensures Sub(a[..|a| - 1], b)
    decreases |b|
  {
    var a' := a[..|a| - 1];
    if a[0] == b[0] {
      if |a| > 1 {
        SubInit(a[1..], b[1..]);
        assert a'[1..] == a[1..][..|a[1..]| - 1];
      }
    } else {
      SubInit(a, b[1..]);
      if a' != [] {
        SubCons(a', b[0], b[1..]);
        assert b == [b[0]] + b[1..];
      }
    }
  }

  /** What the two caches keep: the smaller is included in the larger, and lags behind by no more entries than the
      capacities differ. The second part is what makes the larger never evict what the smaller keeps. */
  ghost predicate Included<K, V>(small: nat, large: nat, a: Entries<K, V>, b: Entries<K, V>) {
    && Distinct(a) && Distinct(b) && |a| <= small && |b| <= large
    && Sub(a, b) && |b| - |a| <= large - small
  }

  lemma SubLookup<K, V>(a: Entries<K, V>, b: Entries<K, V>, k: K)
    requires Sub(a, b) && Distinct(a) && Distinct(b) && Has(a, k)
    ensures Has(b, k) && Lookup(a, k) == Lookup(b, k)
  {
    LookupSpec(a, k);
    LookupSpec(b, k);
    SubMember(a, b, Entry(k, Lookup(a, k).value));
  }

  lemma IncludedGet<K, V>(small: nat, large: nat, a: Entries<K, V>, b: Entries<K, V>, k: K)
    requires Included(small, large, a, b)
    ensures Sub(Touched(a, k), Touched(b, k)) && |Touched(b, k)| == |b| && |Touched(a, k)| == |a|
  {
    LookupSpec(a, k);
    LookupSpec(b, k);
    WithoutSpec(a, k);
    WithoutSpec(b, k);
    if Has(a, k) {
      SubLookup(a, b, k);
      SubWithout(a, b, k);
    } else if Has(b, k) {
      WithoutAbsent(a, k);
      SubWithout(a, b, k);
      SubCons(a, Entry(k, Lookup(b, k).value), Without(b, k));
    }
  }

  lemma IncludedPut<K, V>(small: nat, large: nat, a: Entries<K, V>, b: Entries<K, V>, k: K, v: V)
    requires 1 <= small <= large && Included(small, large, a, b)
    ensures
      var a', b' := After(small, a, Put(k, v)), After(large, b, Put(k, v));
      Sub(a', b') && |b'| - |a'| <= large - small
  {
    WithoutSpec(a, k);
    WithoutSpec(b, k);
    var e := Entry(k, v);
    if Has(a, k) {
      SubLookup(a, b, k);
      SubWithout(a, b, k);
      SubFront(e, Without(a, k), Without(b, k));
    } else if Has(b, k) {
      WithoutAbsent(a, k);
      SubWithout(a, b, k);
      if |a| == small {
        SubInit(a, Without(b, k));
        SubFront(e, a[..|a| - 1], Without(b, k));
      } else {
        SubFront(e, a, Without(b, k));
      }
    } else if |a| == small {
      if |b| == large {
        SubLast(a, b);
        SubFront(e, a[..|a| - 1], b[..|b| - 1]);
      } else {
        SubInit(a, b);
        SubFront(e, a[..|a| - 1], b);
      }
    } else {
      SubFront(e, a, b);
    }
  }

  lemma IncludedDel<K, V>(small: nat, large: nat, a: Entries<K, V>, b: Entries<K, V>, k: K)
    requires Included(small, large, a, b)
    ensures Sub(Without(a, k), Without(b, k)) && |Without(b, k)| - |Without(a, k)| <= large - small
  {
    WithoutSpec(a, k);
    WithoutSpec(b, k);
    SubWithout(a, b, k);
    if Has(a, k) {
      SubLookup(a, b, k);
    }
  }

  lemma IncludedStep<K, V>(small: nat, large: nat, a: Entries<K, V>, b: Entries<K, V>, op: Op<K, V>)
    requires 1 <= small <= large && Included(small, large, a, b)
    ensures Included(small, large, After(small, a, op), After(large, b, op))
  {
    AfterKeeps(small, a, op);
    AfterKeeps(large, b, op);
    match op {
      case Get(k) => IncludedGet(small, large, a, b, k);
      case Put(k, v) => IncludedPut(small, large, a, b, k, v);
      case Del(k) => IncludedDel(small, large, a, b, k);
      case Clear =>
    }
  }

  lemma {:induction false} RunsIncluded<K, V>(small: nat, large: nat, ops: seq<Op<K, V>>)
    requires 1 <= small <= large
    ensures Included(small, large, Run(small, ops), Run(large, ops))
  {
    if ops != [] {
      RunsIncluded(small, large, ops[..|ops| - 1]);
      IncludedStep(small, large, Run(small, ops[..|ops| - 1]), Run(large, ops[..|ops| - 1]), ops[|ops| - 1]);
    }
  }

  /** For any common history the contents of the smaller cache are a subsequence of those of the larger: every hit in
      the smaller is the same hit in the larger, and the recency order agrees. */
  lemma Inclusion<K, V>(small: nat, large: nat, ops: seq<Op<K, V>>, k: K)
    requires 1 <= small <= large
    ensures Sub(Run(small, ops), Run(large, ops))
    ensures Has(Run(small, ops), k) ==> Lookup(Run(large, ops), k) == Lookup(Run(small, ops), k)
  {
    RunsIncluded(small, large, ops);
    if Has(Run(small, ops), k) {
      SubLookup(Run(small, ops), Run(large, ops), k);
    }
  }

  // ---------- recency ----------

  datatype Stamped<V> = Stamped(value: V, at: nat)

  /** The textbook cache: a map that remembers when each key was last touched; a full cache drops the oldest. */
  ghost function Timed<K(!new), V>(capacity: nat, m: map<K, Stamped<V>>, now: nat, op: Op<K, V>): map<K, Stamped<V>> {
    match op
    case Get(k) => if k in m then m[k := Stamped(m[k].value, now)] else m
    case Put(k, v) =>
      (if k !in m && |m| == capacity then m - Oldest(m) else m)[k := Stamped(v, now)]
    case Del(k) => m - {k}
    case Clear => map[]
  }

  ghost function Oldest<K(!new), V>(m: map<K, Stamped<V>>): set<K> {
    set k | k in m && forall j :: j in m ==> m[k].at <= m[j].at
  }

  ghost function TimedRun<K(!new), V>(capacity: nat, ops: seq<Op<K, V>>): map<K, Stamped<V>> {
    if ops == [] then map[]
    else Timed(capacity, TimedRun(capacity, ops[..|ops| - 1]), |ops|, ops[|ops| - 1])
  }

  /** The list is ordered by the stamps of the map. */
  ghost predicate Ordered<K(!new), V>(s: Entries<K, V>, m: map<K, Stamped<V>>) {
    && (forall i :: 0 <= i < |s| ==> s[i].key in m)
    && (forall i, j :: 0 <= i < j < |s| ==> m[s[i].key].at > m[s[j].key].at)
  }

  /** The list holds the entries of the map, the latest first. */
  ghost predicate Agrees<K(!new), V>(s: Entries<K, V>, m: map<K, Stamped<V>>, now: nat) {
    && Distinct(s)
    && (forall i :: 0 <= i < |s| ==> s[i].key in m && m[s[i].key].value == s[i].value && m[s[i].key].at < now)
    && (forall k :: k in m ==> Has(s, k))
    && Ordered(s, m)
  }

  lemma {:induction false} SizesAgree<K(!new), V>(s: Entries<K, V>, m: map<K, Stamped<V>>)
    requires Distinct(s) && (forall i :: 0 <= i < |s| ==> s[i].key in m) && (forall k :: k in m ==> Has(s, k))
    ensures |s| == |m|
  {
    if s == [] {
      assert m == map[];
    } else {
      var k := s[0].key;
      var rest := s[1..];
      assert forall i :: 0 <= i < |rest| ==> rest[i] == s[i + 1];
      forall j | j in m - {k} ensures Has(rest, j) {
        var i :| 0 <= i < |s| && s[i].key == j;
        assert rest[i - 1].key == j;
      }
      SizesAgree(rest, m - {k});
      assert (m - {k}).Keys == m.Keys - {k};
    }
  }

  lemma AgreesFront<K(!new), V>(s: Entries<K, V>, m: map<K, Stamped<V>>, now: nat, k: K, v: V)
    requires Agrees(s, m, now) && !Has(s, k)
    ensures Agrees([Entry(k, v)] + s, m[k := Stamped(v, now)], now + 1)
  {
    var t, n := [Entry(k, v)] + s, m[k := Stamped(v, now)];
    forall j | j in n ensures Has(t, j) {
      if j == k {
        assert t[0].key == k;
      } else {
        var i :| 0 <= i < |s| && s[i].key == j;
        assert t[i + 1].key == j;
      }
    }
  }

  lemma HasAfterDrop<K, V>(s: Entries<K, V>, i: nat, k: K)
    requires i < |s| && Has(s, k) && s[i].key != k
    ensures Has(s[..i] + s[i + 1..], k)
  {
    var x :| 0 <= x < |s| && s[x].key == k;
    assert (s[..i] + s[i + 1..])[if x < i then x else x - 1].key == k;
  }

  /** s without its entry i. */
  function Drop<K, V>(s: Entries<K, V>, i: nat): (t: Entries<K, V>)
    requires i < |s|
    ensures |t| == |s| - 1
    ensures forall j :: 0 <= j < |t| ==> t[j] == s[if j < i then j else j + 1]
  {
    s[..i] + s[i + 1..]
  }

  lemma OrderedDrop<K(!new), V>(s: Entries<K, V>, m: map<K, Stamped<V>>, i: nat)
    requires i < |s| && Distinct(s) && Ordered(s, m)
    ensures Distinct(Drop(s, i)) && Ordered(Drop(s, i), m - {s[i].key})
  {
  }

  lemma AgreesDrop<K(!new), V>(s: Entries<K, V>, m: map<K, Stamped<V>>, now: nat, i: nat)
    requires Agrees(s, m, now) && i < |s|
    ensures Agrees(Drop(s, i), m - {s[i].key}, now)
  {
    OrderedDrop(s, m, i);
    forall j | j in m - {s[i].key} ensures Has(Drop(s, i), j) {
      HasAfterDrop(s, i, j);
    }
  }

  lemma AgreesWithout<K(!new), V>(s: Entries<K, V>, m: map<K, Stamped<V>>, now: nat, k: K)
    requires Agrees(s, m, now) && Has(s, k)
    ensures Agrees(Without(s, k), m - {k}, now)
  {
    var i :| 0 <= i < |s| && s[i].key == k;
    WithoutAt(s, i);
    AgreesDrop(s, m, now, i);
  }

  /** The last entry of the list is the one oldest key of the map. */
  lemma LastIsOldest<K(!new), V>(s: Entries<K, V>, m: map<K, Stamped<V>>, now: nat)
    requires Agrees(s, m, now) && s != []
    ensures Oldest(m) == {s[|s| - 1].key}
    ensures Without(s, s[|s| - 1].key) == s[..|s| - 1]
  {
    var n := |s| - 1;
    forall k | k in m ensures m[s[n].key].at <= m[k].at && (m[k].at <= m[s[n].key].at ==> k == s[n].key) {
      var i :| 0 <= i < |s| && s[i].key == k;
    }
    WithoutAt(s, n);
    assert s[n + 1..] == [];
  }

  lemma AgreesEvict<K(!new), V>(s: Entries<K, V>, m: map<K, Stamped<V>>, now: nat, k: K, v: V)
    requires Agrees(s, m, now) && !Has(s, k) && s != []
    ensures Agrees([Entry(k, v)] + s[..|s| - 1], (m - Oldest(m))[k := Stamped(v, now)], now + 1)
  {
    LastIsOldest(s, m, now);
    var last := s[|s| - 1].key;
    AgreesWithout(s, m, now, last);
    assert forall i :: 0 <= i < |s| - 1 ==> s[..|s| - 1][i] == s[i];
    AgreesFront(s[..|s| - 1], m - {last}, now, k, v);
  }

  lemma AgreesGet<K(!new), V>(capacity: nat, s: Entries<K, V>, m: map<K, Stamped<V>>, now: nat, k: K)
    requires Agrees(s, m, now)
    ensures Agrees(Touched(s, k), Timed(capacity, m, now, Get(k)), now + 1)
  {
    LookupSpec(s, k);
    if Has(s, k) {
      AgreesTouch(s, m, now, k, Lookup(s, k).value);
      var i :| 0 <= i < |s| && s[i].key == k;
      assert s[i] in s;
    }
  }

  lemma AgreesPut<K(!new), V>(capacity: nat, s: Entries<K, V>, m: map<K, Stamped<V>>, now: nat, k: K, v: V)
    requires capacity >= 1 && Agrees(s, m, now) && |s| == |m|
    ensures Agrees(After(capacity, s, Put(k, v)), Timed(capacity, m, now, Put(k, v)), now + 1)
  {
    if Has(s, k) {
      AgreesTouch(s, m, now, k, v);
    } else if |s| == capacity {
      AgreesEvict(s, m, now, k, v);
    } else {
      AgreesFront(s, m, now, k, v);
    }
  }

  lemma AgreesDel<K(!new), V>(s: Entries<K, V>, m: map<K, Stamped<V>>, now: nat, k: K)
    requires Agrees(s, m, now)
    ensures Agrees(Without(s, k), m - {k}, now + 1)
  {
    if Has(s, k) {
      AgreesWithout(s, m, now, k);
    } else {
      WithoutAbsent(s, k);
      assert m - {k} == m;
    }
  }

  lemma AgreesStep<K(!new), V>(capacity: nat, s: Entries<K, V>, m: map<K, Stamped<V>>, now: nat, op: Op<K, V>)
    requires capacity >= 1 && Agrees(s, m, now)
    ensures Agrees(After(capacity, s, op), Timed(capacity, m, now, op), now + 1)
  {
    SizesAgree(s, m);
    match op {
      case Get(k) => AgreesGet(capacity, s, m, now, k);
      case Put(k, v) => AgreesPut(capacity, s, m, now, k, v);
      case Del(k) => AgreesDel(s, m, now, k);
      case Clear =>
    }
  }

  lemma AgreesTouch<K(!new), V>(s: Entries<K, V>, m: map<K, Stamped<V>>, now: nat, k: K, v: V)
    requires Agrees(s, m, now) && Has(s, k)
    ensures k in m && Agrees([Entry(k, v)] + Without(s, k), m[k := Stamped(v, now)], now + 1)
  {
    AgreesWithout(s, m, now, k);
    WithoutSpec(s, k);
    AgreesFront(Without(s, k), m - {k}, now, k, v);
    assert (m - {k})[k := Stamped(v, now)] == m[k := Stamped(v, now)];
  }

  /** The order of the list is the order of last use: for every history the list and the textbook cache hold the same
      entries, listed from the latest to the earliest touch. */
  lemma {:induction false} ListIsRecency<K(!new), V>(capacity: nat, ops: seq<Op<K, V>>)
    requires capacity >= 1
    ensures Agrees(Run(capacity, ops), TimedRun(capacity, ops), |ops| + 1)
  {
    if ops != [] {
      var front := ops[..|ops| - 1];
      ListIsRecency(capacity, front);
      AgreesStep(capacity, Run(capacity, front), TimedRun(capacity, front), |ops|, ops[|ops| - 1]);
    }
  }
}
