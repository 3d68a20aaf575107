/** The LRU cache as a sequence of entries, most recently touched first. */
module LruSpec {
  import opened Wrappers

  datatype Entry<K, V> = Entry(key: K, value: V)

  type Entries<K, V> = seq<Entry<K, V>>

  datatype Op<K, V> = Get(key: K) | Put(key: K, value: V) | Del(key: K) | Clear

  predicate Has<K(==), V>(s: Entries<K, V>, k: K) {
    exists i :: 0 <= i < |s| && s[i].key == k
  }

  /** No key occurs twice. */
  predicate Distinct<K(==), V>(s: Entries<K, V>) {
    forall i, j :: 0 <= i < j < |s| ==> s[i].key != s[j].key
  }

  function Lookup<K(==), V>(s: Entries<K, V>, k: K): (r: Option<V>) {
    if s == [] then None
    else if s[0].key == k then Some(s[0].value)
    else Lookup(s[1..], k)
  }

  function Without<K(==), V>(s: Entries<K, V>, k: K): (r: Entries<K, V>) {
    if s == [] then []
    else (if s[0].key == k then [] else [s[0]]) + Without(s[1..], k)
  }

  /** The entries after an operation. */
  function After<K(==), V>(capacity: nat, s: Entries<K, V>, op: Op<K, V>): Entries<K, V> {
    match op
    case Get(k) => Touched(s, k)
    case Put(k, v) =>
      if Has(s, k) then [Entry(k, v)] + Without(s, k)
      else if |s| == capacity && s != [] then [Entry(k, v)] + s[..|s| - 1]
      else [Entry(k, v)] + s
    case Del(k) => Without(s, k)
    case Clear => []
  }

  /** A hit moves the entry to the front; a miss changes nothing. */
  function Touched<K(==), V>(s: Entries<K, V>, k: K): Entries<K, V> {
    var v := Lookup(s, k);
    if v.Some? then [Entry(k, v.value)] + Without(s, k) else s
  }

  function Run<K(==), V>(capacity: nat, ops: seq<Op<K, V>>): Entries<K, V> {
    if ops == [] then [] else After(capacity, Run(capacity, ops[..|ops| - 1]), ops[|ops| - 1])
  }

  // ---------- lookups ----------

  lemma {:induction false} LookupSpec<K, V>(s: Entries<K, V>, k: K)
    ensures Lookup(s, k).Some? <==> Has(s, k)
    ensures Lookup(s, k).Some? ==> Entry(k, Lookup(s, k).value) in s
    ensures Distinct(s) ==> forall e :: e in s && e.key == k ==> Lookup(s, k) == Some(e.value)
  {
    if s != [] {
      LookupSpec(s[1..], k);
      assert s == [s[0]] + s[1..];
      if Has(s[1..], k) {
        var i :| 0 <= i < |s[1..]| && s[1..][i].key == k;
        assert s[i + 1].key == k;
      }
      if s[0].key == k && Distinct(s) {
        forall e | e in s && e.key == k ensures e == s[0] {
          var j :| 0 <= j < |s| && s[j] == e;
        }
      }
    }
  }

  lemma {:induction false} WithoutMembers<K, V>(s: Entries<K, V>, k: K)
    ensures !Has(Without(s, k), k)
    ensures forall e :: e in Without(s, k) <==> e in s && e.key != k
  {
    if s != [] {
      WithoutMembers(s[1..], k);
      assert s == [s[0]] + s[1..];
    }
  }

  lemma WithoutMember<K, V>(s: Entries<K, V>, k: K, e: Entry<K, V>)
    requires e in Without(s, k)
    ensures e in s && e.key != k
  {
    WithoutMembers(s, k);
  }

  lemma HasTail<K, V>(s: Entries<K, V>, k: K)
    requires s != [] && s[0].key != k
    ensures Has(s, k) <==> Has(s[1..], k)
  {
    if Has(s, k) {
      var i :| 0 <= i < |s| && s[i].key == k;
      assert s[1..][i - 1].key == k;
    }
    if Has(s[1..], k) {
      var i :| 0 <= i < |s[1..]| && s[1..][i].key == k;
      assert s[i + 1].key == k;
    }
  }

  lemma DistinctHead<K, V>(s: Entries<K, V>, e: Entry<K, V>)
    requires Distinct(s) && s != [] && e in s[1..]
    ensures e.key != s[0].key
  {
    var i :| 0 <= i < |s[1..]| && s[1..][i] == e;
    assert s[i + 1] == e;
  }

  lemma {:induction false} WithoutDistinct<K, V>(s: Entries<K, V>, k: K)
    requires Distinct(s)
    ensures Distinct(Without(s, k)) && |Without(s, k)| == |s| - (if Has(s, k) then 1 else 0)
  {
    if s != [] {
      WithoutDistinct(s[1..], k);
      var rest := Without(s[1..], k);
      if s[0].key == k {
        assert !Has(s[1..], k);
      } else {
        HasTail(s, k);
        forall j | 0 <= j < |rest| ensures rest[j].key != s[0].key {
          WithoutMember(s[1..], k, rest[j]);
          DistinctHead(s, rest[j]);
        }
      }
    }
  }

  lemma WithoutSpec<K, V>(s: Entries<K, V>, k: K)
    ensures !Has(Without(s, k), k)
    ensures forall e :: e in Without(s, k) <==> e in s && e.key != k
    ensures Distinct(s) ==> Distinct(Without(s, k)) && |Without(s, k)| == |s| - (if Has(s, k) then 1 else 0)
  {
    WithoutMembers(s, k);
    if Distinct(s) {
      WithoutDistinct(s, k);
    }
  }

  lemma {:induction false} WithoutAbsent<K, V>(s: Entries<K, V>, k: K)
    requires !Has(s, k)
    ensures Without(s, k) == s
  {
    if s != [] {
      assert s[0].key != k;
      assert forall i :: 0 <= i < |s[1..]| ==> s[1..][i] == s[i + 1];
      WithoutAbsent(s[1..], k);
    }
  }

  /** The position form: dropping the one entry with the key. */
  lemma {:induction false} WithoutAt<K, V>(s: Entries<K, V>, i: nat)
    requires Distinct(s) && i < |s|
    ensures Without(s, s[i].key) == s[..i] + s[i + 1..]
  {
    if i == 0 {
      assert !Has(s[1..], s[0].key);
      WithoutAbsent(s[1..], s[0].key);
    } else {
      assert s[1..][i - 1] == s[i] && s[0].key != s[i].key;
      WithoutAt(s[1..], i - 1);
      assert s[..i] + s[i + 1..] == [s[0]] + (s[1..][..i - 1] + s[1..][i..]);
    }
  }

  // ---------- what every history keeps ----------

  lemma AfterKeeps<K, V>(capacity: nat, s: Entries<K, V>, op: Op<K, V>)
    requires capacity >= 1 && Distinct(s) && |s| <= capacity
    ensures Distinct(After(capacity, s, op)) && |After(capacity, s, op)| <= capacity
  {
    if !op.Clear? {
      WithoutSpec(s, op.key);
      LookupSpec(s, op.key);
    }
  }

  /** Whatever the history: no key twice, never more than `capacity` entries. */
  lemma {:induction false} RunKeeps<K, V>(capacity: nat, ops: seq<Op<K, V>>)
    requires capacity >= 1
    ensures Distinct(Run(capacity, ops)) && |Run(capacity, ops)| <= capacity
  {
    if ops != [] {
      RunKeeps(capacity, ops[..|ops| - 1]);
      AfterKeeps(capacity, Run(capacity, ops[..|ops| - 1]), ops[|ops| - 1]);
    }
  }

  // ---------- the front and the victim ----------

  /** What is touched is in front with the value just read or written, and can be read back. */
  lemma TouchedFirst<K, V>(capacity: nat, s: Entries<K, V>, op: Op<K, V>)
    requires capacity >= 1 && Distinct(s) && (op.Put? || (op.Get? && Has(s, op.key)))
    ensures
      var t := After(capacity, s, op);
      && t != [] && t[0].key == op.key
      && t[0].value == (if op.Put? then op.value else Lookup(s, op.key).value)
      && Lookup(t, op.key) == Some(t[0].value)
  {
    LookupSpec(s, op.key);
  }

  /** Only Put of a new key on a full cache makes any other key go away, and then it is exactly the last one. */
  lemma OthersStay<K, V>(capacity: nat, s: Entries<K, V>, op: Op<K, V>, e: Entry<K, V>)
    requires capacity >= 1 && Distinct(s) && |s| <= capacity && e in s && !op.Clear? && e.key != op.key
    ensures
      var evicts := op.Put? && !Has(s, op.key) && |s| == capacity;
      e in After(capacity, s, op) <==> !(evicts && e == s[|s| - 1])
  {
    WithoutSpec(s, op.key);
    LookupSpec(s, op.key);
    if op.Put? && !Has(s, op.key) && |s| == capacity {
      var i :| 0 <= i < |s| && s[i] == e;
      if i < |s| - 1 {
        assert s[..|s| - 1][i] == e;
      }
    }
  }

  /** An operation adds no entry but the one it puts. */
  lemma AfterMember<K, V>(capacity: nat, s: Entries<K, V>, op: Op<K, V>, e: Entry<K, V>)
    requires e in After(capacity, s, op)
    ensures e in s || (op.Put? && e == Entry(op.key, op.value))
  {
    match op {
      case Get(k) =>
        LookupSpec(s, k);
        if Lookup(s, k).Some? && e != Entry(k, Lookup(s, k).value) {
          assert e in Without(s, k);
          WithoutMember(s, k, e);
        }
      case Put(k, v) =>
        if e != Entry(k, v) {
          if Has(s, k) {
            assert e in Without(s, k);
            WithoutMember(s, k, e);
          } else if |s| == capacity && s != [] {
            assert e in s[..|s| - 1];
          }
        }
      case Del(k) => WithoutMember(s, k, e);
      case Clear =>
    }
  }
}
