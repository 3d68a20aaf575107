/** The LRU cache of the program: a map from keys to the nodes of a linked list, kept in agreement. */
module Lru {
  import opened Wrappers
  import opened LruSpec
  import opened LinkedList

  /** The entries of a ring, from the front. */
  ghost function EntriesOf<K, V>(ring: seq<Element<Entry<K, V>>>): (s: Entries<K, V>)
    reads ring
    requires ring != [] && forall i {:trigger ring[i].value} :: 0 < i < |ring| ==> ring[i].value.Some?
    ensures |s| == |ring| - 1
    ensures forall i :: 0 <= i < |s| ==> s[i] == ring[i + 1].value.value
  {
    seq(|ring| - 1, i requires 0 <= i < |ring| - 1 && ring[i + 1].value.Some? reads ring => ring[i + 1].value.value)
  }

  class Cache<K(==), V> {
    const capacity: nat
    const list: List<Entry<K, V>>
    var cache: map<K, Element<Entry<K, V>>>

    /** The map holds exactly the nodes of the list, each under the key of its entry. */
    ghost predicate Valid()
      reads this, list, list.ring
    {
      && list.Valid() && 1 <= capacity && list.len <= capacity
      && (forall i {:trigger list.ring[i].value} :: 0 < i < |list.ring| ==>
            list.ring[i].value.value.key in cache && cache[list.ring[i].value.value.key] == list.ring[i])
      && (forall k :: k in cache ==>
            cache[k] in list.ring && cache[k] != list.root && cache[k].value.Some? && cache[k].value.value.key == k)
    }

    ghost function Contents(): Entries<K, V>
      reads this, list, list.ring
      requires Valid()
    {
      EntriesOf(list.ring)
    }

    constructor (capacity: nat)
      requires capacity >= 1
      ensures Valid() && Contents() == [] && this.capacity == capacity
      ensures fresh(list) && fresh(list.ring)
    {
      this.capacity := capacity;
      var l := new List<Entry<K, V>>();
      list := l;
      cache := map[];
    }

    /** No key is listed twice, and the map knows exactly the listed keys. */
    lemma ContentsDistinct()
      requires Valid()
      ensures Distinct(Contents())
      ensures forall k :: k in cache <==> Has(Contents(), k)
    {
      var s, ring := Contents(), list.ring;
      forall i, j | 0 <= i < j < |s| ensures s[i].key != s[j].key {
        assert ring[i + 1] != ring[j + 1];
      }
      forall k | k in cache ensures Has(s, k) {
        var p :| 0 <= p < |ring| && ring[p] == cache[k];
        assert s[p - 1].key == k;
      }
      forall k | Has(s, k) ensures k in cache {
        var i :| 0 <= i < |s| && s[i].key == k;
        assert ring[i + 1].value.value.key == k;
      }
    }

    /** Where the node of a key is listed, and what the entries are without it. */
    lemma Locate(k: K) returns (p: nat)
      requires Valid() && k in cache
      ensures 0 < p < |list.ring| && list.ring[p] == cache[k]
      ensures Lookup(Contents(), k) == Some(cache[k].value.value.value)
      ensures Without(Contents(), k) == Contents()[..p - 1] + Contents()[p..]
      ensures Has(Contents(), k)
    {
      var s := Contents();
      ContentsDistinct();
      p :| 0 <= p < |list.ring| && list.ring[p] == cache[k];
      assert s[p - 1].key == k && s[p - 1] in s;
      WithoutAt(s, p - 1);
      LookupSpec(s, k);
    }

    /** A node moved to the front: the map still agrees with the list. */
    twostate lemma MovedMap(p: nat)
      requires old(Valid()) && 0 < p < |old(list.ring)|
      requires list.Valid() && list.root == old(list.root) && list.len == old(list.len) && cache == old(cache)
      requires list.ring == [list.root, old(list.ring)[p]] + (old(list.ring)[1..p] + old(list.ring)[p + 1..])
      requires forall x :: x in old(list.ring) ==> x.value == old(x.value)
      ensures Valid()
    {
      var was, now := old(list.ring), list.ring;
      forall i | 0 < i < |now|
        ensures now[i].value.value.key in cache && cache[now[i].value.value.key] == now[i]
      {
        var j := if i == 1 then p else if i <= p then i - 1 else i;
        assert now[i] == was[j] && was[j].value == old(was[j].value);
      }
      forall k | k in cache
        ensures cache[k] in now && cache[k] != list.root && cache[k].value.Some? && cache[k].value.value.key == k
      {
        var j :| 0 <= j < |was| && was[j] == cache[k];
        assert now[if j == p then 1 else if j < p then j + 1 else j] == cache[k];
      }
    }

    /** A node moved to the front: so did its entry. */
    twostate lemma MovedEntries(p: nat)
      requires old(list.Valid()) && list.Valid() && 0 < p < |old(list.ring)|
      requires list.ring == [list.root, old(list.ring)[p]] + (old(list.ring)[1..p] + old(list.ring)[p + 1..])
      requires forall x :: x in old(list.ring) ==> x.value == old(x.value)
      ensures var s := old(EntriesOf(list.ring)); EntriesOf(list.ring) == [s[p - 1]] + (s[..p - 1] + s[p..])
    {
      var was, now := old(list.ring), list.ring;
      var s, t := old(EntriesOf(list.ring)), EntriesOf(list.ring);
      var u := [s[p - 1]] + (s[..p - 1] + s[p..]);
      assert |t| == |u|;
      forall i | 0 <= i < |t| ensures t[i] == u[i] {
        var j := if i == 0 then p else if i < p then i else i + 1;
        assert now[i + 1] == was[j] && was[j] in was;
        assert u[i] == s[j - 1];
      }
    }

    // ---------- the list and the map change together ----------

    /** list.Remove and delete. */
    method Forget(e: Element<Entry<K, V>>, ghost p: nat)
      requires Valid() && 0 < p < |list.ring| && list.ring[p] == e
      modifies this`cache, list`len, list`ring, list.ring
      ensures Valid() && list.len == old(list.len) - 1
      ensures list.ring == old(list.ring)[..p] + old(list.ring)[p + 1..]
      ensures var s := old(Contents()); Contents() == s[..p - 1] + s[p..]
      ensures cache.Keys == old(cache.Keys) - {old(Contents())[p - 1].key}
    {
      list.Remove(e, p);
      cache := cache - {e.value.value.key};
      ForgottenMap(p);
      ForgottenEntries(p);
    }

    twostate lemma ForgottenMap(p: nat)
      requires old(Valid()) && 0 < p < |old(list.ring)|
      requires list.Valid() && list.root == old(list.root)
      requires list.ring == old(list.ring)[..p] + old(list.ring)[p + 1..]
      requires cache == old(cache) - {old(list.ring[p].value.value.key)}
      requires forall x :: x in old(list.ring) ==> x.value == old(x.value)
      ensures Valid()
    {
      var was, now := old(list.ring), list.ring;
      forall i | 0 < i < |now|
        ensures now[i].value.value.key in cache && cache[now[i].value.value.key] == now[i]
      {
        var j := if i < p then i else i + 1;
        assert now[i] == was[j] && was[j].value == old(was[j].value) && was[j] != was[p];
      }
      forall k | k in cache
        ensures cache[k] in now && cache[k] != list.root && cache[k].value.Some? && cache[k].value.value.key == k
      {
        var j :| 0 <= j < |was| && was[j] == cache[k];
        assert now[if j < p then j else j - 1] == cache[k];
      }
    }

    twostate lemma ForgottenEntries(p: nat)
      requires old(list.Valid()) && list.Valid() && 0 < p < |old(list.ring)|
      requires list.ring == old(list.ring)[..p] + old(list.ring)[p + 1..]
      requires forall x :: x in old(list.ring) ==> x.value == old(x.value)
      ensures var s := old(EntriesOf(list.ring)); EntriesOf(list.ring) == s[..p - 1] + s[p..]
    {
      var was, now := old(list.ring), list.ring;
      var s, t := old(EntriesOf(list.ring)), EntriesOf(list.ring);
      var u := s[..p - 1] + s[p..];
      assert |t| == |u|;
      forall i | 0 <= i < |t| ensures t[i] == u[i] {
        var j := if i + 1 < p then i + 1 else i + 2;
        assert now[i + 1] == was[j] && was[j] in was;
        assert u[i] == s[j - 1];
      }
    }

    /** list.PushFront and the map entry for it. */
    method Remember(key: K, value: V)
      requires Valid() && key !in cache && list.len < capacity
      modifies this`cache, list`len, list`ring, list.ring
      ensures Valid() && Contents() == [Entry(key, value)] + old(Contents())
    {
      var e := list.PushFront(Entry(key, value));
      cache := cache[key := e];
      RememberedMap();
      RememberedEntries();
    }

    twostate lemma RememberedMap()
      requires old(Valid()) && old(list.len) < capacity
      requires list.Valid() && list.root == old(list.root) && |list.ring| == |old(list.ring)| + 1
      requires list.ring[2..] == old(list.ring)[1..] && list.ring[1].value.value.key !in old(cache)
      requires cache == old(cache)[list.ring[1].value.value.key := list.ring[1]]
      requires forall x :: x in old(list.ring) ==> x.value == old(x.value)
      ensures Valid()
    {
      var was, now := old(list.ring), list.ring;
      forall i | 0 < i < |now|
        ensures now[i].value.value.key in cache && cache[now[i].value.value.key] == now[i]
      {
        if i > 1 {
          assert now[i] == now[2..][i - 2] == was[i - 1] && was[i - 1].value == old(was[i - 1].value);
        }
      }
      forall k | k in cache
        ensures cache[k] in now && cache[k] != list.root && cache[k].value.Some? && cache[k].value.value.key == k
      {
        if k != now[1].value.value.key {
          var j :| 0 <= j < |was| && was[j] == cache[k];
          assert now[2..][j - 1] == was[1..][j - 1] == cache[k];
        }
      }
    }

    twostate lemma RememberedEntries()
      requires old(Valid()) && Valid() && |list.ring| == |old(list.ring)| + 1
      requires list.ring[2..] == old(list.ring)[1..]
      requires forall x :: x in old(list.ring) ==> x.value == old(x.value)
      ensures Contents() == [list.ring[1].value.value] + old(Contents())
    {
      var was, now := old(list.ring), list.ring;
      var s, t := old(Contents()), Contents();
      assert |t| == |s| + 1;
      forall i | 0 < i < |t| ensures t[i] == s[i - 1] {
        assert now[i + 1] == now[2..][i - 1] == was[i] && was[i] in was;
      }
      assert t[0] == now[1].value.value;
    }

    /** The value of the front entry is replaced in its node. */
    method Rewrite(e: Element<Entry<K, V>>, value: V)
      requires Valid() && |list.ring| > 1 && list.ring[1] == e
      modifies e`value
      ensures Valid()
      ensures var s := old(Contents()); Contents() == [Entry(s[0].key, value)] + s[1..]
    {
      e.value := Some(Entry(e.value.value.key, value));
      ghost var s, t := old(Contents()), Contents();
      assert forall i :: 1 < i < |list.ring| ==> list.ring[i] != e;
      assert forall i :: 0 < i < |t| ==> t[i] == s[i];
    }

    /** list.MoveToFront on the node of a key. */
    method Front(e: Element<Entry<K, V>>, ghost p: nat)
      requires Valid() && 0 < p < |list.ring| && list.ring[p] == e
      modifies list`ring, list.ring
      ensures Valid() && list.ring[0] == old(list.ring[0]) && |list.ring| == |old(list.ring)| && list.ring[1] == e
      ensures e.value == old(e.value)
      ensures var s := old(Contents()); Contents() == [s[p - 1]] + (s[..p - 1] + s[p..])
    {
      list.MoveToFront(e, p);
      MovedMap(p);
      MovedEntries(p);
    }

    // ---------- the operations ----------

    method Get(key: K) returns (r: Option<V>)
      requires Valid()
      modifies list`ring, list.ring
      ensures Valid()
      ensures Contents() == After(capacity, old(Contents()), Op.Get(key))
      ensures r == Lookup(old(Contents()), key)
    {
      ContentsDistinct();
      LookupSpec(Contents(), key);
      if key in cache {
        var e := cache[key];
        ghost var p := Locate(key);
        Front(e, p);
        return Some(e.value.value.value);
      }
      return None;
    }

    /** Find: some entry that passes the filter, moved to the front. The map is searched in no particular order. */
    method Find(filter: (K, V) -> bool) returns (r: Option<Entry<K, V>>)
      requires Valid()
      modifies list`ring, list.ring
      ensures Valid()
      ensures r.None? <==> forall e :: e in old(Contents()) ==> !filter(e.key, e.value)
      ensures r.None? ==> Contents() == old(Contents())
      ensures r.Some? ==> r.value in old(Contents()) && filter(r.value.key, r.value.value)
      ensures r.Some? ==> Contents() == Touched(old(Contents()), r.value.key)
    {
      var todo := cache.Keys;
      while todo != {}
        invariant todo <= cache.Keys
        invariant forall k :: k in cache && k !in todo ==> !filter(k, cache[k].value.value.value)
      {
        var k :| k in todo;
        todo := todo - {k};
        var e := cache[k];
        if filter(k, e.value.value.value) {
          ghost var p := Locate(k);
          ghost var s := Contents();
          assert s[p - 1] == e.value.value && s[p - 1] in s;
          Front(e, p);
          return Some(Entry(k, e.value.value.value));
        }
      }
      forall e | e in Contents() ensures !filter(e.key, e.value) {
        var i :| 0 <= i < |Contents()| && Contents()[i] == e;
        assert list.ring[i + 1].value.value == e;
      }
      return None;
    }

    method Put(key: K, value: V)
      requires Valid()
      modifies this`cache, list`len, list`ring, list.ring
      ensures Valid()
      ensures Contents() == After(capacity, old(Contents()), Op.Put(key, value))
    {
      ContentsDistinct();
      if key in cache {
        ghost var p := Locate(key);
        Update(key, value, p);
      } else {
        Insert(key, value);
      }
    }

    /** Put of a key that is there. */
    method Update(key: K, value: V, ghost p: nat)
      requires Valid() && key in cache && 0 < p < |list.ring| && list.ring[p] == cache[key]
      modifies list`ring, list.ring
      ensures Valid()
      ensures var s := old(Contents()); Contents() == [Entry(key, value)] + (s[..p - 1] + s[p..])
    {
      var e := cache[key];
      Front(e, p);
      Rewrite(e, value);
    }

    /** Put of a key that is not there. */
    method Insert(key: K, value: V)
      requires Valid() && key !in cache
      modifies this`cache, list`len, list`ring, list.ring
      ensures Valid()
      ensures
        var s := old(Contents());
        Contents() == [Entry(key, value)] + if |s| == capacity then s[..|s| - 1] else s
    {
      if list.len == capacity {
        Evict();
      }
      Remember(key, value);
    }

    /** The last entry goes. */
    method Evict()
      requires Valid() && list.len > 0
      modifies this`cache, list`len, list`ring, list.ring
      ensures Valid() && list.len == old(list.len) - 1 && cache.Keys <= old(cache.Keys)
      ensures list.ring == old(list.ring)[..|old(list.ring)| - 1]
      ensures var s := old(Contents()); s != [] && Contents() == s[..|s| - 1]
    {
      var oldest := list.Back();
      ghost var n := |list.ring| - 1;
      Forget(oldest, n);
      assert old(Contents())[n..] == [] && old(list.ring)[n + 1..] == [];
    }

    method Del(key: K)
      requires Valid()
      modifies this`cache, list`len, list`ring, list.ring
      ensures Valid()
      ensures Contents() == After(capacity, old(Contents()), Op.Del(key))
    {
      ContentsDistinct();
      if key in cache {
        ghost var p := Locate(key);
        Forget(cache[key], p);
      } else {
        WithoutAbsent(Contents(), key);
      }
    }

    method Clear()
      requires Valid()
      modifies this`cache, list`len, list`ring, list.ring
      ensures Valid()
      ensures Contents() == After(capacity, old(Contents()), Op.Clear)
    {
      assert list.root in list.ring by {
        assert list.ring[0] == list.root;
      }
      cache := map[];
      list.Init();
      assert list.ring == [list.root];
    }

    method Dump() returns (dump: map<K, V>)
      requires Valid()
      ensures forall k :: k in dump <==> Has(Contents(), k)
      ensures forall k :: k in dump ==> Lookup(Contents(), k) == Some(dump[k])
    {
      dump := map[];
      var todo := cache.Keys;
      while todo != {}
        invariant todo <= cache.Keys && dump.Keys == cache.Keys - todo
        invariant forall k :: k in dump ==> dump[k] == cache[k].value.value.value
      {
        var k :| k in todo;
        todo := todo - {k};
        dump := dump[k := cache[k].value.value.value];
      }
      ContentsDistinct();
      forall k | k in dump ensures Lookup(Contents(), k) == Some(dump[k]) {
        var p := Locate(k);
      }
    }
  }
}
