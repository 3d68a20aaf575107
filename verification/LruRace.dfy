/**
 The list under the cache when several readers move nodes to its front at once. LoadTTL looks entries up under a read
 lock, which lets readers in together, but the lookup writes links: each statement of the move is a step here, and the
 steps of the readers interleave.
 */
module LruRace {

  /** The links of the nodes, which are numbers; the root is number 0. */
  datatype Links = Links(next: map<nat, nat>, prev: map<nat, nat>)

  const ROOT := 0

  function At(m: map<nat, nat>, k: nat): nat {
    if k in m then m[k] else k
  }

  /** The nodes form a ring in this order, the root first. */
  ghost predicate Ring(l: Links, ring: seq<nat>) {
    && ring != [] && ring[0] == ROOT
    && (forall i, j :: 0 <= i < j < |ring| ==> ring[i] != ring[j])
    && (forall i :: 0 <= i < |ring| ==> ring[i] in l.next && ring[i] in l.prev)
    && (forall i :: 0 <= i < |ring| - 1 ==> l.next[ring[i]] == ring[i + 1])
    && (forall i :: 0 < i < |ring| ==> l.prev[ring[i]] == ring[i - 1])
    && l.next[ring[|ring| - 1]] == ROOT && l.prev[ROOT] == ring[|ring| - 1]
  }

  /** A reader that moves a node to the front. `at`: its next statement, from 0, the test whether the node is in front
      already, to 6; 7 when it is done. */
  datatype Reader = Reader(node: nat, at: nat)

  datatype Memory = Memory(links: Links, readers: seq<Reader>)

  /** The six statements of the move. */
  function Store(l: Links, e: nat, at: nat): Links {
    match at
    case 1 => l.(next := l.next[At(l.prev, e) := At(l.next, e)])
    case 2 => l.(prev := l.prev[At(l.next, e) := At(l.prev, e)])
    case 3 => l.(prev := l.prev[e := ROOT])
    case 4 => l.(next := l.next[e := At(l.next, ROOT)])
    case 5 => l.(next := l.next[At(l.prev, e) := e])
    case 6 => l.(prev := l.prev[At(l.next, e) := e])
    case _ => l
  }

  function Next(l: Links, r: Reader): Reader {
    if r.at == 0 && At(l.next, ROOT) == r.node then r.(at := 7)
    else if r.at < 7 then r.(at := r.at + 1)
    else r
  }

  /** Reader i does its next statement. */
  function Step(m: Memory, i: nat): Memory {
    if i >= |m.readers| then m
    else
      var r := m.readers[i];
      Memory(Store(m.links, r.node, r.at), m.readers[i := Next(m.links, r)])
  }

  function Run(m: Memory, turns: seq<nat>): Memory
    decreases |turns|
  {
    if turns == [] then m else Run(Step(m, turns[0]), turns[1..])
  }

  lemma {:induction false} RunAppend(m: Memory, a: seq<nat>, b: seq<nat>)
    ensures Run(m, a + b) == Run(Run(m, a), b)
    decreases |a|
  {
    if a == [] {
      assert a + b == b;
    } else {
      RunAppend(Step(m, a[0]), a[1..], b);
      assert (a + b)[1..] == a[1..] + b;
    }
  }

  predicate Done(m: Memory) {
    forall r :: r in m.readers ==> r.at == 7
  }

  // ---------- the statements of one reader ----------

  /** The statements after the first. */
  function Finish(l: Links, e: nat): Links {
    Store(Store(Store(Store(Store(l, e, 2), e, 3), e, 4), e, 5), e, 6)
  }

  /** Where the node was, its neighbours apart; where it goes, between the root and the first node. */
  lemma FinishLinks(l: Links, e: nat, after: nat, first: nat)
    requires ROOT in l.next && e in l.next && e in l.prev
    requires l.next[e] == after && l.next[ROOT] == first && e != ROOT && e != after && e != first
    ensures Finish(l, e) == Links(l.next[e := first][ROOT := e], l.prev[after := l.prev[e]][e := ROOT][first := e])
  {
    var a := Store(l, e, 2);
    assert a == l.(prev := l.prev[after := l.prev[e]]);
    var b := Store(a, e, 3);
    var c := Store(b, e, 4);
    assert c == Links(l.next[e := first], a.prev[e := ROOT]);
    var d := Store(c, e, 5);
    assert d == c.(next := l.next[e := first][ROOT := e]);
  }

  lemma OneTurn(m: Memory, i: nat)
    ensures Run(m, [i]) == Step(m, i)
  {
    assert Run(Step(m, i), [][..]) == Step(m, i);
  }

  /** A reader past its first statement finishes alone. */
  lemma FinishIsRun(m: Memory, i: nat)
    requires i < |m.readers| && m.readers[i].at == 2
    ensures
      var e := m.readers[i].node;
      Run(m, [i, i, i, i, i]) == Memory(Finish(m.links, e), m.readers[i := Reader(e, 7)])
  {
    var e, rs := m.readers[i].node, m.readers;
    var a := Store(m.links, e, 2);
    var b := Store(a, e, 3);
    var c := Store(b, e, 4);
    var d := Store(c, e, 5);
    assert Step(m, i) == Memory(a, rs[i := Reader(e, 3)]);
    assert Step(Step(m, i), i) == Memory(b, rs[i := Reader(e, 4)]);
    assert Step(Memory(b, rs[i := Reader(e, 4)]), i) == Memory(c, rs[i := Reader(e, 5)]);
    assert Step(Memory(c, rs[i := Reader(e, 5)]), i) == Memory(d, rs[i := Reader(e, 6)]);
    FiveTurns(m, i);
  }

  lemma FiveTurns(m: Memory, i: nat)
    ensures Run(m, [i, i, i, i, i]) == Step(Step(Step(Step(Step(m, i), i), i), i), i)
  {
    var a := Step(m, i);
    var b := Step(a, i);
    var c := Step(b, i);
    OneTurn(Step(c, i), i);
    MoreTurns(c, i, [i]);
    MoreTurns(b, i, [i, i]);
    MoreTurns(a, i, [i, i, i]);
    MoreTurns(m, i, [i, i, i, i]);
    assert [i] + [i] == [i, i] && [i] + [i, i] == [i, i, i] && [i] + [i, i, i] == [i, i, i, i];
    assert [i] + [i, i, i, i] == [i, i, i, i, i];
  }

  lemma MoreTurns(m: Memory, i: nat, turns: seq<nat>)
    ensures Run(m, [i] + turns) == Run(Step(m, i), turns)
  {
    assert ([i] + turns)[1..] == turns;
  }

  // ---------- one reader alone ----------

  /** The ring with its node p moved to the front. */
  function Moved(ring: seq<nat>, p: nat): seq<nat>
    requires 0 < p < |ring|
  {
    [ring[0], ring[p]] + (ring[1..p] + ring[p + 1..])
  }

  /** The node after p. */
  function After(ring: seq<nat>, p: nat): nat
    requires p < |ring|
  {
    if p + 1 < |ring| then ring[p + 1] else ROOT
  }

  /** Links in which node p has been moved to the front of this ring. */
  predicate IsMoved(l: Links, t: Links, ring: seq<nat>, p: nat)
    requires 1 < p < |ring|
  {
    var e, before, after, first := ring[p], ring[p - 1], After(ring, p), ring[1];
    && t.next == l.next[before := after][e := first][ROOT := e]
    && t.prev == l.prev[after := before][e := ROOT][first := e]
  }

  lemma MovedAt(ring: seq<nat>, p: nat, i: nat)
    requires 1 < p < |ring| && i < |ring|
    ensures |Moved(ring, p)| == |ring|
    ensures Moved(ring, p)[i] == if i == 0 then ring[0] else if i == 1 then ring[p] else if i <= p then ring[i - 1] else ring[i]
  {
  }

  lemma MovedDistinct(ring: seq<nat>, p: nat)
    requires 1 < p < |ring| && forall i, j :: 0 <= i < j < |ring| ==> ring[i] != ring[j]
    ensures forall i, j :: 0 <= i < j < |ring| ==> Moved(ring, p)[i] != Moved(ring, p)[j]
  {
    forall i, j | 0 <= i < j < |ring| ensures Moved(ring, p)[i] != Moved(ring, p)[j] {
      MovedAt(ring, p, i);
      MovedAt(ring, p, j);
    }
  }

  lemma MovedNext(l: Links, t: Links, ring: seq<nat>, p: nat, i: nat)
    requires Ring(l, ring) && 1 < p < |ring| && IsMoved(l, t, ring, p) && i < |ring|
    ensures Moved(ring, p)[i] in t.next && t.next[Moved(ring, p)[i]] == After(Moved(ring, p), i)
  {
    MovedAt(ring, p, i);
    if i + 1 < |ring| {
      MovedAt(ring, p, i + 1);
    }
  }

  lemma MovedPrev(l: Links, t: Links, ring: seq<nat>, p: nat, i: nat)
    requires Ring(l, ring) && 1 < p < |ring| && IsMoved(l, t, ring, p) && i < |ring|
    ensures
      var moved := Moved(ring, p);
      moved[i] in t.prev && t.prev[moved[i]] == if i == 0 then moved[|ring| - 1] else moved[i - 1]
  {
    MovedAt(ring, p, i);
    MovedAt(ring, p, if i == 0 then |ring| - 1 else i - 1);
  }

  lemma MovedIsRing(l: Links, t: Links, ring: seq<nat>, p: nat)
    requires Ring(l, ring) && 1 < p < |ring| && IsMoved(l, t, ring, p)
    ensures Ring(t, Moved(ring, p))
  {
    MovedDistinct(ring, p);
    forall i | 0 <= i < |ring| ensures Linked(t, Moved(ring, p), i) {
      MovedNext(l, t, ring, p, i);
      MovedPrev(l, t, ring, p, i);
    }
    LinkedIsRing(t, Moved(ring, p));
  }

  /** Node i is linked with its neighbours. */
  predicate Linked(l: Links, ring: seq<nat>, i: nat)
    requires i < |ring|
  {
    && ring[i] in l.next && l.next[ring[i]] == After(ring, i)
    && ring[i] in l.prev && l.prev[ring[i]] == if i == 0 then ring[|ring| - 1] else ring[i - 1]
  }

  lemma LinkedIsRing(l: Links, ring: seq<nat>)
    requires ring != [] && ring[0] == ROOT && forall i, j :: 0 <= i < j < |ring| ==> ring[i] != ring[j]
    requires forall i :: 0 <= i < |ring| ==> Linked(l, ring, i)
    ensures Ring(l, ring)
  {
    forall i | 0 <= i < |ring| ensures ring[i] in l.next && ring[i] in l.prev && l.next[ring[i]] == After(ring, i) {
      assert Linked(l, ring, i);
    }
    forall i | 0 < i < |ring| ensures l.prev[ring[i]] == ring[i - 1] {
      assert Linked(l, ring, i);
    }
    assert Linked(l, ring, 0) && Linked(l, ring, |ring| - 1);
  }

  /** Without another reader a node that is not in front already is moved to the front of the ring. */
  lemma AloneMoves(l: Links, ring: seq<nat>, p: nat)
    requires Ring(l, ring) && 1 < p < |ring|
    ensures
      var m := Run(Memory(l, [Reader(ring[p], 0)]), [0, 0, 0, 0, 0, 0, 0]);
      Done(m) && Ring(m.links, Moved(ring, p))
  {
    var e := ring[p];
    var m := Memory(l, [Reader(e, 0)]);
    NodeLinks(l, ring, p);
    var u := l.(next := l.next[ring[p - 1] := After(ring, p)]);
    OneUnlinked(l, e, ring[p - 1], After(ring, p), ring[1]);
    FinishIsRun(Run(m, [0, 0]), 0);
    RunAppend(m, [0, 0], [0, 0, 0, 0, 0]);
    assert [0, 0] + [0, 0, 0, 0, 0] == [0, 0, 0, 0, 0, 0, 0];
    FinishLinks(u, e, After(ring, p), ring[1]);
    MovedIsRing(l, Finish(u, e), ring, p);
  }

  lemma NodeLinks(l: Links, ring: seq<nat>, p: nat)
    requires Ring(l, ring) && 1 < p < |ring|
    ensures ROOT in l.next && ring[p] in l.next && ring[p] in l.prev && ring[p - 1] != ROOT
    ensures l.next[ROOT] == ring[1] && l.next[ring[p]] == After(ring, p) && l.prev[ring[p]] == ring[p - 1]
    ensures ring[p] !in [ROOT, ring[1], ring[p - 1], After(ring, p)]
  {
  }

  lemma OneUnlinked(l: Links, e: nat, before: nat, after: nat, first: nat)
    requires ROOT in l.next && e in l.next && e in l.prev && l.next[ROOT] == first && first != e
    requires l.next[e] == after && l.prev[e] == before
    ensures
      Run(Memory(l, [Reader(e, 0)]), [0, 0]) == Memory(l.(next := l.next[before := after]), [Reader(e, 2)])
  {
    var m := Memory(l, [Reader(e, 0)]);
    assert Step(m, 0) == Memory(l, [Reader(e, 1)]);
    MoreTurns(m, 0, [0]);
    OneTurn(Step(m, 0), 0);
    assert [0] + [0] == [0, 0];
  }

  // ---------- two readers ----------

  /** After the tests reader 0 does the first statement of its move, then reader 1; then each finishes alone. */
  const RACE: seq<nat> := [0, 1, 0, 1] + [0, 0, 0, 0, 0] + [1, 1, 1, 1, 1]

  /** k links forward from the root. */
  function Follow(l: Links, k: nat): nat {
    if k == 0 then ROOT else At(l.next, Follow(l, k - 1))
  }

  lemma {:induction false} FollowRing(l: Links, ring: seq<nat>, k: nat)
    requires Ring(l, ring) && k <= |ring|
    ensures Follow(l, k) == if k < |ring| then ring[k] else ROOT
  {
    if k > 0 {
      FollowRing(l, ring, k - 1);
    }
  }

  /** Two neighbours, neither of them in front. */
  predicate Neighbours(l: Links, e: nat, f: nat, before: nat, after: nat, first: nat) {
    && {ROOT, e, f, before} <= l.next.Keys && {e, f} <= l.prev.Keys
    && l.next[before] == e && l.next[e] == f && l.next[f] == after && l.next[ROOT] == first
    && l.prev[e] == before && l.prev[f] == e
    && |{ROOT, e, f, before}| == 4 && after !in {e, f, before} && first !in {ROOT, e, f}
  }

  lemma TwoUnlinked(l: Links, e: nat, f: nat, before: nat, after: nat, first: nat)
    requires Neighbours(l, e, f, before, after, first)
    ensures
      Run(Memory(l, [Reader(e, 0), Reader(f, 0)]), [0, 1, 0, 1]) ==
      Memory(l.(next := l.next[before := f][e := after]), [Reader(e, 2), Reader(f, 2)])
  {
    var m := Memory(l, [Reader(e, 0), Reader(f, 0)]);
    var a := Step(m, 0);
    assert a == Memory(l, [Reader(e, 1), Reader(f, 0)]);
    var b := Step(a, 1);
    assert b == Memory(l, [Reader(e, 1), Reader(f, 1)]);
    var c := Step(b, 0);
    assert c == Memory(l.(next := l.next[before := f]), [Reader(e, 2), Reader(f, 1)]);
    assert [0, 1, 0, 1][1..] == [1, 0, 1] && [1, 0, 1][1..] == [0, 1] && [0, 1][1..] == [1];
    OneTurn(c, 1);
  }

  /** The links after the race. */
  lemma RaceLinks(l: Links, e: nat, f: nat, before: nat, after: nat, first: nat)
    requires Neighbours(l, e, f, before, after, first)
    ensures
      var m := Run(Memory(l, [Reader(e, 0), Reader(f, 0)]), RACE);
      && Done(m)
      && m.links.next == l.next[before := f][e := first][f := e][ROOT := f]
  {
    var m := Memory(l, [Reader(e, 0), Reader(f, 0)]);
    TwoUnlinked(l, e, f, before, after, first);
    var a := Run(m, [0, 1, 0, 1]);
    FinishIsRun(a, 0);
    FinishLinks(a.links, e, after, first);
    var b := Run(a, [0, 0, 0, 0, 0]);
    FinishIsRun(b, 1);
    FinishLinks(b.links, f, after, e);
    RunAppend(m, [0, 1, 0, 1], [0, 0, 0, 0, 0]);
    RunAppend(m, [0, 1, 0, 1] + [0, 0, 0, 0, 0], [1, 1, 1, 1, 1]);
  }

  /** The walk from the root is caught among the nodes up to the two. */
  lemma {:induction false} Caught(l: Links, t: Links, ring: seq<nat>, p: nat, k: nat)
    requires Ring(l, ring) && 1 < p && p + 1 < |ring| && k >= 1
    requires t.next == l.next[ring[p - 1] := ring[p + 1]][ring[p] := ring[1]][ring[p + 1] := ring[p]][ROOT := ring[p + 1]]
    ensures exists i :: 1 <= i <= p + 1 && Follow(t, k) == ring[i]
  {
    if k == 1 {
      assert Follow(t, 0) == ROOT;
    } else {
      Caught(l, t, ring, p, k - 1);
      var i :| 1 <= i <= p + 1 && Follow(t, k - 1) == ring[i];
      var j := if i < p - 1 then i + 1 else if i == p - 1 then p + 1 else if i == p then 1 else p;
      assert t.next[ring[i]] == ring[j];
    }
  }

  /**
   For every list, and any two neighbours in it of which neither is in front: two readers that move them to the front
   at the same time can leave links that are no ring in any order, and a walk from the front that never ends.
   */
  lemma TwoReadersBreak(l: Links, ring: seq<nat>, p: nat)
    requires Ring(l, ring) && 1 < p && p + 1 < |ring|
    ensures
      var m := Run(Memory(l, [Reader(ring[p], 0), Reader(ring[p + 1], 0)]), RACE);
      && Done(m)
      && (forall k :: k >= 1 ==> Follow(m.links, k) != ROOT)
      && (forall other :: !Ring(m.links, other))
  {
    var m := Run(Memory(l, [Reader(ring[p], 0), Reader(ring[p + 1], 0)]), RACE);
    AreNeighbours(l, ring, p);
    RaceLinks(l, ring[p], ring[p + 1], ring[p - 1], After(ring, p + 1), ring[1]);
    forall k | k >= 1 ensures Follow(m.links, k) != ROOT {
      Caught(l, m.links, ring, p, k);
    }
    forall other ensures !Ring(m.links, other) {
      if Ring(m.links, other) {
        FollowRing(m.links, other, |other|);
      }
    }
  }

  lemma AreNeighbours(l: Links, ring: seq<nat>, p: nat)
    requires Ring(l, ring) && 1 < p && p + 1 < |ring|
    ensures Neighbours(l, ring[p], ring[p + 1], ring[p - 1], After(ring, p + 1), ring[1])
  {
  }
}
