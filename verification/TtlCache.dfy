/**
 The TTL cache over the LRU. Times are nanoseconds since the zero time; newValue(key, t) is what newValue(key) gives
 when it is called at moment t. A refresh takes up to `delay`, any number, from that call to its reading of the clock.
 */
module TtlCache {
  import opened Wrappers
  import opened LruSpec

  /** time.Duration */
  type duration = d: int | -0x8000_0000_0000_0000 <= d <= 0x7FFF_FFFF_FFFF_FFFF

  const MAX_DURATION: duration := 0x7FFF_FFFF_FFFF_FFFF

  /** cmp.Or(ttl, time.Second) */
  function Effective(ttl: duration): duration {
    if ttl == 0 then 1_000_000_000 else ttl
  }

  /** time.Since saturates. */
  function Elapsed(since: nat, now: nat): (d: duration)
    requires since <= now
    ensures d >= 0
  {
    if now - since <= MAX_DURATION then now - since else MAX_DURATION
  }

  /** The contents of a CacheValue; the zero time stands for "never stored". `made` is history: when newValue was
      called for the value. */
  datatype Cell<V> = Cell(value: Option<V>, made: nat, updateTime: nat)

  predicate Stale<V>(cell: Cell<V>, ttl: duration, now: nat)
    requires cell.updateTime <= now
  {
    Elapsed(cell.updateTime, now) > Effective(ttl)
  }

  /** What an uninterrupted CacheValue.LoadTTL at moment `now` leaves in the cell. */
  function Loaded<V>(cell: Cell<V>, ttl: duration, now: nat, newValue: nat -> V): Cell<V>
    requires cell.updateTime <= now
  {
    if Stale(cell, ttl, now) then Cell(Some(newValue(now)), now, now) else cell
  }

  class CacheValue<V> {
    var updateTime: nat
    var value: Option<V>
    ghost var made: nat

    constructor ()
      ensures View() == Cell(None, 0, 0)
    {
      updateTime, value, made := 0, None, 0;
    }

    ghost function View(): Cell<V>
      reads this
    {
      Cell(value, made, updateTime)
    }

    /** The value, if there is one, is what newValue gave at the update time. */
    ghost predicate Valid(newValue: nat -> V)
      reads this
    {
      if value.None? then updateTime == 0 else made == updateTime && value == Some(newValue(made))
    }

    /** CacheValue.LoadTTL at moment `now`. None is the panic of an unchecked type assertion on a value that was never
        stored; else the value is no older than the ttl, or of this moment. A ttl of 0 stands for a second. */
    method LoadTTL(ttl: duration, now: nat, newValue: nat -> V) returns (r: Option<V>)
      requires Valid(newValue) && updateTime <= now
      modifies this
      ensures Valid(newValue) && View() == Loaded(old(View()), ttl, now, newValue) && r == value
      ensures r.None? <==> old(value).None? && Elapsed(0, now) <= Effective(ttl)
      ensures r.Some? ==>
                && made <= now && r == Some(newValue(made))
                && (made == now || Elapsed(made, now) <= Effective(ttl))
      // the time since the update saturates; within the ttl everything stays as it is, beyond it a new value is made
      ensures
        var limit := if ttl == 0 then 1_000_000_000 else ttl;
        var age := if now - old(updateTime) <= 0x7FFF_FFFF_FFFF_FFFF then now - old(updateTime) else 0x7FFF_FFFF_FFFF_FFFF;
        if age <= limit then View() == old(View()) && r == old(value)
        else made == now && updateTime == now && r == value == Some(newValue(now))
      ensures ttl < 0 ==> r == Some(newValue(now))
    {
      if Elapsed(updateTime, now) > Effective(ttl) {
        value := Some(newValue(now));
        made := now;
        updateTime := now;
      }
      return value;
    }
  }

  // ---------- the package-level LoadTTL, by many callers at once ----------

  /** How far a call has come: it has missed under the read lock; it holds an entry; it has found the entry stale, at
      moment `at`; it has called newValue, at moment `made`; it has stored the value; it has read the clock; it has
      found the entry fresh or made it so. */
  datatype Call<K> =
    | Missed(key: K, ttl: duration)
    | Holding(key: K, ttl: duration, id: nat)
    | Refreshing(key: K, ttl: duration, id: nat, at: nat)
    | Computed(key: K, ttl: duration, id: nat, at: nat, made: nat)
    | Stored(key: K, ttl: duration, id: nat, at: nat, made: nat)
    | Clocked(key: K, ttl: duration, id: nat, at: nat, time: nat)
    | Checked(key: K, ttl: duration, id: nat, at: nat)

  datatype Returned<K, V> = Returned(key: K, ttl: duration, id: nat, at: nat, until: nat, value: Option<V>)

  /** `owner` is history: the key each entry was made for. */
  datatype State<!K(==), V> = State(
    now: nat,
    lru: Entries<K, nat>,
    cells: seq<Cell<V>>,
    owner: seq<K>,
    calls: map<nat, Call<K>>,
    returned: seq<Returned<K, V>>)

  datatype Event<K> =
    | Tick(elapsed: nat)
    | Begin(caller: nat, key: K, ttl: duration)
    | Acquire(caller: nat)
    | Check(caller: nat)
    | Compute(caller: nat)
    | StoreValue(caller: nat)
    | ReadClock(caller: nat)
    | StoreTime(caller: nat)
    | Finish(caller: nat)

  function Init<K(==), V>(): State<K, V> {
    State(0, [], [], [], map[], [])
  }

  /** A refresh under way from the call of newValue to the reading of the clock. */
  predicate Making<K>(call: Call<K>) {
    call.Computed? || call.Stored?
  }

  /** The clock may go on to `now`: no refresh takes longer than `delay`. */
  ghost predicate InTime<K(!new), V>(delay: nat, s: State<K, V>, now: nat) {
    forall c :: c in s.calls && Making(s.calls[c]) ==> now <= s.calls[c].made + delay
  }

  /** The caller is there, with an entry that exists. */
  predicate Has<K, V>(s: State<K, V>, c: nat) {
    c in s.calls && !s.calls[c].Missed? && s.calls[c].id < |s.cells|
  }

  /** One step of one caller, or of the clock. Each lock section is one step, and so is each access to the clock or to
      a field of the entry; an event that does not apply changes nothing. */
  ghost function Step<K(!new), V>(capacity: nat, newValue: (K, nat) -> V, delay: nat, s: State<K, V>, e: Event<K>):
    State<K, V>
  {
    match e
    case Tick(d) => if InTime(delay, s, s.now + d) then s.(now := s.now + d) else s
    case Begin(c, key, ttl) =>
      if c in s.calls then s
      else
        var hit := Lookup(s.lru, key);
        s.(lru := After(capacity, s.lru, Get(key)),
           calls := s.calls[c := if hit.Some? then Holding(key, ttl, hit.value) else Missed(key, ttl)])
    case Acquire(c) =>
      if c !in s.calls || !s.calls[c].Missed? then s
      else
        var key, ttl := s.calls[c].key, s.calls[c].ttl;
        var hit := Lookup(s.lru, key);
        if hit.Some? then
          s.(lru := After(capacity, s.lru, Get(key)), calls := s.calls[c := Holding(key, ttl, hit.value)])
        else
          var id := |s.cells|;
          s.(lru := After(capacity, s.lru, Put(key, id)), cells := s.cells + [Cell(None, 0, 0)],
             owner := s.owner + [key], calls := s.calls[c := Holding(key, ttl, id)])
    case Check(c) => if Has(s, c) && s.calls[c].Holding? then CheckStep(s, c) else s
    case Compute(c) =>
      if Has(s, c) && s.calls[c].Refreshing? then
        var Refreshing(key, ttl, id, at) := s.calls[c];
        s.(calls := s.calls[c := Computed(key, ttl, id, at, s.now)])
      else s
    case StoreValue(c) =>
      if Has(s, c) && s.calls[c].Computed? then
        var Computed(key, ttl, id, at, made) := s.calls[c];
        s.(cells := s.cells[id := s.cells[id].(value := Some(newValue(key, made)), made := made)],
           calls := s.calls[c := Stored(key, ttl, id, at, made)])
      else s
    case ReadClock(c) =>
      if Has(s, c) && s.calls[c].Stored? then
        var Stored(key, ttl, id, at, made) := s.calls[c];
        s.(calls := s.calls[c := Clocked(key, ttl, id, at, s.now)])
      else s
    case StoreTime(c) =>
      if Has(s, c) && s.calls[c].Clocked? then
        var Clocked(key, ttl, id, at, time) := s.calls[c];
        s.(cells := s.cells[id := s.cells[id].(updateTime := time)], calls := s.calls[c := Checked(key, ttl, id, at)])
      else s
    case Finish(c) =>
      if Has(s, c) && s.calls[c].Checked? then
        var Checked(key, ttl, id, at) := s.calls[c];
        s.(calls := s.calls - {c}, returned := s.returned + [Returned(key, ttl, id, at, s.now, s.cells[id].value)])
      else s
  }

  /** The check: the entry is fresh, or a refresh begins. */
  function CheckStep<K(==), V>(s: State<K, V>, c: nat): State<K, V>
    requires Has(s, c) && s.calls[c].Holding?
  {
    var Holding(key, ttl, id) := s.calls[c];
    var stale := s.cells[id].updateTime <= s.now && Stale(s.cells[id], ttl, s.now);
    s.(calls := s.calls[c := if stale then Refreshing(key, ttl, id, s.now) else Checked(key, ttl, id, s.now)])
  }

  ghost function Run<K(!new), V>(capacity: nat, newValue: (K, nat) -> V, delay: nat, events: seq<Event<K>>):
    State<K, V>
  {
    if events == [] then Init()
    else
      Step(capacity, newValue, delay, Run(capacity, newValue, delay, events[..|events| - 1]), events[|events| - 1])
  }

  // ---------- what every step keeps ----------

  /** A cell holds what its owner's newValue gave, and its update time is at most two delays later. */
  ghost predicate CellOk<K, V>(newValue: (K, nat) -> V, delay: nat, key: K, cell: Cell<V>, now: nat) {
    && cell.updateTime <= now && cell.made <= now
    && (cell.value.None? ==> cell.updateTime == 0)
    && (cell.value.Some? ==>
          cell.value.value == newValue(key, cell.made) && cell.updateTime <= cell.made + 2 * delay)
  }

  /** What a call knows about its entry; `at` is the moment of its check. */
  predicate CallOk<K, V>(delay: nat, now: nat, cell: Cell<V>, call: Call<K>)
    requires !call.Missed? && !call.Holding?
  {
    && call.at <= now
    && match call
       case Refreshing(_, _, _, at) => true
       case Computed(_, _, _, at, made) => at <= made <= now <= made + delay
       case Stored(_, _, _, at, made) =>
         && at <= made <= now <= made + delay && cell.value.Some?
         && made <= cell.made + delay && at <= cell.made + delay
       case Clocked(_, _, _, at, time) =>
         cell.value.Some? && time <= now && time <= cell.made + 2 * delay && at <= cell.made + delay
       case Checked(_, ttl, _, at) =>
         if cell.value.None? then Elapsed(0, at) <= Effective(ttl) else Recent(delay, ttl, at, cell.made)
  }

  /** A value made at moment t is recent enough for a check at moment `at`. */
  predicate Recent(delay: nat, ttl: duration, at: nat, t: nat) {
    at - t <= Effective(ttl) + 2 * delay || at - t <= delay || Effective(ttl) == MAX_DURATION
  }

  ghost predicate CallIn<K(!new), V>(delay: nat, s: State<K, V>, call: Call<K>) {
    call.Missed? ||
    (call.id < |s.cells| == |s.owner| && s.owner[call.id] == call.key
     && (call.Holding? || CallOk(delay, s.now, s.cells[call.id], call)))
  }

  ghost predicate CellsOk<K(!new), V>(newValue: (K, nat) -> V, delay: nat, s: State<K, V>) {
    |s.owner| == |s.cells| && forall i :: 0 <= i < |s.cells| ==> CellOk(newValue, delay, s.owner[i], s.cells[i], s.now)
  }

  ghost predicate LruOk<K(!new), V>(s: State<K, V>) {
    forall i :: 0 <= i < |s.lru| ==> s.lru[i].value < |s.owner| && s.owner[s.lru[i].value] == s.lru[i].key
  }

  ghost predicate CallsOk<K(!new), V>(delay: nat, s: State<K, V>) {
    forall c :: c in s.calls ==> CallIn(delay, s, s.calls[c])
  }

  /** What a call may return: what newValue of its own key gave at some moment recent enough, or nothing. */
  ghost predicate ReturnOk<K(!new), V>(newValue: (K, nat) -> V, delay: nat, r: Returned<K, V>) {
    if r.value.None? then Elapsed(0, r.at) <= Effective(r.ttl) else Fresh(newValue, delay, r)
  }

  ghost predicate Fresh<K(!new), V>(newValue: (K, nat) -> V, delay: nat, r: Returned<K, V>) {
    exists t: nat {:trigger newValue(r.key, t)} ::
      t <= r.until && Recent(delay, r.ttl, r.at, t) && r.value == Some(newValue(r.key, t))
  }

  ghost predicate ReturnsOk<K(!new), V>(newValue: (K, nat) -> V, delay: nat, s: State<K, V>) {
    forall i :: 0 <= i < |s.returned| ==> ReturnOk(newValue, delay, s.returned[i])
  }

  ghost predicate Inv<K(!new), V>(newValue: (K, nat) -> V, delay: nat, s: State<K, V>) {
    CellsOk(newValue, delay, s) && LruOk(s) && CallsOk(delay, s) && ReturnsOk(newValue, delay, s)
  }

  /** The entries of the LRU after an operation name cells of the right owner, if they did before. */
  lemma LruOwners<K, V>(capacity: nat, lru: Entries<K, nat>, op: Op<K, nat>, owner: seq<K>)
    requires forall i :: 0 <= i < |lru| ==> lru[i].value < |owner| && owner[lru[i].value] == lru[i].key
    requires op.Put? ==> op.value < |owner| && owner[op.value] == op.key
    ensures
      var t := After(capacity, lru, op);
      forall i :: 0 <= i < |t| ==> t[i].value < |owner| && owner[t[i].value] == t[i].key
  {
    var t := After(capacity, lru, op);
    forall i | 0 <= i < |t| ensures t[i].value < |owner| && owner[t[i].value] == t[i].key {
      assert t[i] in t;
      AfterMember(capacity, lru, op, t[i]);
      if t[i] in lru {
        var j :| 0 <= j < |lru| && lru[j] == t[i];
      }
    }
  }

  lemma HitOwner<K(!new), V>(s: State<K, V>, key: K)
    requires LruOk(s)
    ensures
      var hit := Lookup(s.lru, key);
      hit.Some? ==> hit.value < |s.owner| && s.owner[hit.value] == key
  {
    LookupSpec(s.lru, key);
    var hit := Lookup(s.lru, key);
    if hit.Some? {
      var j :| 0 <= j < |s.lru| && s.lru[j] == Entry(key, hit.value);
    }
  }

  lemma BeginKeeps<K(!new), V>(capacity: nat, newValue: (K, nat) -> V, delay: nat, s: State<K, V>, c: nat, key: K, ttl: duration)
    requires Inv(newValue, delay, s)
    ensures Inv(newValue, delay, Step(capacity, newValue, delay, s, Begin(c, key, ttl)))
  {
    var t := Step(capacity, newValue, delay, s, Begin(c, key, ttl));
    LruOwners<K, V>(capacity, s.lru, Get(key), s.owner);
    HitOwner(s, key);
    forall d | d in t.calls ensures CallIn(delay, t, t.calls[d]) {
      assert d in s.calls ==> CallIn(delay, s, s.calls[d]);
    }
  }

  lemma AcquireKeeps<K(!new), V>(capacity: nat, newValue: (K, nat) -> V, delay: nat, s: State<K, V>, c: nat)
    requires Inv(newValue, delay, s)
    ensures Inv(newValue, delay, Step(capacity, newValue, delay, s, Acquire(c)))
  {
    if c in s.calls && s.calls[c].Missed? {
      var key := s.calls[c].key;
      var t := Step(capacity, newValue, delay, s, Acquire(c));
      HitOwner(s, key);
      if Lookup(s.lru, key).Some? {
        LruOwners<K, V>(capacity, s.lru, Get(key), s.owner);
      } else {
        LruOwners<K, V>(capacity, s.lru, Put(key, |s.cells|), s.owner + [key]);
      }
      forall d | d in t.calls ensures CallIn(delay, t, t.calls[d]) {
        assert CallIn(delay, s, s.calls[d]);
      }
    }
  }

  lemma TickKeeps<K(!new), V>(capacity: nat, newValue: (K, nat) -> V, delay: nat, s: State<K, V>, d: nat)
    requires Inv(newValue, delay, s)
    ensures Inv(newValue, delay, Step(capacity, newValue, delay, s, Tick(d)))
  {
    if InTime(delay, s, s.now + d) {
      var t := s.(now := s.now + d);
      forall c | c in t.calls ensures CallIn(delay, t, t.calls[c]) {
        assert CallIn(delay, s, s.calls[c]);
      }
    }
  }

  lemma CheckKeeps<K(!new), V>(newValue: (K, nat) -> V, delay: nat, s: State<K, V>, c: nat)
    requires Inv(newValue, delay, s) && Has(s, c) && s.calls[c].Holding?
    ensures Inv(newValue, delay, CheckStep(s, c))
  {
    var t := CheckStep(s, c);
    assert CallIn(delay, s, s.calls[c]);
    var cell := s.cells[s.calls[c].id];
    assert CellOk(newValue, delay, s.calls[c].key, cell, s.now);
    if !Stale(cell, s.calls[c].ttl, s.now) {
      CheckedIsRecent(newValue, delay, s.calls[c].key, cell, s.calls[c].ttl, s.now);
    }
    forall d | d in t.calls ensures CallIn(delay, t, t.calls[d]) {
      assert CallIn(delay, s, s.calls[d]);
    }
  }

  /** An entry that is not stale is recent. */
  lemma CheckedIsRecent<K, V>(newValue: (K, nat) -> V, delay: nat, key: K, cell: Cell<V>, ttl: duration, now: nat)
    requires CellOk(newValue, delay, key, cell, now) && !Stale(cell, ttl, now)
    ensures if cell.value.None? then Elapsed(0, now) <= Effective(ttl) else Recent(delay, ttl, now, cell.made)
  {
  }

  /** One caller moves on without touching its entry. */
  lemma CallMoves<K(!new), V>(newValue: (K, nat) -> V, delay: nat, s: State<K, V>, c: nat, call: Call<K>)
    requires Inv(newValue, delay, s) && CallIn(delay, s, call)
    ensures Inv(newValue, delay, s.(calls := s.calls[c := call]))
  {
    var t := s.(calls := s.calls[c := call]);
    forall d | d in t.calls ensures CallIn(delay, t, t.calls[d]) {
      assert d in s.calls ==> CallIn(delay, s, s.calls[d]);
    }
  }

  lemma ComputeKeeps<K(!new), V>(capacity: nat, newValue: (K, nat) -> V, delay: nat, s: State<K, V>, c: nat)
    requires Inv(newValue, delay, s)
    ensures Inv(newValue, delay, Step(capacity, newValue, delay, s, Compute(c)))
  {
    if Has(s, c) && s.calls[c].Refreshing? {
      assert CallIn(delay, s, s.calls[c]);
      var Refreshing(key, ttl, id, at) := s.calls[c];
      CallMoves(newValue, delay, s, c, Computed(key, ttl, id, at, s.now));
    }
  }

  lemma ReadClockKeeps<K(!new), V>(capacity: nat, newValue: (K, nat) -> V, delay: nat, s: State<K, V>, c: nat)
    requires Inv(newValue, delay, s)
    ensures Inv(newValue, delay, Step(capacity, newValue, delay, s, ReadClock(c)))
  {
    if Has(s, c) && s.calls[c].Stored? {
      assert CallIn(delay, s, s.calls[c]);
      var Stored(key, ttl, id, at, made) := s.calls[c];
      CallMoves(newValue, delay, s, c, Clocked(key, ttl, id, at, s.now));
    }
  }

  /** A value is stored: however late it comes, for every other call on the entry it is recent enough. */
  lemma StoredIsOk<K, V>(delay: nat, now: nat, cell: Cell<V>, cell': Cell<V>, call: Call<K>)
    requires !call.Missed? && !call.Holding? && CallOk(delay, now, cell, call)
    requires cell'.value.Some? && cell'.made <= now <= cell'.made + delay
    ensures CallOk(delay, now, cell', call)
  {
  }

  lemma StoreValueKeeps<K(!new), V>(capacity: nat, newValue: (K, nat) -> V, delay: nat, s: State<K, V>, c: nat)
    requires Inv(newValue, delay, s)
    ensures Inv(newValue, delay, Step(capacity, newValue, delay, s, StoreValue(c)))
  {
    if Has(s, c) && s.calls[c].Computed? {
      assert CallIn(delay, s, s.calls[c]);
      var Computed(key, ttl, id, at, made) := s.calls[c];
      assert CellOk(newValue, delay, s.owner[id], s.cells[id], s.now);
      var cell := s.cells[id].(value := Some(newValue(key, made)), made := made);
      var t := s.(cells := s.cells[id := cell]);
      forall d | d in t.calls ensures CallIn(delay, t, t.calls[d]) {
        assert CallIn(delay, s, s.calls[d]);
        if !s.calls[d].Missed? && !s.calls[d].Holding? && s.calls[d].id == id {
          StoredIsOk(delay, s.now, s.cells[id], cell, s.calls[d]);
        }
      }
      CallMoves(newValue, delay, t, c, Stored(key, ttl, id, at, made));
    }
  }

  lemma StoreTimeKeeps<K(!new), V>(capacity: nat, newValue: (K, nat) -> V, delay: nat, s: State<K, V>, c: nat)
    requires Inv(newValue, delay, s)
    ensures Inv(newValue, delay, Step(capacity, newValue, delay, s, StoreTime(c)))
  {
    if Has(s, c) && s.calls[c].Clocked? {
      assert CallIn(delay, s, s.calls[c]);
      var Clocked(key, ttl, id, at, time) := s.calls[c];
      assert CellOk(newValue, delay, s.owner[id], s.cells[id], s.now);
      var t := s.(cells := s.cells[id := s.cells[id].(updateTime := time)]);
      forall d | d in t.calls ensures CallIn(delay, t, t.calls[d]) {
        assert CallIn(delay, s, s.calls[d]);
      }
      CallMoves(newValue, delay, t, c, Checked(key, ttl, id, at));
    }
  }

  lemma FinishKeeps<K(!new), V>(capacity: nat, newValue: (K, nat) -> V, delay: nat, s: State<K, V>, c: nat)
    requires Inv(newValue, delay, s)
    ensures Inv(newValue, delay, Step(capacity, newValue, delay, s, Finish(c)))
  {
    if Has(s, c) && s.calls[c].Checked? {
      assert CallIn(delay, s, s.calls[c]);
      var Checked(key, ttl, id, at) := s.calls[c];
      assert CellOk(newValue, delay, s.owner[id], s.cells[id], s.now);
      var r := Returned(key, ttl, id, at, s.now, s.cells[id].value);
      if r.value.Some? {
        assert r.value == Some(newValue(r.key, s.cells[id].made));
      }
      assert ReturnOk(newValue, delay, r);
      var t := Step(capacity, newValue, delay, s, Finish(c));
      forall d | d in t.calls ensures CallIn(delay, t, t.calls[d]) {
        assert CallIn(delay, s, s.calls[d]);
      }
    }
  }

  lemma StepKeeps<K(!new), V>(capacity: nat, newValue: (K, nat) -> V, delay: nat, s: State<K, V>, e: Event<K>)
    requires Inv(newValue, delay, s)
    ensures Inv(newValue, delay, Step(capacity, newValue, delay, s, e))
  {
    match e {
      case Tick(d) => TickKeeps(capacity, newValue, delay, s, d);
      case Begin(c, key, ttl) => BeginKeeps(capacity, newValue, delay, s, c, key, ttl);
      case Acquire(c) => AcquireKeeps(capacity, newValue, delay, s, c);
      case Check(c) => if Has(s, c) && s.calls[c].Holding? { CheckKeeps(newValue, delay, s, c); }
      case Compute(c) => ComputeKeeps(capacity, newValue, delay, s, c);
      case StoreValue(c) => StoreValueKeeps(capacity, newValue, delay, s, c);
      case ReadClock(c) => ReadClockKeeps(capacity, newValue, delay, s, c);
      case StoreTime(c) => StoreTimeKeeps(capacity, newValue, delay, s, c);
      case Finish(c) => FinishKeeps(capacity, newValue, delay, s, c);
    }
  }

  lemma {:induction false} RunKeeps<K(!new), V>(capacity: nat, newValue: (K, nat) -> V, delay: nat, events: seq<Event<K>>)
    ensures Inv(newValue, delay, Run(capacity, newValue, delay, events))
  {
    if events != [] {
      var front := events[..|events| - 1];
      RunKeeps(capacity, newValue, delay, front);
      StepKeeps(capacity, newValue, delay, Run(capacity, newValue, delay, front), events[|events| - 1]);
    }
  }

  /**
   Bounded staleness: in every interleaving of any number of callers, whatever is evicted meanwhile, a call that
   returns a value returns what newValue of its own key gave at some moment no more than the ttl and two delays before
   its check, or no more than one delay; with instantaneous refreshes, no more than the ttl. (A ttl of 2^63 - 1, which
   the saturating clock difference never exceeds, asks for no bound.) A call that returns nothing was checked within
   its ttl of the zero time.
   */
  lemma BoundedStaleness<K(!new), V>(capacity: nat, newValue: (K, nat) -> V, delay: nat, events: seq<Event<K>>, i: nat)
    requires i < |Run(capacity, newValue, delay, events).returned|
    ensures
      var r := Run(capacity, newValue, delay, events).returned[i];
      if r.value.None? then Elapsed(0, r.at) <= Effective(r.ttl) else Fresh(newValue, delay, r)
  {
    RunKeeps(capacity, newValue, delay, events);
    assert ReturnOk(newValue, delay, Run(capacity, newValue, delay, events).returned[i]);
  }

  // ---------- calls that return nothing ----------

  /** Some caller has stored a value in the entry. */
  ghost predicate EverStored<K(!new), V>(capacity: nat, newValue: (K, nat) -> V, delay: nat, events: seq<Event<K>>, id: nat) {
    events != [] &&
    var front, last := events[..|events| - 1], events[|events| - 1];
    EverStored(capacity, newValue, delay, front, id) || Stores(Run(capacity, newValue, delay, front), last, id)
  }

  predicate Stores<K, V>(s: State<K, V>, e: Event<K>, id: nat) {
    e.StoreValue? && Has(s, e.caller) && s.calls[e.caller].Computed? && s.calls[e.caller].id == id
  }

  lemma StoresValue<K(!new), V>(capacity: nat, newValue: (K, nat) -> V, delay: nat, s: State<K, V>, e: Event<K>, id: nat)
    ensures
      var t := Step(capacity, newValue, delay, s, e);
      && |s.cells| <= |t.cells|
      && (id < |t.cells| ==> (t.cells[id].value.Some? <==> (id < |s.cells| && s.cells[id].value.Some?) || Stores(s, e, id)))
  {
  }

  lemma {:induction false} EmptyUntilStored<K(!new), V>(
      capacity: nat, newValue: (K, nat) -> V, delay: nat, events: seq<Event<K>>, id: nat)
    ensures
      var s := Run(capacity, newValue, delay, events);
      && (id < |s.cells| ==> (s.cells[id].value.Some? <==> EverStored(capacity, newValue, delay, events, id)))
      && (id >= |s.cells| ==> !EverStored(capacity, newValue, delay, events, id))
  {
    if events != [] {
      var front, last := events[..|events| - 1], events[|events| - 1];
      EmptyUntilStored(capacity, newValue, delay, front, id);
      StoresValue(capacity, newValue, delay, Run(capacity, newValue, delay, front), last, id);
    }
  }

  /** A call returns nothing, and so panics, if and only if no caller has stored a value in its entry by then; its own
      check has then found the saturating time since the zero time within the ttl. */
  lemma EmptyIffNeverStored<K(!new), V>(capacity: nat, newValue: (K, nat) -> V, delay: nat, events: seq<Event<K>>, c: nat)
    requires
      var s := Run(capacity, newValue, delay, events);
      Has(s, c) && s.calls[c].Checked?
    ensures
      var s := Run(capacity, newValue, delay, events);
      var t := Step(capacity, newValue, delay, s, Finish(c));
      var r := t.returned[|t.returned| - 1];
      && r.key == s.calls[c].key
      && (r.value.None? <==>
          !EverStored(capacity, newValue, delay, events, r.id) && Elapsed(0, r.at) <= Effective(r.ttl))
  {
    var s := Run(capacity, newValue, delay, events);
    RunKeeps(capacity, newValue, delay, events);
    EmptyUntilStored(capacity, newValue, delay, events, s.calls[c].id);
    assert CallIn(delay, s, s.calls[c]);
  }

  // ---------- a call without interruption ----------

  ghost function RunFrom<K(!new), V>(
    capacity: nat, newValue: (K, nat) -> V, delay: nat, s: State<K, V>, events: seq<Event<K>>): State<K, V>
    decreases |events|
  {
    if events == [] then s
    else RunFrom(capacity, newValue, delay, Step(capacity, newValue, delay, s, events[0]), events[1..])
  }

  /** The entry as the class has it: CacheValue.LoadTTL is these steps when nothing comes between them. */
  lemma LoadIsSteps<K(!new), V>(capacity: nat, newValue: (K, nat) -> V, delay: nat, s: State<K, V>, c: nat)
    requires Has(s, c) && s.calls[c].Holding? && s.cells[s.calls[c].id].updateTime <= s.now
    ensures
      var Holding(key, ttl, id) := s.calls[c];
      RunFrom(capacity, newValue, delay, s, [Check(c), Compute(c), StoreValue(c), ReadClock(c), StoreTime(c)]) ==
      s.(cells := s.cells[id := Loaded(s.cells[id], ttl, s.now, (t: nat) => newValue(key, t))],
         calls := s.calls[c := Checked(key, ttl, id, s.now)])
  {
    var Holding(key, ttl, id) := s.calls[c];
    var t := CheckStep(s, c);
    FiveSteps(capacity, newValue, delay, s, Check(c), Compute(c), StoreValue(c), ReadClock(c), StoreTime(c));
    if Stale(s.cells[id], ttl, s.now) {
      RefreshSteps(capacity, newValue, delay, t, c);
      assert s.calls[c := Refreshing(key, ttl, id, s.now)][c := Checked(key, ttl, id, s.now)]
          == s.calls[c := Checked(key, ttl, id, s.now)];
    } else {
      assert s.cells[id := s.cells[id]] == s.cells;
    }
  }

  lemma FiveSteps<K(!new), V>(
      capacity: nat, newValue: (K, nat) -> V, delay: nat, s: State<K, V>,
      a: Event<K>, b: Event<K>, c: Event<K>, d: Event<K>, e: Event<K>)
    ensures
      var s1 := Step(capacity, newValue, delay, s, a);
      var s2 := Step(capacity, newValue, delay, s1, b);
      var s3 := Step(capacity, newValue, delay, s2, c);
      var s4 := Step(capacity, newValue, delay, s3, d);
      RunFrom(capacity, newValue, delay, s, [a, b, c, d, e]) == Step(capacity, newValue, delay, s4, e)
  {
    var s1 := Step(capacity, newValue, delay, s, a);
    var s2 := Step(capacity, newValue, delay, s1, b);
    var s3 := Step(capacity, newValue, delay, s2, c);
    var s4 := Step(capacity, newValue, delay, s3, d);
    FirstStep(capacity, newValue, delay, s, a, [b, c, d, e]);
    FirstStep(capacity, newValue, delay, s1, b, [c, d, e]);
    FirstStep(capacity, newValue, delay, s2, c, [d, e]);
    FirstStep(capacity, newValue, delay, s3, d, [e]);
    FirstStep(capacity, newValue, delay, s4, e, []);
    assert [a] + [b, c, d, e] == [a, b, c, d, e] && [b] + [c, d, e] == [b, c, d, e];
    assert [c] + [d, e] == [c, d, e] && [d] + [e] == [d, e] && [e] + [] == [e];
  }

  lemma FirstStep<K(!new), V>(
      capacity: nat, newValue: (K, nat) -> V, delay: nat, s: State<K, V>, e: Event<K>, rest: seq<Event<K>>)
    ensures
      RunFrom(capacity, newValue, delay, s, [e] + rest) ==
      RunFrom(capacity, newValue, delay, Step(capacity, newValue, delay, s, e), rest)
  {
    assert ([e] + rest)[1..] == rest;
  }

  lemma ComputeStep<K(!new), V>(capacity: nat, newValue: (K, nat) -> V, delay: nat, s: State<K, V>, c: nat)
    requires Has(s, c) && s.calls[c].Refreshing?
    ensures
      var Refreshing(key, ttl, id, at) := s.calls[c];
      Step(capacity, newValue, delay, s, Compute(c)) == s.(calls := s.calls[c := Computed(key, ttl, id, at, s.now)])
  {
  }

  lemma StoreValueStep<K(!new), V>(capacity: nat, newValue: (K, nat) -> V, delay: nat, s: State<K, V>, c: nat)
    requires Has(s, c) && s.calls[c].Computed?
    ensures
      var Computed(key, ttl, id, at, made) := s.calls[c];
      Step(capacity, newValue, delay, s, StoreValue(c)) ==
      s.(cells := s.cells[id := s.cells[id].(value := Some(newValue(key, made)), made := made)],
         calls := s.calls[c := Stored(key, ttl, id, at, made)])
  {
  }

  lemma ReadClockStep<K(!new), V>(capacity: nat, newValue: (K, nat) -> V, delay: nat, s: State<K, V>, c: nat)
    requires Has(s, c) && s.calls[c].Stored?
    ensures
      var Stored(key, ttl, id, at, made) := s.calls[c];
      Step(capacity, newValue, delay, s, ReadClock(c)) == s.(calls := s.calls[c := Clocked(key, ttl, id, at, s.now)])
  {
  }

  lemma StoreTimeStep<K(!new), V>(capacity: nat, newValue: (K, nat) -> V, delay: nat, s: State<K, V>, c: nat)
    requires Has(s, c) && s.calls[c].Clocked?
    ensures
      var Clocked(key, ttl, id, at, time) := s.calls[c];
      Step(capacity, newValue, delay, s, StoreTime(c)) ==
      s.(cells := s.cells[id := s.cells[id].(updateTime := time)], calls := s.calls[c := Checked(key, ttl, id, at)])
  {
  }

  lemma RefreshSteps<K(!new), V>(capacity: nat, newValue: (K, nat) -> V, delay: nat, s: State<K, V>, c: nat)
    requires Has(s, c) && s.calls[c].Refreshing?
    ensures
      var Refreshing(key, ttl, id, at) := s.calls[c];
      var a := Step(capacity, newValue, delay, s, Compute(c));
      var b := Step(capacity, newValue, delay, a, StoreValue(c));
      var d := Step(capacity, newValue, delay, b, ReadClock(c));
      Step(capacity, newValue, delay, d, StoreTime(c)) ==
      s.(cells := s.cells[id := Cell(Some(newValue(key, s.now)), s.now, s.now)],
         calls := s.calls[c := Checked(key, ttl, id, at)])
  {
    ComputeStep(capacity, newValue, delay, s, c);
    var a := Step(capacity, newValue, delay, s, Compute(c));
    StoreValueStep(capacity, newValue, delay, a, c);
    var b := Step(capacity, newValue, delay, a, StoreValue(c));
    ReadClockStep(capacity, newValue, delay, b, c);
    var d := Step(capacity, newValue, delay, b, ReadClock(c));
    StoreTimeStep(capacity, newValue, delay, d, c);
    var Refreshing(key, ttl, id, at) := s.calls[c];
    var e := Step(capacity, newValue, delay, d, StoreTime(c));
    assert e.calls == s.calls[c := Checked(key, ttl, id, at)];
    assert e.cells == s.cells[id := Cell(Some(newValue(key, s.now)), s.now, s.now)];
  }

  // ---------- the first load of a key ----------

  lemma FirstEntry<K(!new), V>(capacity: nat, newValue: (K, nat) -> V, delay: nat, key: K, ttl: duration, now: nat)
    ensures
      var a := Step(capacity, newValue, delay, Init<K, V>(), Tick(now));
      var b := Step(capacity, newValue, delay, a, Begin(0, key, ttl));
      var c := Step(capacity, newValue, delay, b, Acquire(0));
      && c.now == now && c.calls == map[0 := Holding(key, ttl, 0)] && c.cells == [Cell(None, 0, 0)] && c.returned == []
  {
    var a := Step(capacity, newValue, delay, Init<K, V>(), Tick(now));
    assert a.now == now && a.calls == map[] && a.lru == [];
    var b := Step(capacity, newValue, delay, a, Begin(0, key, ttl));
    assert b.calls == map[0 := Missed(key, ttl)] && b.lru == [];
  }

  /**
   The first load of a key at any moment: it returns nothing if and only if the time since the zero time, which
   saturates at 2^63 - 1, is within the ttl, and what newValue gives at that moment otherwise. With the largest ttl it
   returns nothing at any moment.
   */
  lemma FirstLoad<K(!new), V>(capacity: nat, newValue: (K, nat) -> V, delay: nat, key: K, ttl: duration, now: nat)
    ensures
      var a := Step(capacity, newValue, delay, Init<K, V>(), Tick(now));
      var b := Step(capacity, newValue, delay, a, Begin(0, key, ttl));
      var s := Step(capacity, newValue, delay, b, Acquire(0));
      var t := RunFrom(capacity, newValue, delay, s, [Check(0), Compute(0), StoreValue(0), ReadClock(0), StoreTime(0)]);
      var u := Step(capacity, newValue, delay, t, Finish(0));
      && |u.returned| == 1
      && u.returned[0].value == (if Elapsed(0, now) <= Effective(ttl) then None else Some(newValue(key, now)))
      && (ttl == MAX_DURATION ==> u.returned[0].value == None)
  {
    FirstEntry<K, V>(capacity, newValue, delay, key, ttl, now);
    var a := Step(capacity, newValue, delay, Init<K, V>(), Tick(now));
    var b := Step(capacity, newValue, delay, a, Begin(0, key, ttl));
    LoadIsSteps(capacity, newValue, delay, Step(capacity, newValue, delay, b, Acquire(0)), 0);
  }

  // ---------- a load from the lookup to the return ----------

  /** A call of the package-level LoadTTL without interruption; steps that do not apply change nothing. */
  function Load<K>(c: nat, key: K, ttl: duration): seq<Event<K>> {
    [Begin(c, key, ttl), Acquire(c)] + [Check(c), Compute(c), StoreValue(c), ReadClock(c), StoreTime(c)] + [Finish(c)]
  }

  /** What such a call finds in the entry, and leaves there: the entry stays as it is while the time since its update,
      which saturates, is within the ttl, a second if that is 0; else a new value is made. */
  ghost predicate Kept<V>(before: Cell<V>, after: Cell<V>, ttl: duration, now: nat, made: V) {
    var limit := if ttl == 0 then 1_000_000_000 else ttl;
    var age := if now - before.updateTime <= 0x7FFF_FFFF_FFFF_FFFF then now - before.updateTime else 0x7FFF_FFFF_FFFF_FFFF;
    if age <= limit then after == before else after == Cell(Some(made), now, now)
  }

  lemma LoadedIsKept<V>(cell: Cell<V>, ttl: duration, now: nat, newValue: nat -> V)
    requires cell.updateTime <= now
    ensures Kept(cell, Loaded(cell, ttl, now, newValue), ttl, now, newValue(now))
  {
  }

  /** The entry that a call comes to hold: the one in the LRU, or else a new one that it puts there. */
  lemma HoldsEntry<K(!new), V>(capacity: nat, newValue: (K, nat) -> V, delay: nat, s: State<K, V>, c: nat, key: K, ttl: duration)
    returns (t: State<K, V>, id: nat)
    requires c !in s.calls
    ensures t == RunFrom(capacity, newValue, delay, s, [Begin(c, key, ttl), Acquire(c)])
    ensures t.now == s.now && t.returned == s.returned && t.calls == s.calls[c := Holding(key, ttl, id)]
    ensures t.lru != [] && t.lru[0] == LruSpec.Entry(key, id)
    ensures
      match Lookup(s.lru, key)
      case Some(known) => id == known && t.cells == s.cells
      case None => id == |s.cells| && t.cells == s.cells + [Cell(None, 0, 0)]
  {
    var a := Step(capacity, newValue, delay, s, Begin(c, key, ttl));
    var second: seq<Event<K>> := [Acquire(c)];
    FirstStep(capacity, newValue, delay, s, Begin(c, key, ttl), second);
    FirstStep(capacity, newValue, delay, a, Acquire(c), []);
    assert [Begin(c, key, ttl)] + second == [Begin(c, key, ttl), Acquire(c)] && second + [] == second;
    EntryIsHeld(capacity, newValue, delay, s, a, c, key, ttl);
    t := Step(capacity, newValue, delay, a, Acquire(c));
    id := t.calls[c].id;
  }

  /** An entry that is in the LRU is held as soon as the call begins, under the read lock; only a call that misses it there
      has to look again. */
  lemma HitIsHeldAtOnce<K(!new), V>(capacity: nat, newValue: (K, nat) -> V, delay: nat, s: State<K, V>, c: nat, key: K, ttl: duration)
    requires c !in s.calls
    ensures
      var t := Step(capacity, newValue, delay, s, Begin(c, key, ttl));
      && c in t.calls && (t.calls[c].Missed? <==> !LruSpec.Has(s.lru, key))
      && (t.calls[c].Missed? || (t.calls[c].Holding? && LruSpec.Entry(key, t.calls[c].id) in s.lru))
      && t.calls[c].key == key && t.calls[c].ttl == ttl && t.cells == s.cells
      && (t.calls[c].Holding? ==> t.lru != [] && t.lru[0] == LruSpec.Entry(key, t.calls[c].id))
  {
    LookupSpec(s.lru, key);
  }

  lemma EntryIsHeld<K(!new), V>(
      capacity: nat, newValue: (K, nat) -> V, delay: nat, s: State<K, V>, a: State<K, V>, c: nat, key: K, ttl: duration)
    requires c !in s.calls && a == Step(capacity, newValue, delay, s, Begin(c, key, ttl))
    ensures
      var t := Step(capacity, newValue, delay, a, Acquire(c));
      && t.now == s.now && t.returned == s.returned
      && match Lookup(s.lru, key)
         case Some(known) =>
           && t.calls == s.calls[c := Holding(key, ttl, known)] && t.cells == s.cells
           && t.lru != [] && t.lru[0] == LruSpec.Entry(key, known)
         case None =>
           && t.calls == s.calls[c := Holding(key, ttl, |s.cells|)] && t.cells == s.cells + [Cell(None, 0, 0)]
           && t.lru != [] && t.lru[0] == LruSpec.Entry(key, |s.cells|)
  {
    LookupSpec(s.lru, key);
    assert s.calls[c := Missed(key, ttl)][c := Holding(key, ttl, |s.cells|)] == s.calls[c := Holding(key, ttl, |s.cells|)];
  }

  lemma {:induction false} RunFromAppend<K(!new), V>(
      capacity: nat, newValue: (K, nat) -> V, delay: nat, s: State<K, V>, a: seq<Event<K>>, b: seq<Event<K>>)
    ensures
      RunFrom(capacity, newValue, delay, s, a + b) ==
      RunFrom(capacity, newValue, delay, RunFrom(capacity, newValue, delay, s, a), b)
    decreases |a|
  {
    if a == [] {
      assert a + b == b;
    } else {
      RunFromAppend(capacity, newValue, delay, Step(capacity, newValue, delay, s, a[0]), a[1..], b);
      FirstStep(capacity, newValue, delay, s, a[0], a[1..] + b);
      assert [a[0]] + (a[1..] + b) == a + b;
    }
  }

  /**
   A load that is not interrupted returns what its entry then holds, and the entry is the first in the LRU. An
   entry that was there is kept within the ttl and made anew beyond it; one that was not counts as updated at the zero
   time. No other entry changes.
   */
  lemma LoadAlone<K(!new), V>(capacity: nat, newValue: (K, nat) -> V, delay: nat, s: State<K, V>, c: nat, key: K, ttl: duration)
    returns (t: State<K, V>, id: nat)
    requires c !in s.calls && Inv(newValue, delay, s)
    ensures t == RunFrom(capacity, newValue, delay, s, Load(c, key, ttl))
    ensures t.now == s.now && t.calls == s.calls && id < |t.cells|
    ensures t.lru != [] && t.lru[0] == LruSpec.Entry(key, id) && Lookup(t.lru, key) == Some(id)
    ensures t.returned == s.returned + [Returned(key, ttl, id, s.now, s.now, t.cells[id].value)]
    ensures forall i :: 0 <= i < |s.cells| && i != id ==> i < |t.cells| && t.cells[i] == s.cells[i]
    ensures
      match Lookup(s.lru, key)
      case Some(known) => id == known < |s.cells| && Kept(s.cells[id], t.cells[id], ttl, s.now, newValue(key, s.now))
      case None => id == |s.cells| && Kept(Cell(None, 0, 0), t.cells[id], ttl, s.now, newValue(key, s.now))
  {
    var a;
    HitOwner(s, key);
    a, id := HoldsEntry(capacity, newValue, delay, s, c, key, ttl);
    assert a.cells[id].updateTime <= a.now by {
      if id < |s.cells| { assert CellOk(newValue, delay, s.owner[id], s.cells[id], s.now); }
    }
    var five := [Check(c), Compute(c), StoreValue(c), ReadClock(c), StoreTime(c)];
    var b := RunFrom(capacity, newValue, delay, a, five);
    LoadIsSteps(capacity, newValue, delay, a, c);
    LoadedIsKept(a.cells[id], ttl, a.now, (m: nat) => newValue(key, m));
    t := Step(capacity, newValue, delay, b, Finish(c));
    RunFromAppend(capacity, newValue, delay, s, [Begin(c, key, ttl), Acquire(c)], five);
    RunFromAppend(capacity, newValue, delay, s, [Begin(c, key, ttl), Acquire(c)] + five, [Finish(c)]);
    var last: seq<Event<K>> := [Finish(c)];
    FirstStep(capacity, newValue, delay, b, Finish(c), []);
    assert last + [] == last;
    assert t.calls == s.calls;
  }
}
