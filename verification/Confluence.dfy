/** Two sides that move in any order: when their moves commute, all schedules come to the same end. */
module Confluence {

  /** `on(t, side)`: that side can move in t; `step(t, side)`: its move. */
  datatype Game<!T> = Game(on: (T, bool) -> bool, step: (T, bool) -> T)

  /** A side keeps its turn while the other moves, the order of two moves does not matter, and no turn changes nothing. */
  ghost predicate Commutes<T(!new)>(g: Game<T>) {
    && (forall t: T :: g.on(t, true) && g.on(t, false) ==>
          && g.on(g.step(t, true), false) && g.on(g.step(t, false), true)
          && g.step(g.step(t, true), false) == g.step(g.step(t, false), true))
    && (forall t: T, side :: !g.on(t, side) ==> g.step(t, side) == t)
  }

  predicate Stuck<T>(g: Game<T>, t: T) {
    !g.on(t, true) && !g.on(t, false)
  }

  /** A schedule says whose turn it is. */
  function Run<T>(g: Game<T>, t: T, schedule: seq<bool>): T
    decreases |schedule|
  {
    if schedule == [] then t else Run(g, g.step(t, schedule[0]), schedule[1..])
  }

  /** n moves lead from t to u, where neither side can move. */
  ghost predicate Ends<T(!new)>(g: Game<T>, t: T, u: T, n: nat)
    decreases n
  {
    if n == 0 then t == u && Stuck(g, u)
    else exists side :: g.on(t, side) && Ends(g, g.step(t, side), u, n - 1)
  }

  /** Whatever moves first, the same end is one move closer. */
  lemma {:induction false} AnyMove<T(!new)>(g: Game<T>, t: T, u: T, n: nat, side: bool)
    requires Commutes(g) && Ends(g, t, u, n) && g.on(t, side)
    ensures n > 0 && Ends(g, g.step(t, side), u, n - 1)
    decreases n
  {
    var first :| g.on(t, first) && Ends(g, g.step(t, first), u, n - 1);
    if first != side {
      AnyMove(g, g.step(t, first), u, n - 1, side);
      assert g.on(g.step(t, side), first);
      assert Ends(g, g.step(g.step(t, side), first), u, n - 2);
    }
  }

  lemma NoTurn<T(!new)>(g: Game<T>, t: T, side: bool)
    requires Commutes(g) && !g.on(t, side)
    ensures g.step(t, side) == t
  {
  }

  /** After any schedule the end is still ahead, and it is reached when neither side can move. */
  lemma {:induction false} OneEnd<T(!new)>(g: Game<T>, t: T, u: T, n: nat, schedule: seq<bool>) returns (m: nat)
    requires Commutes(g) && Ends(g, t, u, n)
    ensures m <= n && Ends(g, Run(g, t, schedule), u, m)
    ensures Stuck(g, Run(g, t, schedule)) ==> Run(g, t, schedule) == u
    decreases |schedule|
  {
    if schedule == [] {
      m := n;
    } else if g.on(t, schedule[0]) {
      AnyMove(g, t, u, n, schedule[0]);
      m := OneEnd(g, g.step(t, schedule[0]), u, n - 1, schedule[1..]);
    } else {
      NoTurn(g, t, schedule[0]);
      m := OneEnd(g, t, u, n, schedule[1..]);
    }
  }

  /** Some schedule comes to the end. */
  lemma {:induction false} EndIsReached<T(!new)>(g: Game<T>, t: T, u: T, n: nat) returns (schedule: seq<bool>)
    requires Ends(g, t, u, n)
    ensures |schedule| == n && Run(g, t, schedule) == u
    decreases n
  {
    if n == 0 {
      schedule := [];
    } else {
      var side :| g.on(t, side) && Ends(g, g.step(t, side), u, n - 1);
      var rest := EndIsReached(g, g.step(t, side), u, n - 1);
      schedule := [side] + rest;
      assert schedule[1..] == rest;
    }
  }

  lemma {:induction false} EndIsStuck<T(!new)>(g: Game<T>, t: T, u: T, n: nat)
    requires Ends(g, t, u, n)
    ensures Stuck(g, u)
    decreases n
  {
    if n > 0 {
      var side :| g.on(t, side) && Ends(g, g.step(t, side), u, n - 1);
      EndIsStuck(g, g.step(t, side), u, n - 1);
    }
  }
}
