/** What the flood fill computes, stated without the flood fill: a cell is lit
    exactly when a chain of orthogonally adjacent, non-opaque cells joins it to
    a lamp that is on.  The lemmas here are the facts the lighting pass and the
    session invariant rest on. */
module Lighting {
  import opened Tiles
  import opened Board

  /** On the grid and not a wall or locked door. */
  ghost predicate Transparent(g: Grid, x: Cell)
    requires Rectangular(g)
  {
    InBounds(g, x) && !BlocksLight(At(g, x))
  }

  /** A path the light can travel: it starts at a lamp that is on, every cell
      lets light through, and each step goes to a 4-neighbour. */
  ghost predicate LightPath(g: Grid, p: seq<Cell>)
    requires Rectangular(g)
  {
    && |p| > 0
    && InBounds(g, p[0]) && At(g, p[0]) == LampOn
    && (forall i :: 0 <= i < |p| ==> Transparent(g, p[i]))
    && (forall i :: 0 < i < |p| ==> Adjacent(p[i - 1], p[i]))
  }

  /** The cell is illuminated: some light path ends in it. */
  ghost predicate Reachable(g: Grid, x: Cell)
    requires Rectangular(g)
  {
    exists p :: LightPath(g, p) && p[|p| - 1] == x
  }

  /** Every lamp that is on lies in the set. */
  ghost predicate HoldsLamps(g: Grid, s: set<Cell>)
    requires Rectangular(g)
  {
    forall x :: InBounds(g, x) && At(g, x) == LampOn ==> x in s
  }

  /** The set cannot spread any further: each non-opaque 4-neighbour of a member is a member. */
  ghost predicate Closed(g: Grid, s: set<Cell>)
    requires Rectangular(g)
  {
    forall x, k :: x in s && 0 <= k < 4 && Transparent(g, Step(x, k)) ==> Step(x, k) in s
  }

  /** Every member of the set is lit. */
  ghost predicate Sound(g: Grid, s: set<Cell>)
    requires Rectangular(g)
  {
    forall x :: x in s ==> Reachable(g, x)
  }

  /** Every member not waiting in `open` has already spread to its non-opaque 4-neighbours. */
  ghost predicate ClosedExcept(g: Grid, s: set<Cell>, open: seq<Cell>)
    requires Rectangular(g)
  {
    forall x, k :: x in s && x !in open && 0 <= k < 4 && Transparent(g, Step(x, k)) ==> Step(x, k) in s
  }

  /** `log` lists the cells in the order they were queued: each member of `s`
      exactly once, and nothing else. */
  ghost predicate Logged(log: seq<Cell>, s: set<Cell>)
  {
    && (forall i, j :: 0 <= i < j < |log| ==> log[i] != log[j])
    && (forall x :: x in log <==> x in s)
  }

  /** Queuing a cell that is not yet lit, and lighting it, keeps the log. */
  lemma LogGrows(log: seq<Cell>, s: set<Cell>, next: Cell)
    requires Logged(log, s) && next !in s
    ensures Logged(log + [next], s + {next})
  {
    var log' := log + [next];
    forall i, j | 0 <= i < j < |log'|
      ensures log'[i] != log'[j]
    {
      if j == |log| {
        assert log'[i] == log[i];
      }
    }
  }

  /** The queue `q` is what is left of the log once its first cells have been
      dequeued: the cells still waiting are the latest ones queued. */
  ghost predicate Pending(q: seq<Cell>, log: seq<Cell>)
  {
    |q| <= |log| && q == log[|log| - |q|..]
  }

  /** Queuing a cell appends it to the log and to the queue alike. */
  lemma PendingGrows(q: seq<Cell>, log: seq<Cell>, next: Cell)
    requires Pending(q, log)
    ensures Pending(q + [next], log + [next])
  {
    assert (log + [next])[|log| - |q|..] == log[|log| - |q|..] + [next];
  }

  /** Dequeuing the head keeps the rest pending. */
  lemma PendingTail(q: seq<Cell>, log: seq<Cell>)
    requires Pending(q, log) && |q| > 0
    ensures Pending(q[1..], log)
  {
  }

  /** Spreading from one cell only appends to the queue (`q0` grows to `q`), and
      the log grows by exactly the same cells (`log0` to `log`). */
  ghost predicate Appended(q0: seq<Cell>, q: seq<Cell>, log0: seq<Cell>, log: seq<Cell>)
  {
    |q0| <= |q| && q[..|q0|] == q0 && log == log0 + q[|q0|..]
  }

  /** Pushing one more cell onto the queue and the log keeps them in step. */
  lemma AppendedGrows(q0: seq<Cell>, q: seq<Cell>, log0: seq<Cell>, log: seq<Cell>, next: Cell)
    requires Appended(q0, q, log0, log)
    ensures Appended(q0, q + [next], log0, log + [next])
  {
    assert (q + [next])[..|q0|] == q[..|q0|];
    assert (q + [next])[|q0|..] == q[|q0|..] + [next];
  }

  /** Part way through spreading from `cur` (directions below `k` done), starting
      from the lit set `s0` and queue `q0`: the lit set only grew, within the grid
      and through lit cells; each done direction is lit if light can enter it; the
      old queue is kept; and what was added is queued, so the queue only grew if
      the lit set did. */
  ghost predicate Spreading(g: Grid, cur: Cell, k: nat, s0: set<Cell>, q0: seq<Cell>, s: set<Cell>, q: seq<Cell>)
    requires Rectangular(g)
  {
    && s0 <= s <= Cells(g) && Sound(g, s)
    && (forall j :: 0 <= j < k && j < 4 && Transparent(g, Step(cur, j)) ==> Step(cur, j) in s)
    && (forall x :: x in q0 ==> x in q)
    && (forall x :: x in q ==> x in q0 || x in s)
    && (forall x :: x in s && x !in s0 ==> x in q)
    && (s == s0 ==> |q| == |q0|)
  }

  /** One more direction: the neighbour `Step(cur, k)` is lit and queued exactly
      when light can enter it and it is still dark. */
  lemma SpreadingStep(g: Grid, cur: Cell, k: nat, s0: set<Cell>, q0: seq<Cell>,
                      s: set<Cell>, q: seq<Cell>, s': set<Cell>, q': seq<Cell>)
    requires Rectangular(g) && k < 4 && cur in s0
    requires Spreading(g, cur, k, s0, q0, s, q)
    requires var next := Step(cur, k);
      if Transparent(g, next) && next !in s then s' == s + {next} && q' == q + [next]
      else s' == s && q' == q
    ensures Spreading(g, cur, k + 1, s0, q0, s', q')
  {
    var next := Step(cur, k);
    if Transparent(g, next) && next !in s {
      LightSpreads(g, cur, next);
    }
  }

  /** The facts the flood fill keeps between two dequeues: the lit set lies on
      the grid, is lit, holds every lamp and every queued cell, and every member
      not waiting in the queue has already spread its light. */
  ghost predicate Draining(g: Grid, s: set<Cell>, q: seq<Cell>)
    requires Rectangular(g)
  {
    && s <= Cells(g) && Sound(g, s) && HoldsLamps(g, s)
    && (forall x :: x in q ==> x in s)
    && ClosedExcept(g, s, q)
  }

  /** Dequeuing the head of the queue and spreading its light keeps `Draining`,
      and either lights a new cell or shortens the queue. */
  lemma {:induction false} DrainingStep(g: Grid, s0: set<Cell>, q0: seq<Cell>, s: set<Cell>, q: seq<Cell>)
    requires Rectangular(g) && |q0| > 0 && Draining(g, s0, q0)
    requires Spreading(g, q0[0], 4, s0, q0[1..], s, q)
    ensures Draining(g, s, q)
    ensures Cells(g) - s < Cells(g) - s0 || (s == s0 && |q| < |q0|)
  {
    forall x, k | x in s && x !in q && 0 <= k < 4 && Transparent(g, Step(x, k))
      ensures Step(x, k) in s
    {
      if x != q0[0] {
        assert x !in q0;
      }
    }
    if s != s0 {
      Shrinks(Cells(g), s0, s);
    }
  }

  /** Once the queue is empty the lit set is exactly the set of lit cells. */
  lemma Drained(g: Grid, s: set<Cell>)
    requires Rectangular(g) && Draining(g, s, [])
    ensures forall x :: x in s <==> Reachable(g, x)
  {
    ClosedHoldsReachable(g, s);
  }

  /** Every lamp that is on lights its own cell. */
  lemma LampIsLit(g: Grid, x: Cell)
    requires Rectangular(g) && InBounds(g, x) && At(g, x) == LampOn
    ensures Reachable(g, x)
  {
    assert LightPath(g, [x]);
  }

  /** Light passes from a lit cell into a non-opaque 4-neighbour. */
  lemma LightSpreads(g: Grid, a: Cell, b: Cell)
    requires Rectangular(g) && Reachable(g, a) && Transparent(g, b) && Adjacent(a, b)
    ensures Reachable(g, b)
  {
    var p :| LightPath(g, p) && p[|p| - 1] == a;
    var q := p + [b];
    assert q[|q| - 1] == b;
    assert LightPath(g, q);
  }

  /** No wall and no locked door is ever lit, nor any cell off the grid. */
  lemma LitIsTransparent(g: Grid, x: Cell)
    requires Rectangular(g) && Reachable(g, x)
    ensures Transparent(g, x)
  {
    var p :| LightPath(g, p) && p[|p| - 1] == x;
    assert Transparent(g, p[|p| - 1]);
  }

  /** A closed set that holds every lamp holds the end of every light path. */
  lemma {:induction false} ClosedHoldsPathEnd(g: Grid, s: set<Cell>, p: seq<Cell>)
    requires Rectangular(g) && HoldsLamps(g, s) && Closed(g, s) && LightPath(g, p)
    ensures p[|p| - 1] in s
    decreases |p|
  {
    if |p| > 1 {
      var front := p[..|p| - 1];
      assert LightPath(g, front);
      ClosedHoldsPathEnd(g, s, front);
      var a, b := p[|p| - 2], p[|p| - 1];
      assert Adjacent(a, b);
      var k := DirectionTo(a, b);
      assert Transparent(g, Step(a, k));
    }
  }

  /** A closed set that holds every lamp holds every lit cell: the lit cells form
      the least such set. */
  lemma ClosedHoldsReachable(g: Grid, s: set<Cell>)
    requires Rectangular(g) && HoldsLamps(g, s) && Closed(g, s)
    ensures forall x :: Reachable(g, x) ==> x in s
  {
    forall x | Reachable(g, x)
      ensures x in s
    {
      var p :| LightPath(g, p) && p[|p| - 1] == x;
      ClosedHoldsPathEnd(g, s, p);
    }
  }

  /** Making cells more transparent and lighting more lamps never darkens a cell. */
  lemma ReachableMonotone(g: Grid, h: Grid, x: Cell)
    requires Rectangular(g) && Rectangular(h) && |g| == |h| && (|g| > 0 ==> |g[0]| == |h[0]|)
    requires forall y :: Transparent(g, y) ==> Transparent(h, y)
    requires forall y :: InBounds(g, y) && At(g, y) == LampOn ==> At(h, y) == LampOn
    requires Reachable(g, x)
    ensures Reachable(h, x)
  {
    var p :| LightPath(g, p) && p[|p| - 1] == x;
    assert Transparent(g, p[0]);
    assert LightPath(h, p);
  }

  /** Turning a lamp on never decreases the lit set. */
  lemma LampOnNeverDarkens(g: Grid, lamp: Cell, x: Cell)
    requires Rectangular(g) && InBounds(g, lamp) && At(g, lamp) == LampOff
    requires Reachable(g, x)
    ensures Reachable(WithTile(g, lamp, LampOn), x)
  {
    var h := WithTile(g, lamp, LampOn);
    forall y | Transparent(g, y)
      ensures Transparent(h, y)
    {
    }
    ReachableMonotone(g, h, x);
  }

  /** Turning a lamp off never increases the lit set. */
  lemma LampOffNeverBrightens(g: Grid, lamp: Cell, x: Cell)
    requires Rectangular(g) && InBounds(g, lamp) && At(g, lamp) == LampOn
    requires Reachable(WithTile(g, lamp, LampOff), x)
    ensures Reachable(g, x)
  {
    var h := WithTile(g, lamp, LampOff);
    forall y | Transparent(h, y)
      ensures Transparent(g, y)
    {
    }
    ReachableMonotone(h, g, x);
  }
}
