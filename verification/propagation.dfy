/** Solver.cs as functions of the solver's state: what each step of Solve does to the grid of candidates and
    to the queue of pending actions. The Solver class is proved to follow these step by step. */
module Propagation {
  import opened Boxes
  import opened Actions
  import opened Boards

  /** Everything Solve works on: the board's candidates and the pending actions, oldest first. */
  datatype State = State(grid: Grid, queue: seq<Action>)

  /** The actions queued between two states whose queues extend one another. */
  function Added(s0: State, s1: State): seq<Action>
    requires |s0.queue| <= |s1.queue|
  {
    s1.queue[|s0.queue|..]
  }

  /** `s1`'s queue is `s0`'s with actions appended. */
  predicate Extends(s0: State, s1: State)
  {
    |s0.queue| <= |s1.queue| && s1.queue[..|s0.queue|] == s0.queue
  }

  /** Extension composes, and what two extensions add is what each adds, in order. */
  lemma ExtendsTrans(s0: State, s1: State, s2: State)
    requires Extends(s0, s1) && Extends(s1, s2)
    ensures Extends(s0, s2) && Added(s0, s2) == Added(s0, s1) + Added(s1, s2)
  {
    assert s2.queue[..|s0.queue|] == s2.queue[..|s1.queue|][..|s0.queue|];
  }

  // ---------------------------------------------------------------------------------------------
  // Reference equality. Box and Action do not override Equals, so `x.Equals(y)` is object identity.

  /** `a.Equals(action.Box)` in Add: an Action object is never the same object as a Box object. */
  function ActionEqualsBox(a: Action, b: Box): bool
  {
    false
  }

  /** `e.Equals(box)` in the locked-candidate sweep: `e` comes from ListBoxesInAllSquares and `box` from a
      later ListBoxesInLine or ListBoxesInColumn, which builds new Box objects, so they are never the same. */
  function SameObject(e: Box, b: Box): bool
  {
    false
  }

  /** `_actions.Any(a => a.Equals(action.Box))`: never true, so Add never skips an action. */
  function AnyEqualsBox(q: seq<Action>, box: Box): (r: bool)
    ensures !r
  {
    exists i | 0 <= i < |q| :: ActionEqualsBox(q[i], box)
  }

  /** `boxes.Any(e => e.Equals(box))`: never true. */
  function Listed(hs: seq<Box>, b: Box): (r: bool)
    ensures !r
  {
    exists i | 0 <= i < |hs| :: SameObject(hs[i], b)
  }

  /** `bs.Where(box => !hs.Any(e => e.Equals(box)))`: meant to drop the boxes of `hs`, it keeps every box of
      `bs`, the boxes of `hs` included. */
  function Unlisted(hs: seq<Box>, bs: seq<Box>): (r: seq<Box>)
    ensures r == bs
  {
    if bs == [] then []
    else (if Listed(hs, bs[0]) then [] else [bs[0]]) + Unlisted(hs, bs[1..])
  }

  // ---------------------------------------------------------------------------------------------
  // The weight of a grid: it never grows, and it shrinks whenever a candidate is removed.

  /** A box's weight: its number of candidates, or Size + 1 for a box left with none. */
  function CellWeight(s: set<int>): (w: nat)
    ensures w >= 1 && (w == 1 <==> |s| == 1)
  {
    if s == {} then Size + 1 else |s|
  }

  function RowWeight(row: seq<set<int>>): nat
  {
    if row == [] then 0 else CellWeight(row[0]) + RowWeight(row[1..])
  }

  /** The sum of the weights of all boxes. */
  function Weight(g: Grid): nat
  {
    if g == [] then 0 else RowWeight(g[0]) + Weight(g[1..])
  }

  lemma {:induction false} RowWeightUpdate(row: seq<set<int>>, j: int, s: set<int>)
    requires 0 <= j < |row|
    ensures RowWeight(row[j := s]) == RowWeight(row) - CellWeight(row[j]) + CellWeight(s)
  {
    if j > 0 {
      assert row[j := s][1..] == row[1..][j - 1 := s];
      RowWeightUpdate(row[1..], j - 1, s);
    } else {
      assert row[j := s][1..] == row[1..];
    }
  }

  lemma {:induction false} WeightUpdate(g: Grid, i: int, row: seq<set<int>>)
    requires 0 <= i < |g|
    ensures Weight(g[i := row]) == Weight(g) - RowWeight(g[i]) + RowWeight(row)
  {
    if i > 0 {
      assert g[i := row][1..] == g[1..][i - 1 := row];
      WeightUpdate(g[1..], i - 1, row);
    } else {
      assert g[i := row][1..] == g[1..];
    }
  }

  /** Replacing one box's candidates changes the weight by the difference of the two box weights. */
  lemma WeightPut(g: Grid, b: Box, s: set<int>)
    requires IsGrid(g)
    ensures Weight(Put(g, b, s)) == Weight(g) - CellWeight(At(g, b)) + CellWeight(s)
  {
    var i, j := b.line - 1, b.column - 1;
    RowWeightUpdate(g[i], j, s);
    WeightUpdate(g, i, g[i][j := s]);
  }

  /** Writing back a box's own candidates changes nothing. */
  lemma PutSame(g: Grid, b: Box)
    requires IsGrid(g)
    ensures Put(g, b, At(g, b)) == g
  {
    assert g[b.line - 1][b.column - 1 := At(g, b)] == g[b.line - 1];
  }

  // ---------------------------------------------------------------------------------------------
  // RemoveValueInBoxes

  /** `First()` on a set of candidates: its least element, a HashSet<int> of small values being enumerated
      in ascending order. */
  function First(s: set<int>): (d: Digit)
    requires s != {} && s <= Digits
    ensures d in s && forall e | e in s :: d <= e
  {
    FirstFrom(s, 1)
  }

  function FirstFrom(s: set<int>, n: int): (d: Digit)
    requires s != {} && 1 <= n && forall e | e in s :: n <= e <= Size
    ensures d in s && forall e | e in s :: d <= e
    decreases Size - n
  {
    if n in s then n else FirstFrom(s, n + 1)
  }

  /** The first element of a one-element set is its element. */
  lemma FirstOfSingleton(s: set<int>)
    requires |s| == 1 && s <= Digits
    ensures s == {First(s)}
  {
    assert |s - {First(s)}| == 0;
  }

  /** A box with more than one candidate keeps exactly one after losing `v` exactly when its candidates
      were `v` and one other digit `d`. */
  lemma PairIff(s: set<int>, v: int, d: int)
    ensures (|s| > 1 && |s - {v}| == 1 && s - {v} == {d}) <==> (d != v && s == {v, d})
  {
    if d != v && s == {v, d} {
      assert s - {v} == {d};
    }
    if |s| > 1 && |s - {v}| == 1 && s - {v} == {d} {
      assert s == (s - {v}) + {v};
    }
  }

  /** An element of a non-empty sequence is in its front or is its last element. */
  lemma InSnoc<T>(xs: seq<T>, x: T)
    requires xs != []
    ensures x in xs <==> x in xs[..|xs| - 1] || x == xs[|xs| - 1]
  {
    assert xs == xs[..|xs| - 1] + [xs[|xs| - 1]];
  }

  /** One turn of RemoveValueInBoxes' loop: a box with more than one candidate loses `v`, and if exactly
      one is left, an action setting the box to it is queued. A box with one candidate or none is skipped. */
  ghost function EliminateAt(s: State, v: Digit, b: Box): (r: State)
    requires WellFormed(s.grid)
    ensures WellFormed(r.grid) && NoNewEmpty(s.grid, r.grid)
  {
    var values := At(s.grid, b);
    if |values| > 1 then
      var left := values - {v};
      assert |left| >= |values| - 1;
      var g := Put(s.grid, b, left);
      if |left| == 1 then State(g, s.queue + [Action(b, First(left))]) else State(g, s.queue)
    else s
  }

  /** RemoveValueInBoxes over the listed boxes, in order, repeats included. */
  ghost function Eliminate(s: State, v: Digit, bs: seq<Box>): (r: State)
    requires WellFormed(s.grid)
    ensures WellFormed(r.grid) && NoNewEmpty(s.grid, r.grid)
    decreases |bs|
  {
    if bs == [] then s else EliminateAt(Eliminate(s, v, bs[..|bs| - 1]), v, bs[|bs| - 1])
  }

  /** One turn changes at most the visited box. */
  lemma EliminateAtCell(s: State, v: Digit, b: Box, c: Box)
    requires WellFormed(s.grid)
    ensures At(EliminateAt(s, v, b).grid, c) ==
      if c == b && |At(s.grid, c)| > 1 then At(s.grid, c) - {v} else At(s.grid, c)
  {
  }

  /** After the sweep, a listed box that had more than one candidate has lost `v`; every other box keeps
      its candidates. */
  lemma {:induction false} EliminateCell(s: State, v: Digit, bs: seq<Box>, c: Box)
    requires WellFormed(s.grid)
    ensures At(Eliminate(s, v, bs).grid, c) ==
      if c in bs && |At(s.grid, c)| > 1 then At(s.grid, c) - {v} else At(s.grid, c)
  {
    if bs != [] {
      var init, last := bs[..|bs| - 1], bs[|bs| - 1];
      EliminateCell(s, v, init, c);
      var mid := Eliminate(s, v, init);
      EliminateAtCell(mid, v, last, c);
      InSnoc(bs, c);
      RemoveTwice(At(s.grid, c), At(mid.grid, c), At(Eliminate(s, v, bs).grid, c), v, c in init, c == last);
    }
  }

  /** Removing `v` from a set with more than one element, twice over, is removing it once. */
  lemma RemoveTwice(s0: set<int>, s1: set<int>, s2: set<int>, v: int, first: bool, second: bool)
    requires s1 == if first && |s0| > 1 then s0 - {v} else s0
    requires s2 == if second && |s1| > 1 then s1 - {v} else s1
    ensures s2 == if (first || second) && |s0| > 1 then s0 - {v} else s0
  {
    if first && |s0| > 1 && second && |s1| > 1 {
      assert s1 - {v} == s1;
    }
  }

  /** One turn queues (b, d) exactly when b's candidates were `v` and another digit `d`. */
  lemma EliminateAtForced(s: State, v: Digit, b: Box)
    requires WellFormed(s.grid)
    ensures Extends(s, EliminateAt(s, v, b))
    ensures forall a: Action :: a in Added(s, EliminateAt(s, v, b)) <==>
      a.box == b && a.value != v && At(s.grid, b) == {v, a.value}
  {
    var values := At(s.grid, b);
    var r := EliminateAt(s, v, b);
    forall a: Action
      ensures a in Added(s, r) <==> a.box == b && a.value != v && At(s.grid, b) == {v, a.value}
    {
      PairIff(values, v, a.value);
      if |values| > 1 && |values - {v}| == 1 {
        FirstOfSingleton(values - {v});
        assert Added(s, r) == [Action(b, First(values - {v}))];
      } else {
        assert Added(s, r) == [];
      }
    }
  }

  /** The sweep only appends to the queue, and it queues (c, d) exactly when c is listed, d differs from
      `v`, and c's candidates were exactly `v` and `d`. */
  lemma {:induction false} EliminateForced(s: State, v: Digit, bs: seq<Box>)
    requires WellFormed(s.grid)
    ensures Extends(s, Eliminate(s, v, bs))
    ensures forall a: Action :: a in Added(s, Eliminate(s, v, bs)) <==>
      a.box in bs && a.value != v && At(s.grid, a.box) == {v, a.value}
  {
    if bs != [] {
      var init, last := bs[..|bs| - 1], bs[|bs| - 1];
      EliminateForced(s, v, init);
      var mid := Eliminate(s, v, init);
      var r := Eliminate(s, v, bs);
      EliminateAtForced(mid, v, last);
      ExtendsTrans(s, mid, r);
      EliminateCell(s, v, init, last);
      forall a: Action
        ensures a in Added(s, r) <==> a.box in bs && a.value != v && At(s.grid, a.box) == {v, a.value}
      {
        InSnoc(bs, a.box);
        if a.box == last && last in init && a.value != v {
          var old0 := At(s.grid, last);
          assert At(mid.grid, last) != {v, a.value} by {
            assert |{v, a.value}| == 2;
            if |old0| > 1 { assert v !in At(mid.grid, last); }
          }
        }
      }
    }
  }

  /** One turn never adds weight; it either removes weight or leaves the grid and the queue as they were. */
  lemma EliminateAtWeight(s: State, v: Digit, b: Box)
    requires WellFormed(s.grid)
    ensures Weight(EliminateAt(s, v, b).grid) <= Weight(s.grid)
    ensures Weight(EliminateAt(s, v, b).grid) < Weight(s.grid) || EliminateAt(s, v, b) == s
  {
    var values := At(s.grid, b);
    if |values| > 1 {
      var left := values - {v};
      WeightPut(s.grid, b, left);
      if v in values {
        assert |left| == |values| - 1;
      } else {
        assert left == values;
        PutSame(s.grid, b);
      }
    }
  }

  /** The same for the whole sweep. */
  lemma {:induction false} EliminateWeight(s: State, v: Digit, bs: seq<Box>)
    requires WellFormed(s.grid)
    ensures Weight(Eliminate(s, v, bs).grid) <= Weight(s.grid)
    ensures Weight(Eliminate(s, v, bs).grid) < Weight(s.grid) || Eliminate(s, v, bs) == s
  {
    if bs != [] {
      EliminateWeight(s, v, bs[..|bs| - 1]);
      EliminateAtWeight(Eliminate(s, v, bs[..|bs| - 1]), v, bs[|bs| - 1]);
    }
  }
  // ---------------------------------------------------------------------------------------------
  // The basic step of Solve: dequeue, set, eliminate from the peers.

  /** `b` and `c` share a line, a column or a square (`b` is its own peer). */
  predicate Peer(b: Box, c: Box)
  {
    c.line == b.line || c.column == b.column || SameSquare(b, c)
  }

  /** Dequeue and SetValueInBox: the oldest action leaves the queue and its box holds its value alone. */
  ghost function Dequeue(s: State): (r: State)
    requires WellFormed(s.grid) && s.queue != []
    ensures WellFormed(r.grid) && NoNewEmpty(s.grid, r.grid) && r.queue == s.queue[1..]
    ensures At(r.grid, s.queue[0].box) == {s.queue[0].value}
    ensures forall c: Box | c != s.queue[0].box :: At(r.grid, c) == At(s.grid, c)
    ensures Weight(r.grid) == Weight(s.grid) - CellWeight(At(s.grid, s.queue[0].box)) + 1
  {
    var a := s.queue[0];
    WeightPut(s.grid, a.box, {a.value});
    State(Put(s.grid, a.box, {a.value}), s.queue[1..])
  }

  /** The basic step: the dequeued action's value is eliminated from the boxes of its box's line, column
      and square, in that order. */
  ghost function Apply(s: State): (r: State)
    requires WellFormed(s.grid) && s.queue != []
    ensures WellFormed(r.grid) && NoNewEmpty(s.grid, r.grid)
  {
    Eliminate(Dequeue(s), s.queue[0].value, Peers(s.queue[0].box))
  }

  /** After the basic step the action's box holds its value alone; every other peer with more than one
      candidate has lost that value; all other boxes are untouched. */
  lemma ApplyCells(s: State)
    requires WellFormed(s.grid) && s.queue != []
    ensures At(Apply(s).grid, s.queue[0].box) == {s.queue[0].value}
    ensures forall c: Box | c != s.queue[0].box ::
      At(Apply(s).grid, c) ==
      (if Peer(s.queue[0].box, c) && |At(s.grid, c)| > 1 then At(s.grid, c) - {s.queue[0].value}
       else At(s.grid, c))
  {
    var a := s.queue[0];
    EliminateCell(Dequeue(s), a.value, Peers(a.box), a.box);
    forall c: Box | c != a.box
      ensures At(Apply(s).grid, c) ==
        (if Peer(a.box, c) && |At(s.grid, c)| > 1 then At(s.grid, c) - {a.value} else At(s.grid, c))
    {
      PeerAfterSet(s, c);
    }
  }

  /** A box other than the action's keeps its candidates through the dequeue, then loses the value when
      it is a peer with more than one candidate. */
  lemma PeerAfterSet(s: State, c: Box)
    requires WellFormed(s.grid) && s.queue != [] && c != s.queue[0].box
    ensures At(Apply(s).grid, c) ==
      (if Peer(s.queue[0].box, c) && |At(s.grid, c)| > 1 then At(s.grid, c) - {s.queue[0].value}
       else At(s.grid, c))
  {
    PeersMembers(s.queue[0].box);
    EliminateCell(Dequeue(s), s.queue[0].value, Peers(s.queue[0].box), c);
  }

  /** The basic step removes the oldest action and appends (c, d) exactly for the other peers c whose
      candidates were the action's value and d. */
  lemma ApplyQueue(s: State)
    requires WellFormed(s.grid) && s.queue != []
    ensures Extends(Dequeue(s), Apply(s))
    ensures forall x: Action :: x in Added(Dequeue(s), Apply(s)) <==>
      x.box != s.queue[0].box && Peer(s.queue[0].box, x.box) && x.value != s.queue[0].value &&
      At(s.grid, x.box) == {s.queue[0].value, x.value}
  {
    var a := s.queue[0];
    EliminateForced(Dequeue(s), a.value, Peers(a.box));
    PeersMembers(a.box);
    forall x: Action
      ensures x in Added(Dequeue(s), Apply(s)) <==>
        x.box != a.box && Peer(a.box, x.box) && x.value != a.value && At(s.grid, x.box) == {a.value, x.value}
    {
      ForcedAfterSet(s, x);
    }
  }

  /** The action's own box, now holding its value alone, never matches a pair of candidates; every other
      box keeps its candidates through the dequeue. */
  lemma ForcedAfterSet(s: State, x: Action)
    requires WellFormed(s.grid) && s.queue != []
    ensures At(Dequeue(s).grid, x.box) == {s.queue[0].value, x.value} && x.value != s.queue[0].value <==>
      x.box != s.queue[0].box && x.value != s.queue[0].value && At(s.grid, x.box) == {s.queue[0].value, x.value}
  {
    var a := s.queue[0];
    if x.box == a.box && x.value != a.value {
      assert x.value in {a.value, x.value};
    }
  }

  /** The basic step never adds weight, and it keeps the weight only when the action's box already had
      exactly one candidate, in which case nothing is queued. */
  lemma ApplyWeight(s: State)
    requires WellFormed(s.grid) && s.queue != []
    ensures Weight(Apply(s).grid) <= Weight(s.grid)
    ensures Weight(Apply(s).grid) == Weight(s.grid) ==>
      |At(s.grid, s.queue[0].box)| == 1 && Apply(s).queue == s.queue[1..]
  {
    EliminateWeight(Dequeue(s), s.queue[0].value, Peers(s.queue[0].box));
  }

  // ---------------------------------------------------------------------------------------------
  // CheckUniqueValueWithinBoxes

  /** The test made for value `d`: exactly one listed box can hold it, and that box has other candidates. */
  predicate HiddenSingle(g: Grid, bs: seq<Box>, d: int)
    requires IsGrid(g)
  {
    var holders := Containing(g, bs, d);
    |holders| == 1 && |At(g, holders[0])| > 1
  }

  /** The actions queued for the values 1 .. n, in that order. */
  function HiddenSinglesUpTo(g: Grid, bs: seq<Box>, n: nat): (r: seq<Action>)
    requires IsGrid(g) && n <= Size
    ensures |r| <= n
  {
    if n == 0 then []
    else
      HiddenSinglesUpTo(g, bs, n - 1) +
      (if HiddenSingle(g, bs, n) then [Action(Containing(g, bs, n)[0], n)] else [])
  }

  /** One more value: the action for n is appended exactly when n is a hidden single. */
  lemma HiddenSinglesStep(g: Grid, bs: seq<Box>, n: nat)
    requires IsGrid(g) && 1 <= n <= Size
    ensures var holders := Containing(g, bs, n);
      HiddenSinglesUpTo(g, bs, n) ==
        HiddenSinglesUpTo(g, bs, n - 1) + (if |holders| == 1 && |At(g, holders[0])| > 1 then [Action(holders[0], n)] else [])
  {
  }

  /** Everything CheckUniqueValueWithinBoxes queues for one list of boxes. */
  function HiddenSingles(g: Grid, bs: seq<Box>): (r: seq<Action>)
    requires IsGrid(g)
    ensures |r| <= Size
  {
    HiddenSinglesUpTo(g, bs, Size)
  }

  /** The queued actions are the values 1 .. n that pass the test, each with the one box that holds it. */
  lemma {:induction false} HiddenSinglesUpToIff(g: Grid, bs: seq<Box>, n: nat)
    requires IsGrid(g) && n <= Size
    ensures forall a: Action :: a in HiddenSinglesUpTo(g, bs, n) <==>
      a.value <= n && HiddenSingle(g, bs, a.value) && Containing(g, bs, a.value)[0] == a.box
  {
    if n > 0 {
      HiddenSinglesUpToIff(g, bs, n - 1);
      var found := if HiddenSingle(g, bs, n) then [Action(Containing(g, bs, n)[0], n)] else [];
      assert HiddenSinglesUpTo(g, bs, n) == HiddenSinglesUpTo(g, bs, n - 1) + found;
      forall a: Action
        ensures a in HiddenSinglesUpTo(g, bs, n) <==>
          a.value <= n && HiddenSingle(g, bs, a.value) && Containing(g, bs, a.value)[0] == a.box
      {
        assert a in HiddenSinglesUpTo(g, bs, n) <==> a in HiddenSinglesUpTo(g, bs, n - 1) || a in found;
        if a.value == n {
          assert a !in HiddenSinglesUpTo(g, bs, n - 1);
          assert a in found <==> HiddenSingle(g, bs, n) && Containing(g, bs, n)[0] == a.box;
        } else {
          assert a !in found;
        }
      }
    }
  }

  /** Each queued box is listed, holds the queued value and has other candidates. */
  lemma HiddenSinglesUpToBoxes(g: Grid, bs: seq<Box>, n: nat)
    requires IsGrid(g) && n <= Size
    ensures forall a | a in HiddenSinglesUpTo(g, bs, n) ::
      a.box in bs && a.value in At(g, a.box) && |At(g, a.box)| > 1
  {
    HiddenSinglesUpToIff(g, bs, n);
    forall a | a in HiddenSinglesUpTo(g, bs, n)
      ensures a.box in bs && a.value in At(g, a.box) && |At(g, a.box)| > 1
    {
      ContainingMembers(g, bs, a.value);
      assert Containing(g, bs, a.value)[0] in Containing(g, bs, a.value);
    }
  }

  /** The actions are queued in ascending order of value, none above n. */
  lemma {:induction false} HiddenSinglesUpToSorted(g: Grid, bs: seq<Box>, n: nat)
    requires IsGrid(g) && n <= Size
    ensures forall i | 0 <= i < |HiddenSinglesUpTo(g, bs, n)| :: HiddenSinglesUpTo(g, bs, n)[i].value <= n
    ensures forall i, j | 0 <= i < j < |HiddenSinglesUpTo(g, bs, n)| ::
      HiddenSinglesUpTo(g, bs, n)[i].value < HiddenSinglesUpTo(g, bs, n)[j].value
  {
    if n > 0 {
      HiddenSinglesUpToSorted(g, bs, n - 1);
      var extra := if HiddenSingle(g, bs, n) then [Action(Containing(g, bs, n)[0], n)] else [];
      AscendingAppend(HiddenSinglesUpTo(g, bs, n - 1), extra, n);
    }
  }

  /** Appending actions of value n to an ascending queue of values below n keeps it ascending. */
  lemma AscendingAppend(xs: seq<Action>, ys: seq<Action>, n: int)
    requires forall i | 0 <= i < |xs| :: xs[i].value < n
    requires forall i, j | 0 <= i < j < |xs| :: xs[i].value < xs[j].value
    requires |ys| <= 1 && forall i | 0 <= i < |ys| :: ys[i].value == n
    ensures forall i | 0 <= i < |xs + ys| :: (xs + ys)[i].value <= n
    ensures forall i, j | 0 <= i < j < |xs + ys| :: (xs + ys)[i].value < (xs + ys)[j].value
  {
  }

  /** In a list without repeats, (c, d) is queued exactly when c is listed, is undecided, and is the only
      listed box that can hold d. */
  lemma HiddenSinglesIff(g: Grid, bs: seq<Box>)
    requires IsGrid(g) && Distinct(bs)
    ensures forall a: Action :: a in HiddenSingles(g, bs) <==>
      a.box in bs && a.value in At(g, a.box) && |At(g, a.box)| > 1 &&
      forall b | b in bs && b != a.box :: a.value !in At(g, b)
  {
    HiddenSinglesUpToIff(g, bs, Size);
    forall a: Action
      ensures a in HiddenSingles(g, bs) <==>
        a.box in bs && a.value in At(g, a.box) && |At(g, a.box)| > 1 &&
        forall b | b in bs && b != a.box :: a.value !in At(g, b)
    {
      ContainingSingle(g, bs, a.value, a.box);
      var holders := Containing(g, bs, a.value);
      assert holders == [a.box] <==> |holders| == 1 && holders[0] == a.box;
    }
  }

  /** CheckUniqueValueWithinBoxes: the grid is untouched, the hidden singles of the list are queued. */
  function CheckUnique(s: State, bs: seq<Box>): (r: State)
    requires IsGrid(s.grid)
    ensures r.grid == s.grid && Extends(s, r) && |r.queue| <= |s.queue| + Size
  {
    State(s.grid, s.queue + HiddenSingles(s.grid, bs))
  }

  /** CheckUniqueValueWithinBoxes on each list in turn. */
  function ScanSingles(s: State, regions: seq<seq<Box>>): (r: State)
    requires IsGrid(s.grid)
    ensures r.grid == s.grid
    decreases |regions|
  {
    if regions == [] then s else CheckUnique(ScanSingles(s, regions[..|regions| - 1]), regions[|regions| - 1])
  }

  /** A scan only appends, and what it appends are the hidden singles of the lists. */
  lemma {:induction false} ScanSinglesMembers(s: State, regions: seq<seq<Box>>)
    requires IsGrid(s.grid)
    ensures Extends(s, ScanSingles(s, regions))
    ensures forall a: Action :: a in Added(s, ScanSingles(s, regions)) <==>
      exists k | 0 <= k < |regions| :: a in HiddenSingles(s.grid, regions[k])
    decreases |regions|
  {
    if regions != [] {
      var init := regions[..|regions| - 1];
      ScanSinglesMembers(s, init);
      var mid := ScanSingles(s, init);
      var last := HiddenSingles(s.grid, regions[|regions| - 1]);
      assert Added(s, ScanSingles(s, regions)) == Added(s, mid) + last;
      forall a: Action
        ensures a in Added(s, ScanSingles(s, regions)) <==>
          exists k | 0 <= k < |regions| :: a in HiddenSingles(s.grid, regions[k])
      {
        if a in Added(s, mid) {
          var k :| 0 <= k < |init| && a in HiddenSingles(s.grid, init[k]);
          assert regions[k] == init[k];
        }
        if exists k | 0 <= k < |regions| :: a in HiddenSingles(s.grid, regions[k]) {
          var k :| 0 <= k < |regions| && a in HiddenSingles(s.grid, regions[k]);
          if k < |init| {
            assert regions[k] == init[k];
          }
        }
      }
    }
  }

  /** A scan over one more list is one more CheckUniqueValueWithinBoxes. */
  lemma ScanSinglesStep(s: State, regions: seq<seq<Box>>, k: int)
    requires IsGrid(s.grid) && 0 <= k < |regions|
    ensures ScanSingles(s, regions[..k + 1]) == CheckUnique(ScanSingles(s, regions[..k]), regions[k])
  {
    assert regions[..k + 1][..k] == regions[..k];
  }

  /** The centres of the nine squares, line-major, as Solve lists them for the square scan. */
  const SquareCentres: seq<Box> :=
    [Box(2, 2), Box(2, 5), Box(2, 8), Box(5, 2), Box(5, 5), Box(5, 8), Box(8, 2), Box(8, 5), Box(8, 8)]

  /** The diagonal boxes, whose lines and columns Solve scans. */
  const Diagonal: seq<Box> :=
    [Box(1, 1), Box(2, 2), Box(3, 3), Box(4, 4), Box(5, 5), Box(6, 6), Box(7, 7), Box(8, 8), Box(9, 9)]

  /** The lists of the square scan: the square of each centre. */
  function SquareRegions(): (r: seq<seq<Box>>)
    ensures |r| == Size
  {
    seq(|SquareCentres|, k requires 0 <= k < |SquareCentres| => SquareOf(SquareCentres[k]))
  }

  /** The lists of the line and column scan: for each diagonal box, its line then its column. */
  function LineColumnRegions(): (r: seq<seq<Box>>)
    ensures |r| == 2 * Size
  {
    seq(2 * |Diagonal|, k requires 0 <= k < 2 * |Diagonal| =>
      if k % 2 == 0 then LineOf(Diagonal[k / 2]) else ColumnOf(Diagonal[k / 2]))
  }

  /** The lists of the line and column scan at the i-th diagonal box. */
  lemma LineColumnRegionsAt(i: int)
    requires 0 <= i < |Diagonal|
    ensures |LineColumnRegions()| == 2 * |Diagonal|
    ensures LineColumnRegions()[2 * i] == LineOf(Diagonal[i])
    ensures LineColumnRegions()[2 * i + 1] == ColumnOf(Diagonal[i])
  {
    assert (2 * i) % 2 == 0 && (2 * i) / 2 == i;
    assert (2 * i + 1) % 2 == 1 && (2 * i + 1) / 2 == i;
  }

  /** The centre list names, in order, the squares of ListBoxesInAllSquares. */
  lemma CentresFormula()
    ensures |SquareCentres| == Size
    ensures forall k | 0 <= k < Size :: SquareCentres[k] == Box(3 * (k / 3) + 2, 3 * (k % 3) + 2)
  {
  }

  lemma DiagonalFormula()
    ensures |Diagonal| == Size
    ensures forall i | 0 <= i < Size :: Diagonal[i] == Box(i + 1, i + 1)
  {
  }

  /** Every box lies in the square of the centre at its square index. */
  lemma CentreOfSquare(c: Box)
    ensures SameSquare(SquareCentres[SquareIndex(c)], c)
  {
    CentresFormula();
    var p := Band(c.line);
    var q := Band(c.column);
    var k := SquareIndex(c);
    assert k == 3 * p + q && k / 3 == p && k % 3 == q;
    CornerOfBand(3 * p + 2, 3 * p + 1);
    CornerOfBand(3 * q + 2, 3 * q + 1);
  }

  /** `d` is a candidate of the undecided box `c` and of no other box of c's square. */
  ghost predicate SquareSingle(g: Grid, c: Box, d: int)
    requires IsGrid(g)
  {
    d in At(g, c) && |At(g, c)| > 1 && forall b: Box :: b != c && SameSquare(c, b) ==> d !in At(g, b)
  }

  /** `d` is a candidate of the undecided box `c` and of no other box of c's line. */
  ghost predicate LineSingle(g: Grid, c: Box, d: int)
    requires IsGrid(g)
  {
    d in At(g, c) && |At(g, c)| > 1 && forall b: Box :: b != c && b.line == c.line ==> d !in At(g, b)
  }

  /** `d` is a candidate of the undecided box `c` and of no other box of c's column. */
  ghost predicate ColumnSingle(g: Grid, c: Box, d: int)
    requires IsGrid(g)
  {
    d in At(g, c) && |At(g, c)| > 1 && forall b: Box :: b != c && b.column == c.column ==> d !in At(g, b)
  }

  /** The hidden singles of the k-th list of the square scan are those of the k-th square. */
  lemma SquareRegionSingles(g: Grid, k: int, a: Action)
    requires IsGrid(g) && 0 <= k < Size
    ensures a in HiddenSingles(g, SquareRegions()[k]) <==>
      SameSquare(SquareCentres[k], a.box) && SquareSingle(g, a.box, a.value)
  {
    var centre := SquareCentres[k];
    SquareMembers(centre);
    HiddenSinglesIff(g, SquareOf(centre));
  }

  /** The square scan queues (c, d) exactly when d can go only in c within c's square. */
  lemma SquareScanIff(s: State)
    requires IsGrid(s.grid)
    ensures Extends(s, ScanSingles(s, SquareRegions()))
    ensures forall a: Action :: a in Added(s, ScanSingles(s, SquareRegions())) <==>
      SquareSingle(s.grid, a.box, a.value)
  {
    ScanSinglesMembers(s, SquareRegions());
    forall a: Action
      ensures (exists k | 0 <= k < Size :: a in HiddenSingles(s.grid, SquareRegions()[k])) <==>
        SquareSingle(s.grid, a.box, a.value)
    {
      if exists k | 0 <= k < Size :: a in HiddenSingles(s.grid, SquareRegions()[k]) {
        var k :| 0 <= k < Size && a in HiddenSingles(s.grid, SquareRegions()[k]);
        SquareRegionSingles(s.grid, k, a);
      }
      if SquareSingle(s.grid, a.box, a.value) {
        CentreOfSquare(a.box);
        SquareRegionSingles(s.grid, SquareIndex(a.box), a);
      }
    }
  }

  /** The hidden singles of the line of the i-th diagonal box are the line singles of line i + 1. */
  lemma LineRegionSingles(g: Grid, i: int, a: Action)
    requires IsGrid(g) && 0 <= i < Size
    ensures a in HiddenSingles(g, LineColumnRegions()[2 * i]) <==> a.box.line == i + 1 && LineSingle(g, a.box, a.value)
  {
    DiagonalFormula();
    LineColumnRegionsAt(i);
    LineMembers(Diagonal[i]);
    HiddenSinglesIff(g, LineOf(Diagonal[i]));
  }

  /** The hidden singles of the column of the i-th diagonal box are the column singles of column i + 1. */
  lemma ColumnRegionSingles(g: Grid, i: int, a: Action)
    requires IsGrid(g) && 0 <= i < Size
    ensures a in HiddenSingles(g, LineColumnRegions()[2 * i + 1]) <==>
      a.box.column == i + 1 && ColumnSingle(g, a.box, a.value)
  {
    DiagonalFormula();
    LineColumnRegionsAt(i);
    ColumnMembers(Diagonal[i]);
    HiddenSinglesIff(g, ColumnOf(Diagonal[i]));
  }

  /** For one action: it is a hidden single of some list of the line and column scan exactly when its
      value can go only in its box within the box's line or within its column. */
  lemma LineColumnSinglesAt(g: Grid, a: Action)
    requires IsGrid(g)
    ensures (exists k | 0 <= k < 2 * Size :: a in HiddenSingles(g, LineColumnRegions()[k])) <==>
      LineSingle(g, a.box, a.value) || ColumnSingle(g, a.box, a.value)
  {
    if exists k | 0 <= k < 2 * Size :: a in HiddenSingles(g, LineColumnRegions()[k]) {
      var k :| 0 <= k < 2 * Size && a in HiddenSingles(g, LineColumnRegions()[k]);
      RegionSingle(g, k, a);
    }
    if LineSingle(g, a.box, a.value) {
      LineRegionSingles(g, a.box.line - 1, a);
    }
    if ColumnSingle(g, a.box, a.value) {
      ColumnRegionSingles(g, a.box.column - 1, a);
    }
  }

  /** A hidden single of one list of the line and column scan is a line single or a column single. */
  lemma RegionSingle(g: Grid, k: int, a: Action)
    requires IsGrid(g) && 0 <= k < 2 * Size && a in HiddenSingles(g, LineColumnRegions()[k])
    ensures LineSingle(g, a.box, a.value) || ColumnSingle(g, a.box, a.value)
  {
    var i, even := Halve(k);
    if even {
      LineRegionSingles(g, i, a);
    } else {
      ColumnRegionSingles(g, i, a);
    }
  }

  /** k is 2i or 2i + 1. */
  lemma Halve(k: int) returns (i: int, even: bool)
    requires 0 <= k < 2 * Size
    ensures 0 <= i < Size && k == if even then 2 * i else 2 * i + 1
  {
    i, even := k / 2, k % 2 == 0;
  }

  /** The line and column scan queues (c, d) exactly when d can go only in c within c's line or within
      c's column. */
  lemma LineColumnScanIff(s: State)
    requires IsGrid(s.grid)
    ensures Extends(s, ScanSingles(s, LineColumnRegions()))
    ensures forall a: Action :: a in Added(s, ScanSingles(s, LineColumnRegions())) <==>
      LineSingle(s.grid, a.box, a.value) || ColumnSingle(s.grid, a.box, a.value)
  {
    ScanSinglesMembers(s, LineColumnRegions());
    forall a: Action
      ensures (exists k | 0 <= k < 2 * Size :: a in HiddenSingles(s.grid, LineColumnRegions()[k])) <==>
        LineSingle(s.grid, a.box, a.value) || ColumnSingle(s.grid, a.box, a.value)
    {
      LineColumnSinglesAt(s.grid, a);
    }
  }

  // ---------------------------------------------------------------------------------------------
  // Progress.

  /** From `s0` to `s1` actions were only appended and the weight did not grow; if it did not shrink,
      the grid is the same and every appended action names a box with more than one candidate. */
  ghost predicate Advances(s0: State, s1: State)
    requires IsGrid(s0.grid) && IsGrid(s1.grid)
  {
    && Extends(s0, s1)
    && Weight(s1.grid) <= Weight(s0.grid)
    && (Weight(s1.grid) < Weight(s0.grid) ||
        (s1.grid == s0.grid && forall a | a in Added(s0, s1) :: |At(s0.grid, a.box)| > 1))
  }

  lemma AdvancesRefl(s: State)
    requires IsGrid(s.grid)
    ensures Advances(s, s)
  {
    assert Added(s, s) == [];
  }

  lemma AdvancesTrans(s0: State, s1: State, s2: State)
    requires IsGrid(s0.grid) && IsGrid(s1.grid) && IsGrid(s2.grid)
    requires Advances(s0, s1) && Advances(s1, s2)
    ensures Advances(s0, s2)
  {
    ExtendsTrans(s0, s1, s2);
  }

  /** A check of one list appends only actions on boxes with more than one candidate. */
  lemma CheckUniqueAdvances(s: State, bs: seq<Box>)
    requires IsGrid(s.grid)
    ensures Advances(s, CheckUnique(s, bs))
  {
    HiddenSinglesUpToBoxes(s.grid, bs, Size);
    assert Added(s, CheckUnique(s, bs)) == HiddenSingles(s.grid, bs);
  }

  lemma {:induction false} ScanSinglesAdvances(s: State, regions: seq<seq<Box>>)
    requires IsGrid(s.grid)
    ensures Advances(s, ScanSingles(s, regions))
    decreases |regions|
  {
    if regions != [] {
      var init := regions[..|regions| - 1];
      ScanSinglesAdvances(s, init);
      CheckUniqueAdvances(ScanSingles(s, init), regions[|regions| - 1]);
      AdvancesTrans(s, ScanSingles(s, init), ScanSingles(s, regions));
    }
  }

  lemma EliminateAdvances(s: State, v: Digit, bs: seq<Box>)
    requires WellFormed(s.grid)
    ensures Advances(s, Eliminate(s, v, bs))
  {
    EliminateWeight(s, v, bs);
    EliminateForced(s, v, bs);
  }

  // ---------------------------------------------------------------------------------------------
  // The locked-candidate pass.

  /** The boxes of `bs`, in order, that have more than one candidate, `d` among them: the dictionary
      entry for `d`. */
  function MultiHolders(g: Grid, bs: seq<Box>, d: int): (r: seq<Box>)
    requires IsGrid(g)
    ensures forall b: Box :: b in r <==> b in bs && |At(g, b)| > 1 && d in At(g, b)
    decreases |bs|
  {
    if bs == [] then []
    else
      var b := bs[|bs| - 1];
      assert bs == bs[..|bs| - 1] + [b];
      MultiHolders(g, bs[..|bs| - 1], d) + (if |At(g, b)| > 1 && d in At(g, b) then [b] else [])
  }

  /** The values 1 .. n of `s` that `keys` does not hold, ascending. */
  function NewValues(keys: seq<Digit>, s: set<int>, n: nat): (r: seq<Digit>)
    requires n <= Size
    ensures forall d: Digit :: d in r <==> d <= n && d in s && d !in keys
    ensures forall i | 0 <= i < |r| :: r[i] <= n
    ensures forall i, j | 0 <= i < j < |r| :: r[i] < r[j]
  {
    if n == 0 then [] else NewValues(keys, s, n - 1) + (if n in s && n !in keys then [n] else [])
  }

  /** The dictionary's keys in insertion order: each box with more than one candidate, in order, adds
      those of its candidates, ascending, that are not keys yet. */
  function KeysOf(g: Grid, bs: seq<Box>): (r: seq<Digit>)
    requires IsGrid(g)
    ensures forall d: Digit :: d in r <==> MultiHolders(g, bs, d) != []
    ensures forall i, j | 0 <= i < j < |r| :: r[i] != r[j]
    decreases |bs|
  {
    if bs == [] then []
    else
      var prior := KeysOf(g, bs[..|bs| - 1]);
      var b := bs[|bs| - 1];
      var added := if |At(g, b)| > 1 then NewValues(prior, At(g, b), Size) else [];
      HoldersOfLast(g, bs);
      DistinctAppend(prior, added);
      prior + added
  }

  /** A value has holders among `bs` exactly when it has some before the last box or the last box holds it. */
  lemma HoldersOfLast(g: Grid, bs: seq<Box>)
    requires IsGrid(g) && bs != []
    ensures forall d :: MultiHolders(g, bs, d) != [] <==>
      MultiHolders(g, bs[..|bs| - 1], d) != [] || (|At(g, bs[|bs| - 1])| > 1 && d in At(g, bs[|bs| - 1]))
  {
  }

  /** Appending ascending values that are not in a list without repeats leaves it without repeats. */
  lemma DistinctAppend(prior: seq<Digit>, added: seq<Digit>)
    requires forall i, j | 0 <= i < j < |prior| :: prior[i] != prior[j]
    requires forall i, j | 0 <= i < j < |added| :: added[i] < added[j]
    requires forall d :: d in added ==> d !in prior
    ensures forall i, j | 0 <= i < j < |prior + added| :: (prior + added)[i] != (prior + added)[j]
  {
    forall i, j | 0 <= i < j < |prior + added|
      ensures (prior + added)[i] != (prior + added)[j]
    {
      if i < |prior| && j >= |prior| {
        assert added[j - |prior|] in added;
      }
    }
  }

  /** One more box of the square adds its entries after the earlier ones. */
  lemma MultiHoldersStep(g: Grid, bs: seq<Box>, i: int)
    requires IsGrid(g) && 0 <= i < |bs|
    ensures forall d ::
      (MultiHolders(g, bs[..i + 1], d) ==
        MultiHolders(g, bs[..i], d) + (if |At(g, bs[i])| > 1 && d in At(g, bs[i]) then [bs[i]] else []))
  {
    assert bs[..i + 1][..i] == bs[..i];
  }

  /** One more box of the square adds its new keys after the earlier ones. */
  lemma KeysOfStep(g: Grid, bs: seq<Box>, i: int)
    requires IsGrid(g) && 0 <= i < |bs|
    ensures KeysOf(g, bs[..i + 1]) == KeysOf(g, bs[..i]) +
      (if |At(g, bs[i])| > 1 then NewValues(KeysOf(g, bs[..i]), At(g, bs[i]), Size) else [])
  {
    assert bs[..i + 1][..i] == bs[..i];
  }

  /** A square's dictionary: its keys in insertion order, and the boxes entered for each key. */
  datatype Groups = Groups(keys: seq<Digit>, entries: map<Digit, seq<Box>>)

  /** The dictionary after a box's candidates 1 .. n, ascending, have been entered: a value without an
      entry gets one holding the box, as the last key; an existing entry gets the box appended. */
  function Enter(m0: Groups, values: set<int>, box: Box, n: nat): (r: Groups)
    requires n <= Size
    ensures m0.entries.Keys <= r.entries.Keys
    ensures |m0.keys| <= |r.keys| && r.keys[..|m0.keys|] == m0.keys
  {
    if n == 0 then m0
    else
      var m := Enter(m0, values, box, n - 1);
      if n !in values then m
      else if n !in m.entries then Groups(m.keys + [n], m.entries[n := [box]])
      else Groups(m.keys, m.entries[n := m.entries[n] + [box]])
  }

  /** Entering a box touches only the entries of its candidates, each gaining the box at its end. */
  lemma {:induction false} EnterEntries(m0: Groups, values: set<int>, box: Box, n: nat)
    requires n <= Size
    ensures forall d: Digit :: d in Enter(m0, values, box, n).entries <==> d in m0.entries || (d <= n && d in values)
    ensures forall d | d in m0.entries ::
      Enter(m0, values, box, n).entries[d] == m0.entries[d] + (if d <= n && d in values then [box] else [])
    ensures forall d | d in Enter(m0, values, box, n).entries && d !in m0.entries ::
      Enter(m0, values, box, n).entries[d] == [box]
  {
    if n > 0 {
      EnterEntries(m0, values, box, n - 1);
    }
  }

  /** Entering a box creates a key exactly when it creates an entry. */
  lemma {:induction false} EnterDomain(m0: Groups, values: set<int>, box: Box, n: nat)
    requires n <= Size
    requires forall d: Digit :: d in m0.entries <==> d in m0.keys
    ensures forall d: Digit :: d in Enter(m0, values, box, n).entries <==> d in Enter(m0, values, box, n).keys
  {
    if n > 0 {
      EnterDomain(m0, values, box, n - 1);
    }
  }

  /** Entering candidate n appends n to the keys exactly when it is a candidate and not yet a key. */
  lemma EnterKeysStep(m0: Groups, values: set<int>, box: Box, n: nat)
    requires 1 <= n <= Size
    requires Enter(m0, values, box, n - 1).keys == m0.keys + NewValues(m0.keys, values, n - 1)
    requires var m := Enter(m0, values, box, n - 1); n in m.entries <==> n in m.keys
    ensures Enter(m0, values, box, n).keys == m0.keys + NewValues(m0.keys, values, n)
  {
    var m := Enter(m0, values, box, n - 1);
    var prior := NewValues(m0.keys, values, n - 1);
    assert n in m.entries <==> n in m0.keys by {
      assert n !in prior;
    }
    if n in values && n !in m.entries {
      assert m0.keys + prior + [n] == m0.keys + (prior + [n]);
    }
  }

  /** When the keys list exactly the entries, entering a box appends its new candidates, ascending. */
  lemma {:induction false} EnterKeys(m0: Groups, values: set<int>, box: Box, n: nat)
    requires n <= Size
    requires forall d: Digit :: d in m0.entries <==> d in m0.keys
    ensures Enter(m0, values, box, n).keys == m0.keys + NewValues(m0.keys, values, n)
  {
    if n > 0 {
      EnterKeys(m0, values, box, n - 1);
      EnterDomain(m0, values, box, n - 1);
      var m := Enter(m0, values, box, n - 1);
      var d: Digit := n;
      assert d in m.entries <==> d in m.keys;
      EnterKeysStep(m0, values, box, n);
    }
  }

  /** `m` is the dictionary of the boxes `bs`: its keys are KeysOf, in that order, and the entry of each
      key lists the boxes of `bs` with more than one candidate that can hold it. */
  predicate Describes(g: Grid, bs: seq<Box>, m: Groups)
    requires IsGrid(g)
  {
    && m.keys == KeysOf(g, bs)
    && (forall d: Digit :: d in m.entries <==> d in m.keys)
    && forall d | d in m.entries :: m.entries[d] == MultiHolders(g, bs, d)
  }

  /** The dictionary after the box `b` has been read. */
  function NextGroups(g: Grid, b: Box, m: Groups): (r: Groups)
    requires IsGrid(g)
    ensures m.entries.Keys <= r.entries.Keys
    ensures |m.keys| <= |r.keys| && r.keys[..|m.keys|] == m.keys
    ensures |At(g, b)| <= 1 ==> r == m
  {
    if |At(g, b)| > 1 then Enter(m, At(g, b), b, Size) else m
  }

  /** The keys after reading one more box are KeysOf the longer prefix. */
  lemma FillKeys(g: Grid, bs: seq<Box>, i: int, m: Groups)
    requires IsGrid(g) && 0 <= i < |bs| && Describes(g, bs[..i], m)
    ensures NextGroups(g, bs[i], m).keys == KeysOf(g, bs[..i + 1])
  {
    KeysOfStep(g, bs, i);
    if |At(g, bs[i])| > 1 {
      EnterKeys(m, At(g, bs[i]), bs[i], Size);
    }
  }

  /** Reading a box keeps the keys listing exactly the entries. */
  lemma FillDomain(g: Grid, b: Box, m: Groups)
    requires IsGrid(g) && forall d: Digit :: d in m.entries <==> d in m.keys
    ensures forall d: Digit :: d in NextGroups(g, b, m).entries <==> d in NextGroups(g, b, m).keys
  {
    if |At(g, b)| > 1 {
      EnterDomain(m, At(g, b), b, Size);
    }
  }

  /** The entries after reading one more box list the holders among the boxes read so far. */
  lemma FillEntries(g: Grid, bs: seq<Box>, i: int, m: Groups)
    requires IsGrid(g) && 0 <= i < |bs| && Describes(g, bs[..i], m)
    ensures forall d | d in NextGroups(g, bs[i], m).entries ::
      NextGroups(g, bs[i], m).entries[d] == MultiHolders(g, bs[..i + 1], d)
  {
    var r := NextGroups(g, bs[i], m);
    MultiHoldersStep(g, bs, i);
    if |At(g, bs[i])| > 1 {
      EnterEntries(m, At(g, bs[i]), bs[i], Size);
      forall d: Digit | d in r.entries
        ensures r.entries[d] == MultiHolders(g, bs[..i + 1], d)
      {
        if d !in m.entries {
          assert MultiHolders(g, bs[..i], d) == [];
        }
      }
    }
  }

  /** The key of the line grouping. */
  function LineKey(b: Box): int
  {
    b.line
  }

  /** The key of the column grouping. */
  function ColumnKey(b: Box): int
  {
    b.column
  }

  /** `GroupBy(key).Count()`: the number of distinct keys among the boxes. */
  function GroupCount(hs: seq<Box>, key: Box -> int): (r: nat)
    ensures hs == [] <==> r == 0
  {
    var keys := set b | b in hs :: key(b);
    assert hs != [] ==> key(hs[0]) in keys;
    |keys|
  }

  /** The boxes fall in one group exactly when they all share the first box's key. */
  lemma GroupCountOne(hs: seq<Box>, key: Box -> int)
    requires hs != []
    ensures GroupCount(hs, key) == 1 <==> forall b | b in hs :: key(b) == key(hs[0])
  {
    var keys := set b | b in hs :: key(b);
    assert key(hs[0]) in keys;
    if forall b | b in hs :: key(b) == key(hs[0]) {
      assert keys == {key(hs[0])};
    }
    if |keys| == 1 {
      assert |keys - {key(hs[0])}| == 0;
      forall b | b in hs ensures key(b) == key(hs[0]) {
        assert key(b) in keys;
      }
    }
  }

  /** The squares of the swept boxes, each in turn. */
  function SquaresOf(bs: seq<Box>): seq<seq<Box>>
  {
    seq(|bs|, i requires 0 <= i < |bs| => SquareOf(bs[i]))
  }

  /** RemoveValueInBoxes over the swept boxes, then CheckUniqueValueWithinBoxes on the square of each. */
  ghost function Sweep(s: State, d: Digit, bs: seq<Box>): (r: State)
    requires WellFormed(s.grid)
    ensures WellFormed(r.grid) && NoNewEmpty(s.grid, r.grid)
  {
    ScanSingles(Eliminate(s, d, bs), SquaresOf(bs))
  }

  /** One dictionary entry: a value held by one box of the square is queued for it; a value whose
      holders share a line is swept from that line, else one whose holders share a column is swept from
      that column; otherwise nothing happens. */
  ghost function ProcessGroup(s: State, d: Digit, hs: seq<Box>): (r: State)
    requires WellFormed(s.grid) && hs != []
    ensures WellFormed(r.grid) && NoNewEmpty(s.grid, r.grid)
  {
    if |hs| == 1 then State(s.grid, s.queue + [Action(hs[0], d)])
    else if GroupCount(hs, LineKey) == 1 then Sweep(s, d, Unlisted(hs, LineOf(hs[0])))
    else if GroupCount(hs, ColumnKey) == 1 then Sweep(s, d, Unlisted(hs, ColumnOf(hs[0])))
    else s
  }

  /** The entries for `keys`, in order; the holders were read from the grid `g0` the dictionary was
      filled from. */
  ghost function ProcessGroups(s: State, g0: Grid, square: seq<Box>, keys: seq<Digit>): (r: State)
    requires WellFormed(s.grid) && IsGrid(g0)
    requires forall d | d in keys :: MultiHolders(g0, square, d) != []
    ensures WellFormed(r.grid) && NoNewEmpty(s.grid, r.grid)
    decreases |keys|
  {
    if keys == [] then s
    else
      var d := keys[|keys| - 1];
      ProcessGroup(ProcessGroups(s, g0, square, keys[..|keys| - 1]), d, MultiHolders(g0, square, d))
  }

  /** One square of the pass: the dictionary is filled from the current grid, then its entries are
      processed in insertion order. */
  ghost function LockedSquare(s: State, square: seq<Box>): (r: State)
    requires WellFormed(s.grid)
    ensures WellFormed(r.grid) && NoNewEmpty(s.grid, r.grid)
  {
    ProcessGroups(s, s.grid, square, KeysOf(s.grid, square))
  }

  /** Processing one more key is one more ProcessGroup. */
  lemma ProcessGroupsStep(s: State, g0: Grid, square: seq<Box>, keys: seq<Digit>, j: int)
    requires WellFormed(s.grid) && IsGrid(g0) && 0 <= j < |keys|
    requires forall d | d in keys :: MultiHolders(g0, square, d) != []
    ensures forall d | d in keys[..j] :: MultiHolders(g0, square, d) != []
    ensures ProcessGroups(s, g0, square, keys[..j + 1]) ==
      ProcessGroup(ProcessGroups(s, g0, square, keys[..j]), keys[j], MultiHolders(g0, square, keys[j]))
  {
    assert keys[..j + 1][..j] == keys[..j];
    assert forall d | d in keys[..j + 1] :: d in keys;
  }

  /** Locking one more square is one more LockedSquare. */
  lemma LockedSquaresStep(s: State, squares: seq<seq<Box>>, k: int)
    requires WellFormed(s.grid) && 0 <= k < |squares|
    ensures LockedSquares(s, squares[..k + 1]) == LockedSquare(LockedSquares(s, squares[..k]), squares[k])
  {
    assert squares[..k + 1][..k] == squares[..k];
  }

  ghost function LockedSquares(s: State, squares: seq<seq<Box>>): (r: State)
    requires WellFormed(s.grid)
    ensures WellFormed(r.grid) && NoNewEmpty(s.grid, r.grid)
    decreases |squares|
  {
    if squares == [] then s
    else LockedSquare(LockedSquares(s, squares[..|squares| - 1]), squares[|squares| - 1])
  }

  /** The whole locked-candidate pass, over ListBoxesInAllSquares. */
  ghost function LockedPass(s: State): (r: State)
    requires WellFormed(s.grid)
    ensures WellFormed(r.grid) && NoNewEmpty(s.grid, r.grid)
  {
    LockedSquares(s, AllSquares())
  }

  /** When the holders share a line, the value leaves every box of that line that had more than one
      candidate, the holders themselves included; no other box changes. */
  lemma LockedLineSweep(s: State, d: Digit, hs: seq<Box>)
    requires WellFormed(s.grid) && |hs| > 1 && GroupCount(hs, LineKey) == 1
    ensures forall c: Box ::
      At(ProcessGroup(s, d, hs).grid, c) ==
      (if c.line == hs[0].line && |At(s.grid, c)| > 1 then At(s.grid, c) - {d} else At(s.grid, c))
    ensures forall h | h in hs && |At(s.grid, h)| > 1 :: d !in At(ProcessGroup(s, d, hs).grid, h)
  {
    var line := LineOf(hs[0]);
    LineMembers(hs[0]);
    GroupCountOne(hs, LineKey);
    forall c: Box
      ensures At(ProcessGroup(s, d, hs).grid, c) ==
        if c.line == hs[0].line && |At(s.grid, c)| > 1 then At(s.grid, c) - {d} else At(s.grid, c)
    {
      EliminateCell(s, d, line, c);
    }
  }

  /** When the holders do not share a line but share a column, the same happens on that column. */
  lemma LockedColumnSweep(s: State, d: Digit, hs: seq<Box>)
    requires WellFormed(s.grid) && |hs| > 1 && GroupCount(hs, LineKey) != 1 && GroupCount(hs, ColumnKey) == 1
    ensures forall c: Box ::
      At(ProcessGroup(s, d, hs).grid, c) ==
      (if c.column == hs[0].column && |At(s.grid, c)| > 1 then At(s.grid, c) - {d} else At(s.grid, c))
    ensures forall h | h in hs && |At(s.grid, h)| > 1 :: d !in At(ProcessGroup(s, d, hs).grid, h)
  {
    var column := ColumnOf(hs[0]);
    ColumnMembers(hs[0]);
    GroupCountOne(hs, ColumnKey);
    forall c: Box
      ensures At(ProcessGroup(s, d, hs).grid, c) ==
        if c.column == hs[0].column && |At(s.grid, c)| > 1 then At(s.grid, c) - {d} else At(s.grid, c)
    {
      EliminateCell(s, d, column, c);
    }
  }

  /** A sweep appends only hidden singles of the current grid and never adds weight. */
  lemma SweepAdvances(s: State, d: Digit, bs: seq<Box>)
    requires WellFormed(s.grid)
    ensures Advances(s, Sweep(s, d, bs))
  {
    EliminateAdvances(s, d, bs);
    ScanSinglesAdvances(Eliminate(s, d, bs), SquaresOf(bs));
    AdvancesTrans(s, Eliminate(s, d, bs), Sweep(s, d, bs));
  }

  /** Processing one entry keeps the pass advancing from its start `s0`, provided the holders had more than
      one candidate in the grid of `s0`. */
  lemma ProcessGroupAdvances(s0: State, s: State, d: Digit, hs: seq<Box>)
    requires WellFormed(s0.grid) && WellFormed(s.grid) && hs != []
    requires Advances(s0, s) && forall h | h in hs :: |At(s0.grid, h)| > 1
    ensures Advances(s0, ProcessGroup(s, d, hs))
  {
    var r := ProcessGroup(s, d, hs);
    if |hs| == 1 {
      assert hs[0] in hs;
      assert r.queue[..|s.queue|] == s.queue;
      assert r.queue[..|s0.queue|] == s.queue[..|s0.queue|];
      assert Added(s0, r) == Added(s0, s) + [Action(hs[0], d)];
    } else if GroupCount(hs, LineKey) == 1 {
      SweepAdvances(s, d, Unlisted(hs, LineOf(hs[0])));
      AdvancesTrans(s0, s, r);
    } else if GroupCount(hs, ColumnKey) == 1 {
      SweepAdvances(s, d, Unlisted(hs, ColumnOf(hs[0])));
      AdvancesTrans(s0, s, r);
    }
  }

  lemma {:induction false} ProcessGroupsAdvances(s: State, square: seq<Box>, keys: seq<Digit>)
    requires WellFormed(s.grid)
    requires forall d | d in keys :: MultiHolders(s.grid, square, d) != []
    ensures Advances(s, ProcessGroups(s, s.grid, square, keys))
    decreases |keys|
  {
    if keys != [] {
      var init, d := keys[..|keys| - 1], keys[|keys| - 1];
      assert forall e | e in init :: e in keys;
      ProcessGroupsAdvances(s, square, init);
      ProcessGroupAdvances(s, ProcessGroups(s, s.grid, square, init), d, MultiHolders(s.grid, square, d));
    }
  }

  lemma {:induction false} LockedSquaresAdvances(s: State, squares: seq<seq<Box>>)
    requires WellFormed(s.grid)
    ensures Advances(s, LockedSquares(s, squares))
    decreases |squares|
  {
    if squares != [] {
      var init := squares[..|squares| - 1];
      LockedSquaresAdvances(s, init);
      var mid := LockedSquares(s, init);
      ProcessGroupsAdvances(mid, squares[|squares| - 1], KeysOf(mid.grid, squares[|squares| - 1]));
      AdvancesTrans(s, mid, LockedSquares(s, squares));
    }
  }

  // ---------------------------------------------------------------------------------------------
  // Solve

  /** The square scan, the line and column scan and the locked-candidate pass, each run only while the
      queue is empty. */
  ghost function Fallbacks(s: State): (r: State)
    requires WellFormed(s.grid)
    ensures WellFormed(r.grid) && NoNewEmpty(s.grid, r.grid)
  {
    var s2 := if s.queue == [] then ScanSingles(s, SquareRegions()) else s;
    var s3 := if s2.queue == [] then ScanSingles(s2, LineColumnRegions()) else s2;
    if s3.queue == [] then LockedPass(s3) else s3
  }

  /** The fallbacks only append actions, and they never add weight; when they keep it, they append only
      actions on boxes with more than one candidate. */
  lemma FallbacksAdvance(s: State)
    requires WellFormed(s.grid)
    ensures Advances(s, Fallbacks(s))
  {
    if s.queue != [] {
      AdvancesRefl(s);
    } else {
      var s2 := ScanSingles(s, SquareRegions());
      ScanSinglesAdvances(s, SquareRegions());
      if s2.queue != [] {
        assert Fallbacks(s) == s2;
      } else {
        var s3 := ScanSingles(s2, LineColumnRegions());
        ScanSinglesAdvances(s2, LineColumnRegions());
        AdvancesTrans(s, s2, s3);
        if s3.queue != [] {
          assert Fallbacks(s) == s3;
        } else {
          LockedSquaresAdvances(s3, AllSquares());
          assert Fallbacks(s) == LockedPass(s3);
          AdvancesTrans(s, s3, Fallbacks(s));
        }
      }
    }
  }

  /** One turn of Solve's loop: the basic step, then the fallbacks. */
  ghost function Iteration(s: State): (r: State)
    requires WellFormed(s.grid) && s.queue != []
    ensures WellFormed(r.grid) && NoNewEmpty(s.grid, r.grid)
  {
    Fallbacks(Apply(s))
  }

  /** 1 when the queue is empty or its oldest action names a decided box (one candidate), else 0. */
  function HeadDecided(s: State): nat
    requires IsGrid(s.grid)
  {
    if s.queue != [] && |At(s.grid, s.queue[0].box)| != 1 then 0 else 1
  }

  /** Each turn of Solve's loop decreases (weight, HeadDecided, queue length) lexicographically: the loop ends. */
  lemma IterationDecreases(s: State)
    requires WellFormed(s.grid) && s.queue != []
    ensures Weight(Iteration(s).grid) < Weight(s.grid) ||
      (Weight(Iteration(s).grid) == Weight(s.grid) &&
       (HeadDecided(Iteration(s)) < HeadDecided(s) ||
        (HeadDecided(Iteration(s)) == HeadDecided(s) && |Iteration(s).queue| < |s.queue|)))
  {
    var s1 := Apply(s);
    var r := Iteration(s);
    ApplyWeight(s);
    FallbacksAdvance(s1);
    if Weight(r.grid) == Weight(s.grid) {
      assert Weight(s1.grid) == Weight(s.grid) && HeadDecided(s) == 1 && s1.queue == s.queue[1..];
      if s1.queue != [] {
        assert r == s1;
      } else if r.queue != [] {
        assert r.queue[0] in Added(s1, r);
      }
    }
  }

  /** Solve: the loop's turns until the queue is empty. */
  ghost function Run(s: State): (r: State)
    requires WellFormed(s.grid)
    ensures WellFormed(r.grid) && NoNewEmpty(s.grid, r.grid)
    ensures r.queue == [] && (s.queue == [] ==> r == s)
    decreases Weight(s.grid), HeadDecided(s), |s.queue|
  {
    if s.queue == [] then s
    else
      IterationDecreases(s);
      Run(Iteration(s))
  }
}
