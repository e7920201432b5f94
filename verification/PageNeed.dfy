/** How many free pages it takes to extend a page table: the condition under which vm.c runs out. */
module PageNeed {
  import opened Sv39
  import opened PhysMem

  /** The table pages on the way to pages [a, b), the root apart. */
  function Nodes(a: nat, b: nat): set<Node>
    decreases b
  {
    if b <= a then {} else Nodes(a, b - 1) + {Path(1, b - 1), Path(0, b - 1)}
  }

  /** Those of them that a table does not have. */
  function Tables(have: set<Node>, a: nat, b: nat): nat { |Nodes(a, b) - have| }

  /** Enough pages are free for the missing tables and for extra pages besides. */
  ghost predicate Enough(w: World, r: nat, a: nat, b: nat, extra: int) {
    r in w.trees && |w.free| >= Tables(w.trees[r].Keys, a, b) + extra
  }

  /** From w to w' the tables for pages [a, b) were completed, and that and extra pages were all that was taken. */
  ghost predicate Spent(w: World, w': World, r: nat, a: nat, b: nat, extra: int) {
    && r in w.trees && r in w'.trees && w'.trees[r].Keys == w.trees[r].Keys + Nodes(a, b)
    && |w'.free| == |w.free| - Tables(w.trees[r].Keys, a, b) - extra
  }

  lemma SpentNothing(w: World, r: nat, a: nat)
    requires r in w.trees
    ensures Spent(w, w, r, a, a, 0)
  {
    assert w.trees[r].Keys + {} == w.trees[r].Keys;
    assert {} - w.trees[r].Keys == {};
  }

  lemma NodesStep(a: nat, b: nat)
    requires a <= b
    ensures Nodes(a, b + 1) == Nodes(a, b) + Nodes(b, b + 1)
  {
    assert Nodes(b, b + 1) == Nodes(b, b) + {Path(1, b), Path(0, b)};
  }

  lemma TablesStep(have: set<Node>, a: nat, b: nat)
    requires a <= b
    ensures Tables(have, a, b + 1) == Tables(have, a, b) + Tables(have + Nodes(a, b), b, b + 1)
  {
    assert Nodes(b, b + 1) == Nodes(b, b) + {Path(1, b), Path(0, b)};
    var x, y := Nodes(a, b) - have, Nodes(b, b + 1) - (have + Nodes(a, b));
    assert Nodes(a, b + 1) - have == x + y && x !! y;
  }

  lemma {:induction false} TablesMonotone(have: set<Node>, a: nat, b: nat, c: nat)
    requires a <= b <= c
    ensures Tables(have, a, b) <= Tables(have, a, c)
    decreases c
  {
    hide Tables, Nodes;
    if b < c {
      TablesMonotone(have, a, b, c - 1);
      TablesStep(have, a, c - 1);
    }
  }

  lemma SpentStep(w: World, w1: World, w2: World, r: nat, a: nat, b: nat, d: int, e: int)
    requires a <= b && Spent(w, w1, r, a, b, d) && Spent(w1, w2, r, b, b + 1, e)
    ensures Spent(w, w2, r, a, b + 1, d + e)
  {
    hide Tables, Nodes;
    TablesStep(w.trees[r].Keys, a, b);
    NodesStep(a, b);
    assert w2.trees[r].Keys == w.trees[r].Keys + Nodes(a, b + 1);
  }

  lemma SpentSame(w: World, w1: World, w2: World, r: nat, a: nat, b: nat, d: int)
    requires Spent(w, w1, r, a, b, d) && w2.trees == w1.trees && w2.free == w1.free
    ensures Spent(w, w2, r, a, b, d)
  {
  }

  lemma SpentEnough(w: World, w': World, r: nat, a: nat, b: nat, d: int)
    requires Spent(w, w', r, a, b, d)
    ensures Enough(w, r, a, b, d)
  {
  }

  /** If the next page cannot be had, no longer range can. */
  lemma ShortStep(w: World, w1: World, r: nat, a: nat, b: nat, d: int, e: int, c: nat, f: int)
    requires a <= b < c && Spent(w, w1, r, a, b, d) && !Enough(w1, r, b, b + 1, e) && d + e <= f
    ensures !Enough(w, r, a, c, f)
  {
    TablesStep(w.trees[r].Keys, a, b);
    TablesMonotone(w.trees[r].Keys, a, b + 1, c);
  }

  /** Setting a page aside first comes to the same. */
  lemma SetAside(w: World, w1: World, w2: World, r: nat, a: nat)
    requires r in w.trees && w1.trees == w.trees && |w1.free| == |w.free| - 1
    ensures Enough(w, r, a, a + 1, 1) <==> Enough(w1, r, a, a + 1, 0)
    ensures Spent(w1, w2, r, a, a + 1, 0) ==> Spent(w, w2, r, a, a + 1, 1)
  {
  }

  // ----- one walk -----

  function Reached(have: set<Node>, level: nat, v: nat): set<Node> {
    have + (if level <= 1 then {Path(1, v)} else {}) + if level == 0 then {Path(0, v)} else {}
  }

  /** The tables made on the way down to a level. */
  function Owed(have: set<Node>, level: nat, v: nat): nat {
    (if level <= 1 && Path(1, v) !in have then 1 else 0) + if level == 0 && Path(0, v) !in have then 1 else 0
  }

  ghost predicate Descended(w: World, w': World, r: nat, level: nat, v: nat) {
    && r in w.trees && r in w'.trees && w'.trees[r].Keys == Reached(w.trees[r].Keys, level, v)
    && |w'.free| == |w.free| - Owed(w.trees[r].Keys, level, v)
  }

  lemma WalkStart(w: World, r: nat, v: nat)
    requires r in w.trees
    ensures Descended(w, w, r, 2, v)
  {
  }

  lemma WalkStep(w: World, w1: World, w2: World, r: nat, level: nat, v: nat)
    requires 1 <= level <= 2 && Descended(w, w1, r, level, v) && r in w2.trees
    requires var n := Path(level - 1, v);
             if n in w1.trees[r] then w2 == w1
             else w2.trees[r].Keys == w1.trees[r].Keys + {n} && |w2.free| == |w1.free| - 1
    ensures Descended(w, w2, r, level - 1, v)
  {
    var have := w.trees[r].Keys;
    assert Reached(have, level - 1, v) == Reached(have, level, v) + {Path(level - 1, v)};
    assert Path(level - 1, v) in have <==> Path(level - 1, v) in w1.trees[r].Keys;
  }

  lemma TwoMissing(have: set<Node>, m: Node, l: Node)
    requires m != l
    ensures |{m, l} - have| == (if m in have then 0 else 1) + if l in have then 0 else 1
  {
    var x, y := if m in have then {} else {m}, if l in have then {} else {l};
    assert {m, l} - have == x + y && x !! y;
  }

  lemma OneTable(have: set<Node>, v: nat)
    ensures Tables(have, v, v + 1) == Owed(have, 0, v) && have + Nodes(v, v + 1) == Reached(have, 0, v)
  {
    var m, l := Path(1, v), Path(0, v);
    assert Nodes(v, v + 1) == {m, l} by {
      assert Nodes(v, v + 1) == Nodes(v, v) + {m, l};
    }
    TwoMissing(have, m, l);
  }

  lemma WalkEnd(w: World, w': World, r: nat, v: nat)
    requires Descended(w, w', r, 0, v)
    ensures Spent(w, w', r, v, v + 1, 0) && Enough(w, r, v, v + 1, 0)
  {
    OneTable(w.trees[r].Keys, v);
  }

  lemma WalkStuck(w: World, w': World, r: nat, level: nat, v: nat)
    requires 1 <= level <= 2 && Descended(w, w', r, level, v) && Path(level - 1, v) !in w'.trees[r] && |w'.free| == 0
    ensures !Enough(w, r, v, v + 1, 0)
  {
    OneTable(w.trees[r].Keys, v);
    assert Path(level - 1, v) !in w.trees[r].Keys;
  }

  // ----- a new process -----

  /** Below a fresh root, a page takes two tables. */
  lemma FreshRoot(w: World, r: nat, x: nat)
    requires r in w.trees && w.trees[r].Keys == {Root}
    ensures Enough(w, r, x, x + 1, 0) <==> |w.free| >= 2
  {
    OneTable({Root}, x);
  }

  /** Its neighbour in the same tables then takes none. */
  lemma SharedTables(w: World, w1: World, r: nat, x: nat, y: nat)
    requires Spent(w, w1, r, x, x + 1, 0) && x / 512 == y / 512
    ensures Enough(w1, r, y, y + 1, 0)
  {
    OneTable(w.trees[r].Keys, x);
    OneTable(w1.trees[r].Keys, y);
  }

  /** A first page of memory takes itself and two tables. */
  lemma FirstPage(w: World, r: nat)
    requires r in w.trees && w.trees[r].Keys == {Root}
    ensures Enough(w, r, 0, 1, 1) <==> |w.free| >= 3
  {
    OneTable({Root}, 0);
  }
}
