/**
 Who owns which block: t[i][k] is the block that slot k of inode i names (0 for none), bits is the
 free map.  A block is marked in use exactly when it is metadata, or is named by exactly one slot of
 exactly one inode, or is one of the `held` blocks that an operation has taken and not yet placed.
 */
module BlockOwnership {

  type SlotTable = seq<seq<nat>>

  predicate InTable(t: SlotTable, i: int, k: int) { 0 <= i < |t| && 0 <= k < |t[i]| }

  /** t[i][k], under a name of its own so that the invariant's quantifiers speak only when asked. */
  function Cell(t: SlotTable, i: int, k: int): nat
    requires InTable(t, i, k)
  {
    t[i][k]
  }

  ghost predicate Named(t: SlotTable, b: nat) {
    exists i, k :: InTable(t, i, k) && Cell(t, i, k) == b
  }

  ghost predicate Unique(t: SlotTable) {
    forall i, k, i', k' :: InTable(t, i, k) && InTable(t, i', k')
                           && Cell(t, i, k) != 0 && Cell(t, i, k) == Cell(t, i', k')
      ==> i == i' && k == k'
  }

  ghost predicate Owns(t: SlotTable, bits: seq<bool>, nmeta: nat, held: set<nat>) {
    && 0 < nmeta <= |bits|
    && Unique(t)
    && (forall i, k :: InTable(t, i, k) && Cell(t, i, k) != 0 ==> nmeta <= Cell(t, i, k) < |bits|)
    && (forall i, k :: InTable(t, i, k) && Cell(t, i, k) != 0 ==> bits[Cell(t, i, k)] && Cell(t, i, k) !in held)
    && (forall b :: b in held ==> nmeta <= b < |bits| && bits[b])
    && (forall b :: 0 <= b < nmeta ==> bits[b])
    && (forall b {:trigger Named(t, b)} :: nmeta <= b < |bits| && bits[b] && b !in held ==> Named(t, b))
  }

  /** A block named by a slot is a data block in use, and not held. */
  lemma CellRange(t: SlotTable, bits: seq<bool>, nmeta: nat, held: set<nat>, i: nat, k: nat)
    requires Owns(t, bits, nmeta, held) && i < |t| && k < |t[i]| && t[i][k] != 0
    ensures nmeta <= t[i][k] < |bits| && bits[t[i][k]] && t[i][k] !in held
  {
    assert Cell(t, i, k) == t[i][k];
  }

  /** No other slot names the same block. */
  lemma CellUnique(t: SlotTable, i: nat, k: nat, i': nat, k': nat)
    requires Unique(t) && i < |t| && k < |t[i]| && i' < |t| && k' < |t[i']| && t[i][k] != 0
    ensures t[i][k] == t[i'][k'] ==> i == i' && k == k'
  {
    assert Cell(t, i, k) == t[i][k] && Cell(t, i', k') == t[i'][k'];
  }

  /** With nothing held, the free map says exactly what the slots say. */
  lemma BitsExact(t: SlotTable, bits: seq<bool>, nmeta: nat, b: nat)
    requires Owns(t, bits, nmeta, {}) && b < |bits|
    ensures bits[b] <==> b < nmeta || Named(t, b)
  {
    if Named(t, b) {
      var i, k :| InTable(t, i, k) && Cell(t, i, k) == b;
    }
  }

  lemma OwnsTake(t: SlotTable, bits: seq<bool>, nmeta: nat, held: set<nat>, b: nat)
    requires Owns(t, bits, nmeta, held) && b < |bits| && !bits[b]
    ensures nmeta <= b && b !in held && Owns(t, bits[b := true], nmeta, held + {b})
    ensures forall i, k :: InTable(t, i, k) ==> Cell(t, i, k) != b
  {
  }

  function Place(t: SlotTable, i: nat, k: nat, b: nat): SlotTable
    requires i < |t| && k < |t[i]|
  {
    var row: seq<nat> := t[i][k := b];
    t[i := row]
  }

  lemma PlaceCell(t: SlotTable, i: nat, k: nat, b: nat, j: int, m: int)
    requires i < |t| && k < |t[i]| && InTable(t, j, m)
    ensures InTable(Place(t, i, k, b), j, m)
    ensures Cell(Place(t, i, k, b), j, m) == if j == i && m == k then b else Cell(t, j, m)
  {
  }

  lemma UniquePlace(t: SlotTable, i: nat, k: nat, b: nat)
    requires Unique(t) && i < |t| && k < |t[i]| && b != 0 && t[i][k] == 0
    requires forall j, m :: InTable(t, j, m) ==> Cell(t, j, m) != b
    ensures Unique(Place(t, i, k, b))
  {
    var t' := Place(t, i, k, b);
    forall j, m, j', m' | InTable(t', j, m) && InTable(t', j', m')
                          && Cell(t', j, m) != 0 && Cell(t', j, m) == Cell(t', j', m')
      ensures j == j' && m == m'
    {
      PlaceCell(t, i, k, b, j, m);
      PlaceCell(t, i, k, b, j', m');
    }
  }

  lemma OwnsPlace(t: SlotTable, bits: seq<bool>, nmeta: nat, held: set<nat>, i: nat, k: nat, b: nat)
    requires Owns(t, bits, nmeta, held) && i < |t| && k < |t[i]| && t[i][k] == 0 && b in held
    ensures Owns(Place(t, i, k, b), bits, nmeta, held - {b})
  {
    var t' := Place(t, i, k, b);
    UniquePlace(t, i, k, b);
    forall j, m | InTable(t', j, m) && Cell(t', j, m) != 0
      ensures nmeta <= Cell(t', j, m) < |bits| && bits[Cell(t', j, m)] && Cell(t', j, m) !in held - {b}
    {
      PlaceCell(t, i, k, b, j, m);
    }
    forall x | nmeta <= x < |bits| && bits[x] && x !in held - {b} ensures Named(t', x) {
      if x == b {
        PlaceCell(t, i, k, b, i, k);
      } else {
        assert Named(t, x);
        var j, m :| InTable(t, j, m) && Cell(t, j, m) == x;
        PlaceCell(t, i, k, b, j, m);
      }
    }
  }

  /** Emptying some slots of row i turns the blocks they named into held ones. */
  lemma OwnsDetach(t: SlotTable, bits: seq<bool>, nmeta: nat, held: set<nat>, i: nat, row: seq<nat>, freed: set<nat>)
    requires Owns(t, bits, nmeta, held) && i < |t| && |row| == |t[i]|
    requires forall k :: 0 <= k < |row| ==> row[k] == t[i][k] || row[k] == 0
    requires forall k :: 0 <= k < |row| && row[k] == 0 && t[i][k] != 0 ==> t[i][k] in freed
    requires forall b :: b in freed ==> exists k :: 0 <= k < |row| && row[k] == 0 && t[i][k] == b && b != 0
    ensures Owns(t[i := row], bits, nmeta, held + freed)
  {
    var t' := t[i := row];
    forall j, m | InTable(t', j, m) && Cell(t', j, m) != 0
      ensures InTable(t, j, m) && Cell(t, j, m) == Cell(t', j, m) && Cell(t', j, m) !in freed
    {
      assert Cell(t, j, m) == Cell(t', j, m);
      if Cell(t', j, m) in freed {
        var k :| 0 <= k < |row| && row[k] == 0 && t[i][k] == Cell(t', j, m);
        CellUnique(t, i, k, j, m);
      }
    }
    forall b | b in freed ensures nmeta <= b < |bits| && bits[b] {
      var k :| 0 <= k < |row| && row[k] == 0 && t[i][k] == b && b != 0;
      assert Cell(t, i, k) == b;
    }
    forall x | nmeta <= x < |bits| && bits[x] && x !in held + freed ensures Named(t', x) {
      assert Named(t, x);
      var j, m :| InTable(t, j, m) && Cell(t, j, m) == x;
      assert InTable(t', j, m) && Cell(t', j, m) == x;
    }
  }

  lemma OwnsFree(t: SlotTable, bits: seq<bool>, nmeta: nat, held: set<nat>, b: nat)
    requires Owns(t, bits, nmeta, held) && b in held
    ensures Owns(t, bits[b := false], nmeta, held - {b})
  {
  }

  /** If row i is emptied and every other row kept, exactly row i's blocks are released. */
  lemma EmptiedExact(t: SlotTable, bits: seq<bool>, t': SlotTable, bits': seq<bool>, nmeta: nat, i: nat, b: nat)
    requires Owns(t, bits, nmeta, {}) && Owns(t', bits', nmeta, {}) && |bits| == |bits'| && b < |bits|
    requires i < |t| == |t'| && (forall j :: 0 <= j < |t| && j != i ==> t'[j] == t[j])
    requires forall k :: 0 <= k < |t'[i]| ==> t'[i][k] == 0
    ensures bits'[b] <==> bits[b] && (b < nmeta || b !in t[i])
  {
    BitsExact(t, bits, nmeta, b);
    BitsExact(t', bits', nmeta, b);
    if b >= nmeta {
      if Named(t', b) {
        var j, k :| InTable(t', j, k) && Cell(t', j, k) == b;
        assert j != i && Cell(t, j, k) == b;
        if b in t[i] {
          var m :| 0 <= m < |t[i]| && t[i][m] == b;
          CellUnique(t, i, m, j, k);
        }
      }
      if Named(t, b) && b !in t[i] {
        var j, k :| InTable(t, j, k) && Cell(t, j, k) == b;
        assert InTable(t', j, k) && Cell(t', j, k) == b;
      }
    }
  }
}
