/** What growing and shrinking mean for the bytes that programs see. */
module PageView {
  import opened Sv39
  import opened PhysMem
  import opened PageSteps
  import opened PageRange
  import opened PageSpace
  import opened PageBytes

  /** The byte at va of s has the rights it had, and its value if it can be read. */
  ghost predicate SameByte(w: World, w': World, s: nat, va: nat) {
    && (Readable(w', s, va) <==> Readable(w, s, va)) && (Writable(w', s, va) <==> Writable(w, s, va))
    && (Readable(w, s, va) ==> UByte(w', s, va) == UByte(w, s, va))
  }

  /** Nothing has changed for any process, but for the pages [a, b) of r. */
  ghost predicate SameView(w: World, w': World, r: nat, a: nat, b: nat) {
    && (forall s :: s in w.trees ==> s in w'.trees)
    && forall s, va: nat :: s in w.trees && (s != r || va / 4096 < a || b <= va / 4096) ==> SameByte(w, w', s, va)
  }

  /** The pages [a, b) of r can be written and are zero. */
  ghost predicate BlankView(w: World, r: nat, a: nat, b: nat) {
    forall va: nat :: a <= va / 4096 < b ==> Writable(w, r, va) && UByte(w, r, va) == 0
  }

  /** No byte of the pages [a, b) of r can be read. */
  ghost predicate GoneView(w: World, r: nat, a: nat, b: nat) {
    forall va: nat :: a <= va / 4096 < b ==> !Readable(w, r, va)
  }

  /** An entry and a page that have stayed. */
  lemma ByteStays(lo: nat, hi: nat, w: World, w': World, s: nat, va: nat)
    requires Ok(lo, hi, w) && s in w.trees && s in w'.trees && EntryAt(w', s, va / 4096) == EntryAt(w, s, va / 4096)
    requires var p := Frame(w, s, va / 4096);
             OwnsPage(w, s, va / 4096) && p in w.mem ==> p in w'.mem && w'.mem[p] == w.mem[p]
    ensures SameByte(w, w', s, va)
  {
    hide EntryAt, V, U, W, Ppn, OwnsPage, Ok;
    if Readable(w, s, va) {
      ReadableOwned(lo, hi, w, s, va);
    }
  }

  lemma GrewView(lo: nat, hi: nat, w: World, w': World, r: nat, a: nat, b: nat)
    requires Ok(lo, hi, w) && Grew(w, w', r, a, b)
    ensures SameView(w, w', r, a, b)
  {
    hide Ok, EntryAt, SameByte, V, Ppn;
    forall s, va: nat | s in w.trees && (s != r || va / 4096 < a || b <= va / 4096) ensures SameByte(w, w', s, va) {
      ByteStays(lo, hi, w, w', s, va);
    }
  }

  lemma UndisturbedView(lo: nat, hi: nat, w: World, w': World, r: nat)
    requires Ok(lo, hi, w) && Undisturbed(w, w', r) && SameLookups(w, w')
    ensures SameView(w, w', r, 0, 0)
  {
    hide Ok, Lookup, SameByte, V, Ppn;
    forall s, va: nat | s in w.trees ensures SameByte(w, w', s, va) {
      ByteStays(lo, hi, w, w', s, va);
    }
  }

  lemma ClearedView(lo: nat, hi: nat, w: World, w': World, r: nat, v: nat, n: nat)
    requires Ok(lo, hi, w) && RangeCleared(w, w', r, v, n) && RangeFreed(w, w', r, v, n) && r in w.trees
    ensures SameView(w, w', r, v, v + n) && GoneView(w', r, v, v + n)
  {
    hide Ok, Lookup, SameByte, V, U, Ppn;
    ZeroFields();
    forall s, va: nat | s in w.trees && (s != r || va / 4096 < v || v + n <= va / 4096)
      ensures SameByte(w, w', s, va)
    {
      ByteStays(lo, hi, w, w', s, va);
    }
  }

  lemma ZeroedView(w: World, r: nat, a: nat, b: nat)
    requires Zeroed(w, r, a, b, 22) && b <= MAXPAGE
    ensures BlankView(w, r, a, b)
  {
    forall va: nat | a <= va / 4096 < b ensures Writable(w, r, va) && UByte(w, r, va) == 0 {
      var x := va / 4096;
      assert Holds(w, r, x, 22, Fill(0));
      EntryFields(Frame(w, r, x), 22);
    }
  }

  /** When no page of r is excepted, it does not matter where. */
  lemma NarrowView(w: World, w': World, r: nat, a: nat)
    requires SameView(w, w', r, 0, 0)
    ensures SameView(w, w', r, a, a) && GoneView(w', r, a, a)
  {
    hide SameByte;
  }

  lemma IdleView(w: World, r: nat, a: nat)
    ensures SameView(w, w, r, a, a) && GoneView(w, r, a, a)
  {
  }
}
