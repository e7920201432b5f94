/** A process's memory as bytes at virtual addresses. */
module PageBytes {
  import opened Sv39
  import opened PhysMem
  import opened PageSteps
  import opened PageSpace

  /** User code, or the kernel on its behalf, may read (write) the byte at va. */
  ghost predicate Readable(w: World, r: nat, va: nat) {
    r in w.trees && va / 4096 < MAXPAGE && V(EntryAt(w, r, va / 4096)) && U(EntryAt(w, r, va / 4096))
  }

  ghost predicate Writable(w: World, r: nat, va: nat) { Readable(w, r, va) && W(EntryAt(w, r, va / 4096)) }

  function Frame(w: World, r: nat, x: nat): nat
    requires r in w.trees
  {
    Ppn(EntryAt(w, r, x))
  }

  /** The byte at va, -1 if there is none. */
  function UByte(w: World, r: nat, va: nat): int {
    if r in w.trees && IsData(w.mem, Frame(w, r, va / 4096)) then w.mem[Frame(w, r, va / 4096)].bytes[va % 4096] else -1
  }

  /** What user code can reach is its own memory. */
  lemma ReadableOwned(lo: nat, hi: nat, w: World, r: nat, va: nat)
    requires Ok(lo, hi, w) && Readable(w, r, va)
    ensures OwnsPage(w, r, va / 4096) && IsData(w.mem, Frame(w, r, va / 4096)) && Frame(w, r, va / 4096) != 0
    ensures EntryAt(w, r, va / 4096) != 0 && 0 <= UByte(w, r, va) < 256
  {
    ZeroFields();
    EntryAtIs(w, r, va / 4096);
    assert UserAt(w.mem, w.trees, r, va / 4096);
    assert IsData(w.mem, Frame(w, r, va / 4096)) by {
      hide TreesOk, FreeOk, UserOk;
    }
  }

  /** Two pages in use have the same frame only if they are the same page. */
  lemma FramesDiffer(w: World, r: nat, x: nat, s: nat, y: nat)
    requires r in w.trees && s in w.trees && OwnsPage(w, r, x) && OwnsPage(w, s, y)
    ensures Frame(w, r, x) == Frame(w, s, y) <==> r == s && x == y
  {
  }

  /** From w to w' the bytes [dst, dst + k) of r became those of src; no other byte of any process changed. */
  ghost predicate Written(w: World, w': World, r: nat, dst: nat, src: seq<Byte>, k: nat) {
    && k <= |src| && w'.trees == w.trees && w'.use == w.use && SameLookups(w, w')
    && (forall s, va: nat :: s in w.trees && OwnsPage(w, s, va / 4096) ==>
          UByte(w', s, va) == if s == r && dst <= va < dst + k then src[va - dst] else UByte(w, s, va))
  }

  lemma WrittenNothing(w: World, r: nat, dst: nat, src: seq<Byte>)
    ensures Written(w, w, r, dst, src, 0)
  {
  }

  lemma SameEntries(w: World, w': World, r: nat, x: nat)
    requires w'.trees == w.trees && w'.use == w.use && SameLookups(w, w') && r in w.trees
    ensures EntryAt(w', r, x) == EntryAt(w, r, x) && (OwnsPage(w', r, x) <==> OwnsPage(w, r, x))
  {
    EntryAtIs(w, r, x);
    EntryAtIs(w', r, x);
    hide Lookup, EntryAt;
  }

  /** The bytes of one page with part of it replaced. */
  function Patch(bytes: seq<Byte>, o: nat, part: seq<Byte>): (s: seq<Byte>)
    requires o + |part| <= |bytes|
    ensures |s| == |bytes|
    ensures forall i :: 0 <= i < |s| ==> s[i] == if o <= i < o + |part| then part[i - o] else bytes[i]
  {
    bytes[..o] + part + bytes[o + |part|..]
  }

  /** Storing part of a page writes just those bytes of that process. */
  lemma PatchWrites(lo: nat, hi: nat, w: World, r: nat, dst: nat, part: seq<Byte>, p: nat, w': World)
    requires Ok(lo, hi, w) && Readable(w, r, dst) && p == Frame(w, r, dst / 4096) && dst % 4096 + |part| <= 4096
    requires IsData(w.mem, p) && w' == Store(w, p, Patch(w.mem[p].bytes, dst % 4096, part))
    ensures Ok(lo, hi, w') && Written(w, w', r, dst, part, |part|)
  {
    hide Ok, SameLookups, Lookup, Patch, EntryAt, V, U, Ppn;
    ReadableOwned(lo, hi, w, r, dst);
    var bytes := Patch(w.mem[p].bytes, dst % 4096, part);
    StoreOk(lo, hi, w, p, bytes);
    forall s, va: nat | s in w.trees && OwnsPage(w, s, va / 4096)
      ensures UByte(w', s, va) == if s == r && dst <= va < dst + |part| then part[va - dst] else UByte(w, s, va)
    {
      SameEntries(w, w', s, va / 4096);
      FramesDiffer(w, s, va / 4096, r, dst / 4096);
      PatchByte(w, w', r, dst, part, p, s, va);
    }
  }

  lemma PatchByte(w: World, w': World, r: nat, dst: nat, part: seq<Byte>, p: nat, s: nat, va: nat)
    requires r in w.trees && s in w.trees && p == Frame(w, r, dst / 4096) && IsData(w.mem, p)
    requires dst % 4096 + |part| <= 4096
    requires w' == Store(w, p, Patch(w.mem[p].bytes, dst % 4096, part))
    requires EntryAt(w', s, va / 4096) == EntryAt(w, s, va / 4096)
    requires Frame(w, s, va / 4096) == p <==> r == s && va / 4096 == dst / 4096
    ensures UByte(w', s, va) == if s == r && dst <= va < dst + |part| then part[va - dst] else UByte(w, s, va)
  {
    hide EntryAt, Ppn;
    if s == r && va / 4096 == dst / 4096 {
      assert va - dst == va % 4096 - dst % 4096;
    }
  }

  lemma WrittenStep(w: World, w1: World, w2: World, r: nat, dst: nat, src: seq<Byte>, k: nat, n: nat)
    requires k + n <= |src| && Written(w, w1, r, dst, src, k) && Written(w1, w2, r, dst + k, src[k..k + n], n)
    ensures Written(w, w2, r, dst, src, k + n)
  {
    SameLookupsTrans(w, w1, w2);
    hide SameLookups, UByte;
    forall s, va: nat | s in w.trees && OwnsPage(w, s, va / 4096)
      ensures UByte(w2, s, va) == if s == r && dst <= va < dst + (k + n) then src[va - dst] else UByte(w, s, va)
    {
      SameEntriesHere(w, w1, s, va);
      assert UByte(w1, s, va) == if s == r && dst <= va < dst + k then src[va - dst] else UByte(w, s, va);
      assert OwnsPage(w1, s, va / 4096);
    }
  }

  lemma SameEntriesHere(w: World, w1: World, s: nat, va: nat)
    requires w1.trees == w.trees && w1.use == w.use && SameLookups(w, w1) && s in w.trees && OwnsPage(w, s, va / 4096)
    ensures OwnsPage(w1, s, va / 4096)
  {
    SameEntries(w, w1, s, va / 4096);
  }

  /** Access rights are the same throughout. */
  lemma SameRights(w: World, w': World, r: nat, va: nat)
    requires w'.trees == w.trees && w'.use == w.use && SameLookups(w, w')
    ensures (Readable(w', r, va) <==> Readable(w, r, va)) && (Writable(w', r, va) <==> Writable(w, r, va))
  {
    if r in w.trees {
      SameEntries(w, w', r, va / 4096);
    }
  }

  /** Rights are per page. */
  lemma RightsOfPage(w: World, r: nat, va: nat, vb: nat)
    requires va / 4096 == vb / 4096
    ensures (Readable(w, r, va) <==> Readable(w, r, vb)) && (Writable(w, r, va) <==> Writable(w, r, vb))
  {
  }

  ghost predicate AllReadable(w: World, r: nat, va: nat, n: nat) {
    forall a: nat :: va <= a < va + n ==> Readable(w, r, a)
  }

  ghost predicate AllWritable(w: World, r: nat, va: nat, n: nat) {
    forall a: nat :: va <= a < va + n ==> Writable(w, r, a)
  }

  /** The bytes from va on are these. */
  ghost predicate ReadsAs(w: World, r: nat, va: nat, data: seq<Byte>) {
    forall a: nat :: va <= a < va + |data| ==> UByte(w, r, a) == data[a - va]
  }

  /** Every byte of a page has its rights. */
  lemma RightsOfPart(w: World, r: nat, va: nat, n: nat)
    requires va % 4096 + n <= 4096
    ensures Readable(w, r, va) ==> AllReadable(w, r, va, n)
    ensures Writable(w, r, va) ==> AllWritable(w, r, va, n)
  {
    forall a: nat | va <= a < va + n
      ensures Readable(w, r, a) == Readable(w, r, va) && Writable(w, r, a) == Writable(w, r, va) {
      assert a / 4096 == va / 4096;
      RightsOfPage(w, r, a, va);
    }
  }

  /** The bytes copyin takes from one page. */
  lemma PartBytes(lo: nat, hi: nat, w: World, r: nat, va: nat, n: nat)
    requires Ok(lo, hi, w) && Readable(w, r, va) && va % 4096 + n <= 4096
    ensures IsData(w.mem, Frame(w, r, va / 4096))
    ensures ReadsAs(w, r, va, w.mem[Frame(w, r, va / 4096)].bytes[va % 4096..va % 4096 + n])
  {
    ReadableOwned(lo, hi, w, r, va);
    forall a: nat | va <= a < va + n
      ensures UByte(w, r, a) == w.mem[Frame(w, r, va / 4096)].bytes[va % 4096..va % 4096 + n][a - va]
    {
      assert a / 4096 == va / 4096 && a % 4096 == va % 4096 + (a - va);
    }
  }

  lemma ReadsOn(w: World, r: nat, va: nat, data: seq<Byte>, part: seq<Byte>)
    requires ReadsAs(w, r, va, data) && ReadsAs(w, r, va + |data|, part)
    ensures ReadsAs(w, r, va, data + part)
  {
    hide UByte;
  }

  lemma WrittenTrees(w: World, w': World, r: nat, dst: nat, src: seq<Byte>)
    requires Written(w, w', r, dst, src, |src|)
    ensures w'.trees == w.trees
  {
  }

  lemma WrittenRights(w: World, w': World, r: nat, dst: nat, src: seq<Byte>, k: nat, va: nat)
    requires Written(w, w', r, dst, src, k)
    ensures w'.trees == w.trees && (Writable(w', r, va) <==> Writable(w, r, va))
  {
    SameRights(w, w', r, va);
  }

  /** Bytes just written can be read, and read as written. */
  lemma WrittenReads(lo: nat, hi: nat, w: World, w': World, r: nat, dst: nat, src: seq<Byte>)
    requires Ok(lo, hi, w) && Written(w, w', r, dst, src, |src|) && AllWritable(w, r, dst, |src|)
    ensures w'.trees == w.trees && AllReadable(w', r, dst, |src|) && ReadsAs(w', r, dst, src)
  {
    forall a: nat | dst <= a < dst + |src| ensures Readable(w', r, a) && UByte(w', r, a) == src[a - dst] {
      assert Writable(w, r, a);
      ReadableOwned(lo, hi, w, r, a);
      SameRights(w, w', r, a);
    }
  }

  lemma SameBytes(w: World, r: nat, va: nat, data: seq<Byte>, other: seq<Byte>)
    requires ReadsAs(w, r, va, data) && ReadsAs(w, r, va, other) && |data| == |other|
    ensures data == other
  {
    forall i | 0 <= i < |data| ensures data[i] == other[i] {
      assert UByte(w, r, va + i) == data[va + i - va] == other[va + i - va];
    }
  }
}
