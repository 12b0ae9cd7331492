/** Allocation and deep copy of aggregate values, by recursion on their type. */
module DeepCopy {

  /** A record is a tuple, a class with its instance variables, or a lambda object with
      its captures; the three are laid out and copied alike. */
  datatype Type =
    | Builtin
    | Pointer(pointee: Type)
    | Record(fields: seq<Type>)
    | Array(elem: Type, size: nat)

  predicate IsAggregate(t: Type) { t.Record? || t.Array? }

  /** What a cell of an aggregate type holds, word by word. */
  function PartCount(t: Type): nat
    requires IsAggregate(t)
  {
    if t.Record? then |t.fields| else t.size
  }

  function Part(t: Type, i: nat): (p: Type)
    requires IsAggregate(t) && i < PartCount(t)
    ensures p < t
  {
    if t.Record? then t.fields[i] else t.elem
  }

  datatype Word = Undefined | Bits(n: int) | Addr(a: nat)

  /** Words of a cell; an aggregate part is a pointer to a cell of its own. */
  datatype Heap = Heap(cells: map<nat, seq<Word>>, next: nat)

  ghost predicate Valid(h: Heap) { forall a <- h.cells :: a < h.next }

  predicate Holds(h: Heap, a: nat, i: nat) { a in h.cells && i < |h.cells[a]| }

  function Store(h: Heap, a: nat, i: nat, w: Word): Heap
    requires Holds(h, a, i)
  {
    h.(cells := h.cells[a := h.cells[a][i := w]])
  }

  // ---------- allocation ----------

  function Blank(n: nat): seq<Word> { seq(n, _ => Undefined) }

  /** A cell at `h.next`, and behind it the cells of its aggregate parts. */
  function Alloc(t: Type, h: Heap): (r: Heap)
    requires IsAggregate(t) && Valid(h)
    ensures Valid(r) && h.next < r.next
    ensures h.next in r.cells && |r.cells[h.next]| == PartCount(t)
    ensures forall a <- h.cells :: a in r.cells && r.cells[a] == h.cells[a]
    decreases t, PartCount(t) + 1
  {
    var h1 := Heap(h.cells[h.next := Blank(PartCount(t))], h.next + 1);
    AllocParts(t, h.next, 0, h1)
  }

  function AllocParts(t: Type, a: nat, i: nat, h: Heap): (r: Heap)
    requires IsAggregate(t) && Valid(h) && i <= PartCount(t)
    requires a in h.cells && |h.cells[a]| == PartCount(t)
    ensures Valid(r) && h.next <= r.next
    ensures a in r.cells && |r.cells[a]| == PartCount(t) && r.cells[a][..i] == h.cells[a][..i]
    ensures forall x <- h.cells :: x in r.cells && (x != a ==> r.cells[x] == h.cells[x])
    decreases t, PartCount(t) - i
  {
    if i == PartCount(t) then h
    else if !IsAggregate(Part(t, i)) then AllocParts(t, a, i + 1, h)
    else AllocParts(t, a, i + 1, Store(Alloc(Part(t, i), h), a, i, Addr(h.next)))
  }

  /** The number of cells a value of the type owns. */
  function Size(t: Type): (n: nat)
    requires IsAggregate(t)
    ensures n > 0
    decreases t, PartCount(t) + 1
  {
    1 + SizeFrom(t, 0)
  }

  function SizeFrom(t: Type, i: nat): nat
    requires IsAggregate(t) && i <= PartCount(t)
    decreases t, PartCount(t) - i
  {
    if i == PartCount(t) then 0
    else (if IsAggregate(Part(t, i)) then Size(Part(t, i)) else 0) + SizeFrom(t, i + 1)
  }

  /** A value that owns exactly the cells `a` up to `a + Size(t)`: each aggregate part has
      a stretch of them to itself.  When `blank`, nothing else is filled in yet. */
  predicate Laid(h: Heap, a: nat, t: Type, blank: bool)
    requires IsAggregate(t)
    decreases t, PartCount(t) + 1
  {
    a in h.cells && |h.cells[a]| == PartCount(t) && LaidFrom(h, a, t, 0, a + 1, blank)
  }

  predicate LaidFrom(h: Heap, a: nat, t: Type, i: nat, b: nat, blank: bool)
    requires IsAggregate(t) && i <= PartCount(t) && a in h.cells && |h.cells[a]| == PartCount(t)
    decreases t, PartCount(t) - i
  {
    i == PartCount(t) ||
    if IsAggregate(Part(t, i)) then
      && h.cells[a][i] == Addr(b) && Laid(h, b, Part(t, i), blank)
      && LaidFrom(h, a, t, i + 1, b + Size(Part(t, i)), blank)
    else (blank ==> h.cells[a][i] == Undefined) && LaidFrom(h, a, t, i + 1, b, blank)
  }

  /** The cells `lo` up to `hi` are the same in both heaps. */
  ghost predicate SameIn(h: Heap, r: Heap, lo: nat, hi: nat) {
    forall x <- h.cells :: lo <= x < hi ==> x in r.cells && r.cells[x] == h.cells[x]
  }

  lemma {:induction false} LaidFrame(h: Heap, r: Heap, a: nat, t: Type, blank: bool)
    requires IsAggregate(t) && Laid(h, a, t, blank) && SameIn(h, r, a, a + Size(t))
    ensures Laid(r, a, t, blank) && TreeOf(r, a, t) == TreeOf(h, a, t)
    decreases t, PartCount(t) + 1
  {
    LaidFromFrame(h, r, a, t, 0, a + 1, blank);
  }

  lemma {:induction false} LaidFromFrame(h: Heap, r: Heap, a: nat, t: Type, i: nat, b: nat, blank: bool)
    requires IsAggregate(t) && i <= PartCount(t)
    requires a in h.cells && |h.cells[a]| == PartCount(t) && LaidFrom(h, a, t, i, b, blank)
    requires a in r.cells && |r.cells[a]| == PartCount(t) && r.cells[a][i..] == h.cells[a][i..]
    requires SameIn(h, r, b, b + SizeFrom(t, i))
    ensures LaidFrom(r, a, t, i, b, blank) && TreesFrom(r, a, t, i) == TreesFrom(h, a, t, i)
    decreases t, PartCount(t) - i
  {
    if i < PartCount(t) {
      assert r.cells[a][i] == r.cells[a][i..][0] == h.cells[a][i..][0] == h.cells[a][i];
      assert r.cells[a][i + 1..] == r.cells[a][i..][1..] == h.cells[a][i..][1..] == h.cells[a][i + 1..];
      if IsAggregate(Part(t, i)) {
        LaidFrame(h, r, b, Part(t, i), blank);
        LaidFromFrame(h, r, a, t, i + 1, b + Size(Part(t, i)), blank);
      } else {
        LaidFromFrame(h, r, a, t, i + 1, b, blank);
      }
    }
  }

  lemma {:induction false} AllocLays(t: Type, h: Heap)
    requires IsAggregate(t) && Valid(h)
    ensures var r := Alloc(t, h); Laid(r, h.next, t, true) && r.next == h.next + Size(t)
    decreases t, PartCount(t) + 1
  {
    var h1 := Heap(h.cells[h.next := Blank(PartCount(t))], h.next + 1);
    AllocPartsLays(t, h.next, 0, h1);
  }

  lemma {:induction false} AllocPartsLays(t: Type, a: nat, i: nat, h: Heap)
    requires IsAggregate(t) && Valid(h) && i <= PartCount(t)
    requires a in h.cells && |h.cells[a]| == PartCount(t)
    requires forall j :: i <= j < PartCount(t) ==> h.cells[a][j] == Undefined
    ensures var r := AllocParts(t, a, i, h);
            LaidFrom(r, a, t, i, h.next, true) && r.next == h.next + SizeFrom(t, i)
    decreases t, PartCount(t) - i
  {
    if i < PartCount(t) {
      var r := AllocParts(t, a, i, h);
      if IsAggregate(Part(t, i)) {
        var h1 := Alloc(Part(t, i), h);
        AllocLays(Part(t, i), h);
        AllocPartsLays(t, a, i + 1, Store(h1, a, i, Addr(h.next)));
        RestKeepsPart(t, a, i, h1, h.next, r);
      } else {
        AllocPartsLays(t, a, i + 1, h);
        assert r.cells[a][i] == r.cells[a][..i + 1][i] == h.cells[a][..i + 1][i];
      }
    }
  }

  /** The part that was allocated last stays as it is while the rest is allocated. */
  lemma RestKeepsPart(t: Type, a: nat, i: nat, h1: Heap, b: nat, r: Heap)
    requires IsAggregate(t) && Valid(h1) && i < PartCount(t) && IsAggregate(Part(t, i))
    requires a in h1.cells && |h1.cells[a]| == PartCount(t) && a < b
    requires Laid(h1, b, Part(t, i), true) && r == AllocParts(t, a, i + 1, Store(h1, a, i, Addr(b)))
    ensures Laid(r, b, Part(t, i), true) && r.cells[a][i] == Addr(b)
  {
    hide AllocParts, Alloc, Laid;
    var h2 := Store(h1, a, i, Addr(b));
    assert r.cells[a][i] == r.cells[a][..i + 1][i] == h2.cells[a][..i + 1][i];
    LaidFrame(h1, r, b, Part(t, i), true);
  }

  // ---------- what a value is ----------

  /** A value with its owned cells unfolded; other words, pointers among them, are leaves. */
  datatype Tree = Leaf(w: Word) | Node(parts: seq<Tree>)

  function TreeOf(h: Heap, a: nat, t: Type): Tree
    requires IsAggregate(t)
    decreases t, PartCount(t) + 1
  {
    if a in h.cells && |h.cells[a]| == PartCount(t) then Node(TreesFrom(h, a, t, 0)) else Leaf(Undefined)
  }

  function TreesFrom(h: Heap, a: nat, t: Type, i: nat): seq<Tree>
    requires IsAggregate(t) && i <= PartCount(t) && a in h.cells && |h.cells[a]| == PartCount(t)
    decreases t, PartCount(t) - i
  {
    if i == PartCount(t) then []
    else
      var w := h.cells[a][i];
      [if IsAggregate(Part(t, i)) && w.Addr? then TreeOf(h, w.a, Part(t, i)) else Leaf(w)]
      + TreesFrom(h, a, t, i + 1)
  }

  /** A well-formed value all of whose owned cells lie below `limit`; parts may be shared. */
  predicate Typed(h: Heap, a: nat, t: Type, limit: nat)
    requires IsAggregate(t)
    decreases t, PartCount(t) + 1
  {
    a in h.cells && a < limit && |h.cells[a]| == PartCount(t) && TypedFrom(h, a, t, 0, limit)
  }

  predicate TypedFrom(h: Heap, a: nat, t: Type, i: nat, limit: nat)
    requires IsAggregate(t) && i <= PartCount(t) && a in h.cells && |h.cells[a]| == PartCount(t)
    decreases t, PartCount(t) - i
  {
    i < PartCount(t) ==>
      && (IsAggregate(Part(t, i)) ==> h.cells[a][i].Addr? && Typed(h, h.cells[a][i].a, Part(t, i), limit))
      && TypedFrom(h, a, t, i + 1, limit)
  }

  lemma {:induction false} TypedFrame(h: Heap, r: Heap, a: nat, t: Type, limit: nat)
    requires IsAggregate(t) && Typed(h, a, t, limit) && SameIn(h, r, 0, limit)
    ensures Typed(r, a, t, limit) && TreeOf(r, a, t) == TreeOf(h, a, t)
    decreases t, PartCount(t) + 1
  {
    TypedFromFrame(h, r, a, t, 0, limit);
  }

  lemma {:induction false} TypedFromFrame(h: Heap, r: Heap, a: nat, t: Type, i: nat, limit: nat)
    requires IsAggregate(t) && i <= PartCount(t) && a in h.cells && |h.cells[a]| == PartCount(t) && a < limit
    requires TypedFrom(h, a, t, i, limit) && SameIn(h, r, 0, limit)
    ensures TypedFrom(r, a, t, i, limit) && TreesFrom(r, a, t, i) == TreesFrom(h, a, t, i)
    decreases t, PartCount(t) - i
  {
    if i < PartCount(t) {
      if IsAggregate(Part(t, i)) { TypedFrame(h, r, h.cells[a][i].a, Part(t, i), limit); }
      TypedFromFrame(h, r, a, t, i + 1, limit);
    }
  }

  // ---------- copying ----------

  datatype Outcome = Done(h: Heap) | Fault

  /** Copy the value at `from` into the allocated value at `to`. */
  function Copy(h: Heap, from: nat, to: nat, t: Type): Outcome
    requires IsAggregate(t)
    decreases t, PartCount(t) + 1
  {
    if t.Array? && t.elem.Builtin? then
      if from !in h.cells || to !in h.cells || |h.cells[from]| < t.size then Fault
      else Done(h.(cells := h.cells[to := h.cells[from][..t.size]]))
    else CopyFrom(h, from, to, t, 0)
  }

  /** The parts from number `i` on.  The elements of an array that are no aggregates are
      taken for aggregates: both are loaded, and the word behind the one is stored where
      the other points. */
  function CopyFrom(h: Heap, from: nat, to: nat, t: Type, i: nat): Outcome
    requires IsAggregate(t) && i <= PartCount(t)
    decreases t, PartCount(t) - i
  {
    if i == PartCount(t) then Done(h)
    else if !Holds(h, from, i) || !Holds(h, to, i) then Fault
    else
      var part, src, dst := Part(t, i), h.cells[from][i], h.cells[to][i];
      if t.Record? && !IsAggregate(part) then CopyFrom(Store(h, to, i, src), from, to, t, i + 1)
      else if !src.Addr? || !dst.Addr? then Fault
      else if IsAggregate(part) then
        match Copy(h, src.a, dst.a, part)
        case Done(h1) => CopyFrom(h1, from, to, t, i + 1)
        case Fault => Fault
      else if !Holds(h, src.a, 0) || !Holds(h, dst.a, 0) then Fault
      else CopyFrom(Store(h, dst.a, 0, h.cells[src.a][0]), from, to, t, i + 1)
  }

  /** No array of pointers with elements in it, at any depth. */
  predicate Copyable(t: Type)
    requires IsAggregate(t)
    decreases t, PartCount(t) + 1
  {
    CopyableFrom(t, 0)
  }

  predicate CopyableFrom(t: Type, i: nat)
    requires IsAggregate(t) && i <= PartCount(t)
    decreases t, PartCount(t) - i
  {
    i < PartCount(t) ==>
      && (if IsAggregate(Part(t, i)) then Copyable(Part(t, i)) else t.Record? || Part(t, i).Builtin?)
      && CopyableFrom(t, i + 1)
  }

  /** `r` differs from `h` in the cell `to` and in the cells `lo` up to `hi` at most. */
  ghost predicate WritesOnly(h: Heap, r: Heap, to: nat, lo: nat, hi: nat) {
    && r.next == h.next && r.cells.Keys == h.cells.Keys
    && forall x <- h.cells :: x != to && !(lo <= x < hi) ==> r.cells[x] == h.cells[x]
  }

  /** Copying into freshly allocated cells succeeds exactly for copyable types, and then the
      copy is structurally equal, owns its cells, and nothing else has changed. */
  lemma {:induction false} CopyWorks(h: Heap, from: nat, to: nat, t: Type, limit: nat)
    requires IsAggregate(t) && Typed(h, from, t, limit) && Laid(h, to, t, true) && limit <= to
    ensures var r := Copy(h, from, to, t);
            && (r.Done? <==> Copyable(t))
            && (r.Done? ==>
                  && Laid(r.h, to, t, false) && TreeOf(r.h, to, t) == TreeOf(h, from, t)
                  && WritesOnly(h, r.h, to, to, to + Size(t)))
    decreases t, PartCount(t) + 1
  {
    if t.Array? && t.elem.Builtin? {
      var r := h.(cells := h.cells[to := h.cells[from][..t.size]]);
      assert r.cells[to] == h.cells[from];
      WordsCopied(h, r, from, to, t, 0, to + 1);
    } else {
      CopyFromWorks(h, from, to, t, 0, to + 1, limit);
    }
  }

  lemma {:induction false} WordsCopied(h: Heap, r: Heap, from: nat, to: nat, t: Type, i: nat, b: nat)
    requires t.Array? && t.elem.Builtin? && i <= t.size
    requires from in h.cells && |h.cells[from]| == t.size && to in r.cells && r.cells[to] == h.cells[from]
    ensures CopyableFrom(t, i) && LaidFrom(r, to, t, i, b, false) && TreesFrom(r, to, t, i) == TreesFrom(h, from, t, i)
    decreases t.size - i
  {
    if i < t.size { WordsCopied(h, r, from, to, t, i + 1, b); }
  }

  lemma {:induction false} CopyFromWorks(h: Heap, from: nat, to: nat, t: Type, i: nat, b: nat, limit: nat)
    requires IsAggregate(t) && !(t.Array? && t.elem.Builtin?) && i <= PartCount(t)
    requires from in h.cells && from < limit && |h.cells[from]| == PartCount(t) && TypedFrom(h, from, t, i, limit)
    requires to in h.cells && |h.cells[to]| == PartCount(t) && LaidFrom(h, to, t, i, b, true)
    requires limit <= to < b
    ensures var r := CopyFrom(h, from, to, t, i);
            && (r.Done? <==> CopyableFrom(t, i))
            && (r.Done? ==>
                  && WritesOnly(h, r.h, to, b, b + SizeFrom(t, i))
                  && |r.h.cells[to]| == PartCount(t) && r.h.cells[to][..i] == h.cells[to][..i]
                  && LaidFrom(r.h, to, t, i, b, false) && TreesFrom(r.h, to, t, i) == TreesFrom(h, from, t, i))
    decreases t, PartCount(t) - i
  {
    if i < PartCount(t) {
      var part, src, dst := Part(t, i), h.cells[from][i], h.cells[to][i];
      if IsAggregate(part) {
        CopyPartWorks(h, from, to, t, i, b, limit);
      } else if t.Record? {
        var h1 := Store(h, to, i, src);
        assert h1.cells[to][i + 1..] == h.cells[to][i + 1..];
        LaidFromFrame(h, h1, to, t, i + 1, b, true);
        TypedFromFrame(h, h1, from, t, i + 1, limit);
        CopyFromWorks(h1, from, to, t, i + 1, b, limit);
        var r := CopyFrom(h1, from, to, t, i + 1);
        if r.Done? {
          assert r.h.cells[to][i] == r.h.cells[to][..i + 1][i] == h1.cells[to][..i + 1][i] == src;
          assert r.h.cells[to][..i] == r.h.cells[to][..i + 1][..i] == h1.cells[to][..i + 1][..i] == h.cells[to][..i];
        }
      }
    }
  }

  /** The step of `CopyFromWorks` for an aggregate part: copied into its own stretch of
      cells, then left alone by the rest. */
  lemma {:induction false} CopyPartWorks(h: Heap, from: nat, to: nat, t: Type, i: nat, b: nat, limit: nat)
    requires IsAggregate(t) && !(t.Array? && t.elem.Builtin?) && i < PartCount(t) && IsAggregate(Part(t, i))
    requires from in h.cells && from < limit && |h.cells[from]| == PartCount(t) && TypedFrom(h, from, t, i, limit)
    requires to in h.cells && |h.cells[to]| == PartCount(t) && LaidFrom(h, to, t, i, b, true)
    requires limit <= to < b
    ensures var r := CopyFrom(h, from, to, t, i);
            && (r.Done? <==> CopyableFrom(t, i))
            && (r.Done? ==>
                  && WritesOnly(h, r.h, to, b, b + SizeFrom(t, i))
                  && |r.h.cells[to]| == PartCount(t) && r.h.cells[to][..i] == h.cells[to][..i]
                  && LaidFrom(r.h, to, t, i, b, false) && TreesFrom(r.h, to, t, i) == TreesFrom(h, from, t, i))
    decreases t, PartCount(t) - i, 0
  {
    var part, src := Part(t, i), h.cells[from][i];
    CopyWorks(h, src.a, b, part, limit);
    var c := Copy(h, src.a, b, part);
    if c.Done? {
      var h1, b1 := c.h, b + Size(part);
      LaidFromFrame(h, h1, to, t, i + 1, b1, true);
      TypedFromFrame(h, h1, from, t, i + 1, limit);
      CopyFromWorks(h1, from, to, t, i + 1, b1, limit);
      var r := CopyFrom(h1, from, to, t, i + 1);
      if r.Done? {
        assert r.h.cells[to][i] == r.h.cells[to][..i + 1][i] == h1.cells[to][..i + 1][i] == Addr(b);
        assert r.h.cells[to][..i] == r.h.cells[to][..i + 1][..i] == h1.cells[to][..i + 1][..i] == h.cells[to][..i];
        LaidFrame(h1, r.h, b, part, false);
      }
    }
  }

  // ---------- allocate and copy ----------

  /** The copy of a value of any type: a cell with the value itself, if that is no aggregate. */
  function AllocAndDeepCopy(v: Word, t: Type, h: Heap): Outcome
    requires Valid(h)
  {
    if !IsAggregate(t) then Done(Heap(h.cells[h.next := [v]], h.next + 1))
    else if !v.Addr? then Fault
    else Copy(Alloc(t, h), v.a, h.next, t)
  }

  /** Deep copy isolates.  On every well-formed value it succeeds exactly when the type, if it
      is an aggregate, is copyable.  The copy then equals the source structurally; all the cells
      it owns are new, and no two of its parts share one; the source and everything else are as
      before.  The copy of any other value, a pointer for one, is that value in a new cell. */
  lemma DeepCopyIsolates(v: Word, t: Type, h: Heap)
    requires Valid(h) && (t.Record? || t.Array? ==> v.Addr? && Typed(h, v.a, t, h.next))
    ensures var r, owns := AllocAndDeepCopy(v, t, h), t.Record? || t.Array?;
            && (r.Done? <==> (owns ==> Copyable(t)))
            && (r.Done? ==> h.next !in h.cells && SameIn(h, r.h, 0, h.next))
            && (r.Done? && owns ==>
                  && TreeOf(r.h, h.next, t) == TreeOf(h, v.a, t)
                  && Laid(r.h, h.next, t, false) && r.h.next == h.next + Size(t)
                  && TreeOf(r.h, v.a, t) == TreeOf(h, v.a, t))
            && (r.Done? && !owns ==>
                  && r.h.cells.Keys == h.cells.Keys + {h.next} && r.h.cells[h.next] == [v]
                  && r.h.next == h.next + 1)
  {
    var owns := t.Record? || t.Array?;
    if !owns { return; }
    var h1 := Alloc(t, h);
    AllocLays(t, h);
    assert SameIn(h, h1, 0, h.next);
    TypedFrame(h, h1, v.a, t, h.next);
    CopyWorks(h1, v.a, h.next, t, h.next);
    var r := Copy(h1, v.a, h.next, t);
    if r.Done? {
      assert SameIn(h, r.h, 0, h.next);
      TypedFrame(h, r.h, v.a, t, h.next);
    }
  }

  /** The cells a value owns, each listed as often as it is reached. */
  function Owned(h: Heap, a: nat, t: Type): multiset<nat>
    requires IsAggregate(t)
    decreases t, PartCount(t) + 1
  {
    if a in h.cells && |h.cells[a]| == PartCount(t) then multiset{a} + OwnedFrom(h, a, t, 0) else multiset{}
  }

  function OwnedFrom(h: Heap, a: nat, t: Type, i: nat): multiset<nat>
    requires IsAggregate(t) && i <= PartCount(t) && a in h.cells && |h.cells[a]| == PartCount(t)
    decreases t, PartCount(t) - i
  {
    if i == PartCount(t) then multiset{}
    else
      var w := h.cells[a][i];
      (if IsAggregate(Part(t, i)) && w.Addr? then Owned(h, w.a, Part(t, i)) else multiset{})
      + OwnedFrom(h, a, t, i + 1)
  }

  /** A laid-out value reaches each of its cells exactly once, and no other. */
  lemma {:induction false} LaidOwnsInterval(h: Heap, a: nat, t: Type, x: nat)
    requires IsAggregate(t) && Laid(h, a, t, false)
    ensures Owned(h, a, t)[x] == if a <= x < a + Size(t) then 1 else 0
    decreases t, PartCount(t) + 1
  {
    LaidFromOwnsInterval(h, a, t, 0, a + 1, x);
  }

  lemma {:induction false} LaidFromOwnsInterval(h: Heap, a: nat, t: Type, i: nat, b: nat, x: nat)
    requires IsAggregate(t) && i <= PartCount(t) && a in h.cells && |h.cells[a]| == PartCount(t)
    requires LaidFrom(h, a, t, i, b, false)
    ensures OwnedFrom(h, a, t, i)[x] == if b <= x < b + SizeFrom(t, i) then 1 else 0
    decreases t, PartCount(t) - i
  {
    if i < PartCount(t) {
      if IsAggregate(Part(t, i)) {
        LaidOwnsInterval(h, b, Part(t, i), x);
        LaidFromOwnsInterval(h, a, t, i + 1, b + Size(Part(t, i)), x);
      } else {
        LaidFromOwnsInterval(h, a, t, i + 1, b, x);
      }
    }
  }

  /** No cell of a deep copy existed before, and each belongs to one part of it only. */
  lemma CopyOwnsFreshCells(v: Word, t: Type, h: Heap, x: nat)
    requires Valid(h) && IsAggregate(t) && v.Addr? && Typed(h, v.a, t, h.next) && Copyable(t)
    ensures var r := AllocAndDeepCopy(v, t, h);
            && r.Done? && Owned(r.h, h.next, t)[x] <= 1
            && (x in Owned(r.h, h.next, t) ==> x !in h.cells && x in r.h.cells)
  {
    DeepCopyIsolates(v, t, h);
    var r := AllocAndDeepCopy(v, t, h).h;
    LaidOwnsInterval(r, h.next, t, x);
    if x in Owned(r, h.next, t) { OwnedExist(r, h.next, t, x); }
  }

  lemma {:induction false} OwnedExist(h: Heap, a: nat, t: Type, x: nat)
    requires IsAggregate(t) && x in Owned(h, a, t)
    ensures x in h.cells
    decreases t, PartCount(t) + 1
  {
    if x != a { OwnedFromExist(h, a, t, 0, x); }
  }

  lemma {:induction false} OwnedFromExist(h: Heap, a: nat, t: Type, i: nat, x: nat)
    requires IsAggregate(t) && i <= PartCount(t) && a in h.cells && |h.cells[a]| == PartCount(t)
    requires x in OwnedFrom(h, a, t, i)
    ensures x in h.cells
    decreases t, PartCount(t) - i
  {
    var w := h.cells[a][i];
    if IsAggregate(Part(t, i)) && w.Addr? && x in Owned(h, w.a, Part(t, i)) {
      OwnedExist(h, w.a, Part(t, i), x);
    } else {
      OwnedFromExist(h, a, t, i + 1, x);
    }
  }
}
