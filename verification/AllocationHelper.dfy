/** The memory that emitted allocations, loads and stores work on, step by step. */
module AllocationHelper {
  import opened DeepCopy

  class Memory {
    var cells: map<nat, seq<Word>>
    var next: nat

    function State(): Heap
      reads this
    {
      Heap(cells, next)
    }

    /** An allocation: the cell of the type, then one for each aggregate part. */
    method CreateAlloca(t: Type) returns (a: nat)
      requires IsAggregate(t) && Valid(State())
      modifies this
      ensures State() == Alloc(t, old(State())) && a == old(next)
      decreases t, 1
    {
      ghost var whole := Alloc(t, State());
      a := next;
      cells, next := cells[a := Blank(PartCount(t))], next + 1;
      assert whole == AllocParts(t, a, 0, State());
      hide Alloc;
      for i := 0 to PartCount(t)
        invariant Valid(State()) && a in cells && |cells[a]| == PartCount(t)
        invariant AllocParts(t, a, i, State()) == whole
      {
        if IsAggregate(Part(t, i)) { AllocPart(t, a, i); }
      }
    }

    method AllocPart(t: Type, a: nat, i: nat)
      requires IsAggregate(t) && i < PartCount(t) && IsAggregate(Part(t, i)) && Valid(State())
      requires a in cells && |cells[a]| == PartCount(t)
      modifies this
      ensures var h := Alloc(Part(t, i), old(State()));
              a in h.cells && |h.cells[a]| == PartCount(t) && State() == Store(h, a, i, Addr(old(next)))
      decreases t, 0
    {
      hide Alloc;
      var part := CreateAlloca(Part(t, i));
      cells := cells[a := cells[a][i := Addr(part)]];
    }

    /** A deep copy into allocated cells; `ok` is false when it loads from or stores to
        what is no address. */
    method CreateDeepCopy(from: nat, to: nat, t: Type) returns (ok: bool)
      requires IsAggregate(t)
      modifies this
      ensures ok == Copy(old(State()), from, to, t).Done?
      ensures ok ==> State() == Copy(old(State()), from, to, t).h
      decreases t
    {
      if t.Array? && t.elem.Builtin? {
        if from !in cells || to !in cells || |cells[from]| < t.size { return false; }
        cells := cells[to := cells[from][..t.size]];
        return true;
      }
      ghost var start := State();
      for i := 0 to PartCount(t)
        invariant CopyFrom(State(), from, to, t, i) == CopyFrom(start, from, to, t, 0)
      {
        if from !in cells || to !in cells || |cells[from]| <= i || |cells[to]| <= i { return false; }
        var part, src, dst := Part(t, i), cells[from][i], cells[to][i];
        if t.Record? && !IsAggregate(part) {
          cells := cells[to := cells[to][i := src]];
        } else if !src.Addr? || !dst.Addr? {
          return false;
        } else if IsAggregate(part) {
          var done := CreateDeepCopy(src.a, dst.a, part);
          if !done { return false; }
        } else {
          if src.a !in cells || dst.a !in cells || |cells[src.a]| == 0 || |cells[dst.a]| == 0 { return false; }
          cells := cells[dst.a := cells[dst.a][0 := cells[src.a][0]]];
        }
      }
      ok := true;
    }

    method AllocAndCopy(v: Word, t: Type) returns (a: nat, ok: bool)
      requires Valid(State())
      modifies this
      ensures ok == AllocAndDeepCopy(v, t, old(State())).Done?
      ensures ok ==> State() == AllocAndDeepCopy(v, t, old(State())).h && a == old(next)
    {
      if !IsAggregate(t) {
        a, ok := next, true;
        cells, next := cells[a := [v]], next + 1;
        return;
      }
      if !v.Addr? { return 0, false; }
      a := CreateAlloca(t);
      ok := CreateDeepCopy(v.a, a, t);
    }
  }
}
