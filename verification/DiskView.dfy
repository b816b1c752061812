/**
 Byte-granular I/O on a view of a sector device, through a bounce buffer of one page: partial
 head and tail sectors are read before they are written back.
 */
module DiskView {
  import opened Words

  type Byte = nat

  const PAGE_SIZE: nat := 4096

  datatype Status = Done(count: nat) | NoSpace | NoMemory | Fault

  /** m with s written at pos. */
  function Splice(m: seq<Byte>, pos: nat, s: seq<Byte>): (r: seq<Byte>)
    requires pos + |s| <= |m|
    ensures |r| == |m|
  {
    m[..pos] + s + m[pos + |s|..]
  }

  // ---- the clamp ---------------------------------------------------------------------------------

  /** The size after the test against the end of the view; the sum is a 64-bit one. */
  function Clamp(off: nat, size: nat, cap: nat): nat
    requires off < cap
  {
    if (off + size) % WORD_LIMIT > cap then cap - off else size
  }

  /** The 64-bit sum does not wrap to an end inside the view. */
  predicate NoWrapInside(off: nat, size: nat, cap: nat) {
    off + size < WORD_LIMIT || (off + size) % WORD_LIMIT > cap
  }

  /** The clamp keeps the transfer inside the view exactly when the sum does not wrap to an end inside it. */
  lemma ClampExact(off: nat, size: nat, cap: nat)
    requires off < cap < WORD_LIMIT && size < WORD_LIMIT
    ensures off + Clamp(off, size, cap) <= cap <==> NoWrapInside(off, size, cap)
  {}

  /** What is asked for, or what is left of the view. */
  function Lesser(a: nat, b: nat): (r: nat)
    ensures (r == a || r == b) && r <= a && r <= b
  {
    if a < b then a else b
  }

  lemma ClampMeaning(off: nat, size: nat, cap: nat)
    requires off < cap < WORD_LIMIT && NoWrapInside(off, size, cap)
    ensures Clamp(off, size, cap) == Lesser(size, cap - off)
  {}

  // ---- sectors -------------------------------------------------------------------------------------

  /** n sectors in bytes. */
  function Bytes(n: nat, ss: nat): nat { n * ss }

  lemma BytesAdd(a: nat, b: nat, ss: nat)
    ensures Bytes(a + b, ss) == Bytes(a, ss) + Bytes(b, ss)
  {}

  lemma BytesUp(a: nat, b: nat, ss: nat)
    requires a <= b
    ensures Bytes(a, ss) <= Bytes(b, ss)
  {
    BytesAdd(a, b - a, ss);
  }

  lemma BytesLess(a: nat, b: nat, ss: nat)
    requires Bytes(a, ss) < Bytes(b, ss)
    ensures a < b
  {
    if a >= b { BytesUp(b, a, ss); }
  }

  lemma BytesOne(ss: nat)
    ensures Bytes(1, ss) == ss
  {}

  lemma Position(cur: nat, ss: nat)
    requires ss > 0
    ensures cur == Bytes(cur / ss, ss) + cur % ss && cur % ss < ss
  {}

  /** Rounding up to whole sectors. */
  lemma Ceiling(x: nat, ss: nat)
    requires ss > 0
    ensures x <= Bytes((x + ss - 1) / ss, ss) < x + ss
    ensures x % ss == 0 ==> Bytes((x + ss - 1) / ss, ss) == x
  {
    Position(x + ss - 1, ss);
    if x % ss == 0 {
      Position(x, ss);
      hide Bytes;
      Exact(x, x / ss, ss);
    }
  }

  lemma Exact(x: nat, q: nat, ss: nat)
    requires ss > 0 && x == Bytes(q, ss)
    ensures (x + ss - 1) / ss == q
  {
    DivModUnique(x + ss - 1, ss, q, ss - 1);
  }

  /** Where a chunk of `want` bytes at byte `cur` of the view lies on the device. */
  lemma Geometry(ss: nat, start: nat, count: nat, cur: nat, want: nat, k: nat, rel: nat, inside: nat, sectors: nat)
    requires ss > 0 && cur == Bytes(rel, ss) + inside && Bytes(sectors, ss) < inside + want + ss
    requires cur + want <= Bytes(count, ss) && inside + want <= Bytes(k, ss)
    ensures sectors <= k && rel + sectors <= count && Bytes(start + rel, ss) + inside == Bytes(start, ss) + cur
    ensures Bytes(start + rel + sectors, ss) <= Bytes(start + count, ss)
    ensures Bytes(start + rel + sectors, ss) == Bytes(start + rel, ss) + Bytes(sectors, ss)
  {
    hide Bytes;
    BytesOne(ss);
    BytesAdd(k, 1, ss);
    BytesLess(sectors, k + 1, ss);
    BytesAdd(rel, sectors, ss);
    BytesAdd(count, 1, ss);
    BytesLess(rel + sectors, count + 1, ss);
    BytesAdd(start, rel, ss);
    BytesAdd(start + rel, sectors, ss);
    BytesUp(start + rel + sectors, start + count, ss);
  }

  /** Overwriting part of a region and putting the region back is overwriting that part of the medium. */
  lemma PatchRegion(m: seq<Byte>, at: nat, len: nat, bounce: seq<Byte>, inside: nat, chunk: seq<Byte>)
    requires at + len <= |m| && |bounce| == len && inside + |chunk| <= len
    requires (inside == 0 && |chunk| == len) || bounce == m[at..at + len]
    ensures Splice(m, at, Splice(bounce, inside, chunk)) == Splice(m, at + inside, chunk)
  {
    var a, b := Splice(m, at, Splice(bounce, inside, chunk)), Splice(m, at + inside, chunk);
    forall i | 0 <= i < |m| ensures a[i] == b[i] {}
  }

  /** Two adjacent pieces written one after the other. */
  lemma SpliceTwice(m: seq<Byte>, pos: nat, s: seq<Byte>, t: seq<Byte>)
    requires pos + |s| + |t| <= |m|
    ensures Splice(Splice(m, pos, s), pos + |s|, t) == Splice(m, pos, s + t)
  {
    var a, b := Splice(Splice(m, pos, s), pos + |s|, t), Splice(m, pos, s + t);
    forall i | 0 <= i < |m| ensures a[i] == b[i] {}
  }

  class Disk {
    const ss: nat
    var medium: seq<Byte>
    var healthy: nat            // requests served before the device fails

    /** The view of `count` sectors from `start` lies on the device. */
    ghost predicate Valid(start: nat, count: nat) reads this {
      0 < ss <= PAGE_SIZE && Bytes(start + count, ss) <= |medium|
    }

    method ReadSectors(lba: nat, n: nat) returns (ok: bool, data: seq<Byte>)
      requires Bytes(lba, ss) + Bytes(n, ss) <= |medium|
      modifies `healthy
      ensures (ok <==> old(healthy) > 0) && healthy + 1 >= old(healthy)
      ensures ok ==> data == medium[Bytes(lba, ss)..Bytes(lba, ss) + Bytes(n, ss)]
    {
      ok, data := healthy > 0, [];
      if ok {
        healthy := healthy - 1;
        data := medium[Bytes(lba, ss)..Bytes(lba, ss) + Bytes(n, ss)];
      }
    }

    method WriteSectors(lba: nat, n: nat, data: seq<Byte>) returns (ok: bool)
      requires Bytes(lba, ss) + Bytes(n, ss) <= |medium| && |data| == Bytes(n, ss)
      modifies `healthy, `medium
      ensures (ok <==> old(healthy) > 0) && healthy + 1 >= old(healthy)
      ensures medium == if ok then Splice(old(medium), Bytes(lba, ss), data) else old(medium)
    {
      ok := healthy > 0;
      if ok {
        healthy := healthy - 1;
        medium := Splice(medium, Bytes(lba, ss), data);
      }
    }

    /** One chunk through the bounce buffer, whose bytes may be left from an earlier chunk. */
    method WriteChunk(start: nat, count: nat, cur: nat, chunk: seq<Byte>, stale: seq<Byte>) returns (ok: bool)
      requires Valid(start, count) && |stale| == PAGE_SIZE
      requires cur + |chunk| <= Bytes(count, ss) && cur % ss + |chunk| <= Bytes(PAGE_SIZE / ss, ss)
      modifies `healthy, `medium
      ensures Bytes(start, ss) + cur + |chunk| <= |old(medium)| && |medium| == |old(medium)|
      ensures (old(healthy) > 1 ==> ok) && healthy + 2 >= old(healthy)
      ensures medium == if ok then Splice(old(medium), Bytes(start, ss) + cur, chunk) else old(medium)
    {
      hide Bytes, Splice;
      var rel, inside := cur / ss, cur % ss;
      var sectors := (inside + |chunk| + ss - 1) / ss;
      Position(cur, ss);
      Ceiling(inside + |chunk|, ss);
      Geometry(ss, start, count, cur, |chunk|, PAGE_SIZE / ss, rel, inside, sectors);
      BytesUp(sectors, PAGE_SIZE / ss, ss);
      Position(PAGE_SIZE, ss);
      var lba := start + rel;
      var bounce := stale[..Bytes(sectors, ss)];
      if inside != 0 || (inside + |chunk|) % ss != 0 {
        ok, bounce := ReadSectors(lba, sectors);
        if !ok { return; }
      }
      PatchRegion(medium, Bytes(lba, ss), Bytes(sectors, ss), bounce, inside, chunk);
      ok := WriteSectors(lba, sectors, Splice(bounce, inside, chunk));
    }

    method ReadChunk(start: nat, count: nat, cur: nat, want: nat) returns (ok: bool, piece: seq<Byte>)
      requires Valid(start, count)
      requires cur + want <= Bytes(count, ss) && cur % ss + want <= Bytes(PAGE_SIZE / ss, ss)
      modifies `healthy
      ensures Bytes(start, ss) + cur + want <= |medium| && (old(healthy) > 0 ==> ok) && healthy + 1 >= old(healthy)
      ensures ok ==> piece == medium[Bytes(start, ss) + cur..Bytes(start, ss) + cur + want]
    {
      hide Bytes;
      var rel, inside := cur / ss, cur % ss;
      var sectors := (inside + want + ss - 1) / ss;
      Position(cur, ss);
      Ceiling(inside + want, ss);
      Geometry(ss, start, count, cur, want, PAGE_SIZE / ss, rel, inside, sectors);
      var bounce;
      ok, bounce := ReadSectors(start + rel, sectors);
      SliceOfSlice(medium, Bytes(start + rel, ss), Bytes(sectors, ss), inside, want);
      piece := if ok then bounce[inside..inside + want] else [];
    }

    /** A write changes exactly the clamped range; a fault leaves a prefix of it written. */
    method DoWrite(start: nat, count: nat, off: nat, data: seq<Byte>, memory: bool) returns (status: Status, done: nat)
      requires Valid(start, count) && Bytes(count, ss) < WORD_LIMIT && |data| < WORD_LIMIT
      requires off < Bytes(count, ss) ==> NoWrapInside(off, |data|, Bytes(count, ss))
      modifies this
      ensures |medium| == |old(medium)| && done <= |data| && (done == 0 || Bytes(start, ss) + off + done <= |medium|)
      ensures medium == if done == 0 then old(medium) else Splice(old(medium), Bytes(start, ss) + off, data[..done])
      ensures status == NoSpace <==> off >= Bytes(count, ss)
      ensures status == NoMemory <==> off < Bytes(count, ss) && data != [] && !memory
      ensures status.Done? ==> off < Bytes(count, ss) && status.count == done == Lesser(|data|, Bytes(count, ss) - off)
      ensures status == Fault ==> off < Bytes(count, ss) && done < Lesser(|data|, Bytes(count, ss) - off)
      ensures status == NoMemory ==> done == 0
      ensures status == Fault ==> old(healthy) <= 2 * |data|
    {
      hide Bytes, Splice;
      var cap := Bytes(count, ss);
      done := 0;
      if off >= cap { return NoSpace, 0; }
      ClampExact(off, |data|, cap);
      ClampMeaning(off, |data|, cap);
      var size := Clamp(off, |data|, cap);
      BytesAdd(start, count, ss);
      if size == 0 { return Done(0), 0; }
      if !memory { return NoMemory, 0; }
      ghost var m, base := medium, Bytes(start, ss) + off;
      var bounce := seq(PAGE_SIZE, _ => 0);
      SpliceNothing(m, base);
      while done < size
        invariant done <= size && |medium| == |m| && healthy + 2 * done >= old(healthy)
        invariant medium == Splice(m, base, data[..done])
      {
        var cur := off + done;
        var want := size - done;
        BounceRoom(ss, cur);
        var room := Bytes(PAGE_SIZE / ss, ss) - cur % ss;
        if want > room { want := room; }
        var ok := WriteChunk(start, count, cur, data[done..done + want], bounce);
        if !ok {
          if done == 0 { SpliceNothing(m, base); }
          return Fault, done;
        }
        SpliceTwice(m, base, data[..done], data[done..done + want]);
        assert data[..done] + data[done..done + want] == data[..done + want];
        done := done + want;
      }
      return Done(done), done;
    }

    /** A read returns exactly the clamped slice. */
    method DoRead(start: nat, count: nat, off: nat, size0: nat, memory: bool) returns (status: Status, out: seq<Byte>)
      requires Valid(start, count) && Bytes(count, ss) < WORD_LIMIT && size0 < WORD_LIMIT
      requires off < Bytes(count, ss) ==> NoWrapInside(off, size0, Bytes(count, ss))
      modifies `healthy
      ensures off >= Bytes(count, ss) ==> status == Done(0)
      ensures status.Done? ==> status.count == |out| == (if off < Bytes(count, ss) then Lesser(size0, Bytes(count, ss) - off) else 0)
      ensures status == NoMemory <==> off < Bytes(count, ss) && size0 > 0 && !memory
      ensures status != NoSpace && (status == Fault ==> old(healthy) <= size0 && |out| < Lesser(size0, Bytes(count, ss) - off))
      ensures out == [] || (Bytes(start, ss) + off + |out| <= |medium|
                            && out == medium[Bytes(start, ss) + off..Bytes(start, ss) + off + |out|])
    {
      hide Bytes;
      var cap := Bytes(count, ss);
      out := [];
      if off >= cap { return Done(0), []; }
      ClampExact(off, size0, cap);
      ClampMeaning(off, size0, cap);
      var size := Clamp(off, size0, cap);
      BytesAdd(start, count, ss);
      if size == 0 { return Done(0), []; }
      if !memory { return NoMemory, []; }
      ghost var base := Bytes(start, ss) + off;
      while |out| < size
        invariant |out| <= size && out == medium[base..base + |out|] && healthy + |out| >= old(healthy)
        decreases size - |out|
      {
        var cur := off + |out|;
        var want := size - |out|;
        BounceRoom(ss, cur);
        var room := Bytes(PAGE_SIZE / ss, ss) - cur % ss;
        if want > room { want := room; }
        var ok, piece := ReadChunk(start, count, cur, want);
        if !ok { return Fault, out; }
        out := out + piece;
      }
      return Done(|out|), out;
    }
  }

  /** The bounce buffer holds at least the rest of the current sector. */
  lemma BounceRoom(ss: nat, cur: nat)
    requires 0 < ss <= PAGE_SIZE
    ensures cur % ss < ss <= Bytes(PAGE_SIZE / ss, ss)
  {
    Position(PAGE_SIZE, ss);
    Position(cur, ss);
    BytesOne(ss);
    hide Bytes;
    assert PAGE_SIZE / ss >= 1;
    BytesUp(1, PAGE_SIZE / ss, ss);
  }

  lemma SliceOfSlice(m: seq<Byte>, at: nat, len: nat, inside: nat, want: nat)
    requires at + len <= |m| && inside + want <= len
    ensures m[at..at + len][inside..inside + want] == m[at + inside..at + inside + want]
  {
    var a, b := m[at..at + len][inside..inside + want], m[at + inside..at + inside + want];
    forall i | 0 <= i < want ensures a[i] == b[i] {}
    assert |a| == |b| == want;
  }

  lemma SpliceNothing(m: seq<Byte>, pos: nat)
    requires pos <= |m|
    ensures Splice(m, pos, []) == m
  {}
}
