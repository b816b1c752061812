/**
 The pipe as the kernel keeps it: a ring of 4096 bytes with 64-bit running positions that wrap,
 and two waiter queues. Each region is its value-level counterpart in PipeSpec.
 */
module PipeRing {
  import opened Words
  import opened PipeSpec

  function Wrap(x: int): nat { x % WORD_LIMIT }

  /** 4096 divides 2^64, so the slot of a wrapped position is the slot of the position. */
  lemma WrapSlot(x: nat)
    ensures Wrap(x) % PIPE_BUF_SIZE == x % PIPE_BUF_SIZE
  {
    var q, k := x / WORD_LIMIT, WORD_LIMIT / PIPE_BUF_SIZE;
    var r := Wrap(x);
    assert x == (q * k + r / PIPE_BUF_SIZE) * PIPE_BUF_SIZE + r % PIPE_BUF_SIZE;
    DivModUnique(x, PIPE_BUF_SIZE, q * k + r / PIPE_BUF_SIZE, r % PIPE_BUF_SIZE);
  }

  /** Differences of wrapped positions are differences of positions. */
  lemma WrapDifference(h: nat, t: nat)
    requires t <= h < t + WORD_LIMIT
    ensures Wrap(Wrap(h) - Wrap(t)) == h - t && (Wrap(h) == Wrap(t) <==> h == t)
  {}

  lemma WrapNext(x: nat)
    ensures Wrap(Wrap(x) + 1) == Wrap(x + 1)
  {}

  class Ring {
    const buf: array<Byte>
    var head: nat            // 64-bit
    var tail: nat
    var readers: nat
    var writers: nat
    var readWaiters: seq<Task>
    var writeWaiters: seq<Task>
    ghost var h: nat         // bytes ever put in
    ghost var t: nat         // bytes ever taken out

    ghost predicate Valid() reads this {
      buf.Length == PIPE_BUF_SIZE && head == Wrap(h) && tail == Wrap(t) && t <= h <= t + PIPE_BUF_SIZE
    }

    /** The byte at a running position. */
    ghost function At(i: nat): Byte
      requires buf.Length == PIPE_BUF_SIZE
      reads buf
    {
      buf[i % PIPE_BUF_SIZE]
    }

    ghost function Content(): (c: seq<Byte>)
      requires Valid()
      reads this, buf
      ensures |c| == h - t && forall i :: 0 <= i < |c| ==> c[i] == At(t + i)
    {
      seq(h - t, i requires 0 <= i < h - t reads this, buf => buf[(t + i) % PIPE_BUF_SIZE])
    }

    ghost function Value(): Pipe
      requires Valid()
      reads this, buf
    {
      Pipe(Content(), readers, writers, readWaiters, writeWaiters)
    }

    constructor ()
      ensures Valid() && Value() == Pipe([], 1, 1, [], []) && fresh(buf)
    {
      buf := new Byte[PIPE_BUF_SIZE](_ => 0);
      head, tail, h, t := 0, 0, 0, 0;
      readers, writers, readWaiters, writeWaiters := 1, 1, [], [];
    }

    method Count() returns (n: nat)
      requires Valid()
      ensures n == h - t
    {
      WrapDifference(h, t);
      n := Wrap(head - tail);
    }

    method Drain(size: nat) returns (dst: seq<Byte>)
      requires Valid()
      modifies `tail, `t
      ensures Valid() && |dst| == Min(|old(Content())|, size)
      ensures dst == old(Content())[..|dst|] && Content() == old(Content())[|dst|..]
    {
      dst := [];
      ghost var c := Content();
      WrapDifference(h, t);
      while tail != head && |dst| < size
        invariant Valid() && |dst| <= Min(|c|, size) && t == old(t) + |dst|
        invariant dst == c[..|dst|] && (tail != head <==> t < h)
        decreases h - t
      {
        WrapSlot(t);
        WrapNext(t);
        assert c[|dst|] == At(t);
        dst := dst + [buf[tail % PIPE_BUF_SIZE]];
        tail, t := Wrap(tail + 1), t + 1;
        WrapDifference(h, t);
      }
      assert Content() == c[|dst|..];
    }

    method Put(b: Byte)
      requires Valid() && h - t < PIPE_BUF_SIZE
      modifies `head, `h, buf
      ensures Valid() && h == old(h) + 1 && Content() == old(Content()) + [b]
    {
      WrapSlot(h);
      WrapNext(h);
      SlotsApart(t, h);
      ghost var c := Content();
      buf[head % PIPE_BUF_SIZE] := b;
      assert forall i :: 0 <= i < |c| ==> c[i] == At(t + i);
      head, h := Wrap(head + 1), h + 1;
    }

    method Fill(src: seq<Byte>) returns (n: nat)
      requires Valid()
      modifies `head, `h, buf
      ensures Valid() && n == Min(PIPE_BUF_SIZE - |old(Content())|, |src|)
      ensures Content() == old(Content()) + src[..n]
    {
      n := 0;
      ghost var c := Content();
      var count := Count();
      while count < PIPE_BUF_SIZE && n < |src|
        invariant Valid() && n <= |src| && count == h - t && h == old(h) + n
        invariant Content() == c + src[..n]
        decreases |src| - n
      {
        Put(src[n]);
        assert src[..n + 1] == src[..n] + [src[n]];
        n := n + 1;
        count := Count();
      }
    }

    /** One pass of the read loop under the lock. */
    method Read(me: Task, size: nat) returns (out: Outcome, dst: seq<Byte>)
      requires Valid() && size > 0
      modifies this
      ensures Valid() && out == ReadOutcome(old(Value()), size) && Value() == ReadRegion(old(Value()), me, size)
      ensures dst == if out.Moved? then old(Content())[..Min(|old(Content())|, size)] else []
    {
      dst := [];
      var count := Count();
      if count > 0 {
        dst := Drain(size);
        if writeWaiters != [] { writeWaiters := writeWaiters[1..]; }
        out := Moved(|dst|);
      } else if writers == 0 {
        out := Ended;
      } else {
        readWaiters := readWaiters + [me];
        out := Parked;
      }
    }

    /** One pass of the write loop under the lock. */
    method Write(me: Task, src: seq<Byte>) returns (out: Outcome)
      requires Valid() && src != []
      modifies this, buf
      ensures Valid() && out == WriteOutcome(old(Value()), |src|) && Value() == WriteRegion(old(Value()), me, src)
    {
      var count := Count();
      if readers == 0 {
        out := Ended;
      } else if count < PIPE_BUF_SIZE {
        var n := Fill(src);
        if readWaiters != [] { readWaiters := readWaiters[1..]; }
        out := Moved(n);
      } else {
        writeWaiters := writeWaiters + [me];
        out := Parked;
      }
    }

    /** Closing an end; the last one releases every task parked on the other side. */
    method Close(readSide: bool) returns (woken: seq<Task>)
      requires Valid()
      modifies this
      ensures Valid() && Value() == if readSide then CloseRead(old(Value())) else CloseWrite(old(Value()))
      ensures woken == if readSide then (if readers == 0 then old(writeWaiters) else [])
                       else (if writers == 0 then old(readWaiters) else [])
    {
      woken := [];
      if readSide {
        if readers > 0 { readers := readers - 1; }
        if readers == 0 { woken, writeWaiters := writeWaiters, []; }
      } else {
        if writers > 0 { writers := writers - 1; }
        if writers == 0 { woken, readWaiters := readWaiters, []; }
      }
    }
  }

  /** The slot about to be written holds none of the bytes waiting to be read. */
  lemma SlotsApart(t: nat, h: nat)
    requires t <= h < t + PIPE_BUF_SIZE
    ensures forall i: nat :: t <= i < h ==> i % PIPE_BUF_SIZE != h % PIPE_BUF_SIZE
  {}
}
