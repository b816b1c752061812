/**
 getdents: directory entries as a stream of linux_dirent64 records, cut into the caller's
 buffers, with the one record that did not fit stashed for the next call.
 */
module Getdents {
  import opened Words
  import opened Sequences

  type Byte = nat

  const HEADER: nat := 19       // d_ino, d_off, d_reclen, d_type

  datatype Entry = Entry(name: seq<Byte>, ino: nat, kind: nat)

  /** A C string, a 32-bit inode number and a one-byte type. */
  ghost predicate Plain(e: Entry) {
    (forall i :: 0 <= i < |e.name| ==> 0 < e.name[i] < 256) && e.ino < 0x1_0000_0000 && e.kind < 256
  }

  /** x in n little-endian bytes. */
  function Little(x: nat, n: nat): (r: seq<Byte>)
    ensures |r| == n
  {
    if n == 0 then [] else [x % 256] + Little(x / 256, n - 1)
  }

  function Value(s: seq<Byte>): nat {
    if s == [] then 0 else s[0] + 256 * Value(s[1..])
  }

  function Align8(x: nat): nat { (x + 7) / 8 * 8 }

  function RecLen(e: Entry): (r: nat)
    ensures r >= HEADER + |e.name| + 1
  {
    Align8(HEADER + |e.name| + 1)
  }

  /** The least multiple of 8 that holds the header, the name and its terminator. */
  lemma RecLenMeaning(e: Entry)
    ensures RecLen(e) % 8 == 0 && HEADER + |e.name| + 1 <= RecLen(e) < HEADER + |e.name| + 1 + 8
  {}

  function Zeros(n: nat): (r: seq<Byte>)
    ensures |r| == n && forall i :: 0 <= i < n ==> r[i] == 0
  {
    seq(n, _ => 0)
  }

  function Encode(e: Entry): (r: seq<Byte>)
    ensures |r| == RecLen(e)
  {
    Little(e.ino, 8) + Little(RecLen(e), 8) + Little(RecLen(e), 2) + [e.kind] + e.name + Zeros(RecLen(e) - HEADER - |e.name|)
  }

  // ---- reading the stream back -------------------------------------------------------------------

  function UntilZero(s: seq<Byte>): seq<Byte> {
    if s == [] || s[0] == 0 then [] else [s[0]] + UntilZero(s[1..])
  }

  function Parse(r: seq<Byte>): Entry
    requires |r| >= HEADER
  {
    Entry(UntilZero(r[HEADER..]), Value(r[..8]), r[18])
  }

  /** What a reader stepping by d_reclen sees. */
  function Walk(s: seq<Byte>): seq<Entry>
    decreases |s|
  {
    if |s| < HEADER then [] else
      var n := Value(s[16..18]);
      if n < HEADER || n > |s| then [] else [Parse(s[..n])] + Walk(s[n..])
  }

  function EncodeAll(es: seq<Entry>): seq<Byte> {
    if es == [] then [] else Encode(es[0]) + EncodeAll(es[1..])
  }

  lemma {:induction false} LittleValue(x: nat, n: nat, bound: nat)
    requires bound == Pow2(8 * n) && x < bound
    ensures Value(Little(x, n)) == x
  {
    if n > 0 {
      Pow2Sum(8, 8 * (n - 1));
      assert Pow2(8) == 256;
      LittleValue(x / 256, n - 1, Pow2(8 * (n - 1)));
      assert Little(x, n)[1..] == Little(x / 256, n - 1);
    }
  }

  lemma {:induction false} NameEnds(name: seq<Byte>, pad: seq<Byte>)
    requires (forall i :: 0 <= i < |name| ==> name[i] > 0) && pad != [] && pad[0] == 0
    ensures UntilZero(name + pad) == name
  {
    if name == [] {
      assert name + pad == pad;
    } else {
      assert (name + pad)[1..] == name[1..] + pad;
      NameEnds(name[1..], pad);
    }
  }

  /** Each field at its place; the record length field is 16 bits wide. */
  lemma FieldsOf(e: Entry)
    ensures Encode(e)[..8] == Little(e.ino, 8) && Encode(e)[8..16] == Little(RecLen(e), 8)
    ensures Encode(e)[16..18] == Little(RecLen(e), 2) && Encode(e)[18] == e.kind
    ensures Encode(e)[HEADER..] == e.name + Zeros(RecLen(e) - HEADER - |e.name|)
  {}

  lemma ParseEncode(e: Entry)
    requires Plain(e)
    ensures Parse(Encode(e)) == e
  {
    FieldsOf(e);
    Wide();
    LittleValue(e.ino, 8, Pow2(64));
    NameEnds(e.name, Zeros(RecLen(e) - HEADER - |e.name|));
  }

  /** d_off holds the distance to the next record, and everything behind the name is zero. */
  lemma OffsetField(e: Entry)
    requires RecLen(e) < WORD_LIMIT
    ensures Value(Encode(e)[8..16]) == RecLen(e)
    ensures forall i :: HEADER + |e.name| <= i < RecLen(e) ==> Encode(e)[i] == 0
  {
    FieldsOf(e);
    Wide();
    LittleValue(RecLen(e), 8, Pow2(64));
    forall i | HEADER + |e.name| <= i < RecLen(e) ensures Encode(e)[i] == 0 {
      assert Encode(e)[i] == Encode(e)[HEADER..][i - HEADER];
    }
  }

  lemma Wide()
    ensures Pow2(64) == WORD_LIMIT && Pow2(16) == 65536
  {
    LimitIsPow2();
    Pow2Sum(8, 8);
    assert Pow2(8) == 256;
  }

  lemma LengthField(e: Entry)
    requires RecLen(e) < 65536
    ensures Value(Encode(e)[16..18]) == RecLen(e)
  {
    FieldsOf(e);
    Wide();
    LittleValue(RecLen(e), 2, Pow2(16));
  }

  lemma {:induction false} WalkEncoded(es: seq<Entry>)
    requires forall i :: 0 <= i < |es| ==> Plain(es[i]) && RecLen(es[i]) < 65536
    ensures Walk(EncodeAll(es)) == es
  {
    if es != [] {
      var r, rest := Encode(es[0]), EncodeAll(es[1..]);
      var s := r + rest;
      assert s[16..18] == r[16..18] && s[..|r|] == r && s[|r|..] == rest;
      LengthField(es[0]);
      ParseEncode(es[0]);
      WalkEncoded(es[1..]);
      hide Encode, Parse;
      assert Walk(s) == [Parse(r)] + Walk(rest);
    }
  }

  /** Names too long for the field: the walk reads a length that is not the record's. */
  lemma LengthFieldExact(e: Entry)
    ensures Value(Encode(e)[16..18]) == RecLen(e) <==> RecLen(e) < 65536
  {
    if RecLen(e) < 65536 {
      LengthField(e);
    } else {
      FieldsOf(e);
      TwoBytes(RecLen(e));
    }
  }

  lemma TwoBytes(x: nat)
    ensures Value(Little(x, 2)) < 65536
  {
    var s, y := Little(x, 2), x / 256;
    assert s[1..] == Little(y, 1);
    assert Little(y, 1)[1..] == Little(y / 256, 0);
    assert Value(Little(y, 1)) == y % 256 + 256 * Value(Little(y / 256, 0));
  }

  // ---- calls -------------------------------------------------------------------------------------------

  datatype Read = Got(e: Entry) | Failed

  /** The entries readdir has still to give, and the stashed record; [] is no stash. */
  datatype Dir = Dir(pending: seq<Read>, stash: seq<Byte>)

  datatype Status = Ok | Invalid | NoMemory | Error

  datatype Reply = Reply(d: Dir, status: Status, out: seq<Byte>)

  /** The loop over readdir, with `out` already in the buffer. */
  function Pull(d: Dir, out: seq<Byte>, size: nat, memory: bool): Reply
    decreases |d.pending|
  {
    if d.pending == [] then Reply(d, Ok, out) else
      var rest := d.(pending := d.pending[1..]);
      match d.pending[0]
      case Failed => Reply(rest, Error, out)
      case Got(e) =>
        if |out| + RecLen(e) <= size then Pull(rest, out + Encode(e), size, memory)
        else if out == [] then Reply(rest, Invalid, out)
        else if !memory then Reply(rest, NoMemory, out)
        else Reply(rest.(stash := Encode(e)), Ok, out)
  }

  function Call(d: Dir, size: nat, memory: bool): Reply {
    if size == 0 || |d.stash| > size then Reply(d, Invalid, []) else Pull(d.(stash := []), d.stash, size, memory)
  }

  /** The entries among readdir's answers. */
  function Entries(rs: seq<Read>): seq<Entry> {
    if rs == [] then [] else (if rs[0].Got? then [rs[0].e] else []) + Entries(rs[1..])
  }

  /** Where and how the loop stops: behind the last entry, at a failure, or before the first record that does not fit. */
  ghost predicate Stops(rs: seq<Read>, k: nat, r: Reply, size: nat, memory: bool)
    requires k <= |rs|
  {
    if k == |rs| then r.status == Ok && r.d == Dir([], [])
    else if rs[k].Failed? then r.status == Error && r.d == Dir(rs[k + 1..], [])
    else
      && |r.out| + RecLen(rs[k].e) > size
      && r.status == (if r.out == [] then Invalid else if memory then Ok else NoMemory)
      && r.d == Dir(rs[k + 1..], if r.status == Ok then Encode(rs[k].e) else [])
  }

  lemma {:induction false} PullOutcome(d: Dir, out: seq<Byte>, size: nat, memory: bool) returns (k: nat)
    requires d.stash == [] && |out| <= size
    ensures k <= |d.pending| && forall i :: 0 <= i < k ==> d.pending[i].Got?
    ensures var r := Pull(d, out, size, memory);
      r.out == out + EncodeAll(Entries(d.pending[..k])) && |r.out| <= size && Stops(d.pending, k, r, size, memory)
    decreases |d.pending|
  {
    hide Encode;
    k := 0;
    EmptyStream();
    assert d.pending[..0] == [];
    if d.pending != [] && d.pending[0].Got? && |out| + RecLen(d.pending[0].e) <= size {
      var e, rest := d.pending[0].e, d.pending[1..];
      var j := PullOutcome(Dir(rest, []), out + Encode(e), size, memory);
      k := j + 1;
      assert d.pending[..k] == [Got(e)] + rest[..j];
      FirstOut(e, rest[..j]);
      Assoc(out, Encode(e), EncodeAll(Entries(rest[..j])));
      assert rest[j..] == d.pending[k..];
    }
  }

  /**
   What every call does: it refuses a buffer that cannot hold the stash; otherwise it delivers the
   stash and the longest run of records that fits, and keeps the next one for later.
   */
  lemma CallOutcome(d: Dir, size: nat, memory: bool) returns (k: nat)
    ensures size == 0 || |d.stash| > size ==> Call(d, size, memory) == Reply(d, Invalid, [])
    ensures size > 0 && |d.stash| <= size ==>
              && k <= |d.pending| && (forall i :: 0 <= i < k ==> d.pending[i].Got?)
              && var r := Call(d, size, memory);
                 r.out == d.stash + EncodeAll(Entries(d.pending[..k])) && |r.out| <= size && Stops(d.pending, k, r, size, memory)
  {
    k := 0;
    if size > 0 && |d.stash| <= size { k := PullOutcome(d.(stash := []), d.stash, size, memory); }
  }

  lemma {:induction false} PullStream(d: Dir, out: seq<Byte>, size: nat, memory: bool)
    requires d.stash == [] && |out| <= size
    ensures var r := Pull(d, out, size, memory);
      |r.out| <= size && (r.status == Ok ==> Streamed(d.(stash := out), r.d, r.out))
    decreases |d.pending|
  {
    hide Encode, Streamed;
    if d.pending == [] {
      NothingStreamed(d.(stash := out));
      Handed(d, out);
    } else if d.pending[0].Got? {
      var e := d.pending[0].e;
      if |out| + RecLen(e) <= size {
        PullStream(d.(pending := d.pending[1..]), out + Encode(e), size, memory);
        OneMore(d.pending, e, out, Pull(d, out, size, memory).d, Pull(d, out, size, memory).out);
      } else {
        OneStashed(d.pending, e, out);
      }
    }
  }

  lemma Handed(d: Dir, out: seq<Byte>)
    requires d.stash == []
    ensures Streamed(d.(stash := out), d, out)
  {
    assert d.pending[..0] == [];
    EmptyStream();
  }

  lemma OneStashed(rs: seq<Read>, e: Entry, out: seq<Byte>)
    requires rs != [] && rs[0] == Got(e)
    ensures Streamed(Dir(rs, out), Dir(rs[1..], Encode(e)), out)
  {
    hide Encode;
    assert rs[..1] == [Got(e)] + [];
    FirstOut(e, []);
    EmptyStream();
  }

  /** The first entry pulled, then the rest. */
  lemma OneMore(rs: seq<Read>, e: Entry, out: seq<Byte>, n: Dir, o: seq<Byte>)
    requires rs != [] && rs[0] == Got(e)
    ensures Streamed(Dir(rs[1..], out + Encode(e)), n, o) ==> Streamed(Dir(rs, out), n, o)
  {
    hide Encode, Entries, EncodeAll;
    if Streamed(Dir(rs[1..], out + Encode(e)), n, o) {
      var k := |rs| - 1 - |n.pending|;
      assert rs[..k + 1] == [Got(e)] + rs[1..][..k];
      FirstOut(e, rs[1..][..k]);
      Assoc(out, Encode(e), EncodeAll(Entries(rs[1..][..k])));
    }
  }

  lemma FirstOut(e: Entry, rs: seq<Read>)
    ensures EncodeAll(Entries([Got(e)] + rs)) == Encode(e) + EncodeAll(Entries(rs))
  {
    var s := [Got(e)] + rs;
    assert s[1..] == rs;
    assert Entries(s) == [e] + Entries(rs);
    assert ([e] + Entries(rs))[1..] == Entries(rs);
  }

  // ---- any run of calls that succeed ---------------------------------------------------------------

  datatype Request = Request(size: nat, memory: bool)

  predicate AllOk(d: Dir, qs: seq<Request>)
    decreases |qs|
  {
    qs != [] ==> Call(d, qs[0].size, qs[0].memory).status == Ok && AllOk(Call(d, qs[0].size, qs[0].memory).d, qs[1..])
  }

  function Final(d: Dir, qs: seq<Request>): Dir
    decreases |qs|
  {
    if qs == [] then d else Final(Call(d, qs[0].size, qs[0].memory).d, qs[1..])
  }

  /** The buffers of all calls, one after the other. */
  function Output(d: Dir, qs: seq<Request>): seq<Byte>
    decreases |qs|
  {
    if qs == [] then [] else
      var r := Call(d, qs[0].size, qs[0].memory);
      r.out + Output(r.d, qs[1..])
  }

  /** Output and stash are exactly the records of the entries pulled, in order. */
  lemma {:induction false} Stream(d: Dir, qs: seq<Request>)
    requires AllOk(d, qs)
    ensures Streamed(d, Final(d, qs), Output(d, qs))
    decreases |qs|
  {
    hide Call, Streamed;
    if qs == [] {
      NothingStreamed(d);
    } else {
      var r := Call(d, qs[0].size, qs[0].memory);
      CallStreams(d, qs[0].size, qs[0].memory);
      Stream(r.d, qs[1..]);
      StreamsJoin(d, r.d, Final(d, qs), r.out, Output(r.d, qs[1..]));
    }
  }

  /** Between d and n, the output and the new stash are the old stash and the records pulled. */
  ghost predicate Streamed(d: Dir, n: Dir, out: seq<Byte>) {
    && |n.pending| <= |d.pending| && n.pending == d.pending[|d.pending| - |n.pending|..]
    && out + n.stash == d.stash + EncodeAll(Entries(d.pending[..|d.pending| - |n.pending|]))
  }

  lemma NothingStreamed(d: Dir)
    ensures Streamed(d, d, [])
  {
    assert d.pending[..0] == [];
    EmptyStream();
  }

  /** One successful call; it returns nothing only at the end of the directory. */
  lemma CallStreams(d: Dir, size: nat, memory: bool)
    requires Call(d, size, memory).status == Ok
    ensures var r := Call(d, size, memory);
      Streamed(d, r.d, r.out) && |r.out| <= size && (r.out == [] ==> d == Dir([], []))
  {
    hide Pull, Streamed;
    PullStream(d.(stash := []), d.stash, size, memory);
    var r := Call(d, size, memory);
    if r.out == [] { NothingLeft(d, size, memory); }
  }

  lemma NothingLeft(d: Dir, size: nat, memory: bool)
    requires Call(d, size, memory).status == Ok && Call(d, size, memory).out == []
    ensures d == Dir([], [])
  {
    hide Encode;
    var p := d.pending;
    if d.stash == [] && p != [] && p[0].Got? && RecLen(p[0].e) <= size {
      OutGrows(Dir(p[1..], []), [] + Encode(p[0].e), size, memory);
    } else if d.stash != [] && |d.stash| <= size {
      OutGrows(d.(stash := []), d.stash, size, memory);
    }
  }

  lemma {:induction false} OutGrows(d: Dir, out: seq<Byte>, size: nat, memory: bool)
    ensures |Pull(d, out, size, memory).out| >= |out|
    decreases |d.pending|
  {
    hide Encode;
    if d.pending != [] && d.pending[0].Got? {
      OutGrows(d.(pending := d.pending[1..]), out + Encode(d.pending[0].e), size, memory);
    }
  }

  lemma StreamsJoin(d: Dir, m: Dir, n: Dir, out: seq<Byte>, more: seq<Byte>)
    requires Streamed(d, m, out) && Streamed(m, n, more)
    ensures Streamed(d, n, out + more)
  {
    hide Entries, EncodeAll;
    var a, b := |d.pending| - |m.pending|, |m.pending| - |n.pending|;
    assert d.pending[..a + b] == d.pending[..a] + m.pending[..b];
    Joined(d.pending[..a], m.pending[..b]);
    StreamStep(d.stash, EncodeAll(Entries(d.pending[..a])), EncodeAll(Entries(m.pending[..b])), out, m.stash, more, n.stash);
  }

  lemma EmptyStream()
    ensures EncodeAll(Entries([])) == []
  {}

  lemma StreamStep(stash: seq<Byte>, x: seq<Byte>, y: seq<Byte>, out: seq<Byte>, mid: seq<Byte>, more: seq<Byte>, last: seq<Byte>)
    requires out + mid == stash + x && more + last == mid + y
    ensures (out + more) + last == stash + (x + y)
  {
    assert (out + more) + last == out + (mid + y) == (out + mid) + y == stash + (x + y);
  }

  lemma {:induction false} EntriesJoin(a: seq<Read>, b: seq<Read>)
    ensures Entries(a + b) == Entries(a) + Entries(b)
  {
    if a == [] {
      assert a + b == b;
    } else {
      EntriesJoin(a[1..], b);
      TailOfSum(a, b);
      Assoc(if a[0].Got? then [a[0].e] else [], Entries(a[1..]), Entries(b));
    }
  }

  lemma {:induction false} EncodeJoin(a: seq<Entry>, b: seq<Entry>)
    ensures EncodeAll(a + b) == EncodeAll(a) + EncodeAll(b)
  {
    hide Encode;
    if a == [] {
      assert a + b == b;
    } else {
      EncodeJoin(a[1..], b);
      TailOfSum(a, b);
      Assoc(Encode(a[0]), EncodeAll(a[1..]), EncodeAll(b));
    }
  }

  lemma Joined(a: seq<Read>, b: seq<Read>)
    ensures EncodeAll(Entries(a + b)) == EncodeAll(Entries(a)) + EncodeAll(Entries(b))
  {
    EntriesJoin(a, b);
    EncodeJoin(Entries(a), Entries(b));
  }

  /** A directory read to its end in successful calls: walking the output gives every entry, once, in order. */
  lemma WholeDirectory(entries: seq<Entry>, rs: seq<Read>, qs: seq<Request>)
    requires forall i :: 0 <= i < |entries| ==> Plain(entries[i]) && RecLen(entries[i]) < 65536
    requires |rs| == |entries| && forall i :: 0 <= i < |entries| ==> rs[i] == Got(entries[i])
    requires AllOk(Dir(rs, []), qs) && Final(Dir(rs, []), qs) == Dir([], [])
    ensures Walk(Output(Dir(rs, []), qs)) == entries
  {
    hide AllOk, Final, Output, Walk, EncodeAll, Entries;
    Stream(Dir(rs, []), qs);
    assert rs[..|rs|] == rs;
    AllGot(entries, rs);
    WalkEncoded(entries);
    var o := Output(Dir(rs, []), qs);
    assert o + [] == o && [] + EncodeAll(entries) == EncodeAll(entries);
  }

  lemma {:induction false} AllGot(entries: seq<Entry>, rs: seq<Read>)
    requires |rs| == |entries| && forall i :: 0 <= i < |entries| ==> rs[i] == Got(entries[i])
    ensures Entries(rs) == entries
  {
    if rs != [] { AllGot(entries[1..], rs[1..]); }
  }
}
