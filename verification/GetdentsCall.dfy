/** getdents as it runs: records written into the caller's buffer, the overflow kept in the file. */
module GetdentsCall {
  import opened Sequences
  import opened Getdents

  /** memcpy of a field at `off`. */
  method Copy(buf: array<Byte>, off: nat, s: seq<Byte>)
    requires off + |s| <= buf.Length
    modifies buf
    ensures buf[..off + |s|] == old(buf[..off]) + s
  {
    var i := 0;
    while i < |s|
      invariant i <= |s| && buf[..off + i] == old(buf[..off]) + s[..i]
    {
      buf[off + i] := s[i];
      assert s[..i + 1] == s[..i] + [s[i]];
      assert buf[..off + i + 1] == buf[..off + i] + [s[i]];
      i := i + 1;
    }
  }

  /** encode_dirent: 0 if the record does not fit behind `off`. */
  method EncodeInto(buf: array<Byte>, off: nat, e: Entry) returns (n: nat)
    requires off <= buf.Length
    modifies buf
    ensures n == if off + RecLen(e) <= buf.Length then RecLen(e) else 0
    ensures n > 0 ==> buf[..off + n] == old(buf[..off]) + Encode(e)
    ensures n == 0 ==> buf[..] == old(buf[..])
  {
    hide Little;
    n := RecLen(e);
    if off + n > buf.Length { return 0; }
    ghost var pre := buf[..off];
    var a, b, c, d := Little(e.ino, 8), Little(n, 8), Little(n, 2), Zeros(n - HEADER - |e.name|);
    Copy(buf, off, a);
    Copy(buf, off + 8, b);
    Copy(buf, off + 16, c);
    Copy(buf, off + 18, [e.kind]);
    Copy(buf, off + 19, e.name);
    Copy(buf, off + 19 + |e.name|, d);
    assert buf[..off + n] == pre + a + b + c + [e.kind] + e.name + d;
    SixParts(pre, a, b, c, [e.kind], e.name, d);
  }

  lemma SixParts(pre: seq<Byte>, a: seq<Byte>, b: seq<Byte>, c: seq<Byte>, k: seq<Byte>, name: seq<Byte>, d: seq<Byte>)
    ensures pre + a + b + c + k + name + d == pre + (a + b + c + k + name + d)
  {
    Assoc(pre + a + b + c + k, name, d);
    Assoc(pre + a + b + c, k, name + d);
    Assoc(pre + a + b, c, k + (name + d));
    Assoc(pre + a, b, c + (k + (name + d)));
    Assoc(pre, a, b + (c + (k + (name + d))));
    Assoc(a + b + c + k, name, d);
    Assoc(a + b + c, k, name + d);
    Assoc(a + b, c, k + (name + d));
    Assoc(a, b, c + (k + (name + d)));
  }

  class File {
    var pending: seq<Read>
    var stash: seq<Byte>

    function Value(): Dir reads this { Dir(pending, stash) }

    method GetDents(buf: array<Byte>, memory: bool) returns (status: Status, out: nat)
      modifies this, buf
      ensures var r := Call(old(Value()), buf.Length, memory);
        Value() == r.d && status == r.status && out == |r.out| && out <= buf.Length && buf[..out] == r.out
    {
      out := 0;
      if buf.Length == 0 || |stash| > buf.Length { return Invalid, 0; }
      ghost var d0 := Value();
      Copy(buf, 0, stash);
      assert buf[..|stash|] == stash;
      out, stash := |stash|, [];
      status := Ok;
      var more := true;
      while more
        invariant out <= buf.Length
        invariant more ==> stash == [] && Pull(Value(), buf[..out], buf.Length, memory) == Call(d0, buf.Length, memory)
        invariant !more ==> Reply(Value(), status, buf[..out]) == Call(d0, buf.Length, memory)
        decreases more, |pending|
      {
        if pending == [] {
          status, more := Ok, false;
        } else {
          var next := pending[0];
          pending := pending[1..];
          if next.Failed? {
            status, more := Error, false;
          } else {
            status, out, more := Take(buf, out, next.e, memory);
          }
        }
      }
    }

    /** One entry: into the buffer, into the stash, or an error. */
    method Take(buf: array<Byte>, out: nat, e: Entry, memory: bool) returns (status: Status, out': nat, more: bool)
      requires out <= buf.Length && stash == []
      modifies `stash, buf
      ensures out <= out' <= buf.Length
      ensures if out + RecLen(e) <= buf.Length then more && stash == [] && buf[..out'] == old(buf[..out]) + Encode(e)
              else !more && out' == out && buf[..out] == old(buf[..out])
                   && (if out == 0 then status == Invalid && stash == []
                       else if !memory then status == NoMemory && stash == []
                       else status == Ok && stash == Encode(e))
    {
      hide Encode;
      ghost var whole := buf[..];
      var n := EncodeInto(buf, out, e);
      if n > 0 { return Ok, out + n, true; }
      assert buf[..out] == whole[..out];
      if out == 0 { return Invalid, out, false; }
      if !memory { return NoMemory, out, false; }
      var room := new Byte[RecLen(e)](_ => 0);
      var m := EncodeInto(room, 0, e);
      stash := room[..];
      assert room[..0] == [] && room[..m] == room[..];
      return Ok, out, false;
    }
  }
}
