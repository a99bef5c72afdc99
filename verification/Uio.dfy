/** struct uio with its one iovec (kern/userprog/uio.c): a cursor over a caller's memory. */
module Uios {
  import opened Bytes

  datatype Direction = Read | Write

  /** offset, resid: position in the file and bytes still wanted.  mem, pos: the caller's memory
      and the place in it the iovec points at.  Bytes of mem from limit on are not accessible
      (limit is |mem| for kernel memory). */
  datatype Cursor = Cursor(rw: Direction, offset: int, resid: int, mem: seq<Byte>, pos: int, limit: int)

  ghost predicate CursorOk(c: Cursor) {
    0 <= c.offset && 0 <= c.resid && 0 <= c.pos && c.pos + c.resid <= |c.mem| && 0 <= c.limit <= |c.mem|
  }

  /** r with its bytes from off on replaced by d */
  function Overlay(r: seq<Byte>, off: int, d: seq<Byte>): (r': seq<Byte>)
    requires 0 <= off && (d == [] || off + |d| <= |r|)
    ensures |r'| == |r|
  {
    if d == [] then r else r[..off] + d + r[off + |d|..]
  }

  lemma OverlayTwice(r: seq<Byte>, off: int, d: seq<Byte>, e: seq<Byte>)
    requires 0 <= off && (d + e == [] || off + |d| + |e| <= |r|)
    ensures Overlay(Overlay(r, off, d), off + |d|, e) == Overlay(r, off, d + e)
  {
    if d == [] {
      assert d + e == e;
    } else if e == [] {
      assert d + e == d;
    }
  }

  /** c after transferring the bytes d; a read stores them, a write leaves the memory alone. */
  function Advance(c: Cursor, d: seq<Byte>): Cursor
    requires 0 <= c.pos && (d == [] || c.pos + |d| <= |c.mem|)
  {
    c.(offset := c.offset + |d|, resid := c.resid - |d|, pos := c.pos + |d|,
       mem := if c.rw.Read? then Overlay(c.mem, c.pos, d) else c.mem)
  }

  lemma AdvanceTwice(c: Cursor, d: seq<Byte>, e: seq<Byte>)
    requires CursorOk(c) && |d| + |e| <= c.resid
    ensures Advance(Advance(c, d), e) == Advance(c, d + e)
  {
    OverlayTwice(c.mem, c.pos, d, e);
  }

  function Least(a: int, b: int): int {
    if a < b then a else b
  }

  lemma NoZeros(c: Cursor)
    requires CursorOk(c)
    ensures Advance(c, Zeros(0)) == c
  {
  }

  lemma ZerosFacts(c: Cursor, m: int, k: int)
    requires CursorOk(c) && 0 <= m && 0 <= k && m <= c.resid
    ensures var a := Advance(c, Zeros(m));
            && CursorOk(a) && a.rw == c.rw && a.limit == c.limit && |a.mem| == |c.mem|
            && a.pos == c.pos + m && a.resid == c.resid - m
            && (m + k <= c.resid ==> Advance(a, Zeros(k)) == Advance(c, Zeros(m + k)))
  {
    if m + k <= c.resid {
      AdvanceTwice(c, Zeros(m), Zeros(k));
      assert Zeros(m) + Zeros(k) == Zeros(m + k);
    }
  }

  class Uio {
    var c: Cursor

    constructor (rw: Direction, offset: int, mem: seq<Byte>)
      ensures c == Cursor(rw, offset, |mem|, mem, 0, |mem|)
    {
      c := Cursor(rw, offset, |mem|, mem, 0, |mem|);
    }

    /** uiomove: transfer as much of a kernel buffer as is still to be moved.  It fails, moving nothing,
        exactly when some byte is needed and the last one is not accessible. */
    method Move(buf: seq<Byte>) returns (fault: bool, out: seq<Byte>)
      requires CursorOk(c) && (|buf| <= c.resid || |c.mem| - c.pos == c.resid)
      modifies this
      ensures var k := Least(|buf|, old(c).resid);
              && CursorOk(c) && (fault <==> k > 0 && old(c).pos + k > old(c).limit)
              && (fault ==> c == old(c)) && |out| == |buf| && (!fault ==> c == Advance(old(c), out[..k]))
              && out == if fault || old(c).rw.Read? then buf else old(c).mem[old(c).pos..old(c).pos + k] + buf[k..]
      ensures |buf| <= old(c).resid && !fault ==>
        c == Advance(old(c), out) && (old(c).rw.Write? ==> out == old(c).mem[old(c).pos..old(c).pos + |buf|])
    {
      var n := |buf|;
      ghost var k := Least(|buf|, c.resid);
      out := buf;
      fault := false;
      while n > 0 && c.resid > 0
        invariant n == |buf| || n == |buf| - k
        invariant |out| == |buf| && CursorOk(c) && c.rw == old(c).rw
        invariant n == |buf| ==> c == old(c) && out == buf
        invariant n < |buf| ==> 0 < k && (n == 0 || c.resid == 0) && old(c).pos + k <= old(c).limit
        invariant n < |buf| ==> c == Advance(old(c), out[..k])
        invariant n < |buf| ==> out == if c.rw.Read? then buf else old(c).mem[old(c).pos..old(c).pos + k] + buf[k..]
        decreases n
      {
        hide Overlay;
        var iovlen := |c.mem| - c.pos;
        var size := if iovlen > n then n else iovlen;
        assert size == k;
        fault, out := Piece(buf, size);
        if fault {
          return;
        }
        n := n - size;
      }
      assert |buf| <= old(c).resid ==> out[..k] == out && buf[k..] == [];
    }

    /** One turn of the loop in uiomove. */
    method Piece(buf: seq<Byte>, size: int) returns (fault: bool, out: seq<Byte>)
      requires CursorOk(c) && 0 < size <= |buf| && size <= c.resid
      modifies this
      ensures CursorOk(c) && (fault <==> old(c).pos + size > old(c).limit) && (fault ==> c == old(c))
      ensures |out| == |buf| && (!fault ==> c == Advance(old(c), out[..size]))
      ensures out == if fault || old(c).rw.Read? then buf else old(c).mem[old(c).pos..old(c).pos + size] + buf[size..]
    {
      out := buf;
      if c.pos + size > c.limit {
        return true, out;
      }
      if c.rw.Read? {
        c := c.(mem := Overlay(c.mem, c.pos, buf[..size]));
      } else {
        out := c.mem[c.pos..c.pos + size] + buf[size..];
      }
      c := c.(pos := c.pos + size, resid := c.resid - size, offset := c.offset + size);
      fault := false;
    }

    /** uiomovezeros: n zero bytes to a reader, as far as it wants them, sixteen at a time; m of them
        arrive. */
    method MoveZeros(n: int) returns (fault: bool, ghost m: int)
      requires CursorOk(c) && c.rw.Read? && 0 <= n && (n <= c.resid || |c.mem| - c.pos == c.resid)
      modifies this
      ensures CursorOk(c) && 0 <= m <= Least(n, old(c).resid) && (fault <==> m < Least(n, old(c).resid)) &&
        (fault ==> c.limit < |c.mem|)
      ensures c == Advance(old(c), Zeros(m))
    {
      hide Advance, Overlay;
      var left := n;
      m := 0;
      ghost var c0 := c;
      NoZeros(c);
      while left > 0
        invariant 0 <= left <= n && m == Least(n - left, c0.resid) && c == Advance(c0, Zeros(m))
      {
        var amt := if 16 > left then left else 16;
        var out;
        ZerosFacts(c0, m, 0);
        ghost var k := Least(amt, c.resid);
        ZerosFacts(c0, m, k);
        fault, out := Move(Zeros(amt));
        if fault {
          return;
        }
        assert out[..k] == Zeros(k);
        left := left - amt;
        m := m + k;
      }
      ZerosFacts(c0, m, 0);
      fault := false;
    }
  }
}
