/** runit's input buffer: what has been read and not yet delivered lies at the right end
    of its memory. */
module BufferGet {

  type Data = seq<int>

  /** byte_copyr: backwards, so that the end of the source may be overwritten. */
  method ByteCopyr(a: array<int>, to: nat, n: nat, from: nat)
    requires to + n <= a.Length && from + n <= a.Length && (from <= to || to + n <= from)
    modifies a
    ensures a[to..to + n] == old(a[from..from + n])
    ensures forall i | 0 <= i < a.Length && !(to <= i < to + n) :: a[i] == old(a[i])
  {
    ghost var was := a[from..from + n];
    var left: nat := n;
    while left > 0
      invariant left <= n
      invariant forall j | to + left <= j < to + n :: a[j] == old(a[j - to + from])
      invariant forall i | 0 <= i < a.Length && !(to + left <= i < to + n) :: a[i] == old(a[i])
    {
      left := left - 1;
      a[to + left] := a[from + left];
    }
    forall i | 0 <= i < n ensures a[to..to + n][i] == was[i] {
      assert a[to..to + n][i] == a[to + i];
    }
  }

  /** byte_copy between two pieces of memory. */
  method ByteCopy(to: array<int>, n: nat, from: array<int>, start: nat)
    requires to != from && n <= to.Length && start + n <= from.Length
    modifies to
    ensures to[..n] == from[start..start + n]
    ensures forall i | n <= i < to.Length :: to[i] == old(to[i])
  {
    var k := 0;
    while k < n
      invariant k <= n && to[..k] == from[start..start + k]
      invariant forall i | k <= i < to.Length :: to[i] == old(to[i])
    {
      to[k] := from[start + k];
      k := k + 1;
    }
  }

  class Buffer {
    const x: array<int>
    /** Reading does not fail. */
    const reliable: bool
    var p: nat
    var n: nat
    /** What the file descriptor will still deliver. */
    var unread: Data
    ghost var delivered: Data
    ghost const stream: Data

    /** Bytes delivered, bytes held at the right end, and bytes not yet read make up the
        whole stream, in this order. */
    ghost predicate Valid()
      reads this, x
    {
      x.Length > 0 && n + p == x.Length && delivered + x[n..] + unread == stream
    }

    /** buffer_init */
    constructor (size: nat, stream: Data, reliable: bool)
      requires size > 0
      ensures Valid() && p == 0 && unread == this.stream == stream && delivered == [] && fresh(x) && x.Length == size
      ensures this.reliable == reliable
    {
      x := new int[size];
      p, n := 0, size;
      unread, delivered := stream, [];
      this.stream, this.reliable := stream, reliable;
      new;
      assert x[n..] == [];
    }

    /** oneread: some bytes, none at the end of the stream, or an error. */
    method OneRead(buf: array<int>, len: nat) returns (r: int)
      requires len <= buf.Length
      modifies this`unread, buf
      ensures -1 <= r <= len && (r == 0 ==> len == 0 || old(unread) == []) && (reliable ==> r >= 0)
      ensures r <= 0 ==> unread == old(unread) && buf[..] == old(buf[..])
      ensures r > 0 ==> r <= |old(unread)| && buf[..r] == old(unread)[..r] && unread == old(unread)[r..]
      ensures forall i | (if r > 0 then r else 0) <= i < buf.Length :: buf[i] == old(buf[i])
    {
      r := *;
      if r < 0 && !reliable {
        r := -1;
        return;
      }
      if r <= 0 || r > len {
        r := len;
      }
      if r > |unread| {
        r := |unread|;
      }
      var k := 0;
      while k < r
        invariant 0 <= k <= r <= |unread| && unread == old(unread) && buf[..k] == unread[..k]
        invariant forall i | k <= i < buf.Length :: buf[i] == old(buf[i])
      {
        buf[k] := unread[k];
        k := k + 1;
      }
      unread := unread[r..];
    }

    /** getthis */
    method GetThis(buf: array<int>, most: nat) returns (len: nat)
      requires Valid() && buf != x && most <= buf.Length
      modifies this`p, this`n, this`delivered, buf
      ensures Valid() && len == if most > old(p) then old(p) else most
      ensures delivered == old(delivered) + buf[..len] && p == old(p) - len
    {
      len := most;
      if len > p {
        len := p;
      }
      p := p - len;
      ByteCopy(buf, len, x, n);
      Taken(delivered, x[n..], len, unread);
      assert x[n..][len..] == x[n + len..];
      n := n + len;
      delivered := delivered + buf[..len];
    }

    static lemma Taken(before: Data, held: Data, len: nat, rest: Data)
      requires len <= |held|
      ensures before + held[..len] + held[len..] + rest == before + held + rest
    {
    }

    /** buffer_feed */
    method Feed() returns (r: int)
      requires Valid()
      modifies this`p, this`n, this`unread, x
      ensures Valid() && delivered == old(delivered) && -1 <= r
      ensures r > 0 ==> r == p
      ensures r <= 0 ==> p == 0 && unread == old(unread)
      ensures (r == 0 ==> unread == []) && (reliable ==> r >= 0) &&
              (old(p) > 0 ==> r == old(p) && unread == old(unread))
    {
      if p != 0 {
        return p;
      }
      assert x[n..] == [];
      r := OneRead(x, n);
      if r <= 0 {
        assert x[n..] == [];
        return;
      }
      ghost var got := x[..r];
      p := r;
      n := n - r;
      RightJustify(r);
      Shifted(delivered, got, unread, old(unread));
    }

    /** The bytes go from the left end of the memory to the right end. */
    method RightJustify(r: nat)
      requires r <= x.Length && n == x.Length - r
      modifies x
      ensures x[n..] == old(x[..r])
    {
      if n > 0 {
        ByteCopyr(x, n, r, 0);
        assert x[n..] == x[n..n + r];
        assert old(x[..r]) == old(x[0..0 + r]);
      }
    }

    static lemma Shifted(before: Data, got: Data, rest: Data, all: Data)
      requires |got| <= |all| && got == all[..|got|] && rest == all[|got|..]
      ensures before + got + rest == before + [] + all
    {
      assert all == got + rest;
    }

    /** buffer_get, and with "bounded" buffer_bget, which reads no more than the size of
        the buffer into the caller's memory. */
    method Get(buf: array<int>, len: nat, bounded: bool) returns (r: int)
      requires Valid() && buf != x && len <= buf.Length
      modifies this`p, this`n, this`unread, this`delivered, x, buf
      ensures Valid() && -1 <= r <= len
      ensures delivered == old(delivered) + if r > 0 then buf[..r] else []
      ensures r == 0 && len > 0 ==> p == 0 && unread == []
      ensures old(p) > 0 ==> r == (if len > old(p) then old(p) else len) && unread == old(unread)
      ensures reliable ==> r >= 0
    {
      if p > 0 {
        r := GetThis(buf, len);
        return;
      }
      if n <= len {
        assert x[n..] == [];
        r := OneRead(buf, if bounded then n else len);
        if r > 0 {
          delivered := delivered + buf[..r];
          assert old(unread) == buf[..r] + unread;
          assert old(delivered) + [] + old(unread) == old(delivered) + (buf[..r] + unread);
        }
        assert x[n..] == [];
        return;
      }
      r := Feed();
      if r <= 0 {
        return;
      }
      r := GetThis(buf, len);
    }

    /** buffer_peek and buffer_seek: what lies at n is taken without being copied. */
    method Seek(len: nat)
      requires Valid() && len <= p
      modifies this`p, this`n, this`delivered
      ensures Valid() && p == old(p) - len && delivered == old(delivered) + x[old(n)..old(n) + len]
    {
      assert x[n..] == x[n..n + len] + x[n + len..];
      delivered := delivered + x[n..n + len];
      n := n + len;
      p := p - len;
    }

    /** The macro buffer_GETC. */
    method Getc(c: array<int>) returns (r: int)
      requires Valid() && c != x && c.Length == 1
      modifies this`p, this`n, this`unread, this`delivered, x, c
      ensures Valid() && -1 <= r <= 1
      ensures delivered == old(delivered) + if r > 0 then [c[0]] else []
      ensures r == 0 ==> p == 0 && unread == []
      ensures (old(p) > 0 ==> r == 1 && unread == old(unread)) && (reliable ==> r >= 0)
    {
      if p > 0 {
        c[0] := x[n];
        assert x[n..n + 1] == [x[n]];
        Seek(1);
        r := 1;
      } else {
        r := Get(c, 1, false);
        assert c[..1] == [c[0]];
      }
    }
  }
}
