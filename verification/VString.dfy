/** The growing buffer of src/util/vstring.c and src/util/vbuf.c, with the macros
    of vbuf.h and vstring.h: a byte sequence whose appends cost amortised O(1). */
module VString {

  /** A C string: the bytes in front of the first NUL. */
  function CString(s: seq<bv8>): (t: seq<bv8>)
    ensures t <= s && 0 !in t
    ensures |t| < |s| ==> s[|t|] == 0
  {
    if s == [] || s[0] == 0 then [] else [s[0]] + CString(s[1..])
  }

  /** The first n bytes of what is at s; a negative n means none. */
  function Upto(s: seq<bv8>, n: int): seq<bv8> {
    if n <= 0 then [] else if n < |s| then s[..n] else s
  }

  /** myrealloc to a larger size: all bytes of the old block move. */
  method Realloc(block: array<bv8>, n: nat) returns (r: array<bv8>)
    requires n >= block.Length
    ensures fresh(r) && r.Length == n && r[..block.Length] == block[..]
  {
    r := new bv8[n](i => 0);
    var i := 0;
    while i < block.Length
      invariant 0 <= i <= block.Length && r[..i] == block[..i]
    {
      r[i] := block[i];
      i := i + 1;
    }
  }

  class VBuf {
    var data: array<bv8>
    var len: nat           // size of the allocation
    var cnt: nat           // room left behind ptr
    var ptr: nat           // write position, as an offset into data
    ghost const first: nat // size of the first allocation
    ghost var copied: nat  // bytes moved by all extensions so far
    ghost var written: nat // bytes appended so far

    /** used + cnt = len, and the extensions together moved less than one buffer. */
    ghost predicate Valid()
      reads this
    {
      data.Length == len && len >= 1 && ptr + cnt == len
      && first >= 1 && copied + first <= len
    }

    /** Extensions move fewer than two bytes for each byte ever appended. */
    ghost predicate Paid()
      reads this
    {
      copied <= 2 * written && ptr <= written
    }

    ghost function Contents(): seq<bv8>
      requires Valid()
      reads this, data
    {
      data[..ptr]
    }

    /** vstring_alloc, for a positive length. */
    constructor (n: nat)
      requires n >= 1
      ensures Valid() && Paid() && Contents() == [] && fresh(data) && len == n && Terminated()
      ensures copied == 0 && written == 0
    {
      data := new bv8[n](_ => 0);
      len, cnt, ptr := n, n, 0;
      first, copied, written := n, 0, 0;
    }

    /** The byte behind the contents is a NUL. */
    ghost predicate Terminated()
      requires Valid()
      reads this, data
    {
      cnt > 0 && data[ptr] == 0
    }

    /** vstring_extend: at least double the buffer. */
    method Extend(incr: nat)
      requires Valid()
      modifies `data, `len, `cnt, `copied
      ensures Valid() && fresh(data) && Contents() == old(Contents())
      ensures len == old(len) + (if old(len) > incr then old(len) else incr)
      ensures copied == old(copied) + old(len)
    {
      var used := ptr;
      len := len + (if len > incr then len else incr);
      copied := copied + data.Length;
      data := Realloc(data, len);
      cnt := len - used;
    }

    /** VBUF_PUT, with vbuf_put for a full buffer. */
    method AddCh(ch: bv8)
      requires Valid() && Paid()
      modifies this, data
      ensures Valid() && Paid() && Contents() == old(Contents()) + [ch]
      ensures written == old(written) + 1 && (data == old(data) || fresh(data))
    {
      if cnt == 0 { Extend(0); }
      cnt := cnt - 1;
      data[ptr] := ch;
      ptr := ptr + 1;
      written := written + 1;
    }

    /** vbuf_write: fill the room, extend, and go on until all is written. */
    method Write(buf: seq<bv8>) returns (n: nat)
      requires Valid() && Paid()
      modifies this, data
      ensures Valid() && Paid() && n == |buf| && Contents() == old(Contents()) + buf
      ensures written == old(written) + |buf| && (data == old(data) || fresh(data))
    {
      n := 0;
      while n < |buf|
        invariant 0 <= n <= |buf| && Valid() && Paid()
        invariant Contents() == old(Contents()) + buf[..n] && written == old(written) + n
        invariant data == old(data) || fresh(data)
      {
        if cnt == 0 { Extend(0); }
        var k := if |buf| - n < cnt then |buf| - n else cnt;
        CopyIn(buf[n..n + k]);
        assert buf[..n + k] == buf[..n] + buf[n..n + k];
        n := n + k;
      }
      assert buf[..n] == buf;
    }

    /** memcpy to the write position, which then moves behind the bytes. */
    method CopyIn(src: seq<bv8>)
      requires Valid() && |src| <= cnt
      modifies `ptr, `cnt, `written, data
      ensures Valid() && Contents() == old(Contents()) + src
      ensures ptr == old(ptr) + |src| && written == old(written) + |src|
    {
      forall i | 0 <= i < |src| { data[ptr + i] := src[i]; }
      ptr, cnt := ptr + |src|, cnt - |src|;
      written := written + |src|;
    }

    /** VSTRING_SPACE: room for n bytes. */
    method Space(n: nat)
      requires Valid()
      modifies `data, `len, `cnt, `copied
      ensures Valid() && cnt >= n && Contents() == old(Contents())
      ensures if n <= old(cnt) then unchanged(`data, `len, `cnt, `copied)
              else fresh(data) && copied == old(copied) + old(len)
                   && len == old(len) + if old(len) > n - old(cnt) then old(len) else n - old(cnt)
    {
      if n > cnt { Extend(n - cnt); }
    }

    /** VSTRING_TERMINATE */
    method Terminate()
      requires Valid() && Paid()
      modifies `data, `len, `cnt, `copied, data
      ensures Valid() && Paid() && Terminated() && Contents() == old(Contents())
      ensures (data == old(data) || fresh(data)) && len == if old(cnt) == 0 then 2 * old(len) else old(len)
    {
      if cnt == 0 { Space(1); }
      data[ptr] := 0;
    }

    /** VSTRING_RESET */
    method Reset()
      requires Valid()
      modifies `ptr, `cnt
      ensures Valid() && Contents() == [] && (old(Paid()) ==> Paid())
    {
      ptr, cnt := 0, len;
    }

    /** vstring_truncate: shorten to at most n bytes. */
    method Truncate(n: nat)
      requires Valid()
      modifies `ptr, `cnt
      ensures Valid() && Contents() == Upto(old(Contents()), n) && (old(Paid()) ==> Paid())
    {
      if n < ptr { ptr, cnt := n, len - n; }
    }

    /** vstring_strcat */
    method Strcat(src: seq<bv8>)
      requires Valid() && Paid() && 0 in src
      modifies this, data
      ensures Valid() && Paid() && Terminated() && Contents() == old(Contents()) + CString(src)
      ensures data == old(data) || fresh(data)
    {
      var i := 0;
      while src[i] != 0
        invariant 0 <= i <= |CString(src)| < |src| && Valid() && Paid()
        invariant Contents() == old(Contents()) + CString(src)[..i]
        invariant data == old(data) || fresh(data)
        decreases |src| - i
      {
        AddCh(src[i]);
        i := i + 1;
      }
      assert i == |CString(src)|;
      Terminate();
    }

    /** vstring_strncat: at most n bytes of the string. */
    method Strncat(src: seq<bv8>, n: int)
      requires Valid() && Paid() && (0 in src || n <= |src|)
      modifies this, data
      ensures Valid() && Paid() && Terminated()
      ensures Contents() == old(Contents()) + CString(Upto(src, n))
      ensures data == old(data) || fresh(data)
    {
      ghost var all := CString(Upto(src, n));
      CStringUpto(src, n);
      var i, left := 0, n;
      while left > 0 && src[i] != 0
        invariant 0 <= i <= |all| && left == n - i && Valid() && Paid()
        invariant Contents() == old(Contents()) + all[..i]
        invariant data == old(data) || fresh(data)
        decreases left
      {
        assert i < |all| && all[i] == src[i];
        AddCh(src[i]);
        assert all[..i + 1] == all[..i] + [src[i]];
        i, left := i + 1, left - 1;
      }
      assert all[..i] == all;
      Terminate();
    }

    /** vstring_strcpy */
    method Strcpy(src: seq<bv8>)
      requires Valid() && Paid() && 0 in src
      modifies this, data
      ensures Valid() && Paid() && Terminated() && Contents() == CString(src)
      ensures CString(data[..]) == CString(src)
      ensures data == old(data) || fresh(data)
    {
      Reset();
      Strcat(src);
      assert data[..] == Contents() + [0] + data[ptr + 1..];
      ReadBack(Contents(), data[ptr + 1..]);
    }

    /** vstring_strncpy */
    method Strncpy(src: seq<bv8>, n: int)
      requires Valid() && Paid() && (0 in src || n <= |src|)
      modifies this, data
      ensures Valid() && Paid() && Terminated() && Contents() == CString(Upto(src, n))
      ensures data == old(data) || fresh(data)
    {
      Reset();
      Strncat(src, n);
    }

    /** vstring_memcat */
    method Memcat(src: seq<bv8>)
      requires Valid() && Paid()
      modifies this, data
      ensures Valid() && Paid() && Contents() == old(Contents()) + src
      ensures data == old(data) || fresh(data)
    {
      Space(|src|);
      CopyIn(src);
    }

    /** vstring_memcpy */
    method Memcpy(src: seq<bv8>)
      requires Valid() && Paid()
      modifies this, data
      ensures Valid() && Paid() && Contents() == src
      ensures data == old(data) || fresh(data)
    {
      Reset();
      Space(|src|);
      CopyIn(src);
    }
  }

  /** Where reading at most n bytes of a string stops. */
  lemma CStringUpto(src: seq<bv8>, n: int)
    requires 0 in src || n <= |src|
    ensures var t := CString(Upto(src, n));
      && t <= src && |t| <= (if n < 0 then 0 else n)
      && (|t| < n ==> |t| < |src| && src[|t|] == 0)
  {
    var u := Upto(src, n);
    var t := CString(u);
    assert u <= src;
    assert |u| < n ==> u == src;
    assert 0 in src && u == src ==> |t| < |u|;
  }

  /** Reading a terminated buffer back gives the contents, when they hold no NUL. */
  lemma {:induction false} ReadBack(s: seq<bv8>, rest: seq<bv8>)
    requires 0 !in s
    ensures CString(s + [0] + rest) == s
  {
    if s == [] {
    } else {
      assert (s + [0] + rest)[1..] == s[1..] + [0] + rest;
      ReadBack(s[1..], rest);
    }
  }
}
