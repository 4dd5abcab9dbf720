/** The circular arrays behind RingBuffer and BlockBuffer: what a window of an
    array means, and the two block copies (fill and drain) both buffers use. */
module Circular {
  import opened Common

  /** Slot of the i-th element of a window that starts at slot h. */
  function Slot(h: nat, i: nat, n: nat): (k: nat)
    requires h < n && i <= n
    ensures i < n ==> k < n
  {
    if h + i < n then h + i else h + i - n
  }

  /** The len elements found by walking a from slot h, wrapping at the end. */
  function Window<T>(a: seq<T>, h: nat, len: nat): (w: seq<T>)
    requires h < |a| && len <= |a|
    ensures |w| == len
  {
    seq(len, i requires 0 <= i < len => a[Slot(h, i, |a|)])
  }

  /** Advancing a counter by at most one lap moves its slot as `Slot` says. */
  lemma AdvanceSlot(c: nat, d: nat, n: nat)
    requires 0 < n && d <= n
    ensures c % n < n
    ensures (c + d) % n == if d == n then c % n else Slot(c % n, d, n)
  {
    var q, h := c / n, c % n;
    assert c == q * n + h;
    if h + d < n {
      ModIs(c + d, q, h + d, n);
    } else {
      assert c + d == (q + 1) * n + (h + d - n);
      ModIs(c + d, q + 1, h + d - n, n);
    }
  }

  /** The array a with src written from slot lo on. */
  function Splice<T>(a: seq<T>, lo: nat, src: seq<T>): (r: seq<T>)
    requires lo + |src| <= |a|
    ensures |r| == |a|
  {
    a[..lo] + src + a[lo + |src|..]
  }

  /** The builtin block copy: as many elements of src as fit in dst[lo..hi]. */
  method Copy<T>(dst: array<T>, lo: nat, hi: nat, src: seq<T>) returns (n: nat)
    requires lo <= hi <= dst.Length
    modifies dst
    ensures n == Min(hi - lo, |src|)
    ensures dst[..] == Splice(old(dst[..]), lo, src[..n])
  {
    n := Min(hi - lo, |src|);
    forall i | 0 <= i < n {
      dst[lo + i] := src[i];
    }
  }

  /** How far slot k lies ahead of slot h. */
  function Ahead(h: nat, k: nat, n: nat): (i: nat)
    requires h < n && k < n
    ensures i < n && Slot(h, i, n) == k
  {
    if h <= k then k - h else k + n - h
  }

  /** The array a with p written over the slots from h on, wrapping at the end. */
  function Overlay<T>(a: seq<T>, h: nat, p: seq<T>): (r: seq<T>)
    requires h < |a| && |p| <= |a|
    ensures |r| == |a|
  {
    seq(|a|, k requires 0 <= k < |a| => if Ahead(h, k, |a|) < |p| then p[Ahead(h, k, |a|)] else a[k])
  }

  /** Writing right behind a window extends it. */
  lemma OverlayExtends<T>(a: seq<T>, h: nat, len: nat, p: seq<T>)
    requires h < |a| && len + |p| <= |a| && len < |a|
    ensures Window(Overlay(a, Slot(h, len, |a|), p), h, len + |p|) == Window(a, h, len) + p
  {
  }

  lemma OverlayStraight<T>(a: seq<T>, h: nat, p: seq<T>)
    requires h < |a| && h + |p| <= |a|
    ensures Splice(a, h, p) == Overlay(a, h, p)
  {
  }

  lemma OverlayWrapped<T>(a: seq<T>, h: nat, p: seq<T>, q: seq<T>)
    requires h < |a| && |p| == |a| - h && |q| <= h
    ensures Splice(Overlay(a, h, p), 0, q) == Overlay(a, h, p + q)
  {
  }

  /** Copies into the free part of a ring: avail slots from slot tail on. */
  method Fill<T>(buf: array<T>, tail: nat, avail: nat, p: seq<T>) returns (n: nat)
    requires tail < buf.Length && avail <= buf.Length
    modifies buf
    ensures n == Min(avail, |p|)
    ensures buf[..] == Overlay(old(buf[..]), tail, p[..n])
  {
    ghost var a := buf[..];
    if tail + avail <= buf.Length {
      n := Copy(buf, tail, tail + avail, p);
      OverlayStraight(a, tail, p[..n]);
    } else {
      n := Copy(buf, tail, buf.Length, p);
      OverlayStraight(a, tail, p[..n]);
      ghost var first := n;
      var m := Copy(buf, 0, avail - n, p[n..]);
      if |p| <= first {
        assert m == 0 && buf[..] == Overlay(a, tail, p[..n]);
      } else {
        OverlayWrapped(a, tail, p[..first], p[first..][..m]);
        assert p[..first + m] == p[..first] + p[first..][..m];
      }
      n := n + m;
    }
  }

  lemma WindowPieces<T>(a: seq<T>, h: nat, len: nat)
    requires h < |a| && len <= |a|
    ensures Window(a, h, len) == if h + len <= |a| then a[h..h + len] else a[h..] + a[..h + len - |a|]
  {
  }

  lemma SpliceTwice<T>(p: seq<T>, x: seq<T>, y: seq<T>)
    requires |x| + |y| <= |p|
    ensures Splice(Splice(p, 0, x), |x|, y) == x + y + p[|x| + |y|..]
  {
  }

  /** Copies a window of a ring out into p, as far as p reaches. */
  method Drain<T>(buf: array<T>, head: nat, avail: nat, p: array<T>) returns (n: nat)
    requires head < buf.Length && avail <= buf.Length && p != buf
    modifies p
    ensures n == Min(avail, p.Length)
    ensures p[..] == Window(buf[..], head, avail)[..n] + old(p[..])[n..]
  {
    WindowPieces(buf[..], head, avail);
    if head + avail <= buf.Length {
      n := Copy(p, 0, p.Length, buf[head..head + avail]);
    } else {
      n := DrainPieces(p, buf[head..], buf[..avail - (buf.Length - head)]);
    }
  }

  /** p is full after the first piece: the second copy moves nothing. */
  lemma FullAfterFirst<T>(p: seq<T>, x: seq<T>, y: seq<T>, p': seq<T>)
    requires |p| <= |x| && p' == Splice(Splice(p, 0, x[..|p|]), |p|, y[..0])
    ensures p' == (x + y)[..|p|] + p[|p|..]
  {
    assert (x + y)[..|p|] == x[..|p|];
  }

  /** There is room behind the first piece: m elements of the second follow it. */
  lemma BothPieces<T>(p: seq<T>, x: seq<T>, y: seq<T>, m: nat, p': seq<T>)
    requires m <= |y| && |x| + m <= |p| && p' == Splice(Splice(p, 0, x), |x|, y[..m])
    ensures p' == (x + y)[..|x| + m] + p[|x| + m..]
  {
    SpliceTwice(p, x, y[..m]);
    assert (x + y)[..|x| + m] == x + y[..m];
  }

  /** The two copies of a wrapped window. What the second piece holds in the source may
      be longer when p is full after the first; nothing of it is copied then. */
  method DrainPieces<T>(p: array<T>, x: seq<T>, y: seq<T>) returns (n: nat)
    modifies p
    ensures n == Min(|x| + |y|, p.Length)
    ensures p[..] == (x + y)[..n] + old(p[..])[n..]
  {
    ghost var p0 := p[..];
    n := Copy(p, 0, p.Length, x);
    var m := Copy(p, n, p.Length, y);
    if p.Length <= |x| {
      FullAfterFirst(p0, x, y, p[..]);
    } else {
      assert x[..n] == x;
      BothPieces(p0, x, y, m, p[..]);
    }
    n := n + m;
  }

  /** Both parts of a window that starts at one slot and is read from a later one. */
  lemma WindowSplit<T>(a: seq<T>, h: nat, len: nat, d: nat)
    requires h < |a| && d <= len <= |a|
    ensures var h' := if d == |a| then h else Slot(h, d, |a|);
      && Window(a, h, len)[..d] == Window(a, h, d)
      && Window(a, h, len)[d..] == Window(a, h', len - d)
  {
  }

  /** Moving the head counter forward drops that many elements from the front. */
  lemma WindowAdvance<T>(a: seq<T>, head: nat, len: nat, n: nat)
    requires 0 < |a| && len <= |a|
    ensures head % |a| < |a|
    ensures var d := Min(n, len);
      Window(a, head % |a|, len)[d..] == Window(a, (head + d) % |a|, len - d)
  {
    AdvanceSlot(head, Min(n, len), |a|);
    WindowSplit(a, head % |a|, len, Min(n, len));
  }

  /** The slice between the slots of head and tail, as `Bytes` cuts it: the window,
      except that an empty window is taken for a full one. */
  lemma SliceIsWindow<T>(a: seq<T>, h: nat, len: nat)
    requires h < |a| && len <= |a|
    ensures var t := if len == |a| then h else Slot(h, len, |a|);
      (if h < t then a[h..t] else a[h..] + a[..t]) == Window(a, h, if len == 0 then |a| else len)
  {
    WindowPieces(a, h, if len == 0 then |a| else len);
    if 0 < len && h + len == |a| {
      assert a[h..] + a[..0] == a[h..];
    }
  }

  /** Moving the head counter back brings stale elements in front of the window. */
  lemma WindowRetreat<T>(a: seq<T>, head: nat, len: nat, d: nat)
    requires 0 < |a| && d <= head && len + d <= |a|
    ensures Window(a, (head - d) % |a|, len + d)[d..] == Window(a, head % |a|, len)
  {
    WindowAdvance(a, head - d, len + d, d);
  }

  /** Moving the head counter by n either way. */
  lemma WindowMoved<T>(a: seq<T>, head: nat, len: nat, n: int)
    requires 0 < |a| && len <= |a| && -n <= head && n <= len && len - n <= |a|
    ensures var (w, w') := (Window(a, head % |a|, len), Window(a, (head + n) % |a|, len - n));
      if n >= 0 then w' == w[n..] else w'[-n..] == w
  {
    if n >= 0 {
      WindowAdvance(a, head, len, n);
    } else {
      WindowRetreat(a, head, len, -n);
    }
  }

  /** `Bytes` of both buffers: what lies between the slots of head and tail. An empty
      window and a full one look the same there, and both yield the whole array. */
  method Between<T>(buf: array<T>, head: nat, tail: nat) returns (s: seq<T>)
    requires 0 < buf.Length && head <= tail <= head + buf.Length
    ensures s == Window(buf[..], head % buf.Length, if head == tail then buf.Length else tail - head)
  {
    AdvanceSlot(head, tail - head, buf.Length);
    var h := head % buf.Length;
    var t := tail % buf.Length;
    SliceIsWindow(buf[..], h, tail - head);
    if h < t {
      return buf[h..t];
    }
    return buf[h..] + buf[..t];
  }
}
