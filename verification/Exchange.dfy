// The block swap of getopt.c: two adjacent blocks of argv change places, by
// swapping the shorter one with the far end of the longer one.

module Exchange {
  /** The blocks [b, m) and [m, t) of s, exchanged. */
  function Exchanged<T>(s: seq<T>, b: nat, m: nat, t: nat): (r: seq<T>)
    requires b <= m <= t <= |s|
    ensures |r| == |s|
  {
    s[..b] + s[m..t] + s[b..m] + s[t..]
  }

  /** The n elements from x on and those from y on, swapped one by one. */
  ghost predicate Swapped<T>(s: seq<T>, r: seq<T>, x: nat, y: nat, n: nat)
    requires x + n <= y && y + n <= |s|
  {
    && |r| == |s|
    && (forall i {:trigger r[i]} | 0 <= i < |s| ::
          r[i] == if x <= i < x + n then s[i + (y - x)] else if y <= i < y + n then s[i - (y - x)] else s[i])
  }

  lemma BottomShorter<T>(s: seq<T>, r: seq<T>, b: nat, m: nat, t: nat)
    requires b < m < t <= |s| && t - m > m - b
    requires Swapped(s, r, b, t - (m - b), m - b)
    ensures Exchanged(r, b, m, t - (m - b)) == Exchanged(s, b, m, t)
  {
    var u := t - (m - b);
    var p, q := Exchanged(r, b, m, u), Exchanged(s, b, m, t);
    forall k | 0 <= k < |s| ensures p[k] == q[k] {
      if k < b {
      } else if k < b + (u - m) {
        assert p[k] == r[k + (m - b)] && q[k] == s[k + (m - b)];
      } else if k < u {
        assert p[k] == r[k - (u - m)] && q[k] == s[k + (m - b)];
      } else if k < t {
        assert p[k] == r[k] && q[k] == s[k - (t - m)];
      }
    }
  }

  lemma TopShorter<T>(s: seq<T>, r: seq<T>, b: nat, m: nat, t: nat)
    requires b < m < t <= |s| && t - m <= m - b
    requires Swapped(s, r, b, m, t - m)
    ensures Exchanged(r, b + (t - m), m, t) == Exchanged(s, b, m, t)
  {
    var c := b + (t - m);
    var p, q := Exchanged(r, c, m, t), Exchanged(s, b, m, t);
    forall k | 0 <= k < |s| ensures p[k] == q[k] {
      if k < b {
      } else if k < c {
        assert p[k] == r[k] && q[k] == s[k + (m - b)];
      } else if k < c + (t - m) {
        assert p[k] == r[k + (m - c)] && q[k] == s[k - (t - m)];
      } else if k < t {
        assert p[k] == r[k - (t - m)] && q[k] == s[k - (t - m)];
      }
    }
  }

  /** Swap two blocks of equal length that do not overlap. */
  method SwapBlocks<T>(a: array<T>, x: nat, y: nat, len: nat)
    requires x + len <= y && y + len <= a.Length
    modifies a
    ensures Swapped(old(a[..]), a[..], x, y, len)
  {
    var i := 0;
    while i < len
      invariant 0 <= i <= len
      invariant Swapped(old(a[..]), a[..], x, y, i)
    {
      a[x + i], a[y + i] := a[y + i], a[x + i];
      i := i + 1;
    }
  }

  lemma EmptyBlock<T>(s: seq<T>, b: nat, m: nat, t: nat)
    requires b <= m <= t <= |s| && (b == m || m == t)
    ensures Exchanged(s, b, m, t) == s
  {
  }

  /** One round: the shorter block goes to its place. */
  method SwapShorter<T>(a: array<T>, bottom: nat, middle: nat, top: nat) returns (bottom': nat, top': nat)
    requires bottom < middle < top <= a.Length
    modifies a
    ensures bottom' <= middle <= top' <= top && top' - bottom' < top - bottom
    ensures Exchanged(a[..], bottom', middle, top') == Exchanged(old(a[..]), bottom, middle, top)
  {
    bottom', top' := bottom, top;
    if top - middle > middle - bottom {
      var len := middle - bottom;
      ghost var was := a[..];
      SwapBlocks(a, bottom, top - len, len);
      BottomShorter(was, a[..], bottom, middle, top);
      top' := top - len;
    } else {
      var len := top - middle;
      ghost var was := a[..];
      SwapBlocks(a, bottom, middle, len);
      TopShorter(was, a[..], bottom, middle, top);
      bottom' := bottom + len;
    }
  }

  /** exchange, on any two adjacent blocks. */
  method ExchangeBlocks<T>(a: array<T>, bottom0: nat, middle: nat, top0: nat)
    requires bottom0 <= middle <= top0 <= a.Length
    modifies a
    ensures a[..] == Exchanged(old(a[..]), bottom0, middle, top0)
  {
    var bottom, top := bottom0, top0;
    while top > middle && middle > bottom
      invariant 0 <= bottom <= middle <= top <= a.Length
      invariant Exchanged(a[..], bottom, middle, top) == Exchanged(old(a[..]), bottom0, middle, top0)
      decreases top - bottom
    {
      bottom, top := SwapShorter(a, bottom, middle, top);
    }
    EmptyBlock(a[..], bottom, middle, top);
  }
}
