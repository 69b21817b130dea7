/** Bytes, byte strings and the two integer byte orders the wire formats use. */
module Bytes {

  type byte = b: int | 0 <= b < 256

  function Pow256(width: nat): (p: nat)
    ensures p > 0
  {
    if width == 0 then 1 else 256 * Pow256(width - 1)
  }

  /** The bytes of `d` from `i` to `j` as a little-endian machine loads them. */
  function Host(d: seq<byte>, i: nat, j: nat): nat
    requires i <= j <= |d|
    decreases j - i
  {
    if i == j then 0 else d[i] + 256 * Host(d, i + 1, j)
  }

  /** The bytes of `d` from `i` to `j` in network byte order. */
  function Net(d: seq<byte>, i: nat, j: nat): nat
    requires i <= j <= |d|
    decreases j - i
  {
    if i == j then 0 else 256 * Net(d, i, j - 1) + d[j - 1]
  }

  function ToLittle(n: nat, width: nat): (s: seq<byte>)
    ensures |s| == width
  {
    if width == 0 then [] else [n % 256] + ToLittle(n / 256, width - 1)
  }

  function ToBig(n: nat, width: nat): (s: seq<byte>)
    ensures |s| == width
  {
    if width == 0 then [] else ToBig(n / 256, width - 1) + [n % 256]
  }

  function Min(a: nat, b: nat): nat { if a < b then a else b }
  function Max(a: nat, b: nat): nat { if a < b then b else a }

  /** The two strings agree on `width` bytes. */
  ghost predicate Same(d: seq<byte>, i: nat, e: seq<byte>, j: nat, width: nat) {
    && i + width <= |d| && j + width <= |e|
    && forall k :: i <= k < i + width ==> d[k] == e[j + k - i]
  }

  /** A field reads the same wherever its bytes lie. */
  lemma {:induction false} NetMoves(d: seq<byte>, i: nat, e: seq<byte>, j: nat, width: nat)
    requires Same(d, i, e, j, width)
    ensures Net(d, i, i + width) == Net(e, j, j + width)
    decreases width
  {
    if width > 0 {
      NetMoves(d, i, e, j, width - 1);
    }
  }

  lemma {:induction false} HostMoves(d: seq<byte>, i: nat, e: seq<byte>, j: nat, width: nat)
    requires Same(d, i, e, j, width)
    ensures Host(d, i, i + width) == Host(e, j, j + width)
    decreases width
  {
    if width > 0 {
      HostMoves(d, i + 1, e, j + 1, width - 1);
    }
  }

  /** Writing what was read gives the bytes back. */
  lemma {:induction false} ToBigOfNet(d: seq<byte>, i: nat, width: nat)
    requires i + width <= |d|
    ensures Net(d, i, i + width) < Pow256(width)
    ensures ToBig(Net(d, i, i + width), width) == d[i..i + width]
    decreases width
  {
    if width > 0 {
      ToBigOfNet(d, i, width - 1);
      assert d[i..i + width] == d[i..i + width - 1] + [d[i + width - 1]];
    }
  }

  /** Reading what was written gives the number back. */
  lemma {:induction false} NetOfToBig(n: nat, width: nat, d: seq<byte>, i: nat)
    requires n < Pow256(width)
    requires i + width <= |d| && d[i..i + width] == ToBig(n, width)
    ensures Net(d, i, i + width) == n
    decreases width
  {
    if width > 0 {
      var s := ToBig(n, width);
      assert s[..width - 1] == ToBig(n / 256, width - 1) && s[width - 1] == n % 256;
      assert d[i..i + width - 1] == s[..width - 1] && d[i + width - 1] == s[width - 1];
      NetOfToBig(n / 256, width - 1, d, i);
    }
  }

  lemma {:induction false} HostOfToLittle(n: nat, width: nat, d: seq<byte>, i: nat)
    requires n < Pow256(width)
    requires i + width <= |d| && d[i..i + width] == ToLittle(n, width)
    ensures Host(d, i, i + width) == n
    decreases width
  {
    if width > 0 {
      var s := ToLittle(n, width);
      assert s[1..] == ToLittle(n / 256, width - 1) && s[0] == n % 256;
      assert d[i + 1..i + width] == s[1..] && d[i] == s[0];
      HostOfToLittle(n / 256, width - 1, d, i + 1);
    }
  }

  lemma {:induction false} ToLittleOfHost(d: seq<byte>, i: nat, width: nat)
    requires i + width <= |d|
    ensures Host(d, i, i + width) < Pow256(width)
    ensures ToLittle(Host(d, i, i + width), width) == d[i..i + width]
    decreases width
  {
    if width > 0 {
      ToLittleOfHost(d, i + 1, width - 1);
      var h := Host(d, i + 1, i + width);
      assert Host(d, i, i + width) == d[i] as int + 256 * h;
      assert Host(d, i, i + width) / 256 == h && Host(d, i, i + width) % 256 == d[i] as int;
      assert d[i..i + width] == [d[i]] + d[i + 1..i + width];
    }
  }

  /** Values of the fixed widths, written out for the solver. */
  lemma Widths()
    ensures Pow256(2) == 0x1_0000
    ensures Pow256(4) == 0x1_0000_0000
    ensures Pow256(8) == 0x1_0000_0000_0000_0000
  {
    assert Pow256(3) == 256 * Pow256(2);
    assert Pow256(5) == 256 * Pow256(4);
    assert Pow256(6) == 256 * Pow256(5);
    assert Pow256(7) == 256 * Pow256(6);
  }

  lemma NetFits(d: seq<byte>, i: nat)
    ensures i + 2 <= |d| ==> Net(d, i, i + 2) < 0x1_0000
    ensures i + 8 <= |d| ==> Net(d, i, i + 8) < 0x1_0000_0000_0000_0000
  {
    Widths();
    if i + 2 <= |d| {
      ToBigOfNet(d, i, 2);
    }
    if i + 8 <= |d| {
      ToBigOfNet(d, i, 8);
    }
  }

  /** ntohs on a little-endian machine. */
  function NetworkToHost16(v: nat): nat
    requires v < 0x1_0000
  {
    v % 256 * 256 + v / 256
  }

  /** ntohl on a little-endian machine. */
  function NetworkToHost32(v: nat): (r: nat)
    requires v < 0x1_0000_0000
    ensures r < 0x1_0000_0000
  {
    v % 256 * 0x100_0000 + v / 256 % 256 * 0x1_0000 + v / 0x1_0000 % 256 * 256 + v / 0x100_0000
  }

  /** The two 32-bit halves are swapped as words and each is swapped inside. */
  function NetworkToHost64(v: nat): nat
    requires v < 0x1_0000_0000_0000_0000
  {
    NetworkToHost32(v % 0x1_0000_0000) * 0x1_0000_0000 + NetworkToHost32(v / 0x1_0000_0000)
  }

  lemma Load16(d: seq<byte>, i: nat)
    requires i + 2 <= |d|
    ensures Host(d, i, i + 2) < 0x1_0000
    ensures NetworkToHost16(Host(d, i, i + 2)) == Net(d, i, i + 2)
  {
    var b0: int, b1: int := d[i], d[i + 1];
    assert Host(d, i + 1, i + 2) == b1;
    assert Net(d, i, i + 1) == b0;
  }

  lemma Host4(d: seq<byte>, i: nat, b0: int, b1: int, b2: int, b3: int)
    requires i + 4 <= |d| && b0 == d[i] && b1 == d[i + 1] && b2 == d[i + 2] && b3 == d[i + 3]
    ensures Host(d, i, i + 4) == b0 + 256 * b1 + 0x1_0000 * b2 + 0x100_0000 * b3
  {
    assert Host(d, i + 3, i + 4) == b3;
    assert Host(d, i + 2, i + 4) == b2 + 256 * b3;
  }

  lemma Net4(d: seq<byte>, i: nat, b0: int, b1: int, b2: int, b3: int)
    requires i + 4 <= |d| && b0 == d[i] && b1 == d[i + 1] && b2 == d[i + 2] && b3 == d[i + 3]
    ensures Net(d, i, i + 4) == 0x100_0000 * b0 + 0x1_0000 * b1 + 256 * b2 + b3
  {
    assert Net(d, i, i + 1) == b0;
    assert Net(d, i, i + 2) == 256 * b0 + b1;
  }

  lemma Swap4(v: nat, b0: byte, b1: byte, b2: byte, b3: byte)
    requires v == b0 as int + 256 * (b1 as int) + 0x1_0000 * (b2 as int) + 0x100_0000 * (b3 as int)
    ensures v < 0x1_0000_0000
    ensures NetworkToHost32(v) == 0x100_0000 * (b0 as int) + 0x1_0000 * (b1 as int) + 256 * (b2 as int) + b3 as int
  {
    var u := b1 as int + 256 * (b2 as int) + 0x1_0000 * (b3 as int);
    var w := b2 as int + 256 * (b3 as int);
    assert v / 256 == u && v % 256 == b0 as int;
    assert v / 0x1_0000 == w && u % 256 == b1 as int;
    assert v / 0x100_0000 == b3 as int && w % 256 == b2 as int;
  }

  lemma Load32(d: seq<byte>, i: nat)
    requires i + 4 <= |d|
    ensures Host(d, i, i + 4) < 0x1_0000_0000
    ensures NetworkToHost32(Host(d, i, i + 4)) == Net(d, i, i + 4)
  {
    Host4(d, i, d[i], d[i + 1], d[i + 2], d[i + 3]);
    Net4(d, i, d[i], d[i + 1], d[i + 2], d[i + 3]);
    Swap4(Host(d, i, i + 4), d[i], d[i + 1], d[i + 2], d[i + 3]);
  }

  lemma {:induction false} HostSplit(d: seq<byte>, i: nat, a: nat, b: nat)
    requires i + a + b <= |d|
    ensures Host(d, i, i + a + b) == Host(d, i, i + a) + Pow256(a) * Host(d, i + a, i + a + b)
    decreases a
  {
    if a > 0 {
      HostSplit(d, i + 1, a - 1, b);
      Regroup(Pow256(a - 1), Host(d, i + a, i + a + b));
    }
  }

  lemma {:induction false} NetSplit(d: seq<byte>, i: nat, a: nat, b: nat)
    requires i + a + b <= |d|
    ensures Net(d, i, i + a + b) == Pow256(b) * Net(d, i, i + a) + Net(d, i + a, i + a + b)
    decreases b
  {
    if b > 0 {
      NetSplit(d, i, a, b - 1);
      Regroup(Pow256(b - 1), Net(d, i, i + a));
    }
  }

  lemma Regroup(p: int, x: int)
    ensures 256 * (p * x) == 256 * p * x
  {
  }

  /** The half-swapping load is the big-endian read of all eight bytes. */
  lemma Load64(d: seq<byte>, i: nat)
    requires i + 8 <= |d|
    ensures Host(d, i, i + 8) < 0x1_0000_0000_0000_0000
    ensures NetworkToHost64(Host(d, i, i + 8)) == Net(d, i, i + 8)
  {
    SwapOf(d, i, 4, Host(d, i, i + 8), Net(d, i, i + 8));
  }

  lemma SwapOf(d: seq<byte>, i: nat, w: nat, host: nat, net: nat)
    requires w == 4 && i + 2 * w <= |d| && host == Host(d, i, i + 2 * w) && net == Net(d, i, i + 2 * w)
    ensures host < 0x1_0000_0000_0000_0000
    ensures NetworkToHost64(host) == net
  {
    var lo, hi := Host(d, i, i + w), Host(d, i + w, i + w + w);
    var nlo, nhi := Net(d, i, i + w), Net(d, i + w, i + w + w);
    assert host == lo + 0x1_0000_0000 * hi && net == 0x1_0000_0000 * nlo + nhi by {
      HostSplit(d, i, w, w);
      NetSplit(d, i, w, w);
      Widths();
    }
    assert lo < 0x1_0000_0000 && NetworkToHost32(lo) == nlo by { Load32(d, i); }
    assert hi < 0x1_0000_0000 && NetworkToHost32(hi) == nhi by { Load32(d, i + w); }
    SwapHalves(lo, hi);
  }

  lemma SwapHalves(lo: nat, hi: nat)
    requires lo < 0x1_0000_0000 && hi < 0x1_0000_0000
    ensures lo + 0x1_0000_0000 * hi < 0x1_0000_0000_0000_0000
    ensures NetworkToHost64(lo + 0x1_0000_0000 * hi) == NetworkToHost32(lo) * 0x1_0000_0000 + NetworkToHost32(hi)
  {
    assert (lo + 0x1_0000_0000 * hi) / 0x1_0000_0000 == hi;
    assert (lo + 0x1_0000_0000 * hi) % 0x1_0000_0000 == lo;
  }

  // ---- Fields, byte by byte ----

  function Two(b0: nat, b1: nat): nat { b0 + 0x100 * b1 }

  function Four(b0: nat, b1: nat, b2: nat, b3: nat): nat { b0 + 0x100 * b1 + 0x1_0000 * b2 + 0x100_0000 * b3 }

  function Little2(d: seq<byte>, i: nat): nat
    requires i + 2 <= |d|
  {
    Two(d[i], d[i + 1])
  }

  function Little4(d: seq<byte>, i: nat): nat
    requires i + 4 <= |d|
  {
    Four(d[i], d[i + 1], d[i + 2], d[i + 3])
  }

  function Little8(d: seq<byte>, i: nat): nat
    requires i + 8 <= |d|
  {
    Four(d[i], d[i + 1], d[i + 2], d[i + 3]) + 0x1_0000_0000 * Four(d[i + 4], d[i + 5], d[i + 6], d[i + 7])
  }

  function Big2(d: seq<byte>, i: nat): nat
    requires i + 2 <= |d|
  {
    Two(d[i + 1], d[i])
  }

  function Big8(d: seq<byte>, i: nat): nat
    requires i + 8 <= |d|
  {
    Four(d[i + 7], d[i + 6], d[i + 5], d[i + 4]) + 0x1_0000_0000 * Four(d[i + 3], d[i + 2], d[i + 1], d[i])
  }

  lemma HostIsLittle2(d: seq<byte>, i: nat)
    requires i + 2 <= |d|
    ensures Host(d, i, i + 2) == Little2(d, i)
  {
    assert Host(d, i + 1, i + 2) == d[i + 1];
  }

  lemma HostIsLittle4(d: seq<byte>, i: nat)
    requires i + 4 <= |d|
    ensures Host(d, i, i + 4) == Little4(d, i)
  {
    Host4(d, i, d[i], d[i + 1], d[i + 2], d[i + 3]);
  }

  lemma HostIsLittle8(d: seq<byte>, i: nat)
    requires i + 8 <= |d|
    ensures Host(d, i, i + 8) == Little8(d, i)
  {
    HostSplit(d, i, 4, 4);
    Widths();
    HostIsLittle4(d, i);
    HostIsLittle4(d, i + 4);
  }

  lemma NetIsBig2(d: seq<byte>, i: nat)
    requires i + 2 <= |d|
    ensures Net(d, i, i + 2) == Big2(d, i)
  {
    assert Net(d, i, i + 1) == d[i];
  }

  lemma NetIsBig8(d: seq<byte>, i: nat)
    requires i + 8 <= |d|
    ensures Net(d, i, i + 8) == Big8(d, i)
  {
    NetSplit(d, i, 4, 4);
    Widths();
    Net4(d, i, d[i], d[i + 1], d[i + 2], d[i + 3]);
    Net4(d, i + 4, d[i + 4], d[i + 5], d[i + 6], d[i + 7]);
  }

  /** A list of byte strings run together. */
  function Flatten(ss: seq<seq<byte>>): seq<byte> {
    if ss == [] then [] else ss[0] + Flatten(ss[1..])
  }

  lemma Associative<T>(a: seq<T>, b: seq<T>, c: seq<T>)
    ensures a + (b + c) == a + b + c
  {
  }

  lemma {:induction false} FlattenAppend(a: seq<seq<byte>>, b: seq<seq<byte>>)
    ensures Flatten(a + b) == Flatten(a) + Flatten(b)
  {
    if a == [] {
      assert a + b == b;
    } else {
      FlattenAppend(a[1..], b);
      assert (a + b)[0] == a[0] && (a + b)[1..] == a[1..] + b;
      Associative(a[0], Flatten(a[1..]), Flatten(b));
    }
  }

  lemma FlattenOne(s: seq<byte>)
    ensures Flatten([s]) == s
  {
    assert [s][1..] == [];
  }
}
