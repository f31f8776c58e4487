/** Fixed-width big-endian integers. */
module BigEndian {
  import opened Basics
  import opened PlaceValue

  function ToBytes(v: nat, n: nat): (bs: seq<byte>)
    ensures |bs| == n
  {
    if n == 0 then [] else ToBytes(v / 256, n - 1) + [v % 256]
  }

  function FromBytes(bs: seq<byte>): (v: nat) {
    if bs == [] then 0 else 256 * FromBytes(bs[..|bs| - 1]) + bs[|bs| - 1]
  }

  lemma {:induction false} RoundTrip(v: nat, n: nat)
    requires v < Pow(256, n)
    ensures FromBytes(ToBytes(v, n)) == v
  {
    if n > 0 {
      RoundTrip(v / 256, n - 1);
      assert ToBytes(v, n)[..n - 1] == ToBytes(v / 256, n - 1);
    }
  }

  lemma {:induction false} Bound(bs: seq<byte>)
    ensures FromBytes(bs) < Pow(256, |bs|)
  {
    if bs != [] { Bound(bs[..|bs| - 1]); }
  }

  /** Appending a byte at the low end decides only between equal high ends. */
  lemma {:induction false} LexAppend(a: seq<int>, b: seq<int>, x: seq<int>, y: seq<int>)
    requires |a| == |b|
    ensures LexLess(a + x, b + y) <==> LexLess(a, b) || (a == b && LexLess(x, y))
  {
    if a == [] {
      assert a + x == x && b + y == y;
    } else {
      assert (a + x)[1..] == a[1..] + x && (b + y)[1..] == b[1..] + y;
      assert a == [a[0]] + a[1..] && b == [b[0]] + b[1..];
      LexAppend(a[1..], b[1..], x, y);
    }
  }

  lemma ConcatEqual(a: seq<int>, b: seq<int>, x: seq<int>, y: seq<int>)
    requires |a| == |b|
    ensures a + x == b + y <==> a == b && x == y
  {
    if a + x == b + y {
      assert a == (a + x)[..|a|] == (b + y)[..|b|] == b;
      assert x == (a + x)[|a|..] == (b + y)[|b|..] == y;
    }
  }

  lemma LexCons(x: int, a: seq<int>, y: int, b: seq<int>)
    ensures LexLess([x] + a, [y] + b) <==> x < y || (x == y && LexLess(a, b))
  {
    assert ([x] + a)[1..] == a && ([y] + b)[1..] == b;
  }

  lemma LexThree(x: int, y: int, z: int, x': int, y': int, z': int)
    ensures LexLess([x, y, z], [x', y', z'])
       <==> x < x' || (x == x' && (y < y' || (y == y' && z < z')))
  {
    LexCons(x, [y, z], x', [y', z']);
    LexCons(y, [z], y', [z']);
    assert [x, y, z] == [x] + [y, z] && [x', y', z'] == [x'] + [y', z'];
    assert [y, z] == [y] + [z] && [y', z'] == [y'] + [z'];
  }

  /** Big-endian bytes sort as the numbers they hold. */
  lemma {:induction false} Order(u: nat, v: nat, n: nat)
    requires u < Pow(256, n) && v < Pow(256, n)
    ensures LexLess(ToBytes(u, n), ToBytes(v, n)) <==> u < v
    ensures ToBytes(u, n) == ToBytes(v, n) <==> u == v
  {
    RoundTrip(u, n); RoundTrip(v, n);
    if n > 0 {
      Order(u / 256, v / 256, n - 1);
      LexAppend(ToBytes(u / 256, n - 1), ToBytes(v / 256, n - 1), [u % 256], [v % 256]);
    }
  }
}
