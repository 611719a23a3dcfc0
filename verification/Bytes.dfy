/** Little-endian integers and fixed-width records. */
module Bytes {
  import opened Domain

  type Byte = b: int | 0 <= b < 256 witness 0

  type U64 = n: int | 0 <= n <= U64_MAX

  type I64 = x: int | -0x8000_0000_0000_0000 <= x <= 0x7FFF_FFFF_FFFF_FFFF

  const TWO_64 := 0x1_0000_0000_0000_0000

  function Pow256(w: nat): (p: nat)
    ensures p > 0
  {
    if w == 0 then 1 else 256 * Pow256(w - 1)
  }

  function Le(n: nat, w: nat): seq<Byte> {
    if w == 0 then [] else [n % 256] + Le(n / 256, w - 1)
  }

  function FromLe(s: seq<Byte>): nat {
    if s == [] then 0 else s[0] + 256 * FromLe(s[1..])
  }

  /** Two's complement reinterpretation of `i64` as `u64` and back. */
  function ToU64(x: I64): nat { if x < 0 then x + TWO_64 else x }

  function ToI64(n: nat): I64
    requires n < TWO_64
  {
    if n > I64_MAX then n - TWO_64 else n
  }

  lemma SubSlice<T>(s: seq<T>, a: nat, b: nat, i: nat, j: nat)
    requires a <= b <= |s| && i <= j <= b - a
    ensures s[a..b][i..j] == s[a + i..a + j]
  {
    forall k | 0 <= k < j - i ensures s[a..b][i..j][k] == s[a + i..a + j][k] { }
  }

  lemma {:induction false} LeRoundTrip(n: nat, w: nat)
    requires n < Pow256(w)
    ensures |Le(n, w)| == w && FromLe(Le(n, w)) == n
  {
    if w > 0 { LeRoundTrip(n / 256, w - 1); }
  }

  lemma {:induction false} LeLength(n: nat, w: nat)
    ensures |Le(n, w)| == w
  {
    if w > 0 { LeLength(n / 256, w - 1); }
  }

  /** Byte `i` is the digit of weight `256^i`: least significant first. */
  lemma {:induction false} LeAt(n: nat, w: nat, i: nat)
    requires i < w
    ensures |Le(n, w)| == w && Le(n, w)[i] == n / Pow256(i) % 256
  {
    LeLength(n, w);
    if i > 0 {
      LeAt(n / 256, w - 1, i - 1);
      DivDiv(n, Pow256(i - 1));
    }
  }

  lemma DivDiv(n: nat, k: nat)
    requires k > 0
    ensures n / (256 * k) == n / 256 / k
  {
    var q, r := n / 256, n % 256;
    var a, b := q / k, q % k;
    assert n == 256 * (a * k + b) + r;
    assert n == (256 * k) * a + (256 * b + r) by { assert 256 * (a * k) == (256 * k) * a; }
    assert 0 <= 256 * b + r < 256 * k;
    DivUnique(n, 256 * k, a, 256 * b + r);
  }

  lemma DivUnique(n: nat, d: nat, a: nat, r: nat)
    requires d > 0 && n == d * a + r && r < d
    ensures n / d == a
  {
    var q := n / d;
    assert n == d * q + n % d;
    assert q > a ==> d * q >= d * (a + 1);
    assert q < a ==> d * a >= d * (q + 1);
  }

  lemma {:induction false} FromLeRoundTrip(s: seq<Byte>)
    ensures FromLe(s) < Pow256(|s|)
    ensures Le(FromLe(s), |s|) == s
  {
    if s != [] {
      FromLeRoundTrip(s[1..]);
      assert (s[0] + 256 * FromLe(s[1..])) % 256 == s[0];
      assert (s[0] + 256 * FromLe(s[1..])) / 256 == FromLe(s[1..]);
    }
  }

  lemma Widths()
    ensures Pow256(1) == 256 && Pow256(4) == U32_MAX + 1 && Pow256(8) == TWO_64
  {
    assert Pow256(2) == 65536;
    assert Pow256(4) == 65536 * Pow256(2);
    assert Pow256(6) == 65536 * Pow256(4);
    assert Pow256(8) == 65536 * Pow256(6);
  }

  // -------------------------------------------------------------------------
  // Records of fixed-width fields
  // -------------------------------------------------------------------------

  function Size(widths: seq<nat>): nat {
    if widths == [] then 0 else widths[0] + Size(widths[1..])
  }

  function Pack(vals: seq<nat>, widths: seq<nat>): seq<Byte>
    requires |vals| == |widths|
  {
    if vals == [] then [] else Le(vals[0], widths[0]) + Pack(vals[1..], widths[1..])
  }

  function Unpack(p: seq<Byte>, widths: seq<nat>): (vals: seq<nat>)
    requires |p| == Size(widths)
    ensures |vals| == |widths|
  {
    if widths == [] then [] else [FromLe(p[..widths[0]])] + Unpack(p[widths[0]..], widths[1..])
  }

  ghost predicate Fits(vals: seq<nat>, widths: seq<nat>) {
    |vals| == |widths| && forall i :: 0 <= i < |vals| ==> vals[i] < Pow256(widths[i])
  }

  lemma {:induction false} PackSize(vals: seq<nat>, widths: seq<nat>)
    requires |vals| == |widths|
    ensures |Pack(vals, widths)| == Size(widths)
  {
    if vals != [] {
      LeLength(vals[0], widths[0]);
      PackSize(vals[1..], widths[1..]);
    }
  }

  lemma {:induction false} UnpackPack(vals: seq<nat>, widths: seq<nat>)
    requires Fits(vals, widths)
    ensures |Pack(vals, widths)| == Size(widths)
    ensures Unpack(Pack(vals, widths), widths) == vals
  {
    PackSize(vals, widths);
    if vals != [] {
      LeRoundTrip(vals[0], widths[0]);
      UnpackPack(vals[1..], widths[1..]);
      var p := Pack(vals, widths);
      assert p[..widths[0]] == Le(vals[0], widths[0]);
      assert p[widths[0]..] == Pack(vals[1..], widths[1..]);
    }
  }

  lemma {:induction false} SizeSnoc(widths: seq<nat>, i: nat)
    requires 0 < i <= |widths|
    ensures Size(widths[..i]) == Size(widths[..i - 1]) + widths[i - 1]
    ensures Size(widths[..0]) == 0
  {
    assert widths[..0] == [];
    if i == 1 {
      assert widths[..1][1..] == [];
    } else {
      SizeSnoc(widths[1..], i - 1);
      assert widths[..i][1..] == widths[1..][..i - 1];
      assert widths[..i - 1][1..] == widths[1..][..i - 2];
    }
  }

  /** Field `i` stands at the sum of the widths before it. */
  lemma {:induction false} PackAt(vals: seq<nat>, widths: seq<nat>, i: nat)
    requires |vals| == |widths| && i < |vals|
    ensures Size(widths[..i]) + widths[i] <= |Pack(vals, widths)|
    ensures Pack(vals, widths)[Size(widths[..i])..Size(widths[..i]) + widths[i]] == Le(vals[i], widths[i])
  {
    var p, rest := Pack(vals, widths), Pack(vals[1..], widths[1..]);
    LeLength(vals[0], widths[0]);
    if i == 0 {
      assert widths[..0] == [];
    } else {
      PackAt(vals[1..], widths[1..], i - 1);
      assert widths[..i][1..] == widths[1..][..i - 1];
      var a := Size(widths[1..][..i - 1]);
      assert p[widths[0] + a..widths[0] + a + widths[i]] == rest[a..a + widths[i]];
    }
  }

  lemma {:induction false} PackUnpack(p: seq<Byte>, widths: seq<nat>)
    requires |p| == Size(widths)
    ensures Fits(Unpack(p, widths), widths)
    ensures Pack(Unpack(p, widths), widths) == p
  {
    if widths != [] {
      var head, tail := p[..widths[0]], p[widths[0]..];
      FromLeRoundTrip(head);
      PackUnpack(tail, widths[1..]);
      assert p == head + tail;
      var vals, rest := Unpack(p, widths), Unpack(tail, widths[1..]);
      assert vals == [FromLe(head)] + rest && vals[1..] == rest;
      hide FromLe, Pow256, Le;
      forall i | 0 <= i < |vals| ensures vals[i] < Pow256(widths[i]) {
        if i > 0 { assert vals[i] == rest[i - 1] && widths[i] == widths[1..][i - 1]; }
      }
    }
  }
}
