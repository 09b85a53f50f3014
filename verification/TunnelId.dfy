/**
 The id of a tunnel between two nodes: Szudzik's pairing function.
 */
module TunnelId {
  import opened Arithmetic

  function Pair(a: nat, b: nat): (r: nat) {
    if a >= b then a * a + a + b else a + b * b
  }

  /** Which shell and which side of the square a number lies on. */
  function Root(z: nat): (r: nat)
    ensures r * r <= z < (r + 1) * (r + 1)
  {
    if z == 0 then 0
    else
      var r := Root(z - 1);
      if (r + 1) * (r + 1) <= z then r + 1 else r
  }

  function Unpair(z: nat): (r: (nat, nat)) {
    var q := Root(z);
    var rest := z - q * q;
    if rest < q then (rest, q) else (q, rest - q)
  }

  lemma SquareMonotone(a: nat, b: nat)
    requires a <= b
    ensures a * a <= b * b
  {
    ProductMonotone(a, b, a);
    ProductMonotone(a, b, b);
  }

  lemma RootIsUnique(z: nat, q: nat)
    requires q * q <= z < (q + 1) * (q + 1)
    ensures Root(z) == q
  {
    var r := Root(z);
    if r < q {
      SquareMonotone(r + 1, q);
    } else if q < r {
      SquareMonotone(q + 1, r);
    }
  }

  /** Different node pairs have different tunnel ids. */
  lemma UnpairPair(a: nat, b: nat)
    ensures Unpair(Pair(a, b)) == (a, b)
  {
    var q := if a >= b then a else b;
    assert (q + 1) * (q + 1) == q * q + 2 * q + 1;
    RootIsUnique(Pair(a, b), q);
  }

  /** Every number is the id of some pair. */
  lemma PairUnpair(z: nat)
    ensures Pair(Unpair(z).0, Unpair(z).1) == z
  {
    var q := Root(z);
    assert (q + 1) * (q + 1) == q * q + 2 * q + 1;
  }

  /** The ids of an upper triangular matrix of up to 65535 nodes fit the 32-bit key of a GRE
      tunnel (section 2.1 of RFC 2890), and with one more node they do not. */
  lemma FitsGreKey(x: nat, y: nat)
    requires x < y
    ensures Pair(x, y) == y * y + x
    ensures y <= 65535 ==> Pair(x, y) < 0x1_0000_0000
    ensures y > 65535 ==> Pair(x, y) >= 0x1_0000_0000
  {
    if y <= 65535 {
      SquareMonotone(y, 65535);
    } else {
      SquareMonotone(65536, y);
    }
  }
}
