/**
 Enumerating the /p subnets of a base network by recursive splitting.
 */
module Subnets {
  import opened Arithmetic
  import opened Topology

  /** An IPv4 network: its first address and its prefix length. */
  datatype Network = Network(addr: nat, len: nat)

  /** The number of addresses of a network with this prefix length. */
  function Size(len: nat): (r: nat)
    requires len <= 32
    ensures r > 0
  {
    Pow2(32 - len)
  }

  /** The two halves of a network; a single address cannot be split. */
  function Halves(n: Network): (r: seq<Network>)
    requires n.len <= 32
  {
    if n.len == 32 then [n]
    else [Network(n.addr, n.len + 1), Network(n.addr + Size(n.len + 1), n.len + 1)]
  }

  /** The size of the tree of splits below a list of networks. */
  function Weight(nets: seq<Network>, p: nat): (w: nat)
    requires forall n :: n in nets ==> n.len <= p
  {
    if nets == [] then 0
    else Pow2(p - nets[0].len + 1) - 1 + Weight(nets[1..], p)
  }

  lemma HalvesWeighLess(n: Network, p: nat)
    requires n.len < p <= 32
    ensures Weight(Halves(n), p) < Pow2(p - n.len + 1) - 1
  {
    var left, right := Halves(n)[0], Halves(n)[1];
    assert Halves(n) == [left, right];
    assert [left, right][1..] == [right] && [right][1..] == [];
    assert Weight([right], p) == Pow2(p - n.len) - 1;
  }

  /** All subnets of the listed networks with prefix length p. A network that is already
      smaller is split without end, see GeneratorEndsIff. */
  function GetSlashX(nets: seq<Network>, p: nat): (r: seq<Network>)
    requires p <= 32 && forall n :: n in nets ==> n.len <= p
    decreases Weight(nets, p)
  {
    if nets == [] then []
    else
      var n := nets[0];
      (if n.len == p then [n]
       else
         HalvesWeighLess(n, p);
         GetSlashX(Halves(n), p))
      + GetSlashX(nets[1..], p)
  }

  /** The k-th /p block of a network. */
  function Block(n: Network, p: nat, k: nat): (r: Network)
    requires p <= 32
  {
    Network(n.addr + k * Size(p), p)
  }

  /** The consecutive /p blocks of a network. */
  function Blocks(n: Network, p: nat): (r: seq<Network>)
    requires n.len <= p <= 32
    ensures |r| == Pow2(p - n.len)
    ensures forall k :: 0 <= k < |r| ==> r[k] == Block(n, p, k)
  {
    seq(Pow2(p - n.len), (k: nat) => Block(n, p, k))
  }

  lemma BlockOfRightHalf(n: Network, p: nat, k: nat)
    requires n.len < p <= 32
    ensures Block(n, p, Pow2(p - n.len - 1) + k) == Block(Halves(n)[1], p, k)
  {
    var half := Pow2(p - n.len - 1);
    Pow2Add(p - n.len - 1, 32 - p);
    Distribute(half, k, Size(p));
  }

  /** The blocks of a network are the blocks of its halves. */
  lemma BlocksOfHalves(n: Network, p: nat)
    requires n.len < p <= 32
    ensures Blocks(n, p) == Blocks(Halves(n)[0], p) + Blocks(Halves(n)[1], p)
  {
    var half := Pow2(p - n.len - 1);
    var both := Blocks(Halves(n)[0], p) + Blocks(Halves(n)[1], p);
    forall i | 0 <= i < 2 * half
      ensures Blocks(n, p)[i] == both[i]
    {
      if i >= half {
        BlockOfRightHalf(n, p, i - half);
      } else {
        assert Block(n, p, i) == Block(Halves(n)[0], p, i);
      }
    }
  }

  lemma {:induction false} SplittingGivesBlocks(n: Network, p: nat)
    requires n.len <= p <= 32
    ensures GetSlashX([n], p) == Blocks(n, p)
    decreases p - n.len
  {
    if n.len == p {
      assert GetSlashX([n], p) == [n];
      assert Blocks(n, p) == [n];
    } else {
      var left, right := Halves(n)[0], Halves(n)[1];
      SplittingGivesBlocks(left, p);
      SplittingGivesBlocks(right, p);
      BlocksOfHalves(n, p);
      assert Halves(n) == [left] + [right];
      HeadAndTail(left, [right], p);
      assert GetSlashX([n], p) == GetSlashX(Halves(n), p) + GetSlashX([], p);
    }
  }

  lemma HeadAndTail(n: Network, rest: seq<Network>, p: nat)
    requires p <= 32 && n.len <= p && forall m :: m in rest ==> m.len <= p
    ensures GetSlashX([n] + rest, p) == GetSlashX([n], p) + GetSlashX(rest, p)
  {
    assert ([n] + rest)[1..] == rest;
    assert [n][1..] == [];
  }

  /** The subnet generator of the provisioners: for a base prefix shorter than p it yields
      exactly 2^(p-b) blocks in ascending order. */
  lemma GeneratorYieldsBlocks(base: Network, p: nat)
    requires base.len < p <= 32
    ensures GetSlashX(Halves(base), p) == Blocks(base, p)
  {
    SplittingGivesBlocks(base, p);
    assert GetSlashX([base], p) == GetSlashX(Halves(base), p) + GetSlashX([], p);
  }

  // ----- When the generator ends ------------------------------------------------------

  /** What the generator yields within a depth of recursion, or None if it goes deeper. */
  function SlashXWithin(nets: seq<Network>, p: nat, depth: nat): (r: Option<seq<Network>>)
    requires p <= 32 && forall n :: n in nets ==> n.len <= 32
    decreases depth, |nets|
  {
    if nets == [] then Some([])
    else
      var n := nets[0];
      var head := if n.len == p then Some([n])
                  else if depth == 0 then None
                  else SlashXWithin(Halves(n), p, depth - 1);
      var tail := SlashXWithin(nets[1..], p, depth);
      if head.Some? && tail.Some? then Some(head.value + tail.value) else None
  }

  /** A network that is smaller than the wanted subnets yields nothing at any depth: a single
      address is split into itself. */
  lemma {:induction false} TooSmallGoesOn(nets: seq<Network>, p: nat, depth: nat)
    requires p <= 32 && forall n :: n in nets ==> n.len <= 32
    requires nets != [] && nets[0].len > p
    ensures SlashXWithin(nets, p, depth).None?
    decreases depth
  {
    if depth > 0 {
      TooSmallGoesOn(Halves(nets[0]), p, depth - 1);
    }
  }

  /** Otherwise the recursion ends after p - b levels. */
  lemma {:induction false} DeepEnough(nets: seq<Network>, p: nat, depth: nat)
    requires p <= 32 && forall n :: n in nets ==> n.len <= p <= n.len + depth
    ensures SlashXWithin(nets, p, depth) == Some(GetSlashX(nets, p))
    decreases depth, |nets|
  {
    if nets != [] {
      if nets[0].len < p {
        DeepEnough(Halves(nets[0]), p, depth - 1);
      }
      DeepEnough(nets[1..], p, depth);
    }
  }

  /** The generator of a base network ends iff the base prefix is shorter than p, or base and
      subnet are the same single address. It recurses p - b - 1 levels and yields the blocks of
      the base network. */
  lemma GeneratorEndsIff(base: Network, p: nat)
    requires base.len <= 32 && p <= 32
    ensures (exists depth :: SlashXWithin(Halves(base), p, depth).Some?) <==>
            base.len < p || base.len == p == 32
    ensures base.len < p ==> SlashXWithin(Halves(base), p, p - base.len - 1) == Some(Blocks(base, p))
  {
    if base.len < p {
      DeepEnough(Halves(base), p, p - base.len - 1);
      GeneratorYieldsBlocks(base, p);
    } else if base.len == 32 && p == 32 {
      assert SlashXWithin(Halves(base), p, 0).Some?;
    } else {
      forall depth: nat
        ensures SlashXWithin(Halves(base), p, depth).None?
      {
        TooSmallGoesOn(Halves(base), p, depth);
      }
    }
  }

  // ----- The blocks -------------------------------------------------------------------

  /** The generator yields the blocks of the base network. */
  ghost predicate YieldsBlocks(generator: seq<Network>, base: Network, p: nat)
    requires p <= 32
  {
    && (base.len < p ==> |generator| == Pow2(p - base.len))
    && forall k :: 0 <= k < |generator| ==> generator[k] == Block(base, p, k)
  }

  /** All subnets that a provisioner can hand out, in order. */
  function Generator(base: Network, p: nat): (r: seq<Network>)
    requires base.len < p <= 32
    ensures YieldsBlocks(r, base, p)
  {
    GeneratorYieldsBlocks(base, p);
    GetSlashX(Halves(base), p)
  }

  predicate Contains(n: Network, address: nat)
    requires n.len <= 32
  {
    n.addr <= address < n.addr + Size(n.len)
  }

  /** Every address of the base network lies in exactly one block, and no block leaves it. */
  lemma BlocksPartition(base: Network, p: nat, address: nat, k: nat)
    requires base.len <= p <= 32 && k < Pow2(p - base.len)
    ensures Contains(Block(base, p, k), address) <==>
            Contains(base, address) && k == (address - base.addr) / Size(p)
  {
    Pow2Add(p - base.len, 32 - p);
    RunOfAny(address - base.addr, k, Pow2(p - base.len), Size(p));
  }

  /** Different blocks share no address. */
  lemma BlocksDisjoint(base: Network, p: nat, k: nat, l: nat, address: nat)
    requires base.len <= p <= 32 && k < Pow2(p - base.len) && l < Pow2(p - base.len)
    requires Contains(Block(base, p, k), address) && Contains(Block(base, p, l), address)
    ensures k == l
  {
    BlocksPartition(base, p, address, k);
    BlocksPartition(base, p, address, l);
  }

  lemma CoveredByBlock(base: Network, p: nat, address: nat)
    requires base.len <= p <= 32 && Contains(base, address)
    ensures exists k :: 0 <= k < Pow2(p - base.len) && Contains(Block(base, p, k), address)
  {
    var k := (address - base.addr) / Size(p);
    Pow2Add(p - base.len, 32 - p);
    QuotientBelow(address - base.addr, Pow2(p - base.len), Size(p));
    BlocksPartition(base, p, address, k);
  }

  // ----- The subnets as numbers -------------------------------------------------------

  /** Element k of the generator begins k times 2^(32-p) addresses behind the base network, and
      there are 2^(p-b) of them. */
  lemma GeneratorAddress(base: Network, p: nat, k: nat)
    requires base.len < p <= 32
    ensures |Generator(base, p)| == Pow2(p - base.len)
    ensures k < Pow2(p - base.len) ==> Generator(base, p)[k] == Network(base.addr + k * Pow2(32 - p), p)
  {
    if k < |Generator(base, p)| {
      assert Generator(base, p)[k] == Block(base, p, k);
    }
  }

  lemma QuotientIs(a: nat, q: nat, size: nat)
    requires size > 0
    ensures a / size == q <==> q * size <= a < q * size + size
  {
    DivisionEquation(a, size);
    if q * size <= a < q * size + size {
      DivModUnique(q, a - q * size, size);
    }
  }

  lemma SameQuotient(a: nat, start: nat, size: nat)
    requires size > 0 && start % size == 0
    ensures a / size == start / size <==> start <= a < start + size
  {
    assert start == start / size * size + start % size;
    QuotientIs(a, start / size, size);
  }

  /** The address is one of 2^(32-p) from the first address of element k of the generator on. */
  predicate InElement(base: Network, p: nat, k: nat, address: nat)
    requires base.len < p <= 32
  {
    k < |Generator(base, p)| &&
    Generator(base, p)[k].addr <= address < Generator(base, p)[k].addr + Pow2(32 - p)
  }

  lemma ElementOfAddress(base: Network, p: nat, k: nat, address: nat)
    requires base.len < p <= 32
    ensures InElement(base, p, k, address) <==>
            k < Pow2(p - base.len) && Contains(base, address) && k == (address - base.addr) / Size(p)
  {
    GeneratorAddress(base, p, k);
    if k < Pow2(p - base.len) {
      BlocksPartition(base, p, address, k);
    }
  }

  /** The subnets are a partition of the base network: an address lies in one of them iff it has
      the network part of the base, and then in no other. */
  lemma GeneratorCovers(base: Network, p: nat, address: nat)
    requires base.len < p <= 32 && base.addr % Pow2(32 - base.len) == 0
    ensures (exists k: nat :: InElement(base, p, k, address)) <==>
            address / Pow2(32 - base.len) == base.addr / Pow2(32 - base.len)
  {
    SameQuotient(address, base.addr, Pow2(32 - base.len));
    if k: nat :| InElement(base, p, k, address) {
      ElementOfAddress(base, p, k, address);
    }
    if Contains(base, address) {
      CoveredByBlock(base, p, address);
      var k: nat :| k < Pow2(p - base.len) && Contains(Block(base, p, k), address);
      BlocksPartition(base, p, address, k);
      ElementOfAddress(base, p, k, address);
    }
  }

  lemma ElementsAreDisjoint(base: Network, p: nat, k: nat, l: nat, address: nat)
    requires base.len < p <= 32 && InElement(base, p, k, address) && InElement(base, p, l, address)
    ensures k == l
  {
    ElementOfAddress(base, p, k, address);
    ElementOfAddress(base, p, l, address);
  }
}
