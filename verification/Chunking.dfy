/**
 Running the commands of an event in few shell calls: the commands are cut into chunks, each
 of which becomes one shell line.
 */
module Chunking {
  import opened Arithmetic

  const MAX_ARG_STR_LEN: nat := 131072

  /** Where chunk k begins when len commands are cut into num chunks, in exact arithmetic. */
  function Cut(len: nat, num: nat, k: nat): (r: nat)
    requires num > 0
  {
    k * len / num
  }

  lemma QuotientMonotone(x: nat, y: nat, n: nat)
    requires n > 0 && x <= y
    ensures x / n <= y / n
  {
    DivisionEquation(y, n);
    Distribute(y / n, 1, n);
    QuotientBelow(x, y / n + 1, n);
  }

  lemma CutsAscend(len: nat, num: nat, k: nat)
    requires k < num
    ensures Cut(len, num, k) <= Cut(len, num, k + 1) <= len
  {
    Distribute(k, 1, len);
    QuotientMonotone(k * len, (k + 1) * len, num);
    ProductMonotone(k + 1, num, len);
    QuotientMonotone((k + 1) * len, num * len, num);
    LastCut(len, num);
  }

  lemma LastCut(len: nat, num: nat)
    requires num > 0
    ensures Cut(len, num, num) == len
  {
    assert num * len == len * num + 0;
    DivModUnique(len, 0, num);
  }

  /** Chunk k of num chunks. */
  function Chunk<T>(xs: seq<T>, num: nat, k: nat): (r: seq<T>)
    requires k < num
  {
    CutsAscend(|xs|, num, k);
    xs[Cut(|xs|, num, k)..Cut(|xs|, num, k + 1)]
  }

  function Flatten<T>(xss: seq<seq<T>>): (r: seq<T>) {
    if xss == [] then [] else Flatten(xss[..|xss| - 1]) + xss[|xss| - 1]
  }

  /** The next piece extends the part that is cut already. */
  lemma FlattenPiece<T>(xs: seq<T>, out: seq<seq<T>>, a: nat, b: nat)
    requires a <= b <= |xs| && Flatten(out) == xs[..a]
    ensures Flatten(out + [xs[a..b]]) == xs[..b]
  {
    var next := out + [xs[a..b]];
    assert next[..|next| - 1] == out;
    assert xs[..a] + xs[a..b] == xs[..b];
  }

  lemma FlattenNext<T>(xs: seq<T>, num: nat, out: seq<seq<T>>)
    requires |out| < num && Cut(|xs|, num, |out|) <= |xs|
    requires Flatten(out) == xs[..Cut(|xs|, num, |out|)]
    ensures Cut(|xs|, num, |out| + 1) <= |xs|
    ensures Flatten(out + [Chunk(xs, num, |out|)]) == xs[..Cut(|xs|, num, |out| + 1)]
  {
    CutsAscend(|xs|, num, |out|);
    FlattenPiece(xs, out, Cut(|xs|, num, |out|), Cut(|xs|, num, |out| + 1));
  }

  /** The position is below the end exactly while chunks are missing. */
  lemma Position(len: nat, num: nat, k: nat)
    requires len > 0 && num > 0
    ensures k * len < len * num <==> k < num
  {
    if k < num {
      ProductMonotone(k + 1, num, len);
      Distribute(k, 1, len);
    } else {
      ProductMonotone(num, k, len);
    }
  }

  /** Cuts a sequence into num chunks of about the same size. The running position is a
      multiple of len / num; it is kept as a numerator over num. */
  method ChunkIt<T>(xs: seq<T>, num: nat) returns (out: seq<seq<T>>)
    requires num > 0
    ensures |out| == if xs == [] then 0 else num
    ensures forall k :: 0 <= k < |out| ==> out[k] == Chunk(xs, num, k)
    ensures Flatten(out) == xs
  {
    out := [];
    var len, last := |xs|, 0;
    while last < len * num
      invariant last == |out| * len && |out| <= num && (len == 0 ==> out == [])
      invariant forall k :: 0 <= k < |out| ==> out[k] == Chunk(xs, num, k)
      invariant Cut(len, num, |out|) <= len && Flatten(out) == xs[..Cut(len, num, |out|)]
      decreases num - |out|
    {
      Position(len, num, |out|);
      CutsAscend(len, num, |out|);
      Distribute(|out|, 1, len);
      FlattenNext(xs, num, out);
      out := out + [xs[last / num..(last + len) / num]];
      last := last + len;
    }
    if len > 0 {
      Position(len, num, |out|);
      LastCut(len, num);
    }
  }

  // ----- Shell lines ------------------------------------------------------------------

  function Join(cmds: seq<string>): (r: string) {
    if cmds == [] then ""
    else if |cmds| == 1 then cmds[0]
    else Join(cmds[..|cmds| - 1]) + "; " + cmds[|cmds| - 1]
  }

  /** A line holds the commands in order, with "; " between any two neighbours. */
  lemma {:induction false} JoinSplits(cmds: seq<string>, k: nat)
    requires 0 < k < |cmds|
    ensures Join(cmds) == Join(cmds[..k]) + "; " + Join(cmds[k..])
    ensures |cmds| == 2 ==> Join(cmds) == cmds[0] + "; " + cmds[1]
  {
    var last := |cmds| - 1;
    if k < last {
      JoinSplits(cmds[..last], k);
      assert cmds[..last][..k] == cmds[..k] && cmds[..last][k..] == cmds[k..][..last - k];
    } else {
      assert cmds[k..] == [cmds[last]];
    }
  }

  lemma JoinOne(cmd: string)
    ensures Join([cmd]) == cmd && Join([]) == ""
  {
  }

  function ShellLine(cmds: seq<string>): (r: string) {
    "sh -c '" + Join(cmds) + "'"
  }

  /** How many lines the commands are spread over. */
  function LineCount(length: nat): (r: nat)
    ensures r * MAX_ARG_STR_LEN >= length && (length > 0 ==> (r - 1) * MAX_ARG_STR_LEN < length)
  {
    (length + MAX_ARG_STR_LEN - 1) / MAX_ARG_STR_LEN
  }

  /** The commands as few shell lines. */
  method GetOneShellCallCommands(cmds: seq<string>) returns (lines: seq<string>)
    ensures var m := LineCount(|Join(cmds)| + 8);
            && m > 0 && |lines| == (if cmds == [] then 0 else m)
            && forall k :: 0 <= k < |lines| ==> lines[k] == "sh -c '" + Join(Chunk(cmds, m, k)) + "'"
  {
    var m := LineCount(|Join(cmds)| + 8);
    var chunks := ChunkIt(cmds, m);
    lines := [];
    for j := 0 to |chunks|
      invariant |lines| == j
      invariant forall k :: 0 <= k < j ==> lines[k] == ShellLine(Chunk(cmds, m, k))
    {
      lines := lines + [ShellLine(chunks[j])];
    }
  }

  ghost predicate AllOfLength(cmds: seq<string>, l: nat) {
    forall k :: 0 <= k < |cmds| ==> |cmds[k]| == l
  }

  lemma {:induction false} JoinLength(cmds: seq<string>, l: nat)
    requires AllOfLength(cmds, l)
    ensures |Join(cmds)| == if cmds == [] then 0 else |cmds| * (l + 2) - 2
  {
    if |cmds| > 1 {
      var init := cmds[..|cmds| - 1];
      JoinLength(init, l);
      Distribute(|init|, 1, l + 2);
    }
  }

  /** The length of a shell line with this many commands of length l. */
  function LineLength(size: nat, l: nat): (r: nat) {
    if size == 0 then 8 else size * (l + 2) + 6
  }

  lemma ShellLineLength(cmds: seq<string>, l: nat)
    requires AllOfLength(cmds, l)
    ensures |ShellLine(cmds)| == LineLength(|cmds|, l)
  {
    JoinLength(cmds, l);
  }

  /** How many commands the last chunk has; no chunk has more. */
  function Largest(len: nat, num: nat): (r: nat)
    requires num > 0
  {
    (len + num - 1) / num
  }

  lemma ChunkSize<T>(xs: seq<T>, num: nat, k: nat)
    requires k < num
    ensures num * |Chunk(xs, num, k)| <= |xs| + num - 1
  {
    CutsAscend(|xs|, num, k);
    Distribute(k, 1, |xs|);
    var a, b := Cut(|xs|, num, k), Cut(|xs|, num, k + 1);
    DivisionEquation(k * |xs|, num);
    DivisionEquation((k + 1) * |xs|, num);
    assert num * (b - a) == b * num - a * num;
  }

  /** For commands of equal length l, each of the m lines has at most
      131072 + (l + 8) * (1 - 1/m) characters. */
  lemma LineBound(cmds: seq<string>, l: nat, k: nat)
    requires cmds != [] && AllOfLength(cmds, l)
    requires k < LineCount(|Join(cmds)| + 8)
    ensures var m := LineCount(|Join(cmds)| + 8);
            m * |ShellLine(Chunk(cmds, m, k))| <= m * MAX_ARG_STR_LEN + (m - 1) * (l + 8)
  {
    var m, n := LineCount(|Join(cmds)| + 8), |cmds|;
    var chunk := Chunk(cmds, m, k);
    CutsAscend(n, m, k);
    assert AllOfLength(chunk, l);
    ShellLineLength(chunk, l);
    JoinLength(cmds, l);
    ChunkSize(cmds, m, k);
    BoundArithmetic(m, n, |chunk|, l);
  }

  lemma BoundArithmetic(m: nat, n: nat, size: nat, l: nat)
    requires m > 0 && m * size <= n + m - 1 && n * (l + 2) + 6 <= m * MAX_ARG_STR_LEN
    ensures m * LineLength(size, l) <= m * MAX_ARG_STR_LEN + (m - 1) * (l + 8)
  {
    var w, e := l + 2, m - 1;
    assert e * (w + 6) == e * w + e * 6 by {
      Distribute(w, 6, e);
      Commute(w + 6, e);
      Commute(w, e);
    }
    NotNegative(e, w);
    if size > 0 {
      ProductMonotone(m * size, n + e, w);
      Distribute(n, e, w);
      Associate(m, size, w);
      Distribute(size * w, 6, m);
      Commute(size * w + 6, m);
      Commute(size * w, m);
    }
  }

  lemma LargestIsCeiling(n: nat, m: nat)
    requires n > 0 && m > 0
    ensures var c := Largest(n, m);
            n <= c * m < n + m && 1 <= c <= n
  {
    var c := Largest(n, m);
    DivisionEquation(n + m - 1, m);
    if c > n {
      ProductMonotone(n + 1, c, m);
      Distribute(n, 1, m);
      ProductMonotone(1, m, n);
    }
  }

  /** The last chunk is as large as chunks get. */
  lemma LastChunkIsLargest<T>(xs: seq<T>, num: nat)
    requires xs != [] && num > 0
    ensures |Chunk(xs, num, num - 1)| == Largest(|xs|, num)
  {
    var n, c := |xs|, Largest(|xs|, num);
    LargestIsCeiling(n, num);
    LastCut(n, num);
    CutsAscend(n, num, num - 1);
    assert (num - 1) * n == (n - c) * num + (c * num - n);
    DivModUnique(n - c, c * num - n, num);
  }

  lemma NoChunkIsLarger<T>(xs: seq<T>, num: nat, k: nat)
    requires xs != [] && k < num
    ensures |Chunk(xs, num, k)| <= Largest(|xs|, num)
  {
    var size := |Chunk(xs, num, k)|;
    ChunkSize(xs, num, k);
    assert size * num == num * size;
    DivModUnique(size, 0, num);
    QuotientMonotone(size * num + 0, |xs| + num - 1, num);
  }

  lemma LineLengthMonotone(a: nat, b: nat, l: nat)
    requires a <= b
    ensures LineLength(a, l) <= LineLength(b, l)
  {
    if 0 < b {
      ProductMonotone(1, b, l + 2);
      ProductMonotone(a, b, l + 2);
    }
  }

  lemma LineOfChunk(cmds: seq<string>, l: nat, m: nat, k: nat)
    requires AllOfLength(cmds, l) && k < m
    ensures |ShellLine(Chunk(cmds, m, k))| == LineLength(|Chunk(cmds, m, k)|, l)
  {
    CutsAscend(|cmds|, m, k);
    assert AllOfLength(Chunk(cmds, m, k), l);
    ShellLineLength(Chunk(cmds, m, k), l);
  }

  /** All lines respect the limit iff the largest chunk does; its size is known beforehand. */
  lemma LinesFitIff(cmds: seq<string>, l: nat)
    requires cmds != [] && AllOfLength(cmds, l)
    ensures var m := LineCount(|Join(cmds)| + 8);
            && m > 0
            && ((forall k :: 0 <= k < m ==> |ShellLine(Chunk(cmds, m, k))| <= MAX_ARG_STR_LEN) <==>
                LineLength(Largest(|cmds|, m), l) <= MAX_ARG_STR_LEN)
  {
    var m := LineCount(|Join(cmds)| + 8);
    forall k | 0 <= k < m
      ensures |ShellLine(Chunk(cmds, m, k))| <= LineLength(Largest(|cmds|, m), l)
    {
      LineOfChunk(cmds, l, m, k);
      NoChunkIsLarger(cmds, m, k);
      LineLengthMonotone(|Chunk(cmds, m, k)|, Largest(|cmds|, m), l);
    }
    LineOfChunk(cmds, l, m, m - 1);
    LastChunkIsLargest(cmds, m);
  }

  /** The limit can be exceeded although every command would fit on a line of its own: three
      commands of 80000 characters make two lines, and the second one gets two of them. */
  lemma LineCanBeTooLong(cmds: seq<string>)
    requires |cmds| == 3 && AllOfLength(cmds, 80000)
    ensures LineCount(|Join(cmds)| + 8) == 2 && LineLength(1, 80000) <= MAX_ARG_STR_LEN
    ensures |ShellLine(Chunk(cmds, 2, 1))| > MAX_ARG_STR_LEN
  {
    JoinLength(cmds, 80000);
    LineOfChunk(cmds, 80000, 2, 1);
    LastChunkIsLargest(cmds, 2);
  }
}
