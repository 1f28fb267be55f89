/** Blocks linked by their next pointers, and what a chain of blocks holds: the raw bytes of
    a file, or the child list of a directory. Block numbers start at 1; 0 ends a chain. */
module Chains {
  import opened Bytes
  import opened Counting

  datatype Block = Block(next: nat, payload: bytes)

  function Head(c: seq<nat>): nat {
    if c == [] then 0 else c[0]
  }

  /** Element `k` is a block of the volume that points to its successor. */
  predicate Link(blocks: seq<Block>, c: seq<nat>, k: nat)
    requires k < |c|
  {
    1 <= c[k] <= |blocks| && blocks[c[k] - 1].next == (if k + 1 < |c| then c[k + 1] else 0)
  }

  predicate Links(blocks: seq<Block>, c: seq<nat>) {
    forall k | 0 <= k < |c| :: Link(blocks, c, k)
  }

  /** `c` is a complete chain from `start`: in range, and ended by 0. */
  predicate IsChain(blocks: seq<Block>, start: nat, c: seq<nat>) {
    start == Head(c) && Links(blocks, c)
  }

  /** Following next pointers for at most `fuel` blocks. */
  function Walk(blocks: seq<Block>, cur: nat, fuel: nat): seq<nat>
    decreases fuel
  {
    if cur == 0 || cur > |blocks| || fuel == 0 then []
    else [cur] + Walk(blocks, blocks[cur - 1].next, fuel - 1)
  }

  function Chain(blocks: seq<Block>, start: nat): seq<nat> {
    Walk(blocks, start, |blocks|)
  }

  lemma {:induction false} NoRepeat(blocks: seq<Block>, c: seq<nat>, i: nat, j: nat)
    requires Links(blocks, c) && i < j < |c|
    ensures c[i] != c[j]
    decreases |c| - j
  {
    assert Link(blocks, c, i) && Link(blocks, c, i + 1) && Link(blocks, c, j);
    if j + 1 < |c| {
      NoRepeat(blocks, c, i + 1, j + 1);
    }
  }

  /** A chain that ends is acyclic, and so no longer than the volume. */
  lemma ChainIsShort(blocks: seq<Block>, c: seq<nat>)
    requires Links(blocks, c)
    ensures Distinct(c) && |c| <= |blocks|
  {
    forall i, j | 0 <= i < j < |c| ensures c[i] != c[j] {
      NoRepeat(blocks, c, i, j);
    }
    assert forall k | 0 <= k < |c| :: Link(blocks, c, k) ==> 1 <= c[k] <= |blocks|;
    Pigeonhole(c, 1, |blocks| + 1);
  }

  lemma {:induction false} WalkOfChain(blocks: seq<Block>, start: nat, c: seq<nat>, fuel: nat)
    requires IsChain(blocks, start, c) && |c| <= fuel
    ensures Walk(blocks, start, fuel) == c
    decreases fuel
  {
    if c != [] {
      assert Link(blocks, c, 0);
      forall k | 0 <= k < |c[1..]| ensures Link(blocks, c[1..], k) {
        assert Link(blocks, c, k + 1);
      }
      WalkOfChain(blocks, Head(c[1..]), c[1..], fuel - 1);
      assert c == [c[0]] + c[1..];
    }
  }

  /** There is one chain from each start. */
  lemma ChainUnique(blocks: seq<Block>, start: nat, c: seq<nat>)
    requires IsChain(blocks, start, c)
    ensures Chain(blocks, start) == c
  {
    ChainIsShort(blocks, c);
    WalkOfChain(blocks, start, c, |blocks|);
  }

  /** Following next pointers for `fuel` blocks does not leave the volume. */
  predicate Stays(blocks: seq<Block>, cur: nat, fuel: nat)
    decreases fuel
  {
    fuel == 0 || cur == 0 || (cur <= |blocks| && Stays(blocks, blocks[cur - 1].next, fuel - 1))
  }

  lemma {:induction false} ChainStays(blocks: seq<Block>, start: nat, c: seq<nat>, fuel: nat)
    requires IsChain(blocks, start, c)
    ensures Stays(blocks, start, fuel)
    decreases fuel
  {
    if c != [] && fuel > 0 {
      assert Link(blocks, c, 0);
      forall k | 0 <= k < |c[1..]| ensures Link(blocks, c[1..], k) {
        assert Link(blocks, c, k + 1);
      }
      ChainStays(blocks, Head(c[1..]), c[1..], fuel - 1);
    }
  }

  /** A walk that stays in the volume ends at the end of the chain or with its fuel. */
  lemma {:induction false} WalkIsFull(blocks: seq<Block>, start: nat, fuel: nat)
    requires Stays(blocks, start, fuel)
    ensures |Walk(blocks, start, fuel)| < fuel ==> IsChain(blocks, start, Walk(blocks, start, fuel))
    decreases fuel
  {
    if start != 0 && fuel > 0 {
      var next := blocks[start - 1].next;
      var w, rest := Walk(blocks, start, fuel), Walk(blocks, next, fuel - 1);
      WalkIsFull(blocks, next, fuel - 1);
      if |w| < fuel {
        forall k | 0 <= k < |w| ensures Link(blocks, w, k) {
          if k > 0 {
            assert Link(blocks, rest, k - 1);
          }
        }
      }
    }
  }

  /** What `get_block_chain` returns: the whole chain if it ends, and otherwise `n + 3` blocks. */
  lemma GuardedWalk(blocks: seq<Block>, start: nat)
    requires Stays(blocks, start, |blocks| + 3)
    ensures var w := Walk(blocks, start, |blocks| + 3);
            if IsChain(blocks, start, Chain(blocks, start)) then w == Chain(blocks, start)
            else |w| == |blocks| + 3 && !Distinct(w)
  {
    var w := Walk(blocks, start, |blocks| + 3);
    WalkIsFull(blocks, start, |blocks| + 3);
    WalkLength(blocks, start, |blocks| + 3);
    if IsChain(blocks, start, Chain(blocks, start)) {
      ChainIsShort(blocks, Chain(blocks, start));
      WalkOfChain(blocks, start, Chain(blocks, start), |blocks| + 3);
    } else {
      if |w| < |blocks| + 3 {
        ChainUnique(blocks, start, w);
      }
      if Distinct(w) {
        Pigeonhole(w, 1, |blocks| + 1);
      }
    }
  }

  lemma {:induction false} WalkLength(blocks: seq<Block>, start: nat, fuel: nat)
    ensures |Walk(blocks, start, fuel)| <= fuel && Between(Walk(blocks, start, fuel), 1, |blocks| + 1)
    decreases fuel
  {
    if start != 0 && start <= |blocks| && fuel > 0 {
      WalkLength(blocks, blocks[start - 1].next, fuel - 1);
    }
  }

  predicate SameBlock(a: seq<Block>, b: seq<Block>, x: nat) {
    1 <= x <= |a| && x <= |b| && a[x - 1] == b[x - 1]
  }

  predicate Agree(a: seq<Block>, b: seq<Block>, c: seq<nat>) {
    forall k | 0 <= k < |c| :: SameBlock(a, b, c[k])
  }

  /** A chain depends on its own blocks only. */
  lemma ChainFrame(a: seq<Block>, b: seq<Block>, start: nat, c: seq<nat>)
    requires IsChain(a, start, c) && Agree(a, b, c)
    ensures IsChain(b, start, c) && Chain(b, start) == c
  {
    forall k | 0 <= k < |c| ensures Link(b, c, k) {
      assert Link(a, c, k) && SameBlock(a, b, c[k]);
    }
    ChainUnique(b, start, c);
  }

  // ---- File bytes ----

  function At(c: seq<nat>, k: nat): nat {
    if k < |c| then c[k] else 0
  }

  /** `x / d` and `x % d`, by repeated subtraction: see QuotIsDiv. */
  function Quot(x: nat, d: nat): nat {
    if d == 0 || x < d then 0 else 1 + Quot(x - d, d)
  }

  function Rem(x: nat, d: nat): (r: nat)
    ensures d > 0 ==> r < d
  {
    if d == 0 || x < d then x else Rem(x - d, d)
  }

  lemma {:induction false} QuotRem(x: nat, d: nat)
    requires d > 0
    ensures x == Quot(x, d) * d + Rem(x, d) && Rem(x, d) < d
  {
    if x >= d {
      QuotRem(x - d, d);
      assert Quot(x, d) * d == Quot(x - d, d) * d + d;
    }
  }

  lemma {:induction false} MulStep(q: nat, k: nat, d: nat)
    ensures q < k ==> q * d + d <= k * d
  {
    if q + 1 < k {
      MulStep(q, k - 1, d);
    }
    if 0 < k {
      assert k * d == (k - 1) * d + d;
    }
  }

  lemma QuotIs(x: nat, d: nat, q: nat, o: nat)
    requires x == q * d + o && o < d
    ensures Quot(x, d) == q && Rem(x, d) == o
  {
    QuotRem(x, d);
    MulStep(q, Quot(x, d), d);
    MulStep(Quot(x, d), q, d);
  }

  lemma QuotIsDiv(x: nat, d: nat)
    requires d > 0
    ensures Quot(x, d) == x / d && Rem(x, d) == x % d
  {
    QuotIs(x, d, x / d, x % d);
  }

  lemma QuotBelow(x: nat, n: nat, d: nat)
    requires d > 0 && x < n * d
    ensures Quot(x, d) < n && Rem(x, d) < d
  {
    QuotRem(x, d);
    MulStep(n, Quot(x, d), d);
  }

  function ByteAt(blocks: seq<Block>, b: nat, o: nat): byte {
    if 1 <= b <= |blocks| && o < |blocks[b - 1].payload| then blocks[b - 1].payload[o] else 0
  }

  /** The payloads of a chain, one after the other: `pl` bytes from each block. */
  function Raw(blocks: seq<Block>, c: seq<nat>, pl: nat): (r: bytes)
    requires pl > 0
    ensures |r| == |c| * pl
  {
    seq(|c| * pl, x requires 0 <= x < |c| * pl => ByteAt(blocks, At(c, Quot(x, pl)), Rem(x, pl)))
  }

  lemma ByteAgree(a: seq<Block>, b: seq<Block>, c: seq<nat>, k: nat, o: nat)
    requires Agree(a, b, c)
    ensures ByteAt(a, At(c, k), o) == ByteAt(b, At(c, k), o)
  {
    if k < |c| {
      assert SameBlock(a, b, c[k]);
    }
  }

  lemma RawFrame(a: seq<Block>, b: seq<Block>, c: seq<nat>, pl: nat)
    requires pl > 0 && Agree(a, b, c)
    ensures Raw(a, c, pl) == Raw(b, c, pl)
  {
    forall x | 0 <= x < |c| * pl ensures Raw(a, c, pl)[x] == Raw(b, c, pl)[x] {
      ByteAgree(a, b, c, Quot(x, pl), Rem(x, pl));
    }
  }

  /** The first blocks of a chain hold its first bytes. */
  lemma RawPrefix(blocks: seq<Block>, c: seq<nat>, k: nat, pl: nat)
    requires pl > 0 && k <= |c|
    ensures k * pl <= |c| * pl && Raw(blocks, c[..k], pl) == Raw(blocks, c, pl)[..k * pl]
  {
    MulStep(k, |c|, pl);
    forall x | 0 <= x < k * pl ensures Raw(blocks, c[..k], pl)[x] == Raw(blocks, c, pl)[x] {
      QuotBelow(x, k, pl);
    }
  }

  /** A byte of block `k`. */
  lemma RawAt(blocks: seq<Block>, c: seq<nat>, k: nat, pl: nat, o: nat)
    requires o < pl && k < |c| && 1 <= c[k] <= |blocks| && |blocks[c[k] - 1].payload| == pl
    ensures k * pl + o < |c| * pl && Raw(blocks, c, pl)[k * pl + o] == blocks[c[k] - 1].payload[o]
  {
    MulStep(k, |c|, pl);
    QuotIs(k * pl + o, pl, k, o);
  }

  lemma Halves(r: bytes, n: nat, tail: bytes)
    requires |r| == n + |tail| && forall o | 0 <= o < |tail| :: r[n + o] == tail[o]
    ensures r == r[..n] + tail
  {
  }

  /** One block more. */
  lemma RawSnoc(blocks: seq<Block>, c: seq<nat>, k: nat, pl: nat)
    requires pl > 0 && k < |c| && 1 <= c[k] <= |blocks| && |blocks[c[k] - 1].payload| == pl
    ensures Raw(blocks, c[..k + 1], pl) == Raw(blocks, c[..k], pl) + blocks[c[k] - 1].payload
  {
    var d, payload := c[..k + 1], blocks[c[k] - 1].payload;
    var n, r := k * pl, Raw(blocks, d, pl);
    RawPrefix(blocks, d, k, pl);
    assert d[..k] == c[..k] && |r| == n + pl;
    forall o | 0 <= o < pl ensures r[n + o] == payload[o] {
      RawAt(blocks, d, k, pl, o);
    }
    Halves(r, n, payload);
  }

  // ---- Child lists ----

  function Words(p: bytes): (r: seq<nat>)
    ensures |r| == |p| / 4
  {
    seq(|p| / 4, k requires 0 <= k < |p| / 4 => UnLe(p[4 * k..4 * k + 4]))
  }

  function NonZero(ws: seq<nat>): (r: seq<nat>)
    ensures |r| <= |ws|
    ensures forall x | x in r :: x != 0
  {
    if ws == [] then []
    else
      var k := |ws| - 1;
      NonZero(ws[..k]) + (if ws[k] == 0 then [] else [ws[k]])
  }

  /** What `f` finds in the first `k` blocks of a chain, in order. */
  function Gather(f: Block -> seq<nat>, blocks: seq<Block>, c: seq<nat>, k: nat): seq<nat>
    requires k <= |c|
    decreases k
  {
    if k == 0 then []
    else Gather(f, blocks, c, k - 1) + (if 1 <= c[k - 1] <= |blocks| then f(blocks[c[k - 1] - 1]) else [])
  }

  lemma GatherNext(f: Block -> seq<nat>, blocks: seq<Block>, c: seq<nat>, k: nat)
    requires k < |c| && 1 <= c[k] <= |blocks|
    ensures Gather(f, blocks, c, k + 1) == Gather(f, blocks, c, k) + f(blocks[c[k] - 1])
  {
  }

  lemma {:induction false} GatherFrame(f: Block -> seq<nat>, a: seq<Block>, b: seq<Block>, c: seq<nat>, k: nat)
    requires Agree(a, b, c) && k <= |c|
    ensures Gather(f, a, c, k) == Gather(f, b, c, k)
    decreases k
  {
    if k > 0 {
      assert SameBlock(a, b, c[k - 1]);
      GatherFrame(f, a, b, c, k - 1);
    }
  }

  lemma GatherOne(f: Block -> seq<nat>, blocks: seq<Block>, b: nat)
    requires 1 <= b <= |blocks|
    ensures Gather(f, blocks, [b], 1) == f(blocks[b - 1])
  {
    var c := [b];
    assert Gather(f, blocks, c, 0) == [];
    GatherNext(f, blocks, c, 0);
    assert [] + f(blocks[b - 1]) == f(blocks[b - 1]);
  }

  /** The non-zero words of a directory block. */
  function DirEntries(b: Block): seq<nat> {
    NonZero(Words(b.payload))
  }

  /** The child list stored along a chain. */
  function ChainWords(blocks: seq<Block>, c: seq<nat>): seq<nat> {
    Gather(DirEntries, blocks, c, |c|)
  }

  function WordBytes(ws: seq<nat>): (r: bytes)
    ensures |r| == 4 * |ws|
  {
    if ws == [] then []
    else
      var k := |ws| - 1;
      WordBytes(ws[..k]) + Le(ws[k], 4)
  }

  /** `p` with its first words overwritten. */
  function PutWords(p: bytes, ws: seq<nat>): (r: bytes)
    requires 4 * |ws| <= |p|
    ensures |r| == |p|
  {
    WordBytes(ws) + p[4 * |ws|..]
  }

  lemma {:induction false} WordBytesAt(ws: seq<nat>, k: nat)
    requires k < |ws|
    ensures WordBytes(ws)[4 * k..4 * k + 4] == Le(ws[k], 4)
  {
    var n := |ws| - 1;
    if k < n {
      WordBytesAt(ws[..n], k);
      assert WordBytes(ws)[4 * k..4 * k + 4] == WordBytes(ws[..n])[4 * k..4 * k + 4];
    }
  }

  lemma WordsOfPut(p: bytes, ws: seq<nat>)
    requires |ws| == |p| / 4 && Between(ws, 0, U32)
    ensures Words(PutWords(p, ws)) == ws
  {
    var q := PutWords(p, ws);
    forall k | 0 <= k < |ws| ensures Words(q)[k] == ws[k] {
      WordBytesAt(ws, k);
      assert q[4 * k..4 * k + 4] == WordBytes(ws)[4 * k..4 * k + 4];
      Pow256Values();
      LeRoundTrip(ws[k], 4);
    }
  }

  /** The first `n` children, filled up with zeros. */
  function Padded(children: seq<nat>, n: nat): (r: seq<nat>)
    ensures |r| == n
  {
    seq(n, k requires 0 <= k < n => if k < |children| then children[k] else 0)
  }

  lemma {:induction false} NonZeroOfPadded(children: seq<nat>, n: nat)
    requires forall k | 0 <= k < |children| :: children[k] != 0
    ensures NonZero(Padded(children, n)) == if n <= |children| then children[..n] else children
  {
    if n > 0 {
      assert Padded(children, n)[..n - 1] == Padded(children, n - 1);
      NonZeroOfPadded(children, n - 1);
    }
  }

  /** What `dir_add_child` and `dir_remove_child` write: the children that fit. */
  function DirPayload(p: bytes, children: seq<nat>): (r: bytes)
    ensures |r| == |p|
  {
    PutWords(p, Padded(children, |p| / 4))
  }

  lemma WordsOfDirPayload(p: bytes, children: seq<nat>)
    requires Between(children, 1, U32)
    ensures NonZero(Words(DirPayload(p, children)))
         == if |p| / 4 <= |children| then children[..|p| / 4] else children
  {
    WordsOfPut(p, Padded(children, |p| / 4));
    NonZeroOfPadded(children, |p| / 4);
  }
}
