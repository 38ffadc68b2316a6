/** src/nmalloc.c: a first-fit allocator that keeps its list of free blocks inside the heap. */
module Nmalloc {
  import opened Basics

  // Sizes in bytes, on the 32-bit target.
  const WORD := 4
  const HEADER := 12

  /** A stretch of the heap: a free block, or a chunk that was handed out. */
  datatype Tile = Tile(addr: nat, size: nat, free: bool) {
    function End(): nat {
      addr + size
    }
  }

  // ----- The heap as a tiling -----

  /** The tiles cover [at, end) without gaps; each has room for a header. */
  predicate Tiling(ts: seq<Tile>, at: nat, end: nat) {
    if ts == [] then at == end
    else ts[0].addr == at && ts[0].size >= HEADER && Tiling(ts[1..], ts[0].End(), end)
  }

  /** No two neighbouring tiles are free. */
  predicate Apart(ts: seq<Tile>) {
    |ts| <= 1 || (!(ts[0].free && ts[1].free) && Apart(ts[1..]))
  }

  function FreeList(ts: seq<Tile>): seq<Tile> {
    if ts == [] then []
    else if ts[0].free then [ts[0]] + FreeList(ts[1..])
    else FreeList(ts[1..])
  }

  /** The invariant between calls. */
  predicate WellTiled(ts: seq<Tile>, base: nat, end: nat) {
    Tiling(ts, base, end) && Apart(ts) && FreeList(ts) != []
  }

  /** Bytes taken from the heap for a request: tag and data, rounded up past a multiple of the header. */
  function DataSize(size: nat): nat {
    var d := if WORD + size < HEADER then HEADER else WORD + size;
    d + HEADER - d % HEADER
  }

  /** Lowest tile that can serve a request, or the number of tiles. */
  function FirstFit(ts: seq<Tile>, needed: nat): nat {
    if ts == [] then 0
    else if ts[0].free && ts[0].size >= needed then 0
    else 1 + FirstFit(ts[1..], needed)
  }

  function Allocate(ts: seq<Tile>, i: nat, dataSize: nat): (us: seq<Tile>)
    requires i < |ts| && ts[i].size >= dataSize
    ensures |us| == |ts| + 1
  {
    if i == 0 then
      [Tile(ts[0].addr, dataSize, false), Tile(ts[0].addr + dataSize, ts[0].size - dataSize, true)] + ts[1..]
    else [ts[0]] + Allocate(ts[1..], i - 1, dataSize)
  }

  /** Merge of neighbouring free tiles. */
  function Coalesce(ts: seq<Tile>): (us: seq<Tile>)
    ensures ts != [] ==> us != [] && us[0].free == ts[0].free && us[0].addr == ts[0].addr
  {
    if |ts| <= 1 then ts
    else
      var rest := Coalesce(ts[1..]);
      if ts[0].free && rest[0].free then [Tile(ts[0].addr, ts[0].size + rest[0].size, true)] + rest[1..]
      else [ts[0]] + rest
  }

  function Freed(ts: seq<Tile>, i: nat): seq<Tile>
    requires i < |ts|
  {
    if i == 0 then [ts[0].(free := true)] + ts[1..] else [ts[0]] + Freed(ts[1..], i - 1)
  }

  function Release(ts: seq<Tile>, i: nat): seq<Tile>
    requires i < |ts|
  {
    Coalesce(Freed(ts, i))
  }

  function Bytes(ts: seq<Tile>, free: bool): nat {
    if ts == [] then 0 else (if ts[0].free == free then ts[0].size else 0) + Bytes(ts[1..], free)
  }

  // ----- Lemmas about tilings -----

  lemma {:induction false} FirstFitIs(ts: seq<Tile>, needed: nat)
    ensures var i := FirstFit(ts, needed);
      && i <= |ts|
      && (i < |ts| ==> ts[i].free && ts[i].size >= needed)
      && (forall k | 0 <= k < i :: ts[k].free ==> ts[k].size < needed)
  {
    if ts != [] && !(ts[0].free && ts[0].size >= needed) {
      FirstFitIs(ts[1..], needed);
    }
  }

  lemma DataSizeIs(size: nat)
    ensures DataSize(size) % HEADER == 0 && DataSize(size) >= 2 * HEADER
    ensures WORD + size < DataSize(size) <= WORD + size + 2 * HEADER
    ensures DataSize(size) % 12 == 0 && Max(12, 4 + size) < DataSize(size) <= Max(12, 4 + size) + 12
  {
  }

  /** Tiles lie in the order of their addresses and do not overlap. */
  lemma {:induction false} TilesInOrder(ts: seq<Tile>, at: nat, end: nat, i: nat, j: nat)
    requires Tiling(ts, at, end) && i <= j < |ts|
    ensures at <= ts[i].addr && ts[i].size >= HEADER && ts[j].size >= HEADER && ts[j].End() <= end
    ensures i < j ==> ts[i].End() <= ts[j].addr
  {
    if i > 0 {
      TilesInOrder(ts[1..], ts[0].End(), end, i - 1, j - 1);
    } else if j > 0 {
      TilesInOrder(ts[1..], ts[0].End(), end, 0, j - 1);
    } else {
      TilingEnd(ts[1..], ts[0].End(), end);
    }
  }

  lemma {:induction false} TilingEnd(ts: seq<Tile>, at: nat, end: nat)
    requires Tiling(ts, at, end)
    ensures at <= end && (ts != [] ==> at + HEADER <= end)
  {
    if ts != [] {
      TilingEnd(ts[1..], ts[0].End(), end);
    }
  }

  lemma {:induction false} FreeListMembers(ts: seq<Tile>)
    ensures forall b | b in FreeList(ts) :: b in ts && b.free
    ensures forall b | b in ts && b.free :: b in FreeList(ts)
  {
    if ts != [] {
      FreeListMembers(ts[1..]);
    }
  }

  /** Free and allocated bytes always add up to the area. */
  lemma {:induction false} BytesAdd(ts: seq<Tile>, at: nat, end: nat)
    requires Tiling(ts, at, end)
    ensures at + Bytes(ts, true) + Bytes(ts, false) == end
  {
    if ts != [] {
      BytesAdd(ts[1..], ts[0].End(), end);
    }
  }

  lemma {:induction false} CoalesceKeepsTiling(ts: seq<Tile>, at: nat, end: nat)
    requires Tiling(ts, at, end)
    ensures Tiling(Coalesce(ts), at, end) && Apart(Coalesce(ts))
    ensures FreeList(ts) != [] ==> FreeList(Coalesce(ts)) != []
  {
    if |ts| > 1 {
      CoalesceKeepsTiling(ts[1..], ts[0].End(), end);
      var rest := Coalesce(ts[1..]);
      if ts[0].free && rest[0].free {
        assert |rest| > 1 ==> !(rest[0].free && rest[1].free);
        assert Coalesce(ts)[1..] == rest[1..];
      } else {
        assert Coalesce(ts)[1..] == rest;
      }
    }
  }

  lemma {:induction false} CoalesceNothing(ts: seq<Tile>)
    requires Apart(ts)
    ensures Coalesce(ts) == ts
  {
    if |ts| > 1 {
      CoalesceNothing(ts[1..]);
    }
  }

  lemma {:induction false} AllocateKeepsTiling(ts: seq<Tile>, at: nat, end: nat, i: nat, dataSize: nat)
    requires Tiling(ts, at, end) && Apart(ts) && i < |ts| && ts[i].free
    requires dataSize >= HEADER && ts[i].size >= dataSize + HEADER
    ensures var us := Allocate(ts, i, dataSize);
      && WellTiled(us, at, end)
      && (us[0].free ==> ts[0].free)
  {
    var us := Allocate(ts, i, dataSize);
    if i == 0 {
      assert us[1..][1..] == ts[1..];
      assert us[1..][0].free;
    } else {
      AllocateKeepsTiling(ts[1..], ts[0].End(), end, i - 1, dataSize);
      assert us[1..] == Allocate(ts[1..], i - 1, dataSize);
    }
  }

  lemma {:induction false} FreedKeepsTiling(ts: seq<Tile>, at: nat, end: nat, i: nat)
    requires Tiling(ts, at, end) && i < |ts|
    ensures Tiling(Freed(ts, i), at, end) && FreeList(Freed(ts, i)) != []
  {
    if i > 0 {
      FreedKeepsTiling(ts[1..], ts[0].End(), end, i - 1);
      assert Freed(ts, i)[1..] == Freed(ts[1..], i - 1);
    }
  }

  lemma ReleaseKeepsTiling(ts: seq<Tile>, base: nat, end: nat, i: nat)
    requires Tiling(ts, base, end) && i < |ts|
    ensures WellTiled(Release(ts, i), base, end)
  {
    FreedKeepsTiling(ts, base, end, i);
    CoalesceKeepsTiling(Freed(ts, i), base, end);
  }

  /** A tile in front of others stays apart from them unless both are free. */
  lemma CoalesceFront(x: Tile, ts: seq<Tile>)
    requires ts != [] && !(x.free && ts[0].free)
    ensures Coalesce([x] + ts) == [x] + Coalesce(ts)
  {
    assert ([x] + ts)[1..] == ts;
  }

  /** Two free tiles in front of others that are apart. */
  lemma CoalesceTwo(x: Tile, y: Tile, ts: seq<Tile>)
    requires x.free && y.free && Apart([y] + ts)
    ensures Coalesce([x] + ([y] + ts)) == [Tile(x.addr, x.size + y.size, true)] + ts
  {
    assert ([x] + ([y] + ts))[1..] == [y] + ts;
    CoalesceNothing([y] + ts);
    assert ([y] + ts)[1..] == ts;
  }

  lemma RestoredFirst(ts: seq<Tile>, dataSize: nat)
    requires Apart(ts) && ts != [] && ts[0].free && ts[0].size >= dataSize
    ensures Release(Allocate(ts, 0, dataSize), 0) == ts
  {
    hide Coalesce, Apart;
    var chunk, rest := Tile(ts[0].addr, dataSize, true), Tile(ts[0].addr + dataSize, ts[0].size - dataSize, true);
    assert Freed(Allocate(ts, 0, dataSize), 0) == [chunk] + ([rest] + ts[1..]);
    ApartWith(ts, rest);
    CoalesceTwo(chunk, rest, ts[1..]);
    assert ts == [ts[0]] + ts[1..];
  }

  lemma ApartWith(ts: seq<Tile>, x: Tile)
    requires Apart(ts) && ts != [] && ts[0].free && x.free
    ensures Apart([x] + ts[1..])
  {
    assert ([x] + ts[1..])[1..] == ts[1..];
  }

  /** Freeing the chunk that was just allocated restores the heap, block for block. */
  lemma {:induction false} ReleaseUndoesAllocate(ts: seq<Tile>, i: nat, dataSize: nat)
    requires Apart(ts) && i < |ts| && ts[i].free && ts[i].size >= dataSize
    ensures Release(Allocate(ts, i, dataSize), i) == ts
  {
    hide Coalesce;
    if i == 0 {
      RestoredFirst(ts, dataSize);
    } else {
      var behind := Freed(Allocate(ts[1..], i - 1, dataSize), i - 1);
      assert Allocate(ts, i, dataSize)[1..] == Allocate(ts[1..], i - 1, dataSize);
      assert Freed(Allocate(ts, i, dataSize), i) == [ts[0]] + behind;
      ReleaseUndoesAllocate(ts[1..], i - 1, dataSize);
      CoalesceFront(ts[0], behind);
      assert ts == [ts[0]] + ts[1..];
    }
  }

  // ----- The free list in memory -----

  /** Merge of free blocks that touch, on the list alone. */
  function Merged(bs: seq<Tile>): (cs: seq<Tile>)
    ensures bs != [] ==> cs != [] && cs[0].addr == bs[0].addr
  {
    if |bs| <= 1 then bs else Prepended(bs[0], Merged(bs[1..]))
  }

  /** A block in front of others, merged with the first of them if it touches it. */
  function Prepended(b: Tile, rest: seq<Tile>): (cs: seq<Tile>)
    requires rest != []
    ensures cs != [] && cs[0].addr == b.addr
  {
    if b.End() == rest[0].addr then [Tile(b.addr, b.size + rest[0].size, true)] + rest[1..] else [b] + rest
  }

  /** The first free block of a tiling does not touch what lies in front of an allocated tile. */
  lemma GapBehind(ts: seq<Tile>, at: nat, end: nat)
    requires Tiling(ts, at, end) && ts != [] && !ts[0].free && FreeList(ts) != []
    ensures FreeList(ts)[0].addr > at
  {
    FreeListMembers(ts);
    var j :| 0 <= j < |ts| && ts[j] == FreeList(ts)[0];
    TilesInOrder(ts, at, end, 0, j);
  }

  /** On the free list of a tiling, merging blocks that touch is merging neighbouring free tiles. */
  lemma {:induction false} MergedIsCoalesce(ts: seq<Tile>, at: nat, end: nat)
    requires Tiling(ts, at, end)
    ensures Merged(FreeList(ts)) == FreeList(Coalesce(ts))
  {
    if |ts| > 1 {
      MergedIsCoalesce(ts[1..], ts[0].End(), end);
      var rest := Coalesce(ts[1..]);
      var bs := FreeList(ts[1..]);
      assert ([ts[0]] + rest)[1..] == rest;
      if ts[0].free {
        assert FreeList(ts) == [ts[0]] + bs;
        assert FreeList(ts)[1..] == bs;
        if ts[1].free {
          assert ts[0].End() == ts[1].addr;
          hide Tiling;
          assert bs == [ts[1]] + FreeList(ts[1..][1..]);
          assert FreeList(rest) == [rest[0]] + FreeList(rest[1..]);
          assert Coalesce(ts)[1..] == rest[1..];
        } else if bs != [] {
          GapBehind(ts[1..], ts[0].End(), end);
          hide Tiling;
          assert Coalesce(ts) == [ts[0]] + rest;
        }
      }
    }
  }

  /** Blocks in the order of their addresses, with room for their headers. */
  predicate Spread(bs: seq<Tile>) {
    && (forall i | 0 <= i < |bs| :: bs[i].addr > 0 && bs[i].size >= HEADER)
    && (forall i, j | 0 <= i < j < |bs| :: bs[i].End() <= bs[j].addr)
  }

  function Prev(bs: seq<Tile>, i: nat): nat
    requires i < |bs|
  {
    if i == 0 then 0 else bs[i - 1].addr
  }

  function Following(bs: seq<Tile>, i: nat): nat
    requires i < |bs|
  {
    if i + 1 == |bs| then 0 else bs[i + 1].addr
  }

  /** The header of block `i`: three words at its address, in a memory indexed by byte addresses. */
  predicate Node(m: seq<nat>, bs: seq<Tile>, i: nat)
    requires i < |bs|
  {
    var a := bs[i].addr;
    a + HEADER <= |m| && m[a] == Prev(bs, i) && m[a + WORD] == Following(bs, i) && m[a + 2 * WORD] == bs[i].size
  }

  /** The doubly linked list of headers. */
  predicate ListAt(m: seq<nat>, bs: seq<Tile>) {
    forall i | 0 <= i < |bs| :: Node(m, bs, i)
  }

  /** The headers a merge of block `k` with the one behind it reads and writes. */
  lemma JoinedHeaders(m: seq<nat>, cs: seq<Tile>, k: nat)
    requires k + 1 < |cs| && Spread(cs) && ListAt(m, cs)
    ensures cs[k].addr + HEADER <= cs[k].End() && Node(m, cs, k) && Node(m, cs, k + 1)
    ensures InHeader(cs, cs[k].addr + WORD) && InHeader(cs, cs[k].addr + 2 * WORD)
    ensures k + 2 < |cs| ==>
      Node(m, cs, k + 2) && 0 < cs[k].End() <= cs[k + 2].addr && InHeader(cs, cs[k + 2].addr)
  {
  }

  /** Block `k` and the one behind it replaced by their union. */
  function Joined(bs: seq<Tile>, k: nat): seq<Tile>
    requires k + 1 < |bs|
  {
    bs[..k] + [Tile(bs[k].addr, bs[k].size + bs[k + 1].size, true)] + bs[k + 2..]
  }

  lemma JoinSpread(bs: seq<Tile>, k: nat)
    requires k + 1 < |bs| && bs[k].End() == bs[k + 1].addr && Spread(bs)
    ensures Spread(Joined(bs, k))
  {
    var cs := Joined(bs, k);
    forall i, j | 0 <= i < j < |cs|
      ensures cs[i].End() <= cs[j].addr
    {
      assert cs[i].End() == bs[if i < k then i else i + 1].End();
      assert cs[j].addr == bs[if j <= k then j else j + 1].addr;
    }
  }

  /** The writes of one merge: size and next of block `k`, and prev of the block behind the next. */
  predicate JoinWrites(m: seq<nat>, n: seq<nat>, bs: seq<Tile>, k: nat)
    requires k + 1 < |bs|
  {
    var a := bs[k].addr;
    && |n| == |m| && a + HEADER <= |m|
    && (k + 2 < |bs| ==> bs[k + 2].addr < |m|)
    && n[a + WORD] == Following(bs, k + 1) && n[a + 2 * WORD] == bs[k].size + bs[k + 1].size
    && (k + 2 < |bs| ==> n[bs[k + 2].addr] == a)
    && forall x | 0 <= x < |m| && x != a + WORD && x != a + 2 * WORD && (k + 2 < |bs| ==> x != bs[k + 2].addr) ::
         n[x] == m[x]
  }

  lemma JoinNode(m: seq<nat>, n: seq<nat>, bs: seq<Tile>, k: nat, i: nat)
    requires k + 1 < |bs| && Spread(bs) && JoinWrites(m, n, bs, k)
    requires i + 1 < |bs| && Node(m, bs, if i <= k then i else i + 1)
    ensures Node(n, Joined(bs, k), i)
  {
    hide Joined, Prev, Following;
    JoinedLinks(bs, k, i);
    if i < k {
      assert bs[i].End() <= bs[k].addr;
      assert k + 2 < |bs| ==> bs[i].End() <= bs[k + 2].addr;
    } else if i > k {
      assert bs[k].End() <= bs[i + 1].addr;
      assert i > k + 1 ==> bs[k + 2].End() <= bs[i + 1].addr;
    } else {
      assert k + 2 < |bs| ==> bs[k].End() <= bs[k + 2].addr;
    }
  }

  /** Neighbours after a merge. */
  lemma JoinedLinks(bs: seq<Tile>, k: nat, i: nat)
    requires k + 1 < |bs| && i + 1 < |bs|
    ensures var cs := Joined(bs, k);
      && |cs| + 1 == |bs|
      && cs[i] == (if i < k then bs[i] else if i == k then Tile(bs[k].addr, bs[k].size + bs[k + 1].size, true) else bs[i + 1])
      && Prev(cs, i) == (if i <= k then Prev(bs, i) else if i == k + 1 then bs[k].addr else Prev(bs, i + 1))
      && Following(cs, i) == (if i < k then Following(bs, i) else Following(bs, i + 1))
  {
  }

  lemma JoinInMemory(m: seq<nat>, n: seq<nat>, bs: seq<Tile>, k: nat)
    requires k + 1 < |bs| && bs[k].End() == bs[k + 1].addr && Spread(bs)
    requires ListAt(m, bs) && JoinWrites(m, n, bs, k)
    ensures Spread(Joined(bs, k)) && ListAt(n, Joined(bs, k))
  {
    JoinSpread(bs, k);
    forall i | 0 <= i < |Joined(bs, k)|
      ensures Node(n, Joined(bs, k), i)
    {
      JoinNode(m, n, bs, k, i);
    }
  }

  /** Some block of the list has its header over the word. */
  predicate InHeader(bs: seq<Tile>, a: nat) {
    exists i :: 0 <= i < |bs| && bs[i].addr <= a < bs[i].addr + HEADER
  }

  lemma PrependedTwice(x: Tile, y: Tile, rest: seq<Tile>)
    requires x.End() == y.addr && rest != []
    ensures Prepended(x, Prepended(y, rest)) == Prepended(Tile(x.addr, x.size + y.size, true), rest)
  {
    var touching := y.End() == rest[0].addr;
    assert touching ==> Prepended(y, rest)[1..] == rest[1..];
    assert !touching ==> Prepended(y, rest)[1..] == rest;
  }

  /** Merging the first two blocks first makes no difference. */
  lemma MergeFirst(x: Tile, y: Tile, zs: seq<Tile>)
    requires x.End() == y.addr
    ensures Merged([x, y] + zs) == Merged([Tile(x.addr, x.size + y.size, true)] + zs)
  {
    var xy := Tile(x.addr, x.size + y.size, true);
    assert ([x, y] + zs)[1..] == [y] + zs;
    assert ([xy] + zs)[1..] == zs;
    assert ([y] + zs)[1..] == zs;
    if zs != [] {
      hide Prepended;
      PrependedTwice(x, y, Merged(zs));
    }
  }

  /** The first `k` blocks are final and the rest is still to be merged. */
  predicate MergedUpTo(bs: seq<Tile>, cs: seq<Tile>, k: nat) {
    k < |cs| && Merged(bs) == cs[..k] + Merged(cs[k..])
  }

  lemma MergedUpToJoin(bs: seq<Tile>, cs: seq<Tile>, k: nat)
    requires MergedUpTo(bs, cs, k) && k + 1 < |cs| && cs[k].End() == cs[k + 1].addr
    ensures MergedUpTo(bs, Joined(cs, k), k)
  {
    hide Merged;
    MergeFirst(cs[k], cs[k + 1], cs[k + 2..]);
    JoinedParts(cs, k);
  }

  lemma JoinedParts(cs: seq<Tile>, k: nat)
    requires k + 1 < |cs|
    ensures cs[k..] == [cs[k], cs[k + 1]] + cs[k + 2..]
    ensures Joined(cs, k)[k..] == [Tile(cs[k].addr, cs[k].size + cs[k + 1].size, true)] + cs[k + 2..]
    ensures Joined(cs, k)[..k] == cs[..k] && k < |Joined(cs, k)|
  {
  }

  lemma MergedUpToStep(bs: seq<Tile>, cs: seq<Tile>, k: nat)
    requires MergedUpTo(bs, cs, k) && k + 1 < |cs| && cs[k].End() != cs[k + 1].addr
    ensures MergedUpTo(bs, cs, k + 1)
  {
    assert cs[k..][1..] == cs[k + 1..];
    assert Merged(cs[k..]) == [cs[k]] + Merged(cs[k + 1..]);
    assert cs[..k] + [cs[k]] == cs[..k + 1];
  }

  lemma MergedUpToEnd(bs: seq<Tile>, cs: seq<Tile>, k: nat)
    requires MergedUpTo(bs, cs, k) && k + 1 == |cs|
    ensures cs == Merged(bs)
  {
    assert cs[..k] + cs[k..] == cs;
  }

  lemma JoinHeaders(bs: seq<Tile>, k: nat, a: nat)
    requires k + 1 < |bs| && InHeader(Joined(bs, k), a)
    ensures InHeader(bs, a)
  {
    var cs := Joined(bs, k);
    var i :| 0 <= i < |cs| && cs[i].addr <= a < cs[i].addr + HEADER;
    var j := if i <= k then i else i + 1;
    assert bs[j].addr == cs[i].addr;
  }

  // ----- From tiles to list entries -----

  /** Number of free tiles in front of tile `i`. */
  function Rank(ts: seq<Tile>, i: nat): nat
    requires i < |ts|
  {
    if i == 0 then 0 else (if ts[0].free then 1 else 0) + Rank(ts[1..], i - 1)
  }

  lemma {:induction false} FreeListSpread(ts: seq<Tile>, at: nat, end: nat)
    requires Tiling(ts, at, end) && at > 0
    ensures Spread(FreeList(ts))
    ensures forall k | 0 <= k < |FreeList(ts)| :: at <= FreeList(ts)[k].addr && FreeList(ts)[k].End() <= end
  {
    if ts != [] {
      FreeListSpread(ts[1..], ts[0].End(), end);
      TilingEnd(ts[1..], ts[0].End(), end);
    }
  }

  lemma {:induction false} RankOfFree(ts: seq<Tile>, i: nat)
    requires i < |ts| && ts[i].free
    ensures Rank(ts, i) < |FreeList(ts)| && FreeList(ts)[Rank(ts, i)] == ts[i]
  {
    if i > 0 {
      RankOfFree(ts[1..], i - 1);
    }
  }

  lemma {:induction false} FirstFitRank(ts: seq<Tile>, needed: nat)
    ensures var i := FirstFit(ts, needed);
      && i <= |ts|
      && (i < |ts| ==>
            && Rank(ts, i) < |FreeList(ts)| && FreeList(ts)[Rank(ts, i)] == ts[i]
            && ts[i].free && ts[i].size >= needed
            && forall k | 0 <= k < Rank(ts, i) :: FreeList(ts)[k].size < needed)
      && (i == |ts| ==> forall k | 0 <= k < |FreeList(ts)| :: FreeList(ts)[k].size < needed)
  {
    if ts != [] && !(ts[0].free && ts[0].size >= needed) {
      FirstFitRank(ts[1..], needed);
    }
  }

  lemma {:induction false} FreeListOfAllocate(ts: seq<Tile>, i: nat, dataSize: nat)
    requires i < |ts| && ts[i].free && ts[i].size >= dataSize
    ensures Rank(ts, i) < |FreeList(ts)|
    ensures FreeList(Allocate(ts, i, dataSize)) ==
      FreeList(ts)[Rank(ts, i) := Tile(ts[i].addr + dataSize, ts[i].size - dataSize, true)]
  {
    var us := Allocate(ts, i, dataSize);
    if i == 0 {
      assert us[1..][1..] == ts[1..];
    } else {
      FreeListOfAllocate(ts[1..], i - 1, dataSize);
      assert us[1..] == Allocate(ts[1..], i - 1, dataSize);
    }
  }

  lemma {:induction false} FreeListOfFreed(ts: seq<Tile>, at: nat, end: nat, i: nat)
    requires Tiling(ts, at, end) && i < |ts| && !ts[i].free
    ensures var r := Rank(ts, i);
      var bs := FreeList(ts);
      && r <= |bs|
      && FreeList(Freed(ts, i)) == bs[..r] + [ts[i].(free := true)] + bs[r..]
      && (forall k | 0 <= k < r :: bs[k].addr < ts[i].addr)
      && (forall k | r <= k < |bs| :: ts[i].addr < bs[k].addr)
  {
    InsertedAtRank(ts, i);
    hide FreeList, Rank, Freed, Tiling;
    RankInOrder(ts, at, end, i);
  }

  lemma {:induction false} InsertedAtRank(ts: seq<Tile>, i: nat)
    requires i < |ts| && !ts[i].free
    ensures var r := Rank(ts, i);
      var bs := FreeList(ts);
      r <= |bs| && FreeList(Freed(ts, i)) == bs[..r] + [ts[i].(free := true)] + bs[r..]
  {
    if i == 0 {
      assert Freed(ts, 0)[1..] == ts[1..];
    } else {
      InsertedAtRank(ts[1..], i - 1);
      assert Freed(ts, i)[1..] == Freed(ts[1..], i - 1);
      if ts[0].free {
        InsertedBehind(ts[0], FreeList(ts[1..]), Rank(ts[1..], i - 1), ts[i].(free := true));
      }
    }
  }

  lemma InsertedBehind(a: Tile, s: seq<Tile>, r: nat, x: Tile)
    requires r <= |s|
    ensures [a] + (s[..r] + [x] + s[r..]) == ([a] + s)[..r + 1] + [x] + ([a] + s)[r + 1..]
  {
  }

  /** The blocks before a tile's rank lie in front of it, the others behind it. */
  lemma {:induction false} RankInOrder(ts: seq<Tile>, at: nat, end: nat, i: nat)
    requires Tiling(ts, at, end) && i < |ts| && !ts[i].free
    ensures var r := Rank(ts, i);
      var bs := FreeList(ts);
      && r <= |bs|
      && (forall k | 0 <= k < r :: bs[k].addr < ts[i].addr)
      && (forall k | r <= k < |bs| :: ts[i].addr < bs[k].addr)
  {
    TilesInOrder(ts, at, end, 0, i);
    if i == 0 {
      FreeListAfter(ts[1..], ts[0].End(), end);
    } else {
      RankInOrder(ts[1..], ts[0].End(), end, i - 1);
    }
  }

  lemma {:induction false} FreeListAfter(ts: seq<Tile>, at: nat, end: nat)
    requires Tiling(ts, at, end)
    ensures forall k | 0 <= k < |FreeList(ts)| :: at <= FreeList(ts)[k].addr
  {
    if ts != [] {
      FreeListAfter(ts[1..], ts[0].End(), end);
    }
  }

  /** The address lies in no free tile. */
  predicate OutsideFree(ts: seq<Tile>, a: nat) {
    forall i | 0 <= i < |ts| && ts[i].free :: !(ts[i].addr <= a < ts[i].End())
  }

  lemma ChunkOutsideFree(ts: seq<Tile>, at: nat, end: nat, i: nat, a: nat)
    requires Tiling(ts, at, end) && i < |ts| && !ts[i].free && ts[i].addr <= a < ts[i].End()
    ensures OutsideFree(ts, a)
  {
    forall j | 0 <= j < |ts| && ts[j].free
      ensures !(ts[j].addr <= a < ts[j].End())
    {
      if i < j {
        TilesInOrder(ts, at, end, i, j);
      } else {
        TilesInOrder(ts, at, end, j, i);
      }
    }
  }

  /** The headers of the free list lie in free tiles. */
  lemma HeadersInFree(ts: seq<Tile>, at: nat, end: nat, a: nat)
    requires Tiling(ts, at, end) && OutsideFree(ts, a)
    ensures !InHeader(FreeList(ts), a)
  {
    var bs := FreeList(ts);
    FreeListMembers(ts);
    forall k | 0 <= k < |bs|
      ensures !(bs[k].addr <= a < bs[k].addr + HEADER)
    {
      assert bs[k] in ts;
      var i :| 0 <= i < |ts| && ts[i] == bs[k];
      TilesInOrder(ts, at, end, i, i);
    }
  }

  /** Every chunk carries its size in the word in front of its data. */
  predicate Tagged(m: seq<nat>, ts: seq<Tile>) {
    forall i | 0 <= i < |ts| && !ts[i].free :: ts[i].addr < |m| && m[ts[i].addr] == ts[i].size
  }

  /** Allocating writes only where the heap was free; chunks keep their tags. */
  lemma TagsAfterAllocate(m: seq<nat>, n: seq<nat>, ts: seq<Tile>, at: nat, end: nat, i: nat, dataSize: nat)
    requires Tiling(ts, at, end) && i < |ts| && ts[i].free && HEADER <= dataSize && dataSize + HEADER <= ts[i].size
    requires Tagged(m, ts) && |n| == |m| && end <= |m|
    requires forall a | 0 <= a < |m| && OutsideFree(ts, a) :: n[a] == m[a]
    requires ts[i].addr < |m| && n[ts[i].addr] == dataSize
    ensures Tagged(n, Allocate(ts, i, dataSize))
  {
    var us := Allocate(ts, i, dataSize);
    forall k | 0 <= k < |us| && !us[k].free
      ensures us[k].addr < |n| && n[us[k].addr] == us[k].size
    {
      AllocateAt(ts, i, dataSize, k);
      if k != i {
        var q := if k < i then k else k - 1;
        TilesInOrder(ts, at, end, q, q);
        ChunkOutsideFree(ts, at, end, q, ts[q].addr);
      }
    }
  }

  lemma {:induction false} AllocateAt(ts: seq<Tile>, i: nat, dataSize: nat, k: nat)
    requires i < |ts| && ts[i].size >= dataSize && k <= |ts|
    ensures Allocate(ts, i, dataSize)[k] ==
      if k < i then ts[k]
      else if k == i then Tile(ts[i].addr, dataSize, false)
      else if k == i + 1 then Tile(ts[i].addr + dataSize, ts[i].size - dataSize, true)
      else ts[k - 1]
  {
    if 0 < i && 0 < k {
      AllocateAt(ts[1..], i - 1, dataSize, k - 1);
    }
  }

  /** Wherever the heap was in use before an allocation, and the tag of the chunk aside, no header
      of the new free list lies. */
  lemma HeadersAfterAllocate(ts: seq<Tile>, at: nat, end: nat, i: nat, dataSize: nat, a: nat)
    requires Tiling(ts, at, end) && Apart(ts) && i < |ts| && ts[i].free
    requires HEADER <= dataSize && dataSize + HEADER <= ts[i].size
    requires OutsideFree(ts, a)
    ensures !InHeader(FreeList(Allocate(ts, i, dataSize)), a)
  {
    var us := Allocate(ts, i, dataSize);
    AllocateKeepsTiling(ts, at, end, i, dataSize);
    forall k | 0 <= k < |us| && us[k].free
      ensures !(us[k].addr <= a < us[k].End())
    {
      AllocateAt(ts, i, dataSize, k);
      assert !(ts[i].addr <= a < ts[i].End());
    }
    HeadersInFree(us, at, end, a);
  }

  lemma {:induction false} FreedAt(ts: seq<Tile>, i: nat)
    requires i < |ts|
    ensures Freed(ts, i) == ts[i := ts[i].(free := true)]
  {
    if i > 0 {
      FreedAt(ts[1..], i - 1);
    }
  }

  /** A chunk of a merged tiling is a chunk of the original one. */
  lemma {:induction false} CoalesceKeepsChunks(ts: seq<Tile>, k: nat)
    requires k < |Coalesce(ts)| && !Coalesce(ts)[k].free
    ensures Coalesce(ts)[k] in ts
  {
    if |ts| > 1 && k > 0 {
      var rest := Coalesce(ts[1..]);
      var j := if ts[0].free && rest[0].free then k else k - 1;
      assert Coalesce(ts)[k] == rest[j];
      hide Coalesce;
      CoalesceKeepsChunks(ts[1..], j);
      assert ts == [ts[0]] + ts[1..];
    }
  }

  lemma TagsAfterRelease(m: seq<nat>, n: seq<nat>, ts: seq<Tile>, at: nat, end: nat, i: nat)
    requires Tiling(ts, at, end) && i < |ts| && Tagged(m, ts) && |n| == |m| && end <= |m|
    requires forall a | 0 <= a < |m| && OutsideFree(Freed(ts, i), a) :: n[a] == m[a]
    ensures Tagged(n, Release(ts, i))
  {
    var us := Freed(ts, i);
    var vs := Release(ts, i);
    FreedAt(ts, i);
    FreedKeepsTiling(ts, at, end, i);
    forall k | 0 <= k < |vs| && !vs[k].free
      ensures vs[k].addr < |n| && n[vs[k].addr] == vs[k].size
    {
      CoalesceKeepsChunks(us, k);
      var q :| 0 <= q < |us| && us[q] == vs[k];
      assert ts[q] == us[q];
      TilesInOrder(us, at, end, q, q);
      ChunkOutsideFree(us, at, end, q, us[q].addr);
    }
  }

  // ----- Linking one block into the list -----

  /** `cs` has a new block at `k`, in place of `gone` blocks of `bs` (none or one). */
  predicate Spliced(bs: seq<Tile>, cs: seq<Tile>, k: nat, gone: nat) {
    && k < |cs| && gone <= 1 && |cs| + gone == |bs| + 1
    && (forall i | 0 <= i < k :: cs[i] == bs[i])
    && (forall i | k < i < |cs| :: cs[i] == bs[i - 1 + gone])
  }

  /** The new header is in place, its neighbours point to it, and other headers are as they were. */
  predicate SpliceWrites(m: seq<nat>, n: seq<nat>, cs: seq<Tile>, k: nat)
    requires k < |cs|
  {
    && |n| == |m| && Node(n, cs, k)
    && (k > 0 ==> cs[k - 1].addr + HEADER <= |m| && n[cs[k - 1].addr + WORD] == cs[k].addr)
    && (k + 1 < |cs| ==> cs[k + 1].addr < |m| && n[cs[k + 1].addr] == cs[k].addr)
    && forall x | 0 <= x < |m| && !(cs[k].addr <= x < cs[k].End())
         && (k > 0 ==> x != cs[k - 1].addr + WORD) && (k + 1 < |cs| ==> x != cs[k + 1].addr)
         && InHeader(cs, x) :: n[x] == m[x]
  }

  /** Memory after writing a header and pointing its neighbours to it. */
  function Linked(m: seq<nat>, p: nat, prev: nat, next: nat, size: nat): (n: seq<nat>)
    requires p + HEADER <= |m| && prev + WORD < |m| && next < |m|
    ensures |n| == |m|
  {
    var n := m[p := prev][p + WORD := next][p + 2 * WORD := size];
    var n := if prev == 0 then n else n[prev + WORD := p];
    if next == 0 then n else n[next := p]
  }

  lemma LinkedIsSplice(m: seq<nat>, cs: seq<Tile>, k: nat)
    requires k < |cs| && Spread(cs)
    requires forall i | 0 <= i < |cs| :: cs[i].End() <= |m|
    ensures var b := cs[k];
      && b.addr + HEADER <= |m| && Prev(cs, k) + WORD < |m| && Following(cs, k) < |m|
      && SpliceWrites(m, Linked(m, b.addr, Prev(cs, k), Following(cs, k), b.size), cs, k)
  {
    hide InHeader, Spread;
    SpreadNeighbours(cs, k);
    var b := cs[k];
    var n := Linked(m, b.addr, Prev(cs, k), Following(cs, k), b.size);
    assert Node(n, cs, k);
  }

  /** A block, its neighbours and their headers do not overlap. */
  lemma SpreadNeighbours(cs: seq<Tile>, k: nat)
    requires Spread(cs) && k < |cs|
    ensures cs[k].addr > 0 && cs[k].size >= HEADER
    ensures k > 0 ==> cs[k - 1].addr > 0 && cs[k - 1].addr + HEADER <= cs[k - 1].End() <= cs[k].addr
    ensures k + 1 < |cs| ==> cs[k].End() <= cs[k + 1].addr && cs[k + 1].addr + HEADER <= cs[k + 1].End()
  {
  }

  /** A write outside all headers leaves the splice as it is. */
  lemma SpliceWithTag(m: seq<nat>, n: seq<nat>, cs: seq<Tile>, k: nat, tag: nat, value: nat)
    requires k < |cs| && SpliceWrites(m, n, cs, k) && tag < |m| && !InHeader(cs, tag)
    ensures SpliceWrites(m, n[tag := value], cs, k)
  {
    var b := cs[k];
    assert InHeader(cs, b.addr) && InHeader(cs, b.addr + WORD) && InHeader(cs, b.addr + 2 * WORD);
    assert k > 0 ==> InHeader(cs, cs[k - 1].addr + WORD);
    assert k + 1 < |cs| ==> InHeader(cs, cs[k + 1].addr);
    assert Node(n[tag := value], cs, k);
  }

  lemma LinkedFrame(m: seq<nat>, cs: seq<Tile>, k: nat)
    requires k < |cs| && Spread(cs)
    requires forall i | 0 <= i < |cs| :: cs[i].End() <= |m|
    ensures var b := cs[k];
      && b.addr + HEADER <= |m| && Prev(cs, k) + WORD < |m| && Following(cs, k) < |m|
      && forall x | 0 <= x < |m| && !InHeader(cs, x) ::
           Linked(m, b.addr, Prev(cs, k), Following(cs, k), b.size)[x] == m[x]
  {
    var b := cs[k];
    assert k > 0 ==> cs[k - 1].End() <= b.addr;
    assert InHeader(cs, b.addr) && InHeader(cs, b.addr + WORD) && InHeader(cs, b.addr + 2 * WORD);
    assert k > 0 ==> InHeader(cs, cs[k - 1].addr + WORD);
    assert k + 1 < |cs| ==> InHeader(cs, cs[k + 1].addr);
  }

  /** A word of another header that is not a pointer to the new block. */
  lemma SpliceFrame(m: seq<nat>, n: seq<nat>, cs: seq<Tile>, k: nat, i: nat, x: nat)
    requires k < |cs| && Spread(cs) && SpliceWrites(m, n, cs, k)
    requires i < |cs| && i != k && cs[i].addr <= x < cs[i].addr + HEADER && x < |m|
    requires i + 1 == k ==> x != cs[i].addr + WORD
    requires i == k + 1 ==> x != cs[i].addr
    ensures n[x] == m[x]
  {
    assert InHeader(cs, x);
    hide InHeader;
    assert cs[i].size >= HEADER;
    if i < k {
      assert cs[i].End() <= cs[k].addr;
      assert i < k - 1 ==> cs[i].End() <= cs[k - 1].addr;
      assert k + 1 < |cs| ==> cs[i].End() <= cs[k + 1].addr;
    } else {
      assert cs[k].End() <= cs[i].addr;
      assert i > k + 1 ==> cs[k + 1].End() <= cs[i].addr;
      assert k > 0 ==> cs[k - 1].End() <= cs[i].addr && cs[k - 1].size >= HEADER;
    }
  }

  lemma SpliceNode(m: seq<nat>, n: seq<nat>, bs: seq<Tile>, cs: seq<Tile>, k: nat, gone: nat, i: nat)
    requires Spliced(bs, cs, k, gone) && Spread(cs) && SpliceWrites(m, n, cs, k)
    requires i < |cs| && i != k && Node(m, bs, if i < k then i else i - 1 + gone)
    ensures Node(n, cs, i)
  {
    hide Spread, InHeader, Spliced, Prev, Following;
    var a := cs[i].addr;
    SplicedLinks(bs, cs, k, gone, i);
    if i != k + 1 {
      SpliceFrame(m, n, cs, k, i, a);
    }
    if i + 1 != k {
      SpliceFrame(m, n, cs, k, i, a + WORD);
    }
    SpliceFrame(m, n, cs, k, i, a + 2 * WORD);
  }

  /** Other blocks keep their neighbours, except where the new block is one. */
  lemma SplicedLinks(bs: seq<Tile>, cs: seq<Tile>, k: nat, gone: nat, i: nat)
    requires Spliced(bs, cs, k, gone) && i < |cs| && i != k
    ensures var j := if i < k then i else i - 1 + gone;
      && k < |cs| && j < |bs| && bs[j] == cs[i]
      && Prev(cs, i) == (if i == k + 1 then cs[k].addr else Prev(bs, j))
      && Following(cs, i) == (if i + 1 == k then cs[k].addr else Following(bs, j))
  {
  }

  lemma SpliceInMemory(m: seq<nat>, n: seq<nat>, bs: seq<Tile>, cs: seq<Tile>, k: nat, gone: nat)
    requires Spliced(bs, cs, k, gone) && Spread(cs) && SpliceWrites(m, n, cs, k) && ListAt(m, bs)
    ensures ListAt(n, cs)
  {
    forall i | 0 <= i < |cs|
      ensures Node(n, cs, i)
    {
      if i != k {
        SpliceNode(m, n, bs, cs, k, gone, i);
      }
    }
  }

  lemma SplitSpread(bs: seq<Tile>, j: nat, dataSize: nat)
    requires Spread(bs) && j < |bs| && HEADER <= dataSize && dataSize + HEADER <= bs[j].size
    ensures var cs := bs[j := Tile(bs[j].addr + dataSize, bs[j].size - dataSize, true)];
      Spread(cs) && !InHeader(cs, bs[j].addr)
  {
    var cs := bs[j := Tile(bs[j].addr + dataSize, bs[j].size - dataSize, true)];
    forall i | 0 <= i < |bs|
      ensures !(cs[i].addr <= bs[j].addr < cs[i].addr + HEADER)
    {
      assert i < j ==> bs[i].End() <= bs[j].addr;
      assert i > j ==> bs[j].End() <= bs[i].addr;
    }
  }

  lemma SplitInMemory(m: seq<nat>, bs: seq<Tile>, j: nat, dataSize: nat)
    requires ListAt(m, bs) && Spread(bs) && j < |bs| && HEADER <= dataSize && dataSize + HEADER <= bs[j].size
    requires forall i | 0 <= i < |bs| :: bs[i].End() <= |m|
    ensures var cs := bs[j := Tile(bs[j].addr + dataSize, bs[j].size - dataSize, true)];
      && bs[j].End() <= |m| && Prev(bs, j) + WORD < |m| && Following(bs, j) < |m|
      && var n := Linked(m, cs[j].addr, Prev(bs, j), Following(bs, j), cs[j].size)[bs[j].addr := dataSize];
      && ListAt(n, cs)
      && forall a | 0 <= a < |m| && a != bs[j].addr && !InHeader(cs, a) :: n[a] == m[a]
  {
    var cs := bs[j := Tile(bs[j].addr + dataSize, bs[j].size - dataSize, true)];
    SplitSpread(bs, j, dataSize);
    LinkedIsSplice(m, cs, j);
    LinkedFrame(m, cs, j);
    assert Prev(cs, j) == Prev(bs, j) && Following(cs, j) == Following(bs, j);
    var n := Linked(m, cs[j].addr, Prev(bs, j), Following(bs, j), cs[j].size);
    SpliceWithTag(m, n, cs, j, bs[j].addr, dataSize);
    SpliceInMemory(m, n[bs[j].addr := dataSize], bs, cs, j, 1);
  }

  predicate Carvable(m: seq<nat>, a: nat, dataSize: nat) {
    && 0 < a && a + dataSize + HEADER <= |m| && a + HEADER <= |m|
    && m[a] + WORD < |m| && m[a + WORD] < |m| && m[a + 2 * WORD] >= dataSize
  }

  /** Memory after the block at `a` was split for a request. */
  function Carved(m: seq<nat>, a: nat, dataSize: nat): (n: seq<nat>)
    requires Carvable(m, a, dataSize)
    ensures |n| == |m|
  {
    Linked(m, a + dataSize, m[a], m[a + WORD], m[a + 2 * WORD] - dataSize)[a := dataSize]
  }

  lemma CarveList(m: seq<nat>, bs: seq<Tile>, j: nat, dataSize: nat)
    requires ListAt(m, bs) && Spread(bs) && j < |bs| && HEADER <= dataSize && dataSize + HEADER <= bs[j].size
    requires forall i | 0 <= i < |bs| :: bs[i].End() <= |m|
    ensures Carvable(m, bs[j].addr, dataSize)
    ensures var cs := bs[j := Tile(bs[j].addr + dataSize, bs[j].size - dataSize, true)];
      var n := Carved(m, bs[j].addr, dataSize);
      && ListAt(n, cs)
      && cs[0].addr == (if m[bs[j].addr] == 0 then bs[j].addr + dataSize else bs[0].addr)
      && n[bs[j].addr] == dataSize
      && forall a | 0 <= a < |m| && a != bs[j].addr && !InHeader(cs, a) :: n[a] == m[a]
  {
    hide Linked, InHeader;
    assert Node(m, bs, j);
    assert j > 0 ==> bs[j - 1].addr > 0;
    SplitInMemory(m, bs, j, dataSize);
  }

  /** Memory and heap after a block was split for a request. */
  lemma CarveInMemory(m: seq<nat>, ts: seq<Tile>, base: nat, end: nat, i: nat, dataSize: nat)
    requires Tiling(ts, base, end) && Apart(ts) && 0 < base && end <= |m|
    requires ListAt(m, FreeList(ts)) && Tagged(m, ts)
    requires i < |ts| && ts[i].free && HEADER <= dataSize && dataSize + HEADER <= ts[i].size
    ensures Carvable(m, ts[i].addr, dataSize)
    ensures var us := Allocate(ts, i, dataSize);
      var n := Carved(m, ts[i].addr, dataSize);
      && ListAt(n, FreeList(us)) && Tagged(n, us)
      && FreeList(ts) != [] && FreeList(us) != []
      && FreeList(us)[0].addr == (if m[ts[i].addr] == 0 then ts[i].addr + dataSize else FreeList(ts)[0].addr)
      && forall x | 0 <= x < |m| && OutsideFree(ts, x) :: n[x] == m[x]
  {
    hide Carved, Carvable, ListAt, Spread, InHeader, Tagged, FreeList;
    var j := Rank(ts, i);
    FreeListSpread(ts, base, end);
    RankOfFree(ts, i);
    CarveList(m, FreeList(ts), j, dataSize);
    FreeListOfAllocate(ts, i, dataSize);
    var n := Carved(m, ts[i].addr, dataSize);
    TilesInOrder(ts, base, end, i, i);
    forall x | 0 <= x < |m| && OutsideFree(ts, x)
      ensures n[x] == m[x]
    {
      HeadersAfterAllocate(ts, base, end, i, dataSize, x);
      assert x != ts[i].addr;
    }
    TagsAfterAllocate(m, n, ts, base, end, i, dataSize);
  }

  lemma InsertInMemory(m: seq<nat>, bs: seq<Tile>, cs: seq<Tile>, k: nat)
    requires ListAt(m, bs) && Spread(cs) && k <= |bs| && Spliced(bs, cs, k, 0)
    requires forall i | 0 <= i < |cs| :: cs[i].End() <= |m|
    ensures cs[k].addr + HEADER <= |m| && Prev(cs, k) + WORD < |m| && Following(cs, k) < |m|
    ensures var n := Linked(m, cs[k].addr, Prev(cs, k), Following(cs, k), cs[k].size);
      && ListAt(n, cs)
      && forall a | 0 <= a < |m| && !InHeader(cs, a) :: n[a] == m[a]
  {
    LinkedFrame(m, cs, k);
    LinkedIsSplice(m, cs, k);
    SpliceInMemory(m, Linked(m, cs[k].addr, Prev(cs, k), Following(cs, k), cs[k].size), bs, cs, k, 0);
  }

  class Heap {
    // One entry per byte address; entries at word addresses hold words. Address 0 is null.
    const mem: array<nat>
    var firstFree: nat
    ghost var base: nat
    ghost var end: nat
    ghost var tiles: seq<Tile>

    constructor (size: nat)
      ensures mem.Length == size && fresh(mem)
    {
      mem := new nat[size](_ => 0);
      firstFree, base, end, tiles := 0, 0, 0, [];
    }

    /** One merge, of the block at `cb` with the one behind it. */
    method JoinNext(cb: nat, ghost cs: seq<Tile>, ghost k: nat)
      requires k + 1 < |cs| && cb == cs[k].addr && cs[k].End() == cs[k + 1].addr
      requires Spread(cs) && ListAt(mem[..], cs)
      modifies mem
      ensures Spread(Joined(cs, k)) && ListAt(mem[..], Joined(cs, k))
      ensures forall a | 0 <= a < mem.Length && !InHeader(cs, a) :: mem[a] == old(mem[a])
    {
      hide Spread, InHeader, ListAt;
      ghost var m := mem[..];
      JoinedHeaders(m, cs, k);
      var next := mem[cb + WORD];
      mem[cb + 2 * WORD] := mem[cb + 2 * WORD] + mem[next + 2 * WORD];
      mem[cb + WORD] := mem[next + WORD];
      if mem[cb + WORD] != 0 {
        mem[mem[cb + WORD]] := cb;
      }
      assert JoinWrites(m, mem[..], cs, k);
      JoinInMemory(m, mem[..], cs, k);
    }

    ghost predicate Valid()
      reads this, mem
    {
      && 0 < base && end <= mem.Length && end < U32
      && WellTiled(tiles, base, end)
      && ListAt(mem[..], FreeList(tiles)) && firstFree == FreeList(tiles)[0].addr
      && Tagged(mem[..], tiles)
    }

    method SetMemoryArea(buffer: nat, maxSize: nat)
      requires 0 < buffer && maxSize >= HEADER && buffer + maxSize <= mem.Length && buffer + maxSize < U32
      modifies this, mem
      ensures Valid() && base == buffer && end == buffer + maxSize
      ensures tiles == [Tile(buffer, maxSize, true)]
    {
      firstFree := buffer;
      mem[buffer + 2 * WORD] := maxSize;
      mem[buffer] := 0;
      mem[buffer + WORD] := 0;
      base, end, tiles := buffer, buffer + maxSize, [Tile(buffer, maxSize, true)];
      assert FreeList(tiles) == tiles;
    }

    /** The search for a block: the first that is large enough, or the last of the list. */
    method FindBlock(needed: nat) returns (cfree: nat, ghost j: nat)
      requires Valid()
      ensures j < |FreeList(tiles)| && cfree == FreeList(tiles)[j].addr
      ensures forall k | 0 <= k < j :: FreeList(tiles)[k].size < needed
      ensures FreeList(tiles)[j].size < needed ==> j + 1 == |FreeList(tiles)|
    {
      ghost var bs := FreeList(tiles);
      FreeListSpread(tiles, base, end);
      cfree := firstFree;
      j := 0;
      assert Node(mem[..], bs, 0);
      while cfree != 0 && mem[cfree + WORD] != 0 && mem[cfree + 2 * WORD] < needed
        invariant j < |bs| && cfree == bs[j].addr && cfree + HEADER <= mem.Length
        invariant forall k | 0 <= k < j :: bs[k].size < needed
        decreases |bs| - j
      {
        assert Node(mem[..], bs, j) && Node(mem[..], bs, j + 1);
        cfree := mem[cfree + WORD];
        j := j + 1;
      }
      assert Node(mem[..], bs, j);
    }

    /** Writes a header and lets its neighbours, or the head of the list, point to it. */
    method Link(p: nat, prev: nat, next: nat, size: nat)
      requires 0 < p && p + HEADER <= mem.Length && prev + WORD < mem.Length && next < mem.Length
      modifies mem, `firstFree
      ensures mem[..] == Linked(old(mem[..]), p, prev, next, size)
      ensures firstFree == if prev == 0 then p else old(firstFree)
    {
      mem[p] := prev;
      mem[p + WORD] := next;
      mem[p + 2 * WORD] := size;
      if prev == 0 {
        firstFree := p;
      } else {
        mem[prev + WORD] := p;
      }
      if next != 0 {
        mem[next] := p;
      }
    }

    /** Splits the block at `cfree`: its front part becomes a chunk, the rest takes its place. */
    method SplitBlock(cfree: nat, dataSize: nat)
      requires Carvable(mem[..], cfree, dataSize)
      modifies mem, `firstFree
      ensures mem[..] == Carved(old(mem[..]), cfree, dataSize)
      ensures firstFree == if old(mem[..])[cfree] == 0 then cfree + dataSize else old(firstFree)
    {
      Link(cfree + dataSize, mem[cfree], mem[cfree + WORD], mem[cfree + 2 * WORD] - dataSize);
      ghost var n := mem[..];
      mem[cfree] := dataSize;
      assert mem[..] == n[cfree := dataSize];
    }

    /** The block of tile `i` is split for a request. */
    method Carve(cfree: nat, dataSize: nat, ghost i: nat)
      requires Valid() && i < |tiles| && tiles[i].free && cfree == tiles[i].addr
      requires HEADER <= dataSize && dataSize + HEADER <= tiles[i].size
      modifies this, mem
      ensures Valid() && base == old(base) && end == old(end)
      ensures tiles == Allocate(old(tiles), i, dataSize)
      ensures forall a | 0 <= a < mem.Length && OutsideFree(old(tiles), a) :: mem[a] == old(mem[a])
    {
      ghost var m := mem[..];
      CarveInMemory(m, tiles, base, end, i, dataSize);
      SplitBlock(cfree, dataSize);
      AllocateKeepsTiling(tiles, base, end, i, dataSize);
      assert forall a | 0 <= a < mem.Length && OutsideFree(tiles, a) :: mem[..][a] == m[a];
      tiles := Allocate(tiles, i, dataSize);
    }

    /** Bytes for the tag and the data, made a multiple of the header. */
    method ChunkSize(size: nat) returns (dataSize: nat)
      ensures dataSize == DataSize(size) && dataSize % 12 == 0
      ensures Max(12, 4 + size) < dataSize <= Max(12, 4 + size) + 12
    {
      dataSize := WORD + size;
      if dataSize < HEADER {
        dataSize := HEADER;
      }
      dataSize := dataSize + HEADER - dataSize % HEADER;
    }

    /** Serves a request from the lowest block that is large enough. */
    method Malloc(size: nat) returns (ptr: nat)
      requires Valid() && DataSize(size) + HEADER < U32
      modifies this, mem
      ensures Valid() && base == old(base) && end == old(end)
      ensures var i := FirstFit(old(tiles), DataSize(size) + HEADER);
        if size == 0 || i == |old(tiles)| then
          ptr == 0 && tiles == old(tiles) && mem[..] == old(mem[..])
        else
          && i < |old(tiles)| && old(tiles)[i].size >= DataSize(size)
          && ptr == old(tiles)[i].addr + 4 && tiles == Allocate(old(tiles), i, DataSize(size))
      ensures forall a | 0 <= a < mem.Length && OutsideFree(old(tiles), a) :: mem[a] == old(mem[a])
    {
      if size == 0 {
        return 0;
      }
      var dataSize := ChunkSize(size);
      var needed := dataSize + HEADER;
      FirstFitRank(tiles, needed);
      FreeListSpread(tiles, base, end);
      var cfree; ghost var j;
      cfree, j := FindBlock(needed);
      assert Node(mem[..], FreeList(tiles), j);
      if cfree == 0 || mem[cfree + 2 * WORD] < needed {
        return 0;
      }
      ghost var i := FirstFit(tiles, needed);
      assert i < |tiles| && j == Rank(tiles, i);
      Carve(cfree, dataSize, i);
      return cfree + WORD;
    }

    /** Place of a block in the list: the blocks in front of it and behind it, or null. */
    method FindPlace(newBlock: nat, ghost bs: seq<Tile>, ghost r: nat) returns (prev: nat, next: nat)
      requires ListAt(mem[..], bs) && Spread(bs) && bs != [] && firstFree == bs[0].addr && newBlock > 0
      requires r <= |bs|
      requires forall k | 0 <= k < r :: bs[k].addr < newBlock
      requires forall k | r <= k < |bs| :: newBlock < bs[k].addr
      ensures prev == if r == 0 then 0 else bs[r - 1].addr
      ensures next == if r == |bs| then 0 else bs[r].addr
    {
      if newBlock < firstFree {
        return 0, firstFree;
      }
      ghost var k := 1;
      prev := firstFree;
      assert Node(mem[..], bs, 0);
      next := mem[prev + WORD];
      while next != 0
        invariant 1 <= k <= r && prev == bs[k - 1].addr
        invariant next == if k == |bs| then 0 else bs[k].addr
        decreases |bs| - k
      {
        if prev < newBlock && newBlock < next {
          break;
        }
        assert Node(mem[..], bs, k);
        prev := next;
        next := mem[next + WORD];
        k := k + 1;
      }
    }

    /** The chunk at `newBlock` becomes a block of the list. */
    method Insert(newBlock: nat, ghost bs: seq<Tile>, ghost cs: seq<Tile>, ghost r: nat)
      requires ListAt(mem[..], bs) && Spread(bs) && bs != [] && firstFree == bs[0].addr
      requires r <= |bs| && Spliced(bs, cs, r, 0) && Spread(cs)
      requires forall i | 0 <= i < |cs| :: cs[i].End() <= mem.Length
      requires newBlock == cs[r].addr && newBlock < mem.Length && mem[newBlock] == cs[r].size
      modifies mem, `firstFree
      ensures ListAt(mem[..], cs) && firstFree == cs[0].addr
      ensures forall a | 0 <= a < mem.Length && !InHeader(cs, a) :: mem[a] == old(mem[a])
    {
      ghost var m := mem[..];
      var blockSize := mem[newBlock];
      forall k | 0 <= k < |bs|
        ensures k < r ==> bs[k].addr < newBlock
        ensures r <= k ==> newBlock < bs[k].addr
      {
        assert bs[k] == cs[if k < r then k else k + 1];
      }
      var prev, next := FindPlace(newBlock, bs, r);
      assert prev == Prev(cs, r) && next == Following(cs, r);
      InsertInMemory(m, bs, cs, r);
      Link(newBlock, prev, next, blockSize);
      assert mem[..] == Linked(m, cs[r].addr, Prev(cs, r), Following(cs, r), cs[r].size);
    }

    /** Takes a chunk back: links it into the list and merges it with free neighbours. */
    method Free(ptr: nat, ghost i: nat) returns (cleared: nat)
      requires Valid() && i < |tiles| && !tiles[i].free && ptr == tiles[i].addr + WORD
      modifies this, mem
      ensures Valid() && base == old(base) && end == old(end)
      ensures cleared == 0 && tiles == Release(old(tiles), i)
      ensures forall a | 0 <= a < mem.Length && OutsideFree(Freed(old(tiles), i), a) :: mem[a] == old(mem[a])
    {
      hide Merged, Coalesce, FreeList, InHeader, Rank, OutsideFree, Spread, Tiling, Freed, ListAt;
      ghost var m, ts, us := mem[..], tiles, Freed(tiles, i);
      FreeListSpread(ts, base, end);
      FreeListOfFreed(ts, base, end, i);
      FreedKeepsTiling(ts, base, end, i);
      FreeListSpread(us, base, end);
      Insert(ptr - WORD, FreeList(ts), FreeList(us), Rank(ts, i));
      MergeAdjacentFreeBlocks(FreeList(us));
      MergedIsCoalesce(us, base, end);
      ReleaseKeepsTiling(ts, base, end, i);
      forall a | 0 <= a < mem.Length && OutsideFree(us, a)
        ensures mem[a] == m[a]
      {
        HeadersInFree(us, base, end, a);
      }
      TagsAfterRelease(m, mem[..], ts, base, end, i);
      tiles := Release(ts, i);
      return 0;
    }

    method MergeAdjacentFreeBlocks(ghost bs: seq<Tile>)
      requires bs != [] && Spread(bs) && ListAt(mem[..], bs) && firstFree == bs[0].addr
      modifies mem
      ensures ListAt(mem[..], Merged(bs))
      ensures forall a | 0 <= a < mem.Length && !InHeader(bs, a) :: mem[a] == old(mem[a])
    {
      var cb := firstFree;
      ghost var k, cs := 0, bs;
      assert bs[0..] == bs;
      assert Node(mem[..], cs, 0);
      while mem[cb + WORD] != 0
        invariant k < |cs| && cb == cs[k].addr && cb + HEADER <= mem.Length
        invariant Spread(cs) && ListAt(mem[..], cs) && MergedUpTo(bs, cs, k)
        invariant forall a | InHeader(cs, a) :: InHeader(bs, a)
        invariant forall a | 0 <= a < mem.Length && !InHeader(bs, a) :: mem[a] == old(mem[a])
        decreases |cs| - k
      {
        assert Node(mem[..], cs, k) && Node(mem[..], cs, k + 1);
        var next := mem[cb + WORD];
        if cb + mem[cb + 2 * WORD] == next {
          MergedUpToJoin(bs, cs, k);
          forall a | InHeader(Joined(cs, k), a)
            ensures InHeader(bs, a)
          {
            JoinHeaders(cs, k, a);
          }
          JoinNext(cb, cs, k);
          cs := Joined(cs, k);
          assert Node(mem[..], cs, k);
        } else {
          MergedUpToStep(bs, cs, k);
          cb := next;
          k := k + 1;
        }
      }
      assert Node(mem[..], cs, k);
      MergedUpToEnd(bs, cs, k);
    }

    /** A store of the owner of a chunk into its data, which no call of the allocator disturbs. */
    method Store(a: nat, value: nat, ghost i: nat)
      requires Valid() && i < |tiles| && !tiles[i].free && tiles[i].addr + WORD <= a < tiles[i].End()
      modifies mem
      ensures Valid() && a < mem.Length && mem[..] == old(mem[..])[a := value]
    {
      ghost var m, bs := mem[..], FreeList(tiles);
      TilesInOrder(tiles, base, end, i, i);
      mem[a] := value;
      ChunkOutsideFree(tiles, base, end, i, a);
      HeadersInFree(tiles, base, end, a);
      forall k | 0 <= k < |bs|
        ensures Node(mem[..], bs, k)
      {
        assert Node(m, bs, k) && !(bs[k].addr <= a < bs[k].addr + HEADER);
      }
      forall k | 0 <= k < |tiles| && !tiles[k].free
        ensures tiles[k].addr < mem.Length && mem[tiles[k].addr] == tiles[k].size
      {
        if k < i {
          TilesInOrder(tiles, base, end, k, i);
        } else {
          TilesInOrder(tiles, base, end, i, k);
        }
      }
    }
  }

  // ----- Reachable heaps -----

  /** Requests, and the return of the `i`-th tile when it is a chunk. */
  datatype HeapOp = MallocOp(size: nat) | FreeOp(i: nat)

  function Apply(ts: seq<Tile>, op: HeapOp): seq<Tile> {
    match op
    case MallocOp(size) =>
      FirstFitIs(ts, DataSize(size) + HEADER);
      var i := FirstFit(ts, DataSize(size) + HEADER);
      if size == 0 || i == |ts| then ts else Allocate(ts, i, DataSize(size))
    case FreeOp(i) =>
      if i < |ts| && !ts[i].free then Release(ts, i) else ts
  }

  function RunHeap(ts: seq<Tile>, ops: seq<HeapOp>): seq<Tile>
    decreases |ops|
  {
    if ops == [] then ts else RunHeap(Apply(ts, ops[0]), ops[1..])
  }

  lemma {:induction false} RunKeepsTiling(ts: seq<Tile>, base: nat, end: nat, ops: seq<HeapOp>)
    requires WellTiled(ts, base, end)
    ensures WellTiled(RunHeap(ts, ops), base, end)
    decreases |ops|
  {
    if ops != [] {
      match ops[0]
      case MallocOp(size) =>
        FirstFitIs(ts, DataSize(size) + HEADER);
        DataSizeIs(size);
        var i := FirstFit(ts, DataSize(size) + HEADER);
        if size > 0 && i < |ts| {
          AllocateKeepsTiling(ts, base, end, i, DataSize(size));
        }
        RunKeepsTiling(Apply(ts, ops[0]), base, end, ops[1..]);
      case FreeOp(i) =>
        if i < |ts| && !ts[i].free {
          ReleaseKeepsTiling(ts, base, end, i);
        }
        RunKeepsTiling(Apply(ts, ops[0]), base, end, ops[1..]);
    }
  }

  /** In every reachable heap the blocks and chunks tile the area: in order, disjoint, with room for
      a header, never two free blocks side by side, at least one free block, and free and
      allocated bytes adding up to the area. */
  lemma EveryHeap(base: nat, size: nat, ops: seq<HeapOp>)
    requires size >= HEADER
    ensures var ts := RunHeap([Tile(base, size, true)], ops);
      && Tiling(ts, base, base + size) && Apart(ts) && FreeList(ts) != []
      && Bytes(ts, true) + Bytes(ts, false) == size
      && (forall i, j | 0 <= i < j < |ts| :: ts[i].End() <= ts[j].addr)
  {
    var start := [Tile(base, size, true)];
    assert FreeList(start) == start;
    RunKeepsTiling(start, base, base + size, ops);
    var ts := RunHeap(start, ops);
    BytesAdd(ts, base, base + size);
    forall i, j | 0 <= i < j < |ts|
      ensures ts[i].End() <= ts[j].addr
    {
      TilesInOrder(ts, base, base + size, i, j);
    }
  }

  /** A request fails exactly when it is for nothing or no free block is large enough; otherwise the
      chunk is cut from the lowest block that is, has room for the data, and freeing it at once
      restores the heap. */
  lemma MallocThenFree(ts: seq<Tile>, base: nat, end: nat, size: nat)
    requires WellTiled(ts, base, end)
    ensures var i := FirstFit(ts, DataSize(size) + HEADER);
      var us := Apply(ts, MallocOp(size));
      if size == 0 || (forall k | 0 <= k < |ts| && ts[k].free :: ts[k].size < DataSize(size) + HEADER) then us == ts
      else
        && i < |ts| && us != ts && us[i].addr == ts[i].addr && !us[i].free
        && us[i].size % 12 == 0 && Max(12, 4 + size) < us[i].size <= Max(12, 4 + size) + 12
        && (forall k | 0 <= k < i && ts[k].free :: ts[k].size < DataSize(size) + HEADER)
        && Apply(us, FreeOp(i)) == ts
  {
    var i := FirstFit(ts, DataSize(size) + HEADER);
    FirstFitIs(ts, DataSize(size) + HEADER);
    DataSizeIs(size);
    if i < |ts| {
      AllocateAt(ts, i, DataSize(size), i);
      ReleaseUndoesAllocate(ts, i, DataSize(size));
    }
  }
}
