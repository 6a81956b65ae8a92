/** The recycling allocator of common/qallocator.h: chunks of one size are carved out of blocks, and freed
    chunks are chained through a link word of their own and handed out again. */
module RecyclingAllocator {
  import opened Arithmetic

  /** An address: a block and a byte offset in it. */
  datatype Ptr = Null | At(block: int, offset: int)

  /** The cells reached from `head` through `next` are exactly `ps`, in order. */
  predicate Chained(next: map<Ptr, Ptr>, head: Ptr, ps: seq<Ptr>)
  {
    && head == First(ps)
    && forall i :: 0 <= i < |ps| ==> ps[i] in next && next[ps[i]] == First(ps[i + 1..])
  }

  function First(ps: seq<Ptr>): Ptr
  {
    if ps == [] then Null else ps[0]
  }

  predicate Distinct(ps: seq<Ptr>)
  {
    forall i, j :: 0 <= i < j < |ps| ==> ps[i] != ps[j]
  }

  lemma ChainTail(next: map<Ptr, Ptr>, head: Ptr, ps: seq<Ptr>)
    requires Chained(next, head, ps) && ps != []
    ensures head in next && Chained(next, next[head], ps[1..])
  {
    forall i | 0 <= i < |ps[1..]| ensures ps[1..][i] in next && next[ps[1..][i]] == First(ps[1..][i + 1..]) {
      assert ps[1..][i + 1..] == ps[i + 2..];
      assert ps[1..][i] == ps[i + 1];
    }
  }

  lemma ChainPush(next: map<Ptr, Ptr>, head: Ptr, ps: seq<Ptr>, p: Ptr)
    requires Chained(next, head, ps) && p !in ps
    ensures Chained(next[p := head], p, [p] + ps)
  {
    var qs, next' := [p] + ps, next[p := head];
    forall i | 0 <= i < |qs| ensures qs[i] in next' && next'[qs[i]] == First(qs[i + 1..]) {
      if i == 0 {
        assert qs[1..] == ps;
      } else {
        assert qs[i] == ps[i - 1];
        assert qs[i + 1..] == ps[i..];
      }
    }
  }

  /** A chain does not notice changes elsewhere. */
  lemma ChainFrame(next: map<Ptr, Ptr>, next': map<Ptr, Ptr>, head: Ptr, ps: seq<Ptr>)
    requires Chained(next, head, ps)
    requires forall p :: p in ps ==> p in next' && next'[p] == next[p]
    ensures Chained(next', head, ps)
  {
    forall i | 0 <= i < |ps| ensures ps[i] in next' && next'[ps[i]] == First(ps[i + 1..]) {
      assert ps[i] in ps;
    }
  }

  lemma RowsAndColumns(blocks: int, block: int, chunks: int, chunk: int)
    requires -1 <= block < blocks && 0 < chunks && 0 <= chunk <= chunks
    ensures block * chunks + chunk <= blocks * chunks
    ensures block * chunks + chunk == blocks * chunks <==> block + 1 == blocks && chunk == chunks
  {
    var product, next, last := block * chunks, (block + 1) * chunks, blocks * chunks;
    assert next == product + chunks;
    if block + 1 < blocks { StrictlyMonotone(chunks, block + 1, blocks); }
  }

  /** The free list is a chain of carved chunks apart from those given out. */
  ghost predicate ListApart(link: map<Ptr, Ptr>, recycle: Ptr, free: seq<Ptr>, carved: set<Ptr>, given: set<Ptr>)
  {
    && Chained(link, recycle, free) && Distinct(free) && given <= carved
    && forall p :: p in free ==> p in carved && p !in given
  }

  lemma FreeKeepsApart(link: map<Ptr, Ptr>, recycle: Ptr, free: seq<Ptr>, carved: set<Ptr>, given: set<Ptr>, p: Ptr)
    requires ListApart(link, recycle, free, carved, given) && p in given
    ensures ListApart(link[p := recycle], p, [p] + free, carved, given - {p}) && |given - {p}| == |given| - 1
  {
    ChainPush(link, recycle, free, p);
  }

  lemma ReuseKeepsApart(link: map<Ptr, Ptr>, recycle: Ptr, free: seq<Ptr>, carved: set<Ptr>, given: set<Ptr>)
    requires ListApart(link, recycle, free, carved, given) && free != []
    ensures recycle == free[0] && recycle in link && recycle in carved && recycle !in given
    ensures ListApart(link, link[recycle], free[1..], carved, given + {recycle}) && |given + {recycle}| == |given| + 1
  {
    ChainTail(link, recycle, free);
    assert free[0] in free;
  }

  lemma PlacesApart(size: nat, i: int, j: int)
    requires i < j
    ensures i * size + size <= j * size
  {
    Monotone(size, i + 1, j);
    assert size * (i + 1) == i * size + size && size * j == j * size;
  }

  /** `QAllocatorRecycle`; memory for a block is always there. */
  class Allocator {
    const chunkSize: int
    const maxBlockNum: int
    const maxChunkNum: int
    var nowBlockNum: int
    var nowChunkNum: int
    var nowBlockLen: int
    var recycle: Ptr
    var link: map<Ptr, Ptr>     // the word in front of each chunk
    var recycleNum: int
    var allocNum: int
    ghost var carved: set<Ptr>  // all chunks cut from the blocks since the last reset
    ghost var free: seq<Ptr>    // the recycled ones, the latest first
    ghost var given: set<Ptr>   // the ones in the caller's hands

    function Capacity(): int { maxBlockNum * maxChunkNum }

    /** Where the chunks of a block begin. */
    function Place(i: int): int { i * chunkSize }

    /** `mMaxBlockLen` */
    function BlockLen(): int { maxChunkNum * chunkSize }

    /** The chunk is one of the cells of a block. */
    ghost predicate Cell(p: Ptr)
    {
      p.At? && 0 <= p.block < maxBlockNum && exists i :: 0 <= i < maxChunkNum && p.offset == Place(i)
    }

    /** The chunk lies before the next one to be cut. */
    ghost predicate Behind(p: Ptr)
      reads this`nowBlockNum, this`nowBlockLen
    {
      p.At? && (p.block < nowBlockNum || (p.block == nowBlockNum && p.offset < nowBlockLen))
    }

    /** The counters. */
    ghost predicate Counting()
      reads this
    {
      && 0 < chunkSize && 0 < maxBlockNum && 0 < maxChunkNum
      && -1 <= nowBlockNum < maxBlockNum && 0 <= nowChunkNum <= maxChunkNum
      && (nowBlockNum == -1 ==> nowChunkNum == maxChunkNum && nowBlockLen == 0)
      && (nowBlockNum >= 0 ==> nowBlockLen == Place(nowChunkNum))
      && allocNum == nowBlockNum * maxChunkNum + nowChunkNum
      && recycleNum == |free| && |given| == allocNum - recycleNum
    }

    ghost predicate Cut()
      reads this`nowBlockNum, this`nowBlockLen, this`carved
    {
      forall p :: p in carved ==> Cell(p) && Behind(p)
    }

    ghost predicate Apart()
      reads this`link, this`recycle, this`carved, this`free, this`given
    {
      ListApart(link, recycle, free, carved, given)
    }

    ghost predicate Valid()
      reads this
    {
      Counting() && Cut() && Apart()
    }

    /** The bytes of a chunk lie inside its block, and no two chunks share a byte. */
    lemma ChunksDoNotOverlap(p: Ptr, q: Ptr)
      requires 0 < chunkSize && Cell(p) && Cell(q)
      ensures 0 <= p.offset && p.offset + chunkSize <= BlockLen()
      ensures p != q && p.block == q.block ==> p.offset + chunkSize <= q.offset || q.offset + chunkSize <= p.offset
    {
      var i :| 0 <= i < maxChunkNum && p.offset == Place(i);
      var j :| 0 <= j < maxChunkNum && q.offset == Place(j);
      PlacesApart(chunkSize, -1, i);
      PlacesApart(chunkSize, i, maxChunkNum);
      if i < j { PlacesApart(chunkSize, i, j); } else if j < i { PlacesApart(chunkSize, j, i); }
    }

    lemma NextPlace(i: int)
      ensures Place(i + 1) == Place(i) + chunkSize && Place(0) == 0
    {
    }

    /** `init` with the chunk size, block number and chunks per block it accepts. */
    constructor (lChunkSize: int, lMaxBlockNum: int, lPerAllocChunkNum: int)
      requires 0 < lChunkSize && 0 < lMaxBlockNum && 0 < lPerAllocChunkNum
      ensures Valid() && given == {} && free == [] && allocNum == recycleNum == 0
      ensures maxBlockNum == lMaxBlockNum && maxChunkNum == lPerAllocChunkNum
    {
      chunkSize := lChunkSize + 8;
      maxBlockNum, nowBlockNum := lMaxBlockNum, -1;
      maxChunkNum, nowChunkNum := lPerAllocChunkNum, lPerAllocChunkNum;
      nowBlockLen := 0;
      recycle, link := Null, map[];
      recycleNum, allocNum := 0, 0;
      carved, free, given := {}, [], {};
    }

    /** `alloc` when a chunk was freed before: the latest one. */
    method Reuse() returns (p: Ptr)
      requires Valid() && recycle != Null
      modifies this`recycle, this`recycleNum, this`free, this`given
      ensures Valid() && old(free) != [] && p == old(free)[0] && free == old(free)[1..]
      ensures p != Null && p !in old(given) && given == old(given) + {p}
    {
      NullIsEmpty();
      ReuseKeepsApart(link, recycle, free, carved, given);
      p := recycle;
      recycle := link[recycle];
      recycleNum := recycleNum - 1;
      free, given := free[1..], given + {p};
    }

    /** `alloc` moves on to the next block when the current one is used up; none is left after the last. */
    method NextBlock() returns (room: bool)
      requires Counting() && Cut()
      modifies this`nowBlockNum, this`nowChunkNum, this`nowBlockLen
      ensures Counting() && Cut()
      ensures room <==> allocNum < Capacity()
      ensures room ==> nowBlockNum >= 0 && nowChunkNum < maxChunkNum
    {
      RowsAndColumns(maxBlockNum, nowBlockNum, maxChunkNum, nowChunkNum);
      if nowChunkNum == maxChunkNum {
        if nowBlockNum + 1 >= maxBlockNum { return false; }
        nowBlockNum := nowBlockNum + 1;
        NextRow();
        NextPlace(0);
        nowBlockLen := 0;
        nowChunkNum := 0;
      }
      room := true;
    }

    /** The next chunk of the current block. */
    method Take() returns (p: Ptr)
      requires Counting() && Cut() && Apart() && free == [] && nowBlockNum >= 0 && nowChunkNum < maxChunkNum
      modifies this
      ensures Valid() && free == [] && p != Null && p !in old(given) && given == old(given) + {p}
    {
      p := At(nowBlockNum, nowBlockLen);
      assert Cell(p) && p !in carved;
      NextPlace(nowChunkNum);
      nowBlockLen := nowBlockLen + chunkSize;
      nowChunkNum := nowChunkNum + 1;
      allocNum := allocNum + 1;
      carved, given := carved + {p}, given + {p};
    }

    /** `alloc` from the blocks. */
    method Carve() returns (p: Ptr)
      requires Valid() && free == []
      modifies this
      ensures Valid() && free == []
      ensures p == Null <==> old(allocNum) == Capacity()
      ensures p == Null ==> given == old(given)
      ensures p != Null ==> p !in old(given) && given == old(given) + {p}
    {
      RowsAndColumns(maxBlockNum, nowBlockNum, maxChunkNum, nowChunkNum);
      var room := NextBlock();
      if !room { return Null; }
      p := Take();
    }

    /** `alloc`: a chunk nobody holds, the latest freed one if there is one, and none exactly when all are
        held. */
    method Alloc() returns (p: Ptr)
      requires Valid()
      modifies this
      ensures Valid()
      ensures p == Null <==> |old(given)| == Capacity()
      ensures p == Null ==> given == old(given)
      ensures p != Null ==> p !in old(given) && given == old(given) + {p}
      ensures free == if old(free) == [] then [] else old(free)[1..]
      ensures old(free) != [] ==> p == old(free)[0]
    {
      RowsAndColumns(maxBlockNum, nowBlockNum, maxChunkNum, nowChunkNum);
      NullIsEmpty();
      if recycle != Null {
        p := Reuse();
      } else {
        p := Carve();
      }
    }

    lemma Facts()
      requires Valid()
      ensures |given| == allocNum - recycleNum && Null !in given && forall p :: p in given ==> Cell(p)
    {
    }

    lemma NullIsEmpty()
      requires Valid()
      ensures recycle == Null <==> free == []
    {
      if free != [] { assert free[0] in free; }
    }

    lemma NextRow()
      ensures nowBlockNum * maxChunkNum == (nowBlockNum - 1) * maxChunkNum + maxChunkNum
    {
    }

    /** `free`: the chunk is the next to be handed out. */
    method Free(p: Ptr)
      requires Valid() && p in given
      modifies this`link, this`recycle, this`recycleNum, this`free, this`given
      ensures Valid() && given == old(given) - {p} && free == [p] + old(free)
    {
      FreeKeepsApart(link, recycle, free, carved, given, p);
      link := link[p := recycle];
      recycle := p;
      recycleNum := recycleNum + 1;
      free, given := [p] + free, given - {p};
    }

    /** `resetAllocator`: every chunk is available again. */
    method Reset()
      requires Counting()
      modifies this
      ensures Valid() && given == {} && free == [] && allocNum == recycleNum == 0
    {
      recycle := Null;
      nowChunkNum := maxChunkNum;
      nowBlockLen := 0;
      nowBlockNum := -1;
      recycleNum := 0;
      allocNum := 0;
      carved, free, given := {}, [], {};
    }
  }
}
