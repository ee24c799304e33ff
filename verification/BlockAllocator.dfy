/** The bump allocator `BlockAllocator`.

    Memory is a map from addresses to bytes.  Blocks come from the system allocator at addresses
    of its choice; what it promises, that a new block does not overlap the blocks in use, is the
    condition `FreshAt`.  The length of an allocation is stored in the eight bytes before it,
    in the same memory the caller writes to.
 */
module BlockAllocator {

  import opened Basics

  type Memory = map<int, Byte>

  const WORD := 8            // sizeof(size_t)
  const BLOCK_HEADER := 32   // sizeof(MemBlock): four pointers

  // ---------------------------------------------------------------------------------------
  // Memory
  // ---------------------------------------------------------------------------------------

  function Load(m: Memory, a: int, n: nat): (s: seq<Byte>)
    ensures |s| == n
  {
    seq(n, i requires 0 <= i < n => if a + i in m then m[a + i] else 0)
  }

  function Cell(s: seq<Byte>, a: int, i: int): Byte
    requires a <= i < a + |s|
  {
    s[i - a]
  }

  function Store(m: Memory, a: int, s: seq<Byte>): Memory {
    m + map i | a <= i < a + |s| :: Cell(s, a, i)
  }

  lemma LoadStored(m: Memory, a: int, s: seq<Byte>)
    ensures Load(Store(m, a, s), a, |s|) == s
  {
  }

  lemma LoadElsewhere(m: Memory, a: int, s: seq<Byte>, b: int, n: nat)
    requires b + n <= a || a + |s| <= b
    ensures Load(Store(m, a, s), b, n) == Load(m, b, n)
  {
  }

  /** The k low bytes of n, lowest first. */
  function Le(n: nat, k: nat): (s: seq<Byte>)
    ensures |s| == k
  {
    if k == 0 then [] else [n % 256] + Le(n / 256, k - 1)
  }

  function FromLe(s: seq<Byte>): nat {
    if s == [] then 0 else s[0] + 256 * FromLe(s[1..])
  }

  function Pow256(k: nat): nat {
    if k == 0 then 1 else 256 * Pow256(k - 1)
  }

  lemma {:induction false} LeRoundTrip(n: nat, k: nat)
    requires n < Pow256(k)
    ensures FromLe(Le(n, k)) == n
  {
    if k > 0 {
      assert n / 256 < Pow256(k - 1);
      LeRoundTrip(n / 256, k - 1);
      assert Le(n, k)[1..] == Le(n / 256, k - 1);
    }
  }

  lemma WordRoundTrip(n: nat)
    requires n < WORD_LIMIT
    ensures FromLe(Le(n, WORD)) == n
  {
    assert Pow256(8) == WORD_LIMIT by {
      assert Pow256(2) == 0x1_0000;
      assert Pow256(4) == 0x1_0000_0000;
      assert Pow256(6) == 0x1_0000_0000_0000;
    }
    LeRoundTrip(n, WORD);
  }

  // ---------------------------------------------------------------------------------------
  // State
  // ---------------------------------------------------------------------------------------

  /** `last` is the next place to allocate from.  Rounding up may move it past `end`. */
  datatype Block = Block(begin: int, last: int, end: int)

  /** A past allocation: its block, the pointer returned, the stored length and the size that
      was asked for. */
  datatype Region = Region(block: nat, ptr: int, len: nat, asked: nat)

  datatype Config = Config(blockSize: nat, threshold: nat)

  /** `blocks` is the chain `retain`, oldest first; `head` is the block allocated from.  The list
      of regions is history: the source has no such field. */
  datatype Heap = Heap(blocks: seq<Block>, head: Option<nat>, mem: Memory, regions: seq<Region>)

  /** The constructor takes the smaller of the two arguments as threshold. */
  function MakeConfig(blockSize: nat, threshold: nat): (c: Config)
    ensures c.threshold <= c.blockSize
  {
    Config(blockSize, Min(blockSize, threshold))
  }

  function AlignUp(x: int): (y: int)
    ensures x <= y < x + 16 && y % 16 == 0
  {
    (x + 15) / 16 * 16
  }

  /** What the system allocator promises for a block of `size` bytes at address `addr`. */
  ghost predicate FreshAt(h: Heap, addr: int, size: nat) {
    forall i :: 0 <= i < |h.blocks| ==>
      addr + BLOCK_HEADER + size <= h.blocks[i].begin - BLOCK_HEADER || h.blocks[i].end <= addr
  }

  // ---------------------------------------------------------------------------------------
  // Operations
  // ---------------------------------------------------------------------------------------

  function AllocMemBlock(h: Heap, size: nat, addr: int): Heap {
    var begin := addr + BLOCK_HEADER;
    h.(blocks := h.blocks + [Block(begin, begin, begin + size)])
  }

  /** Whether a request is served from a block of its own. */
  predicate IsIsolated(c: Config, size: nat) {
    size + WORD >= c.threshold
  }

  predicate HeadOk(h: Heap) {
    h.head.Some? ==> h.head.value < |h.blocks|
  }

  /** Whether the head block has no room for the request. */
  predicate NeedsBlock(h: Heap, size: nat)
    requires HeadOk(h)
  {
    || h.head.None?
    || h.blocks[h.head.value].end - h.blocks[h.head.value].last < size + WORD
  }

  /** Size of the block a request makes the allocator create, if it creates one. */
  function BlockSizeFor(c: Config, size: nat): nat {
    if IsIsolated(c, size) then Max(16, size) + WORD else c.blockSize
  }

  /** Writes the length at `last` of a block and hands out what follows. */
  function Carve(h: Heap, b: nat, len: nat, last': int, asked: nat): Heap
    requires b < |h.blocks|
  {
    var at := h.blocks[b].last;
    Heap(h.blocks[b := h.blocks[b].(last := last')], h.head,
         Store(h.mem, at, Le(len, WORD)),
         h.regions + [Region(b, at + WORD, len, asked)])
  }

  function AllocIsolated(h: Heap, size: nat, addr: int): Heap {
    var len := Max(16, size);
    var h1 := AllocMemBlock(h, len + WORD, addr);
    Carve(h1, |h.blocks|, len, h1.blocks[|h.blocks|].end, size)
  }

  function AllocFromHead(h: Heap, size: nat): Heap
    requires h.head.Some? && h.head.value < |h.blocks|
  {
    var b := h.head.value;
    Carve(h, b, size, AlignUp(h.blocks[b].last + WORD + size), size)
  }

  /** alloc: `addr` is where the system allocator would put a new block. */
  function AllocSpec(c: Config, h: Heap, size: nat, addr: int): (h': Heap)
    requires HeadOk(h)
    ensures HeadOk(h') && |h'.regions| == |h.regions| + 1
  {
    if IsIsolated(c, size) then AllocIsolated(h, size, addr)
    else if NeedsBlock(h, size) then
      AllocFromHead(AllocMemBlock(h, c.blockSize, addr).(head := Some(|h.blocks|)), size)
    else AllocFromHead(h, size)
  }

  /** get_alloc_length. */
  function AllocLength(h: Heap, ptr: int): nat {
    FromLe(Load(h.mem, ptr - WORD, WORD))
  }

  /** realloc, when the stored length is too small: the new allocation and its copied bytes.
      The size asked for is at least doubled. */
  function Grow(c: Config, h: Heap, ptr: int, size: nat, addr: int): (h': Heap)
    requires HeadOk(h)
    ensures HeadOk(h') && |h'.regions| == |h.regions| + 1
  {
    var len := AllocLength(h, ptr);
    var h1 := AllocSpec(c, h, Max(size + 1, len * 2), addr);
    var res := h1.regions[|h.regions|].ptr;
    h1.(mem := Store(h1.mem, res, Load(h1.mem, ptr, len)))
  }

  /** realloc: a null pointer is a plain allocation, a long enough region is returned as it is. */
  function ReallocSpec(c: Config, h: Heap, ptr: Option<int>, size: nat, addr: int): (h': Heap)
    requires HeadOk(h)
    ensures HeadOk(h')
  {
    if ptr.None? then AllocSpec(c, h, size, addr)
    else if size <= AllocLength(h, ptr.value) then h
    else Grow(c, h, ptr.value, size, addr)
  }

  /** The caller writes into an allocation. */
  function WriteSpec(h: Heap, a: int, s: seq<Byte>): Heap {
    h.(mem := Store(h.mem, a, s))
  }

  function Empty(): Heap {
    Heap([], None, map[], [])
  }

  /** The bytes of a region. */
  function Contents(h: Heap, r: Region): seq<Byte> {
    Load(h.mem, r.ptr, r.len)
  }

  // ---------------------------------------------------------------------------------------
  // Invariant
  // ---------------------------------------------------------------------------------------

  predicate Apart(p: Region, q: Region) {
    p.ptr + p.len <= q.ptr - WORD || q.ptr + q.len <= p.ptr - WORD
  }

  /** Blocks do not overlap, counting their headers. */
  ghost predicate BlocksOk(h: Heap) {
    && HeadOk(h)
    && (forall i :: 0 <= i < |h.blocks| ==>
          && h.blocks[i].begin <= h.blocks[i].end
          && h.blocks[i].begin <= h.blocks[i].last < h.blocks[i].end + 16)
    && (forall i, j :: 0 <= i < j < |h.blocks| ==>
          || h.blocks[i].end <= h.blocks[j].begin - BLOCK_HEADER
          || h.blocks[j].end <= h.blocks[i].begin - BLOCK_HEADER)
  }

  /** A region with its length header lies inside its block, in the part already handed out. */
  ghost predicate RegionOk(h: Heap, r: Region) {
    && r.block < |h.blocks|
    && h.blocks[r.block].begin <= r.ptr - WORD
    && r.ptr + r.len <= h.blocks[r.block].end
    && r.ptr + r.len <= h.blocks[r.block].last
    && r.asked <= r.len < WORD_LIMIT
    && AllocLength(h, r.ptr) == r.len
  }

  ghost predicate Inv(h: Heap) {
    && BlocksOk(h)
    && (forall i :: 0 <= i < |h.regions| ==> RegionOk(h, h.regions[i]))
    && (forall i, j :: 0 <= i < j < |h.regions| ==> Apart(h.regions[i], h.regions[j]))
  }

  lemma AllocMemBlockKeeps(h: Heap, size: nat, addr: int)
    requires Inv(h) && FreshAt(h, addr, size)
    ensures Inv(AllocMemBlock(h, size, addr))
  {
    var h' := AllocMemBlock(h, size, addr);
    forall i | 0 <= i < |h'.regions|
      ensures RegionOk(h', h'.regions[i])
    {
      assert RegionOk(h, h.regions[i]);
    }
  }

  /** The new header, and with it every byte that Carve writes, is away from every region. */
  lemma NewRegionApart(h: Heap, b: nat, len: nat, i: nat)
    requires Inv(h) && b < |h.blocks| && i < |h.regions|
    requires h.blocks[b].last + WORD + len <= h.blocks[b].end
    ensures Apart(h.regions[i], Region(b, h.blocks[b].last + WORD, len, 0))
  {
    var r := h.regions[i];
    assert RegionOk(h, r);
  }

  lemma CarveKeeps(h: Heap, b: nat, len: nat, last': int, asked: nat)
    requires Inv(h) && b < |h.blocks|
    requires h.blocks[b].last + WORD + len <= h.blocks[b].end
    requires h.blocks[b].last + WORD + len <= last' < h.blocks[b].end + 16
    requires asked <= len < WORD_LIMIT
    ensures Inv(Carve(h, b, len, last', asked))
    ensures forall i :: 0 <= i < |h.regions| ==>
              Contents(Carve(h, b, len, last', asked), h.regions[i]) == Contents(h, h.regions[i])
  {
    hide Load;
    hide Store;
    hide FromLe;
    hide Le;
    var h' := Carve(h, b, len, last', asked);
    var at, word := h.blocks[b].last, Le(len, WORD);
    forall i | 0 <= i < |h.regions|
      ensures RegionOk(h', h.regions[i])
      ensures Apart(h.regions[i], h'.regions[|h.regions|])
      ensures Contents(h', h.regions[i]) == Contents(h, h.regions[i])
    {
      var r := h.regions[i];
      assert RegionOk(h, r);
      NewRegionApart(h, b, len, i);
      LoadElsewhere(h.mem, at, word, r.ptr, r.len);
      LoadElsewhere(h.mem, at, word, r.ptr - WORD, WORD);
    }
    LoadStored(h.mem, at, word);
    WordRoundTrip(len);
    assert RegionOk(h', h'.regions[|h.regions|]);
  }

  /** A size whose bookkeeping does not overflow a machine word. */
  predicate Representable(size: nat) {
    size + WORD + 16 < WORD_LIMIT
  }

  /** What holds of an allocation that turned `h` into `h'`: the invariant, a new region at least as
      long as asked, and all older regions with their bytes. */
  ghost predicate Extends(h: Heap, h': Heap, size: nat) {
    && Inv(h')
    && |h'.regions| == |h.regions| + 1
    && h'.regions[..|h.regions|] == h.regions
    && h'.regions[|h.regions|].asked == size
    && (forall i :: 0 <= i < |h.regions| ==> Contents(h', h.regions[i]) == Contents(h, h.regions[i]))
  }

  /** alloc: the regions stay disjoint, inside their blocks and correctly labelled.  In particular
      a fresh block has room for every request that is not isolated. */
  lemma AllocKeeps(c: Config, h: Heap, size: nat, addr: int)
    requires Inv(h) && c.threshold <= c.blockSize && Representable(size)
    requires FreshAt(h, addr, BlockSizeFor(c, size))
    ensures Extends(h, AllocSpec(c, h, size, addr), size)
  {
    hide Load;
    hide Store;
    hide RegionOk;
    if IsIsolated(c, size) {
      var len := Max(16, size);
      var h1 := AllocMemBlock(h, len + WORD, addr);
      AllocMemBlockKeeps(h, len + WORD, addr);
      CarveKeeps(h1, |h.blocks|, len, h1.blocks[|h.blocks|].end, size);
    } else if NeedsBlock(h, size) {
      var h1 := AllocMemBlock(h, c.blockSize, addr);
      AllocMemBlockKeeps(h, c.blockSize, addr);
      var h2 := h1.(head := Some(|h.blocks|));
      HeadMoves(h1, |h.blocks|);
      var at := h2.blocks[|h.blocks|].last;
      CarveKeeps(h2, |h.blocks|, size, AlignUp(at + WORD + size), size);
    } else {
      var b := h.head.value;
      CarveKeeps(h, b, size, AlignUp(h.blocks[b].last + WORD + size), size);
    }
  }

  /** Where a request is served from.  One that reaches the threshold with its header gets a block of its own, of just
      its size; another gets the next bytes of the head block if they are enough, and otherwise the first of a new
      head block. */
  lemma AllocPlace(c: Config, h: Heap, size: nat, addr: int)
    requires HeadOk(h)
    ensures var h' := AllocSpec(c, h, size, addr); var n := |h.blocks|; var r := h'.regions[|h.regions|];
            if size + WORD >= c.threshold
            then && |h'.blocks| == n + 1 && h'.head == h.head && r.block == n
                 && r.ptr == addr + BLOCK_HEADER + WORD && r.len == (if size < 16 then 16 else size)
                 && h'.blocks[n].last == h'.blocks[n].end == r.ptr + r.len
            else if h.head.Some? && h.blocks[h.head.value].last + WORD + size <= h.blocks[h.head.value].end
            then && |h'.blocks| == n && h'.head == h.head && r.block == h.head.value
                 && r.ptr == h.blocks[h.head.value].last + WORD && r.len == size
            else && |h'.blocks| == n + 1 && h'.head == Some(n) && r.block == n
                 && r.ptr == addr + BLOCK_HEADER + WORD && r.len == size
                 && h'.blocks[n].end == addr + BLOCK_HEADER + c.blockSize
  {
    hide Store;
    hide Le;
  }

  /** The sum of a length and its header, in 64-bit arithmetic. */
  function WithHeader64(len: nat): nat {
    (len + WORD) % WORD_LIMIT
  }

  /** How many bytes the block has that a request is served from, counted from its header: with the sums that
      the code computes, in 64-bit arithmetic. */
  function Room64(c: Config, h: Heap, size: nat): int
    requires HeadOk(h)
  {
    if WithHeader64(size) >= c.threshold then WithHeader64(Max(16, size))
    else if h.head.None? || HeadRoom(h) < WithHeader64(size) then c.blockSize
    else HeadRoom(h)
  }

  function HeadRoom(h: Heap): int
    requires HeadOk(h) && h.head.Some?
  {
    h.blocks[h.head.value].end - h.blocks[h.head.value].last
  }

  /** The block has room for the request and its header if and only if their sum is below 2^64. */
  lemma RequestFitsIff(c: Config, h: Heap, size: nat)
    requires HeadOk(h) && c.threshold <= c.blockSize < WORD_LIMIT - WORD && size < WORD_LIMIT
    requires h.head.Some? ==> HeadRoom(h) < WORD_LIMIT - WORD
    ensures size + WORD <= Room64(c, h, size) <==> size + WORD < WORD_LIMIT
  {
    var w := WithHeader64(size);
    if size + WORD < WORD_LIMIT {
      assert w == size + WORD && WithHeader64(16) == 24;
    } else {
      assert w == size + WORD - WORD_LIMIT;
    }
  }

  lemma HeadMoves(h: Heap, b: nat)
    requires Inv(h) && b < |h.blocks|
    ensures Inv(h.(head := Some(b)))
  {
    var h' := h.(head := Some(b));
    forall i | 0 <= i < |h'.regions|
      ensures RegionOk(h', h'.regions[i])
    {
      assert RegionOk(h, h.regions[i]);
    }
  }

  /** Writing inside one region leaves the headers and all other regions alone. */
  lemma WriteKeeps(h: Heap, k: nat, a: int, s: seq<Byte>)
    requires Inv(h) && k < |h.regions|
    requires h.regions[k].ptr <= a && a + |s| <= h.regions[k].ptr + h.regions[k].len
    ensures Inv(WriteSpec(h, a, s))
    ensures forall i :: 0 <= i < |h.regions| && i != k ==>
              Contents(WriteSpec(h, a, s), h.regions[i]) == Contents(h, h.regions[i])
    ensures Load(WriteSpec(h, a, s).mem, a, |s|) == s
  {
    hide Load;
    hide Store;
    var h' := WriteSpec(h, a, s);
    LoadStored(h.mem, a, s);
    forall i | 0 <= i < |h.regions|
      ensures RegionOk(h', h.regions[i])
      ensures i != k ==> Contents(h', h.regions[i]) == Contents(h, h.regions[i])
    {
      var r := h.regions[i];
      assert RegionOk(h, r);
      assert i < k ==> Apart(h.regions[i], h.regions[k]);
      assert k < i ==> Apart(h.regions[k], h.regions[i]);
      LoadElsewhere(h.mem, a, s, r.ptr - WORD, WORD);
      if i != k {
        LoadElsewhere(h.mem, a, s, r.ptr, r.len);
      }
    }
  }

  /** realloc of region k: the invariant holds again, the length stored at the returned pointer is
      at least the size asked for, the old bytes are at the start of the result, and no older
      region lost a byte. */
  lemma ReallocKeeps(c: Config, h: Heap, k: nat, size: nat, addr: int)
    requires Inv(h) && c.threshold <= c.blockSize && k < |h.regions|
    requires Representable(Max(size + 1, h.regions[k].len * 2))
    requires FreshAt(h, addr, BlockSizeFor(c, Max(size + 1, h.regions[k].len * 2)))
    ensures var old_, h' := h.regions[k], ReallocSpec(c, h, Some(h.regions[k].ptr), size, addr);
            && Inv(h')
            && h.regions <= h'.regions
            && (forall i :: 0 <= i < |h.regions| ==> Contents(h', h.regions[i]) == Contents(h, h.regions[i]))
            && (if size <= old_.len then h' == h
                else |h'.regions| == |h.regions| + 1
                     && var new_ := h'.regions[|h.regions|];
                     && size < new_.len && 2 * old_.len <= new_.len
                     && Contents(h', new_)[..old_.len] == Contents(h, old_))
  {
    hide Load;
    hide Store;
    var r := h.regions[k];
    assert RegionOk(h, r);
    assert AllocLength(h, r.ptr) == r.len;
    if size > r.len {
      var n := Max(size + 1, r.len * 2);
      AllocKeeps(c, h, n, addr);
      var h1 := AllocSpec(c, h, n, addr);
      var new_ := h1.regions[|h.regions|];
      assert RegionOk(h1, new_);
      assert h1.regions[k] == h.regions[k];
      var bytes := Load(h1.mem, r.ptr, r.len);
      assert bytes == Contents(h, r);
      WriteKeeps(h1, |h.regions|, new_.ptr, bytes);
      LoadPrefix(WriteSpec(h1, new_.ptr, bytes).mem, new_.ptr, r.len, new_.len);
      forall i | 0 <= i < |h.regions|
        ensures h1.regions[i] == h.regions[i]
      {
      }
    }
  }

  lemma LoadPrefix(m: Memory, a: int, n: nat, k: nat)
    requires n <= k
    ensures Load(m, a, k)[..n] == Load(m, a, n)
  {
  }

  // ---------------------------------------------------------------------------------------
  // All histories
  // ---------------------------------------------------------------------------------------

  datatype Op =
    | AllocOp(size: nat, addr: int)
    | ReallocOp(k: Option<nat>, size: nat, addr: int)
    | WriteOp(region: nat, offset: nat, bytes: seq<Byte>)
    | ResetOp

  /** The pointer a realloc is called with is null or was returned before. */
  function PtrOf(h: Heap, k: Option<nat>): Option<int> {
    if k.Some? && k.value < |h.regions| then Some(h.regions[k.value].ptr) else None
  }

  /** The size a realloc passes on. */
  function GrownSize(h: Heap, k: Option<nat>, size: nat): nat {
    if k.Some? && k.value < |h.regions| then Max(size + 1, h.regions[k.value].len * 2) else size
  }

  /** Callers write only inside what they were given; new blocks are fresh. */
  ghost predicate Allowed(c: Config, h: Heap, op: Op) {
    match op
    case AllocOp(size, addr) => Representable(size) && FreshAt(h, addr, BlockSizeFor(c, size))
    case ReallocOp(k, size, addr) =>
      Representable(GrownSize(h, k, size)) && FreshAt(h, addr, BlockSizeFor(c, GrownSize(h, k, size)))
    case WriteOp(k, offset, bytes) => k < |h.regions| && offset + |bytes| <= h.regions[k].len
    case ResetOp => true
  }

  function Step(c: Config, h: Heap, op: Op): (h': Heap)
    requires HeadOk(h)
    ensures HeadOk(h')
  {
    match op
    case AllocOp(size, addr) => AllocSpec(c, h, size, addr)
    case ReallocOp(k, size, addr) => ReallocSpec(c, h, PtrOf(h, k), size, addr)
    case WriteOp(k, offset, bytes) => if k < |h.regions| then WriteSpec(h, h.regions[k].ptr + offset, bytes) else h
    case ResetOp => Empty()
  }

  lemma StepKeeps(c: Config, h: Heap, op: Op)
    requires Inv(h) && c.threshold <= c.blockSize && Allowed(c, h, op)
    ensures Inv(Step(c, h, op))
  {
    hide Inv;
    hide Load;
    hide Store;
    InvHead(h);
    match op
    case AllocOp(size, addr) => AllocKeeps(c, h, size, addr);
    case ReallocOp(k, size, addr) =>
      if PtrOf(h, k).Some? {
        ReallocKeeps(c, h, k.value, size, addr);
      } else {
        AllocKeeps(c, h, size, addr);
      }
    case WriteOp(k, offset, bytes) => WriteKeeps(h, k, h.regions[k].ptr + offset, bytes);
    case ResetOp => EmptyOk();
  }

  lemma InvHead(h: Heap)
    requires Inv(h)
    ensures HeadOk(h)
  {
  }

  lemma EmptyOk()
    ensures Inv(Empty())
  {
  }

  function Run(c: Config, h: Heap, ops: seq<Op>): Heap
    requires HeadOk(h)
    decreases |ops|
  {
    if ops == [] then h else Run(c, Step(c, h, ops[0]), ops[1..])
  }

  ghost predicate AllowedRun(c: Config, h: Heap, ops: seq<Op>)
    requires HeadOk(h)
    decreases |ops|
  {
    ops == [] || (Allowed(c, h, ops[0]) && AllowedRun(c, Step(c, h, ops[0]), ops[1..]))
  }

  lemma {:induction false} RunKeeps(c: Config, h: Heap, ops: seq<Op>)
    requires Inv(h) && c.threshold <= c.blockSize && AllowedRun(c, h, ops)
    ensures Inv(Run(c, h, ops))
    decreases |ops|
  {
    hide Inv;
    hide Step;
    hide Allowed;
    InvHead(h);
    if ops != [] {
      StepKeeps(c, h, ops[0]);
      RunKeeps(c, Step(c, h, ops[0]), ops[1..]);
    }
  }

  /** After any history of allocations, reallocations, writes and resets, all regions handed out are
      disjoint, counting their length headers; each is inside its block, at least as long as asked
      for, and carries its length. */
  lemma HistorySafe(c: Config, ops: seq<Op>)
    requires c.threshold <= c.blockSize && AllowedRun(c, Empty(), ops)
    ensures var h := Run(c, Empty(), ops);
            && (forall i, j :: 0 <= i < j < |h.regions| ==> Apart(h.regions[i], h.regions[j]))
            && (forall i :: 0 <= i < |h.regions| ==>
                  && RegionOk(h, h.regions[i])
                  && h.regions[i].asked <= AllocLength(h, h.regions[i].ptr))
  {
    hide RegionOk;
    hide Step;
    hide Allowed;
    EmptyOk();
    RunKeeps(c, Empty(), ops);
    var h := Run(c, Empty(), ops);
    forall i | 0 <= i < |h.regions|
      ensures h.regions[i].asked <= AllocLength(h, h.regions[i].ptr)
    {
      LabelledLength(h, i);
    }
  }

  lemma LabelledLength(h: Heap, i: nat)
    requires Inv(h) && i < |h.regions|
    ensures h.regions[i].asked <= h.regions[i].len == AllocLength(h, h.regions[i].ptr)
  {
    assert RegionOk(h, h.regions[i]);
  }

  /** Rounding can move `last` past `end`; the next request then opens a new block. */
  lemma LastMayPassEnd()
    ensures var c := MakeConfig(40, 40);
            var h := AllocSpec(c, Empty(), 31, 0x1000);
            && !IsIsolated(c, 31)
            && h.blocks[0].last > h.blocks[0].end
            && NeedsBlock(h, 0)
  {
  }

  // ---------------------------------------------------------------------------------------
  // The object
  // ---------------------------------------------------------------------------------------

  lemma CarvedPtr()
    ensures forall h: Heap, b: nat, len: nat, last': int, asked: nat {:trigger Carve(h, b, len, last', asked)} ::
              b < |h.blocks| ==>
                && |Carve(h, b, len, last', asked).regions| == |h.regions| + 1
                && Carve(h, b, len, last', asked).regions[|h.regions|].ptr == h.blocks[b].last + WORD
  {
  }

  class Allocator {
    const config: Config
    var blocks: seq<Block>
    var head: Option<nat>
    var mem: Memory
    ghost var regions: seq<Region>

    ghost function View(): Heap
      reads this
    {
      Heap(blocks, head, mem, regions)
    }

    ghost predicate Valid()
      reads this
    {
      config.threshold <= config.blockSize && Inv(View())
    }

    constructor (blockSize: nat, threshold: nat)
      ensures Valid() && View() == Empty()
      ensures config.blockSize == blockSize
      ensures config.threshold == if threshold < blockSize then threshold else blockSize
    {
      config := MakeConfig(blockSize, threshold);
      blocks, head, mem, regions := [], None, map[], [];
      new;
      EmptyOk();
    }

    method Reset()
      requires Valid()
      modifies this
      ensures Valid() && View() == Empty()
    {
      blocks, head, mem, regions := [], None, map[], [];
      EmptyOk();
    }

    /** alloc_mem_block: a new block at the end of the chain. */
    method AllocBlock(size: nat, addr: int) returns (b: nat)
      modifies this`blocks
      ensures b == |old(blocks)| && b < |blocks|
      ensures blocks == AllocMemBlock(old(View()), size, addr).blocks
    {
      var begin := addr + BLOCK_HEADER;
      b := |blocks|;
      blocks := blocks + [Block(begin, begin, begin + size)];
    }

    /** Stores a length, moves `last` and returns the pointer. */
    method Take(b: nat, len: nat, last': int, ghost asked: nat) returns (ptr: int)
      requires b < |blocks|
      modifies this
      ensures View() == Carve(old(View()), b, len, last', asked)
      ensures ptr == old(blocks)[b].last + WORD
    {
      var at := blocks[b].last;
      mem := Store(mem, at, Le(len, WORD));
      blocks := blocks[b := blocks[b].(last := last')];
      ptr := at + WORD;
      regions := regions + [Region(b, ptr, len, asked)];
    }

    method Alloc(size: nat, addr: int) returns (ptr: int)
      requires Valid() && Representable(size) && FreshAt(View(), addr, BlockSizeFor(config, size))
      modifies this
      ensures Valid()
      ensures View() == AllocSpec(config, old(View()), size, addr)
      ensures Extends(old(View()), View(), size)
      ensures ptr == regions[|regions| - 1].ptr
    {
      hide Inv;
      hide Carve;
      hide AlignUp;
      AllocKeeps(config, View(), size, addr);
      InvHead(View());
      CarvedPtr();
      if size + WORD >= config.threshold {
        var len := Max(16, size);
        var b := AllocBlock(len + WORD, addr);
        ptr := Take(b, len, blocks[b].end, size);
        return;
      }
      if head.None? || blocks[head.value].end - blocks[head.value].last < size + WORD {
        var b := AllocBlock(config.blockSize, addr);
        head := Some(b);
      }
      var last' := AlignUp(blocks[head.value].last + WORD + size);
      ptr := Take(head.value, size, last', size);
    }

    method GetAllocLength(ptr: int) returns (len: nat)
      ensures len == AllocLength(View(), ptr)
    {
      len := FromLe(Load(mem, ptr - WORD, WORD));
    }

    /** realloc.  `k` says which allocation the pointer is, if it is not null. */
    method Realloc(ptr: Option<int>, ghost k: Option<nat>, size: nat, addr: int) returns (res: int)
      requires Valid() && (ptr.Some? <==> k.Some?)
      requires k.Some? ==> k.value < |regions| && ptr.value == regions[k.value].ptr
      requires Representable(GrownSize(View(), k, size))
      requires FreshAt(View(), addr, BlockSizeFor(config, GrownSize(View(), k, size)))
      modifies this
      ensures Valid()
      ensures View() == ReallocSpec(config, old(View()), ptr, size, addr)
      ensures res == if ptr.Some? && size <= old(AllocLength(View(), ptr.value)) then ptr.value
                     else regions[|regions| - 1].ptr
    {
      hide Store;
      hide Load;
      hide RegionOk;
      if ptr.None? {
        res := Alloc(size, addr);
        return;
      }
      ReallocKeeps(config, View(), k.value, size, addr);
      LabelledLength(View(), k.value);
      var len := GetAllocLength(ptr.value);
      if size <= len {
        return ptr.value;
      }
      res := Alloc(Max(size + 1, len * 2), addr);
      mem := Store(mem, res, Load(mem, ptr.value, len));
    }
  }
}
