/** The bump allocator (Arena in extra/arena.cpp).  Addresses are numbers; the address operator new would
    return, should it be called, is an argument of every operation. */
module BumpArena {

  const BLOCK_SIZE := 4096
  const POINTER_SIZE := 8
  const ALIGN := 8

  // `len` bytes from `addr` on: a block, an allocated region or the free space.
  datatype Span = Span(addr: nat, len: nat) {
    function End(): nat { addr + len }
  }

  predicate Apart(a: Span, b: Span)
  {
    a.End() <= b.addr || b.End() <= a.addr
  }

  predicate Inside(a: Span, b: Span)
  {
    b.addr <= a.addr && a.End() <= b.End()
  }

  datatype ArenaState = ArenaState(ptr: nat, remaining: nat, blocks: seq<Span>, usage: nat) {
    function Free(): Span { Span(ptr, remaining) }
  }

  datatype Allocated = Allocated(state: ArenaState, addr: nat)

  const EMPTY := ArenaState(0, 0, [], 0)

  function NewBlock(s: ArenaState, size: nat, base: nat): ArenaState
  {
    s.(blocks := s.blocks + [Span(base, size)], usage := s.usage + size + POINTER_SIZE)
  }

  // Large objects get a block of their own; otherwise the rest of the current block is abandoned.
  function Fallback(s: ArenaState, bytes: nat, base: nat): Allocated
  {
    if bytes > BLOCK_SIZE / 4 then Allocated(NewBlock(s, bytes, base), base)
    else Allocated(NewBlock(s, BLOCK_SIZE, base).(ptr := base + bytes, remaining := BLOCK_SIZE - bytes), base)
  }

  function Slop(ptr: nat): nat
  {
    if ptr % ALIGN == 0 then 0 else ALIGN - ptr % ALIGN
  }

  datatype Request = Request(aligned: bool, bytes: nat, base: nat)

  // Bytes taken from the current block, when it has that many.
  function Needed(s: ArenaState, q: Request): nat
  {
    if q.aligned then q.bytes + Slop(s.ptr) else q.bytes
  }

  function Serve(s: ArenaState, q: Request): Allocated
  {
    var needed := Needed(s, q);
    if needed <= s.remaining
    then Allocated(s.(ptr := s.ptr + needed, remaining := s.remaining - needed), s.ptr + needed - q.bytes)
    else Fallback(s, q.bytes, q.base)
  }

  // ---- The object ----

  class Arena {
    var allocPtr: nat
    var allocBytesRemaining: nat
    var blocks: seq<Span>
    var memoryUsage: nat

    ghost function State(): ArenaState
      reads this
    {
      ArenaState(allocPtr, allocBytesRemaining, blocks, memoryUsage)
    }

    constructor ()
      ensures State() == EMPTY
    {
      allocPtr, allocBytesRemaining, blocks, memoryUsage := 0, 0, [], 0;
    }

    method Allocate(bytes: nat, base: nat) returns (result: nat)
      requires bytes > 0
      modifies this
      ensures Allocated(State(), result) == Serve(old(State()), Request(false, bytes, base))
    {
      if bytes <= allocBytesRemaining {
        result := allocPtr;
        allocPtr := allocPtr + bytes;
        allocBytesRemaining := allocBytesRemaining - bytes;
        return;
      }
      result := AllocateFallback(bytes, base);
    }

    method AllocateAligned(bytes: nat, base: nat) returns (result: nat)
      modifies this
      ensures Allocated(State(), result) == Serve(old(State()), Request(true, bytes, base))
    {
      var currentMod := allocPtr % ALIGN;
      var slop := if currentMod == 0 then 0 else ALIGN - currentMod;
      var needed := bytes + slop;
      if needed <= allocBytesRemaining {
        result := allocPtr + slop;
        allocPtr := allocPtr + needed;
        allocBytesRemaining := allocBytesRemaining - needed;
      } else {
        result := AllocateFallback(bytes, base);
      }
    }

    method AllocateFallback(bytes: nat, base: nat) returns (result: nat)
      modifies this
      ensures Allocated(State(), result) == Fallback(old(State()), bytes, base)
    {
      if bytes > BLOCK_SIZE / 4 {
        result := AllocateNewBlock(bytes, base);
        return;
      }
      allocPtr := AllocateNewBlock(BLOCK_SIZE, base);
      allocBytesRemaining := BLOCK_SIZE;
      result := allocPtr;
      allocPtr := allocPtr + bytes;
      allocBytesRemaining := allocBytesRemaining - bytes;
    }

    method AllocateNewBlock(blockBytes: nat, base: nat) returns (result: nat)
      modifies this`blocks, this`memoryUsage
      ensures State() == NewBlock(old(State()), blockBytes, base) && result == base
    {
      result := base;
      blocks := blocks + [Span(base, blockBytes)];
      memoryUsage := memoryUsage + blockBytes + POINTER_SIZE;
    }
  }

  // ---- Any sequence of requests ----

  // The state reached, the regions handed out, and how much was asked for, skipped to align, and abandoned.
  datatype Trace = Trace(state: ArenaState, regions: seq<Span>, requested: nat, skipped: nat, abandoned: nat)

  // The request leaves the rest of the current block behind.
  predicate Abandons(s: ArenaState, q: Request)
  {
    Needed(s, q) > s.remaining && q.bytes <= BLOCK_SIZE / 4
  }

  function After(t: Trace, q: Request): Trace
  {
    var r := Serve(t.state, q);
    Trace(r.state, t.regions + [Span(r.addr, q.bytes)], t.requested + q.bytes,
          t.skipped + (if Needed(t.state, q) <= t.state.remaining then Needed(t.state, q) - q.bytes else 0),
          t.abandoned + if Abandons(t.state, q) then t.state.remaining else 0)
  }

  function Run(requests: seq<Request>): Trace
  {
    if requests == [] then Trace(EMPTY, [], 0, 0, 0)
    else After(Run(requests[..|requests| - 1]), requests[|requests| - 1])
  }

  // What operator new promises for the block this request needs, if any: aligned and apart from the others.
  predicate HeapGives(s: ArenaState, q: Request)
  {
    Needed(s, q) > s.remaining ==>
      var block := Span(q.base, if q.bytes > BLOCK_SIZE / 4 then q.bytes else BLOCK_SIZE);
      q.base % ALIGN == 0 && forall b <- s.blocks :: Apart(block, b)
  }

  predicate Legal(requests: seq<Request>)
  {
    forall k :: 0 <= k < |requests| ==>
      requests[k].bytes > 0 && HeapGives(Run(requests[..k]).state, requests[k])
  }

  function TotalSize(blocks: seq<Span>): nat
  {
    if blocks == [] then 0 else TotalSize(blocks[..|blocks| - 1]) + blocks[|blocks| - 1].len
  }

  predicate InOneBlock(a: Span, blocks: seq<Span>)
  {
    exists b <- blocks :: Inside(a, b)
  }

  // Regions are non-empty, each within one block, and no two overlap.
  predicate Packed(regions: seq<Span>, blocks: seq<Span>)
  {
    && (forall i :: 0 <= i < |regions| ==> regions[i].len > 0 && InOneBlock(regions[i], blocks))
    && (forall i, j :: 0 <= i < j < |regions| ==> Apart(regions[i], regions[j]))
  }

  // The free space, if any, is within one block and nothing was handed out from it.
  predicate FreeIsFree(free: Span, regions: seq<Span>, blocks: seq<Span>)
  {
    && (free == Span(0, 0) || InOneBlock(free, blocks))
    && (forall i :: 0 <= i < |regions| ==> Apart(regions[i], free))
  }

  ghost predicate Inv(t: Trace)
  {
    && Packed(t.regions, t.state.blocks)
    && FreeIsFree(t.state.Free(), t.regions, t.state.blocks)
    && t.state.usage == TotalSize(t.state.blocks) + POINTER_SIZE * |t.state.blocks|
  }

  // A span inside some old block is apart from anything inside a new block.
  lemma InsideOldApart(a: Span, blocks: seq<Span>, b: Span, block: Span)
    requires InOneBlock(a, blocks) && Inside(b, block) && forall b' <- blocks :: Apart(block, b')
    ensures Apart(a, b) && Apart(b, a)
  {
  }

  lemma MoreBlocks(a: Span, blocks: seq<Span>, block: Span)
    requires InOneBlock(a, blocks) || Inside(a, block)
    ensures InOneBlock(a, blocks + [block])
  {
    if InOneBlock(a, blocks) {
      var b :| b in blocks && Inside(a, b);
      assert b in blocks + [block];
    } else {
      assert block in blocks + [block];
    }
  }

  // A region is cut off the front part of the free space.
  lemma CutKeeps(regions: seq<Span>, blocks: seq<Span>, free: Span, region: Span, rest: Span)
    requires Packed(regions, blocks) && FreeIsFree(free, regions, blocks)
    requires free.len > 0 && region.len > 0 && Inside(region, free) && Inside(rest, free) && Apart(region, rest)
    ensures Packed(regions + [region], blocks) && FreeIsFree(rest, regions + [region], blocks)
  {
    var block :| block in blocks && Inside(free, block);
    assert Inside(region, block) && Inside(rest, block);
  }

  // A region is placed in a new block, apart from all others.
  lemma PlaceKeeps(regions: seq<Span>, blocks: seq<Span>, region: Span, block: Span)
    requires Packed(regions, blocks) && region.len > 0 && Inside(region, block)
    requires forall b <- blocks :: Apart(block, b)
    ensures Packed(regions + [region], blocks + [block])
  {
    MoreBlocks(region, blocks, block);
    forall i | 0 <= i < |regions|
      ensures InOneBlock(regions[i], blocks + [block]) && Apart(regions[i], region)
    {
      MoreBlocks(regions[i], blocks, block);
      InsideOldApart(regions[i], blocks, region, block);
    }
  }

  // What is left of a new block is free, and so stays what was free before.
  lemma FreeAfterPlacing(regions: seq<Span>, blocks: seq<Span>, region: Span, block: Span, free: Span)
    requires Packed(regions, blocks) && Inside(region, block) && forall b <- blocks :: Apart(block, b)
    requires Apart(region, free) && (Inside(free, block) || FreeIsFree(free, regions, blocks))
    ensures FreeIsFree(free, regions + [region], blocks + [block])
  {
    if free != Span(0, 0) {
      MoreBlocks(free, blocks, block);
    }
    forall i | 0 <= i < |regions| && Inside(free, block)
      ensures Apart(regions[i], free)
    {
      InsideOldApart(regions[i], blocks, free, block);
    }
  }

  lemma SlopAligns(ptr: nat)
    ensures (ptr + Slop(ptr)) % ALIGN == 0 && Slop(ptr) < ALIGN
  {
  }

  lemma FitKeeps(t: Trace, q: Request)
    requires Inv(t) && q.bytes > 0 && Needed(t.state, q) <= t.state.remaining
    ensures Inv(After(t, q))
  {
    var t' := After(t, q);
    CutKeeps(t.regions, t.state.blocks, t.state.Free(), t'.regions[|t.regions|], t'.state.Free());
  }

  lemma NewBlockKeeps(t: Trace, q: Request)
    requires Inv(t) && q.bytes > 0 && Needed(t.state, q) > t.state.remaining && HeapGives(t.state, q)
    ensures Inv(After(t, q))
  {
    var s, t' := t.state, After(t, q);
    var block := t'.state.blocks[|s.blocks|];
    var region := Span(q.base, q.bytes);
    var free := t'.state.Free();
    assert t'.state.blocks == s.blocks + [block] && t'.regions == t.regions + [region];
    PlaceKeeps(t.regions, s.blocks, region, block);
    if !Abandons(s, q) && free != Span(0, 0) {
      InsideOldApart(free, s.blocks, region, block);
    }
    FreeAfterPlacing(t.regions, s.blocks, region, block, free);
    assert t'.state.blocks[..|s.blocks|] == s.blocks;
  }

  lemma LegalFront(requests: seq<Request>)
    requires requests != [] && Legal(requests)
    ensures Legal(requests[..|requests| - 1])
    ensures HeapGives(Run(requests[..|requests| - 1]).state, requests[|requests| - 1])
  {
    var front := requests[..|requests| - 1];
    assert forall k :: 0 <= k < |front| ==> front[..k] == requests[..k];
  }

  lemma {:induction false} RunInv(requests: seq<Request>)
    requires Legal(requests)
    ensures Inv(Run(requests)) && |Run(requests).regions| == |requests|
  {
    if requests == [] {
    } else {
      var front, last := requests[..|requests| - 1], requests[|requests| - 1];
      LegalFront(requests);
      RunInv(front);
      if Needed(Run(front).state, last) <= Run(front).state.remaining {
        FitKeeps(Run(front), last);
      } else {
        NewBlockKeeps(Run(front), last);
      }
    }
  }

  /** Every region handed out lies inside one block, no two overlap, and the usage reported is the total
      size of the blocks plus one pointer for each. */
  lemma {:induction false} RegionsDisjoint(requests: seq<Request>)
    requires Legal(requests)
    ensures var t := Run(requests);
            && |t.regions| == |requests|
            && (forall i :: 0 <= i < |requests| ==>
                  t.regions[i].len == requests[i].bytes && InOneBlock(t.regions[i], t.state.blocks))
            && (forall i, j :: 0 <= i < j < |requests| ==> Apart(t.regions[i], t.regions[j]))
            && t.state.usage == TotalSize(t.state.blocks) + POINTER_SIZE * |t.state.blocks|
  {
    RunInv(requests);
    RegionSizes(requests);
  }

  lemma {:induction false} RegionSizes(requests: seq<Request>)
    ensures |Run(requests).regions| == |requests|
    ensures forall i :: 0 <= i < |requests| ==> Run(requests).regions[i].len == requests[i].bytes
  {
    if requests == [] {
    } else {
      RegionSizes(requests[..|requests| - 1]);
    }
  }

  lemma LastRegion(requests: seq<Request>)
    requires requests != []
    ensures var front, last := requests[..|requests| - 1], requests[|requests| - 1];
            && |Run(front).regions| == |front|
            && Run(requests).regions == Run(front).regions + [Span(Serve(Run(front).state, last).addr, last.bytes)]
  {
    RegionSizes(requests[..|requests| - 1]);
  }

  lemma ServedAligned(s: ArenaState, q: Request)
    requires q.aligned && HeapGives(s, q)
    ensures Serve(s, q).addr % ALIGN == 0
  {
    SlopAligns(s.ptr);
  }

  // Where a request asked for it, the region is aligned.
  predicate AlignedWhereAsked(requests: seq<Request>, regions: seq<Span>)
  {
    && |regions| == |requests|
    && forall i :: 0 <= i < |requests| && requests[i].aligned ==> regions[i].addr % ALIGN == 0
  }

  lemma OneMoreAligned(front: seq<Request>, last: Request, regions: seq<Span>, region: Span)
    requires AlignedWhereAsked(front, regions) && (last.aligned ==> region.addr % ALIGN == 0)
    ensures AlignedWhereAsked(front + [last], regions + [region])
  {
  }

  /** Aligned requests get aligned addresses. */
  lemma {:induction false} AlignedRegions(requests: seq<Request>)
    requires Legal(requests)
    ensures AlignedWhereAsked(requests, Run(requests).regions)
  {
    if requests == [] {
    } else {
      var front, last := requests[..|requests| - 1], requests[|requests| - 1];
      LegalFront(requests);
      AlignedRegions(front);
      LastRegion(requests);
      if last.aligned {
        ServedAligned(Run(front).state, last);
      }
      OneMoreAligned(front, last, Run(front).regions, Span(Serve(Run(front).state, last).addr, last.bytes));
      assert front + [last] == requests;
    }
  }

  // ---- Where each request goes ----

  /** A request that fits takes the first bytes of the free space, from the first aligned address on if alignment was
      asked for; no block is added. */
  lemma FittingRequest(s: ArenaState, q: Request)
    requires Needed(s, q) <= s.remaining
    ensures var r := Serve(s, q);
            && s.ptr <= r.addr && r.addr + q.bytes <= s.ptr + s.remaining
            && (if q.aligned then r.addr % 8 == 0 else r.addr == s.ptr)
            && (forall a :: s.ptr <= a < r.addr ==> a % 8 != 0)
            && r.state.ptr == r.addr + q.bytes && r.state.Free().End() == s.Free().End()
            && r.state.blocks == s.blocks && r.state.usage == s.usage
  {
    SlopAligns(s.ptr);
  }

  /** A request that does not fit is served from the start of a new block: of its own size, with the current block left
      alone, when it asks for more than 1024 bytes, and otherwise of 4096 bytes, whose rest becomes the free space. */
  lemma RequestInNewBlock(s: ArenaState, q: Request)
    requires Needed(s, q) > s.remaining
    ensures var r := Serve(s, q);
            && r.addr == q.base
            && (q.bytes > 1024 ==>
                  && r.state.Free() == s.Free() && r.state.blocks == s.blocks + [Span(q.base, q.bytes)]
                  && r.state.usage == s.usage + q.bytes + 8)
            && (q.bytes <= 1024 ==>
                  && r.state.Free() == Span(q.base + q.bytes, 4096 - q.bytes)
                  && r.state.blocks == s.blocks + [Span(q.base, 4096)] && r.state.usage == s.usage + 4096 + 8)
  {
  }

  lemma OneMoreBlock(blocks: seq<Span>, b: Span)
    ensures TotalSize(blocks + [b]) == TotalSize(blocks) + b.len
  {
    assert (blocks + [b])[..|blocks|] == blocks;
  }

  /** Conservation: the bytes of all blocks are those requested, those skipped to align, those abandoned, and those
      still free; nothing else is lost.  Without aligned requests nothing is skipped. */
  lemma {:induction false} SpaceIsAccountedFor(requests: seq<Request>)
    requires Legal(requests)
    ensures var t := Run(requests);
            TotalSize(t.state.blocks) == t.requested + t.skipped + t.abandoned + t.state.remaining
    ensures (forall q <- requests :: !q.aligned) ==> Run(requests).skipped == 0
  {
    if requests == [] {
    } else {
      var front, last := requests[..|requests| - 1], requests[|requests| - 1];
      LegalFront(requests);
      SpaceIsAccountedFor(front);
      assert forall q <- front :: q in requests;
      assert last in requests;
      var s := Run(front).state;
      if Needed(s, last) > s.remaining {
        OneMoreBlock(s.blocks, Span(last.base, if last.bytes > 1024 then last.bytes else 4096));
      }
    }
  }

  // Bytes used in the current small-object block.
  function UsedInCurrent(s: ArenaState): int
  {
    if s.Free() == Span(0, 0) then 0 else BLOCK_SIZE - s.remaining
  }

  /** Waste: without aligned requests each abandoned block loses at most 1023 of its 4096 bytes, and all
      the space ever abandoned is less than a third of the bytes requested. */
  lemma {:induction false} WasteBound(requests: seq<Request>)
    requires requests != [] && Legal(requests) && forall q <- requests :: !q.aligned
    ensures 3 * Run(requests).abandoned < Run(requests).requested
    ensures forall k :: 0 <= k < |requests| && Abandons(Run(requests[..k]).state, requests[k]) ==>
              Run(requests[..k]).state.remaining <= 1023
  {
    forall k | 0 <= k < |requests|
      ensures !requests[k].aligned
    {
      assert requests[k] in requests;
    }
    WasteSoFar(requests);
  }

  lemma {:induction false} WasteSoFar(requests: seq<Request>)
    requires Legal(requests) && forall k :: 0 <= k < |requests| ==> !requests[k].aligned
    ensures var t := Run(requests);
            && 0 <= UsedInCurrent(t.state) && t.state.remaining <= BLOCK_SIZE
            && 3 * t.abandoned + UsedInCurrent(t.state) <= t.requested
            && (requests != [] ==> 3 * t.abandoned < t.requested)
  {
    if requests == [] {
    } else {
      var front := requests[..|requests| - 1];
      LegalFront(requests);
      WasteSoFar(front);
    }
  }
}
