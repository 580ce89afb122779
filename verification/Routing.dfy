/** Guidance: which replica owns which slice of the key space (core/guidance.h, and the functions of
    core/morphling.cpp that compute key positions and the initial guidance). */
module Routing {

  const KEY_SPACE := 256

  // The 64-bit hash of a key.
  datatype KeyHash = KeyHash(word: bv64)

  const KEY_MASK: bv64 := 0xff00
  const MASK_OFFSET := 8

  function KeyPos(keyHash: KeyHash): bv8
  {
    ((keyHash.word & KEY_MASK) >> MASK_OFFSET) as bv8
  }

  /** A key position is the second base-256 digit of the hash. */
  lemma MaskPicksDigit(keyHash: KeyHash)
    ensures KeyPos(keyHash) as bv64 == (keyHash.word / 256) % 256
  {
  }

  predicate InInterval(start: bv8, end: bv8, pos: bv8)
  {
    if start > end then start <= pos || pos <= end else start <= pos <= end
  }

  /** One packed 32-bit word: start position, end position and flags, a byte each.
      A plain value in the source as well: it is copied into every message that carries guidance. */
  datatype NodeStatus = NodeStatus(status: bv32) {

    function StartPos(): bv8 { (status & 0xff) as bv8 }

    function EndPos(): bv8 { ((status & 0xff00) >> 8) as bv8 }

    function Flags(): bv8 { ((status & 0xff0000) >> 16) as bv8 }

    predicate Alive() { Flags() != 0 }

    function SetPos(start: bv8, end: bv8): (s: NodeStatus)
      ensures s.StartPos() == start && s.EndPos() == end && s.Flags() == Flags()
    {
      NodeStatus((status & 0xffff0000) | (start as bv32 | ((end as bv32) << 8)))
    }

    function SetAlive(): (s: NodeStatus)
      ensures s.Alive() && s.Flags() == 1 && s.StartPos() == StartPos() && s.EndPos() == EndPos()
    {
      NodeStatus((status & 0x0000ffff) | 0x00010000)
    }

    // The interval is circular: when start > end it wraps past the top of the key space.
    predicate PosIsIn(pos: bv8)
    {
      Alive() && InInterval(StartPos(), EndPos(), pos)
    }
  }

  /** The packed status word holds the cluster size (second byte) and the number alive (first byte). */
  datatype Guidance = Guidance(epoch: nat, status: bv32, cluster: seq<NodeStatus>) {

    function ClusterSize(): bv8 { ((status & 0xff00) >> 8) as bv8 }

    function AliveNum(): bv8 { (status & 0xff) as bv8 }

    function SetClusterSize(size: bv8): (g: Guidance)
      ensures g.ClusterSize() == size && g.AliveNum() == AliveNum()
      ensures g.epoch == epoch && g.cluster == cluster
    {
      this.(status := (status & 0x00ff) | ((size as bv32) << 8))
    }

    function SetAliveNum(num: bv8): (g: Guidance)
      ensures g.AliveNum() == num && g.ClusterSize() == ClusterSize()
      ensures g.epoch == epoch && g.cluster == cluster
    {
      this.(status := (status & 0xff00) | (num as bv32))
    }

    // The first node, in id order from `id`, whose interval holds pos; -1 when there is none.
    function NodeFrom(id: nat, pos: bv8): (r: int)
      requires id <= |cluster|
      ensures r == -1 || id <= r < |cluster|
      ensures r != -1 ==> cluster[r].PosIsIn(pos) && forall j :: id <= j < r ==> !cluster[j].PosIsIn(pos)
      ensures r == -1 ==> forall j :: id <= j < |cluster| ==> !cluster[j].PosIsIn(pos)
      decreases |cluster| - id
    {
      if id == |cluster| then -1 else if cluster[id].PosIsIn(pos) then id else NodeFrom(id + 1, pos)
    }

    function NodeFor(pos: bv8): int { NodeFrom(0, pos) }

    method MapNodeId(pos: bv8) returns (r: int)
      ensures r == NodeFor(pos)
    {
      var id := 0;
      while id < |cluster|
        invariant 0 <= id <= |cluster|
        invariant NodeFor(pos) == NodeFrom(id, pos)
      {
        if cluster[id].PosIsIn(pos) {
          return id;
        }
        id := id + 1;
      }
      return -1;
    }
  }

  // ---- The initial partition ----

  // First key position of node i, in unbounded arithmetic.
  function Start(i: nat, keySpace: nat, n: nat): nat
    requires n >= 1
  {
    i * keySpace / n
  }

  // An unsigned 32-bit value passed where an 8-bit one is expected: only the low byte survives.
  function LowByte(x: int): bv8
  {
    (x % 256) as bv8
  }

  function InitialNode(i: nat, keySpace: nat, n: nat): NodeStatus
    requires n >= 1
  {
    NodeStatus(0).SetPos(LowByte(Start(i, keySpace, n)), LowByte(Start(i + 1, keySpace, n) - 1)).SetAlive()
  }

  function InitialGuidance(n: nat, keySpace: nat): Guidance
    requires n >= 1
  {
    Guidance(1, 0, seq(n, i requires 0 <= i < n => InitialNode(i, keySpace, n)))
      .SetClusterSize(LowByte(n)).SetAliveNum(LowByte(n))
  }

  // Node i owns position pos: the packed word of node i is alive and its interval holds pos.
  predicate Owns(g: Guidance, i: int, pos: bv8)
  {
    0 <= i < |g.cluster| && g.cluster[i].PosIsIn(pos)
  }

  ghost predicate HasOneOwner(g: Guidance, pos: bv8)
  {
    exists i :: Owns(g, i, pos) && forall j :: Owns(g, j, pos) ==> j == i
  }

  ghost predicate UniquelyOwned(g: Guidance, keySpace: nat)
  {
    forall pos: bv8 :: pos as int < keySpace ==> HasOneOwner(g, pos)
  }

  lemma ByteOrder(p: bv8, q: bv8)
    ensures p <= q <==> p as int <= q as int
  {
  }

  lemma ByteOfInt(x: int)
    requires 0 <= x < 256
    ensures LowByte(x) as int == x
  {
    assert x % 256 == x;
  }

  lemma MulSucc(n: nat, a: nat)
    ensures n * (a + 1) == n * a + n
  {
  }

  lemma {:induction false} MulStep(n: nat, a: nat, b: nat)
    requires a < b
    ensures n * a + n <= n * b
    decreases b
  {
    MulSucc(n, b - 1);
    if a + 1 == b {
    } else {
      MulStep(n, a, b - 1);
    }
  }

  lemma Divides(x: nat, n: nat)
    requires n >= 1
    ensures x == n * (x / n) + x % n && x % n < n
  {
  }

  lemma QuotientIs(x: nat, n: nat, q: nat, r: nat)
    requires n >= 1 && r < n && x == n * q + r
    ensures x / n == q
  {
    Divides(x, n);
    var d := x / n;
    if d < q {
      MulStep(n, d, q);
    } else if q < d {
      MulStep(n, q, d);
    }
  }

  lemma MulSum(n: nat, a: nat, b: nat)
    ensures n * (a + b) == n * a + n * b
  {
  }

  lemma DivOfSum(a: nat, b: nat, n: nat)
    requires n >= 1
    ensures a / n + b / n <= (a + b) / n <= a / n + b / n + 1
  {
    Divides(a, n);
    Divides(b, n);
    SumOfParts(n, a / n, a % n, b / n, b % n);
  }

  lemma SumOfParts(n: nat, qa: nat, ra: nat, qb: nat, rb: nat)
    requires n >= 1 && ra < n && rb < n
    ensures (n * qa + ra + (n * qb + rb)) / n == if ra + rb < n then qa + qb else qa + qb + 1
  {
    var x := n * qa + ra + (n * qb + rb);
    MulSum(n, qa, qb);
    if ra + rb < n {
      QuotientIs(x, n, qa + qb, ra + rb);
    } else {
      MulSucc(n, qa + qb);
      QuotientIs(x, n, qa + qb + 1, ra + rb - n);
    }
  }

  // Consecutive starts are K/n or K/n + 1 apart: sizes differ by at most one.
  lemma StartStep(i: nat, keySpace: nat, n: nat)
    requires n >= 1
    ensures keySpace / n <= Start(i + 1, keySpace, n) - Start(i, keySpace, n) <= keySpace / n + 1
  {
    MulNext(i, keySpace);
    DivOfSum(i * keySpace, keySpace, n);
  }

  lemma MulNext(i: nat, k: nat)
    ensures (i + 1) * k == i * k + k
  {
  }

  lemma {:induction false} StartsAscend(i: nat, j: nat, keySpace: nat, n: nat)
    requires n >= 1 && i <= j
    ensures Start(i, keySpace, n) <= Start(j, keySpace, n)
    decreases j - i
  {
    if i == j {
    } else {
      StartStep(i, keySpace, n);
      StartsAscend(i + 1, j, keySpace, n);
    }
  }

  lemma StepIsUp(keySpace: nat, n: nat)
    requires 1 <= n <= keySpace
    ensures keySpace / n >= 1
  {
    Divides(keySpace, n);
  }

  lemma StartOfAll(keySpace: nat, n: nat)
    requires n >= 1
    ensures Start(0, keySpace, n) == 0 && Start(n, keySpace, n) == keySpace
  {
    QuotientIs(0, n, 0, 0);
    QuotientIs(n * keySpace, n, keySpace, 0);
  }

  // The slice of the key space meant for node i, in unbounded arithmetic.
  predicate InSlice(i: nat, keySpace: nat, n: nat, pos: int)
    requires n >= 1
  {
    Start(i, keySpace, n) <= pos < Start(i + 1, keySpace, n)
  }

  // Slices are non-empty, hold at most K/n + 1 positions and end within the key space.
  lemma {:induction false} SliceBounds(i: nat, keySpace: nat, n: nat)
    requires 1 <= n <= keySpace && i < n
    ensures Start(i, keySpace, n) < Start(i + 1, keySpace, n) <= keySpace
    ensures keySpace / n <= Start(i + 1, keySpace, n) - Start(i, keySpace, n) <= keySpace / n + 1
  {
    StartStep(i, keySpace, n);
    StepIsUp(keySpace, n);
    StartsAscend(i + 1, n, keySpace, n);
    StartOfAll(keySpace, n);
  }

  lemma IntervalInOrder(start: bv8, end: bv8, pos: bv8)
    requires start as int <= end as int
    ensures InInterval(start, end, pos) <==> start as int <= pos as int <= end as int
  {
    ByteOrder(start, end);
    ByteOrder(start, pos);
    ByteOrder(pos, end);
    NotUpTo(start, end);
  }

  lemma PackedInterval(s: int, e: int, pos: bv8)
    requires 0 <= s <= e < 256
    ensures NodeStatus(0).SetPos(LowByte(s), LowByte(e)).SetAlive().PosIsIn(pos) <==> s <= pos as int <= e
  {
    ByteOfInt(s);
    ByteOfInt(e);
    IntervalInOrder(LowByte(s), LowByte(e), pos);
    var node := NodeStatus(0).SetPos(LowByte(s), LowByte(e)).SetAlive();
    assert node.Alive() && node.StartPos() == LowByte(s) && node.EndPos() == LowByte(e);
    assert node.PosIsIn(pos) <==> InInterval(LowByte(s), LowByte(e), pos);
  }

  /** The packed word of node i holds exactly the positions of its slice. */
  lemma {:induction false} SlicesSurvivePacking(i: nat, keySpace: nat, n: nat, pos: bv8)
    requires 1 <= n <= keySpace <= 256 && i < n
    ensures InitialNode(i, keySpace, n).PosIsIn(pos) <==> InSlice(i, keySpace, n, pos as int)
  {
    SliceBounds(i, keySpace, n);
    var s, e := Start(i, keySpace, n), Start(i + 1, keySpace, n) - 1;
    assert InitialNode(i, keySpace, n) == NodeStatus(0).SetPos(LowByte(s), LowByte(e)).SetAlive();
    PackedInterval(s, e, pos);
  }

  lemma {:induction false} LocateSlice(i: nat, pos: nat, keySpace: nat, n: nat) returns (owner: nat)
    requires 1 <= n && i <= n
    requires Start(i, keySpace, n) <= pos < keySpace
    ensures i <= owner < n && InSlice(owner, keySpace, n, pos)
    decreases n - i
  {
    StartOfAll(keySpace, n);
    if pos < Start(i + 1, keySpace, n) {
      owner := i;
    } else {
      owner := LocateSlice(i + 1, pos, keySpace, n);
    }
  }

  lemma SlicesDisjoint(i: nat, j: nat, keySpace: nat, n: nat, pos: int)
    requires n >= 1 && InSlice(i, keySpace, n, pos) && InSlice(j, keySpace, n, pos)
    ensures i == j
  {
    if i < j {
      StartsAscend(i + 1, j, keySpace, n);
    } else if j < i {
      StartsAscend(j + 1, i, keySpace, n);
    }
  }

  /** The slices tile the key space: the one that holds pos belongs to the node the packed words name. */
  lemma OwnerOfPos(keySpace: nat, n: nat, pos: bv8) returns (owner: nat)
    requires 1 <= n <= keySpace <= 256 && pos as int < keySpace
    ensures owner < n && InSlice(owner, keySpace, n, pos as int)
    ensures InitialGuidance(n, keySpace).NodeFor(pos) == owner
    ensures forall i :: Owns(InitialGuidance(n, keySpace), i, pos) <==> i == owner
  {
    StartOfAll(keySpace, n);
    owner := LocateSlice(0, pos as int, keySpace, n);
    forall i: nat | i < n
      ensures InitialNode(i, keySpace, n).PosIsIn(pos) <==> i == owner
    {
      SlicesSurvivePacking(i, keySpace, n, pos);
      if InSlice(i, keySpace, n, pos as int) {
        SlicesDisjoint(i, owner, keySpace, n, pos as int);
      }
    }
    OnlyOwner(InitialGuidance(n, keySpace), owner, pos);
  }

  lemma OnlyOwner(g: Guidance, owner: nat, pos: bv8)
    requires owner < |g.cluster|
    requires forall i :: 0 <= i < |g.cluster| ==> (g.cluster[i].PosIsIn(pos) <==> i == owner)
    ensures g.NodeFor(pos) == owner
    ensures forall i :: Owns(g, i, pos) <==> i == owner
  {
    assert g.cluster[owner].PosIsIn(pos);
  }

  /** With more replicas than key positions node 0 gets an empty slice, which packs to the whole
      circle, so node 0 shares the last position with the last node. */
  lemma TooManyReplicasOverlap(keySpace: nat, n: nat)
    requires 1 <= keySpace <= 256 && keySpace < n
    ensures !UniquelyOwned(InitialGuidance(n, keySpace), keySpace)
  {
    var g := InitialGuidance(n, keySpace);
    var pos := LowByte(keySpace - 1);
    ByteOfInt(keySpace - 1);
    LastPositionTwice(keySpace, n, pos);
    assert Owns(g, 0, pos) && Owns(g, n - 1, pos);
    assert !HasOneOwner(g, pos);
  }

  lemma LastPositionTwice(keySpace: nat, n: nat, pos: bv8)
    requires 1 <= keySpace <= 256 && keySpace < n && pos as int == keySpace - 1
    ensures InitialNode(0, keySpace, n).PosIsIn(pos) && InitialNode(n - 1, keySpace, n).PosIsIn(pos)
  {
    FirstSliceEmpty(keySpace, n);
    LastSlice(keySpace, n);
    PackedInterval(keySpace - 1, keySpace - 1, pos);
    PackedInterval(0, 255, pos);
  }

  lemma FirstSliceEmpty(keySpace: nat, n: nat)
    requires 1 <= keySpace < n
    ensures Start(0, keySpace, n) == Start(1, keySpace, n) == 0
    ensures InitialNode(0, keySpace, n) == NodeStatus(0).SetPos(LowByte(0), LowByte(255)).SetAlive()
  {
    StartOfAll(keySpace, n);
    QuotientIs(keySpace, n, 0, keySpace);
  }

  lemma LastSlice(keySpace: nat, n: nat)
    requires 1 <= keySpace < n
    ensures Start(n - 1, keySpace, n) == keySpace - 1 && Start(n, keySpace, n) == keySpace
  {
    StartOfAll(keySpace, n);
    MulNext(n - 1, keySpace);
    MulSucc(n, keySpace - 1);
    QuotientIs((n - 1) * keySpace, n, keySpace - 1, n - keySpace);
  }

  /** Unique ownership: every position of the key space has exactly one owner under the initial
      guidance if and only if there are no more replicas than key positions. */
  lemma UniqueOwnership(keySpace: nat, n: nat)
    requires n >= 1 && 1 <= keySpace <= 256
    ensures UniquelyOwned(InitialGuidance(n, keySpace), keySpace) <==> n <= keySpace
  {
    if n <= keySpace {
      forall pos: bv8 | pos as int < keySpace
        ensures HasOneOwner(InitialGuidance(n, keySpace), pos)
      {
        var owner := OwnerOfPos(keySpace, n, pos);
        assert Owns(InitialGuidance(n, keySpace), owner, pos);
      }
    } else {
      TooManyReplicasOverlap(keySpace, n);
    }
  }

  /** The initial guidance: epoch 1, one node for each replica, all alive, and their number in both counts as far as a
      byte can hold it. */
  lemma InitialCounts(n: nat, keySpace: nat)
    requires n >= 1
    ensures var g := InitialGuidance(n, keySpace);
            && g.epoch == 1 && |g.cluster| == n && (forall i :: 0 <= i < n ==> g.cluster[i].Flags() == 1)
            && (g.ClusterSize() as int == n <==> n < 256) && (g.AliveNum() as int == n <==> n < 256)
  {
    assert InitialGuidance(n, keySpace).ClusterSize() == InitialGuidance(n, keySpace).AliveNum() == LowByte(n);
    ByteOfInt(n % 256);
    assert n % 256 % 256 == n % 256 && LowByte(n % 256) == LowByte(n);
  }

  /** A live node's interval is circular: it leaves out the positions below its start and above its end or, when the
      start is greater, only those between its end and its start.  A dead node holds none. */
  lemma CircularInterval(s: NodeStatus, pos: bv8)
    ensures !s.PosIsIn(pos)
            <==> s.Flags() == 0
                 || (if s.StartPos() > s.EndPos() then s.EndPos() < pos < s.StartPos()
                     else pos < s.StartPos() || s.EndPos() < pos)
  {
    OutsideInterval(s.StartPos(), s.EndPos(), pos);
  }

  lemma OutsideInterval(start: bv8, end: bv8, pos: bv8)
    ensures !InInterval(start, end, pos)
            <==> if start > end then end < pos < start else pos < start || end < pos
  {
    NotUpTo(start, pos);
    NotUpTo(pos, end);
  }

  lemma NotUpTo(a: bv8, b: bv8)
    ensures !(a <= b) <==> b < a
  {
  }

  /** For every 64-bit key hash the initial guidance names a replica, never -1, and only that one. */
  lemma {:induction false} EveryKeyHasOneOwner(n: nat, keyHash: KeyHash)
    requires 1 <= n <= KEY_SPACE
    ensures 0 <= InitialGuidance(n, KEY_SPACE).NodeFor(KeyPos(keyHash)) < n
    ensures forall i :: Owns(InitialGuidance(n, KEY_SPACE), i, KeyPos(keyHash))
                        <==> i == InitialGuidance(n, KEY_SPACE).NodeFor(KeyPos(keyHash))
  {
    var owner := OwnerOfPos(KEY_SPACE, n, KeyPos(keyHash));
  }
}
