/** The memory-mapped packet ring: block and frame geometry, and the allocation of its blocks. */
module PacketRing {
  import opened Basics
  import opened Geometry

  const PAGE_SIZE: int := 4096
  const UINT: int := 0x1_0000_0000
  const TPACKET_ALIGNMENT: int := 16
  /** An aligned frame header followed by a link-layer address. */
  const TPACKET_HDRLEN: int := 52

  const ENOMEM: int := 12
  const EBUSY: int := 16
  const EINVAL: int := 22

  datatype Req = Req(blockSize: nat, blockNr: nat, frameSize: nat, frameNr: nat)

  function FramesPerBlock(req: Req): nat
    requires req.frameSize > 0
  {
    req.blockSize / req.frameSize
  }

  /** The sizes of a request for blocks. */
  predicate Sized(req: Req) {
    && 0 < req.blockSize < UINT / 2 && req.blockSize % PAGE_SIZE == 0
    && req.frameSize >= TPACKET_HDRLEN && req.frameSize % TPACKET_ALIGNMENT == 0
  }

  /** The product test, in 32 bits. */
  predicate Multiplies(framesPerBlock: nat, req: Req) {
    framesPerBlock * req.blockNr % UINT == req.frameNr
  }

  /** All sanity tests on a request for blocks. */
  predicate Accepted(req: Req) {
    Sized(req) && FramesPerBlock(req) > 0 && Multiplies(FramesPerBlock(req), req)
  }

  /** Bytes in a block of the page allocator. */
  function BlockBytes(order: nat): nat {
    if order == 0 then PAGE_SIZE else 2 * BlockBytes(order - 1)
  }

  /** get_order: the smallest order whose block holds `size` bytes. */
  function GetOrder(size: nat): (order: nat)
    ensures BlockBytes(order) >= size
    ensures order > 0 ==> BlockBytes(order - 1) < size
  {
    OrderFrom(size, 0)
  }

  function OrderFrom(size: nat, order: nat): (r: nat)
    requires order > 0 ==> BlockBytes(order - 1) < size
    ensures BlockBytes(r) >= size
    ensures r > 0 ==> BlockBytes(r - 1) < size
    decreases size - BlockBytes(order)
  {
    if BlockBytes(order) >= size then order
    else
      BlockPositive(order);
      OrderFrom(size, order + 1)
  }

  lemma BlockDoubles(order: nat)
    ensures BlockBytes(0) == 4096 && BlockBytes(order + 1) == BlockBytes(order) + BlockBytes(order)
  {
  }

  lemma BlockPositive(order: nat)
    ensures BlockBytes(order) > 0
  {
  }

  /** packet_lookup_frame on block addresses. */
  function Lookup(blocks: seq<int>, framesPerBlock: nat, frameSize: nat, position: nat): int
    requires framesPerBlock > 0 && position / framesPerBlock < |blocks|
  {
    blocks[position / framesPerBlock] + position % framesPerBlock * frameSize
  }

  /** `a` is the address of the frame at `position`. */
  predicate IsFrame(blocks: seq<int>, framesPerBlock: nat, frameSize: nat, position: nat, a: int) {
    framesPerBlock > 0 && position / framesPerBlock < |blocks| && a == Lookup(blocks, framesPerBlock, frameSize, position)
  }

  lemma HeaderAt(blocks: seq<int>, f: nat, frameSize: nat, i: nat, k: nat)
    requires i < |blocks| && k < f
    ensures 0 <= i * f + k && IsFrame(blocks, f, frameSize, i * f + k, blocks[i] + k * frameSize)
  {
    if i > 0 {
      AtLeastOne(i, f);
    }
    DivModUnique(i * f + k, f, i, k);
  }

  /** The addresses are those of the frames 0, 1, 2, ... in this order. */
  predicate Frames(blocks: seq<int>, framesPerBlock: nat, frameSize: nat, addresses: seq<int>) {
    forall p: nat :: p < |addresses| ==> IsFrame(blocks, framesPerBlock, frameSize, p, addresses[p])
  }

  lemma FrameAdded(blocks: seq<int>, f: nat, frameSize: nat, addresses: seq<int>, i: nat, k: nat)
    requires Frames(blocks, f, frameSize, addresses) && i < |blocks| && k < f && |addresses| == i * f + k
    ensures Frames(blocks, f, frameSize, addresses + [blocks[i] + k * frameSize])
  {
    HeaderAt(blocks, f, frameSize, i, k);
  }

  ghost predicate Disjoint(blocks: seq<int>, bytes: int) {
    forall i, j :: 0 <= i < j < |blocks| ==> blocks[i] + bytes <= blocks[j] || blocks[j] + bytes <= blocks[i]
  }

  lemma PositionInRange(position: nat, f: nat, n: nat)
    requires f > 0 && position < f * n
    ensures position / f < n
  {
    Fundamental(position, f);
    if position / f >= n {
      Distributes(position / f, n, f);
      if position / f > n {
        AtLeastOne(position / f - n, f);
      }
    }
  }

  /** Every frame of an accepted request lies inside its block. */
  lemma FrameInsideBlock(req: Req, blocks: seq<int>, position: nat)
    requires Accepted(req) && |blocks| == req.blockNr && position < FramesPerBlock(req) * req.blockNr
    ensures position / FramesPerBlock(req) < |blocks|
    ensures var b := blocks[position / FramesPerBlock(req)];
      var frame := Lookup(blocks, FramesPerBlock(req), req.frameSize, position);
      b <= frame && frame + req.frameSize <= b + BlockBytes(GetOrder(req.blockSize))
  {
    var f := FramesPerBlock(req);
    PositionInRange(position, f, req.blockNr);
    Fundamental(position, f);
    FrameFits(position % f, f, req.frameSize, req.blockSize);
  }

  lemma FrameFits(k: nat, f: nat, frameSize: nat, blockSize: nat)
    requires frameSize > 0 && f == blockSize / frameSize && k < f
    ensures 0 <= k * frameSize && k * frameSize + frameSize <= blockSize
  {
    Fundamental(blockSize, frameSize);
    Distributes(f, k, frameSize);
    AtLeastOne(f - k, frameSize);
    if k > 0 {
      AtLeastOne(k, frameSize);
    }
  }

  /** Different positions are disjoint frames. */
  lemma FramesDisjoint(req: Req, blocks: seq<int>, p: nat, q: nat)
    requires Accepted(req) && |blocks| == req.blockNr && Disjoint(blocks, BlockBytes(GetOrder(req.blockSize)))
    requires p < q < FramesPerBlock(req) * req.blockNr
    ensures p / FramesPerBlock(req) < |blocks| && q / FramesPerBlock(req) < |blocks|
    ensures var a, b := Lookup(blocks, FramesPerBlock(req), req.frameSize, p), Lookup(blocks, FramesPerBlock(req), req.frameSize, q);
      a + req.frameSize <= b || b + req.frameSize <= a
  {
    var f := FramesPerBlock(req);
    FrameInsideBlock(req, blocks, p);
    FrameInsideBlock(req, blocks, q);
    FramesApart(blocks, f, req.frameSize, BlockBytes(GetOrder(req.blockSize)), p, q);
  }

  /** The same of any frames that lie in blocks far enough apart. */
  lemma FramesApart(blocks: seq<int>, f: nat, frameSize: nat, bytes: int, p: nat, q: nat)
    requires f > 0 && p < q && p / f < |blocks| && q / f < |blocks| && Disjoint(blocks, bytes)
    requires forall x :: x == p || x == q ==>
      var frame := Lookup(blocks, f, frameSize, x); blocks[x / f] <= frame && frame + frameSize <= blocks[x / f] + bytes
    ensures var a, b := Lookup(blocks, f, frameSize, p), Lookup(blocks, f, frameSize, q);
      a + frameSize <= b || b + frameSize <= a
  {
    QuotientMonotone(p, q, f);
    if p / f == q / f {
      RestsInOrder(p, q, f);
      InOrder(p % f, q % f, frameSize);
    } else {
      BlocksApart(blocks, bytes, p / f, q / f);
    }
  }

  lemma RestsInOrder(p: nat, q: nat, f: nat)
    requires f > 0 && p < q && p / f == q / f
    ensures p % f < q % f
  {
    Fundamental(p, f);
    Fundamental(q, f);
  }

  lemma InOrder(k: nat, l: nat, frameSize: nat)
    requires k < l
    ensures k * frameSize + frameSize <= l * frameSize
  {
    Distributes(l, k, frameSize);
    AtLeastOne(l - k, frameSize);
  }

  lemma BlocksApart(blocks: seq<int>, bytes: int, i: nat, j: nat)
    requires Disjoint(blocks, bytes) && i < j < |blocks|
    ensures blocks[i] + bytes <= blocks[j] || blocks[j] + bytes <= blocks[i]
  {
  }

  lemma QuotientMonotone(p: nat, q: nat, f: nat)
    requires f > 0 && p <= q
    ensures p / f <= q / f
  {
    Fundamental(p, f);
    Fundamental(q, f);
    if p / f > q / f {
      Distributes(p / f, q / f, f);
      AtLeastOne(p / f - q / f, f);
    }
  }

  /** The number of positions the ring runs through: frame_max + 1, with frame_max an unsigned 32-bit value. */
  function RingPositions(req: Req): nat {
    (req.frameNr - 1) % UINT + 1
  }

  /** Even when the 32-bit product wraps, the ring stays inside its blocks; it runs through all of their
      frames exactly when the product does not exceed 2^32. */
  lemma RingStaysInBlocks(req: Req)
    requires Accepted(req) && req.blockNr > 0
    ensures RingPositions(req) <= FramesPerBlock(req) * req.blockNr
    ensures RingPositions(req) == FramesPerBlock(req) * req.blockNr <==> FramesPerBlock(req) * req.blockNr <= UINT
  {
    var total := FramesPerBlock(req) * req.blockNr;
    AtLeastOne(FramesPerBlock(req), req.blockNr);
    assert total % UINT == req.frameNr;
    assert total == total / UINT * UINT + total % UINT;
  }

  /** A request whose product wraps: it is accepted, and the ring runs through one block of all it has. */
  lemma WrappingRequest() returns (req: Req)
    ensures Accepted(req) && RingPositions(req) == FramesPerBlock(req) == 64 && req.blockNr > 1
  {
    req := Req(4096, UINT / 64 + 1, 64, 64);
  }

  // ---------------------------------------------------------------- one packet in one frame

  function Align(x: int): int {
    (x + TPACKET_ALIGNMENT - 1) / TPACKET_ALIGNMENT * TPACKET_ALIGNMENT
  }

  /** Offsets of the link-layer and network headers in a frame. */
  function Offsets(dgram: bool, maclen: nat): (int, int) {
    if dgram then (Align(TPACKET_HDRLEN) + 16, Align(TPACKET_HDRLEN) + 16)
    else
      var netoff := Align(TPACKET_HDRLEN + if maclen < 16 then 16 else maclen);
      (netoff - maclen, netoff)
  }

  /** How many bytes of the packet are copied into the frame. */
  function Clamp(frameSize: int, macoff: int, snaplen: nat): nat {
    if macoff + snaplen > frameSize then
      if frameSize - macoff < 0 then 0 else frameSize - macoff
    else snaplen
  }

  /** The bytes copied stay inside the frame and clear of its header, whatever the packet. */
  lemma CopyStaysInFrame(req: Req, dgram: bool, maclen: nat, snaplen: nat)
    requires Accepted(req)
    ensures var macoff := Offsets(dgram, maclen).0; var n := Clamp(req.frameSize, macoff, snaplen);
      && TPACKET_HDRLEN <= macoff && TPACKET_HDRLEN <= req.frameSize
      && (n > 0 ==> macoff + n <= req.frameSize)
      && (n < snaplen ==> n == 0 || macoff + n == req.frameSize)
      && n <= snaplen
  {
  }

  /** Exactly as much is copied as there is and as fits behind the offset. */
  lemma ClampIs(frameSize: int, macoff: int, snaplen: nat)
    ensures macoff + snaplen <= frameSize ==> Clamp(frameSize, macoff, snaplen) == snaplen
    ensures macoff <= frameSize <= macoff + snaplen ==> macoff + Clamp(frameSize, macoff, snaplen) == frameSize
    ensures frameSize <= macoff ==> Clamp(frameSize, macoff, snaplen) == 0
  {
  }

  /** The network header stands at the first aligned offset that leaves room for the frame header and a link-layer
      header of at least 16 bytes, which ends where it begins; without one, both are 16 bytes behind the frame header. */
  lemma OffsetsAre(maclen: nat)
    ensures Offsets(true, maclen) == (80, 80)
    ensures var (macoff, netoff) := Offsets(false, maclen);
      && macoff + maclen == netoff && netoff % 16 == 0
      && 52 + 16 <= netoff && 52 + maclen <= netoff && (netoff < 52 + 16 + 16 || netoff < 52 + maclen + 16)
  {
  }

  // ---------------------------------------------------------------- the blocks

  /** A pointer array and the blocks it points to; 0 is a null pointer. */
  datatype Vec = Vec(id: int, blocks: seq<int>)

  ghost function BlockSet(v: Vec): set<int> {
    set b | b in v.blocks && b != 0
  }

  /** The array and each of its blocks are allocated, the blocks with the given order, and none occurs twice. */
  ghost predicate Owns(blocks: map<int, nat>, vecs: set<int>, v: Vec, order: nat) {
    && v.id in vecs
    && (forall i :: 0 <= i < |v.blocks| && v.blocks[i] != 0 ==> v.blocks[i] in blocks && blocks[v.blocks[i]] == order)
    && forall i, j :: 0 <= i < j < |v.blocks| && v.blocks[i] == v.blocks[j] ==> v.blocks[i] == 0
  }

  ghost function Blocks(v: Vec, order: nat): map<int, nat> {
    map b | b in BlockSet(v) :: order
  }

  /** Exactly this vector is allocated. */
  ghost predicate Holds(blocks: map<int, nat>, vecs: set<int>, v: Vec, order: nat, len: nat) {
    && Owns(blocks, vecs, v, order) && |v.blocks| == len
    && blocks == Blocks(v, order) && vecs == {v.id} && |blocks| == len
  }

  /** Why a request is turned down before anything is locked; 0 if it is not. */
  function Refusal(req: Req, ring: Option<Vec>, memory: nat): int {
    if req.blockNr == 0 then (if req.frameNr != 0 then -EINVAL else 0)
    else if ring.Some? then -EBUSY
    else if !Accepted(req) then -EINVAL
    else if memory <= req.blockNr then -ENOMEM
    else 0
  }

  /** A request for blocks that the code must grant, in plain arithmetic. */
  ghost predicate Grantable(req: Req, memory: nat) {
    && 0 < req.blockSize < 0x8000_0000 && req.blockSize % 4096 == 0 && 52 <= req.frameSize && req.frameSize % 16 == 0
    && req.blockSize >= req.frameSize && req.blockSize / req.frameSize * req.blockNr % 0x1_0000_0000 == req.frameNr
    && memory > req.blockNr
  }

  /** When a request is turned down before anything is locked, and with which answer. */
  lemma RefusalIs(req: Req, ring: Option<Vec>, memory: nat)
    ensures req.blockNr == 0 ==> Refusal(req, ring, memory) == if req.frameNr == 0 then 0 else -EINVAL
    ensures req.blockNr > 0 ==> (Refusal(req, ring, memory) == 0 <==> ring == None && Grantable(req, memory))
    ensures req.blockNr > 0 ==> (Refusal(req, ring, memory) == -EBUSY <==> ring != None)
    ensures req.blockNr > 0 ==> (Refusal(req, ring, memory) == -ENOMEM <==>
      ring == None && Grantable(req, req.blockNr + 1) && memory <= req.blockNr)
    ensures req.blockNr > 0 ==> (Refusal(req, ring, memory) == -EINVAL <==> ring == None && !Grantable(req, req.blockNr + 1))
  {
    if req.frameSize > 0 {
      AtLeastOneFrame(req.blockSize, req.frameSize);
    }
  }

  lemma AtLeastOneFrame(blockSize: nat, frameSize: nat)
    requires frameSize > 0
    ensures blockSize / frameSize > 0 <==> blockSize >= frameSize
  {
    Fundamental(blockSize, frameSize);
    if blockSize / frameSize > 0 {
      AtLeastOne(blockSize / frameSize, frameSize);
    }
  }

  /** The request gets as far as the division that sets frames_per_block; it may still be refused after that. */
  predicate Divides(req: Req, ring: Option<Vec>) {
    req.blockNr != 0 && ring.None? && Sized(req)
  }

  class PacketSock {
    var pgVec: Option<Vec>
    var pgVecOrder: nat
    var pgVecLen: nat
    var framesPerBlock: nat
    var frameSize: nat
    var frameMax: nat
    var head: nat
    var mapped: nat
    /** What the allocators have handed out: blocks with their order, and pointer arrays. */
    var blocks: map<int, nat>
    var vecs: set<int>
    var next: int
    /** How many more allocations will succeed. */
    var memory: nat

    ghost predicate Fresh()
      reads this
    {
      next > 0 && (forall b :: b in blocks ==> 0 < b < next) && forall v :: v in vecs ==> 0 < v < next
    }

    /** The allocated memory is exactly what the socket's ring reaches. */
    ghost predicate Valid()
      reads this
    {
      && Fresh()
      && match pgVec
         case None => blocks == map[] && vecs == {}
         case Some(v) =>
           && Owns(blocks, vecs, v, pgVecOrder) && |v.blocks| == pgVecLen
           && blocks == Blocks(v, pgVecOrder) && vecs == {v.id}
    }

    constructor (memory: nat)
      ensures Valid() && pgVec == None && mapped == 0 && this.memory == memory
    {
      pgVec, pgVecOrder, pgVecLen, framesPerBlock, frameSize, frameMax, head, mapped := None, 0, 0, 0, 0, 0, 0, 0;
      blocks, vecs, next := map[], {}, 1;
      this.memory := memory;
    }

    /** Releases a vector under its own order and length: both are preconditions of the page allocator. */
    method FreePgVec(v: Vec, order: nat, len: nat)
      requires Fresh() && Owns(blocks, vecs, v, order) && len == |v.blocks|
      modifies this`blocks, this`vecs
      ensures blocks == old(blocks) - BlockSet(v) && vecs == old(vecs) - {v.id} && Fresh()
    {
      var i := 0;
      while i < len
        invariant 0 <= i <= len
        invariant blocks == old(blocks) - (set k | 0 <= k < i && v.blocks[k] != 0 :: v.blocks[k])
        invariant vecs == old(vecs)
      {
        if v.blocks[i] != 0 {
          assert v.blocks[i] in blocks && blocks[v.blocks[i]] == order;
          blocks := blocks - {v.blocks[i]};
        }
        i := i + 1;
      }
      vecs := vecs - {v.id};
    }

    /** All blocks or none: a failure half-way gives back what had been allocated. */
    method AllocPgVec(blockNr: nat, order: nat) returns (r: Option<Vec>)
      requires Fresh()
      modifies this`blocks, this`vecs, this`next, this`memory
      ensures Fresh()
      ensures r.Some? <==> old(memory) > blockNr
      ensures r.None? ==> blocks == old(blocks) && vecs == old(vecs)
      ensures r.Some? ==>
        && |r.value.blocks| == blockNr && Owns(blocks, vecs, r.value, order)
        && (forall i :: 0 <= i < blockNr ==> r.value.blocks[i] >= old(next)) && r.value.id >= old(next)
        && blocks == old(blocks) + Blocks(r.value, order) && vecs == old(vecs) + {r.value.id}
    {
      if memory == 0 {
        return None;
      }
      memory := memory - 1;
      var v := Vec(next, seq(blockNr, _ => 0));
      vecs := vecs + {next};
      next := next + 1;
      assert BlockSet(v) == {};
      var i := 0;
      while i < blockNr
        invariant 0 <= i <= blockNr && |v.blocks| == blockNr && Fresh()
        invariant v.id == old(next) && vecs == old(vecs) + {v.id} && old(next) < next
        invariant forall k :: 0 <= k < i ==> old(next) <= v.blocks[k] < next
        invariant forall k :: i <= k < blockNr ==> v.blocks[k] == 0
        invariant forall j, k :: 0 <= j < k < i ==> v.blocks[j] != v.blocks[k]
        invariant blocks == old(blocks) + Blocks(v, order)
        invariant memory == old(memory) - 1 - i
      {
        if memory == 0 {
          NewOnes(old(blocks), old(next), v, order);
          FreePgVec(v, order, blockNr);
          return None;
        }
        memory := memory - 1;
        StoreBlock(v, i, next, order, old(blocks));
        v := v.(blocks := v.blocks[i := next]);
        blocks := blocks[next := order];
        next := next + 1;
        i := i + 1;
      }
      r := Some(v);
    }

    /** `headers` are the frames that the setup loops have marked as the kernel's.
        Every way out leaves exactly the ring's blocks allocated.  A mapped ring is replaced only on closing. */
    method SetRing(req: Req, closing: bool) returns (err: int, headers: seq<int>)
      requires Valid()
      modifies this
      ensures Valid() && mapped == old(mapped)
      ensures err == if Refusal(req, old(pgVec), old(memory)) != 0 then Refusal(req, old(pgVec), old(memory))
                     else if closing || mapped == 0 then 0 else -EBUSY
      ensures req.blockNr > 0 ==> (err == 0 <==> old(pgVec) == None && Grantable(req, old(memory)) && (closing || mapped == 0))
      ensures err != 0 ==> pgVec == old(pgVec) && blocks == old(blocks) && vecs == old(vecs)
      ensures err != 0 ==> head == old(head) && frameSize == old(frameSize) && frameMax == old(frameMax)
      ensures err == 0 ==> head == 0 && frameSize == req.frameSize && frameMax == (req.frameNr - 1) % UINT
      ensures err == 0 && req.blockNr == 0 ==> pgVec == None && blocks == map[]
      ensures err == 0 && req.blockNr != 0 ==> pgVec.Some? && |pgVec.value.blocks| == |blocks| == req.blockNr
      ensures err == 0 && req.blockNr != 0 ==> pgVecOrder == GetOrder(req.blockSize) && Divides(req, old(pgVec))
      ensures framesPerBlock == if Divides(req, old(pgVec)) then FramesPerBlock(req) else old(framesPerBlock)
      ensures err == 0 && req.blockNr != 0 ==>
        |headers| == framesPerBlock * req.blockNr && Frames(pgVec.value.blocks, framesPerBlock, req.frameSize, headers)
    {
      RefusalIs(req, pgVec, memory);
      var v, order;
      err, v, order, headers := Prepare(req);
      if err != 0 {
        return;
      }
      err := Commit(v, order, req, closing);
    }

    /** The tests and the allocation, before the socket is locked. */
    method Prepare(req: Req) returns (err: int, v: Option<Vec>, order: nat, headers: seq<int>)
      requires Valid()
      modifies this`framesPerBlock, this`blocks, this`vecs, this`next, this`memory
      ensures Fresh() && err == Refusal(req, old(pgVec), old(memory))
      ensures req.blockNr > 0 ==> (err == 0 <==> old(pgVec) == None && Grantable(req, old(memory)))
      ensures framesPerBlock == if Divides(req, old(pgVec)) then FramesPerBlock(req) else old(framesPerBlock)
      ensures err != 0 || req.blockNr == 0 ==> v == None && blocks == old(blocks) && vecs == old(vecs)
      ensures err == 0 && req.blockNr != 0 ==> pgVec == None && v.Some? && Accepted(req)
      ensures err == 0 && req.blockNr != 0 ==> Holds(blocks, vecs, v.value, order, req.blockNr) && order == GetOrder(req.blockSize)
      ensures err == 0 && req.blockNr != 0 ==>
        |headers| == framesPerBlock * req.blockNr && Frames(v.value.blocks, framesPerBlock, req.frameSize, headers)
    {
      RefusalIs(req, pgVec, memory);
      v, order, headers := None, 0, [];
      var blockNr := req.blockNr;
      if blockNr == 0 {
        return if req.frameNr != 0 then -EINVAL else 0, v, order, [];
      }
      if pgVec.Some? {
        return -EBUSY, v, order, [];
      }
      if req.blockSize == 0 || req.blockSize >= UINT / 2 || req.blockSize % PAGE_SIZE != 0
         || req.frameSize < TPACKET_HDRLEN || req.frameSize % TPACKET_ALIGNMENT != 0 {
        return -EINVAL, v, order, [];
      }
      framesPerBlock := req.blockSize / req.frameSize;
      if framesPerBlock == 0 {
        return -EINVAL, v, order, [];
      }
      if framesPerBlock * blockNr % UINT != req.frameNr {
        return -EINVAL, v, order, [];
      }
      order := GetOrder(req.blockSize);
      v := AllocPgVec(blockNr, order);
      if v.None? {
        return -ENOMEM, v, order, [];
      }
      AllBlocks(v.value);
      BlocksOnly(v.value, order);
      headers := InitHeaders(v.value.blocks, req.frameSize);
      err := 0;
    }

    /** The exchange under the locks, and the release of whichever vector is left over. */
    method Commit(fresh_: Option<Vec>, newOrder: nat, req: Req, closing: bool) returns (err: int)
      requires Fresh() && (fresh_.Some? <==> req.blockNr != 0)
      requires fresh_.Some? ==> pgVec == None && Holds(blocks, vecs, fresh_.value, newOrder, req.blockNr)
      requires fresh_.None? ==> Valid()
      modifies this
      ensures Valid() && mapped == old(mapped) && framesPerBlock == old(framesPerBlock)
      ensures err == if closing || mapped == 0 then 0 else -EBUSY
      ensures err == 0 ==> head == 0 && frameSize == req.frameSize && frameMax == (req.frameNr - 1) % UINT
      ensures err == 0 ==> pgVec == fresh_ && pgVecOrder == newOrder && |blocks| == req.blockNr
      ensures err != 0 ==> head == old(head) && frameSize == old(frameSize) && frameMax == old(frameMax) && pgVec == old(pgVec)
      ensures err != 0 && fresh_.Some? ==> blocks == map[] && vecs == {}
      ensures err != 0 && fresh_.None? ==> blocks == old(blocks) && vecs == old(vecs)
    {
      var v, order, blockNr := fresh_, newOrder, req.blockNr;
      err := -EBUSY;
      if closing || mapped == 0 {
        err := 0;
        v, pgVec := pgVec, v;
        frameMax := (req.frameNr - 1) % UINT;
        head := 0;
        frameSize := req.frameSize;
        order, pgVecOrder := pgVecOrder, order;
        blockNr, pgVecLen := pgVecLen, blockNr;
      }
      if v.Some? {
        FreePgVec(v.value, order, blockNr);
      }
    }

    /** The setup loops of packet_set_ring: the addresses whose headers they initialise, in order.  The bound is
        the shared field, read again for every frame. */
    method InitHeaders(blocks: seq<int>, frameSize: nat) returns (headers: seq<int>)
      ensures |headers| == framesPerBlock * |blocks| && Frames(blocks, framesPerBlock, frameSize, headers)
    {
      headers := [];
      var i := 0;
      while i < |blocks|
        invariant 0 <= i <= |blocks| && |headers| == i * framesPerBlock
        invariant Frames(blocks, framesPerBlock, frameSize, headers)
      {
        headers := InitBlock(blocks, frameSize, headers, i);
        Distributes(i, 1, framesPerBlock);
        i := i + 1;
      }
    }

    method InitBlock(blocks: seq<int>, frameSize: nat, before: seq<int>, i: nat) returns (headers: seq<int>)
      requires i < |blocks| && |before| == i * framesPerBlock && Frames(blocks, framesPerBlock, frameSize, before)
      ensures |headers| == i * framesPerBlock + framesPerBlock && Frames(blocks, framesPerBlock, frameSize, headers)
    {
      headers := before;
      var ptr := blocks[i];
      var k := 0;
      while k < framesPerBlock
        invariant 0 <= k <= framesPerBlock && |headers| == i * framesPerBlock + k && ptr == blocks[i] + k * frameSize
        invariant Frames(blocks, framesPerBlock, frameSize, headers)
      {
        FrameAdded(blocks, framesPerBlock, frameSize, headers, i, k);
        headers := headers + [ptr];
        Distributes(k, 1, frameSize);
        ptr := ptr + frameSize;
        k := k + 1;
      }
    }
  }

  /** A ring of one page with two frames, set up on a fresh socket. */
  method FirstRing() returns (sock: PacketSock)
    ensures fresh(sock) && sock.Valid() && sock.pgVec.Some? && |sock.blocks| == 1 && sock.framesPerBlock == 2 && sock.frameMax == 1
  {
    sock := new PacketSock(100);
    var req := Req(4096, 1, 2048, 2);
    var err, headers := sock.SetRing(req, false);
    assert Grantable(req, 100);
    assert err == 0 && |headers| == 2;
  }

  lemma BlocksOnly(v: Vec, order: nat)
    ensures map[] + Blocks(v, order) == Blocks(v, order) && |Blocks(v, order)| == |BlockSet(v)|
  {
    assert Blocks(v, order).Keys == BlockSet(v);
  }

  /** Distinct non-null pointers: as many blocks as entries. */
  lemma {:induction false} AllBlocks(v: Vec)
    requires forall i :: 0 <= i < |v.blocks| ==> v.blocks[i] != 0
    requires forall i, j :: 0 <= i < j < |v.blocks| ==> v.blocks[i] != v.blocks[j]
    ensures |BlockSet(v)| == |v.blocks|
    decreases |v.blocks|
  {
    if |v.blocks| == 0 {
      assert BlockSet(v) == {};
    } else {
      var n := |v.blocks| - 1;
      var front := v.(blocks := v.blocks[..n]);
      AllBlocks(front);
      assert v.blocks[n] in v.blocks;
      assert BlockSet(v) == BlockSet(front) + {v.blocks[n]};
    }
  }

  lemma StoreBlock(v: Vec, i: nat, b: int, order: nat, others: map<int, nat>)
    requires i < |v.blocks| && v.blocks[i] == 0 && b != 0
    ensures others + Blocks(v.(blocks := v.blocks[i := b]), order) == (others + Blocks(v, order))[b := order]
  {
    var v' := v.(blocks := v.blocks[i := b]);
    assert v'.blocks[i] == b;
    forall x | x in BlockSet(v)
      ensures x in v'.blocks
    {
      var k :| 0 <= k < |v.blocks| && v.blocks[k] == x;
      assert v'.blocks[k] == x;
    }
    assert BlockSet(v') == BlockSet(v) + {b};
    assert Blocks(v', order) == Blocks(v, order)[b := order];
  }

  /** Adding fresh blocks and taking them away again changes nothing. */
  lemma NewOnes(old_: map<int, nat>, next: int, v: Vec, order: nat)
    requires forall b :: b in old_ ==> b < next
    requires forall k :: 0 <= k < |v.blocks| && v.blocks[k] != 0 ==> v.blocks[k] >= next
    ensures old_ + Blocks(v, order) - BlockSet(v) == old_
  {
  }
}
