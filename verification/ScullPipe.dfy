/** scullpipe: a circular buffer shared by any number of blocking readers and writers. */
module ScullPipe {
  import opened Basics
  import opened Geometry

  const EFAULT: int := 14
  const EAGAIN: int := 11
  const ENOMEM: int := 12
  const ERESTARTSYS: int := 512

  /** The read and write pointers are offsets into `buf`, whose length is the buffer size. */
  datatype Pipe = Pipe(buf: seq<char>, rp: nat, wp: nat)
  {
    ghost predicate Valid() {
      |buf| >= 2 && rp < |buf| && wp < |buf|
    }

    function Contents(): seq<char>
      requires Valid()
    {
      if rp <= wp then buf[rp..wp] else buf[rp..] + buf[..wp]
    }

    function SpaceFree(): int
      requires Valid()
    {
      if rp == wp then |buf| - 1 else (rp + |buf| - wp) % |buf| - 1
    }
  }

  /** The space test is exact: one slot is never used. */
  lemma SpaceIsCapacityMinusLength(p: Pipe)
    requires p.Valid()
    ensures p.SpaceFree() == |p.buf| - 1 - |p.Contents()|
  {
    if p.rp < p.wp {
      DivModUnique(p.rp + |p.buf| - p.wp, |p.buf|, 0, p.rp + |p.buf| - p.wp);
    } else if p.rp > p.wp {
      DivModUnique(p.rp + |p.buf| - p.wp, |p.buf|, 1, p.rp - p.wp);
    }
  }

  /** How much one read takes: up to the write pointer, or up to the end of the buffer. */
  function ReadSize(p: Pipe, count: nat): nat
    requires p.Valid()
  {
    if p.wp > p.rp then Min(count, p.wp - p.rp) else Min(count, |p.buf| - p.rp)
  }

  function AfterRead(p: Pipe, n: nat): Pipe
    requires p.Valid()
  {
    p.(rp := if p.rp + n == |p.buf| then 0 else p.rp + n)
  }

  function WriteSize(p: Pipe, count: nat): nat
    requires p.Valid() && p.SpaceFree() >= 0
  {
    var n := Min(count, p.SpaceFree());
    if p.wp >= p.rp then Min(n, |p.buf| - p.wp) else Min(n, p.rp - p.wp - 1)
  }

  function Stored(p: Pipe, data: seq<char>): Pipe
    requires p.Valid() && p.wp + |data| <= |p.buf|
  {
    p.(buf := p.buf[..p.wp] + data + p.buf[p.wp + |data|..])
  }

  function AfterWrite(p: Pipe, n: nat): Pipe
    requires p.Valid()
  {
    p.(wp := if p.wp + n == |p.buf| then 0 else p.wp + n)
  }

  lemma SlicesJoin<T>(s: seq<T>, a: nat, b: nat, c: nat)
    requires a <= b <= c <= |s|
    ensures s[a..b] + s[b..c] == s[a..c]
  {
  }

  lemma RestJoins<T>(s: seq<T>, a: nat, b: nat)
    requires a <= b <= |s|
    ensures s[a..b] + s[b..] == s[a..]
  {
  }

  lemma RestSplits<T>(s: seq<T>, a: nat, b: nat, t: seq<T>)
    requires a <= b <= |s|
    ensures s[a..b] + (s[b..] + t) == s[a..] + t
  {
    RestJoins(s, a, b);
    Regroups(s[a..b], s[b..], t);
  }

  /** How much one read takes: as much as is asked for, is there, and lies before the end of the buffer. */
  lemma ReadAmount(p: Pipe, count: nat)
    requires p.Valid() && p.rp != p.wp
    ensures ReadSize(p, count) == Least(count, |p.Contents()|, |p.buf| - p.rp)
  {
  }

  /** How much one write takes: as much as is offered, fits, and lies before the end of the buffer. */
  lemma WriteAmount(p: Pipe, count: nat)
    requires p.Valid()
    ensures p.SpaceFree() == |p.buf| - 1 - |p.Contents()| >= 0
    ensures WriteSize(p, count) == Least(count, |p.buf| - 1 - |p.Contents()|, |p.buf| - p.wp)
  {
    SpaceIsCapacityMinusLength(p);
  }

  /** A read takes the oldest bytes, in order, and leaves the rest. */
  lemma ReadSplits(p: Pipe, count: nat)
    requires p.Valid() && p.rp != p.wp
    ensures var n := ReadSize(p, count);
      && p.rp + n <= |p.buf| && (count > 0 ==> n > 0) && AfterRead(p, n).Valid()
      && p.buf[p.rp..p.rp + n] + AfterRead(p, n).Contents() == p.Contents()
  {
    var n := ReadSize(p, count);
    if p.rp < p.wp {
      SlicesJoin(p.buf, p.rp, p.rp + n, p.wp);
    } else if p.rp + n < |p.buf| {
      WrappedReadSplits(p, n);
    } else {
      assert p.buf[p.rp..p.rp + n] == p.buf[p.rp..];
    }
  }

  lemma WrappedReadSplits(p: Pipe, n: nat)
    requires p.Valid() && p.rp > p.wp && p.rp + n < |p.buf|
    ensures p.buf[p.rp..p.rp + n] + AfterRead(p, n).Contents() == p.Contents()
  {
    RestSplits(p.buf, p.rp, p.rp + n, p.buf[..p.wp]);
  }

  /** Bytes copied behind the write pointer are not visible until it moves. */
  lemma StoreHidden(p: Pipe, data: seq<char>)
    requires p.Valid() && |data| <= p.SpaceFree() && p.wp + |data| <= |p.buf|
    ensures Stored(p, data).Valid() && Stored(p, data).Contents() == p.Contents()
    ensures Stored(p, data).buf[p.wp..p.wp + |data|] == data
  {
    SpaceIsCapacityMinusLength(p);
    var p' := Stored(p, data);
    assert p'.buf[..p.wp] == p.buf[..p.wp];
    if p.rp > p.wp {
      assert p'.buf[p.wp + |data|..] == p.buf[p.wp + |data|..];
      var skip := p.rp - (p.wp + |data|);
      assert p'.buf[p.rp..] == p'.buf[p.wp + |data|..][skip..];
      assert p.buf[p.rp..] == p.buf[p.wp + |data|..][skip..];
    } else {
      assert p'.buf[p.rp..p.wp] == p'.buf[..p.wp][p.rp..];
      assert p.buf[p.rp..p.wp] == p.buf[..p.wp][p.rp..];
    }
  }

  /** A write appends what it reports to have written. */
  lemma WriteAppends(p: Pipe, data: seq<char>)
    requires p.Valid() && |data| <= p.SpaceFree() && p.wp + |data| <= |p.buf|
    ensures AfterWrite(Stored(p, data), |data|).Valid()
    ensures AfterWrite(Stored(p, data), |data|).Contents() == p.Contents() + data
  {
    StoreHidden(p, data);
    SpaceIsCapacityMinusLength(p);
    var p1 := Stored(p, data);
    MoveAppends(p1, |data|);
  }

  /** Moving the write pointer over `n` bytes makes them the newest contents. */
  lemma MoveAppends(p: Pipe, n: nat)
    requires p.Valid() && |p.Contents()| + n < |p.buf| && p.wp + n <= |p.buf|
    ensures AfterWrite(p, n).Valid() && AfterWrite(p, n).Contents() == p.Contents() + p.buf[p.wp..p.wp + n]
  {
    var p' := AfterWrite(p, n);
    if p.rp > p.wp {
      WrappedMoveAppends(p, n);
    } else {
      SlicesJoin(p.buf, p.rp, p.wp, p.wp + n);
      if p.wp + n == |p.buf| {
        assert p.rp > 0 && p'.wp == 0;
        assert p'.Contents() == p.buf[p.rp..] + [] == p.buf[p.rp..p.wp + n];
      }
    }
  }

  lemma WrappedMoveAppends(p: Pipe, n: nat)
    requires p.Valid() && p.rp > p.wp && p.wp + n < p.rp
    ensures AfterWrite(p, n).Contents() == p.Contents() + p.buf[p.wp..p.wp + n]
  {
    PrefixJoins(p.buf, p.wp, p.wp + n);
    Regroups(p.buf[p.rp..], p.buf[..p.wp], p.buf[p.wp..p.wp + n]);
  }

  lemma PrefixJoins<T>(s: seq<T>, a: nat, b: nat)
    requires a <= b <= |s|
    ensures s[..a] + s[a..b] == s[..b]
  {
  }

  lemma WriteFits(p: Pipe, count: nat)
    requires p.Valid()
    ensures p.SpaceFree() >= 0
    ensures var n := WriteSize(p, count);
      n <= count && n <= p.SpaceFree() && p.wp + n <= |p.buf| && (count > 0 && p.SpaceFree() > 0 ==> n > 0)
  {
    SpaceIsCapacityMinusLength(p);
  }

  // ---------------------------------------------------------------- the device

  class PipeDevice {
    var buffer: array?<char>
    var rp: nat
    var wp: nat
    var nreaders: int
    var nwriters: int

    ghost predicate Valid()
      reads this
    {
      buffer != null && buffer.Length >= 2 && rp < buffer.Length && wp < buffer.Length
    }

    function View(): Pipe
      requires Valid()
      reads this, buffer
    {
      Pipe(buffer[..], rp, wp)
    }

    constructor ()
      ensures buffer == null && nreaders == 0 && nwriters == 0
    {
      buffer, rp, wp, nreaders, nwriters := null, 0, 0, 0, 0;
    }

    /** Every open, not only the first, sets both pointers back: whatever was in the pipe is dropped. */
    method Open(forRead: bool, forWrite: bool, bufferSize: nat, memory: bool) returns (ret: int)
      requires bufferSize >= 2 && (buffer != null ==> buffer.Length == bufferSize)
      modifies this
      ensures ret == if old(buffer) == null && !memory then -ENOMEM else 0
      ensures ret != 0 ==> buffer == null && nreaders == old(nreaders) && nwriters == old(nwriters)
      ensures ret == 0 ==> Valid() && View().Contents() == [] && buffer.Length == bufferSize
      ensures ret == 0 ==> (old(buffer) != null ==> buffer == old(buffer)) && (old(buffer) == null ==> fresh(buffer))
      ensures ret == 0 ==> nreaders == old(nreaders) + (if forRead then 1 else 0)
      ensures ret == 0 ==> nwriters == old(nwriters) + (if forWrite then 1 else 0)
    {
      if buffer == null {
        if !memory {
          return -ENOMEM;
        }
        buffer := new char[bufferSize];
      }
      rp := 0;
      wp := 0;
      if forRead {
        nreaders := nreaders + 1;
      }
      if forWrite {
        nwriters := nwriters + 1;
      }
      ret := 0;
    }

    method Release(forRead: bool, forWrite: bool)
      modifies this
      ensures nreaders == old(nreaders) - (if forRead then 1 else 0)
      ensures nwriters == old(nwriters) - (if forWrite then 1 else 0)
      ensures buffer == if nreaders + nwriters == 0 then null else old(buffer)
      ensures rp == old(rp) && wp == old(wp)
    {
      if forRead {
        nreaders := nreaders - 1;
      }
      if forWrite {
        nwriters := nwriters - 1;
      }
      if nreaders + nwriters == 0 {
        buffer := null;
      }
    }

    method SpaceFree() returns (space: int)
      requires Valid()
      ensures space == View().SpaceFree() == buffer.Length - 1 - |View().Contents()|
    {
      SpaceIsCapacityMinusLength(View());
      if rp == wp {
        return buffer.Length - 1;
      }
      space := (rp + buffer.Length - wp) % buffer.Length - 1;
    }

    /** scull_p_read once data is there, mutex held; `fault` when copy_to_user fails. */
    method Read(count: nat, fault: bool) returns (ret: int, data: seq<char>)
      requires Valid() && rp != wp
      modifies this`rp
      ensures Valid()
      ensures ret == if fault then -EFAULT else |data|
      ensures fault ==> data == [] && View() == old(View())
      ensures !fault ==> |data| == Least(count, |old(View().Contents())|, buffer.Length - old(rp))
      ensures !fault ==> data + View().Contents() == old(View().Contents())
    {
      var n := count;
      if wp > rp {
        n := Min(n, wp - rp);
      } else {
        n := Min(n, buffer.Length - rp);
      }
      if fault {
        return -EFAULT, [];
      }
      ReadAmount(View(), count);
      data := TakeOut(n, count);
      ret := n;
    }

    method TakeOut(n: nat, ghost count: nat) returns (data: seq<char>)
      requires Valid() && rp != wp && n == ReadSize(View(), count)
      modifies this`rp
      ensures Valid() && |data| == n && data + View().Contents() == old(View().Contents())
    {
      ghost var p := View();
      ReadSplits(p, count);
      data := buffer[rp..rp + n];
      rp := rp + n;
      if rp == buffer.Length {
        rp := 0;
      }
      assert View() == AfterRead(p, n);
    }

    /** scull_p_write once there is space, mutex held; `copied` bytes get across before copy_from_user gives up. */
    method Write(data: seq<char>, copied: nat) returns (ret: int)
      requires Valid() && View().SpaceFree() > 0
      modifies this`wp, buffer
      ensures Valid()
      ensures old(View().SpaceFree()) == buffer.Length - 1 - |old(View().Contents())|
      ensures var n := Least(|data|, old(View().SpaceFree()), buffer.Length - old(wp));
        ret == if copied < n then -EFAULT else n
      ensures 0 <= ret ==> ret <= |data| && View().Contents() == old(View().Contents()) + data[..ret]
      ensures ret < 0 ==> View().Contents() == old(View().Contents())
    {
      ghost var p := View();
      WriteFits(p, |data|);
      WriteAmount(p, |data|);
      var space := SpaceFree();
      var n := Min(|data|, space);
      if wp >= rp {
        n := Min(n, buffer.Length - wp);
      } else {
        n := Min(n, rp - wp - 1);
      }
      var bytes := Landed(data[..n], copied);
      CopyIn(bytes);
      StoreHidden(p, bytes);
      if copied < n {
        return -EFAULT;
      }
      WriteAppends(p, data[..n]);
      MoveOn(n);
      ret := n;
    }

    method MoveOn(n: nat)
      requires Valid() && wp + n <= buffer.Length
      modifies this`wp
      ensures Valid() && View() == AfterWrite(old(View()), n)
    {
      wp := wp + n;
      if wp == buffer.Length {
        wp := 0;
      }
    }

    method CopyIn(data: seq<char>)
      requires Valid() && wp + |data| <= buffer.Length
      modifies buffer
      ensures Valid() && View() == Stored(old(View()), data)
    {
      var b: array<char> := buffer;
      var i := 0;
      while i < |data|
        invariant 0 <= i <= |data|
        invariant forall k :: 0 <= k < b.Length ==> b[k] == if wp <= k < wp + i then data[k - wp] else old(b[..])[k]
      {
        b[wp + i] := data[i];
        i := i + 1;
      }
    }
  }
}
