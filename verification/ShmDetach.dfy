/** sys_shmdt: unmapping every fragment of an attached segment. */
module ShmDetach {
  import opened Basics

  const PAGE_SIZE: int := 4096
  const EINVAL: int := 22

  /** User addresses end here; unsigned subtraction in the kernel wraps at `WORD`. */
  const TASK_SIZE: int := 0x8000_0000_0000
  const WORD: int := 0x1_0000_0000_0000_0000

  /** `shm` says that the area's operations are those of System V segments; the last two
      fields name its segment and the size of that segment's file in bytes. */
  datatype Vma = Vma(start: int, end: int, pgoff: int, shm: bool, segment: int, fileSize: nat)

  function PageAlign(size: int): int {
    (size + PAGE_SIZE - 1) / PAGE_SIZE * PAGE_SIZE
  }

  /** The test in both loops, on 64-bit unsigned arithmetic. */
  predicate Matches(v: Vma, addr: int) {
    v.shm && (v.start - addr) % WORD / PAGE_SIZE == v.pgoff
  }

  /** What the test is for: the area belongs to a segment that was attached at `addr`. */
  predicate AttachedAt(v: Vma, addr: int) {
    v.shm && v.start - v.pgoff * PAGE_SIZE == addr
  }

  ghost predicate WellFormed(v: Vma) {
    && 0 <= v.start < v.end <= TASK_SIZE
    && v.start % PAGE_SIZE == 0 && v.end % PAGE_SIZE == 0
    && 0 <= v.pgoff < 0x8_0000_0000_0000
  }

  ghost predicate Before(vs: seq<Vma>, i: int, j: int) {
    0 <= i < j < |vs| ==> vs[i].end <= vs[j].start
  }

  ghost predicate Ordered(vs: seq<Vma>) {
    && (forall i :: 0 <= i < |vs| ==> WellFormed(vs[i]))
    && forall i, j :: Before(vs, i, j)
  }

  /** On the areas the loops look at, the wrapping test is exact. */
  lemma MatchIsExact(v: Vma, addr: int)
    requires WellFormed(v) && 0 <= addr < v.end && addr % PAGE_SIZE == 0
    ensures Matches(v, addr) <==> AttachedAt(v, addr)
  {
    if addr <= v.start {
      assert (v.start - addr) % WORD == v.start - addr;
    } else {
      assert (v.start - addr) % WORD == v.start - addr + WORD;
    }
  }

  /** Index of the first fragment, or the length of the list. */
  function First(vs: seq<Vma>, addr: int): (f: nat)
    ensures f <= |vs|
    ensures f < |vs| ==> AttachedAt(vs[f], addr)
    ensures forall i :: 0 <= i < f ==> !AttachedAt(vs[i], addr)
  {
    if |vs| == 0 || AttachedAt(vs[0], addr) then 0 else 1 + First(vs[1..], addr)
  }

  predicate Within(v: Vma, addr: int, size: int) {
    v.end - addr <= size
  }

  /** `vs` without the fragments that end inside the first `size` bytes after `addr`. */
  function Without(vs: seq<Vma>, addr: int, size: int): seq<Vma> {
    if vs == [] then []
    else
      var last := vs[|vs| - 1];
      var r := Without(vs[..|vs| - 1], addr, size);
      if AttachedAt(last, addr) && Within(last, addr, size) then r else r + [last]
  }

  /** The areas `Without` leaves out, in address order. */
  function Cut(vs: seq<Vma>, addr: int, size: int): seq<Vma> {
    if vs == [] then []
    else
      var last := vs[|vs| - 1];
      var r := Cut(vs[..|vs| - 1], addr, size);
      if AttachedAt(last, addr) && Within(last, addr, size) then r + [last] else r
  }

  /** What sys_shmdt leaves mapped: everything before the first fragment, and after it
      everything but the fragments inside that first fragment's (rounded) file size. */
  function Survivors(vs: seq<Vma>, addr: int): seq<Vma> {
    var f := First(vs, addr);
    if f == |vs| then vs else vs[..f] + Without(vs[f + 1..], addr, PageAlign(vs[f].fileSize))
  }

  function Unmapped(vs: seq<Vma>, addr: int): seq<Vma> {
    var f := First(vs, addr);
    if f == |vs| then [] else [vs[f]] + Cut(vs[f + 1..], addr, PageAlign(vs[f].fileSize))
  }

  lemma OrderedSlice(vs: seq<Vma>, lo: nat, hi: nat)
    requires Ordered(vs) && lo <= hi <= |vs|
    ensures Ordered(vs[lo..hi])
  {
    forall i, j
      ensures Before(vs[lo..hi], i, j)
    {
      assert Before(vs, lo + i, lo + j);
    }
  }

  /** Past an area that ends beyond `size` nothing ends inside it: the second loop may stop there. */
  lemma {:induction false} EarlyStop(vs: seq<Vma>, addr: int, size: int)
    requires Ordered(vs)
    requires vs != [] ==> !Within(vs[0], addr, size)
    ensures Without(vs, addr, size) == vs && Cut(vs, addr, size) == []
  {
    if vs != [] {
      var front := vs[..|vs| - 1];
      OrderedSlice(vs, 0, |vs| - 1);
      EarlyStop(front, addr, size);
      assert Before(vs, 0, |vs| - 1);
    }
  }

  lemma {:induction false} Concat(a: seq<Vma>, b: seq<Vma>, addr: int, size: int)
    ensures Without(a + b, addr, size) == Without(a, addr, size) + Without(b, addr, size)
    ensures Cut(a + b, addr, size) == Cut(a, addr, size) + Cut(b, addr, size)
  {
    if b == [] {
      assert a + b == a;
    } else {
      var front := b[..|b| - 1];
      assert (a + b)[..|a + b| - 1] == a + front;
      Concat(a, front, addr, size);
    }
  }

  lemma OneMore(done: seq<Vma>, v: Vma, addr: int, size: int)
    ensures Without(done + [v], addr, size) ==
      if AttachedAt(v, addr) && Within(v, addr, size) then Without(done, addr, size) else Without(done, addr, size) + [v]
    ensures Cut(done + [v], addr, size) ==
      if AttachedAt(v, addr) && Within(v, addr, size) then Cut(done, addr, size) + [v] else Cut(done, addr, size)
  {
    assert (done + [v])[..|done + [v]| - 1] == done;
  }

  lemma StartsAbove(vs: seq<Vma>, addr: int, i: nat)
    requires Ordered(vs) && i < |vs| && addr < vs[0].start
    ensures addr < vs[i].end
  {
    assert Before(vs, 0, i);
  }

  lemma {:induction false} WithoutMember(vs: seq<Vma>, addr: int, size: int, v: Vma)
    ensures v in Without(vs, addr, size) <==> v in vs && !(AttachedAt(v, addr) && Within(v, addr, size))
  {
    if vs != [] {
      WithoutMember(vs[..|vs| - 1], addr, size, v);
      assert vs == vs[..|vs| - 1] + [vs[|vs| - 1]];
    }
  }

  lemma {:induction false} CutMember(vs: seq<Vma>, addr: int, size: int, v: Vma)
    ensures v in Cut(vs, addr, size) <==> v in vs && AttachedAt(v, addr) && Within(v, addr, size)
  {
    if vs != [] {
      CutMember(vs[..|vs| - 1], addr, size, v);
      assert vs == vs[..|vs| - 1] + [vs[|vs| - 1]];
    }
  }

  /** Where the second loop stands: at position `i` of the list `m`, having dealt with `done` out of `rest`;
      `cut` are the areas it has unmapped. */
  ghost predicate Standing(m: seq<Vma>, i: int, before: seq<Vma>, rest: seq<Vma>, done: seq<Vma>, cut: seq<Vma>,
                           addr: int, size: int)
  {
    && 0 <= i <= |m|
    && rest == done + m[i..]
    && m[..i] == before + Without(done, addr, size)
    && cut == Cut(done, addr, size)
  }

  lemma Halves<T>(m: seq<T>, i: nat)
    requires i < |m|
    ensures m[i..] == [m[i]] + m[i + 1..] && m[..i + 1] == m[..i] + [m[i]]
    ensures (m[..i] + m[i + 1..])[..i] == m[..i] && (m[..i] + m[i + 1..])[i..] == m[i + 1..]
  {
  }

  lemma Next(m: seq<Vma>, i: int, rest: seq<Vma>, done: seq<Vma>, addr: int)
    requires Ordered(rest) && (rest != [] ==> addr < rest[0].start) && 0 <= i < |m| && rest == done + m[i..]
    ensures addr < m[i].end && WellFormed(m[i]) && rest == (done + [m[i]]) + m[i + 1..]
  {
    assert rest[|done|] == m[i];
    StartsAbove(rest, addr, |done|);
    Halves(m, i);
    Regroups(done, [m[i]], m[i + 1..]);
  }

  lemma VisitFragment(m: seq<Vma>, i: int, before: seq<Vma>, rest: seq<Vma>, done: seq<Vma>, cut: seq<Vma>, addr: int, size: int)
    requires Standing(m, i, before, rest, done, cut, addr, size) && i < |m| && rest == (done + [m[i]]) + m[i + 1..]
    requires AttachedAt(m[i], addr) && Within(m[i], addr, size)
    ensures Standing(m[..i] + m[i + 1..], i, before, rest, done + [m[i]], cut + [m[i]], addr, size)
  {
    OneMore(done, m[i], addr, size);
    Halves(m, i);
  }

  lemma VisitOther(m: seq<Vma>, i: int, before: seq<Vma>, rest: seq<Vma>, done: seq<Vma>, cut: seq<Vma>, addr: int, size: int)
    requires Standing(m, i, before, rest, done, cut, addr, size) && i < |m| && rest == (done + [m[i]]) + m[i + 1..]
    requires !AttachedAt(m[i], addr)
    ensures Standing(m, i + 1, before, rest, done + [m[i]], cut, addr, size)
  {
    OneMore(done, m[i], addr, size);
    Halves(m, i);
    Regroups(before, Without(done, addr, size), [m[i]]);
  }

  lemma Visit(m: seq<Vma>, i: int, before: seq<Vma>, rest: seq<Vma>, done: seq<Vma>, cut: seq<Vma>, addr: int, size: int)
    requires Ordered(rest) && (rest != [] ==> addr < rest[0].start)
    requires Standing(m, i, before, rest, done, cut, addr, size) && i < |m| && Within(m[i], addr, size)
    ensures addr < m[i].end && WellFormed(m[i])
    ensures AttachedAt(m[i], addr) ==> Standing(m[..i] + m[i + 1..], i, before, rest, done + [m[i]], cut + [m[i]], addr, size)
    ensures !AttachedAt(m[i], addr) ==> Standing(m, i + 1, before, rest, done + [m[i]], cut, addr, size)
  {
    Next(m, i, rest, done, addr);
    if AttachedAt(m[i], addr) {
      VisitFragment(m, i, before, rest, done, cut, addr, size);
    } else {
      VisitOther(m, i, before, rest, done, cut, addr, size);
    }
  }

  lemma StopIsSafe(rest: seq<Vma>, done: seq<Vma>, tail: seq<Vma>, addr: int, size: int)
    requires Ordered(rest) && rest == done + tail
    requires tail != [] ==> !Within(tail[0], addr, size)
    ensures Without(rest, addr, size) == Without(done, addr, size) + tail
    ensures Cut(rest, addr, size) == Cut(done, addr, size)
  {
    OrderedSlice(rest, |done|, |rest|);
    assert tail == rest[|done|..|rest|];
    EarlyStop(tail, addr, size);
    Concat(done, tail, addr, size);
  }

  lemma Leave(m: seq<Vma>, i: int, before: seq<Vma>, rest: seq<Vma>, done: seq<Vma>, cut: seq<Vma>, addr: int, size: int)
    requires Ordered(rest) && Standing(m, i, before, rest, done, cut, addr, size)
    requires i < |m| ==> !Within(m[i], addr, size)
    ensures m == before + Without(rest, addr, size)
    ensures cut == Cut(rest, addr, size)
  {
    StopIsSafe(rest, done, m[i..], addr, size);
    assert m == m[..i] + m[i..];
  }

  lemma AfterFirst(vs: seq<Vma>, i: nat, addr: int)
    requires Ordered(vs) && i < |vs| && addr < vs[i].end
    ensures Ordered(vs[i + 1..])
    ensures vs[i + 1..] != [] ==> addr < vs[i + 1..][0].start
  {
    OrderedSlice(vs, i + 1, |vs|);
    assert vs[i + 1..|vs|] == vs[i + 1..];
    assert Before(vs, i, i + 1);
  }

  /** `f` is where the first loop stopped; `closed` grows by the first fragment and then by the others. */
  lemma Detached(vs: seq<Vma>, addr: int, f: nat, closed: seq<Vma>)
    requires f <= |vs| && (f < |vs| ==> AttachedAt(vs[f], addr))
    requires forall i :: 0 <= i < f ==> !AttachedAt(vs[i], addr)
    ensures First(vs, addr) == f
    ensures f < |vs| ==>
      var size := PageAlign(vs[f].fileSize);
      && Survivors(vs, addr) == vs[..f] + Without(vs[f + 1..], addr, size)
      && closed + Unmapped(vs, addr) == (closed + [vs[f]]) + Cut(vs[f + 1..], addr, size)
    ensures f == |vs| ==> Survivors(vs, addr) == vs && closed + Unmapped(vs, addr) == closed
  {
    FirstIs(vs, addr, f);
    if f < |vs| {
      Regroups(closed, [vs[f]], Cut(vs[f + 1..], addr, PageAlign(vs[f].fileSize)));
    } else {
      assert closed + [] == closed;
    }
  }

  lemma FirstIs(vs: seq<Vma>, addr: int, f: nat)
    requires f <= |vs| && (f < |vs| ==> AttachedAt(vs[f], addr))
    requires forall i :: 0 <= i < f ==> !AttachedAt(vs[i], addr)
    ensures First(vs, addr) == f
  {
  }

  class AddressSpace {
    /** The sorted list of areas, and the areas whose close operation has run. */
    var mmap: seq<Vma>
    var closed: seq<Vma>

    ghost predicate Valid()
      reads this
    {
      Ordered(mmap)
    }

    /** The condition both loops test, in the kernel's wrapping arithmetic. */
    static method IsFragment(v: Vma, addr: int) returns (hit: bool)
      requires WellFormed(v) && 0 <= addr < v.end && addr % PAGE_SIZE == 0
      ensures hit <==> AttachedAt(v, addr)
    {
      MatchIsExact(v, addr);
      hit := Matches(v, addr);
    }

    /** find_vma: the first area that ends above `addr`. */
    method FindVma(addr: int) returns (i: nat)
      ensures i <= |mmap|
      ensures forall j :: 0 <= j < i ==> mmap[j].end <= addr
      ensures i < |mmap| ==> addr < mmap[i].end
    {
      i := 0;
      while i < |mmap| && mmap[i].end <= addr
        invariant i <= |mmap|
        invariant forall j :: 0 <= j < i ==> mmap[j].end <= addr
      {
        i := i + 1;
      }
    }

    /** do_munmap on exactly one area: unlinks it and runs its close operation. */
    method DoMunmap(i: nat)
      requires i < |mmap|
      modifies this
      ensures mmap == old(mmap)[..i] + old(mmap)[i + 1..]
      ensures closed == old(closed) + [old(mmap)[i]]
    {
      closed := closed + [mmap[i]];
      mmap := mmap[..i] + mmap[i + 1..];
    }

    method SysShmdt(addr: int) returns (retval: int)
      requires Valid() && 0 <= addr < WORD
      modifies this
      ensures addr % PAGE_SIZE != 0 ==> retval == -EINVAL && mmap == old(mmap) && closed == old(closed)
      ensures addr % PAGE_SIZE == 0 ==>
        && retval == (if First(old(mmap), addr) < |old(mmap)| then 0 else -EINVAL)
        && mmap == Survivors(old(mmap), addr)
        && closed == old(closed) + Unmapped(old(mmap), addr)
    {
      ghost var vs := mmap;
      retval := -EINVAL;
      if addr % PAGE_SIZE != 0 {
        return;
      }
      var size := 0;
      var i := FindVma(addr);
      while i < |mmap|
        invariant i <= |mmap| && mmap == vs && closed == old(closed)
        invariant forall j :: 0 <= j < i ==> !AttachedAt(vs[j], addr)
        invariant i < |vs| ==> addr < vs[i].end
      {
        var hit := IsFragment(mmap[i], addr);
        if hit {
          break;
        }
        assert Before(vs, i, i + 1);
        i := i + 1;
      }
      Detached(vs, addr, i, closed);
      if i < |mmap| {
        size := PageAlign(mmap[i].fileSize);
        DoMunmap(i);
        retval := 0;
        AfterFirst(vs, i, addr);
        SecondLoop(addr, size, i, vs[..i], vs[i + 1..]);
      }
    }

    /** The second loop of sys_shmdt, entered when the first fragment, at `from`, is gone. */
    method SecondLoop(addr: int, size: int, from: nat, ghost before: seq<Vma>, ghost rest: seq<Vma>)
      requires Ordered(rest) && 0 <= addr && addr % PAGE_SIZE == 0
      requires rest != [] ==> addr < rest[0].start
      requires mmap == before + rest && from == |before|
      modifies this
      ensures mmap == before + Without(rest, addr, size)
      ensures closed == old(closed) + Cut(rest, addr, size)
    {
      ghost var done, cut := [], [];
      var i := from;
      while i < |mmap| && mmap[i].end - addr <= size
        invariant Standing(mmap, i, before, rest, done, cut, addr, size)
        invariant closed == old(closed) + cut
        decreases |mmap| - i
      {
        Visit(mmap, i, before, rest, done, cut, addr, size);
        done := done + [mmap[i]];
        var hit := IsFragment(mmap[i], addr);
        if hit {
          cut := cut + [mmap[i]];
          DoMunmap(i);
        } else {
          i := i + 1;
        }
      }
      Leave(mmap, i, before, rest, done, cut, addr, size);
    }
  }

  // ---------------------------------------------------------------- what the result means

  predicate Doomed(vs: seq<Vma>, addr: int, v: Vma) {
    var f := First(vs, addr);
    f < |vs| && AttachedAt(v, addr) && (v == vs[f] || Within(v, addr, PageAlign(vs[f].fileSize)))
  }

  lemma SurvivorMember(vs: seq<Vma>, addr: int, v: Vma)
    requires Ordered(vs)
    ensures v in Survivors(vs, addr) <==> v in vs && !Doomed(vs, addr, v)
  {
    var f := First(vs, addr);
    if f < |vs| {
      WithoutMember(vs[f + 1..], addr, PageAlign(vs[f].fileSize), v);
      assert vs == vs[..f] + [vs[f]] + vs[f + 1..];
      forall j | f < j < |vs|
        ensures vs[j] != vs[f]
      {
        assert Before(vs, f, j);
      }
    }
  }

  /** Nothing attached elsewhere is touched, and nothing else is closed. */
  lemma OthersUntouched(vs: seq<Vma>, addr: int, v: Vma)
    requires Ordered(vs)
    ensures v in vs && !AttachedAt(v, addr) ==> v in Survivors(vs, addr)
    ensures v in Unmapped(vs, addr) ==> v in vs && AttachedAt(v, addr)
  {
    SurvivorMember(vs, addr, v);
    var f := First(vs, addr);
    if f < |vs| {
      var cut := Cut(vs[f + 1..], addr, PageAlign(vs[f].fileSize));
      CutMember(vs[f + 1..], addr, PageAlign(vs[f].fileSize), v);
      if v in cut {
        var k :| f + 1 <= k < |vs| && vs[k] == v;
      }
    }
  }

  /** Every area is either kept or closed, each exactly once. */
  lemma {:induction false} Partition(vs: seq<Vma>, addr: int, size: int)
    ensures multiset(Without(vs, addr, size)) + multiset(Cut(vs, addr, size)) == multiset(vs)
  {
    if vs != [] {
      var front := vs[..|vs| - 1];
      Partition(front, addr, size);
      assert vs == front + [vs[|vs| - 1]];
    }
  }

  lemma Rearrange<T>(vs: seq<T>, f: nat, kept: seq<T>, cut: seq<T>)
    requires f < |vs| && multiset(kept) + multiset(cut) == multiset(vs[f + 1..])
    ensures multiset(vs[..f] + kept) + multiset([vs[f]] + cut) == multiset(vs)
  {
    assert vs == vs[..f] + [vs[f]] + vs[f + 1..];
  }

  lemma SurvivorsAndUnmapped(vs: seq<Vma>, addr: int)
    ensures multiset(Survivors(vs, addr)) + multiset(Unmapped(vs, addr)) == multiset(vs)
  {
    var f := First(vs, addr);
    if f < |vs| {
      var size := PageAlign(vs[f].fileSize);
      Partition(vs[f + 1..], addr, size);
      Rearrange(vs, f, Without(vs[f + 1..], addr, size), Cut(vs[f + 1..], addr, size));
    }
  }

  /** Rounding up to whole pages. */
  lemma AlignedUp(size: int)
    ensures PageAlign(size) % PAGE_SIZE == 0 && size <= PageAlign(size) < size + PAGE_SIZE
  {
  }

  /** A later fragment of the segment found first is unmapped exactly when its last page begins before the end of
      that segment.  Only an area grown by mremap reaches further, so without such areas all of them go. */
  lemma FragmentGoes(vs: seq<Vma>, addr: int, v: Vma)
    requires Ordered(vs) && v in vs && AttachedAt(v, addr)
    requires First(vs, addr) < |vs|
    requires v.segment == vs[First(vs, addr)].segment && v.fileSize == vs[First(vs, addr)].fileSize
    ensures v !in Survivors(vs, addr) <==>
      v == vs[First(vs, addr)] || v.pgoff * PAGE_SIZE + (v.end - v.start) - PAGE_SIZE < v.fileSize
  {
    SurvivorMember(vs, addr, v);
    assert WellFormed(v);
    WholePages(v.start, v.end, v.pgoff);
    LastPage(v.pgoff * PAGE_SIZE + (v.end - v.start), v.fileSize);
    assert v.end - addr == v.pgoff * PAGE_SIZE + (v.end - v.start);
  }

  lemma WholePages(start: int, end: int, pgoff: int)
    requires start % PAGE_SIZE == 0 && end % PAGE_SIZE == 0
    ensures (pgoff * PAGE_SIZE + (end - start)) % PAGE_SIZE == 0
  {
  }

  lemma LastPage(x: int, size: int)
    requires x % PAGE_SIZE == 0
    ensures x <= PageAlign(size) <==> x - PAGE_SIZE < size
  {
    AlignedUp(size);
  }

  /** The last page counts although the segment fills it in part only: both pieces of a segment of 5000 bytes go. */
  lemma PartialPageGoes() returns (vs: seq<Vma>, addr: int)
    ensures Ordered(vs) && |vs| == 2 && vs[1].fileSize == 5000 && AttachedAt(vs[1], addr) && Survivors(vs, addr) == []
  {
    addr := 4096;
    vs := [Vma(4096, 8192, 0, true, 1, 5000), Vma(8192, 12288, 1, true, 1, 5000)];
    assert AttachedAt(vs[0], addr) && AttachedAt(vs[1], addr);
    FragmentGoes(vs, addr, vs[0]);
    FragmentGoes(vs, addr, vs[1]);
    if Survivors(vs, addr) != [] {
      var v := Survivors(vs, addr)[0];
      SurvivorMember(vs, addr, v);
      assert false;
    }
  }

  /** Such an area stays: a segment of two pages, in two pieces of which the second has been grown. */
  lemma GrownFragmentStays() returns (vs: seq<Vma>, addr: int, v: Vma)
    ensures Ordered(vs) && v in vs && AttachedAt(v, addr) && First(vs, addr) < |vs| && v.segment == vs[First(vs, addr)].segment
    ensures v in Survivors(vs, addr)
  {
    addr := 4096;
    var first := Vma(4096, 8192, 0, true, 1, 8192);
    v := Vma(8192, 16384, 1, true, 1, 8192);
    vs := [first, v];
    assert AttachedAt(vs[0], addr);
    SurvivorMember(vs, addr, v);
  }
}
