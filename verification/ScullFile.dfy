/** A scull device used as a file: whole strings written and read back through the partial transfers. */
module ScullFile {
  import opened Basics
  import opened ScullStore
  import opened ScullDevice

  /** Seek results; `f_pos` is the current position. */
  function Llseek(f_pos: int, size: nat, off: int, whence: int): (int, int) {
    var newpos := if whence == 0 then off else if whence == 1 then f_pos + off else size + off;
    if !(0 <= whence <= 2) || newpos < 0 then (-EINVAL, f_pos) else (newpos, newpos)
  }

  /** The three ways to seek come to one: absolute, and only to where a file can have a byte. */
  lemma SeekLaws(f_pos: int, size: nat, off: int, whence: int)
    ensures Llseek(f_pos, size, off, 0) == if off >= 0 then (off, off) else (-EINVAL, f_pos)
    ensures Llseek(f_pos, size, off, 1) == Llseek(f_pos, size, f_pos + off, 0)
    ensures Llseek(f_pos, size, off, 2) == Llseek(f_pos, size, size + off, 0)
    ensures whence != 0 && whence != 1 && whence != 2 ==> Llseek(f_pos, size, off, whence) == (-EINVAL, f_pos)
  {
  }

  ghost predicate HoldsAt(st0: Store, st: Store, pos: nat, data: seq<char>, x: nat)
    requires Valid(st0) && Valid(st)
  {
    if pos <= x < pos + |data| then At(st, x) == Some(data[x - pos])
    else At(st0, x).Some? ==> At(st, x) == At(st0, x)
  }

  /** Seen as a flat file, `st` is `st0` overwritten with `data` at `pos`. */
  ghost predicate Holds(st0: Store, st: Store, pos: nat, data: seq<char>)
    requires Valid(st0) && Valid(st)
  {
    forall x: nat :: HoldsAt(st0, st, pos, data, x)
  }

  lemma WritesChain(st0: Store, st1: Store, st2: Store, pos: nat, a: seq<char>, b: seq<char>)
    requires Valid(st0) && Valid(st1) && Valid(st2)
    requires Holds(st0, st1, pos, a) && Wrote(st1, st2, pos + |a|, b)
    ensures Holds(st0, st2, pos, a + b)
  {
    forall x: nat
      ensures HoldsAt(st0, st2, pos, a + b, x)
    {
      assert HoldsAt(st0, st1, pos, a, x);
      assert WroteAt(st1, st2, pos + |a|, b, x);
    }
  }

  /** One more write of a string. */
  lemma Further(st0: Store, st1: Store, st2: Store, pos: nat, s: seq<char>, done: nat, n: nat)
    requires Valid(st0) && Valid(st1) && Valid(st2) && done + n <= |s|
    requires Holds(st0, st1, pos, s[..done]) && Wrote(st1, st2, pos + done, s[done..][..n])
    ensures Holds(st0, st2, pos, s[..done + n])
  {
    WritesChain(st0, st1, st2, pos, s[..done], s[done..][..n]);
    PrefixGrows(s, done, n);
  }

  lemma SameBytesChain(st0: Store, st1: Store, st2: Store)
    requires Valid(st0) && Valid(st1) && Valid(st2) && SameBytes(st0, st1) && SameBytes(st1, st2)
    ensures SameBytes(st0, st2)
  {
  }

  /** write(2) in a loop, as every user of a scull device must do; stops early only when memory runs out. */
  method WriteAll(dev: Scull, s: seq<char>, pos: nat, junk: seq<char>) returns (done: nat)
    requires Valid(dev.View()) && |junk| == dev.quantum
    modifies dev
    ensures Valid(dev.View()) && dev.quantum == old(dev.quantum) && dev.qset == old(dev.qset)
    ensures done <= |s| && Holds(old(dev.View()), dev.View(), pos, s[..done])
    ensures dev.size == if done > 0 && old(dev.size) < pos + done then pos + done else old(dev.size)
    ensures dev.memory <= old(dev.memory) && (done < |s| ==> dev.memory == 0)
  {
    done := 0;
    ghost var st0 := dev.View();
    assert Holds(st0, st0, pos, s[..0]) by {
      forall x: nat ensures HoldsAt(st0, st0, pos, s[..0], x) { }
    }
    while done < |s|
      invariant done <= |s| && Valid(dev.View()) && |junk| == dev.quantum
      invariant dev.quantum == st0.quantum && dev.qset == st0.qset && dev.memory <= old(dev.memory)
      invariant Holds(st0, dev.View(), pos, s[..done])
      invariant dev.size == if done > 0 && st0.size < pos + done then pos + done else st0.size
    {
      ghost var st1 := dev.View();
      var ret, next := dev.Write(s[done..], pos + done, junk, |s|);
      if ret < 0 {
        assert s[done..][..0] == [];
        Further(st0, st1, dev.View(), pos, s, done, 0);
        return;
      }
      assert Landed(s[done..][..ret], |s|) == s[done..][..ret];
      Further(st0, st1, dev.View(), pos, s, done, ret);
      done := done + ret;
    }
  }

  /** read(2) in a loop, until it has `count` bytes or a read returns nothing. */
  method ReadAll(dev: Scull, pos: nat, count: nat) returns (buf: seq<char>)
    requires Valid(dev.View())
    modifies dev
    ensures Valid(dev.View()) && SameBytes(old(dev.View()), dev.View()) && dev.memory <= old(dev.memory)
    ensures |buf| <= count
    ensures forall k :: 0 <= k < |buf| ==> At(dev.View(), pos + k) == Some(buf[k])
    ensures |buf| < count ==> pos + |buf| >= dev.size || At(dev.View(), pos + |buf|).None?
  {
    buf := [];
    ghost var st0 := dev.View();
    while |buf| < count
      invariant |buf| <= count && Valid(dev.View()) && SameBytes(st0, dev.View()) && dev.memory <= old(dev.memory)
      invariant forall k :: 0 <= k < |buf| ==> At(dev.View(), pos + k) == Some(buf[k])
      decreases count - |buf|
    {
      ghost var st1 := dev.View();
      var ret, chunk, next := dev.Read(pos + |buf|, count - |buf|, false);
      SameBytesChain(st0, st1, dev.View());
      forall k | 0 <= k < |buf|
        ensures At(dev.View(), pos + k) == Some(buf[k])
      {
        SameAt(st1, dev.View(), pos + k);
      }
      if chunk == [] {
        return;
      }
      forall k | |buf| <= k < |buf| + |chunk|
        ensures At(dev.View(), pos + k) == Some((buf + chunk)[k])
      {
        assert At(dev.View(), pos + |buf| + (k - |buf|)) == Some(chunk[k - |buf|]);
      }
      buf := buf + chunk;
    }
  }

  /** A file that holds `s` at `pos` and reaches that far can only be read back as `s`. */
  lemma ReadsBack(st0: Store, st: Store, pos: nat, s: seq<char>, buf: seq<char>)
    requires Valid(st0) && Valid(st) && Holds(st0, st, pos, s) && pos + |s| <= st.size
    requires |buf| <= |s| && (|buf| < |s| ==> pos + |buf| >= st.size || At(st, pos + |buf|).None?)
    requires forall k :: 0 <= k < |buf| ==> At(st, pos + k) == Some(buf[k])
    ensures buf == s
  {
    assert HoldsAt(st0, st, pos, s, pos + |buf|);
    forall k | 0 <= k < |buf|
      ensures buf[k] == s[k]
    {
      assert HoldsAt(st0, st, pos, s, pos + k);
    }
  }

  /** Writing a string piece by piece, seeking back and reading gives the string, across any number of
      quantum and item boundaries. */
  method RoundTrip(dev: Scull, s: seq<char>, pos: nat, junk: seq<char>) returns (done: nat, buf: seq<char>)
    requires Valid(dev.View()) && |junk| == dev.quantum
    modifies dev
    ensures Valid(dev.View()) && done <= |s| && (done < |s| ==> dev.memory == 0)
    ensures buf == s[..done]
  {
    ghost var st0 := dev.View();
    done := WriteAll(dev, s, pos, junk);
    ghost var st1 := dev.View();
    var (f_pos, _) := Llseek(pos + done, dev.size, pos, 0);
    buf := ReadAll(dev, f_pos, done);
    assert Holds(st0, dev.View(), pos, s[..done]) by {
      forall x: nat
        ensures HoldsAt(st0, dev.View(), pos, s[..done], x)
      {
        assert HoldsAt(st0, st1, pos, s[..done], x);
        SameAt(st1, dev.View(), x);
      }
    }
    if done > 0 {
      ReadsBack(st0, dev.View(), pos, s[..done], buf);
    }
  }

  /** A string written past another leaves it in place: the first is read back as it was. */
  method TwoStrings(dev: Scull, a: seq<char>, pos: nat, b: seq<char>, far: nat, junk: seq<char>)
    returns (first: nat, buf: seq<char>)
    requires Valid(dev.View()) && |junk| == dev.quantum && pos + |a| <= far
    modifies dev
    ensures Valid(dev.View()) && first <= |a| && (first < |a| ==> dev.memory == 0) && buf == a[..first]
  {
    ghost var st0 := dev.View();
    first := WriteAll(dev, a, pos, junk);
    ghost var st1 := dev.View();
    var second := WriteAll(dev, b, far, junk);
    ghost var st2 := dev.View();
    buf := ReadAll(dev, pos, first);
    Undisturbed(st0, st1, st2, dev.View(), pos, a[..first], far, b[..second]);
    if first > 0 {
      ReadsBack(dev.View(), dev.View(), pos, a[..first], buf);
    }
  }

  lemma Undisturbed(st0: Store, st1: Store, st2: Store, st3: Store, pos: nat, a: seq<char>, far: nat, b: seq<char>)
    requires Valid(st0) && Valid(st1) && Valid(st2) && Valid(st3) && SameBytes(st2, st3)
    requires Holds(st0, st1, pos, a) && Holds(st1, st2, far, b) && pos + |a| <= far
    ensures Holds(st3, st3, pos, a)
  {
    forall x: nat
      ensures HoldsAt(st3, st3, pos, a, x)
    {
      assert HoldsAt(st0, st1, pos, a, x) && HoldsAt(st1, st2, far, b, x);
      SameAt(st2, st3, x);
    }
  }
}
