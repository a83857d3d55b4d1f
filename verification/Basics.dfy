/** Small values shared by the models. */
module Basics {

  datatype Option<+T> = None | Some(value: T)

  function Min(a: nat, b: nat): (r: nat)
    ensures r <= a && r <= b && (r == a || r == b)
  {
    if a <= b then a else b
  }

  function Least(a: nat, b: nat, c: nat): (r: nat)
    ensures r <= a && r <= b && r <= c && (r == a || r == b || r == c)
  {
    Min(Min(a, b), c)
  }

  /** What copy_from_user leaves at its destination when `copied` bytes get across: a copy that stops early
      clears the rest. */
  function Landed(data: seq<char>, copied: nat): (r: seq<char>)
    ensures |r| == |data|
    ensures forall k :: 0 <= k < |data| ==> r[k] == if k < copied then data[k] else '\0'
  {
    if copied >= |data| then data else data[..copied] + seq(|data| - copied, _ => '\0')
  }

  function Splice(bytes: seq<char>, q: nat, data: seq<char>): (r: seq<char>)
    requires q + |data| <= |bytes|
    ensures |r| == |bytes|
    ensures forall k :: 0 <= k < |bytes| ==> r[k] == if q <= k < q + |data| then data[k - q] else bytes[k]
  {
    bytes[..q] + data + bytes[q + |data|..]
  }

  lemma Regroups<T>(a: seq<T>, b: seq<T>, c: seq<T>)
    ensures (a + b) + c == a + (b + c)
  {
  }

  lemma PrefixGrows<T>(s: seq<T>, i: nat, n: nat)
    requires i + n <= |s|
    ensures s[..i] + s[i..][..n] == s[..i + n]
  {
  }
}
