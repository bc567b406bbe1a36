/** Byte strings that are overwritten piecewise. */
module Bytes {
  type Byte = x: int | 0 <= x < 256

  function Zeros(n: nat): (z: seq<Byte>)
    ensures |z| == n && forall i :: 0 <= i < n ==> z[i] == 0
  {
    seq(n, i => 0)
  }

  /** `s` with `data` written at offset `at`. */
  function Splice(s: seq<Byte>, at: nat, data: seq<Byte>): (r: seq<Byte>)
    requires at + |data| <= |s|
    ensures |r| == |s|
    ensures forall i :: 0 <= i < |s| ==> r[i] == if at <= i < at + |data| then data[i - at] else s[i]
  {
    seq(|s|, i requires 0 <= i < |s| => if at <= i < at + |data| then data[i - at] else s[i])
  }

  /** Two adjacent writes are one write of the concatenation. */
  lemma SpliceJoins(s: seq<Byte>, at: nat, a: seq<Byte>, b: seq<Byte>)
    requires at + |a| + |b| <= |s|
    ensures Splice(Splice(s, at, a), at + |a|, b) == Splice(s, at, a + b)
  {
  }

  /** Reading a window back after a write that lies inside or outside of it. */
  lemma WindowOfSplice(s: seq<Byte>, lo: nat, hi: nat, at: nat, data: seq<Byte>)
    requires lo <= hi <= |s| && at + |data| <= |s|
    ensures lo <= at && at + |data| <= hi ==> Splice(s, at, data)[lo..hi] == Splice(s[lo..hi], at - lo, data)
    ensures hi <= at || at + |data| <= lo ==> Splice(s, at, data)[lo..hi] == s[lo..hi]
  {
  }

  lemma SliceJoins(s: seq<Byte>, lo: nat, mid: nat, hi: nat)
    requires lo <= mid <= hi <= |s|
    ensures s[lo..mid] + s[mid..hi] == s[lo..hi]
  {
  }

  lemma SliceOfSlice(s: seq<Byte>, lo: nat, hi: nat, a: nat, b: nat)
    requires lo <= hi <= |s| && a <= b <= hi - lo
    ensures s[lo..hi][a..b] == s[lo + a..lo + b]
  {
    var slice := s[lo..hi];
    var left, right := slice[a..b], s[lo + a..lo + b];
    assert forall i :: 0 <= i < b - a ==> left[i] == right[i];
  }

  /** Writing into a copy of a window and storing the copy back is writing in place. */
  lemma StoreBackWindow(s: seq<Byte>, lo: nat, hi: nat, at: nat, data: seq<Byte>)
    requires lo <= hi <= |s| && at + |data| <= hi - lo
    ensures Splice(s, lo, Splice(s[lo..hi], at, data)) == Splice(s, lo + at, data)
  {
  }

  /** `bytes` stand at offset `pos` of the data. */
  ghost predicate StandAt(data: seq<Byte>, pos: nat, bytes: seq<Byte>) {
    pos + |bytes| <= |data| && forall i :: 0 <= i < |bytes| ==> data[pos + i] == bytes[i]
  }

  lemma StandSplit(data: seq<Byte>, pos: nat, a: seq<Byte>, b: seq<Byte>)
    ensures StandAt(data, pos, a + b) <==> StandAt(data, pos, a) && StandAt(data, pos + |a|, b)
  {
    if StandAt(data, pos, a + b) {
      forall i | 0 <= i < |a|
        ensures data[pos + i] == a[i]
      {
        assert (a + b)[i] == a[i];
      }
      forall i | 0 <= i < |b|
        ensures data[pos + |a| + i] == b[i]
      {
        assert (a + b)[|a| + i] == b[i];
      }
    }
  }

  function Min(a: nat, b: nat): nat {
    if a < b then a else b
  }

  /** memcpy into a host buffer. */
  method CopyInto(data: array<Byte>, from: nat, buf: seq<Byte>)
    requires from + |buf| <= data.Length
    modifies data
    ensures data[..] == Splice(old(data[..]), from, buf)
  {
    for i := 0 to |buf|
      invariant forall j :: 0 <= j < data.Length ==>
                  data[j] == if from <= j < from + i then buf[j - from] else old(data[j])
    {
      data[from + i] := buf[i];
    }
  }
}
