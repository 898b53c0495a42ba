/**
 * The connected-devices accumulator of `wpanctl getprop connecteddevices`:
 * a fixed-capacity, duplicate-free list of device lines kept in the order
 * they were first seen.  Here the list is the filled prefix of the C array
 * `connected_devices`; module Slots relates the two.
 */
module Devices {

  /** MAX_CONNECTED_DEVICES: the number of slots in the C array. */
  const MaxConnectedDevices: nat := 1000

  predicate NoDuplicates(l: seq<string>)
  {
    forall i, j :: 0 <= i < j < |l| ==> l[i] != l[j]
  }

  /** What every reachable device list satisfies. */
  predicate Valid(l: seq<string>)
  {
    |l| <= MaxConnectedDevices && NoDuplicates(l)
  }

  /**
   * add_to_connected_devices_array: a device already present (exact string
   * equality, trailing newline included) leaves the list alone; a new one goes
   * after all existing entries; on a full list a new device is silently dropped.
   */
  function Add(l: seq<string>, s: string): (r: seq<string>)
    ensures Valid(l) ==> Valid(r)
    ensures l <= r && |r| <= |l| + 1
    ensures forall x :: x in r <==> x in l || (x == s && |l| < MaxConnectedDevices)
  {
    if s in l then l
    else if |l| < MaxConnectedDevices then l + [s]
    else l
  }

  /** The list after adding `xs` one after another, left to right. */
  function AddAll(l: seq<string>, xs: seq<string>): (r: seq<string>)
    ensures Valid(l) ==> Valid(r)
    ensures l <= r
    ensures forall x :: x in r ==> x in l || x in xs
    ensures |r| < MaxConnectedDevices ==> forall x :: x in xs ==> x in r
    decreases |xs|
  {
    if xs == [] then l else Add(AddAll(l, xs[..|xs| - 1]), xs[|xs| - 1])
  }

  /** Adding two batches one after the other is adding their concatenation. */
  lemma {:induction false} AddAllAppend(l: seq<string>, xs: seq<string>, ys: seq<string>)
    ensures AddAll(AddAll(l, xs), ys) == AddAll(l, xs + ys)
    decreases |ys|
  {
    if ys == [] {
      assert xs + ys == xs;
    } else {
      var front := ys[..|ys| - 1];
      var last := ys[|ys| - 1];
      assert ys == front + [last];
      assert xs + ys == (xs + front) + [last];
      AddAllAppend(l, xs, front);
      AddAllSnoc(AddAll(l, xs), front, last);
      AddAllSnoc(l, xs + front, last);
    }
  }

  /** Adding one more line after a batch. */
  lemma AddAllSnoc(l: seq<string>, xs: seq<string>, y: string)
    ensures AddAll(l, xs + [y]) == Add(AddAll(l, xs), y)
  {
    assert (xs + [y])[..|xs|] == xs;
  }

  /** Index of the first occurrence of `x` in `s`. */
  ghost function FirstIndex(s: seq<string>, x: string): (k: nat)
    requires x in s
    ensures k < |s| && s[k] == x
    ensures forall i :: 0 <= i < k ==> s[i] != x
  {
    if s[0] == x then 0 else 1 + FirstIndex(s[1..], x)
  }

  /** `r` lists its entries in the order in which they first occur in `s`. */
  ghost predicate FirstSeenOrder(r: seq<string>, s: seq<string>)
  {
    forall i, j :: 0 <= i < j < |r| && r[i] in s && r[j] in s ==> FirstIndex(s, r[i]) < FirstIndex(s, r[j])
  }

  lemma FirstIndexAppend(s: seq<string>, x: string, y: string)
    requires y in s
    ensures FirstIndex(s + [x], y) == FirstIndex(s, y)
  {
    var k := FirstIndex(s + [x], y);
    var k' := FirstIndex(s, y);
    assert (s + [x])[k'] == y;
    assert k <= k';
    assert s[k] == y;
  }

  /**
   * However the same devices recur in the input, the accumulated list is
   * ordered by first sighting in the existing entries followed by the new lines.
   */
  lemma {:induction false} AddAllFirstSeen(l: seq<string>, xs: seq<string>)
    requires Valid(l)
    ensures FirstSeenOrder(AddAll(l, xs), l + xs)
    decreases |xs|
  {
    if xs == [] {
      assert l + xs == l;
      forall i, j | 0 <= i < j < |l|
        ensures FirstIndex(l, l[i]) < FirstIndex(l, l[j])
      {
        assert FirstIndex(l, l[i]) == i;
        assert FirstIndex(l, l[j]) == j;
      }
    } else {
      var ys := xs[..|xs| - 1];
      var x := xs[|xs| - 1];
      var r0 := AddAll(l, ys);
      var s0 := l + ys;
      assert l + xs == s0 + [x];
      AddAllFirstSeen(l, ys);
      var r := AddAll(l, xs);
      assert r == Add(r0, x);
      forall y | y in r0
        ensures y in s0 && FirstIndex(s0 + [x], y) == FirstIndex(s0, y)
      {
        FirstIndexAppend(s0, x, y);
      }
      if r != r0 {
        assert r == r0 + [x];
        assert x !in s0 by {
          assert |r0| < MaxConnectedDevices;
          forall z | z in s0 ensures z in r0 {
            if z in l {
              assert z in r0;
            } else {
              assert z in ys;
            }
          }
        }
        assert FirstIndex(s0 + [x], x) == |s0|;
      }
    }
  }
}
