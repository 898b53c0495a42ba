/**
 * The C storage behind the device list: `connected_devices`, an array of
 * MAX_CONNECTED_DEVICES string pointers, NULL meaning an empty slot.  This
 * module relates it to the list of module Devices, and records what the
 * reset after a completed fetch really clears.
 */
module Slots {
  import opened Wrappers
  import opened Devices

  /** The contents of the C array `connected_devices`, one optional device line per slot. */
  type SlotTable = seq<Option<string>>

  predicate WellSized(a: SlotTable)
  {
    |a| == MaxConnectedDevices
  }

  /** The filled slots form a prefix: every slot after a NULL is NULL. */
  predicate Contiguous(a: SlotTable)
  {
    forall i, j :: 0 <= i < j < |a| && a[i].None? ==> a[j].None?
  }

  /**
   * What the printing loop of a completed fetch walks: the entries from slot 0
   * up to the first NULL or the end of the array.  Its length is the count it reports.
   */
  function Printed(a: SlotTable): (p: seq<string>)
    ensures |p| <= |a|
    ensures forall k :: 0 <= k < |p| ==> a[k] == Some(p[k])
    ensures |p| < |a| ==> a[|p|].None?
  {
    if a == [] || a[0].None? then [] else [a[0].value] + Printed(a[1..])
  }

  /** The three facts Printed ensures determine it. */
  lemma {:induction false} PrintedUnique(a: SlotTable, q: seq<string>)
    requires |q| <= |a|
    requires forall k :: 0 <= k < |q| ==> a[k] == Some(q[k])
    requires |q| < |a| ==> a[|q|].None?
    ensures Printed(a) == q
  {
    var p := Printed(a);
    assert |p| == |q|;
    assert forall k :: 0 <= k < |p| ==> p[k] == q[k];
  }

  /**
   * The loop of add_to_connected_devices_array from slot `i` on: stop at an
   * equal entry, fill the first NULL slot, give up at the end of the array.
   */
  function AddFrom(a: SlotTable, s: string, i: nat): (b: SlotTable)
    requires i <= |a|
    ensures |b| == |a|
    ensures forall k :: 0 <= k < |a| && a[k].Some? ==> b[k] == a[k]
    ensures b == a || exists k :: i <= k < |a| && a[k].None? && b == a[k := Some(s)]
    decreases |a| - i
  {
    if i == |a| then a
    else if a[i].Some? && a[i].value == s then a
    else if a[i].None? then a[i := Some(s)]
    else AddFrom(a, s, i + 1)
  }

  /** add_to_connected_devices_array on the array `a`. */
  function AddSlot(a: SlotTable, s: string): (b: SlotTable)
    ensures |b| == |a|
    ensures forall k :: 0 <= k < |a| && a[k].Some? ==> b[k] == a[k]
    ensures b == a || exists k :: 0 <= k < |a| && a[k].None? && b == a[k := Some(s)]
  {
    AddFrom(a, s, 0)
  }

  /** The outcome of the loop from slot `i` on, for `i` within the printed prefix. */
  lemma {:induction false} AddFromContiguous(a: SlotTable, s: string, i: nat)
    requires i <= |Printed(a)|
    ensures var p := Printed(a);
      AddFrom(a, s, i) == if s in p[i..] || |p| == |a| then a else a[|p| := Some(s)]
    decreases |a| - i
  {
    var p := Printed(a);
    if i < |p| {
      assert a[i] == Some(p[i]);
      if p[i] != s {
        assert p[i..] == [p[i]] + p[i + 1..];
        assert AddFrom(a, s, i) == AddFrom(a, s, i + 1);
        AddFromContiguous(a, s, i + 1);
      } else {
        assert s in p[i..];
      }
    } else if i < |a| {
      assert p[i..] == [];
      assert a[i].None?;
      assert AddFrom(a, s, i) == a[i := Some(s)];
    } else {
      assert AddFrom(a, s, i) == a;
    }
  }

  /**
   * On an array whose filled slots form a prefix, the C routine does what
   * Devices.Add does to the printed list, and the prefix shape is kept.
   */
  lemma AddSlotRefinesAdd(a: SlotTable, s: string)
    requires WellSized(a) && Contiguous(a)
    ensures Contiguous(AddSlot(a, s))
    ensures Printed(AddSlot(a, s)) == Add(Printed(a), s)
  {
    var p := Printed(a);
    AddFromContiguous(a, s, 0);
    assert p[0..] == p;
    if s !in p && |p| < |a| {
      var b := a[|p| := Some(s)];
      forall k | |p| < k < |a| ensures b[k].None? {
        assert a[|p|].None?;
      }
      PrintedUnique(b, p + [s]);
    }
  }

  /** The array after adding `xs` one after another, left to right. */
  function AddEach(a: SlotTable, xs: seq<string>): (b: SlotTable)
    ensures |b| == |a|
    ensures forall k :: 0 <= k < |a| && a[k].Some? ==> b[k] == a[k]
    decreases |xs|
  {
    if xs == [] then a else AddSlot(AddEach(a, xs[..|xs| - 1]), xs[|xs| - 1])
  }

  /** Starting from a prefix-shaped array, the array and the list model stay in step. */
  lemma {:induction false} AddEachRefinesAddAll(a: SlotTable, xs: seq<string>)
    requires WellSized(a) && Contiguous(a)
    ensures Contiguous(AddEach(a, xs))
    ensures Printed(AddEach(a, xs)) == AddAll(Printed(a), xs)
    decreases |xs|
  {
    if xs != [] {
      AddEachRefinesAddAll(a, xs[..|xs| - 1]);
      AddSlotRefinesAdd(AddEach(a, xs[..|xs| - 1]), xs[|xs| - 1]);
    }
  }

  /** Bytes in a pointer: the model assumes 8, as on a 64-bit build. */
  const PointerSize: nat := 8

  /**
   * Slots the reset at the end of a completed fetch clears: it zeroes
   * MAX_CONNECTED_DEVICES bytes, not MAX_CONNECTED_DEVICES pointers.
   */
  const ClearedSlots: nat := MaxConnectedDevices / PointerSize

  /** The reset as written: only the first ClearedSlots slots become NULL. */
  function ResetAsWritten(a: SlotTable): (b: SlotTable)
    ensures |b| == |a|
    ensures forall k :: 0 <= k < |a| ==> b[k] == if k < ClearedSlots then None else a[k]
  {
    seq(|a|, k requires 0 <= k < |a| => if k < ClearedSlots then None else a[k])
  }

  /**
   * What the reset as written does to the printed table: a table of at most
   * ClearedSlots entries is emptied and keeps the prefix shape; a longer one
   * is left with a NULL at slot 0 and entries after the cleared slots, so
   * its filled slots no longer form a prefix.
   */
  lemma ResetAsWrittenMeaning(a: SlotTable)
    requires WellSized(a) && Contiguous(a)
    ensures |Printed(a)| <= ClearedSlots ==> Printed(ResetAsWritten(a)) == [] && Contiguous(ResetAsWritten(a))
    ensures |Printed(a)| > ClearedSlots ==> !Contiguous(ResetAsWritten(a))
  {
    var b := ResetAsWritten(a);
    var n := |Printed(a)|;
    if n <= ClearedSlots {
      assert a[n].None?;
      forall k | 0 <= k < |a|
        ensures b[k].None?
      {
        if k >= ClearedSlots {
          assert a[k].None?;
        }
      }
      PrintedUnique(b, []);
    } else {
      assert b[0].None?;
      assert b[ClearedSlots].Some?;
    }
  }

  /** The reset as intended: every slot NULL. */
  function Cleared(): (a: SlotTable)
    ensures WellSized(a) && Contiguous(a)
    ensures Printed(a) == []
  {
    seq(MaxConnectedDevices, _ => None)
  }

  /** Adding a line absent from slots i..m-1 fills slot m when that slot is the first NULL. */
  lemma {:induction false} AddFromFills(a: SlotTable, s: string, i: nat, m: nat)
    requires i <= m < |a|
    requires forall k :: i <= k < m ==> a[k].Some? && a[k].value != s
    requires a[m].None?
    ensures AddFrom(a, s, i) == a[m := Some(s)]
    decreases m - i
  {
    if i < m {
      AddFromFills(a, s, i + 1, m);
    }
  }

  /** State of the array after the as-written reset and `m` further distinct devices. */
  lemma {:induction false} RefillAfterReset(a: SlotTable, later: seq<string>, m: nat)
    requires WellSized(a)
    requires m <= |later| <= ClearedSlots && NoDuplicates(later)
    ensures var c := AddEach(ResetAsWritten(a), later[..m]);
      && (forall k :: 0 <= k < m ==> c[k] == Some(later[k]))
      && (forall k :: m <= k < ClearedSlots ==> c[k].None?)
      && (forall k :: ClearedSlots <= k < |a| ==> c[k] == a[k])
  {
    var r := ResetAsWritten(a);
    if m > 0 {
      RefillAfterReset(a, later, m - 1);
      var c0 := AddEach(r, later[..m - 1]);
      assert later[..m][..m - 1] == later[..m - 1];
      assert AddEach(r, later[..m]) == AddSlot(c0, later[m - 1]);
      AddFromFills(c0, later[m - 1], 0, m - 1);
    } else {
      assert later[..0] == [];
    }
  }

  /**
   * The as-written reset leaks.  After a completed fetch that recorded more
   * than ClearedSlots devices, slot ClearedSlots keeps its old device; a later
   * fetch that sees ClearedSlots distinct devices prints that old device too
   * (twice over, when the later fetch saw it as well).
   */
  lemma ResetAsWrittenLeaks(a: SlotTable, later: seq<string>)
    requires WellSized(a) && Contiguous(a)
    requires |Printed(a)| > ClearedSlots
    requires |later| == ClearedSlots && NoDuplicates(later)
    ensures var p := Printed(AddEach(ResetAsWritten(a), later));
      && |p| > ClearedSlots
      && p[..ClearedSlots] == later
      && p[ClearedSlots] == Printed(a)[ClearedSlots]
      && (Printed(a)[ClearedSlots] in later ==> !NoDuplicates(p))
  {
    RefillAfterReset(a, later, |later|);
    assert later[..|later|] == later;
    var c := AddEach(ResetAsWritten(a), later);
    var p := Printed(c);
    assert a[ClearedSlots] == Some(Printed(a)[ClearedSlots]);
    assert |p| > ClearedSlots && p[..ClearedSlots] == later by {
      assert c[ClearedSlots] == a[ClearedSlots];
      assert forall k :: 0 <= k < ClearedSlots ==> p[k] == later[k];
    }
    if Printed(a)[ClearedSlots] in later {
      var k :| 0 <= k < |later| && later[k] == Printed(a)[ClearedSlots];
      assert p[k] == p[ClearedSlots];
    }
  }

  /**
   * With every slot cleared, a fetch prints exactly the devices it saw
   * itself, deduplicated and in first-seen order, and nothing older.
   */
  lemma ResetClearsAll(xs: seq<string>)
    ensures Contiguous(AddEach(Cleared(), xs))
    ensures Printed(AddEach(Cleared(), xs)) == AddAll([], xs)
  {
    AddEachRefinesAddAll(Cleared(), xs);
  }
}
