/**
 * The polling loop of `getprop connecteddevices` seen from the device list
 * alone: each round's rendered reply text goes through the scanner, and the
 * rounds stop at the first text that carries the sentinel.  The real loop has
 * no round limit; here the rounds are a finite sequence of reply texts.
 */
module Reassembly {
  import opened Text
  import opened Devices
  import opened Scanner

  /** Where the rounds got to. */
  datatype Collect =
    | Complete(table: seq<string>, rounds: nat)  // round number `rounds` carried the sentinel
    | Pending(devices: seq<string>)              // no round so far carried it

  /** Feed the reply texts of successive rounds to the scanner, starting from `devices`. */
  function Reassemble(devices: seq<string>, texts: seq<string>): (c: Collect)
    ensures c.Complete? ==> 1 <= c.rounds <= |texts|
    decreases |texts|
  {
    if texts == [] then Pending(devices)
    else
      var sc := ScanText(devices, texts[0]);
      if sc.more then
        match Reassemble(sc.devices, texts[1..])
        case Complete(t, k) => Complete(t, k + 1)
        case Pending(d) => Pending(d)
      else Complete(sc.devices, 1)
  }

  /** Some line of the text contains the sentinel. */
  ghost predicate Ends(text: string)
  {
    exists line :: line in Lines(text) && Occurs(line, Sentinel)
  }

  /** The address lines of all the texts, round after round. */
  function AllRecords(texts: seq<string>): seq<string>
  {
    if texts == [] then [] else Records(Lines(texts[0])) + AllRecords(texts[1..])
  }

  /** Whether the scanner finds the sentinel in `text`; the list it starts from plays no part. */
  function HasSentinel(text: string): bool
  {
    !ScanText([], text).more
  }

  /** The sentinel decision ignores the list and means that some line holds the sentinel. */
  lemma SentinelDecided(devices: seq<string>, text: string)
    ensures ScanText(devices, text).more == !HasSentinel(text)
    ensures HasSentinel(text) <==> Ends(text)
  {
    ScanTextMeaning(devices, text);
    ScanTextMeaning([], text);
  }

  /** The rounds end exactly at the first text that has a sentinel line. */
  lemma ReassembleStops(devices: seq<string>, texts: seq<string>)
    ensures var c := Reassemble(devices, texts);
      && (c.Complete? ==> Ends(texts[c.rounds - 1]) && forall i :: 0 <= i < c.rounds - 1 ==> !Ends(texts[i]))
      && (c.Pending? ==> forall i :: 0 <= i < |texts| ==> !Ends(texts[i]))
  {
    ReassembleStopsAt(devices, texts);
    forall i | 0 <= i < |texts|
      ensures HasSentinel(texts[i]) <==> Ends(texts[i])
    {
      SentinelDecided([], texts[i]);
    }
  }

  /** ReassembleStops in terms of the scanner's own decision. */
  predicate StopsAt(devices: seq<string>, texts: seq<string>)
  {
    var c := Reassemble(devices, texts);
    && (c.Complete? ==> HasSentinel(texts[c.rounds - 1]) && forall i :: 0 <= i < c.rounds - 1 ==> !HasSentinel(texts[i]))
    && (c.Pending? ==> forall i :: 0 <= i < |texts| ==> !HasSentinel(texts[i]))
  }

  /** The induction behind ReassembleStops. */
  lemma {:induction false} ReassembleStopsAt(devices: seq<string>, texts: seq<string>)
    ensures StopsAt(devices, texts)
    decreases |texts|
  {
    if texts != [] {
      var sc := ScanText(devices, texts[0]);
      SentinelDecided(devices, texts[0]);
      if sc.more {
        ReassembleStopsAt(sc.devices, texts[1..]);
        StopsLater(devices, texts);
      }
    }
  }

  /** A round without the sentinel passes the decision on to the rounds after it. */
  lemma StopsLater(devices: seq<string>, texts: seq<string>)
    requires texts != [] && !HasSentinel(texts[0]) && ScanText(devices, texts[0]).more
    requires StopsAt(ScanText(devices, texts[0]).devices, texts[1..])
    ensures StopsAt(devices, texts)
  {
    var rest := texts[1..];
    var c := Reassemble(ScanText(devices, texts[0]).devices, rest);
    if c.Complete? {
      assert Reassemble(devices, texts) == Complete(c.table, c.rounds + 1);
      assert texts[c.rounds] == rest[c.rounds - 1];
      assert forall i :: 1 <= i < c.rounds ==> texts[i] == rest[i - 1];
    } else {
      assert Reassemble(devices, texts) == Pending(c.devices);
      assert forall i :: 1 <= i < |texts| ==> texts[i] == rest[i - 1];
    }
  }

  /**
   * A finished table, or the list still pending, is what adding every
   * address line of the rounds so far, in order, to the starting list gives.
   */
  predicate TableAt(devices: seq<string>, texts: seq<string>)
  {
    var c := Reassemble(devices, texts);
    && (c.Complete? ==> c.table == AddAll(devices, AllRecords(texts[..c.rounds])))
    && (c.Pending? ==> c.devices == AddAll(devices, AllRecords(texts)))
  }

  /** The table is the accumulation of the rounds' address lines. */
  lemma {:induction false} ReassembleTable(devices: seq<string>, texts: seq<string>)
    ensures TableAt(devices, texts)
    decreases |texts|
  {
    if texts != [] {
      var sc := ScanText(devices, texts[0]);
      ScanTextMeaning(devices, texts[0]);
      if sc.more {
        ReassembleTable(sc.devices, texts[1..]);
        TableLater(devices, texts);
      } else {
        TableFirst(devices, texts);
      }
    }
  }

  /** A first round with the sentinel makes the table out of that round alone. */
  lemma TableFirst(devices: seq<string>, texts: seq<string>)
    requires texts != [] && !ScanText(devices, texts[0]).more
    requires ScanText(devices, texts[0]).devices == AddAll(devices, Records(Lines(texts[0])))
    ensures TableAt(devices, texts)
  {
    var first := Records(Lines(texts[0]));
    assert Reassemble(devices, texts) == Complete(ScanText(devices, texts[0]).devices, 1);
    assert texts[..1] == [texts[0]];
    assert AllRecords(texts[..1]) == first + [];
    assert first + [] == first;
  }

  /** A round without the sentinel adds its lines before those of the later rounds. */
  lemma TableLater(devices: seq<string>, texts: seq<string>)
    requires texts != [] && ScanText(devices, texts[0]).more
    requires ScanText(devices, texts[0]).devices == AddAll(devices, Records(Lines(texts[0])))
    requires TableAt(ScanText(devices, texts[0]).devices, texts[1..])
    ensures TableAt(devices, texts)
  {
    if Reassemble(ScanText(devices, texts[0]).devices, texts[1..]).Complete? {
      TableLaterEnds(devices, texts);
    } else {
      TableLaterPolls(devices, texts);
    }
  }

  /** TableLater when a later round carries the sentinel. */
  lemma TableLaterEnds(devices: seq<string>, texts: seq<string>)
    requires texts != [] && ScanText(devices, texts[0]).more
    requires ScanText(devices, texts[0]).devices == AddAll(devices, Records(Lines(texts[0])))
    requires Reassemble(ScanText(devices, texts[0]).devices, texts[1..]).Complete?
    requires TableAt(ScanText(devices, texts[0]).devices, texts[1..])
    ensures TableAt(devices, texts)
  {
    var first := Records(Lines(texts[0]));
    var c := Reassemble(ScanText(devices, texts[0]).devices, texts[1..]);
    var k := c.rounds;
    assert Reassemble(devices, texts) == Complete(c.table, k + 1);
    AllRecordsPrefix(texts, k);
    AddAllAppend(devices, first, AllRecords(texts[1..][..k]));
  }

  /** TableLater when no later round carries the sentinel. */
  lemma TableLaterPolls(devices: seq<string>, texts: seq<string>)
    requires texts != [] && ScanText(devices, texts[0]).more
    requires ScanText(devices, texts[0]).devices == AddAll(devices, Records(Lines(texts[0])))
    requires Reassemble(ScanText(devices, texts[0]).devices, texts[1..]).Pending?
    requires TableAt(ScanText(devices, texts[0]).devices, texts[1..])
    ensures TableAt(devices, texts)
  {
    var c := Reassemble(ScanText(devices, texts[0]).devices, texts[1..]);
    assert Reassemble(devices, texts) == Pending(c.devices);
    AddAllAppend(devices, Records(Lines(texts[0])), AllRecords(texts[1..]));
  }

  /** The first `k + 1` rounds' lines are the first round's followed by the next `k` rounds'. */
  lemma AllRecordsPrefix(texts: seq<string>, k: nat)
    requires k < |texts|
    ensures AllRecords(texts[..k + 1]) == Records(Lines(texts[0])) + AllRecords(texts[1..][..k])
  {
    assert texts[..k + 1][1..] == texts[1..][..k];
  }

  /**
   * Every device of a completed table is listed once, in the order of its
   * first sighting across the rounds, and (room permitting) every address
   * line of those rounds is listed.
   */
  lemma EachDeviceOnce(devices: seq<string>, texts: seq<string>)
    requires Valid(devices)
    requires Reassemble(devices, texts).Complete?
    ensures var c := Reassemble(devices, texts);
      && Valid(c.table)
      && FirstSeenOrder(c.table, devices + AllRecords(texts[..c.rounds]))
      && (|c.table| < MaxConnectedDevices ==> forall x :: x in AllRecords(texts[..c.rounds]) ==> x in c.table)
  {
    ReassembleTable(devices, texts);
    var c := Reassemble(devices, texts);
    AddAllFirstSeen(devices, AllRecords(texts[..c.rounds]));
  }
}
