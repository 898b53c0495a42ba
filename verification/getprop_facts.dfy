/** What tool_cmd_getprop guarantees, stated over the model of module GetpropCommand. */
module GetpropFacts {
  import opened Wrappers
  import opened Text
  import opened Devices
  import opened Scanner
  import opened Reassembly
  import opened GetpropCommand

  /**
   * A name together with `-a`, or no interface selected: BadArgument, one
   * error line, and nothing sent, consumed or recorded.
   */
  lemma RejectedBeforeAnyRequest(strerror: nat -> NonEmpty, o: Options, names: seq<string>, iface: string, w: World)
    requires !o.help && ((|names| > 0 && o.all) || iface == "")
    ensures var r := Getprop(strerror, o, names, iface, w);
      && r.status == BadArgument
      && r.world == Emit(w, if |names| > 0 && o.all then NameConflict else NoInterface)
  {
  }

  /** With no names, `getprop` is `getprop -a`. */
  lemma NoNamesMeansAll(strerror: nat -> NonEmpty, o: Options, iface: string, w: World)
    ensures Getprop(strerror, o, [], iface, w) == Getprop(strerror, o.(all := true), [], iface, w)
  {
  }

  /** The calls of a batch, one per name, left to right. */
  lemma {:induction false} EachAppend(strerror: nat -> NonEmpty, o: Options, names: seq<string>, x: string,
                                      iface: string, acc: Outcome)
    ensures Each(strerror, o, names + [x], iface, acc)
         == Getprop(strerror, o, [x], iface, Each(strerror, o, names, iface, acc).world)
    decreases |names|
  {
    if names == [] {
      assert [] + [x] == [x];
    } else {
      var first := Getprop(strerror, o, [names[0]], iface, acc.world);
      assert (names + [x])[1..] == names[1..] + [x];
      EachAppend(strerror, o, names[1..], x, iface, first);
    }
  }

  /**
   * `getprop a b ... y z` does `getprop a b ... y` and then `getprop z` with
   * the same options, and its status is that of `getprop z`, whatever the
   * earlier names returned.
   */
  lemma BatchRunsLastAfterRest(strerror: nat -> NonEmpty, o: Options, names: seq<string>, iface: string, w: World)
    requires !o.help && !o.all && iface != "" && |names| > 1
    ensures var init := names[..|names| - 1];
      var last := names[|names| - 1];
      Getprop(strerror, o, names, iface, w)
        == Getprop(strerror, o, [last], iface, Getprop(strerror, o, init, iface, w).world)
  {
    var init := names[..|names| - 1];
    var last := names[|names| - 1];
    assert names == init + [last];
    EachAppend(strerror, o, init, last, iface, Outcome(Success, w));
    if |init| == 1 {
      assert init == [init[0]];
      assert init[1..] == [];
    }
  }

  /** Exchanges a single-name invocation takes, when that name is not the polled one. */
  lemma SingleTakesOneExchange(strerror: nat -> NonEmpty, o: Options, n: string, iface: string, w: World)
    requires !o.help && !o.all && iface != "" && n != ConnectedDevicesProperty
    requires w.pending != []
    ensures var r := Getprop(strerror, o, [n], iface, w);
      && r.world.pending == w.pending[1..]
      && r.world.sent == w.sent + (if w.pending[0].connected && w.pending[0].lookup == 0 then [Request(n, o.timeout)] else [])
  {
    assert Classify(o, [n], iface) == Single(n, false);
  }

  /** The requests a batch sends: one per name, in order, each with the invocation's timeout. */
  function RequestsFor(names: seq<string>, timeout: int): (rs: seq<Request>)
    ensures |rs| == |names|
    ensures forall i :: 0 <= i < |names| ==> rs[i] == Request(names[i], timeout)
  {
    seq(|names|, i requires 0 <= i < |names| => Request(names[i], timeout))
  }

  /**
   * A batch of ordinary names, each answered by the bus: exactly one exchange
   * is used and exactly one request is sent per name, left to right.
   */
  lemma {:induction false} EachSendsOnePerName(strerror: nat -> NonEmpty, o: Options, names: seq<string>,
                                               iface: string, acc: Outcome)
    requires !o.help && !o.all && iface != ""
    requires forall n :: n in names ==> n != ConnectedDevicesProperty
    requires |names| <= |acc.world.pending|
    requires forall i :: 0 <= i < |names| ==> acc.world.pending[i].connected && acc.world.pending[i].lookup == 0
    ensures var r := Each(strerror, o, names, iface, acc);
      && r.world.pending == acc.world.pending[|names|..]
      && r.world.sent == acc.world.sent + RequestsFor(names, o.timeout)
    decreases |names|
  {
    if names != [] {
      var p := acc.world.pending;
      var first := Getprop(strerror, o, [names[0]], iface, acc.world);
      var req := Request(names[0], o.timeout);
      assert first.world.pending == p[1..] && first.world.sent == acc.world.sent + [req] by {
        assert names[0] in names;
        SingleTakesOneExchange(strerror, o, names[0], iface, acc.world);
      }
      assert forall n :: n in names[1..] ==> n in names;
      assert forall i :: 0 <= i < |names| - 1 ==> first.world.pending[i] == p[i + 1];
      EachSendsOnePerName(strerror, o, names[1..], iface, first);
      EachStep(strerror, o, names, iface, acc, first);
    } else {
      assert acc.world.pending[0..] == acc.world.pending;
      assert acc.world.sent + [] == acc.world.sent;
    }
  }

  /** Combines the first name's exchange with the rest of the batch. */
  lemma EachStep(strerror: nat -> NonEmpty, o: Options, names: seq<string>, iface: string, acc: Outcome, first: Outcome)
    requires names != [] && |names| <= |acc.world.pending|
    requires first == Getprop(strerror, o, [names[0]], iface, acc.world)
    requires first.world.pending == acc.world.pending[1..]
    requires first.world.sent == acc.world.sent + [Request(names[0], o.timeout)]
    requires var r := Each(strerror, o, names[1..], iface, first);
      && r.world.pending == first.world.pending[|names| - 1..]
      && r.world.sent == first.world.sent + RequestsFor(names[1..], o.timeout)
    ensures var r := Each(strerror, o, names, iface, acc);
      && r.world.pending == acc.world.pending[|names|..]
      && r.world.sent == acc.world.sent + RequestsFor(names, o.timeout)
  {
    var r := Each(strerror, o, names[1..], iface, first);
    assert Each(strerror, o, names, iface, acc) == r;
    assert RequestsFor(names, o.timeout) == [Request(names[0], o.timeout)] + RequestsFor(names[1..], o.timeout);
    SuffixStep(acc.world.pending, first.world.pending, r.world.pending, |names|);
    AppendAssoc(acc.world.sent, [Request(names[0], o.timeout)], RequestsFor(names[1..], o.timeout));
  }

  /** Dropping one element and then `n - 1` more drops `n`. */
  lemma SuffixStep<T>(p: seq<T>, q: seq<T>, r: seq<T>, n: nat)
    requires 1 <= n <= |p| && q == p[1..] && r == q[n - 1..]
    ensures r == p[n..]
  {
  }

  /** Concatenation regroups freely. */
  lemma AppendAssoc<T>(a: seq<T>, b: seq<T>, c: seq<T>)
    ensures (a + b) + c == a + (b + c)
  {
  }

  /** The batch form of EachSendsOnePerName for `getprop n1 n2 ...`. */
  lemma BatchSendsOnePerName(strerror: nat -> NonEmpty, o: Options, names: seq<string>, iface: string, w: World)
    requires !o.help && !o.all && iface != "" && |names| > 1
    requires forall n :: n in names ==> n != ConnectedDevicesProperty
    requires |names| <= |w.pending|
    requires forall i :: 0 <= i < |names| ==> w.pending[i].connected && w.pending[i].lookup == 0
    ensures var r := Getprop(strerror, o, names, iface, w);
      && r.world.pending == w.pending[|names|..]
      && r.world.sent == w.sent + RequestsFor(names, o.timeout)
  {
    EachSendsOnePerName(strerror, o, names, iface, Outcome(Success, w));
  }

  /** The next exchange opens the bus, finds the interface and gets `rep` back. */
  predicate Replied(w: World, rep: Reply)
  {
    w.pending != [] && w.pending[0].connected && w.pending[0].lookup == 0 && w.pending[0].answer == Some(rep)
  }

  /** The world after the next request, for `prop` with timeout `t`, has been sent. */
  function AfterRequest(w: World, prop: string, t: int): World
    requires w.pending != []
  {
    w.(pending := w.pending[1..], sent := w.sent + [Request(prop, t)])
  }

  /**
   * A reply with a non-zero status: that status is returned and one line
   * `<name>: <message> (<status>)` is written, with a message that is never
   * empty; nothing else happens.
   */
  lemma FailureReported(strerror: nat -> NonEmpty, o: Options, names: seq<string>, iface: string, w: World, rep: Reply)
    requires Classify(o, names, iface).Single?
    requires Replied(w, rep) && rep.status != 0
    ensures var p := Classify(o, names, iface).property;
      var r := Getprop(strerror, o, names, iface, w);
      && r.status == Code(rep.status)
      && r.world == Emit(AfterRequest(w, p, o.timeout),
                         PropertyFailure(p, ErrorMessage(rep.errorText, rep.status, strerror), rep.status))
  {
  }

  /**
   * A successful reply for one named, non-polled property: status 0 and no
   * error line; `<name> = <value>` is written unless `-v` was given, in which
   * case nothing at all is written.
   */
  lemma ValueReported(strerror: nat -> NonEmpty, o: Options, n: string, iface: string, w: World, rep: Reply)
    requires !o.help && !o.all && iface != "" && n != ConnectedDevicesProperty
    requires Replied(w, rep) && rep.status == 0
    ensures var r := Getprop(strerror, o, [n], iface, w);
      && r.status == Success
      && r.world.out == w.out + (if o.valueOnly || n == "" then [] else [PropertyValue(n, rep.rendered)])
  {
  }

  /** No reply: Timeout, and the transport's error text is written. */
  lemma TimeoutReported(strerror: nat -> NonEmpty, o: Options, names: seq<string>, iface: string, w: World)
    requires Classify(o, names, iface).Single?
    requires w.pending != [] && w.pending[0].connected && w.pending[0].lookup == 0 && w.pending[0].answer.None?
    ensures var r := Getprop(strerror, o, names, iface, w);
      && r.status == Timeout
      && r.world.out == w.out + [TransportFailure(w.pending[0].transportError)]
      && r.world.devices == w.devices
  {
  }

  /** Exchange `x` delivers a successful reply whose value renders as `text`. */
  predicate Answers(x: Exchange, text: string)
  {
    x.connected && x.lookup == 0 && x.answer.Some? && x.answer.value.status == 0 && x.answer.value.rendered == text
  }

  /** The options under which `getprop connecteddevices` polls. */
  predicate Polls(o: Options, iface: string)
  {
    !o.help && !o.all && !o.valueOnly && iface != ""
  }

  function Repeat(r: Request, k: nat): (rs: seq<Request>)
    ensures |rs| == k && forall i :: 0 <= i < k ==> rs[i] == r
  {
    seq(k, _ => r)
  }

  /**
   * `getprop connecteddevices` against exchanges that answer with the texts
   * `texts`.  If some text carries the sentinel, the command stops after the
   * first such round with status 0, one table holding the Reassemble result,
   * and an emptied device list.  Otherwise every text has been used and the
   * command goes on polling from the accumulated list.  Every round sends the
   * same request again.
   */
  lemma {:induction false} PollOutcome(strerror: nat -> NonEmpty, o: Options, iface: string, w: World, texts: seq<string>)
    requires Polls(o, iface)
    requires |texts| <= |w.pending|
    requires forall i :: 0 <= i < |texts| ==> Answers(w.pending[i], texts[i])
    ensures PollsTo(strerror, o, iface, w, texts)
    decreases |texts|
  {
    if texts == [] {
      PollNoRounds(strerror, o, iface, w);
    } else if !ScanText(w.devices, texts[0]).more {
      PollLastRound(strerror, o, iface, w, texts);
    } else {
      var sc := ScanText(w.devices, texts[0]);
      var w2 := World(sc.devices, w.pending[1..], w.sent + [Request(ConnectedDevicesProperty, o.timeout)], w.out);
      PollFirstRound(strerror, o, iface, w, texts[0]);
      assert forall i :: 0 <= i < |texts| - 1 ==> Answers(w2.pending[i], texts[1..][i]) by {
        assert forall i :: 0 <= i < |texts| - 1 ==> w2.pending[i] == w.pending[i + 1];
      }
      PollOutcome(strerror, o, iface, w2, texts[1..]);
      PollNextRound(strerror, o, iface, w, texts);
    }
  }

  /** With no rounds answered the command is where it started. */
  lemma PollNoRounds(strerror: nat -> NonEmpty, o: Options, iface: string, w: World)
    ensures PollsTo(strerror, o, iface, w, [])
  {
    assert w.pending[0..] == w.pending;
    assert w.sent + Repeat(Request(ConnectedDevicesProperty, o.timeout), 0) == w.sent;
  }

  /** A round whose text carries the sentinel ends the poll. */
  lemma PollLastRound(strerror: nat -> NonEmpty, o: Options, iface: string, w: World, texts: seq<string>)
    requires Polls(o, iface)
    requires texts != [] && |texts| <= |w.pending| && Answers(w.pending[0], texts[0])
    requires !ScanText(w.devices, texts[0]).more
    ensures PollsTo(strerror, o, iface, w, texts)
  {
    var req := Request(ConnectedDevicesProperty, o.timeout);
    PollFirstRound(strerror, o, iface, w, texts[0]);
    assert Reassemble(w.devices, texts) == Complete(ScanText(w.devices, texts[0]).devices, 1);
    assert w.sent + [req] == w.sent + Repeat(req, 1);
  }

  /**
   * What `getprop connecteddevices` comes to after the rounds answered by
   * `texts`: the table and the emptied list when some text ends the poll,
   * otherwise the command still polling from the accumulated list.
   */
  ghost predicate PollsTo(strerror: nat -> NonEmpty, o: Options, iface: string, w: World, texts: seq<string>)
    requires |texts| <= |w.pending|
  {
    var req := Request(ConnectedDevicesProperty, o.timeout);
    var r := Getprop(strerror, o, [ConnectedDevicesProperty], iface, w);
    match Reassemble(w.devices, texts)
    case Complete(t, k) =>
      r == Outcome(Success, World([], w.pending[k..], w.sent + Repeat(req, k),
                                  w.out + [DeviceTable(ConnectedDevicesProperty, t, |t|)]))
    case Pending(d) =>
      r == Getprop(strerror, o, [ConnectedDevicesProperty], iface,
                   World(d, w.pending[|texts|..], w.sent + Repeat(req, |texts|), w.out))
  }

  /** A round that does not end the poll hands over to the rounds after it. */
  lemma PollNextRound(strerror: nat -> NonEmpty, o: Options, iface: string, w: World, texts: seq<string>)
    requires texts != [] && |texts| <= |w.pending|
    requires ScanText(w.devices, texts[0]).more
    requires var sc := ScanText(w.devices, texts[0]);
      var w2 := World(sc.devices, w.pending[1..], w.sent + [Request(ConnectedDevicesProperty, o.timeout)], w.out);
      && Getprop(strerror, o, [ConnectedDevicesProperty], iface, w) == Getprop(strerror, o, [ConnectedDevicesProperty], iface, w2)
      && PollsTo(strerror, o, iface, w2, texts[1..])
    ensures PollsTo(strerror, o, iface, w, texts)
  {
    var sc := ScanText(w.devices, texts[0]);
    var w2 := World(sc.devices, w.pending[1..], w.sent + [Request(ConnectedDevicesProperty, o.timeout)], w.out);
    if Reassemble(sc.devices, texts[1..]).Complete? {
      LaterRoundEnds(strerror, o, iface, w, w2, texts);
    } else {
      LaterRoundPolls(strerror, o, iface, w, w2, texts);
    }
  }

  /** PollNextRound when a later round carries the sentinel. */
  lemma LaterRoundEnds(strerror: nat -> NonEmpty, o: Options, iface: string, w: World, w2: World, texts: seq<string>)
    requires texts != [] && |texts| <= |w.pending|
    requires ScanText(w.devices, texts[0]).more
    requires w2 == World(ScanText(w.devices, texts[0]).devices, w.pending[1..],
                         w.sent + [Request(ConnectedDevicesProperty, o.timeout)], w.out)
    requires Reassemble(w2.devices, texts[1..]).Complete?
    requires Getprop(strerror, o, [ConnectedDevicesProperty], iface, w) == Getprop(strerror, o, [ConnectedDevicesProperty], iface, w2)
    requires PollsTo(strerror, o, iface, w2, texts[1..])
    ensures PollsTo(strerror, o, iface, w, texts)
  {
    var c := Reassemble(w2.devices, texts[1..]);
    assert Reassemble(w.devices, texts) == Complete(c.table, c.rounds + 1);
    LaterRound(w, w2, Request(ConnectedDevicesProperty, o.timeout), c.rounds);
  }

  /** PollNextRound when no later round carries the sentinel. */
  lemma LaterRoundPolls(strerror: nat -> NonEmpty, o: Options, iface: string, w: World, w2: World, texts: seq<string>)
    requires texts != [] && |texts| <= |w.pending|
    requires ScanText(w.devices, texts[0]).more
    requires w2 == World(ScanText(w.devices, texts[0]).devices, w.pending[1..],
                         w.sent + [Request(ConnectedDevicesProperty, o.timeout)], w.out)
    requires Reassemble(w2.devices, texts[1..]).Pending?
    requires Getprop(strerror, o, [ConnectedDevicesProperty], iface, w) == Getprop(strerror, o, [ConnectedDevicesProperty], iface, w2)
    requires PollsTo(strerror, o, iface, w2, texts[1..])
    ensures PollsTo(strerror, o, iface, w, texts)
  {
    var c := Reassemble(w2.devices, texts[1..]);
    assert Reassemble(w.devices, texts) == Pending(c.devices);
    LaterRound(w, w2, Request(ConnectedDevicesProperty, o.timeout), |texts| - 1);
  }

  /** The world after `k` more rounds of `w2`, which is `w` after one round, is `w` after `k + 1`. */
  lemma LaterRound(w: World, w2: World, req: Request, k: nat)
    requires k < |w.pending| && w2.pending == w.pending[1..] && w2.sent == w.sent + [req]
    ensures w2.pending[k..] == w.pending[k + 1..]
    ensures w2.sent + Repeat(req, k) == w.sent + Repeat(req, k + 1)
  {
    assert Repeat(req, k + 1) == [req] + Repeat(req, k);
    AppendAssoc(w.sent, [req], Repeat(req, k));
  }

  /** One polling round: the reply text is scanned, then either another round or the table. */
  lemma PollFirstRound(strerror: nat -> NonEmpty, o: Options, iface: string, w: World, text: string)
    requires Polls(o, iface)
    requires w.pending != [] && Answers(w.pending[0], text)
    ensures var sc := ScanText(w.devices, text);
      var req := Request(ConnectedDevicesProperty, o.timeout);
      var w2 := World(sc.devices, w.pending[1..], w.sent + [req], w.out);
      Getprop(strerror, o, [ConnectedDevicesProperty], iface, w)
        == if sc.more then Getprop(strerror, o, [ConnectedDevicesProperty], iface, w2)
           else Outcome(Success, World([], w.pending[1..], w.sent + [req],
                                       w.out + [DeviceTable(ConnectedDevicesProperty, sc.devices, |sc.devices|)]))
  {
    assert Classify(o, [ConnectedDevicesProperty], iface) == Single(ConnectedDevicesProperty, false);
  }

  /**
   * A completed poll prints every device of its rounds once, in first-seen
   * order, with the matching count, and leaves an empty list behind.
   */
  lemma PollCompletes(strerror: nat -> NonEmpty, o: Options, iface: string, w: World, texts: seq<string>)
    requires Polls(o, iface) && Valid(w.devices)
    requires |texts| <= |w.pending|
    requires forall i :: 0 <= i < |texts| ==> Answers(w.pending[i], texts[i])
    requires Reassemble(w.devices, texts).Complete?
    ensures var c := Reassemble(w.devices, texts);
      var r := Getprop(strerror, o, [ConnectedDevicesProperty], iface, w);
      && r.status == Success
      && r.world.devices == []
      && r.world.out == w.out + [DeviceTable(ConnectedDevicesProperty, c.table, |c.table|)]
      && c.table == AddAll(w.devices, AllRecords(texts[..c.rounds]))
      && NoDuplicates(c.table)
      && FirstSeenOrder(c.table, w.devices + AllRecords(texts[..c.rounds]))
  {
    PollOutcome(strerror, o, iface, w, texts);
    ReassembleTable(w.devices, texts);
    EachDeviceOnce(w.devices, texts);
  }

  /**
   * A poll whose rounds so far lacked the sentinel and whose next request gets
   * no reply returns Timeout and leaves the devices it collected in the list,
   * where the next `getprop connecteddevices` starts from them.
   */
  lemma FailedPollKeepsDevices(strerror: nat -> NonEmpty, o: Options, iface: string, w: World, texts: seq<string>)
    requires Polls(o, iface)
    requires |texts| < |w.pending|
    requires forall i :: 0 <= i < |texts| ==> Answers(w.pending[i], texts[i])
    requires forall i :: 0 <= i < |texts| ==> !Ends(texts[i])
    requires var x := w.pending[|texts|]; x.connected && x.lookup == 0 && x.answer.None?
    ensures var r := Getprop(strerror, o, [ConnectedDevicesProperty], iface, w);
      && r.status == Timeout
      && r.world.devices == AddAll(w.devices, AllRecords(texts))
  {
    PollOutcome(strerror, o, iface, w, texts);
    ReassembleStops(w.devices, texts);
    ReassembleTable(w.devices, texts);
    var c := Reassemble(w.devices, texts);
    assert c.Pending?;
    var req := Request(ConnectedDevicesProperty, o.timeout);
    var w' := World(c.devices, w.pending[|texts|..], w.sent + Repeat(req, |texts|), w.out);
    assert Getprop(strerror, o, [ConnectedDevicesProperty], iface, w) == Getprop(strerror, o, [ConnectedDevicesProperty], iface, w');
    PollUnanswered(strerror, o, iface, w');
  }

  /** A poll round whose request gets no reply ends the command with Timeout and keeps the list. */
  lemma PollUnanswered(strerror: nat -> NonEmpty, o: Options, iface: string, w: World)
    requires Polls(o, iface)
    requires w.pending != [] && w.pending[0].connected && w.pending[0].lookup == 0 && w.pending[0].answer.None?
    ensures var r := Getprop(strerror, o, [ConnectedDevicesProperty], iface, w);
      r.status == Timeout && r.world.devices == w.devices
  {
    assert Classify(o, [ConnectedDevicesProperty], iface) == Single(ConnectedDevicesProperty, false);
  }

  /** The exchange opens the bus, finds the interface and gets a status-0 reply. */
  predicate Succeeds(x: Exchange)
  {
    x.connected && x.lookup == 0 && x.answer.Some? && x.answer.value.status == 0
  }

  /** A name printed as `<name> = <value>` and never polled. */
  predicate Ordinary(n: string)
  {
    n != "" && n != ConnectedDevicesProperty
  }

  /** `<name> = <value>` for each name, the value being that of the matching reply. */
  function ValueLines(names: seq<string>, xs: seq<Exchange>): (es: seq<Event>)
    requires |names| <= |xs|
    requires forall i :: 0 <= i < |names| ==> Succeeds(xs[i])
    ensures |es| == |names|
  {
    seq(|names|, i requires 0 <= i < |names| =>
      assert Succeeds(xs[i]);
      PropertyValue(names[i], xs[i].answer.value.rendered))
  }

  /**
   * Ordinary names, each answered with status 0, without `-v`: one
   * `<name> = <value>` line per name in the order given, one exchange each,
   * and status 0.
   */
  lemma {:induction false} EachReportsValues(strerror: nat -> NonEmpty, o: Options, names: seq<string>,
                                             iface: string, acc: Outcome)
    requires !o.help && !o.all && !o.valueOnly && iface != ""
    requires forall n :: n in names ==> Ordinary(n)
    requires |names| <= |acc.world.pending|
    requires forall i :: 0 <= i < |names| ==> Succeeds(acc.world.pending[i])
    ensures var r := Each(strerror, o, names, iface, acc);
      && r.status == (if names == [] then acc.status else Success)
      && r.world.pending == acc.world.pending[|names|..]
      && r.world.out == acc.world.out + ValueLines(names, acc.world.pending)
    decreases |names|
  {
    if names == [] {
      assert acc.world.pending[0..] == acc.world.pending;
      assert acc.world.out + [] == acc.world.out;
    } else {
      var p := acc.world.pending;
      var first := Getprop(strerror, o, [names[0]], iface, acc.world);
      var line := PropertyValue(names[0], p[0].answer.value.rendered);
      assert first.status == Success && first.world.pending == p[1..] && first.world.out == acc.world.out + [line] by {
        assert names[0] in names;
        ValueReported(strerror, o, names[0], iface, acc.world, p[0].answer.value);
        SingleTakesOneExchange(strerror, o, names[0], iface, acc.world);
      }
      assert forall n :: n in names[1..] ==> n in names;
      assert forall i :: 0 <= i < |names| - 1 ==> first.world.pending[i] == p[i + 1];
      EachReportsValues(strerror, o, names[1..], iface, first);
      EachValueStep(strerror, o, names, iface, acc, first);
    }
  }

  /** Combines the first name's line with the lines of the rest of the batch. */
  lemma EachValueStep(strerror: nat -> NonEmpty, o: Options, names: seq<string>, iface: string, acc: Outcome, first: Outcome)
    requires names != [] && |names| <= |acc.world.pending|
    requires forall i :: 0 <= i < |names| ==> Succeeds(acc.world.pending[i])
    requires Succeeds(acc.world.pending[0])
    requires first == Getprop(strerror, o, [names[0]], iface, acc.world)
    requires first.world.pending == acc.world.pending[1..]
    requires first.world.out == acc.world.out + [PropertyValue(names[0], acc.world.pending[0].answer.value.rendered)]
    requires var r := Each(strerror, o, names[1..], iface, first);
      && r.status == (if names[1..] == [] then first.status else Success)
      && r.world.pending == first.world.pending[|names| - 1..]
      && r.world.out == first.world.out + ValueLines(names[1..], first.world.pending)
    requires first.status == Success
    ensures var r := Each(strerror, o, names, iface, acc);
      && r.status == Success
      && r.world.pending == acc.world.pending[|names|..]
      && r.world.out == acc.world.out + ValueLines(names, acc.world.pending)
  {
    var p := acc.world.pending;
    var r := Each(strerror, o, names[1..], iface, first);
    assert Each(strerror, o, names, iface, acc) == r;
    SuffixStep(p, first.world.pending, r.world.pending, |names|);
    ValueLinesCons(names, p);
    AppendAssoc(acc.world.out, [PropertyValue(names[0], p[0].answer.value.rendered)], ValueLines(names[1..], p[1..]));
  }

  /** The first name's line comes first. */
  lemma ValueLinesCons(names: seq<string>, xs: seq<Exchange>)
    requires 0 < |names| <= |xs|
    requires forall i :: 0 <= i < |names| ==> Succeeds(xs[i])
    ensures ValueLines(names, xs)
         == [PropertyValue(names[0], xs[0].answer.value.rendered)] + ValueLines(names[1..], xs[1..])
  {
    assert forall i :: 0 <= i < |names| - 1 ==> xs[1..][i] == xs[i + 1];
  }

  /**
   * `getprop` with no names: the request for "" is answered with a list of
   * property names, each of which is then fetched in turn with the default
   * options, giving one `<name> = <value>` line per listed property and status 0.
   */
  lemma GetAllReportsEach(strerror: nat -> NonEmpty, o: Options, iface: string, w: World, rep: Reply)
    requires !o.help && iface != ""
    requires Replied(w, rep) && rep.status == 0
    requires forall n :: n in rep.names ==> Ordinary(n)
    requires |rep.names| < |w.pending|
    requires forall i :: 1 <= i <= |rep.names| ==> Succeeds(w.pending[i])
    ensures var r := Getprop(strerror, o, [], iface, w);
      && r.status == Success
      && r.world.pending == w.pending[|rep.names| + 1..]
      && r.world.out == w.out + ValueLines(rep.names, w.pending[1..])
  {
    var w2 := AfterRequest(w, "", o.timeout);
    assert Getprop(strerror, o, [], iface, w) == Each(strerror, Defaults, rep.names, iface, Outcome(Success, w2));
    assert forall i :: 0 <= i < |rep.names| ==> w2.pending[i] == w.pending[i + 1];
    EachReportsValues(strerror, Defaults, rep.names, iface, Outcome(Success, w2));
    assert w2.pending[|rep.names|..] == w.pending[|rep.names| + 1..];
  }

  /**
   * `getprop` with no names, once the list of property names has arrived:
   * the calls for all but the last listed name, then `getprop <last>` with
   * the default options, whose result is the command's, whatever the earlier
   * calls returned.
   */
  lemma GetAllRunsLastAfterRest(strerror: nat -> NonEmpty, o: Options, iface: string, w: World, rep: Reply,
                                init: seq<string>, last: string)
    requires !o.help && iface != ""
    requires Replied(w, rep) && rep.status == 0 && rep.names == init + [last]
    ensures var w2 := AfterRequest(w, "", o.timeout);
      Getprop(strerror, o, [], iface, w)
        == Getprop(strerror, Defaults, [last], iface, Each(strerror, Defaults, init, iface, Outcome(Success, w2)).world)
  {
    EachAppend(strerror, Defaults, init, last, iface, Outcome(Success, AfterRequest(w, "", o.timeout)));
  }

  /** `getprop` with no names and an empty list of property names: status 0 and nothing written. */
  lemma GetAllNothingListed(strerror: nat -> NonEmpty, o: Options, iface: string, w: World, rep: Reply)
    requires !o.help && iface != ""
    requires Replied(w, rep) && rep.status == 0 && rep.names == []
    ensures Getprop(strerror, o, [], iface, w) == Outcome(Success, AfterRequest(w, "", o.timeout))
  {
    var w2 := AfterRequest(w, "", o.timeout);
    assert Classify(o, [], iface) == Single("", true);
    assert Getprop(strerror, o, [], iface, w) == Each(strerror, Defaults, [], iface, Outcome(Success, w2));
  }

  /**
   * Every command keeps the global device list valid: at most
   * MAX_CONNECTED_DEVICES entries, none twice.  Only a polling round changes
   * the list, by accumulating, and a completed poll empties it.
   */
  lemma {:induction false} GetpropKeepsValid(strerror: nat -> NonEmpty, o: Options, names: seq<string>,
                                             iface: string, w: World)
    requires Valid(w.devices)
    ensures Valid(Getprop(strerror, o, names, iface, w).world.devices)
    decreases |w.pending|, Rank(names), 1
  {
    match Classify(o, names, iface)
    case ShowHelp =>
    case Reject(e) =>
    case Batch => EachKeepsValid(strerror, o, names, iface, Outcome(Success, w));
    case Single(p, all) => FetchKeepsValid(strerror, o, names, p, all, iface, w);
  }

  lemma {:induction false} EachKeepsValid(strerror: nat -> NonEmpty, o: Options, names: seq<string>,
                                          iface: string, acc: Outcome)
    requires Valid(acc.world.devices)
    ensures Valid(Each(strerror, o, names, iface, acc).world.devices)
    decreases |acc.world.pending|, 2 * |names|, 0
  {
    if names != [] {
      var first := Getprop(strerror, o, [names[0]], iface, acc.world);
      GetpropKeepsValid(strerror, o, [names[0]], iface, acc.world);
      EachKeepsValid(strerror, o, names[1..], iface, first);
    }
  }

  lemma {:induction false} FetchKeepsValid(strerror: nat -> NonEmpty, o: Options, names: seq<string>, prop: string,
                                           getAll: bool, iface: string, w: World)
    requires Valid(w.devices)
    ensures Valid(Fetch(strerror, o, names, prop, getAll, iface, w).world.devices)
    decreases |w.pending|, 1, 0
  {
    if w.pending != [] {
      var x := w.pending[0];
      if x.connected && x.lookup == 0 && x.answer.Some? && x.answer.value.status == 0 {
        var rep := x.answer.value;
        var w2 := AfterRequest(w, prop, o.timeout);
        if getAll {
          EachKeepsValid(strerror, Defaults, rep.names, iface, Outcome(Success, w2));
        } else if !o.valueOnly && prop == ConnectedDevicesProperty {
          var sc := ScanText(w2.devices, rep.rendered);
          ScanTextMeaning(w2.devices, rep.rendered);
          if sc.more {
            GetpropKeepsValid(strerror, o, names, iface, w2.(devices := sc.devices));
          }
        }
      }
    }
  }

  /**
   * `getprop n1 n2 ...` with ordinary names, each answered with status 0:
   * one `<name> = <value>` line per name, in the order given, and status 0.
   */
  lemma BatchReportsValues(strerror: nat -> NonEmpty, o: Options, names: seq<string>, iface: string, w: World)
    requires !o.help && !o.all && !o.valueOnly && iface != "" && |names| > 1
    requires forall n :: n in names ==> Ordinary(n)
    requires |names| <= |w.pending|
    requires forall i :: 0 <= i < |names| ==> Succeeds(w.pending[i])
    ensures var r := Getprop(strerror, o, names, iface, w);
      && r.status == Success
      && r.world.out == w.out + ValueLines(names, w.pending)
  {
    EachReportsValues(strerror, o, names, iface, Outcome(Success, w));
  }
}
