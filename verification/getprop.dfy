/**
 * tool_cmd_getprop: the `getprop` command of wpanctl once its options have
 * been parsed.  It checks the invocation, splits a multi-name invocation into
 * one invocation per name, sends one property-get request per invocation
 * (enumerating all properties when no name is given), reports failures, and
 * polls the "connecteddevices" property until the routing table is complete.
 *
 * Everything outside the process is an input: each request consumes the next
 * Exchange, which says whether the bus connection opened, what the interface
 * lookup returned, and what reply (if any) came back.  The C function calls
 * itself for batches, for the enumerated properties and for each polling
 * round; here Getprop, Each and Fetch call each other in the same places.
 */
module GetpropCommand {
  import opened Wrappers
  import opened Text
  import opened Devices
  import opened Scanner

  /** The `-t` default: ten seconds. */
  const DefaultTimeout: int := 10 * 1000

  /** The one property whose value is collected over several rounds. */
  const ConnectedDevicesProperty: string := "connecteddevices"

  /** The message of last resort for a failed reply. */
  const GetFailed: NonEmpty := "Get failed"

  /** The parsed options: `-h`, `-t <ms>`, `-a`, `-v`. */
  datatype Options = Options(help: bool, timeout: int, all: bool, valueOnly: bool)

  /** What a call with no options at all sees. */
  const Defaults: Options := Options(false, DefaultTimeout, false, false)

  /**
   * A reply: its status, the string that follows the status when there is one,
   * the text the pretty-printer renders for the value, and the leading string
   * elements of the value read as a list (the property names of a get-all reply).
   */
  datatype Reply = Reply(status: int, errorText: Option<string>, rendered: string, names: seq<string>)

  /**
   * What the outside world does with one request: whether the system bus
   * connection opened, the status of the interface-name lookup, the reply or
   * its absence, and the transport's error text for the absent case.
   */
  datatype Exchange = Exchange(connected: bool, lookup: int, answer: Option<Reply>, transportError: string)

  /** A property-get request put on the bus. */
  datatype Request = Request(property: string, timeout: int)

  /** What the command writes, to standard output or standard error. */
  datatype Event =
    | HelpText                                                   // usage, on `-h`
    | NameConflict                                               // names together with `-a`
    | NoInterface                                                // no interface selected
    | TransportFailure(message: string)                          // no reply
    | PropertyFailure(property: string, message: string, status: int)  // `<name>: <message> (<status>)`
    | PropertyValue(property: string, rendered: string)          // `<name> = <value>`
    | DeviceTable(property: string, devices: seq<string>, count: nat)  // the connected-devices block

  /** The value tool_cmd_getprop returns. */
  datatype Status =
    | Code(code: int)   // 0 on success; otherwise a lookup or reply status
    | Help              // ERRORCODE_HELP
    | BadArgument       // ERRORCODE_BADARG
    | Timeout           // ERRORCODE_TIMEOUT
    | Unanswered        // the given exchanges ran out before this request (no C counterpart)

  const Success: Status := Code(0)

  /**
   * Process-wide state: the device list (the global `connected_devices`), the
   * exchanges still to come, the requests sent so far, and the output so far.
   */
  datatype World = World(devices: seq<string>, pending: seq<Exchange>, sent: seq<Request>, out: seq<Event>)

  datatype Outcome = Outcome(status: Status, world: World)

  function Emit(w: World, e: Event): World
  {
    w.(out := w.out + [e])
  }

  /** `w'` follows `w`: exchanges were only consumed, requests and output only appended. */
  predicate Extends(w: World, w': World)
  {
    && |w'.pending| <= |w.pending|
    && w'.pending == w.pending[|w.pending| - |w'.pending|..]
    && w.sent <= w'.sent
    && w.out <= w'.out
  }

  lemma ExtendsTransitive(a: World, b: World, c: World)
    requires Extends(a, b) && Extends(b, c)
    ensures Extends(a, c)
  {
    var n := |a.pending| - |b.pending|;
    assert c.pending == b.pending[|b.pending| - |c.pending|..];
    assert b.pending[|b.pending| - |c.pending|..] == a.pending[n..][|b.pending| - |c.pending|..];
  }

  /** How an invocation is handled. */
  datatype Plan =
    | ShowHelp
    | Reject(reason: Event)
    | Batch                                   // one invocation per name
    | Single(property: string, getAll: bool)  // one request

  /** The checks made before anything is sent. */
  function Classify(o: Options, names: seq<string>, iface: string): (p: Plan)
    ensures p == ShowHelp <==> o.help
    ensures p.Reject? <==> !o.help && ((|names| > 0 && o.all) || iface == "")
    ensures p == Reject(NameConflict) <==> !o.help && |names| > 0 && o.all
    ensures p == Batch <==> !o.help && !o.all && iface != "" && |names| > 1
    ensures p.Single? <==> !o.help && iface != "" && |names| <= 1 && !(|names| == 1 && o.all)
    ensures p.Single? ==> (p.getAll <==> names == [])
    ensures p.Single? && names == [] ==> p.property == ""
    ensures p.Single? && names != [] ==> p.property == names[0]
  {
    var getAll := o.all || names == [];
    if o.help then ShowHelp
    else if |names| > 0 && getAll then Reject(NameConflict)
    else if iface == "" then Reject(NoInterface)
    else if |names| > 1 then Batch
    else Single(if names == [] then "" else names[0], getAll)
  }

  /**
   * The message for a reply with a non-zero status: the reply's own string
   * when it has a non-empty one, else the platform text for a negative
   * status, else "Get failed".
   */
  function ErrorMessage(errorText: Option<string>, status: int, strerror: nat -> NonEmpty): (m: NonEmpty)
    ensures errorText.Some? && errorText.value != "" ==> m == errorText.value
    ensures (errorText.None? || errorText.value == "") && status < 0 ==> m == strerror(-status)
    ensures (errorText.None? || errorText.value == "") && status >= 0 ==> m == GetFailed
  {
    if errorText.Some? && errorText.value != "" then errorText.value
    else if status < 0 then strerror(-status)
    else GetFailed
  }

  function Rank(names: seq<string>): nat
  {
    if |names| > 1 then 2 * |names| + 1 else 1
  }

  /**
   * tool_cmd_getprop with options `o` and property names `names`, for the
   * interface `iface`; `strerror` is the platform's error text table.
   */
  function Getprop(strerror: nat -> NonEmpty, o: Options, names: seq<string>, iface: string, w: World): (r: Outcome)
    ensures Extends(w, r.world)
    decreases |w.pending|, Rank(names), 1
  {
    match Classify(o, names, iface)
    case ShowHelp => Outcome(Help, Emit(w, HelpText))
    case Reject(e) => Outcome(BadArgument, Emit(w, e))
    case Batch => Each(strerror, o, names, iface, Outcome(Success, w))
    case Single(p, all) => Fetch(strerror, o, names, p, all, iface, w)
  }

  /**
   * One invocation per name, left to right, every one attempted; the status
   * is that of the last (or `acc.status` when there are no names).
   */
  function Each(strerror: nat -> NonEmpty, o: Options, names: seq<string>, iface: string, acc: Outcome): (r: Outcome)
    ensures Extends(acc.world, r.world)
    decreases |acc.world.pending|, 2 * |names|, 0
  {
    if names == [] then acc
    else
      var first := Getprop(strerror, o, [names[0]], iface, acc.world);
      var r := Each(strerror, o, names[1..], iface, first);
      ExtendsTransitive(acc.world, first.world, r.world);
      r
  }

  /** One request for `prop` (all properties when `getAll`) and what follows from its reply. */
  function Fetch(strerror: nat -> NonEmpty, o: Options, names: seq<string>, prop: string, getAll: bool,
                 iface: string, w: World): (r: Outcome)
    ensures Extends(w, r.world)
    decreases |w.pending|, 1, 0
  {
    if w.pending == [] then Outcome(Unanswered, w)
    else
      var x := w.pending[0];
      var w1 := w.(pending := w.pending[1..]);
      if !x.connected then Outcome(Success, w1)
      else if x.lookup != 0 then Outcome(Code(x.lookup), w1)
      else
        var w2 := w1.(sent := w1.sent + [Request(prop, o.timeout)]);
        match x.answer
        case None => Outcome(Timeout, Emit(w2, TransportFailure(x.transportError)))
        case Some(rep) =>
          if rep.status != 0 then
            var m := ErrorMessage(rep.errorText, rep.status, strerror);
            Outcome(Code(rep.status), Emit(w2, PropertyFailure(prop, m, rep.status)))
          else if getAll then
            var r := Each(strerror, Defaults, rep.names, iface, Outcome(Success, w2));
            ExtendsTransitive(w, w2, r.world);
            r
          else if o.valueOnly || prop == "" then Outcome(Success, w2)
          else if prop == ConnectedDevicesProperty then
            var sc := ScanText(w2.devices, rep.rendered);
            if sc.more then
              var r := Getprop(strerror, o, names, iface, w2.(devices := sc.devices));
              ExtendsTransitive(w, w2.(devices := sc.devices), r.world);
              r
            else
              // The corrected reset: every slot cleared.  The memset as written
              // clears only the first slots; see Slots.ResetAsWritten.
              Outcome(Success, Emit(w2.(devices := []), DeviceTable(prop, sc.devices, |sc.devices|)))
          else Outcome(Success, Emit(w2, PropertyValue(prop, rep.rendered)))
  }
}
