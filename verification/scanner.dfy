/**
 * parse_connected_devices_output: one pass over the rendered property text,
 * line by line.  Lines that start with a digit are device addresses and go to
 * the accumulator; a line containing the sentinel "Last IPs" anywhere says
 * the table is complete.  Seeing the sentinel does not end the pass.
 */
module Scanner {
  import opened Text
  import opened Devices

  /** The marker the daemon prints once the routing table has been listed in full. */
  const Sentinel: string := "Last IPs"

  /** A line whose first character is '0'..'9' (an address line). */
  predicate IsRecord(line: string)
  {
    |line| > 0 && '0' <= line[0] <= '9'
  }

  /** The address lines of `lines`, in order. */
  function Records(lines: seq<string>): (rs: seq<string>)
    ensures forall x :: x in rs <==> x in lines && IsRecord(x)
    ensures |rs| <= |lines|
    decreases |lines|
  {
    if lines == [] then []
    else
      var line := lines[|lines| - 1];
      var init := lines[..|lines| - 1];
      assert lines == init + [line];
      Records(init) + (if IsRecord(line) then [line] else [])
  }

  /** The device list after the pass, and whether another round must be requested. */
  datatype ScanResult = ScanResult(devices: seq<string>, more: bool)

  /**
   * The pass over `lines`, starting from the device list `devices`.  `more`
   * starts true and is cleared by every line that contains the sentinel.
   */
  function Scan(devices: seq<string>, lines: seq<string>): (r: ScanResult)
    ensures r.more <==> forall line :: line in lines ==> !Occurs(line, Sentinel)
    decreases |lines|
  {
    if lines == [] then ScanResult(devices, true)
    else
      var init := lines[..|lines| - 1];
      var line := lines[|lines| - 1];
      var p := Scan(devices, init);
      assert lines == init + [line];
      ScanResult(if IsRecord(line) then Add(p.devices, line) else p.devices,
                 p.more && !Contains(line, Sentinel))
  }

  /**
   * Only address lines reach the accumulator, all of them, in order, whether
   * they come before or after the sentinel.
   */
  lemma {:induction false} ScanDevices(devices: seq<string>, lines: seq<string>)
    ensures Scan(devices, lines).devices == AddAll(devices, Records(lines))
    decreases |lines|
  {
    if lines != [] {
      var init := lines[..|lines| - 1];
      var line := lines[|lines| - 1];
      var rs := Records(init);
      ScanDevices(devices, init);
      assert lines == init + [line];
      assert Records(lines) == rs + (if IsRecord(line) then [line] else []);
      var before := Scan(devices, init).devices;
      if IsRecord(line) {
        AddAllSnoc(devices, rs, line);
        assert Scan(devices, lines).devices == Add(before, line);
      } else {
        assert Scan(devices, lines).devices == before;
        assert rs + [] == rs;
      }
    }
  }

  /** The pass over the text the pretty-printer wrote to the scratch file. */
  function ScanText(devices: seq<string>, text: string): ScanResult
  {
    Scan(devices, Lines(text))
  }

  /**
   * The pass asks for another round exactly when no line of the text holds
   * the sentinel, and adds the text's address lines to the list.
   */
  lemma ScanTextMeaning(devices: seq<string>, text: string)
    ensures ScanText(devices, text).more <==> forall line :: line in Lines(text) ==> !Occurs(line, Sentinel)
    ensures ScanText(devices, text).devices == AddAll(devices, Records(Lines(text)))
  {
    ScanDevices(devices, Lines(text));
  }
}
