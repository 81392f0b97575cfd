/** The linear workflow of `Main`: parse the command line, wait for the NVR, log in, poll the
    device list until its size is the expected camera count, then write the snapshot unless its
    file already exists.

    The SDK and the clock are not modelled. What they answer becomes input: the answers of
    `GetNvr` during the first ten-second wait (`true` for a handle, `false` for `null`), the login
    result code, the device lists `Devices` returned during the second ten-second wait, and the
    names of the files already in the executable's directory. */
module Workflow {

  import opened Wrappers
  import opened CommandLine
  import opened FileNaming
  import opened Snapshot

  /** How a run ends, one case per path through `Main`. */
  datatype Outcome =
    | NotStarted                          // no address was obtained: nothing is done at all
    | NvrNotConnected                     // no NVR handle within the first wait
    | LoginFailed(code: int)              // the login result code was not 0
    | DevicesTimedOut                     // no device list of the expected size within the second wait
    | SnapshotSkipped(fileName: string)   // the size matched but the file already exists
    | SnapshotWritten(file: SnapshotFile) // the size matched and the file was written

  // ---------------------------------------------------------------------------------------
  // The two waits.

  /** The index of the first device list, from `from` on, whose size is `expected`. */
  function FirstMatchFrom(polls: seq<seq<Device>>, expected: int, from: nat): (r: Option<nat>)
    requires from <= |polls|
    ensures r.Some? ==>
              from <= r.value < |polls| && |polls[r.value]| == expected &&
              forall j :: from <= j < r.value ==> |polls[j]| != expected
    ensures r.None? ==> forall j :: from <= j < |polls| ==> |polls[j]| != expected
    decreases |polls| - from
  {
    if from == |polls| then None
    else if |polls[from]| == expected then Some(from)
    else FirstMatchFrom(polls, expected, from + 1)
  }

  /** The index of the first device list whose size is `expected`. */
  function FirstMatch(polls: seq<seq<Device>>, expected: int): Option<nat> {
    FirstMatchFrom(polls, expected, 0)
  }

  /** The first wait: ask for the NVR until a handle comes back or the window closes. */
  method AwaitNvr(polls: seq<bool>) returns (connected: bool)
    ensures connected <==> true in polls
  {
    connected := false;
    var n := 0;
    while n < |polls| && !connected
      invariant 0 <= n <= |polls|
      invariant connected <==> true in polls[..n]
    {
      connected := polls[n];
      assert polls[..n + 1] == polls[..n] + [polls[n]];
      n := n + 1;
    }
    if !connected {
      assert polls[..n] == polls;
    } else {
      assert polls[..n] <= polls;
    }
  }

  /** The second wait: fetch the device list until its size is the expected count (the loop
      breaks there, whether or not a file is then written) or the window closes. */
  method AwaitDevices(polls: seq<seq<Device>>, expected: int) returns (found: Option<nat>)
    ensures found == FirstMatch(polls, expected)
  {
    found := None;
    var n := 0;
    while n < |polls|
      invariant 0 <= n <= |polls|
      invariant FirstMatchFrom(polls, expected, n) == FirstMatch(polls, expected)
    {
      if |polls[n]| == expected {
        found := Some(n);
        return;
      }
      n := n + 1;
    }
  }

  // ---------------------------------------------------------------------------------------
  // The whole run.

  /** What a run ends with. */
  function Run(p: Parsers, args: seq<string>, nvrPolls: seq<bool>, loginCode: int,
               devicePolls: seq<seq<Device>>, existing: set<string>): Outcome
  {
    var settings := Parse(p, args);
    match settings.address
    case None => NotStarted
    case Some(address) =>
      if true !in nvrPolls then
        NvrNotConnected
      else if loginCode != 0 then
        LoginFailed(loginCode)
      else
        match FirstMatch(devicePolls, settings.cameraCount)
        case None => DevicesTimedOut
        case Some(k) =>
          match TakeSnapshot(address.text, settings.cameraCount, devicePolls[k], existing)
          case Some(file) => SnapshotWritten(file)
          case None => SnapshotSkipped(FileName(address.text))
  }

  /** `Main`, step by step, with the two waits as loops. */
  method RunCheck(p: Parsers, args: seq<string>, nvrPolls: seq<bool>, loginCode: int,
                  devicePolls: seq<seq<Device>>, existing: set<string>) returns (outcome: Outcome)
    ensures outcome == Run(p, args, nvrPolls, loginCode, devicePolls, existing)
  {
    var ok, settings := ParseCommandLine(p, args);
    if !ok {
      return NotStarted;
    }
    var address := settings.address.value;
    var connected := AwaitNvr(nvrPolls);
    if !connected {
      return NvrNotConnected;
    }
    if loginCode != 0 {
      return LoginFailed(loginCode);
    }
    var found := AwaitDevices(devicePolls, settings.cameraCount);
    if found.None? {
      return DevicesTimedOut;
    }
    var devices := devicePolls[found.value];
    var fileName := FileName(address.text);
    if fileName !in existing {
      outcome := SnapshotWritten(SnapshotFile(fileName, Elements(devices)));
    } else {
      outcome := SnapshotSkipped(fileName);
    }
  }

  // ---------------------------------------------------------------------------------------
  // Properties of a run.

  /** Without an accepted `-s` argument nothing happens at all; with one, the run goes on. */
  lemma NotStartedIff(p: Parsers, args: seq<string>, nvrPolls: seq<bool>, loginCode: int,
                      devicePolls: seq<seq<Device>>, existing: set<string>)
    ensures Run(p, args, nvrPolls, loginCode, devicePolls, existing) == NotStarted <==>
            !exists i :: 0 <= i < |args| && Accepts(p, args[i], Server)
  {
    ParseSucceedsIff(p, args);
  }

  /** A failed login ends the run before the device list is ever consulted: the outcome is the
      same whatever the devices and files would have been. */
  lemma LoginFailureSkipsPolling(p: Parsers, args: seq<string>, nvrPolls: seq<bool>, loginCode: int,
                                 polls1: seq<seq<Device>>, existing1: set<string>,
                                 polls2: seq<seq<Device>>, existing2: set<string>)
    requires Parse(p, args).address.Some? && true in nvrPolls && loginCode != 0
    ensures Run(p, args, nvrPolls, loginCode, polls1, existing1) == LoginFailed(loginCode)
    ensures Run(p, args, nvrPolls, loginCode, polls1, existing1) == Run(p, args, nvrPolls, loginCode, polls2, existing2)
  {
  }

  /** A snapshot is written only from the first device list whose size is the expected camera
      count, after a connection and a successful login, into a file that did not exist. */
  lemma WrittenOnlyOnMatch(p: Parsers, args: seq<string>, nvrPolls: seq<bool>, loginCode: int,
                           devicePolls: seq<seq<Device>>, existing: set<string>, file: SnapshotFile)
    requires Run(p, args, nvrPolls, loginCode, devicePolls, existing) == SnapshotWritten(file)
    ensures Parse(p, args).address.Some? && true in nvrPolls && loginCode == 0
    ensures file.fileName == FileName(Parse(p, args).address.value.text) && file.fileName !in existing
    ensures exists k :: 0 <= k < |devicePolls| &&
              |devicePolls[k]| == Parse(p, args).cameraCount &&
              (forall j :: 0 <= j < k ==> |devicePolls[j]| != Parse(p, args).cameraCount) &&
              file.elements == Elements(devicePolls[k])
  {
  }

  /** Conversely, after a connection and a successful login, the first device list of the
      expected size produces the snapshot when its file is absent: the file named after the
      address, with one element per device of that list. */
  lemma WrittenWhenMatch(p: Parsers, args: seq<string>, nvrPolls: seq<bool>, loginCode: int,
                         devicePolls: seq<seq<Device>>, existing: set<string>, k: nat)
    requires Parse(p, args).address.Some? && true in nvrPolls && loginCode == 0
    requires k < |devicePolls| && |devicePolls[k]| == Parse(p, args).cameraCount
    requires forall j :: 0 <= j < k ==> |devicePolls[j]| != Parse(p, args).cameraCount
    requires FileName(Parse(p, args).address.value.text) !in existing
    ensures Run(p, args, nvrPolls, loginCode, devicePolls, existing) ==
            SnapshotWritten(SnapshotFile(FileName(Parse(p, args).address.value.text), Elements(devicePolls[k])))
  {
    var r := FirstMatch(devicePolls, Parse(p, args).cameraCount);
    assert r.Some?;
    assert r.value == k;
  }

  /** When no device list has the expected size, no file is written. */
  lemma NoMatchWritesNothing(p: Parsers, args: seq<string>, nvrPolls: seq<bool>, loginCode: int,
                             devicePolls: seq<seq<Device>>, existing: set<string>)
    requires forall k :: 0 <= k < |devicePolls| ==> |devicePolls[k]| != Parse(p, args).cameraCount
    ensures !Run(p, args, nvrPolls, loginCode, devicePolls, existing).SnapshotWritten?
    ensures !Run(p, args, nvrPolls, loginCode, devicePolls, existing).SnapshotSkipped?
  {
  }

  /** Write once: after a run has written its snapshot, a later run with the same arguments never
      writes again, whatever the NVR answers then. */
  lemma SecondRunDoesNotOverwrite(p: Parsers, args: seq<string>, nvrPolls: seq<bool>, loginCode: int,
                                  devicePolls: seq<seq<Device>>, existing: set<string>, file: SnapshotFile,
                                  nvrPolls2: seq<bool>, loginCode2: int, devicePolls2: seq<seq<Device>>)
    requires Run(p, args, nvrPolls, loginCode, devicePolls, existing) == SnapshotWritten(file)
    ensures !Run(p, args, nvrPolls2, loginCode2, devicePolls2, existing + {file.fileName}).SnapshotWritten?
  {
  }
}
