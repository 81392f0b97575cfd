/** The shaping of the snapshot file once a device poll has matched: the write-once guard and
    the flat list of child elements, one per device, that goes under the document's `root`
    element. The file's name comes from `FileNaming`. */
module Snapshot {

  import opened Wrappers
  import opened FileNaming

  /** A device as the poll sees it: the logical id of its first entity and its connected flag. */
  datatype Device = Device(logicalId: string, connected: bool)

  /** A snapshot file: its name in the executable's directory and its child elements, each an
      element name and the element's text, in document order. */
  datatype SnapshotFile = SnapshotFile(fileName: string, elements: seq<(string, string)>)

  /** `Boolean.ToString`. */
  function BoolText(b: bool): string {
    if b then "True" else "False"
  }

  /** The child element written for one device: `id` followed by its logical id, with the
      device's connected flag as text. */
  function Element(d: Device): (string, string) {
    ("id" + d.logicalId, BoolText(d.connected))
  }

  /** The children appended to `root`, one per device, in the order of the device list. */
  function Elements(devices: seq<Device>): (r: seq<(string, string)>)
    ensures |r| == |devices|
    ensures forall i :: 0 <= i < |r| ==>
              |r[i].0| >= 2 && r[i].0[..2] == "id" && r[i].0[2..] == devices[i].logicalId
    ensures forall i :: 0 <= i < |r| ==>
              (r[i].1 == "True" <==> devices[i].connected) && (r[i].1 == "False" <==> !devices[i].connected)
    decreases |devices|
  {
    if devices == [] then [] else [Element(devices[0])] + Elements(devices[1..])
  }

  /** Reading a snapshot's elements back: strip the `id` prefix, compare the text with `True`. */
  function ReadBack(elements: seq<(string, string)>): (r: seq<Device>)
    ensures |r| == |elements|
    decreases |elements|
  {
    if elements == [] then
      []
    else
      var (name, text) := elements[0];
      [Device(if |name| >= 2 then name[2..] else name, text == "True")] + ReadBack(elements[1..])
  }

  /** The snapshot loses nothing: every device's logical id and connected flag can be read back
      from its element, so distinct devices give distinct elements. */
  lemma {:induction false} ElementsReadBack(devices: seq<Device>)
    ensures ReadBack(Elements(devices)) == devices
    decreases |devices|
  {
    if devices != [] {
      ElementsReadBack(devices[1..]);
      assert Elements(devices)[1..] == Elements(devices[1..]);
    }
  }

  /** The file written for a poll that saw `devices`, given the names of the files already in the
      executable's directory: nothing unless the device count is the expected one and no file of
      that name exists. */
  function TakeSnapshot(addressText: string, expected: int, devices: seq<Device>, existing: set<string>): Option<SnapshotFile> {
    var fileName := FileName(addressText);
    if |devices| == expected && fileName !in existing then
      Some(SnapshotFile(fileName, Elements(devices)))
    else
      None
  }

  /** A snapshot is taken exactly when the count matches and the file is absent; it then names
      the address's file and holds one element per device, in order, each named `id` plus the
      device's logical id with text `True` or `False` from its connected flag. */
  lemma TakeSnapshotShape(addressText: string, expected: int, devices: seq<Device>, existing: set<string>)
    ensures TakeSnapshot(addressText, expected, devices, existing).Some? <==>
            |devices| == expected && FileName(addressText) !in existing
    ensures TakeSnapshot(addressText, expected, devices, existing).Some? ==>
              var s := TakeSnapshot(addressText, expected, devices, existing).value;
              s.fileName == FileName(addressText) &&
              |s.elements| == |devices| &&
              forall i :: 0 <= i < |devices| ==>
                s.elements[i].0 == "id" + devices[i].logicalId &&
                s.elements[i].1 == (if devices[i].connected then "True" else "False")
  {
  }

  /** Write once: once the snapshot's file exists, no later poll with any device list writes it
      again. */
  lemma TakeSnapshotWritesOnce(addressText: string, expected: int, first: seq<Device>, later: seq<Device>, existing: set<string>)
    requires TakeSnapshot(addressText, expected, first, existing).Some?
    ensures var written := TakeSnapshot(addressText, expected, first, existing).value.fileName;
            TakeSnapshot(addressText, expected, later, existing + {written}) == None
  {
  }
}
