# AvigilonCheck, modelled in Dafny

AvigilonCheck is a one-shot provisioning check for an Avigilon control-center server (an NVR).
It reads four options from the command line, connects to the NVR, logs in, polls the device list
until the number of devices equals the expected camera count, and then writes a snapshot of
every device's logical id and connection state to an XML file next to the executable, unless
that file already exists.

This project models the logic of that program that does not depend on the vendor SDK:

- `CommandLine` (`command_line.dfy`): the argument scan `ParseCommandLine`. Every argument
  `-<flag><value>` with a non-empty value and a flag among `s`, `u`, `p`, `c` sets one of four
  settings (address, user name, password, camera count), provided that, for `s` and `c`, the
  value parses. A later argument overwrites an earlier one, and any other argument is skipped.
  The method is a loop over the arguments that updates four local variables, one per setting.
  It is proved equal to `Parse`, a left fold of the single-argument step `Step`, and the lemmas
  state what that fold keeps and what it changes. `IPAddress.TryParse` and `Int16.TryParse` are
  library code. They are parameters here (the `Parsers` datatype): `None` means `TryParse` returned false, and
  the Int16 parser's results are typed to lie in -32768..32767. An `IPAddress` is modelled by the
  text its `ToString` renders, since, with the SDK's answers taken as inputs, its `ToString`
  text (line 133) is all the model needs.
- `FileNaming` (`file_naming.dfy`): the snapshot's file name, which is the address text with
  every `.` deleted, followed by `.xml`.
- `Snapshot` (`snapshot.dfy`): the snapshot taken from one device list. It is produced only if
  the list has the expected size and no file of that name exists. It holds one element per
  device, in list order, named `id` + logical id, with the text `True` or `False`.
- `Workflow` (`workflow.dfy`): the path through `Main`, with the two ten-second waits as loops
  over what the SDK answered during the window. `Run` is the specification function and
  `RunCheck` is the method that follows `Main` step by step.

The argument sequence is the whole of `Environment.GetCommandLineArgs()`: the executable's
path comes first and is scanned like any other argument.

Three behaviours of the code worth knowing:

- An `-s` or `-c` argument whose value does not parse keeps the value stored by an earlier
  accepted argument. It does not reset the field to "unset" or to 0.
- The file name contains exactly one dot, the one in `.xml` (`FileNameLength`).
- The dot-deleting scheme does not avoid collisions between distinct IPv4 addresses:
  `10.0.0.11` and `100.0.1.1` both map to `100011.xml` (`FileNameNotInjective`).
  `FileNameCollides` gives the exact condition. The scheme is kept as written.

## Model

| member | source | states |
|---|---|---|
| CommandLine.ParseCommandLine | AvigilonCheck/Program.cs:45-86 | the loop leaves exactly the settings of the fold `Parse`; it answers true exactly when some argument is `-s<v>` with a non-empty `v` that parses as an IP address; the stored camera count lies in -32768..32767 |
| CommandLine.MalformedIsIgnored | AvigilonCheck/Program.cs:50-53 | an argument shorter than 2 characters, not starting with `-`, with an empty value, or with a flag other than `s`, `u`, `p`, `c` changes no field |
| CommandLine.UnparsedIsIgnored | AvigilonCheck/Program.cs:55-76 | an `-s` or `-c` argument whose value does not parse changes no field, so the earlier address or count stays |
| CommandLine.UnacceptedIsIgnored | AvigilonCheck/Program.cs:50-77 | an argument that no flag accepts leaves all four fields unchanged |
| CommandLine.AcceptedSetsItsField | AvigilonCheck/Program.cs:52-76 | an accepted argument stores its value in its own field and leaves the other three alone; the user name and password are the argument minus its first two characters, verbatim; the address and count are the parse results |
| CommandLine.UnacceptedKeepsField | AvigilonCheck/Program.cs:50-77 | an argument not accepted for a flag leaves that flag's field unchanged |
| CommandLine.ScanAppend | AvigilonCheck/Program.cs:48-79 | scanning a concatenation is scanning the first part, then the second from where the first left off |
| CommandLine.ScanKeepsField | AvigilonCheck/Program.cs:48-79 | a field for which no argument is accepted ends the scan with the value it started with |
| CommandLine.LastWins | AvigilonCheck/Program.cs:48-76 | after the scan, each field holds the value of the last argument accepted for its flag |
| CommandLine.UnsetFieldsKeepDefaults | AvigilonCheck/Program.cs:20-23 | a field for which no argument is accepted keeps its initial value: no address, `""`, `""`, 0 |
| CommandLine.ScanAddressPresent | AvigilonCheck/Program.cs:55-60 | from any start, an address is present after the scan exactly when one was present before or some argument is accepted for `-s` |
| CommandLine.ParseSucceedsIff | AvigilonCheck/Program.cs:80-85 | the parse succeeds exactly when some argument is `-s<v>` with `v` non-empty and parseable as an IP address |
| CommandLine.ScanCountInRange | AvigilonCheck/Program.cs:72-74 | the camera count stays within -32768..32767, because it is 0 or an Int16 parse result |
| FileNaming.RemoveDots | AvigilonCheck/Program.cs:133 | the result contains no `.`, and a dot-free text is returned unchanged |
| FileNaming.RemoveDotsAppend | AvigilonCheck/Program.cs:133 | deleting dots distributes over concatenation, so the non-dot characters are kept in order |
| FileNaming.RemoveDotsLength | AvigilonCheck/Program.cs:133 | the result is shorter than the text by exactly the number of dots in it |
| FileNaming.FileName | AvigilonCheck/Program.cs:133 | the name ends in `.xml` and has no dot before the extension |
| FileNaming.FileNameLength | AvigilonCheck/Program.cs:133 | the name's length is the address length minus its dots plus 4, and the name contains exactly one dot |
| FileNaming.FileNameCollides | AvigilonCheck/Program.cs:133 | two addresses share a file name exactly when they agree after their dots are deleted |
| FileNaming.FileNameOfQuad | AvigilonCheck/Program.cs:133 | a dotted quad `a.b.c.d` is stored as `abcd.xml` |
| FileNaming.FileNameNotInjective | AvigilonCheck/Program.cs:133 | the distinct addresses `10.0.0.11` and `100.0.1.1` both give `100011.xml` |
| Snapshot.Elements | AvigilonCheck/Program.cs:143-146 | one element per device, in device order; element i's name is `id` followed by device i's logical id; its text is `True` exactly when the device is connected and `False` exactly when it is not |
| Snapshot.ElementsReadBack | AvigilonCheck/Program.cs:145 | the elements lose nothing: stripping `id` and reading `True` gives back the device list |
| Snapshot.TakeSnapshotShape | AvigilonCheck/Program.cs:131-146 | a snapshot is produced exactly when the device count equals the expected count and no file of that name exists; it then carries the address's file name and one element per device, named `id` + logical id, with text `True`/`False` |
| Snapshot.TakeSnapshotWritesOnce | AvigilonCheck/Program.cs:136 | once the snapshot's file exists, no later device list produces a snapshot |
| Workflow.FirstMatchFrom | AvigilonCheck/Program.cs:127-154 | the index found is the first device list of the expected size; no index means that no list has that size |
| Workflow.AwaitNvr | AvigilonCheck/Program.cs:102-111 | the wait ends connected exactly when some answer of `GetNvr` within the window was a handle |
| Workflow.AwaitDevices | AvigilonCheck/Program.cs:126-157 | the poll loop stops at the first device list whose size is the expected count, or finds none |
| Workflow.RunCheck | AvigilonCheck/Program.cs:88-163 | `Main`'s step-by-step path ends with the outcome the specification `Run` gives |
| Workflow.NotStartedIff | AvigilonCheck/Program.cs:90 | a run does nothing at all exactly when no argument is an accepted `-s` argument |
| Workflow.LoginFailureSkipsPolling | AvigilonCheck/Program.cs:119-125 | a non-zero login result ends the run with that code, and the outcome does not depend on the devices or the files |
| Workflow.WrittenOnlyOnMatch | AvigilonCheck/Program.cs:129-152 | a written snapshot implies a connection, a login result of 0, a file that did not exist, and elements taken from the first device list of the expected size |
| Workflow.WrittenWhenMatch | AvigilonCheck/Program.cs:129-152 | after a connection and a login result of 0, the first device list of the expected size, with the file absent, produces the file under the address's name with one element per device of that list |
| Workflow.NoMatchWritesNothing | AvigilonCheck/Program.cs:126-157 | if no device list has the expected size, no file is written or even looked up |
| Workflow.SecondRunDoesNotOverwrite | AvigilonCheck/Program.cs:134-136 | after a run has written its snapshot, a second run with the same arguments never writes again, whatever the NVR answers |

## Left out

- SDK lifecycle and network calls (`InitAvigilon`, `AddNvr`, `GetNvr`, `Login`, `Dispose`, `Shutdown`): their behaviour is not visible. Their answers become inputs: whether `GetNvr` returned a handle at each poll, the login result code, and the device lists. The credentials passed to `Login` (Program.cs:119) and the address passed to `GetNvr` (Program.cs:106) are not recorded, so the parsed user name and password reach no outcome. The advisory message after a failed `AddNvr` does not change the path and is not modelled. Teardown is not modelled.
- The wall clock and `Thread.Sleep(500)`: each ten-second wait is the finite sequence of answers that fell inside its window. How many polls fit in ten seconds is not modelled.
- File I/O and process metadata (`File.Exists`, `XmlWriter.Create`, `doc.Save`, the executable's directory): the existing files are given as a set of names in that directory. Writing is the `SnapshotWritten` outcome.
- XML serialisation: escaping, `XElement`'s element-name validity checks and the omitted declaration. A snapshot is the list of element name and text pairs under `root`.
- The console messages: each message is stood for by an `Outcome` case, except the `AddNvr` message.
- `Entities.FirstOrDefault()` returning null: each device is assumed to have a logical id, given as text.
- The grammars of `IPAddress.TryParse`, `IPAddress.ToString` and `Int16.TryParse`: these are library code, and they are parameters of the model.
