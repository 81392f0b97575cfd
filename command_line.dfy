/** The command-line scan of the provisioning check (`ParseCommandLine`).

    Every argument of the form `-<flag><value>` with a non-empty value and a flag among
    `s`, `u`, `p`, `c` updates one of four settings, provided that, for `s` and `c`, the
    value parses; later arguments overwrite earlier ones and anything else is skipped. The two library parsers the program relies on,
    `IPAddress.TryParse` and `Int16.TryParse`, are not modelled: they are given as
    parameters, and only their signatures (and the Int16 range of the second) are known. */
module CommandLine {

  import opened Wrappers

  /** An IP address, known to the model only through the text `ToString` renders for it. */
  datatype IpAddress = IpAddress(text: string)

  /** The range of a 16-bit signed integer. */
  type Int16 = x: int | -32768 <= x <= 32767

  /** The library parsers: each answers `None` where the library's `TryParse` returns false. */
  datatype Parsers = Parsers(tryParseIp: string -> Option<IpAddress>, tryParseInt16: string -> Option<Int16>)

  /** The four static fields the scan fills in; `address == None` is the null reference. */
  datatype Settings = Settings(address: Option<IpAddress>, userName: string, password: string, cameraCount: int)

  /** The fields' initial values. */
  const Initial := Settings(None, "", "", 0)

  /** The four recognised flags. */
  datatype Flag = Server | User | Password | Count

  function FlagChar(f: Flag): char {
    match f
    case Server => 's'
    case User => 'u'
    case Password => 'p'
    case Count => 'c'
  }

  /** The effect of one argument on the settings, branch for branch as the loop body has it. */
  function Step(p: Parsers, st: Settings, arg: string): Settings {
    if |arg| >= 2 && arg[0] == '-' then
      var value := arg[2..];
      if |value| > 0 then
        if arg[1] == 's' then
          match p.tryParseIp(value)
          case Some(address) => st.(address := Some(address))
          case None => st
        else if arg[1] == 'u' then
          st.(userName := value)
        else if arg[1] == 'p' then
          st.(password := value)
        else if arg[1] == 'c' then
          match p.tryParseInt16(value)
          case Some(count) => st.(cameraCount := count)
          case None => st
        else
          st
      else
        st
    else
      st
  }

  /** The settings after scanning `args`, in order, from `st`. */
  function Scan(p: Parsers, st: Settings, args: seq<string>): Settings
    decreases |args|
  {
    if args == [] then st else Step(p, Scan(p, st, args[..|args| - 1]), args[|args| - 1])
  }

  /** The settings the whole scan leaves behind. */
  function Parse(p: Parsers, args: seq<string>): Settings {
    Scan(p, Initial, args)
  }

  // ---------------------------------------------------------------------------------------
  // Which arguments take effect, stated independently of `Step`.

  /** `arg` is `-` followed by a flag character and a non-empty value. */
  predicate HasValue(arg: string) {
    |arg| > 2 && arg[0] == '-'
  }

  /** `arg` is accepted for flag `f`: it has the shape `-<f><value>` and, for the address and
      the camera count, its value parses. */
  predicate Accepts(p: Parsers, arg: string, f: Flag) {
    HasValue(arg) && arg[1] == FlagChar(f) &&
    match f
    case Server => p.tryParseIp(arg[2..]).Some?
    case Count => p.tryParseInt16(arg[2..]).Some?
    case User => true
    case Password => true
  }

  /** The argument is skipped before any value is looked at. */
  predicate Malformed(arg: string) {
    |arg| < 2 || arg[0] != '-' || |arg| == 2 || arg[1] !in ['s', 'u', 'p', 'c']
  }

  /** `a` and `b` hold the same value in the field that flag `f` sets. */
  predicate Agree(a: Settings, b: Settings, f: Flag) {
    match f
    case Server => a.address == b.address
    case User => a.userName == b.userName
    case Password => a.password == b.password
    case Count => a.cameraCount == b.cameraCount
  }

  /** No argument of `args` is accepted for `f`. */
  predicate NeverAccepted(p: Parsers, args: seq<string>, f: Flag) {
    forall j :: 0 <= j < |args| ==> !Accepts(p, args[j], f)
  }

  // ---------------------------------------------------------------------------------------
  // One argument.

  /** A malformed argument changes nothing. */
  lemma MalformedIsIgnored(p: Parsers, st: Settings, arg: string)
    requires Malformed(arg)
    ensures Step(p, st, arg) == st
  {
  }

  /** A well-shaped `-s` or `-c` argument whose value does not parse changes nothing. */
  lemma UnparsedIsIgnored(p: Parsers, st: Settings, arg: string)
    requires HasValue(arg)
    requires (arg[1] == 's' && p.tryParseIp(arg[2..]).None?) || (arg[1] == 'c' && p.tryParseInt16(arg[2..]).None?)
    ensures Step(p, st, arg) == st
  {
  }

  /** An argument no flag accepts leaves every field as it was. */
  lemma UnacceptedIsIgnored(p: Parsers, st: Settings, arg: string)
    requires forall f :: !Accepts(p, arg, f)
    ensures Step(p, st, arg) == st
  {
    if HasValue(arg) {
      assert !Accepts(p, arg, Server) && !Accepts(p, arg, User);
      assert !Accepts(p, arg, Password) && !Accepts(p, arg, Count);
    }
  }

  /** An argument accepted for `f` stores its value (verbatim for the user name and the password,
      parsed for the address and the count) in that field and leaves the other three alone. */
  lemma AcceptedSetsItsField(p: Parsers, st: Settings, arg: string, f: Flag)
    requires Accepts(p, arg, f)
    ensures forall g :: g != f ==> Agree(st, Step(p, st, arg), g)
    ensures f == Server ==> Step(p, st, arg).address == p.tryParseIp(arg[2..])
    ensures f == User ==> Step(p, st, arg).userName == arg[2..]
    ensures f == Password ==> Step(p, st, arg).password == arg[2..]
    ensures f == Count ==> Step(p, st, arg).cameraCount == p.tryParseInt16(arg[2..]).value
  {
  }

  /** An argument not accepted for `f` leaves the field of `f` alone. */
  lemma UnacceptedKeepsField(p: Parsers, st: Settings, arg: string, f: Flag)
    requires !Accepts(p, arg, f)
    ensures Agree(st, Step(p, st, arg), f)
  {
  }

  // ---------------------------------------------------------------------------------------
  // The whole scan.

  /** Scanning `a + b` is scanning `a`, then `b`. */
  lemma {:induction false} ScanAppend(p: Parsers, st: Settings, a: seq<string>, b: seq<string>)
    ensures Scan(p, st, a + b) == Scan(p, Scan(p, st, a), b)
    decreases |b|
  {
    if b == [] {
      assert a + b == a;
    } else {
      var b' := b[..|b| - 1];
      assert (a + b)[..|a + b| - 1] == a + b';
      ScanAppend(p, st, a, b');
    }
  }

  /** When no argument is accepted for `f`, its field keeps the value it started with. */
  lemma {:induction false} ScanKeepsField(p: Parsers, st: Settings, args: seq<string>, f: Flag)
    requires NeverAccepted(p, args, f)
    ensures Agree(st, Scan(p, st, args), f)
    decreases |args|
  {
    if args != [] {
      var init := args[..|args| - 1];
      ScanKeepsField(p, st, init, f);
      UnacceptedKeepsField(p, Scan(p, st, init), args[|args| - 1], f);
    }
  }

  /** Last wins: the field of `f` holds the value of the last argument accepted for `f`. */
  lemma LastWins(p: Parsers, args: seq<string>, i: nat, f: Flag)
    requires i < |args| && Accepts(p, args[i], f)
    requires forall j :: i < j < |args| ==> !Accepts(p, args[j], f)
    ensures f == Server ==> Parse(p, args).address == p.tryParseIp(args[i][2..])
    ensures f == User ==> Parse(p, args).userName == args[i][2..]
    ensures f == Password ==> Parse(p, args).password == args[i][2..]
    ensures f == Count ==> Parse(p, args).cameraCount == p.tryParseInt16(args[i][2..]).value
  {
    var head, rest := args[..i + 1], args[i + 1..];
    assert args == head + rest;
    assert head[..i] == args[..i];
    ScanAppend(p, Initial, head, rest);
    var after := Step(p, Scan(p, Initial, args[..i]), args[i]);
    AcceptedSetsItsField(p, Scan(p, Initial, args[..i]), args[i], f);
    forall j | 0 <= j < |rest| ensures !Accepts(p, rest[j], f) {
      assert rest[j] == args[i + 1 + j];
    }
    ScanKeepsField(p, after, rest, f);
  }

  /** A field for which no argument is accepted keeps its initial value: no address, an empty
      user name or password, a camera count of 0. */
  lemma UnsetFieldsKeepDefaults(p: Parsers, args: seq<string>, f: Flag)
    requires NeverAccepted(p, args, f)
    ensures f == Server ==> Parse(p, args).address == None
    ensures f == User ==> Parse(p, args).userName == ""
    ensures f == Password ==> Parse(p, args).password == ""
    ensures f == Count ==> Parse(p, args).cameraCount == 0
  {
    ScanKeepsField(p, Initial, args, f);
  }

  /** From any start, an address is present after the scan exactly when one was present before
      or some argument is accepted for `-s`. */
  lemma {:induction false} ScanAddressPresent(p: Parsers, st: Settings, args: seq<string>)
    ensures Scan(p, st, args).address.Some? <==>
            st.address.Some? || exists i :: 0 <= i < |args| && Accepts(p, args[i], Server)
    decreases |args|
  {
    if args != [] {
      var init, last := args[..|args| - 1], args[|args| - 1];
      ScanAddressPresent(p, st, init);
      if Accepts(p, last, Server) {
        AcceptedSetsItsField(p, Scan(p, st, init), last, Server);
      } else {
        UnacceptedKeepsField(p, Scan(p, st, init), last, Server);
        if exists i :: 0 <= i < |args| && Accepts(p, args[i], Server) {
          var i :| 0 <= i < |args| && Accepts(p, args[i], Server);
          assert init[i] == args[i];
        }
      }
    }
  }

  /** The parse succeeds exactly when some argument is `-s<v>` with a non-empty `v` that parses
      as an IP address. */
  lemma ParseSucceedsIff(p: Parsers, args: seq<string>)
    ensures Parse(p, args).address.Some? <==> exists i :: 0 <= i < |args| && Accepts(p, args[i], Server)
  {
    ScanAddressPresent(p, Initial, args);
  }

  /** The camera count stays within the Int16 range: it is the initial 0 or a parse result. */
  lemma {:induction false} ScanCountInRange(p: Parsers, st: Settings, args: seq<string>)
    requires -32768 <= st.cameraCount <= 32767
    ensures -32768 <= Scan(p, st, args).cameraCount <= 32767
    decreases |args|
  {
    if args != [] {
      ScanCountInRange(p, st, args[..|args| - 1]);
    }
  }

  // ---------------------------------------------------------------------------------------
  // The loop itself.

  /** `ParseCommandLine`: one pass over the arguments, updating the four fields in place; the
      answer is whether an address was obtained. */
  method ParseCommandLine(p: Parsers, args: seq<string>) returns (ok: bool, settings: Settings)
    ensures settings == Parse(p, args)
    ensures ok == settings.address.Some?
    ensures ok <==> exists i :: 0 <= i < |args| && Accepts(p, args[i], Server)
    ensures -32768 <= settings.cameraCount <= 32767
  {
    var address: Option<IpAddress> := None;
    var userName, password, cameraCount := "", "", 0;
    var n := 0;
    while n < |args|
      invariant 0 <= n <= |args|
      invariant Settings(address, userName, password, cameraCount) == Scan(p, Initial, args[..n])
      invariant -32768 <= cameraCount <= 32767
    {
      var arg := args[n];
      if |arg| >= 2 && arg[0] == '-' {
        var value := arg[2..];
        if |value| > 0 {
          if arg[1] == 's' {
            var parsed := p.tryParseIp(value);
            if parsed.Some? {
              address := parsed;
            }
          } else if arg[1] == 'u' {
            userName := value;
          } else if arg[1] == 'p' {
            password := value;
          } else if arg[1] == 'c' {
            var parsed := p.tryParseInt16(value);
            if parsed.Some? {
              cameraCount := parsed.value;
            }
          }
        }
      }
      assert args[..n + 1][..n] == args[..n];
      n := n + 1;
    }
    assert args[..n] == args;
    settings := Settings(address, userName, password, cameraCount);
    ok := address.Some?;
    ParseSucceedsIff(p, args);
  }
}
