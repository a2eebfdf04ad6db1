/** Translating options into ssh and mosh arguments, finding the host in them
    again, and wrapping the remote command (internal/session/args.go,
    session_options.go and session.go). */
module Argv {
  import opened Text
  import opened ShellWords
  import opened RemoteEnv
  import ForwardSpec

  /** The role of one argument other than the separator "--". */
  datatype Role = Host | Flag | FlagWithValue

  predicate SSHFlagTakesArg(flag: string) {
    flag in {"-b", "-c", "-D", "-E", "-F", "-I", "-J", "-L", "-R",
             "-S", "-W", "-Q", "-l", "-i", "-m", "-o", "-p",
             "-G", "-w"}
  }

  predicate IsCombinedSSHFlag(arg: string) {
    |arg| > 2 && HasPrefix(arg, "-") && !HasPrefix(arg, "--") && SSHFlagTakesArg(arg[..2])
  }

  predicate IsSSHOption(arg: string) { arg != "-" && HasPrefix(arg, "-") }

  function SSHRole(arg: string): Role {
    if !IsSSHOption(arg) then if arg == "-" then Flag else Host
    else if IsCombinedSSHFlag(arg) then Flag
    else if SSHFlagTakesArg(arg) then FlagWithValue
    else Flag
  }

  predicate MoshFlagTakesArg(flag: string) {
    flag in {"--client", "--server", "--predict", "--family",
             "--port", "-p", "--ssh", "--bind-server",
             "--experimental-remote-ip"}
  }

  predicate IsMoshCombinedShortOpt(arg: string) { HasPrefix(arg, "-p") && arg[2..] != "" }

  function MoshRole(arg: string): Role {
    if !HasPrefix(arg, "-") then Host
    else if HasPrefix(arg, "--") && '=' in arg then Flag
    else if IsMoshCombinedShortOpt(arg) then Flag
    else if MoshFlagTakesArg(arg) then FlagWithValue
    else Flag
  }

  /** The position of the host operand when scanning starts at i. */
  function HostIndex(args: seq<string>, role: string -> Role, i: nat): (index: Option<nat>)
    ensures index.Some? ==> i <= index.value < |args|
    decreases |args| - i
  {
    if i >= |args| then None
    else if args[i] == "--" then if i + 1 < |args| then Some(i + 1) else None
    else match role(args[i])
      case Host => Some(i)
      case Flag => HostIndex(args, role, i + 1)
      case FlagWithValue => HostIndex(args, role, i + 2)
  }

  method SSHHostIndex(args: seq<string>) returns (index: Option<nat>)
    ensures index == HostIndex(args, SSHRole, 0)
  {
    var i := 0;
    while i < |args|
      invariant HostIndex(args, SSHRole, i) == HostIndex(args, SSHRole, 0)
    {
      var arg := args[i];
      if arg == "--" {
        return if i + 1 >= |args| then None else Some(i + 1);
      }
      if !IsSSHOption(arg) {
        if arg != "-" {
          return Some(i);
        }
      } else if !IsCombinedSSHFlag(arg) && SSHFlagTakesArg(arg) {
        i := i + 1;
      }
      i := i + 1;
    }
    return None;
  }

  method DestinationHostAt(args: seq<string>) returns (index: Option<nat>)
    ensures index == HostIndex(args, MoshRole, 0)
  {
    var i := 0;
    while i < |args|
      invariant HostIndex(args, MoshRole, i) == HostIndex(args, MoshRole, 0)
    {
      var arg := args[i];
      if arg == "--" {
        return if i + 1 >= |args| then None else Some(i + 1);
      }
      if !HasPrefix(arg, "-") {
        return Some(i);
      }
      if HasPrefix(arg, "--") && '=' in arg {
        i := i + 1;
        continue;
      }
      if !IsMoshCombinedShortOpt(arg) && MoshFlagTakesArg(arg) {
        i := i + 1;
      }
      i := i + 1;
    }
    return None;
  }

  /** The letters of the ssh options that take a value. */
  const VALUE_LETTERS := "bcDEFIJLRSWQlimopGw"

  /** Such an option stands before its value or has it attached; every other option
      stands alone, a bundle of letters too. */
  lemma SSHOptionForms(letter: char, attached: string)
    requires letter != '-'
    ensures SSHRole("-" + [letter]) == (if letter in VALUE_LETTERS then FlagWithValue else Flag)
    ensures attached != "" ==> SSHRole("-" + [letter] + attached) == Flag
    ensures SSHRole("-") == Flag && SSHRole("--" + attached) == Flag
  {
    var short, long := "-" + [letter], "-" + [letter] + attached;
    assert short[..1] == "-" && short[1] == letter && |short| == 2;
    assert long[..1] == "-" && long[..2] == short;
    assert short == ['-', letter];
    var double := "--" + attached;
    assert double[..1] == "-" && double[..2] == "--";
    ValueLetters(letter);
    if attached != "" {
      NoFlagIsLong(long, attached);
    }
    assert |double| == 2 ==> double == "--";
  }

  lemma ValueLetters(letter: char)
    ensures SSHFlagTakesArg(['-', letter]) <==> letter in VALUE_LETTERS
  {
    var flag := ['-', letter];
    assert flag[1] == letter;
    if letter in VALUE_LETTERS {
      var i :| 0 <= i < |VALUE_LETTERS| && VALUE_LETTERS[i] == letter;
    }
  }

  lemma NoFlagIsLong(flag: string, attached: string)
    requires |flag| == 2 + |attached| && attached != ""
    ensures !SSHFlagTakesArg(flag)
  {
  }

  /** Mosh's long options stand before their value or carry it behind an equals sign,
      and -p may have it attached. */
  lemma MoshOptionForms(name: string, value: string)
    requires name in {"--client", "--server", "--predict", "--family", "--port", "--ssh", "--bind-server",
                      "--experimental-remote-ip"}
    ensures MoshRole(name) == FlagWithValue && MoshRole(name + "=" + value) == Flag
    ensures MoshRole("-p") == FlagWithValue && (value != "" ==> MoshRole("-p" + value) == Flag)
  {
    assert name[..1] == "-" && name[..2] == "--" && '=' !in name && name[1] == '-';
    var joined := name + "=" + value;
    assert joined[|name|] == '=' && joined[..1] == name[..1] && joined[..2] == name[..2];
    assert "-p"[..1] == "-" && "-p"[1] == 'p' && "-p"[2..] == "";
    var short := "-p" + value;
    assert short[..1] == "-" && short[..2] == "-p" && short[2..] == value;
    assert short[1] == 'p';
  }

  // Where a scan goes.

  /** Scanning from i steps over whole options and arrives at k. */
  ghost predicate Lands(args: seq<string>, role: string -> Role, i: nat, k: nat)
    requires k <= |args|
    decreases k - i
  {
    i == k ||
    (i < k && args[i] != "--" &&
     match role(args[i])
     case Host => false
     case Flag => Lands(args, role, i + 1, k)
     case FlagWithValue => Lands(args, role, i + 2, k))
  }

  lemma {:induction false} LandsThenScans(args: seq<string>, role: string -> Role, i: nat, k: nat)
    requires k <= |args| && Lands(args, role, i, k)
    ensures HostIndex(args, role, i) == HostIndex(args, role, k)
    decreases k - i
  {
    if i < k {
      LandsThenScans(args, role, if role(args[i]) == Flag then i + 1 else i + 2, k);
    }
  }

  lemma {:induction false} LandsBySharedPrefix(a: seq<string>, b: seq<string>, role: string -> Role, i: nat, k: nat)
    requires k <= |a| && k <= |b| && a[..k] == b[..k] && Lands(a, role, i, k)
    ensures Lands(b, role, i, k)
    decreases k - i
  {
    if i < k {
      assert a[..k][i] == b[..k][i];
      LandsBySharedPrefix(a, b, role, if role(a[i]) == Flag then i + 1 else i + 2, k);
    }
  }

  /** A found host is either an operand or follows the separator. */
  ghost predicate FoundAt(args: seq<string>, role: string -> Role, i: nat, index: nat)
    requires index < |args|
  {
    || (Lands(args, role, i, index) && args[index] != "--" && role(args[index]) == Host)
    || (index > 0 && Lands(args, role, i, index - 1) && args[index - 1] == "--")
  }

  lemma {:induction false} HowFound(args: seq<string>, role: string -> Role, i: nat)
    requires HostIndex(args, role, i).Some?
    ensures FoundAt(args, role, i, HostIndex(args, role, i).value)
    decreases |args| - i
  {
    if args[i] != "--" && role(args[i]) != Host {
      HowFound(args, role, if role(args[i]) == Flag then i + 1 else i + 2);
    }
  }

  lemma FoundGivesIndex(args: seq<string>, role: string -> Role, index: nat)
    requires index < |args| && FoundAt(args, role, 0, index)
    ensures HostIndex(args, role, 0) == Some(index)
  {
    if Lands(args, role, 0, index) && args[index] != "--" && role(args[index]) == Host {
      LandsThenScans(args, role, 0, index);
    } else {
      LandsThenScans(args, role, 0, index - 1);
    }
  }

  /** Only the arguments up to and including the host decide where it is found. */
  lemma HostFromHead(a: seq<string>, b: seq<string>, role: string -> Role, index: nat)
    requires HostIndex(a, role, 0) == Some(index)
    requires index < |b| && a[..index + 1] == b[..index + 1]
    ensures HostIndex(b, role, 0) == Some(index)
  {
    HowFound(a, role, 0);
    assert a[..index] == a[..index + 1][..index] == b[..index];
    assert a[..index + 1][index] == b[..index + 1][index];
    if Lands(a, role, 0, index) && a[index] != "--" && role(a[index]) == Host {
      LandsBySharedPrefix(a, b, role, 0, index);
    } else {
      assert a[..index - 1] == a[..index][..index - 1] == b[..index - 1];
      assert a[..index][index - 1] == b[..index][index - 1];
      LandsBySharedPrefix(a, b, role, 0, index - 1);
    }
    FoundGivesIndex(b, role, index);
  }

  // Splitting and rebuilding.

  datatype Parts = Parts(options: seq<string>, host: string, command: seq<string>)

  /** Options through the host, and the remote command after it. */
  function SplitSSH(args: seq<string>): Option<(seq<string>, seq<string>)> {
    match HostIndex(args, SSHRole, 0)
    case None => None
    case Some(index) => Some((args[..index + 1], args[index + 1..]))
  }

  function WithRemoteEnvSSH(args: seq<string>, env: Environment): Option<(seq<string>, bool)> {
    match SplitSSH(args)
    case None => None
    case Some((head, command)) =>
      var (script, interactive) := SSHCommand(command, env);
      Some((head + [script], interactive))
  }

  function DropSeparator(args: seq<string>): seq<string> {
    if args != [] && args[|args| - 1] == "--" then args[..|args| - 1] else args
  }

  function SplitMosh(args: seq<string>): Option<Parts> {
    match HostIndex(args, MoshRole, 0)
    case None => None
    case Some(index) => Some(Parts(DropSeparator(args[..index]), args[index], args[index + 1..]))
  }

  /** Splitting loses nothing but the separator in front of the host. */
  lemma SplitKeepsAll(args: seq<string>)
    ensures SplitMosh(args).Some? ==>
              var parts := SplitMosh(args).value;
              || (args == parts.options + [parts.host] + parts.command)
              || (args == parts.options + ["--", parts.host] + parts.command)
    ensures SplitSSH(args).Some? ==>
              && args == SplitSSH(args).value.0 + SplitSSH(args).value.1
              && |SplitSSH(args).value.0| == HostIndex(args, SSHRole, 0).value + 1
  {
    if SplitMosh(args).Some? {
      var index := HostIndex(args, MoshRole, 0).value;
      var parts := SplitMosh(args).value;
      assert args == args[..index] + [args[index]] + args[index + 1..];
      if parts.options != args[..index] {
        assert args[..index] == parts.options + ["--"];
      }
    }
  }

  function Rebuild(parts: Parts): seq<string> {
    parts.options + ["--", parts.host] + parts.command
  }

  function WithRemoteEnvMosh(args: seq<string>, env: Environment): Option<seq<string>> {
    match SplitMosh(args)
    case None => None
    case Some(parts) => Some(Rebuild(parts.(command := MoshCommand(parts.command, env))))
  }

  /** A scan of the rebuilt argv still reaches its host. */
  lemma RebuildIsFound(args: seq<string>, parts: Parts)
    requires SplitMosh(args).Some? && parts == SplitMosh(args).value.(command := parts.command)
    ensures FoundAt(Rebuild(parts), MoshRole, 0, |parts.options| + 1)
  {
    var index := HostIndex(args, MoshRole, 0).value;
    var rebuilt, k := Rebuild(parts), |parts.options|;
    HowFound(args, MoshRole, 0);
    assert rebuilt[k] == "--" && rebuilt[k + 1] == parts.host;
    assert rebuilt[..k] == parts.options == args[..k];
    if Lands(args, MoshRole, 0, k) {
      LandsBySharedPrefix(args, rebuilt, MoshRole, 0, k);
    } else {
      // The separator is the value of the last option.
      assert index == k + 1 && args[k] == "--";
      assert rebuilt[..index] == rebuilt[..k] + ["--"] == args[..index];
      LandsBySharedPrefix(args, rebuilt, MoshRole, 0, index);
    }
  }

  /** Whatever the argv a host was found in, rebuilding it around another command
      and splitting again gives the same options and host and that command. */
  lemma SplitOfRebuild(args: seq<string>, command: seq<string>)
    requires SplitMosh(args).Some?
    ensures SplitMosh(Rebuild(SplitMosh(args).value.(command := command)))
            == Some(SplitMosh(args).value.(command := command))
  {
    var parts := SplitMosh(args).value.(command := command);
    var rebuilt, k := Rebuild(parts), |parts.options|;
    RebuildIsFound(args, parts);
    FoundGivesIndex(rebuilt, MoshRole, k + 1);
    assert rebuilt[k + 1] == parts.host && rebuilt[k + 2..] == command;
    assert rebuilt[..k + 1] == parts.options + ["--"];
    assert DropSeparator(rebuilt[..k + 1]) == parts.options;
  }

  /** So the Mosh wrapper keeps options and host, and wrapping a rebuilt argv
      with its own command changes nothing more. */
  lemma RebuildIsStable(args: seq<string>, env: Environment)
    requires SplitMosh(args).Some?
    ensures var wrapped := WithRemoteEnvMosh(args, env);
            && wrapped.Some?
            && SplitMosh(wrapped.value) ==
               Some(SplitMosh(args).value.(command := MoshCommand(SplitMosh(args).value.command, env)))
            && Rebuild(SplitMosh(wrapped.value).value) == wrapped.value
  {
    SplitOfRebuild(args, MoshCommand(SplitMosh(args).value.command, env));
  }

  /** The ssh wrapper keeps everything through the host and leaves one command. */
  lemma SplitOfWrappedSSH(args: seq<string>, env: Environment)
    requires SplitSSH(args).Some?
    ensures var wrapped := WithRemoteEnvSSH(args, env);
            && wrapped.Some?
            && SplitSSH(wrapped.value.0) ==
               Some((SplitSSH(args).value.0, [SSHCommand(SplitSSH(args).value.1, env).0]))
  {
    var index := HostIndex(args, SSHRole, 0).value;
    var wrapped := WithRemoteEnvSSH(args, env).value.0;
    assert wrapped[..index + 1] == args[..index + 1];
    HostFromHead(args, wrapped, SSHRole, index);
  }

  // From options to arguments.

  datatype Transport = Auto | SSH | Mosh

  datatype Options = Options(
    transport: Transport, host: string, command: seq<string>,
    sshPort: nat, identityFile: string, configFile: string, forwardAgent: bool,
    localForwards: seq<ForwardSpec.Forward>, remoteForwards: seq<ForwardSpec.Forward>)

  datatype SessionOptions = SessionOptions(
    mode: Transport, args: seq<string>, forwards: seq<string>, connOpts: seq<string>)

  /** Each forward as a flag and its printed specification. */
  function ForwardArgs(flag: string, forwards: seq<ForwardSpec.Forward>): seq<string> {
    if forwards == [] then []
    else ForwardArgs(flag, forwards[..|forwards| - 1]) + [flag, ForwardSpec.Print(forwards[|forwards| - 1])]
  }

  function ConnOpts(o: Options): seq<string> {
    ["-o", if o.forwardAgent then "ForwardAgent=yes" else "ForwardAgent=no"]
    + (if o.sshPort != 0 then ["-p", Itoa(o.sshPort)] else [])
    + (if o.identityFile != "" then ["-i", o.identityFile] else [])
    + (if o.configFile != "" then ["-F", o.configFile] else [])
  }

  /** Mosh gets the connection options through its --ssh option instead. */
  function NativeArgs(o: Options, connOpts: seq<string>): seq<string> {
    if o.transport != Mosh then connOpts + ([o.host] + o.command)
    else if o.command != [] then [o.host, "sh", "-c", Join(o.command, " ")]
    else [o.host]
  }

  function NativeOptions(o: Options): SessionOptions {
    SessionOptions(o.transport, NativeArgs(o, ConnOpts(o)),
      ForwardArgs("-L", o.localForwards) + ForwardArgs("-R", o.remoteForwards),
      ConnOpts(o))
  }

  method AppendForwards(before: seq<string>, flag: string, values: seq<ForwardSpec.Forward>)
    returns (forwards: seq<string>)
    ensures forwards == before + ForwardArgs(flag, values)
  {
    forwards := before;
    for i := 0 to |values|
      invariant forwards == before + ForwardArgs(flag, values[..i])
    {
      assert values[..i + 1][..i] == values[..i];
      forwards := forwards + [flag, ForwardSpec.Print(values[i])];
    }
    assert values[..|values|] == values;
  }

  method AppendWhen(before: seq<string>, wanted: bool, flag: string, value: string) returns (after: seq<string>)
    ensures after == before + (if wanted then [flag, value] else [])
  {
    after := before;
    if wanted {
      after := after + [flag, value];
    }
  }

  method BuildConnOpts(o: Options) returns (connOpts: seq<string>)
    ensures connOpts == ConnOpts(o)
  {
    connOpts := ["-o", "ForwardAgent=no"];
    if o.forwardAgent {
      connOpts := connOpts[1 := "ForwardAgent=yes"];
    }
    connOpts := AppendWhen(connOpts, o.sshPort != 0, "-p", Itoa(o.sshPort));
    connOpts := AppendWhen(connOpts, o.identityFile != "", "-i", o.identityFile);
    connOpts := AppendWhen(connOpts, o.configFile != "", "-F", o.configFile);
  }

  method BuildNativeOptions(o: Options) returns (native: SessionOptions)
    ensures native == NativeOptions(o)
  {
    var connOpts := BuildConnOpts(o);
    var forwards := AppendForwards([], "-L", o.localForwards);
    assert [] + ForwardArgs("-L", o.localForwards) == ForwardArgs("-L", o.localForwards);
    forwards := AppendForwards(forwards, "-R", o.remoteForwards);
    var args := [o.host] + o.command;
    if o.transport != Mosh {
      args := connOpts + args;
    } else if |o.command| > 0 {
      args := [o.host, "sh", "-c", Join(o.command, " ")];
    }
    assert args == NativeArgs(o, connOpts);
    return SessionOptions(o.transport, args, forwards, connOpts);
  }

  /** Reading pairs of an option and its value back: the values of one option. */
  function ValuesOf(args: seq<string>, flag: string): seq<string> {
    if |args| < 2 then []
    else (if args[0] == flag then [args[1]] else []) + ValuesOf(args[2..], flag)
  }

  lemma {:induction false} ValuesOfConcat(a: seq<string>, b: seq<string>, flag: string)
    requires |a| % 2 == 0
    ensures ValuesOf(a + b, flag) == ValuesOf(a, flag) + ValuesOf(b, flag)
    decreases |a|
  {
    if a == [] {
      assert a + b == b;
    } else {
      assert (a + b)[2..] == a[2..] + b;
      ValuesOfConcat(a[2..], b, flag);
    }
  }

  lemma ValuesOfPair(option: string, value: string, flag: string)
    ensures ValuesOf([option, value], flag) == if option == flag then [value] else []
    ensures ValuesOf([], flag) == []
  {
    assert [option, value][2..] == [];
  }

  lemma ValuesWhen(wanted: bool, option: string, value: string, flag: string)
    ensures ValuesOf(if wanted then [option, value] else [], flag)
            == if flag == option && wanted then [value] else []
  {
    ValuesOfPair(option, value, flag);
  }

  lemma ValuesOfFour(a: seq<string>, b: seq<string>, c: seq<string>, d: seq<string>, flag: string)
    requires |a| % 2 == 0 && |b| % 2 == 0 && |c| % 2 == 0
    ensures ValuesOf(a + b + c + d, flag) ==
            ValuesOf(a, flag) + ValuesOf(b, flag) + ValuesOf(c, flag) + ValuesOf(d, flag)
  {
    ValuesOfConcat(a + b + c, d, flag);
    ValuesOfConcat(a + b, c, flag);
    ValuesOfConcat(a, b, flag);
  }

  lemma ConnOptsValues(o: Options, flag: string)
    ensures ValuesOf(ConnOpts(o), flag) ==
            (if flag == "-o" then [if o.forwardAgent then "ForwardAgent=yes" else "ForwardAgent=no"] else [])
            + (if flag == "-p" && o.sshPort != 0 then [Itoa(o.sshPort)] else [])
            + (if flag == "-i" && o.identityFile != "" then [o.identityFile] else [])
            + (if flag == "-F" && o.configFile != "" then [o.configFile] else [])
  {
    var agent := if true then ["-o", if o.forwardAgent then "ForwardAgent=yes" else "ForwardAgent=no"] else [];
    var port := if o.sshPort != 0 then ["-p", Itoa(o.sshPort)] else [];
    var identity := if o.identityFile != "" then ["-i", o.identityFile] else [];
    var config := if o.configFile != "" then ["-F", o.configFile] else [];
    ValuesOfFour(agent, port, identity, config, flag);
    ValuesWhen(true, "-o", if o.forwardAgent then "ForwardAgent=yes" else "ForwardAgent=no", flag);
    ValuesWhen(o.sshPort != 0, "-p", Itoa(o.sshPort), flag);
    ValuesWhen(o.identityFile != "", "-i", o.identityFile, flag);
    ValuesWhen(o.configFile != "", "-F", o.configFile, flag);
  }

  /** What ssh reads from the connection options, option by option: agent forwarding as
      asked for, and the port, the identity file and the configuration file if given. */
  lemma ConnOptsRead(o: Options, flag: string)
    ensures flag == "-o" ==>
              ValuesOf(ConnOpts(o), flag) == [if o.forwardAgent then "ForwardAgent=yes" else "ForwardAgent=no"]
    ensures flag == "-p" ==> ValuesOf(ConnOpts(o), flag) == if o.sshPort != 0 then [Itoa(o.sshPort)] else []
    ensures flag == "-i" ==> ValuesOf(ConnOpts(o), flag) == if o.identityFile != "" then [o.identityFile] else []
    ensures flag == "-F" ==> ValuesOf(ConnOpts(o), flag) == if o.configFile != "" then [o.configFile] else []
    ensures flag !in {"-o", "-p", "-i", "-F"} ==> ValuesOf(ConnOpts(o), flag) == []
  {
    ConnOptsValues(o, flag);
  }

  function Printed(forwards: seq<ForwardSpec.Forward>): seq<string> {
    seq(|forwards|, i requires 0 <= i < |forwards| => ForwardSpec.Print(forwards[i]))
  }

  lemma PrintedSnoc(forwards: seq<ForwardSpec.Forward>)
    requires forwards != []
    ensures Printed(forwards) ==
            Printed(forwards[..|forwards| - 1]) + [ForwardSpec.Print(forwards[|forwards| - 1])]
  {
  }

  lemma {:induction false} ForwardArgsValues(flag: string, forwards: seq<ForwardSpec.Forward>, other: string)
    ensures other == flag ==> ValuesOf(ForwardArgs(flag, forwards), other) == Printed(forwards)
    ensures other != flag ==> ValuesOf(ForwardArgs(flag, forwards), other) == []
    decreases |forwards|
  {
    if forwards != [] {
      var front, last := forwards[..|forwards| - 1], ForwardSpec.Print(forwards[|forwards| - 1]);
      ForwardArgsValues(flag, front, other);
      ForwardArgsEven(flag, front);
      ValuesOfConcat(ForwardArgs(flag, front), [flag, last], other);
      ValuesOfPair(flag, last, other);
      PrintedSnoc(forwards);
    }
  }

  lemma {:induction false} ForwardArgsEven(flag: string, forwards: seq<ForwardSpec.Forward>)
    ensures |ForwardArgs(flag, forwards)| == 2 * |forwards|
    decreases |forwards|
  {
    if forwards != [] {
      ForwardArgsEven(flag, forwards[..|forwards| - 1]);
    }
  }

  /** What ssh reads from the forwards: the printed local ones after -L and the printed
      remote ones after -R, each in order, and nothing else. */
  lemma ForwardsRead(o: Options)
    ensures ValuesOf(NativeOptions(o).forwards, "-L") == Printed(o.localForwards)
    ensures ValuesOf(NativeOptions(o).forwards, "-R") == Printed(o.remoteForwards)
    ensures |NativeOptions(o).forwards| == 2 * (|o.localForwards| + |o.remoteForwards|)
  {
    var local, remote := ForwardArgs("-L", o.localForwards), ForwardArgs("-R", o.remoteForwards);
    ForwardArgsEven("-L", o.localForwards);
    ForwardArgsEven("-R", o.remoteForwards);
    ValuesOfConcat(local, remote, "-L");
    ValuesOfConcat(local, remote, "-R");
    ForwardArgsValues("-L", o.localForwards, "-L");
    ForwardArgsValues("-L", o.localForwards, "-R");
    ForwardArgsValues("-R", o.remoteForwards, "-L");
    ForwardArgsValues("-R", o.remoteForwards, "-R");
  }

  function SessionHostIndex(s: SessionOptions): Option<nat> {
    HostIndex(s.args, if s.mode == Mosh then MoshRole else SSHRole, 0)
  }

  const PAIR_FLAGS := {"-o", "-p", "-i", "-F", "-L", "-R"}

  /** Pairs of an option that takes a value and its value. */
  ghost predicate IsPairs(args: seq<string>) {
    |args| % 2 == 0 && forall i :: 0 <= i < |args| && i % 2 == 0 ==> args[i] in PAIR_FLAGS
  }

  lemma ConnOptsArePairs(o: Options)
    ensures IsPairs(ConnOpts(o)) && |ConnOpts(o)| >= 2
  {
    PairsConcat(["-o", if o.forwardAgent then "ForwardAgent=yes" else "ForwardAgent=no"],
                if o.sshPort != 0 then ["-p", Itoa(o.sshPort)] else []);
    PairsConcat(["-o", if o.forwardAgent then "ForwardAgent=yes" else "ForwardAgent=no"]
                + (if o.sshPort != 0 then ["-p", Itoa(o.sshPort)] else []),
                if o.identityFile != "" then ["-i", o.identityFile] else []);
    PairsConcat(["-o", if o.forwardAgent then "ForwardAgent=yes" else "ForwardAgent=no"]
                + (if o.sshPort != 0 then ["-p", Itoa(o.sshPort)] else [])
                + (if o.identityFile != "" then ["-i", o.identityFile] else []),
                if o.configFile != "" then ["-F", o.configFile] else []);
  }

  lemma PairsConcat(a: seq<string>, b: seq<string>)
    requires IsPairs(a) && IsPairs(b)
    ensures IsPairs(a + b)
  {
  }

  lemma {:induction false} LandsAfterPairs(args: seq<string>, i: nat, k: nat)
    requires i <= k <= |args| && IsPairs(args[i..k])
    ensures Lands(args, SSHRole, i, k)
    decreases k - i
  {
    if i < k {
      assert args[i..k][0] == args[i];
      assert SSHRole(args[i]) == FlagWithValue;
      PairsTail(args[i..k]);
      assert args[i..k][2..] == args[i + 2..k];
      LandsAfterPairs(args, i + 2, k);
    }
  }

  lemma PairsTail(args: seq<string>)
    requires IsPairs(args) && args != []
    ensures |args| >= 2 && IsPairs(args[2..])
  {
    forall i | 0 <= i < |args[2..]| && i % 2 == 0
      ensures args[2..][i] in PAIR_FLAGS
    {
      assert args[2..][i] == args[i + 2];
    }
  }

  lemma {:induction false} ForwardArgsArePairs(flag: string, forwards: seq<ForwardSpec.Forward>)
    requires flag in PAIR_FLAGS
    ensures IsPairs(ForwardArgs(flag, forwards))
    decreases |forwards|
  {
    if forwards != [] {
      ForwardArgsArePairs(flag, forwards[..|forwards| - 1]);
      PairsConcat(ForwardArgs(flag, forwards[..|forwards| - 1]),
                  [flag, ForwardSpec.Print(forwards[|forwards| - 1])]);
    }
  }

  /** The arguments of the ssh master that holds the port forwards. */
  function MasterArgs(s: SessionOptions, host: string, controlPath: string): seq<string> {
    ["-N"] + (MasterPairs(controlPath) + s.connOpts + s.forwards) + [host]
  }

  function MasterPairs(controlPath: string): seq<string> {
    ["-o", "ExitOnForwardFailure=yes"] + ["-o", "ControlMaster=yes"]
    + ["-o", "ControlPath=" + controlPath] + ["-o", "ControlPersist=no"]
  }

  /** The master connects to the same host, whatever forwards and paths precede it. */
  lemma MasterFindsHost(o: Options, controlPath: string)
    ensures var args := MasterArgs(NativeOptions(o), o.host, controlPath);
            HostIndex(args, SSHRole, 0) == Some(|args| - 1) <==> !HasPrefix(o.host, "-")
  {
    var fixed := MasterPairs(controlPath);
    var native := NativeOptions(o);
    var args, k := MasterArgs(native, o.host, controlPath), 1 + |fixed + native.connOpts + native.forwards|;
    ConnOptsArePairs(o);
    ForwardArgsArePairs("-L", o.localForwards);
    ForwardArgsArePairs("-R", o.remoteForwards);
    PairsConcat(ForwardArgs("-L", o.localForwards), ForwardArgs("-R", o.remoteForwards));
    PairsConcat(fixed, native.connOpts);
    PairsConcat(fixed + native.connOpts, native.forwards);
    assert args[1..k] == fixed + native.connOpts + native.forwards;
    LandsAfterPairs(args, 1, k);
    assert args[0] == "-N" && SSHRole("-N") == Flag;
    LandsThenScans(args, SSHRole, 0, k);
    assert args[k] == o.host && |args| == k + 1;
  }

  lemma MasterPairsRead(controlPath: string, flag: string)
    ensures ValuesOf(MasterPairs(controlPath), flag) ==
            if flag == "-o" then ["ExitOnForwardFailure=yes", "ControlMaster=yes",
                                  "ControlPath=" + controlPath, "ControlPersist=no"] else []
    ensures |MasterPairs(controlPath)| == 8
  {
    var a, b := ["-o", "ExitOnForwardFailure=yes"], ["-o", "ControlMaster=yes"];
    var c, d := ["-o", "ControlPath=" + controlPath], ["-o", "ControlPersist=no"];
    ValuesOfFour(a, b, c, d, flag);
    ValuesOfPair("-o", a[1], flag);
    ValuesOfPair("-o", b[1], flag);
    ValuesOfPair("-o", c[1], flag);
    ValuesOfPair("-o", d[1], flag);
  }

  lemma MasterValues(o: Options, controlPath: string, flag: string)
    ensures ValuesOf(MasterPairs(controlPath) + ConnOpts(o) + NativeOptions(o).forwards, flag) ==
            ValuesOf(MasterPairs(controlPath), flag) + ValuesOf(ConnOpts(o), flag)
            + ValuesOf(NativeOptions(o).forwards, flag)
  {
    ConnOptsArePairs(o);
    MasterPairsRead(controlPath, flag);
    ValuesOfConcat(MasterPairs(controlPath) + ConnOpts(o), NativeOptions(o).forwards, flag);
    ValuesOfConcat(MasterPairs(controlPath), ConnOpts(o), flag);
  }

  lemma ForwardsHoldNoOption(o: Options, flag: string)
    requires flag != "-L" && flag != "-R"
    ensures ValuesOf(NativeOptions(o).forwards, flag) == []
  {
    ForwardArgsEven("-L", o.localForwards);
    ValuesOfConcat(ForwardArgs("-L", o.localForwards), ForwardArgs("-R", o.remoteForwards), flag);
    ForwardArgsValues("-L", o.localForwards, flag);
    ForwardArgsValues("-R", o.remoteForwards, flag);
  }

  /** What the master reads between -N and the host: its own four settings ahead of the
      agent's, so that they win, and the session's options and forwards. */
  lemma MasterRead(o: Options, controlPath: string)
    ensures var pairs := MasterPairs(controlPath) + ConnOpts(o) + NativeOptions(o).forwards;
            && MasterArgs(NativeOptions(o), o.host, controlPath) == ["-N"] + pairs + [o.host]
            && ValuesOf(pairs, "-o") ==
               ["ExitOnForwardFailure=yes", "ControlMaster=yes", "ControlPath=" + controlPath, "ControlPersist=no"]
               + [if o.forwardAgent then "ForwardAgent=yes" else "ForwardAgent=no"]
            && ValuesOf(pairs, "-L") == Printed(o.localForwards)
            && ValuesOf(pairs, "-R") == Printed(o.remoteForwards)
  {
    ConnOptsRead(o, "-o");
    ConnOptsRead(o, "-L");
    ConnOptsRead(o, "-R");
    ForwardsRead(o);
    ForwardsHoldNoOption(o, "-o");
    MasterPairsRead(controlPath, "-o");
    MasterPairsRead(controlPath, "-L");
    MasterPairsRead(controlPath, "-R");
    MasterValues(o, controlPath, "-o");
    MasterValues(o, controlPath, "-L");
    MasterValues(o, controlPath, "-R");
  }

  function ExpectedIndex(o: Options): nat {
    if o.transport == Mosh then 0 else |ConnOpts(o)|
  }

  /** The session finds its host at the place where the options put it, whatever
      the paths and the command are, exactly when the host is no option. */
  lemma HostIsFound(o: Options)
    ensures SessionHostIndex(NativeOptions(o)) == Some(ExpectedIndex(o)) <==> !HasPrefix(o.host, "-")
    ensures NativeOptions(o).args[ExpectedIndex(o)] == o.host
  {
    if o.transport != Mosh {
      var args := NativeOptions(o).args;
      var k := |ConnOpts(o)|;
      ConnOptsArePairs(o);
      assert args[0..k] == ConnOpts(o);
      LandsAfterPairs(args, 0, k);
      LandsThenScans(args, SSHRole, 0, k);
      assert args[k] == o.host;
    }
  }

  /** The terminal ssh client's arguments. */
  function SSHClientArgs(s: SessionOptions, controlPath: string, env: Environment, terminal: bool)
    : Option<seq<string>>
  {
    match WithRemoteEnvSSH(s.args, env)
    case None => None
    case Some((args, interactive)) =>
      Some(["-o", "ControlPath=" + controlPath] + ((if interactive && terminal then ["-t"] else []) + args))
  }

  /** What the ssh client puts before the session's own options. */
  function SSHFront(o: Options, controlPath: string, terminal: bool): seq<string> {
    ["-o", "ControlPath=" + controlPath] + (if o.command == [] && terminal then ["-t"] else [])
  }

  lemma SSHClientArgsShape(o: Options, controlPath: string, env: Environment, terminal: bool)
    requires o.transport != Mosh && !HasPrefix(o.host, "-")
    ensures SSHClientArgs(NativeOptions(o), controlPath, env, terminal) ==
            Some(SSHFront(o, controlPath, terminal) + ConnOpts(o) + [o.host, SSHCommand(o.command, env).0])
  {
    SSHWrapsCommand(o, env);
    ConcatShape(["-o", "ControlPath=" + controlPath], if o.command == [] && terminal then ["-t"] else [],
                ConnOpts(o), [o.host, SSHCommand(o.command, env).0]);
  }

  lemma ConcatShape(a: seq<string>, b: seq<string>, c: seq<string>, d: seq<string>)
    ensures a + (b + (c + d)) == a + b + c + d
  {
  }

  /** The ssh client gets the control path first, finds the same host and runs one
      command: the exports followed by the user's words. */
  lemma SSHClientRunsOnHost(o: Options, controlPath: string, env: Environment, terminal: bool)
    requires o.transport != Mosh && !HasPrefix(o.host, "-")
    ensures var args := SSHClientArgs(NativeOptions(o), controlPath, env, terminal);
            && args.Some? && |args.value| > 2 && args.value[..2] == ["-o", "ControlPath=" + controlPath]
            && (args.value[2] == "-t" <==> o.command == [] && terminal)
            && SplitSSH(args.value) ==
               Some((SSHFront(o, controlPath, terminal) + ConnOpts(o) + [o.host], [SSHCommand(o.command, env).0]))
  {
    SSHClientArgsShape(o, controlPath, env, terminal);
    ConnOptsArePairs(o);
    HostAfterFront(SSHFront(o, controlPath, terminal), ConnOpts(o), o.host, SSHCommand(o.command, env).0);
  }

  lemma HostAfterFront(front: seq<string>, pairs: seq<string>, host: string, script: string)
    requires |front| == 2 || (|front| == 3 && front[2] == "-t")
    requires front[0] == "-o" && IsPairs(pairs) && !HasPrefix(host, "-")
    ensures SplitSSH(front + pairs + [host, script]) == Some((front + pairs + [host], [script]))
  {
    var args, m := front + pairs + [host, script], |front| + |pairs|;
    assert args[|front|..m] == pairs && args[0] == front[0];
    LandsAfterPairs(args, |front|, m);
    assert SSHRole("-o") == FlagWithValue && SSHRole("-t") == Flag;
    assert Lands(args, SSHRole, 2, m) by {
      if |front| == 3 {
        assert args[2] == "-t";
      }
    }
    assert args[m] == host;
    FoundGivesIndex(args, SSHRole, m);
    assert args[..m + 1] == front + pairs + [host] && args[m + 1..] == [script];
  }

  // The Mosh client.

  /** Puts the control path into the first --ssh option of the whole argv. */
  method WithMoshSSHControlPath(args: seq<string>, controlPath: string) returns (result: seq<string>)
    ensures result == MoshSSHControlPath(args, controlPath)
  {
    var opt := "-o ControlPath=" + controlPath;
    var out := args;
    for i := 0 to |out|
      invariant out == args
      invariant FirstSSHOption(args, i) == FirstSSHOption(args, 0)
    {
      var arg := out[i];
      if arg == "--ssh" && i + 1 < |out| {
        out := out[i + 1 := out[i + 1] + " " + opt];
        return out;
      }
      if HasPrefix(arg, "--ssh=") {
        out := out[i := "--ssh=" + arg[6..] + " " + opt];
        return out;
      }
    }
    return ["--ssh=ssh " + opt] + args;
  }

  predicate CarriesSSH(args: seq<string>, i: nat)
    requires i < |args|
  {
    (args[i] == "--ssh" && i + 1 < |args|) || HasPrefix(args[i], "--ssh=")
  }

  function FirstSSHOption(args: seq<string>, i: nat): (first: Option<nat>)
    ensures first.Some? ==> i <= first.value < |args| && CarriesSSH(args, first.value)
    decreases |args| - i
  {
    if i >= |args| then None
    else if CarriesSSH(args, i) then Some(i)
    else FirstSSHOption(args, i + 1)
  }

  function MoshSSHControlPath(args: seq<string>, controlPath: string): seq<string> {
    var opt := "-o ControlPath=" + controlPath;
    match FirstSSHOption(args, 0)
    case None => ["--ssh=ssh " + opt] + args
    case Some(i) =>
      if args[i] == "--ssh" && i + 1 < |args| then args[i + 1 := args[i + 1] + " " + opt]
      else args[i := "--ssh=" + args[i][6..] + " " + opt]
  }

  lemma {:induction false} FirstSSHOptionIs(args: seq<string>, i: nat, k: nat)
    requires i <= k <= |args| && forall j :: i <= j < k ==> !CarriesSSH(args, j)
    ensures FirstSSHOption(args, i) == if k == |args| then None
                                       else if CarriesSSH(args, k) then Some(k) else FirstSSHOption(args, k + 1)
    decreases k - i
  {
    if i < k {
      FirstSSHOptionIs(args, i + 1, k);
    }
  }

  /** On any argv: the first --ssh option gets the control path at the end of its value,
      which stands behind an equals sign or in the next argument, and an argv without
      the option gets one in front. Nothing else changes. */
  lemma ControlPathIsAppended(args: seq<string>, k: nat, controlPath: string)
    requires k <= |args| && forall j :: 0 <= j < k ==> args[j] != "--ssh" && !HasPrefix(args[j], "--ssh=")
    ensures var result := MoshSSHControlPath(args, controlPath);
            && (k == |args| ==> result == ["--ssh=ssh -o ControlPath=" + controlPath] + args)
            && (k + 1 < |args| && args[k] == "--ssh" ==>
                  result == args[k + 1 := args[k + 1] + " -o ControlPath=" + controlPath])
            && (k < |args| && HasPrefix(args[k], "--ssh=") ==>
                  result == args[k := args[k] + " -o ControlPath=" + controlPath])
  {
    FirstSSHOptionIs(args, 0, k);
    AppendedOption(controlPath);
    if k < |args| && HasPrefix(args[k], "--ssh=") {
      assert args[k] == "--ssh=" + args[k][6..];
      AppendedText("--ssh=", args[k][6..], controlPath);
    } else if k + 1 < |args| {
      AppendedText(args[k + 1], "", controlPath);
    }
  }

  lemma AppendedOption(controlPath: string)
    ensures "--ssh=ssh " + ("-o ControlPath=" + controlPath) == "--ssh=ssh -o ControlPath=" + controlPath
  {
    assert "--ssh=ssh " + "-o ControlPath=" == "--ssh=ssh -o ControlPath=";
  }

  lemma AppendedText(front: string, value: string, controlPath: string)
    ensures front + value + " " + ("-o ControlPath=" + controlPath) == front + value + " -o ControlPath=" + controlPath
    ensures front + " " + ("-o ControlPath=" + controlPath) == front + " -o ControlPath=" + controlPath
  {
    assert " " + "-o ControlPath=" == " -o ControlPath=";
  }

  /** The command that mosh uses for its bootstrap connection. */
  function BootstrapSSH(connOpts: seq<string>): string {
    "ssh -oForwardAgent=no " + Join(QuoteAll(connOpts), " ")
  }

  function MoshClientArgs(s: SessionOptions, controlPath: string, env: Environment): Option<seq<string>> {
    match WithRemoteEnvMosh(s.args, env)
    case None => None
    case Some(args) =>
      Some(MoshSSHControlPath(["--no-ssh-pty", "--ssh=" + BootstrapSSH(s.connOpts)] + args, controlPath))
  }

  method BuildMoshClientArgs(s: SessionOptions, controlPath: string, env: Environment)
    returns (result: Option<seq<string>>)
    ensures result == MoshClientArgs(s, controlPath, env)
  {
    var index := DestinationHostAt(s.args);
    if index.None? {
      return None;
    }
    var pre := s.args[..index.value];
    if |pre| > 0 && pre[|pre| - 1] == "--" {
      pre := pre[..|pre| - 1];
    }
    var wrapped := BuildMoshCommand(s.args[index.value + 1..], env);
    var clientArgs := pre + ["--", s.args[index.value]] + wrapped;
    var quoted: seq<string> := [];
    for i := 0 to |s.connOpts|
      invariant quoted == QuoteAll(s.connOpts)[..i]
    {
      quoted := quoted + [Quote(s.connOpts[i])];
    }
    assert quoted == QuoteAll(s.connOpts);
    clientArgs := ["--no-ssh-pty", "--ssh=ssh -oForwardAgent=no " + Join(quoted, " ")] + clientArgs;
    SSHOptionText(s.connOpts);
    var out := WithMoshSSHControlPath(clientArgs, controlPath);
    return Some(out);
  }

  lemma SSHOptionText(connOpts: seq<string>)
    ensures "--ssh=ssh -oForwardAgent=no " + Join(QuoteAll(connOpts), " ") == "--ssh=" + BootstrapSSH(connOpts)
  {
    assert "--ssh=ssh -oForwardAgent=no " == "--ssh=" + "ssh -oForwardAgent=no ";
  }

  function FinalSSHOption(connOpts: seq<string>, controlPath: string): string {
    BootstrapSSH(connOpts) + " " + ("-o ControlPath=" + controlPath)
  }

  lemma ControlPathGoesToIndexOne(value: string, rest: seq<string>, controlPath: string)
    ensures MoshSSHControlPath(["--no-ssh-pty", "--ssh=" + value] + rest, controlPath)
            == ["--no-ssh-pty", "--ssh=" + (value + " " + ("-o ControlPath=" + controlPath))] + rest
  {
    var option := "--ssh=" + value;
    var args := ["--no-ssh-pty", option] + rest;
    var opt := "-o ControlPath=" + controlPath;
    assert HasPrefix(option, "--ssh=") && option[6..] == value && option != "--ssh";
    assert args[0] == "--no-ssh-pty" && args[1] == option;
    assert !HasPrefix("--no-ssh-pty", "--ssh=") by {
      assert "--no-ssh-pty"[2] == 'n' && "--ssh="[2] == 's';
    }
    assert FirstSSHOption(args, 0) == FirstSSHOption(args, 1) == Some(1);
    assert "--ssh=" + value + " " + opt == "--ssh=" + (value + " " + opt);
  }

  /** The control path changes only the --ssh option at index one. Everything
      after it, including a user command that mentions --ssh, stays as wrapped,
      and mosh still finds the same host and command. */
  lemma MoshClientKeepsCommand(s: SessionOptions, controlPath: string, env: Environment)
    requires SplitMosh(s.args).Some?
    ensures var parts := SplitMosh(s.args).value;
            var args := MoshClientArgs(s, controlPath, env);
            && args.Some?
            && args.value == ["--no-ssh-pty", "--ssh=" + FinalSSHOption(s.connOpts, controlPath)]
                             + WithRemoteEnvMosh(s.args, env).value
            && SplitMosh(args.value).Some?
            && SplitMosh(args.value).value.host == parts.host
            && SplitMosh(args.value).value.command == MoshCommand(parts.command, env)
  {
    var option := "--ssh=" + FinalSSHOption(s.connOpts, controlPath);
    ControlPathGoesToIndexOne(BootstrapSSH(s.connOpts), WithRemoteEnvMosh(s.args, env).value, controlPath);
    RebuildIsStable(s.args, env);
    LeadingMoshFlags(FinalSSHOption(s.connOpts, controlPath));
    SplitAfterFlags(["--no-ssh-pty", option], WithRemoteEnvMosh(s.args, env).value);
  }

  lemma LeadingMoshFlags(value: string)
    ensures MoshRole("--no-ssh-pty") == Flag
    ensures MoshRole("--ssh=" + value) == Flag && "--ssh=" + value != "--"
  {
    var option := "--ssh=" + value;
    assert option[5] == '=' && option[..2] == "--" && option[..1] == "-";
    assert "--no-ssh-pty"[..2] == "--" && "--no-ssh-pty"[..1] == "-";
  }

  /** Flags in front do not change which host and command are found. */
  lemma SplitAfterFlags(front: seq<string>, rest: seq<string>)
    requires |front| == 2 && front[0] != "--" && front[1] != "--"
    requires MoshRole(front[0]) == Flag && MoshRole(front[1]) == Flag
    requires SplitMosh(rest).Some?
    ensures SplitMosh(front + rest).Some?
    ensures SplitMosh(front + rest).value.host == SplitMosh(rest).value.host
    ensures SplitMosh(front + rest).value.command == SplitMosh(rest).value.command
  {
    var all, index := front + rest, HostIndex(rest, MoshRole, 0).value;
    assert all[0] == front[0] && all[1] == front[1];
    ShiftedScan(front, rest, 0);
    assert HostIndex(all, MoshRole, 0) == HostIndex(all, MoshRole, 1) == HostIndex(all, MoshRole, 2);
    assert all[index + 2] == rest[index] && all[index + 3..] == rest[index + 1..];
  }

  lemma {:induction false} ShiftedScan(front: seq<string>, rest: seq<string>, i: nat)
    ensures HostIndex(front + rest, MoshRole, |front| + i) ==
            match HostIndex(rest, MoshRole, i)
            case None => None
            case Some(index) => Some(|front| + index)
    decreases |rest| - i
  {
    if i < |rest| {
      assert (front + rest)[|front| + i] == rest[i];
      if rest[i] != "--" && MoshRole(rest[i]) != Host {
        ShiftedScan(front, rest, if MoshRole(rest[i]) == Flag then i + 1 else i + 2);
      }
    }
  }

  /** The --ssh option reads as ssh without agent forwarding, then the connection
      options, then the control path, exactly when the path needs no quoting. */
  lemma FinalSSHOptionReads(connOpts: seq<string>, controlPath: string)
    requires connOpts != []
    ensures Tokenize(FinalSSHOption(connOpts, controlPath)) ==
              Some(Words(["ssh", "-oForwardAgent=no"] + connOpts + ["-o", "ControlPath=" + controlPath]))
            <==> AllLiteral(controlPath)
  {
    var all := ["ssh", "-oForwardAgent=no"] + connOpts + ["-o"];
    var named := Scanner(Words(all), Some("ControlPath="), Bare);
    RunBootstrap(connOpts);
    var before := BootstrapSSH(connOpts) + " " + "-o ControlPath=";
    assert before + controlPath == FinalSSHOption(connOpts, controlPath);
    RunConcat(START, before, controlPath);
    AppendedExactly(named, controlPath);
    assert Words(all) + [Word("ControlPath=" + controlPath)]
        == Words(["ssh", "-oForwardAgent=no"] + connOpts + ["-o", "ControlPath=" + controlPath]);
  }

  lemma FixedOptionsArePlain()
    ensures IsPlainWord("ssh") && IsPlainWord("-oForwardAgent=no") && IsPlainWord("-o") && IsPlainWord("ControlPath=")
  {
  }

  lemma RunFlagAndName(scanner: Scanner, flag: string, name: string)
    requires scanner.mode == Bare && scanner.word.None? && IsPlainWord(flag) && IsPlainWord(name)
    ensures scanner.Run(flag + " " + name) == Scanner(scanner.tokens + [Word(flag)], Some(name), Bare)
  {
    RunWord(scanner, flag);
    RunConcat(scanner, flag + " ", name);
    RunLiteral(scanner.(tokens := scanner.tokens + [Word(flag)]), name);
    assert "" + name == name;
  }

  /** Plain words, then quoted ones, then a plain word and the beginning of another. */
  lemma RunMixed(fixed: seq<string>, quoted: seq<string>, flag: string, name: string)
    requires forall i :: 0 <= i < |fixed| ==> IsPlainWord(fixed[i])
    requires quoted != [] && IsPlainWord(flag) && IsPlainWord(name)
    ensures START.Run(Spaced(fixed) + Join(QuoteAll(quoted), " ") + " " + (flag + " " + name)) ==
            Scanner(Words(fixed) + Words(quoted) + [Word(flag)], Some(name), Bare)
  {
    var text := Spaced(fixed) + Join(QuoteAll(quoted), " ");
    var before := START.Run(text);
    RunPlainThenQuoted(fixed, quoted);
    RunConcat(START, text, " ");
    RunOne(before, ' ');
    RunConcat(START, text + " ", flag + " " + name);
    RunFlagAndName(before.Flush(), flag, name);
  }

  lemma RunBootstrap(connOpts: seq<string>)
    requires connOpts != []
    ensures START.Run(BootstrapSSH(connOpts) + " " + "-o ControlPath=") ==
            Scanner(Words(["ssh", "-oForwardAgent=no"] + connOpts + ["-o"]), Some("ControlPath="), Bare)
  {
    FixedOptionsArePlain();
    FixedOptionTexts();
    var fixed := ["ssh", "-oForwardAgent=no"];
    RunMixed(fixed, connOpts, "-o", "ControlPath=");
    assert Words(fixed) + Words(connOpts) + [Word("-o")] == Words(fixed + connOpts + ["-o"]);
  }

  lemma FixedOptionTexts()
    ensures Spaced(["ssh", "-oForwardAgent=no"]) == "ssh -oForwardAgent=no "
    ensures "-o" + " " + "ControlPath=" == "-o ControlPath="
  {
    var rest := ["-oForwardAgent=no"];
    assert ["ssh", "-oForwardAgent=no"][1..] == rest;
    assert Spaced(rest) == "-oForwardAgent=no" + " " + Spaced(rest[1..]);
    SSHFlagText();
  }

  lemma SSHFlagText()
    ensures "ssh" + " " + ("-oForwardAgent=no" + " " + "") == "ssh -oForwardAgent=no "
  {
  }

  /** A temporary directory with a blank in its name is enough to break it. */
  lemma BlankBreaksSSHOption(connOpts: seq<string>)
    requires connOpts != []
    ensures var path := "/tmp/a b/control";
            Tokenize(FinalSSHOption(connOpts, path)) !=
              Some(Words(["ssh", "-oForwardAgent=no"] + connOpts + ["-o", "ControlPath=" + path]))
  {
    var path := "/tmp/a b/control";
    assert path[6] == ' ' && path[6] in path;
    FinalSSHOptionReads(connOpts, path);
  }

  // The same command under either transport.

  lemma SSHWrapsCommand(o: Options, env: Environment)
    requires o.transport != Mosh && !HasPrefix(o.host, "-")
    ensures WithRemoteEnvSSH(NativeOptions(o).args, env) ==
            Some((ConnOpts(o) + [o.host, SSHCommand(o.command, env).0], o.command == []))
  {
    HostIsFound(o);
    SplitAtHost(ConnOpts(o), o.host, o.command, SSHCommand(o.command, env).0);
  }

  lemma SplitAtHost(options: seq<string>, host: string, command: seq<string>, script: string)
    ensures var args := options + ([host] + command);
            && args[|options| + 1..] == command
            && args[..|options| + 1] + [script] == options + [host, script]
  {
  }

  /** What Mosh is given to wrap: a shell for the joined words, or nothing. */
  function MoshWords(command: seq<string>): seq<string> {
    if command == [] then [] else ["sh", "-c", Join(command, " ")]
  }

  lemma MoshWrapsCommand(o: Options, env: Environment)
    requires o.transport == Mosh && !HasPrefix(o.host, "-")
    ensures WithRemoteEnvMosh(NativeOptions(o).args, env) ==
            Some(["--", o.host, "sh", "-c", MoshScript(MoshWords(o.command), env)]
                 + if o.command == [] then [] else ["sh", "sh", "-c", Join(o.command, " ")])
  {
    var args, words := NativeOptions(o).args, MoshWords(o.command);
    HostIsFound(o);
    assert args == [o.host] + words;
    assert args[..0] == [] && args[1..] == words;
    assert DropSeparator(args[..0]) == [];
    RebuiltMosh(o.host, MoshScript(words, env), words);
    assert words == [] <==> o.command == [];
    assert o.command != [] ==> ["sh"] + words == ["sh", "sh", "-c", Join(o.command, " ")];
  }

  lemma RebuiltMosh(host: string, script: string, command: seq<string>)
    ensures Rebuild(Parts([], host, ["sh", "-c", script] + (if command == [] then [] else ["sh"] + command)))
            == ["--", host, "sh", "-c", script] + (if command == [] then [] else ["sh"] + command)
  {
  }

  /** What both wrappers execute for a non-empty command: under ssh the exports
      and the joined words form one line, and under mosh the script exports the
      same text and then runs sh -c with the same joined words. */
  lemma SameCommandUnderBothTransports(o: Options, env: Environment)
    requires o.command != [] && !HasPrefix(o.host, "-")
    ensures var joined := Join(o.command, " ");
            var ssh := WithRemoteEnvSSH(NativeOptions(o.(transport := SSH)).args, env);
            var mosh := WithRemoteEnvMosh(NativeOptions(o.(transport := Mosh)).args, env);
            && ssh == Some((ConnOpts(o) + [o.host, EnvPrefix(env) + joined], false))
            && mosh.Some? && |mosh.value| == 9
            && HasPrefix(mosh.value[4], EnvPrefix(env))
            && mosh.value == ["--", o.host, "sh", "-c", mosh.value[4], "sh", "sh", "-c", joined]
  {
    SSHWrapsCommand(o.(transport := SSH), env);
    MoshWrapsCommand(o.(transport := Mosh), env);
    assert ConnOpts(o.(transport := SSH)) == ConnOpts(o);
    assert HasPrefix(MoshScript(["sh", "-c", Join(o.command, " ")], env), EnvPrefix(env));
  }

  // Commands prepared for other programs to run.

  method WrappedCommand(s: SessionOptions, command: string, env: Environment) returns (result: Option<string>)
    ensures result == Wrapped(s, command, env)
  {
    if s.mode == Mosh {
      var wrapped := BuildMoshCommand(["sh", "-c", command], env.(agentSocket := ""));
      var tail := wrapped[3..];
      var quoted: seq<string> := [];
      for i := 0 to |tail|
        invariant quoted == QuoteAll(tail)[..i]
      {
        quoted := quoted + [Quote(tail[i])];
      }
      assert quoted == QuoteAll(tail);
      return Some("sh -c " + Quote(wrapped[2]) + " " + Join(quoted, " "));
    }
    var index := SSHHostIndex(s.args + ["true"]);
    if index.None? {
      return None;
    }
    var args := (s.args + ["true"])[..index.value + 1] + [command];
    index := SSHHostIndex(args);
    if index.None? {
      return None;
    }
    return Some(SSHCommand(args[index.value + 1..], env).0);
  }

  function Wrapped(s: SessionOptions, command: string, env: Environment): Option<string> {
    if s.mode == Mosh then
      var wrapped := MoshCommand(["sh", "-c", command], env.(agentSocket := ""));
      Some("sh -c " + Quote(wrapped[2]) + " " + Join(QuoteAll(wrapped[3..]), " "))
    else match SplitSSH(s.args + ["true"])
      case None => None
      case Some((head, _)) =>
        match SplitSSH(head + [command])
        case None => None
        case Some((_, rest)) => Some(SSHCommand(rest, env).0)
  }

  /** The Mosh form is a shell line that reads as the argv mosh-server would run. */
  lemma WrappedMoshReads(s: SessionOptions, command: string, env: Environment)
    requires s.mode == Mosh
    ensures Wrapped(s, command, env).Some?
    ensures Tokenize(Wrapped(s, command, env).value)
            == Some(Words(MoshCommand(["sh", "-c", command], env.(agentSocket := ""))))
  {
    var argv := MoshCommand(["sh", "-c", command], env.(agentSocket := ""));
    var fixed := ["sh", "-c"];
    ShellFlagText();
    RunPlainThenQuoted(fixed, argv[2..]);
    QuotedTail(argv);
    assert "sh -c " + (Quote(argv[2]) + " " + Join(QuoteAll(argv[3..]), " ")) == Wrapped(s, command, env).value;
    assert Words(fixed) + Words(argv[2..]) == Words(argv);
  }

  lemma QuotedTail(argv: seq<string>)
    requires |argv| > 3
    ensures Join(QuoteAll(argv[2..]), " ") == Quote(argv[2]) + " " + Join(QuoteAll(argv[3..]), " ")
  {
    assert QuoteAll(argv[2..])[1..] == QuoteAll(argv[3..]);
  }

  lemma ShellFlagText()
    ensures Spaced(["sh", "-c"]) == "sh -c " && IsPlainWord("sh") && IsPlainWord("-c")
  {
    var rest := ["-c"];
    assert ["sh", "-c"][1..] == rest;
    assert Spaced(rest) == "-c" + " " + Spaced(rest[1..]);
  }

  /** The ssh form is the exports and the command, whatever the options are. */
  lemma WrappedSSHReads(o: Options, command: string, env: Environment)
    requires o.transport != Mosh && !HasPrefix(o.host, "-")
    ensures Wrapped(NativeOptions(o), command, env) == Some(EnvPrefix(env) + command)
  {
    HostIsFound(o);
    var args := NativeOptions(o).args;
    var k := |ConnOpts(o)|;
    HostFromHead(args, args + ["true"], SSHRole, k);
    var head := (args + ["true"])[..k + 1];
    assert head == args[..k + 1];
    HostFromHead(args, head + [command], SSHRole, k);
    assert (head + [command])[k + 1..] == [command];
    assert Join([command], " ") == command;
  }
}
