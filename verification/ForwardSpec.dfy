/** Port-forward specifications: the bracket-aware splitter, the shorthand parser
    and the canonical printer (internal/command/cli_values.go and Forward.String
    in internal/session/session_options.go). */
module ForwardSpec {
  import opened Text

  datatype SplitError = UnexpectedOpen | UnexpectedClose | MissingClose

  datatype HostError = InvalidBracketed | NotIPv6 | InvalidHost

  datatype PortError = NotDecimal | OutOfRange

  datatype ForwardError =
    | BadSplit(split: SplitError)
    | BadBindAddress(bind: HostError)
    | BadListenPort(listen: PortError)
    | BadDestinationHost(host: HostError)
    | BadDestinationPort(port: PortError)
    | TooManyComponents

  // Splitting at the colons outside brackets.

  /** The finished fields, the text of the current one, and whether a bracket is
      open in it. */
  datatype Splitter = Splitter(fields: seq<string>, field: string, bracketed: bool) {

    function Step(c: char): Result<Splitter, SplitError> {
      if c == '[' then
        if bracketed || field != "" then Err(UnexpectedOpen)
        else Ok(Splitter(fields, field + [c], true))
      else if c == ']' then
        if !bracketed then Err(UnexpectedClose)
        else Ok(Splitter(fields, field + [c], false))
      else if c == ':' && !bracketed then Ok(Splitter(fields + [field], "", false))
      else Ok(Splitter(fields, field + [c], bracketed))
    }

    function Run(s: string): Result<Splitter, SplitError>
      decreases |s|
    {
      if s == "" then Ok(this)
      else
        match Step(s[0])
        case Err(e) => Err(e)
        case Ok(next) => next.Run(s[1..])
    }
  }

  function Close(scanned: Result<Splitter, SplitError>): Result<seq<string>, SplitError> {
    match scanned
    case Err(e) => Err(e)
    case Ok(last) => if last.bracketed then Err(MissingClose) else Ok(last.fields + [last.field])
  }

  function Split(value: string): (result: Result<seq<string>, SplitError>)
    ensures result.Ok? ==> result.value != []
  {
    Close(Splitter([], "", false).Run(value))
  }

  method ForwardFields(value: string) returns (result: Result<seq<string>, SplitError>)
    ensures result == Split(value)
  {
    var fields: seq<string> := [];
    var start, bracketed := 0, false;
    for i := 0 to |value|
      invariant 0 <= start <= i
      invariant Splitter(fields, value[start..i], bracketed).Run(value[i..]) == Splitter([], "", false).Run(value)
    {
      ghost var before := Splitter(fields, value[start..i], bracketed);
      assert value[i..][0] == value[i] && value[i..][1..] == value[i + 1..];
      assert value[start..i + 1] == value[start..i] + [value[i]];
      assert |value[start..i]| == i - start;
      if value[i] == '[' {
        if bracketed || i != start {
          return Err(UnexpectedOpen);
        }
        bracketed := true;
      } else if value[i] == ']' {
        if !bracketed {
          return Err(UnexpectedClose);
        }
        bracketed := false;
      } else if value[i] == ':' {
        if !bracketed {
          fields := fields + [value[start..i]];
          start := i + 1;
          assert value[start..i + 1] == "";
        }
      }
      assert before.Step(value[i]) == Ok(Splitter(fields, value[start..i + 1], bracketed));
    }
    assert value[start..|value|] == value[start..];
    if bracketed {
      return Err(MissingClose);
    }
    return Ok(fields + [value[start..]]);
  }

  // What the splitter accepts, without reference to how it scans.

  predicate NoBrackets(s: string) { '[' !in s && ']' !in s }

  /** A field: brackets may enclose its beginning, and colons occur only inside
      them. */
  ghost predicate IsField(field: string) {
    IsUnbracketed(field) || exists inner, after :: IsBracketed(field, inner, after)
  }

  predicate IsUnbracketed(field: string) { NoBrackets(field) && ':' !in field }

  predicate IsBracketed(field: string, inner: string, after: string) {
    field == "[" + inner + "]" + after && NoBrackets(inner) && IsUnbracketed(after)
  }

  predicate IsOpen(field: string, inner: string) { field == "[" + inner && NoBrackets(inner) }

  ghost predicate AreFields(fields: seq<string>) {
    forall i :: 0 <= i < |fields| ==> IsField(fields[i])
  }

  lemma {:induction false} RunConcat(splitter: Splitter, a: string, b: string)
    ensures splitter.Run(a + b) ==
            match splitter.Run(a)
            case Err(e) => Err(e)
            case Ok(next) => next.Run(b)
    decreases |a|
  {
    if a == "" {
      assert a + b == b;
    } else {
      assert (a + b)[1..] == a[1..] + b;
      if splitter.Step(a[0]).Ok? {
        RunConcat(splitter.Step(a[0]).value, a[1..], b);
      }
    }
  }

  lemma RunOne(splitter: Splitter, c: char)
    ensures splitter.Run([c]) == splitter.Step(c)
  {
    assert [c][1..] == "";
  }

  lemma {:induction false} RunText(splitter: Splitter, s: string)
    requires NoBrackets(s) && (splitter.bracketed || ':' !in s)
    ensures splitter.Run(s) == Ok(splitter.(field := splitter.field + s))
    decreases |s|
  {
    if s == "" {
      assert splitter.field + s == splitter.field;
    } else {
      assert s[0] in s;
      RunText(splitter.(field := splitter.field + [s[0]]), s[1..]);
      assert splitter.field + [s[0]] + s[1..] == splitter.field + s;
    }
  }

  lemma RunField(fields: seq<string>, field: string)
    requires IsField(field)
    ensures Splitter(fields, "", false).Run(field) == Ok(Splitter(fields, field, false))
  {
    var before := Splitter(fields, "", false);
    if IsUnbracketed(field) {
      RunText(before, field);
      assert "" + field == field;
    } else {
      var inner, after :| IsBracketed(field, inner, after);
      RunConcat(before, "[" + inner + "]", after);
      RunConcat(before, "[" + inner, "]");
      RunConcat(before, "[", inner);
      RunOne(before, '[');
      assert "" + ['['] == "[";
      RunText(Splitter(fields, "[", true), inner);
      RunOne(Splitter(fields, "[" + inner, true), ']');
      RunText(Splitter(fields, "[" + inner + "]", false), after);
    }
  }

  lemma {:induction false} RunFields(done: seq<string>, fields: seq<string>)
    requires fields != [] && AreFields(fields)
    ensures Close(Splitter(done, "", false).Run(Join(fields, ":"))) == Ok(done + fields)
    decreases |fields|
  {
    var before := Splitter(done, "", false);
    RunField(done, fields[0]);
    if |fields| == 1 {
      assert done + [fields[0]] == done + fields;
    } else {
      var rest := Join(fields[1..], ":");
      assert AreFields(fields[1..]);
      RunConcat(before, fields[0] + ":", rest);
      RunConcat(before, fields[0], ":");
      RunOne(Splitter(done, fields[0], false), ':');
      RunFields(done + [fields[0]], fields[1..]);
      assert done + [fields[0]] + fields[1..] == done + fields;
    }
  }

  /** The text scanned so far, and the shape of the field being read. */
  ghost predicate Scanned(splitter: Splitter, text: string) {
    && AreFields(splitter.fields)
    && text == Join(splitter.fields + [splitter.field], ":")
    && if splitter.bracketed then exists inner :: IsOpen(splitter.field, inner)
       else IsField(splitter.field)
  }

  lemma StepScans(splitter: Splitter, text: string, c: char)
    requires Scanned(splitter, text) && splitter.Step(c).Ok?
    ensures Scanned(splitter.Step(c).value, text + [c])
  {
    var next := splitter.Step(c).value;
    JoinLast(splitter.fields, splitter.field, [c]);
    if splitter.bracketed {
      var inner :| IsOpen(splitter.field, inner);
      if c == ']' {
        assert IsBracketed(next.field, inner, "");
      } else {
        assert IsOpen(next.field, inner + [c]);
      }
    } else if c == '[' {
      assert IsOpen(next.field, "");
    } else if c == ':' {
      JoinSnoc(splitter.fields + [splitter.field], "", ":");
      assert text + ":" + "" == text + [c];
    } else if !IsUnbracketed(splitter.field) {
      var inner, after :| IsBracketed(splitter.field, inner, after);
      assert next.field == "[" + inner + "]" + (after + [c]);
      assert IsBracketed(next.field, inner, after + [c]);
    }
  }

  lemma {:induction false} JoinLast(fields: seq<string>, field: string, more: string)
    ensures Join(fields + [field + more], ":") == Join(fields + [field], ":") + more
  {
    if fields != [] {
      JoinSnoc(fields, field, ":");
      JoinSnoc(fields, field + more, ":");
    }
  }

  lemma {:induction false} RunScans(splitter: Splitter, text: string, s: string)
    requires Scanned(splitter, text) && splitter.Run(s).Ok?
    ensures Scanned(splitter.Run(s).value, text + s)
    decreases |s|
  {
    if s == "" {
      assert text + s == text;
    } else {
      StepScans(splitter, text, s[0]);
      RunScans(splitter.Step(s[0]).value, text + [s[0]], s[1..]);
      assert text + [s[0]] + s[1..] == text + s;
    }
  }

  /** Splitting succeeds exactly on joined fields and then returns the only list
      of fields that joins to the input. */
  lemma SplitExactly(value: string, fields: seq<string>)
    ensures Split(value) == Ok(fields) <==> fields != [] && AreFields(fields) && Join(fields, ":") == value
  {
    var start := Splitter([], "", false);
    if Split(value) == Ok(fields) {
      assert Scanned(start, "");
      RunScans(start, "", value);
      assert "" + value == value;
    }
    if fields != [] && AreFields(fields) && Join(fields, ":") == value {
      RunFields([], fields);
      assert [] + fields == fields;
    }
  }

  // Hosts and ports.

  predicate BadHostChar(c: char) { c in "[]:/, \t\r\n" }

  /** IPv6 text, as section 2.2 of RFC 4291 allows it, always holds a colon. */
  ghost predicate NeedsColon(isIPv6: string -> bool) {
    forall s {:trigger isIPv6(s)} :: isIPv6(s) ==> ':' in s
  }

  function ForwardHost(isIPv6: string -> bool, value: string): Result<string, HostError> {
    if value == "" then Ok("localhost")
    else if value[0] == '[' then
      if value[|value| - 1] != ']' then Err(InvalidBracketed)
      else if !isIPv6(value[1..|value| - 1]) then Err(NotIPv6)
      else Ok(value[1..|value| - 1])
    else if exists i :: 0 <= i < |value| && BadHostChar(value[i]) then Err(InvalidHost)
    else Ok(value)
  }

  /** The accepted hosts: nothing for localhost, bracketed IPv6 text, or any text without
      the separators and brackets of the notation. */
  lemma HostExactly(isIPv6: string -> bool, value: string, host: string)
    ensures ForwardHost(isIPv6, value) == Ok(host) <==>
            || (value == "" && host == "localhost")
            || (value == "[" + host + "]" && isIPv6(host))
            || (value == host && value != "" && forall c :: c in "[]:/, \t\r\n" ==> c !in value)
  {
    if value != "" && value[0] == '[' {
      assert value[0] in value && '[' in "[]:/, \t\r\n";
      if |value| >= 2 && value[|value| - 1] == ']' {
        assert value == "[" + value[1..|value| - 1] + "]";
      }
      if value == "[" + host + "]" {
        assert value[1..|value| - 1] == host;
      }
    } else {
      assert ("[" + host + "]")[0] == '[';
    }
  }

  /** tcpPort.Set. */
  function ParsePort(value: string): (result: Result<nat, PortError>)
    ensures result.Ok? ==> 1 <= result.value <= 65535
  {
    if !IsDecimal(value) then Err(NotDecimal)
    else
      var n := ParseDecimal(value);
      if 1 <= n <= 65535 then Ok(n) else Err(OutOfRange)
  }

  /** The accepted ports are exactly the numbers from 1 to 65535, each written in
      decimal with any number of zeros in front. */
  lemma PortExactly(value: string, n: nat)
    ensures ParsePort(value) == Ok(n) <==> 1 <= n <= 65535 && exists k :: value == Zeros(k) + Itoa(n)
    ensures ParsePort(value) == Err(NotDecimal) <==> !IsDecimal(value)
  {
    NumeralsOf(value, n);
  }

  datatype Forward = Forward(bindAddress: string, listenPort: nat, host: string, port: nat)

  /** The part after the listen port: destination host, destination port, or both. */
  function Destination(isIPv6: string -> bool, fields: seq<string>, forward: Forward): Result<Forward, ForwardError>
    requires fields != []
  {
    if |fields| == 1 then Ok(forward)
    else if |fields| == 2 && IsDecimal(fields[1]) then DestinationPort(fields[1], forward)
    else if |fields| <= 3 then
      match ForwardHost(isIPv6, fields[1])
      case Err(e) => Err(BadDestinationHost(e))
      case Ok(host) =>
        var forward := forward.(host := host);
        if |fields| == 3 && fields[2] != "" then DestinationPort(fields[2], forward) else Ok(forward)
    else Err(TooManyComponents)
  }

  function DestinationPort(value: string, forward: Forward): Result<Forward, ForwardError> {
    match ParsePort(value)
    case Err(e) => Err(BadDestinationPort(e))
    case Ok(port) => Ok(forward.(port := port))
  }

  function ListenAndDestination(isIPv6: string -> bool, fields: seq<string>, bindAddress: string)
    : Result<Forward, ForwardError>
    requires fields != []
  {
    match ParsePort(fields[0])
    case Err(e) => Err(BadListenPort(e))
    case Ok(listenPort) => Destination(isIPv6, fields, Forward(bindAddress, listenPort, "localhost", listenPort))
  }

  function ParseFields(isIPv6: string -> bool, fields: seq<string>): Result<Forward, ForwardError>
    requires fields != []
  {
    if |fields| > 1 && !IsDecimal(fields[0]) then
      match ForwardHost(isIPv6, fields[0])
      case Err(e) => Err(BadBindAddress(e))
      case Ok(bindAddress) => ListenAndDestination(isIPv6, fields[1..], bindAddress)
    else ListenAndDestination(isIPv6, fields, "localhost")
  }

  function Parse(isIPv6: string -> bool, value: string): Result<Forward, ForwardError> {
    match Split(value)
    case Err(e) => Err(BadSplit(e))
    case Ok(fields) => ParseFields(isIPv6, fields)
  }

  // Printing.

  /** The host part of net.JoinHostPort. */
  function HostText(host: string): string {
    if ':' in host then "[" + host + "]" else host
  }

  function Print(forward: Forward): string {
    (HostText(forward.bindAddress) + ":" + Itoa(forward.listenPort)) + ":" +
    (HostText(forward.host) + ":" + Itoa(forward.port))
  }

  /** The forwards that can be written down. */
  ghost predicate ValidHost(isIPv6: string -> bool, host: string) {
    if ':' in host then isIPv6(host) && NoBrackets(host)
    else host != "" && forall i :: 0 <= i < |host| ==> !BadHostChar(host[i])
  }

  ghost predicate ValidForward(isIPv6: string -> bool, forward: Forward) {
    && ValidHost(isIPv6, forward.bindAddress) && !IsDecimal(forward.bindAddress)
    && ValidHost(isIPv6, forward.host)
    && 1 <= forward.listenPort <= 65535
    && 1 <= forward.port <= 65535
  }

  function PrintedFields(forward: Forward): seq<string> {
    [HostText(forward.bindAddress), Itoa(forward.listenPort), HostText(forward.host), Itoa(forward.port)]
  }

  lemma PlainIsField(s: string)
    requires forall i :: 0 <= i < |s| ==> !BadHostChar(s[i])
    ensures IsField(s)
  {
    assert NoBrackets(s) && ':' !in s;
  }

  lemma DecimalIsField(s: string)
    requires IsDecimal(s)
    ensures IsField(s)
  {
    PlainIsField(s);
  }

  lemma HostTextIsField(isIPv6: string -> bool, host: string)
    requires ValidHost(isIPv6, host)
    ensures IsField(HostText(host))
  {
    if ':' in host {
      assert IsBracketed(HostText(host), host, "");
    } else {
      PlainIsField(host);
    }
  }

  /** The printed text splits into the four printed parts. */
  lemma SplitOfPrint(isIPv6: string -> bool, forward: Forward)
    requires ValidForward(isIPv6, forward)
    ensures Split(Print(forward)) == Ok(PrintedFields(forward))
  {
    var fields := PrintedFields(forward);
    HostTextIsField(isIPv6, forward.bindAddress);
    HostTextIsField(isIPv6, forward.host);
    DecimalIsField(Itoa(forward.listenPort));
    DecimalIsField(Itoa(forward.port));
    JoinFour(fields[0], fields[1], fields[2], fields[3]);
    SplitExactly(Print(forward), fields);
  }

  lemma JoinFour(a: string, b: string, c: string, d: string)
    ensures Join([a, b, c, d], ":") == (a + ":" + b) + ":" + (c + ":" + d)
  {
    assert [a, b, c, d][1..] == [b, c, d];
    assert [b, c, d][1..] == [c, d];
    assert [c, d][1..] == [d];
    assert Join([c, d], ":") == c + ":" + d;
    assert Join([b, c, d], ":") == b + ":" + (c + ":" + d);
    assert (a + ":" + b) + ":" + (c + ":" + d) == a + ":" + (b + ":" + (c + ":" + d));
  }

  /** The text that ssh is given, for any forward: the two addresses with their decimal
      ports, and brackets around exactly the addresses that hold a colon. */
  lemma PrintedText(forward: Forward)
    ensures Print(forward) ==
            (if ':' in forward.bindAddress then "[" + forward.bindAddress + "]" else forward.bindAddress)
            + ":" + Itoa(forward.listenPort) + ":"
            + (if ':' in forward.host then "[" + forward.host + "]" else forward.host)
            + ":" + Itoa(forward.port)
  {
    var a, b := HostText(forward.bindAddress), Itoa(forward.listenPort);
    var c, d := HostText(forward.host), Itoa(forward.port);
    assert (a + ":" + b) + ":" + (c + ":" + d) == a + ":" + b + ":" + c + ":" + d;
  }

  /** It splits into four fields that are not empty: each address itself, bracketed if it
      holds a colon, followed by its decimal port. */
  lemma PrintedFourFields(isIPv6: string -> bool, forward: Forward)
    requires ValidForward(isIPv6, forward)
    ensures var first := if ':' in forward.bindAddress then "[" + forward.bindAddress + "]" else forward.bindAddress;
            var third := if ':' in forward.host then "[" + forward.host + "]" else forward.host;
            && Split(Print(forward)) == Ok([first, Itoa(forward.listenPort), third, Itoa(forward.port)])
            && first != "" && third != "" && Itoa(forward.listenPort) != "" && Itoa(forward.port) != ""
  {
    SplitOfPrint(isIPv6, forward);
  }

  lemma HostOfHostText(isIPv6: string -> bool, host: string)
    requires ValidHost(isIPv6, host)
    ensures ForwardHost(isIPv6, HostText(host)) == Ok(host)
  {
    if ':' in host {
      var text := HostText(host);
      assert text[1..|text| - 1] == host;
    } else {
      assert BadHostChar('[');
    }
  }

  lemma PortOfItoa(n: nat)
    requires 1 <= n <= 65535
    ensures ParsePort(Itoa(n)) == Ok(n)
  {
    ParseOfItoa(n);
  }

  /** Every valid forward is read back from its printed form. */
  lemma ParseOfPrint(isIPv6: string -> bool, forward: Forward)
    requires ValidForward(isIPv6, forward)
    ensures Parse(isIPv6, Print(forward)) == Ok(forward)
  {
    SplitOfPrint(isIPv6, forward);
    HostOfHostText(isIPv6, forward.bindAddress);
    HostOfHostText(isIPv6, forward.host);
    PortOfItoa(forward.listenPort);
    PortOfItoa(forward.port);
    var fields := PrintedFields(forward);
    assert !IsDecimal(fields[0]) by {
      if ':' in forward.bindAddress {
        assert !IsDigit(fields[0][0]);
      }
    }
    assert fields[1..] == [fields[1], fields[2], fields[3]];
  }

  lemma AcceptedHostIsValid(isIPv6: string -> bool, field: string)
    requires NeedsColon(isIPv6) && IsField(field) && ForwardHost(isIPv6, field).Ok?
    ensures ValidHost(isIPv6, ForwardHost(isIPv6, field).value)
    ensures !IsDecimal(field) ==> !IsDecimal(ForwardHost(isIPv6, field).value)
  {
    var host := ForwardHost(isIPv6, field).value;
    if field == "" {
      assert host == "localhost";
      assert !IsDigit(host[0]);
      assert forall i :: 0 <= i < |host| ==> !BadHostChar(host[i]);
    } else if field[0] == '[' {
      assert ':' in host;
      var i :| 0 <= i < |host| && host[i] == ':';
      assert !IsDigit(host[i]);
      BracketedField(field);
    } else {
      assert ':' in host ==> BadHostChar(':');
    }
  }

  lemma BracketedField(field: string)
    requires IsField(field) && |field| >= 2 && field[0] == '[' && field[|field| - 1] == ']'
    ensures NoBrackets(field[1..|field| - 1])
  {
    var inner, after :| IsBracketed(field, inner, after);
    var last := field[|field| - 1];
    assert |after| > 0 ==> last in after;
    assert field[1..|field| - 1] == inner;
  }

  lemma AcceptedIsValid(isIPv6: string -> bool, value: string)
    requires NeedsColon(isIPv6) && Parse(isIPv6, value).Ok?
    ensures ValidForward(isIPv6, Parse(isIPv6, value).value)
  {
    var fields := Split(value).value;
    SplitExactly(value, fields);
    LocalhostIsValid(isIPv6);
    if |fields| > 1 && !IsDecimal(fields[0]) {
      AcceptedHostIsValid(isIPv6, fields[0]);
      var bindAddress := ForwardHost(isIPv6, fields[0]).value;
      assert AreFields(fields[1..]);
      AcceptedTailIsValid(isIPv6, fields[1..], bindAddress);
    } else {
      AcceptedTailIsValid(isIPv6, fields, "localhost");
    }
  }

  lemma LocalhostIsValid(isIPv6: string -> bool)
    ensures ValidHost(isIPv6, "localhost") && !IsDecimal("localhost")
  {
    assert !IsDigit("localhost"[0]);
  }

  lemma AcceptedTailIsValid(isIPv6: string -> bool, fields: seq<string>, bindAddress: string)
    requires NeedsColon(isIPv6) && fields != [] && AreFields(fields)
    requires ValidHost(isIPv6, bindAddress) && !IsDecimal(bindAddress)
    requires ListenAndDestination(isIPv6, fields, bindAddress).Ok?
    ensures ValidForward(isIPv6, ListenAndDestination(isIPv6, fields, bindAddress).value)
  {
    LocalhostIsValid(isIPv6);
    if 2 <= |fields| <= 3 && ForwardHost(isIPv6, fields[1]).Ok? {
      AcceptedHostIsValid(isIPv6, fields[1]);
    }
  }

  /** Printing what was parsed and parsing it again changes nothing. */
  lemma PrintIsCanonical(isIPv6: string -> bool, value: string)
    requires NeedsColon(isIPv6) && Parse(isIPv6, value).Ok?
    ensures Parse(isIPv6, Print(Parse(isIPv6, value).value)) == Parse(isIPv6, value)
  {
    AcceptedIsValid(isIPv6, value);
    ParseOfPrint(isIPv6, Parse(isIPv6, value).value);
  }

  /** The parser's results are exactly the valid forwards. */
  lemma ParserRange(isIPv6: string -> bool, forward: Forward)
    requires NeedsColon(isIPv6)
    ensures ValidForward(isIPv6, forward) <==> exists value :: Parse(isIPv6, value) == Ok(forward)
  {
    if ValidForward(isIPv6, forward) {
      ParseOfPrint(isIPv6, forward);
    }
    forall value | Parse(isIPv6, value) == Ok(forward)
      ensures ValidForward(isIPv6, forward)
    {
      AcceptedIsValid(isIPv6, value);
    }
  }

  /** Two accepted values print alike exactly when they mean the same forward. */
  lemma PrintIsInjective(isIPv6: string -> bool, a: string, b: string)
    requires NeedsColon(isIPv6) && Parse(isIPv6, a).Ok? && Parse(isIPv6, b).Ok?
    ensures Print(Parse(isIPv6, a).value) == Print(Parse(isIPv6, b).value)
            <==> Parse(isIPv6, a) == Parse(isIPv6, b)
  {
    PrintIsCanonical(isIPv6, a);
    PrintIsCanonical(isIPv6, b);
  }

  // The documented shorthands.

  /** A host as the user may write it in a field: the empty text, a name or a
      bracketed address. */
  ghost predicate HostField(isIPv6: string -> bool, field: string, host: string) {
    IsField(field) && ForwardHost(isIPv6, field) == Ok(host)
  }

  ghost predicate PortField(field: string, port: nat) {
    IsDecimal(field) && ParsePort(field) == Ok(port)
  }

  lemma ParseOfFields(isIPv6: string -> bool, fields: seq<string>)
    requires fields != [] && AreFields(fields)
    ensures Parse(isIPv6, Join(fields, ":")) == ParseFields(isIPv6, fields)
  {
    SplitExactly(Join(fields, ":"), fields);
  }

  /** The README table without a bind address. */
  lemma Shorthands(isIPv6: string -> bool, listen: string, p: nat, dest: string, q: nat, name: string, host: string)
    requires PortField(listen, p) && PortField(dest, q)
    requires HostField(isIPv6, name, host)
    ensures Parse(isIPv6, Join([listen], ":")) == Ok(Forward("localhost", p, "localhost", p))
    ensures Parse(isIPv6, Join([listen, dest], ":")) == Ok(Forward("localhost", p, "localhost", q))
    ensures !IsDecimal(name) ==> Parse(isIPv6, Join([listen, name], ":")) == Ok(Forward("localhost", p, host, p))
    ensures Parse(isIPv6, Join([listen, name, ""], ":")) == Ok(Forward("localhost", p, host, p))
    ensures Parse(isIPv6, Join([listen, name, dest], ":")) == Ok(Forward("localhost", p, host, q))
  {
    DecimalIsField(listen);
    DecimalIsField(dest);
    ParseOfFields(isIPv6, [listen]);
    ParseOfFields(isIPv6, [listen, dest]);
    ParseOfFields(isIPv6, [listen, name]);
    ParseOfFields(isIPv6, [listen, name, ""]);
    ParseOfFields(isIPv6, [listen, name, dest]);
  }

  /** What the fields after an optional bind address mean: the port to listen on, and
      then a port, a host, a host with an empty port, or a host and a port. */
  ghost predicate TailMeans(isIPv6: string -> bool, fields: seq<string>, bindAddress: string, forward: Forward) {
    && 1 <= |fields| <= 3 && PortField(fields[0], forward.listenPort) && forward.bindAddress == bindAddress
    && (|fields| == 1 ==> forward.host == "localhost" && forward.port == forward.listenPort)
    && (|fields| == 2 && IsDecimal(fields[1]) ==> forward.host == "localhost" && PortField(fields[1], forward.port))
    && (|fields| == 2 && !IsDecimal(fields[1]) ==>
          HostField(isIPv6, fields[1], forward.host) && forward.port == forward.listenPort)
    && (|fields| == 3 ==> HostField(isIPv6, fields[1], forward.host)
                          && if fields[2] == "" then forward.port == forward.listenPort
                             else PortField(fields[2], forward.port))
  }

  ghost predicate Means(isIPv6: string -> bool, fields: seq<string>, forward: Forward) {
    if |fields| > 1 && !IsDecimal(fields[0]) then
      HostField(isIPv6, fields[0], forward.bindAddress) && TailMeans(isIPv6, fields[1..], forward.bindAddress, forward)
    else TailMeans(isIPv6, fields, "localhost", forward)
  }

  /** The accepted texts: exactly the joined fields of these forms, each with its one
      meaning. In particular nothing with more components is accepted. */
  lemma ParseExactly(isIPv6: string -> bool, value: string, forward: Forward)
    ensures Parse(isIPv6, value) == Ok(forward) <==>
            exists fields ::
              fields != [] && AreFields(fields) && Join(fields, ":") == value && Means(isIPv6, fields, forward)
  {
    forall fields | fields != [] && AreFields(fields) && Join(fields, ":") == value
      ensures Parse(isIPv6, value) == Ok(forward) <==> Means(isIPv6, fields, forward)
    {
      ParseOfFields(isIPv6, fields);
      FieldsMean(isIPv6, fields, forward);
    }
    if Split(value).Ok? {
      SplitExactly(value, Split(value).value);
    }
  }

  lemma FieldsMean(isIPv6: string -> bool, fields: seq<string>, forward: Forward)
    requires fields != [] && AreFields(fields)
    ensures ParseFields(isIPv6, fields) == Ok(forward) <==> Means(isIPv6, fields, forward)
  {
    if |fields| > 1 && !IsDecimal(fields[0]) {
      assert AreFields(fields[1..]);
      TailOfFields(isIPv6, fields[1..], forward.bindAddress, forward);
    } else {
      TailOfFields(isIPv6, fields, "localhost", forward);
    }
  }

  lemma TailOfFields(isIPv6: string -> bool, fields: seq<string>, bindAddress: string, forward: Forward)
    requires fields != [] && AreFields(fields)
    ensures ListenAndDestination(isIPv6, fields, bindAddress) == Ok(forward)
            <==> TailMeans(isIPv6, fields, bindAddress, forward)
  {
  }

  /** A bind address in front of any of these forms only replaces the listen
      address, provided that it cannot be taken for the listen port. */
  lemma BindAddressPrefix(isIPv6: string -> bool, field: string, bindAddress: string, fields: seq<string>)
    requires HostField(isIPv6, field, bindAddress)
    requires fields != [] && AreFields(fields) && IsDecimal(fields[0])
    ensures !IsDecimal(field) ==>
              Parse(isIPv6, field + ":" + Join(fields, ":")) ==
              match Parse(isIPv6, Join(fields, ":"))
              case Ok(forward) => Ok(forward.(bindAddress := bindAddress))
              case Err(e) => Err(e)
  {
    var all := [field] + fields;
    assert all[1..] == fields;
    assert AreFields(all);
    ParseOfFields(isIPv6, all);
    ParseOfFields(isIPv6, fields);
  }

  // The flag values that accumulate during command-line parsing.

  /** portForward while its fields are being filled in. */
  class ForwardBuilder {
    var bindAddress: string
    var listenPort: nat
    var host: string
    var port: nat

    constructor ()
      ensures bindAddress == "localhost" && host == "localhost" && listenPort == 0 && port == 0
    {
      bindAddress, host := "localhost", "localhost";
      listenPort, port := 0, 0;
    }

    function Value(): Forward
      reads this
    {
      Forward(bindAddress, listenPort, host, port)
    }

    method SetDestinationPort(value: string) returns (error: Option<ForwardError>)
      modifies this`port
      ensures match DestinationPort(value, old(Value()))
              case Ok(forward) => error == None && Value() == forward
              case Err(e) => error == Some(e)
    {
      var parsed := ParsePort(value);
      if parsed.Err? {
        return Some(BadDestinationPort(parsed.error));
      }
      port := parsed.value;
      return None;
    }

    method SetDestination(isIPv6: string -> bool, fields: seq<string>) returns (error: Option<ForwardError>)
      requires fields != []
      modifies this`host, this`port
      ensures match Destination(isIPv6, fields, old(Value()))
              case Ok(forward) => error == None && Value() == forward
              case Err(e) => error == Some(e)
    {
      if |fields| == 1 {
        return None;
      }
      if |fields| > 3 {
        return Some(TooManyComponents);
      }
      if |fields| == 2 && IsDecimal(fields[1]) {
        error := SetDestinationPort(fields[1]);
        return;
      }
      var parsed := ForwardHost(isIPv6, fields[1]);
      if parsed.Err? {
        return Some(BadDestinationHost(parsed.error));
      }
      host := parsed.value;
      if |fields| == 3 && fields[2] != "" {
        error := SetDestinationPort(fields[2]);
        return;
      }
      return None;
    }
  }

  method ParsePortForward(isIPv6: string -> bool, value: string) returns (result: Result<Forward, ForwardError>)
    ensures result == Parse(isIPv6, value)
  {
    var split := ForwardFields(value);
    if split.Err? {
      return Err(BadSplit(split.error));
    }
    var fields := split.value;
    var f := new ForwardBuilder();
    if |fields| > 1 && !IsDecimal(fields[0]) {
      var parsed := ForwardHost(isIPv6, fields[0]);
      if parsed.Err? {
        return Err(BadBindAddress(parsed.error));
      }
      f.bindAddress := parsed.value;
      fields := fields[1..];
    }
    var listen := ParsePort(fields[0]);
    if listen.Err? {
      return Err(BadListenPort(listen.error));
    }
    f.listenPort := listen.value;
    f.port := f.listenPort;
    var error := f.SetDestination(isIPv6, fields);
    if error.Some? {
      return Err(error.value);
    }
    return Ok(f.Value());
  }

  /** One flag that may be given repeatedly. */
  class ForwardValues {
    var values: seq<Forward>

    constructor ()
      ensures values == []
    {
      values := [];
    }

    /** A rejected value leaves the earlier ones as they were. */
    method Set(isIPv6: string -> bool, value: string) returns (error: Option<ForwardError>)
      modifies this
      ensures match Parse(isIPv6, value)
              case Ok(forward) => error == None && values == old(values) + [forward]
              case Err(e) => error == Some(e) && values == old(values)
    {
      var parsed := ParsePortForward(isIPv6, value);
      if parsed.Err? {
        return Some(parsed.error);
      }
      values := values + [parsed.value];
      return None;
    }
  }
}
