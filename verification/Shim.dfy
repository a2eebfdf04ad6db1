/** The remote shim: where it finds its credentials and which native tool it falls
    back to (internal/remote/shim.py), and the file that provisioning writes for it
    (internal/remote/provision.go). */
module Shim {
  import opened Text
  import opened ShellWords
  import RemoteEnv

  const DEFAULT_PORT: int := 2489

  // Python's string operations.

  /** str.isspace for one character. */
  predicate IsPySpace(c: char) {
    || '\t' <= c <= '\r'
    || '\U{1C}' <= c <= ' '
    || c == '\U{0085}' || c == '\U{00A0}' || c == '\U{1680}'
    || '\U{2000}' <= c <= '\U{200A}'
    || c == '\U{2028}' || c == '\U{2029}' || c == '\U{202F}' || c == '\U{205F}' || c == '\U{3000}'
  }

  predicate BlankFree(s: string) { forall i :: 0 <= i < |s| ==> !IsPySpace(s[i]) }

  function LeftStrip(s: string): string {
    if s != "" && IsPySpace(s[0]) then LeftStrip(s[1..]) else s
  }

  function RightStrip(s: string): string {
    if s != "" && IsPySpace(s[|s| - 1]) then RightStrip(s[..|s| - 1]) else s
  }

  function Strip(s: string): string { RightStrip(LeftStrip(s)) }

  lemma StripLine(s: string)
    requires s != "" ==> !IsPySpace(s[0]) && !IsPySpace(s[|s| - 1])
    ensures Strip(s + "\n") == s && Strip(s) == s
  {
    if s == "" {
      assert s + "\n" == "\n" && "\n"[1..] == "" && LeftStrip("\n") == LeftStrip("");
    } else {
      var line := s + "\n";
      assert line[..|s|] == s && line[0] == s[0];
      assert LeftStrip(line) == line && LeftStrip(s) == s;
      assert RightStrip(line) == RightStrip(s) == s;
    }
  }

  /** str.partition at the first equals sign: the name, whether there is a sign at
      all, and the value. */
  function Partition(line: string): (string, bool, string) {
    if line == "" then ("", false, "")
    else if line[0] == '=' then ("", true, line[1..])
    else var (name, found, value) := Partition(line[1..]); ([line[0]] + name, found, value)
  }

  lemma {:induction false} PartitionOf(name: string, value: string)
    requires '=' !in name
    ensures Partition(name + "=" + value) == (name, true, value)
    decreases |name|
  {
    var line := name + "=" + value;
    if name == "" {
      assert line[1..] == value;
    } else {
      assert name == [name[0]] + name[1..];
      assert line[1..] == name[1..] + "=" + value;
      PartitionOf(name[1..], value);
    }
  }

  predicate IsNumeral(s: string) {
    s != "" && IsDigit(s[0]) && IsDigit(s[|s| - 1]) &&
    forall i :: 0 <= i < |s| ==> IsDigit(s[i]) || (s[i] == '_' && i > 0 && s[i - 1] != '_')
  }

  function WithoutUnderscores(s: string): string {
    if s == "" then "" else (if s[0] == '_' then "" else [s[0]]) + WithoutUnderscores(s[1..])
  }

  /** int() on ASCII text: blanks around it, a sign, and single underscores between
      digits are accepted. */
  function PyInt(s: string): Option<int> {
    var text := Strip(s);
    var signed := text != "" && (text[0] == '+' || text[0] == '-');
    var body := if signed then text[1..] else text;
    if !IsNumeral(body) then None
    else
      var digits := WithoutUnderscores(body);
      if !IsDecimal(digits) then None
      else
        var magnitude: int := ParseDecimal(digits);
        Some(if signed && text[0] == '-' then -magnitude else magnitude)
  }

  lemma {:induction false} NoUnderscores(s: string)
    requires forall i :: 0 <= i < |s| ==> IsDigit(s[i])
    ensures WithoutUnderscores(s) == s
  {
    if s != "" {
      NoUnderscores(s[1..]);
      assert s == [s[0]] + s[1..];
    }
  }

  lemma PyIntOfItoa(n: nat)
    ensures PyInt(Itoa(n)) == Some(n) && BlankFree(Itoa(n)) && Itoa(n) != ""
  {
    var text := Itoa(n);
    assert BlankFree(text);
    StripLine(text);
    NoUnderscores(text);
    ParseOfItoa(n);
  }

  // Credentials.

  datatype Credentials = Credentials(token: string, port: int) | NoToken | BadPort

  /** The stripped value of a line that assigns the name, or the empty text. */
  function ValueOn(line: string, name: string): string {
    var (key, found, value) := Partition(line);
    if found && Strip(key) == name then Strip(value) else ""
  }

  /** The first value of the name in the file that is not empty. */
  function FirstValue(lines: seq<string>, name: string): string {
    if lines == [] then ""
    else if ValueOn(lines[0], name) != "" then ValueOn(lines[0], name)
    else FirstValue(lines[1..], name)
  }

  function Or(first: string, second: string): string { if first != "" then first else second }

  /** Each credential comes from the environment or, failing that, from the file,
      independently of the other; only the port has a default. A file that cannot
      be read has no lines. */
  function Load(token: string, port: string, file: Option<seq<string>>): Credentials {
    var lines := if file.Some? then file.value else [];
    var t := Or(token, FirstValue(lines, "SLUSH_TOKEN"));
    var p := Or(port, FirstValue(lines, "SLUSH_PORT"));
    if t == "" then NoToken
    else if p == "" then Credentials(t, DEFAULT_PORT)
    else match PyInt(p)
      case None => BadPort
      case Some(n) => Credentials(t, n)
  }

  method LoadTokenPort(envToken: string, envPort: string, file: Option<seq<string>>) returns (result: Credentials)
    ensures result == Load(envToken, envPort, file)
  {
    var token, port := envToken, envPort;
    if token == "" || port == "" {
      if file.Some? {
        var lines := file.value;
        for i := 0 to |lines|
          invariant Or(token, FirstValue(lines[i..], "SLUSH_TOKEN")) == Or(envToken, FirstValue(lines, "SLUSH_TOKEN"))
          invariant Or(port, FirstValue(lines[i..], "SLUSH_PORT")) == Or(envPort, FirstValue(lines, "SLUSH_PORT"))
        {
          assert lines[i..][0] == lines[i] && lines[i..][1..] == lines[i + 1..];
          var (name, eq, value) := Partition(lines[i]);
          if !eq || HasPrefix(Strip(name), "#") {
            SkippedLine(lines[i]);
            continue;
          }
          if Strip(name) == "SLUSH_TOKEN" && token == "" {
            token := Strip(value);
          } else if Strip(name) == "SLUSH_PORT" && port == "" {
            port := Strip(value);
          }
        }
      }
    }
    if token == "" {
      return NoToken;
    }
    if port == "" {
      return Credentials(token, DEFAULT_PORT);
    }
    var n := PyInt(port);
    if n.None? {
      return BadPort;
    }
    return Credentials(token, n.value);
  }

  /** Lines without a sign and comments assign neither name. */
  lemma SkippedLine(line: string)
    requires !Partition(line).1 || HasPrefix(Strip(Partition(line).0), "#")
    ensures ValueOn(line, "SLUSH_TOKEN") == "" && ValueOn(line, "SLUSH_PORT") == ""
  {
    NamesDiffer();
  }

  lemma NamesDiffer()
    ensures "SLUSH_TOKEN" != "SLUSH_PORT"
    ensures "SLUSH_TOKEN"[0] == "SLUSH_PORT"[0] == 'S'
    ensures '=' !in "SLUSH_TOKEN" && '=' !in "SLUSH_PORT"
    ensures BlankFree("SLUSH_TOKEN") && BlankFree("SLUSH_PORT")
  {
    assert |"SLUSH_TOKEN"| == 11 && |"SLUSH_PORT"| == 10;
  }

  predicate AllPySpace(s: string) { forall i :: 0 <= i < |s| ==> IsPySpace(s[i]) }

  lemma {:induction false} LeftStripBlanks(blanks: string, s: string)
    requires AllPySpace(blanks) && (s != "" ==> !IsPySpace(s[0]))
    ensures LeftStrip(blanks + s) == s
    decreases |blanks|
  {
    if blanks == "" {
      assert blanks + s == s;
    } else {
      assert (blanks + s)[1..] == blanks[1..] + s;
      LeftStripBlanks(blanks[1..], s);
    }
  }

  lemma {:induction false} RightStripBlanks(s: string, blanks: string)
    requires AllPySpace(blanks) && (s != "" ==> !IsPySpace(s[|s| - 1]))
    ensures RightStrip(s + blanks) == s
    decreases |blanks|
  {
    if blanks == "" {
      assert s + blanks == s;
    } else {
      assert (s + blanks)[..|s + blanks| - 1] == s + blanks[..|blanks| - 1];
      RightStripBlanks(s, blanks[..|blanks| - 1]);
    }
  }

  lemma StripBlanks(before: string, s: string, after: string)
    requires AllPySpace(before) && AllPySpace(after) && s != "" && BlankFree(s)
    ensures Strip(before + s + after) == s
  {
    assert before + s + after == before + (s + after);
    LeftStripBlanks(before, s + after);
    RightStripBlanks(s, after);
  }

  /** Blanks around the name and around the value do not matter. */
  lemma BlanksDoNotMatter(a: string, name: string, b: string, c: string, value: string, d: string)
    requires AllPySpace(a) && AllPySpace(b) && AllPySpace(c) && AllPySpace(d)
    requires name != "" && value != "" && BlankFree(name) && BlankFree(value) && '=' !in name
    ensures ValueOn((a + name + b) + "=" + (c + value + d), name) == value
  {
    assert !IsPySpace('=');
    PartitionOf(a + name + b, c + value + d);
    StripBlanks(a, name, b);
    StripBlanks(c, value, d);
  }

  /** A value is found when it is that of the first line with one. */
  lemma {:induction false} FirstValueExactly(lines: seq<string>, name: string, value: string)
    requires value != ""
    ensures FirstValue(lines, name) == value <==>
            exists i :: 0 <= i < |lines| && ValueOn(lines[i], name) == value
                        && forall j :: 0 <= j < i ==> ValueOn(lines[j], name) == ""
    decreases |lines|
  {
    if lines != [] && ValueOn(lines[0], name) == "" {
      FirstValueExactly(lines[1..], name, value);
      if i :| 0 <= i < |lines[1..]| && ValueOn(lines[1..][i], name) == value
              && forall j :: 0 <= j < i ==> ValueOn(lines[1..][j], name) == "" {
        forall j | 0 <= j < i + 1 ensures ValueOn(lines[j], name) == "" {
          assert j > 0 ==> lines[j] == lines[1..][j - 1];
        }
        assert ValueOn(lines[i + 1], name) == value;
      }
      if i :| 0 <= i < |lines| && ValueOn(lines[i], name) == value
              && forall j :: 0 <= j < i ==> ValueOn(lines[j], name) == "" {
        assert lines[1..][i - 1] == lines[i];
        assert forall j :: 0 <= j < i - 1 ==> lines[1..][j] == lines[j + 1];
      }
    }
  }

  /** Where nothing names a port it is 2489; without a token there is nothing to use. */
  lemma DefaultPort(token: string, port: string)
    ensures token != "" ==> Load(token, "", None) == Credentials(token, 2489)
    ensures Load("", port, None) == NoToken
  {
  }

  lemma SignedNumeral(sign: string, n: nat)
    requires sign == "+" || sign == "-"
    ensures PyInt(sign + Itoa(n)).Some?
    ensures if sign == "+" then PyInt(sign + Itoa(n)).value == n else PyInt(sign + Itoa(n)).value + n == 0
  {
    var text := Itoa(n);
    var signed := sign + text;
    PyIntOfItoa(n);
    assert signed[0] == sign[0] && signed[1..] == text && signed[|signed| - 1] == text[|text| - 1];
    StripLine(signed);
    NoUnderscores(text);
    ParseOfItoa(n);
  }

  lemma BlankBeforeNumber(blank: char, text: string)
    requires IsPySpace(blank)
    ensures PyInt([blank] + text) == PyInt(text)
  {
    assert ([blank] + text)[1..] == text;
  }

  // The file that provisioning writes.

  /** As it stands in the script: printf expands the escapes itself. */
  const FORMAT := "SLUSH_TOKEN=%s\\nSLUSH_PORT=%d\\n"

  const ENV_FILE := "$dir/slush-env"

  /** The line of writeSessionEnv's script that writes the credentials. */
  function ProvisionLine(token: string, port: nat): string {
    RemoteEnv.Spaced(["printf"]) + Join(QuoteAll([FORMAT, token]), " ") + " " + Redirected(Itoa(port)) + "|| exit 1"
  }

  function Redirected(last: string): string { last + " " + ("> " + ("\"" + ENV_FILE + "\"" + " ")) }

  /** The words before the first operator. */
  function CommandWords(tokens: seq<Token>): seq<string> {
    if tokens == [] || tokens[0].Operator? then [] else [tokens[0].text] + CommandWords(tokens[1..])
  }

  /** printf, as far as it is used: %s, %d with a numeral, and the newline escape, with
      one argument for each conversion. */
  function Printf(format: string, args: seq<string>): Option<string>
    decreases |format|
  {
    if format == "" then if args == [] then Some("") else None
    else if format[0] != '%' && format[0] != '\\' then Prefixed([format[0]], Printf(format[1..], args))
    else if |format| < 2 then None
    else if format[..2] == "\\n" then Prefixed("\n", Printf(format[2..], args))
    else if args == [] then None
    else if format[..2] == "%s" || (format[..2] == "%d" && IsNumeralText(args[0])) then
      Prefixed(args[0], Printf(format[2..], args[1..]))
    else None
  }

  /** A numeral that printf prints as it is: a zero in front would make it octal. */
  predicate IsNumeralText(s: string) { IsDecimal(s) && (s[0] != '0' || |s| == 1) }

  function Prefixed(text: string, rest: Option<string>): Option<string> {
    if rest.None? then None else Some(text + rest.value)
  }

  /** What the line writes to the file. */
  function WrittenEnv(token: string, port: nat): Option<string> {
    Output(CommandWords(START.Run(ProvisionLine(token, port)).tokens))
  }

  function Output(words: seq<string>): Option<string> {
    if |words| >= 2 && words[0] == "printf" then Printf(words[1], words[2..]) else None
  }

  lemma PrintfIsPlain()
    ensures RemoteEnv.IsPlainWord("printf") && RemoteEnv.Spaced(["printf"]) == "printf "
  {
    assert ["printf"][1..] == [];
    assert RemoteEnv.Spaced(["printf"]) == "printf" + " " + "";
  }

  lemma NumeralIsPlain(n: nat)
    ensures RemoteEnv.IsPlainWord(Itoa(n))
  {
    RemoteEnv.DecimalIsLiteral(Itoa(n));
    assert IsDigit(Itoa(n)[0]);
  }

  lemma EnvFileHasNoQuotes()
    ensures '"' !in ENV_FILE && '\\' !in ENV_FILE
  {
  }

  lemma RunRedirected(scanner: Scanner, last: string)
    requires scanner.mode == Bare && scanner.word.None? && RemoteEnv.IsPlainWord(last)
    ensures scanner.Run(Redirected(last)).tokens == scanner.tokens + [Word(last), Operator('>'), Word(ENV_FILE)]
  {
    EnvFileHasNoQuotes();
    var s1 := scanner.(tokens := scanner.tokens + [Word(last)]);
    var s2 := s1.(tokens := s1.tokens + [Operator('>')]);
    RemoteEnv.RunWord(scanner, last);
    RunConcat(scanner, last + " ", "> " + ("\"" + ENV_FILE + "\"" + " "));
    RunOne(s1, '>');
    RunOne(s2, ' ');
    RunTwo(s1, ">", s2, " ", s2);
    assert ">" + " " == "> ";
    RunConcat(s1, "> ", "\"" + ENV_FILE + "\"" + " ");
    RunDoubleQuoted(s2, ENV_FILE);
    RunOne(s2.Add(ENV_FILE), ' ');
    RunConcat(s2, "\"" + ENV_FILE + "\"", " ");
    assert "" + ENV_FILE == ENV_FILE;
  }

  /** The tokens of the line up to the file that it writes. */
  function LineTokens(token: string, port: nat): seq<Token> {
    Words(["printf"]) + Words([FORMAT, token]) + [Word(Itoa(port)), Operator('>'), Word(ENV_FILE)]
  }

  /** Plain words, quoted ones and a redirection, read from the beginning. */
  lemma RunLine(fixed: seq<string>, quoted: seq<string>, last: string, tail: string)
    requires (forall i :: 0 <= i < |fixed| ==> RemoteEnv.IsPlainWord(fixed[i])) && quoted != []
    requires RemoteEnv.IsPlainWord(last)
    ensures Words(fixed) + Words(quoted) + [Word(last), Operator('>'), Word(ENV_FILE)] <=
            START.Run(RemoteEnv.Spaced(fixed) + Join(QuoteAll(quoted), " ") + " " + Redirected(last) + tail).tokens
  {
    var head := RemoteEnv.Spaced(fixed) + Join(QuoteAll(quoted), " ");
    var begun := START.Run(head);
    RemoteEnv.RunPlainThenQuoted(fixed, quoted);
    RunOne(begun, ' ');
    RunTwo(START, head, begun, " ", begun.Flush());
    RunRedirected(begun.Flush(), last);
    RunTwo(START, head + " ", begun.Flush(), Redirected(last), begun.Flush().Run(Redirected(last)));
    RunConcat(START, head + " " + Redirected(last), tail);
    TokensOnlyGrow(START.Run(head + " " + Redirected(last)), tail);
  }

  /** Whatever the token is, the shell passes it to printf unchanged. */
  lemma ProvisionLineReads(token: string, port: nat)
    ensures LineTokens(token, port) <= START.Run(ProvisionLine(token, port)).tokens
    ensures CommandWords(START.Run(ProvisionLine(token, port)).tokens) == ["printf", FORMAT, token, Itoa(port)]
  {
    PrintfIsPlain();
    NumeralIsPlain(port);
    RunLine(["printf"], [FORMAT, token], Itoa(port), "|| exit 1");
    LineWords(START.Run(ProvisionLine(token, port)).tokens, token, port);
  }

  lemma LineWords(tokens: seq<Token>, token: string, port: nat)
    requires LineTokens(token, port) <= tokens
    ensures CommandWords(tokens) == ["printf", FORMAT, token, Itoa(port)]
  {
    var begin := LineTokens(token, port);
    assert forall i :: 0 <= i < 5 ==> tokens[i] == begin[i];
    assert CommandWords(tokens[4..]) == [];
    assert tokens[3..][1..] == tokens[4..];
    assert CommandWords(tokens[3..]) == [Itoa(port)];
    assert tokens[2..][1..] == tokens[3..];
    assert CommandWords(tokens[2..]) == [token, Itoa(port)];
    assert tokens[1..][1..] == tokens[2..];
    assert CommandWords(tokens[1..]) == [FORMAT, token, Itoa(port)];
  }

  predicate NoConversion(s: string) { '%' !in s && '\\' !in s }

  lemma {:induction false} PrintfText(text: string, rest: string, args: seq<string>)
    requires NoConversion(text)
    ensures Printf(text + rest, args) == Prefixed(text, Printf(rest, args))
    decreases |text|
  {
    if text == "" {
      assert text + rest == rest;
      assert Printf(rest, args).Some? ==> "" + Printf(rest, args).value == Printf(rest, args).value;
    } else {
      assert text[0] in text && (text + rest)[1..] == text[1..] + rest;
      PrintfText(text[1..], rest, args);
      assert text == [text[0]] + text[1..];
      var after := Printf(rest, args);
      assert after.Some? ==> [text[0]] + (text[1..] + after.value) == text + after.value;
    }
  }

  lemma PrintfArgument(conversion: string, rest: string, arg: string, args: seq<string>)
    requires conversion == "%s" || (conversion == "%d" && IsNumeralText(arg))
    ensures Printf(conversion + rest, [arg] + args) == Prefixed(arg, Printf(rest, args))
  {
    var format, all := conversion + rest, [arg] + args;
    assert format[..2] == conversion && format[2..] == rest && all[1..] == args;
    assert format[0] == '%' == conversion[0];
    assert "\\n"[0] != '%';
  }

  lemma PrintfNewline(rest: string, args: seq<string>)
    ensures Printf("\\n" + rest, args) == Prefixed("\n", Printf(rest, args))
  {
    var format := "\\n" + rest;
    assert format[..2] == "\\n" && format[2..] == rest;
  }

  lemma {:induction false} NoLeadingZero(n: nat)
    ensures Digits(n)[0] == 0 <==> n == 0
    decreases n
  {
    if n >= 10 {
      NoLeadingZero(n / 10);
    }
  }

  lemma ItoaIsNumeralText(n: nat)
    ensures IsNumeralText(Itoa(n))
  {
    NoLeadingZero(n);
    assert Itoa(n)[0] == (48 + Digits(n)[0]) as char;
  }

  lemma FormatParts()
    ensures FORMAT == TOKEN_NAME + ("%s" + ("\\n" + (PORT_NAME + ("%d" + ("\\n" + "")))))
    ensures NoConversion(TOKEN_NAME) && NoConversion(PORT_NAME)
  {
  }

  const TOKEN_NAME := "SLUSH_TOKEN="
  const PORT_NAME := "SLUSH_PORT="

  /** One line for each credential. */
  function EnvText(token: string, number: string): string {
    TOKEN_NAME + (token + ("\n" + (PORT_NAME + (number + ("\n" + "")))))
  }

  lemma PrintfOfParts(name: string, token: string, other: string, number: string)
    requires NoConversion(name) && NoConversion(other) && IsNumeralText(number)
    ensures Printf(name + ("%s" + ("\\n" + (other + ("%d" + ("\\n" + ""))))), [token, number]) ==
            Some(name + (token + ("\n" + (other + (number + ("\n" + ""))))))
  {
    var one := [number];
    assert [token, number] == [token] + one && one == [number] + [];
    var end := "\\n" + "";
    PrintfNewline("", []);
    PrintfArgument("%d", end, number, []);
    PrintfText(other, "%d" + end, one);
    var second := other + ("%d" + end);
    PrintfNewline(second, one);
    PrintfArgument("%s", "\\n" + second, token, one);
    PrintfText(name, "%s" + ("\\n" + second), [token] + one);
  }

  lemma PrintfOfFormat(token: string, number: string)
    requires IsNumeralText(number)
    ensures Printf(FORMAT, [token, number]) == Some(EnvText(token, number))
  {
    FormatParts();
    PrintfOfParts(TOKEN_NAME, token, PORT_NAME, number);
  }

  lemma OutputOfFour(format: string, a: string, b: string)
    ensures Output(["printf", format, a, b]) == Printf(format, [a, b])
  {
    assert ["printf", format, a, b][2..] == [a, b];
  }

  /** What is in the file, whatever the token is. */
  lemma WrittenEnvText(token: string, port: nat)
    ensures WrittenEnv(token, port) == Some(EnvText(token, Itoa(port)))
  {
    ProvisionLineReads(token, port);
    ItoaIsNumeralText(port);
    OutputOfFour(FORMAT, token, Itoa(port));
    PrintfOfFormat(token, Itoa(port));
  }

  /** The lines of a text file as Python iterates over them: every kind of line end
      becomes a newline. */
  function PyLines(text: string, line: string): seq<string>
    decreases |text|
  {
    if text == "" then if line == "" then [] else [line]
    else if text[0] == '\n' then [line + "\n"] + PyLines(text[1..], "")
    else if text[0] == '\r' then
      [line + "\n"] + PyLines(if |text| > 1 && text[1] == '\n' then text[2..] else text[1..], "")
    else PyLines(text[1..], line + [text[0]])
  }

  lemma {:induction false} FirstPyLine(text: string, rest: string, line: string)
    requires BlankFree(text)
    ensures PyLines(text + ("\n" + rest), line) == [line + text + "\n"] + PyLines(rest, "")
    decreases |text|
  {
    var all := text + ("\n" + rest);
    if text == "" {
      assert all == "\n" + rest && all[1..] == rest && line + text == line;
    } else {
      assert all[1..] == text[1..] + ("\n" + rest);
      FirstPyLine(text[1..], rest, line + [text[0]]);
      assert line + [text[0]] + text[1..] == line + text;
    }
  }

  lemma ValueOfAssignment(name: string, value: string, other: string)
    requires '=' !in name && BlankFree(name) && BlankFree(value)
    ensures ValueOn(name + "=" + value + "\n", other) == if name == other then value else ""
  {
    assert name + "=" + value + "\n" == name + "=" + (value + "\n");
    PartitionOf(name, value + "\n");
    StripLine(name);
    StripLine(value);
  }

  lemma TwoPyLines(a: string, b: string)
    requires BlankFree(a) && BlankFree(b)
    ensures PyLines(a + ("\n" + (b + ("\n" + ""))), "") == [a + "\n", b + "\n"]
  {
    FirstPyLine(a, b + ("\n" + ""), "");
    FirstPyLine(b, "", "");
    assert "" + a == a && "" + b == b;
  }

  lemma NamesAreBlankFree()
    ensures BlankFree(TOKEN_NAME) && BlankFree(PORT_NAME)
    ensures TOKEN_NAME == "SLUSH_TOKEN" + "=" && PORT_NAME == "SLUSH_PORT" + "="
  {
  }

  lemma EnvLines(token: string, number: string)
    requires BlankFree(token) && BlankFree(number)
    ensures PyLines(EnvText(token, number), "") == [TOKEN_NAME + token + "\n", PORT_NAME + number + "\n"]
  {
    NamesAreBlankFree();
    TwoPyLines(TOKEN_NAME + token, PORT_NAME + number);
    EnvTextParts(TOKEN_NAME, token, PORT_NAME, number);
  }

  lemma EnvTextParts(a: string, b: string, c: string, d: string)
    ensures a + (b + ("\n" + (c + (d + ("\n" + ""))))) == (a + b) + ("\n" + ((c + d) + ("\n" + "")))
  {
  }

  lemma FirstValueOfTwo(first: string, second: string, name: string)
    ensures FirstValue([first, second], name) == Or(ValueOn(first, name), ValueOn(second, name))
  {
    var lines, rest := [first, second], [second];
    assert lines[1..] == rest && rest[1..] == [];
    assert FirstValue(rest, name) == ValueOn(second, name);
  }

  lemma EnvLineValues(token: string, number: string)
    requires BlankFree(token) && BlankFree(number)
    ensures ValueOn(TOKEN_NAME + token + "\n", "SLUSH_TOKEN") == token
    ensures ValueOn(TOKEN_NAME + token + "\n", "SLUSH_PORT") == ""
    ensures ValueOn(PORT_NAME + number + "\n", "SLUSH_PORT") == number
  {
    NamesDiffer();
    NamesAreBlankFree();
    ValueOfAssignment("SLUSH_TOKEN", token, "SLUSH_TOKEN");
    ValueOfAssignment("SLUSH_TOKEN", token, "SLUSH_PORT");
    ValueOfAssignment("SLUSH_PORT", number, "SLUSH_PORT");
  }

  lemma EnvValues(token: string, number: string)
    requires BlankFree(token) && token != "" && BlankFree(number)
    ensures FirstValue(PyLines(EnvText(token, number), ""), "SLUSH_TOKEN") == token
    ensures FirstValue(PyLines(EnvText(token, number), ""), "SLUSH_PORT") == number
  {
    var first, second := TOKEN_NAME + token + "\n", PORT_NAME + number + "\n";
    EnvLines(token, number);
    EnvLineValues(token, number);
    FirstValueOfTwo(first, second, "SLUSH_TOKEN");
    FirstValueOfTwo(first, second, "SLUSH_PORT");
  }

  /** What the provisioning line writes is read back as the same pair, unless the
      environment has its own values; those win one by one. */
  lemma EnvFileIsReadBack(token: string, port: nat, envToken: string, envPort: string)
    requires BlankFree(token) && token != ""
    ensures WrittenEnv(token, port).Some?
    ensures Load(envToken, envPort, Some(PyLines(WrittenEnv(token, port).value, ""))) ==
            if envPort == "" then Credentials(Or(envToken, token), port)
            else match PyInt(envPort)
              case None => BadPort
              case Some(n) => Credentials(Or(envToken, token), n)
  {
    WrittenEnvText(token, port);
    PyIntOfItoa(port);
    EnvValues(token, Itoa(port));
    LoadFromValues(PyLines(EnvText(token, Itoa(port)), ""), token, Itoa(port), envToken, envPort);
  }

  lemma LoadFromValues(lines: seq<string>, token: string, number: string, envToken: string, envPort: string)
    requires FirstValue(lines, "SLUSH_TOKEN") == token != "" && FirstValue(lines, "SLUSH_PORT") == number != ""
    ensures Load(envToken, envPort, Some(lines)) ==
            match PyInt(Or(envPort, number))
            case None => BadPort
            case Some(n) => Credentials(Or(envToken, token), n)
  {
  }

  // The native tool behind a wrapper.

  /** What the file system answers; None stands for an operating system error.
      realDir and realFile resolve links. */
  datatype Machine = Machine(
    realDir: string -> Option<string>,
    isFile: string -> Option<bool>,
    isExecutable: string -> Option<bool>,
    realFile: string -> Option<string>,
    join: (string, string) -> string)
  {
    /** A directory that slush installed wrappers in. */
    predicate IsWrapperDir(dir: string) { isFile(join(dir, "slush-shim")) == Some(true) }

    function FileBehind(dir: string, name: string): Option<string> { realFile(join(dir, name)) }

    /** An executable of this name outside every wrapper directory. */
    predicate IsCandidate(dir: string, name: string) {
      && realDir(dir).Some?
      && isFile(join(dir, "slush-shim")) == Some(false)
      && isFile(join(dir, name)) == Some(true)
      && isExecutable(join(dir, name)) == Some(true)
    }

    predicate Eligible(excluded: set<string>, shimFile: Option<string>, dir: string, name: string) {
      && IsCandidate(dir, name)
      && realDir(dir).value !in excluded
      && (shimFile.Some? ==> FileBehind(dir, name) != shimFile)
    }

    /** The first eligible directory. */
    function FirstEligible(excluded: set<string>, shimFile: Option<string>, entries: seq<string>, name: string)
      : (found: Option<string>)
      ensures found.None? <==> forall i :: 0 <= i < |entries| ==> !Eligible(excluded, shimFile, entries[i], name)
      ensures found.Some? ==>
                exists i :: 0 <= i < |entries| && entries[i] == found.value
                            && Eligible(excluded, shimFile, found.value, name)
                            && forall j :: 0 <= j < i ==> !Eligible(excluded, shimFile, entries[j], name)
    {
      if entries == [] then None
      else if Eligible(excluded, shimFile, entries[0], name) then Some(entries[0])
      else
        var rest := FirstEligible(excluded, shimFile, entries[1..], name);
        assert forall i :: 1 <= i < |entries| ==> entries[i] == entries[1..][i - 1];
        assert rest.Some? ==>
            exists i :: 1 <= i < |entries| && entries[i] == rest.value
                        && forall j :: 0 <= j < i ==> !Eligible(excluded, shimFile, entries[j], name) by {
          if rest.Some? {
            var k :| 0 <= k < |entries[1..]| && entries[1..][k] == rest.value
                     && forall j :: 0 <= j < k ==> !Eligible(excluded, shimFile, entries[1..][j], name);
            assert entries[k + 1] == rest.value;
            forall j | 0 <= j < k + 1 ensures !Eligible(excluded, shimFile, entries[j], name) {
              if j > 0 {
                assert entries[j] == entries[1..][j - 1];
              }
            }
          }
        }
        rest
    }
  }

  /** PATH entries; an empty entry means the current directory. */
  function PathEntries(path: string, entry: string): (entries: seq<string>)
    ensures entries != []
    ensures forall i :: 0 <= i < |entries| ==> entries[i] != ""
    decreases |path|
  {
    if path == "" then [OrDot(entry)]
    else if path[0] == ':' then [OrDot(entry)] + PathEntries(path[1..], "")
    else PathEntries(path[1..], entry + [path[0]])
  }

  function OrDot(entry: string): string { if entry == "" then "." else entry }

  const NO_FALLBACK_NAMES := {"slush-open"}

  lemma {:induction false} PathWord(word: string, rest: string, entry: string)
    requires ':' !in word
    ensures PathEntries(word + rest, entry) == PathEntries(rest, entry + word)
    decreases |word|
  {
    if word == "" {
      assert word + rest == rest && entry + word == entry;
    } else {
      assert word[0] in word && (word + rest)[1..] == word[1..] + rest;
      PathWord(word[1..], rest, entry + [word[0]]);
      assert entry + [word[0]] + word[1..] == entry + word;
    }
  }

  /** PATH is split at colons, and an empty part stands for the current directory. */
  lemma {:induction false} EntriesOfPath(parts: seq<string>)
    requires parts != [] && forall i :: 0 <= i < |parts| ==> ':' !in parts[i]
    ensures PathEntries(Join(parts, ":"), "") ==
            seq(|parts|, i requires 0 <= i < |parts| => if parts[i] == "" then "." else parts[i])
    decreases |parts|
  {
    assert "" + parts[0] == parts[0];
    if |parts| == 1 {
      assert parts[0] + "" == parts[0];
      PathWord(parts[0], "", "");
    } else {
      var rest := Join(parts[1..], ":");
      assert parts[0] + ":" + rest == parts[0] + (":" + rest) && (":" + rest)[1..] == rest;
      PathWord(parts[0], ":" + rest, "");
      EntriesOfPath(parts[1..]);
    }
  }

  method FindFallback(m: Machine, excluded: set<string>, shimFile: Option<string>, path: string, name: string)
    returns (fallback: Option<string>)
    ensures var first := m.FirstEligible(excluded, shimFile, PathEntries(path, ""), name);
            fallback == if name in NO_FALLBACK_NAMES || first.None? then None else Some(m.join(first.value, name))
    ensures fallback.Some? ==>
              && (exists dir :: dir in PathEntries(path, "") && fallback.value == m.join(dir, name)
                                && m.realDir(dir).Some? && m.realDir(dir).value !in excluded && !m.IsWrapperDir(dir))
              && m.isFile(fallback.value) == m.isExecutable(fallback.value) == Some(true)
              && (shimFile.Some? ==> m.realFile(fallback.value) != shimFile)
              && name != "slush-open"
  {
    if name in NO_FALLBACK_NAMES {
      return None;
    }
    var entries := PathEntries(path, "");
    for i := 0 to |entries|
      invariant m.FirstEligible(excluded, shimFile, entries[i..], name)
             == m.FirstEligible(excluded, shimFile, entries, name)
    {
      assert entries[i..][0] == entries[i] && entries[i..][1..] == entries[i + 1..];
      var directory := entries[i];
      var resolved := m.realDir(directory);
      if resolved.None? || resolved.value in excluded {
        continue;
      }
      var wrapper := m.isFile(m.join(directory, "slush-shim"));
      if wrapper.None? || wrapper.value {
        continue;
      }
      var candidate := m.join(directory, name);
      var file := m.isFile(candidate);
      if file.None? || !file.value {
        continue;
      }
      var executable := m.isExecutable(candidate);
      if executable.None? || !executable.value {
        continue;
      }
      if shimFile.Some? {
        var target := m.realFile(candidate);
        if target.Some? && target.value == shimFile.value {
          continue;
        }
      }
      assert m.Eligible(excluded, shimFile, directory, name);
      return Some(candidate);
    }
    return None;
  }

  // Chains of wrappers that each pass through to the next.

  /** Everything that stays fixed while wrappers hand over to each other: the
      machine, the entries of PATH, the name they all run under and the shim files that slush
      installations have put on the machine. */
  datatype Host = Host(m: Machine, entries: seq<string>, name: string, shims: set<string>) {
    /** Entries that resolve to the same directory hold the same file. */
    ghost predicate Consistent() {
      forall a: string, b: string :: m.realDir(a).Some? && m.realDir(a) == m.realDir(b) ==>
                                       m.FileBehind(a, name) == m.FileBehind(b, name)
    }

    predicate IsWrapper(dir: string) {
      m.FileBehind(dir, name).Some? && m.FileBehind(dir, name).value in shims
    }

    /** A link to a shim from outside the wrapper directories. */
    predicate IsStray(dir: string) { m.IsCandidate(dir, name) && IsWrapper(dir) }

    predicate IsNative(dir: string) { m.IsCandidate(dir, name) && !IsWrapper(dir) }

    /** The directory that a wrapper run from it excludes. */
    function Own(at: string): set<string> {
      if m.realDir(at).Some? then {m.realDir(at).value} else {}
    }

    /** What a wrapper run from a directory passes through to. */
    function Next(at: string): Option<string> {
      if name in NO_FALLBACK_NAMES then None
      else m.FirstEligible(Own(at), m.FileBehind(at, name), entries, name)
    }

    /** The search of a wrapper is the next step of the chain. */
    method PassThrough(at: string, path: string) returns (command: Option<string>)
      requires entries == PathEntries(path, "")
      ensures command == if Next(at).None? then None else Some(m.join(Next(at).value, name))
    {
      command := FindFallback(m, Own(at), m.FileBehind(at, name), path, name);
    }

    /** Starting from one directory, that many passes in a row end at a wrapper. */
    predicate PassesOn(at: string, n: nat)
      decreases n
    {
      IsWrapper(at) && (n == 0 || (Next(at).Some? && PassesOn(Next(at).value, n - 1)))
    }

    /** Everything on PATH ahead of the entry that could be run is a stray link. */
    predicate AheadOfNative(i: nat)
      requires i < |entries|
    {
      forall k :: 0 <= k < i ==> !IsNative(entries[k])
    }

    /** A stray link that a wrapper of this name would come to, if it passes on at all. */
    predicate StrayAt(i: int) {
      name !in NO_FALLBACK_NAMES && 0 <= i < |entries| && IsStray(entries[i]) && AheadOfNative(i)
    }

    /** Two stray links to different shims come ahead of the first native tool. */
    ghost predicate StraysDisagree() {
      exists i, j :: StrayAt(i) && StrayAt(j) && FileAt(i) != FileAt(j)
    }

    function FileAt(i: int): Option<string> {
      if 0 <= i < |entries| then m.FileBehind(entries[i], name) else None
    }

    /** A wrapper may pass to exactly the candidates that are some other file. */
    lemma EligibleIsOtherFile(at: string, dir: string)
      requires Consistent() && IsWrapper(at)
      ensures m.Eligible(Own(at), m.FileBehind(at, name), dir, name)
              <==> m.IsCandidate(dir, name) && m.FileBehind(dir, name) != m.FileBehind(at, name)
    {
    }

    /** Where the next program stands on PATH. */
    lemma NextIsAt(at: string) returns (i: int)
      requires Consistent() && IsWrapper(at) && Next(at).Some?
      ensures 0 <= i < |entries| && entries[i] == Next(at).value
      ensures m.IsCandidate(entries[i], name) && FileAt(i) != m.FileBehind(at, name)
      ensures forall k :: 0 <= k < i ==> !(m.IsCandidate(entries[k], name) && FileAt(k) != m.FileBehind(at, name))
    {
      var excluded := Own(at);
      var shim := m.FileBehind(at, name);
      i :| 0 <= i < |entries| && entries[i] == Next(at).value
           && m.Eligible(excluded, shim, entries[i], name)
           && forall k :: 0 <= k < i ==> !m.Eligible(excluded, shim, entries[k], name);
      EligibleIsOtherFile(at, entries[i]);
      forall k | 0 <= k < i ensures !(m.IsCandidate(entries[k], name) && FileAt(k) != shim) {
        EligibleIsOtherFile(at, entries[k]);
      }
    }

    /** A wrapper hands over to another wrapper exactly when a stray link to a
        different shim comes ahead of the first native tool. */
    lemma NextIsWrapper(at: string)
      requires Consistent() && IsWrapper(at)
      ensures (Next(at).Some? && IsWrapper(Next(at).value))
              <==> exists i :: StrayAt(i) && FileAt(i) != m.FileBehind(at, name)
      ensures Next(at).Some? && IsWrapper(Next(at).value) ==>
                exists i :: StrayAt(i) && FileAt(i) == m.FileBehind(Next(at).value, name) != m.FileBehind(at, name)
    {
      var shim := m.FileBehind(at, name);
      if Next(at).Some? {
        var i := NextIsAt(at);
        forall k | 0 <= k < i ensures !IsNative(entries[k]) {
          assert m.IsCandidate(entries[k], name) ==> FileAt(k) == shim;
        }
        if IsWrapper(Next(at).value) {
          assert StrayAt(i) && FileAt(i) != shim;
        } else {
          forall j ensures !(StrayAt(j) && FileAt(j) != shim) {
            assert IsNative(entries[i]);
          }
        }
      } else {
        forall j ensures !(StrayAt(j) && FileAt(j) != shim) {
          if 0 <= j < |entries| {
            EligibleIsOtherFile(at, entries[j]);
          }
        }
      }
    }

    lemma DisagreeingStraysPassOnce(at: string)
      requires Consistent() && IsWrapper(at) && StraysDisagree()
      ensures Next(at).Some? && IsWrapper(Next(at).value)
    {
      var i, j :| StrayAt(i) && StrayAt(j) && FileAt(i) != FileAt(j);
      var other := if FileAt(i) != m.FileBehind(at, name) then i else j;
      assert StrayAt(other) && FileAt(other) != m.FileBehind(at, name);
      NextIsWrapper(at);
    }

    lemma {:induction false} PassesOnForever(at: string, n: nat)
      requires IsWrapper(at)
      requires forall dir {:trigger Next(dir)} :: IsWrapper(dir) ==> Next(dir).Some? && IsWrapper(Next(dir).value)
      ensures PassesOn(at, n)
      decreases n
    {
      if n > 0 {
        PassesOnForever(Next(at).value, n - 1);
      }
    }

    lemma TwoPassesNeedDisagreement(at: string)
      requires Consistent() && IsWrapper(at)
      requires Next(at).Some? && IsWrapper(Next(at).value)
      requires Next(Next(at).value).Some? && IsWrapper(Next(Next(at).value).value)
      ensures StraysDisagree()
    {
      var middle := Next(at).value;
      NextIsWrapper(at);
      NextIsWrapper(middle);
      var i :| StrayAt(i) && FileAt(i) == m.FileBehind(middle, name);
      var j :| StrayAt(j) && FileAt(j) != m.FileBehind(middle, name);
    }

    /** A chain of pass-throughs that starts at any wrapper stops within two steps,
        unless two stray links to different shims come ahead of the first native
        tool: then it never stops. */
    lemma ChainEndsUnlessStraysDisagree(at: string, n: nat)
      requires Consistent() && IsWrapper(at)
      ensures StraysDisagree() ==> PassesOn(at, n)
      ensures n >= 2 && !StraysDisagree() ==> !PassesOn(at, n)
      ensures n >= 1 && name in NO_FALLBACK_NAMES ==> !PassesOn(at, n)
    {
      if StraysDisagree() {
        forall dir | IsWrapper(dir) ensures Next(dir).Some? && IsWrapper(Next(dir).value) {
          DisagreeingStraysPassOnce(dir);
        }
        PassesOnForever(at, n);
      } else if n >= 2 && PassesOn(at, n) {
        var middle := Next(at).value;
        assert PassesOn(middle, n - 1) && PassesOn(Next(middle).value, n - 2);
        TwoPassesNeedDisagreement(at);
        assert false;
      }
    }

    /** Where slush put every link beside its shim, one pass reaches a native tool
        or nothing. */
    lemma InstalledWrappersPassOnce(at: string, n: nat)
      requires IsWrapper(at) && n > 0
      requires forall dir :: dir in entries && IsWrapper(dir) ==> m.IsWrapperDir(dir)
      ensures !PassesOn(at, n)
    {
    }
  }

  /** Two installations, each reached by one link outside its own directory. */
  function TwoInstallations(): Host {
    var join := (dir: string, name: string) => dir + "/" + name;
    Host(Machine(dir => Some(dir),
                 file => Some(file == "x/pbcopy" || file == "y/pbcopy"),
                 file => Some(true),
                 file => Some(if file == "x/pbcopy" then "a/slush-shim"
                              else if file == "y/pbcopy" then "b/slush-shim" else file),
                 join),
         ["x", "y"], "pbcopy", {"a/slush-shim", "b/slush-shim"})
  }

  /** Their wrappers hand over to each other without end. */
  lemma TwoInstallationsLoop(n: nat)
    ensures TwoInstallations().PassesOn("x", n)
  {
    var h := TwoInstallations();
    var x, y := "x/pbcopy", "y/pbcopy";
    assert "x" + "/" + "pbcopy" == x && "y" + "/" + "pbcopy" == y && x[0] != y[0];
    var sx, sy := "x" + "/" + "slush-shim", "y" + "/" + "slush-shim";
    assert sx[2] == 's' && x[2] == 'p' && sy[2] == 's' && y[2] == 'p';
    assert "a/slush-shim"[0] != "b/slush-shim"[0];
    assert h.StrayAt(0) && h.StrayAt(1) && h.FileAt(0) != h.FileAt(1);
    assert h.StraysDisagree();
    h.ChainEndsUnlessStraysDisagree("x", n);
  }
}
