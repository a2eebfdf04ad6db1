/** The remote environment wrappers (internal/remote/environment.go). */
module RemoteEnv {
  import opened Text
  import opened ShellWords

  datatype Environment = Environment(token: string, port: nat, agentSocket: string)

  /** The provisioned wrapper directory, as it stands between double quotes. */
  const SHIM_DIR := "${XDG_CACHE_HOME:-$HOME/.cache}/slush/bin"

  /** Restores the session environment after the user's shell startup files. */
  const INTERACTIVE_SHELL :=
    "case \"${SHELL:-/bin/sh}\" in "
    + "*/bash) exec \"$SHELL\" --rcfile \"${XDG_CACHE_HOME:-$HOME/.cache}/slush/bashrc\" -i ;; "
    + "*/zsh) export SLUSH_ZDOTDIR=\"${ZDOTDIR-}\" ZDOTDIR=\"${XDG_CACHE_HOME:-$HOME/.cache}/slush/zsh\"; "
    + "exec \"$SHELL\" -l ;; "
    + "*) exec \"${SHELL:-/bin/sh}\" -l ;; esac"

  /** Words that are each followed by a blank. */
  function Spaced(words: seq<string>): string {
    if words == [] then "" else words[0] + " " + Spaced(words[1..])
  }

  function EnvWords(env: Environment): seq<string> {
    ["export", "SLUSH=1", "SLUSH_TOKEN=" + env.token, "SLUSH_PORT=" + Itoa(env.port), "BROWSER=slush-open"]
  }

  function EnvPrefix(env: Environment): string {
    Spaced(EnvWords(env)) + (PathAssignment() + "; ")
  }

  function PathAssignment(): string { "PATH=" + ("\"" + SHIM_DIR + "\"") + ":$PATH" }

  /** The shell line that ssh runs, and whether it starts an interactive shell. */
  function SSHCommand(command: seq<string>, env: Environment): (string, bool) {
    (EnvPrefix(env) + (if command == [] then INTERACTIVE_SHELL else Join(command, " ")), command == [])
  }

  /** All exports of the Mosh wrapper: the agent socket comes from the server, so
      it is quoted. */
  function Exports(env: Environment): string {
    EnvPrefix(env) +
    (if env.agentSocket == "" then "" else Spaced(["export"]) + ("SSH_AUTH_SOCK=" + Quote(env.agentSocket) + "; "))
  }

  function MoshScript(command: seq<string>, env: Environment): string {
    Exports(env) + (if command == [] then INTERACTIVE_SHELL else Spaced(["exec"]) + ("\"" + "$@" + "\""))
  }

  function MoshCommand(command: seq<string>, env: Environment): (argv: seq<string>)
    ensures |argv| >= 3
  {
    ["sh", "-c", MoshScript(command, env)] + (if command == [] then [] else ["sh"] + command)
  }

  method BuildMoshCommand(command: seq<string>, env: Environment) returns (wrapped: seq<string>)
    ensures wrapped == MoshCommand(command, env)
  {
    var script := EnvPrefix(env);
    if env.agentSocket != "" {
      script := script + (Spaced(["export"]) + ("SSH_AUTH_SOCK=" + Quote(env.agentSocket) + "; "));
    } else {
      assert script + "" == script;
    }
    assert script == Exports(env);
    var tail: seq<string> := [];
    if |command| == 0 {
      script := script + INTERACTIVE_SHELL;
    } else {
      script := script + (Spaced(["exec"]) + ("\"" + "$@" + "\""));
      tail := ["sh"] + command;
    }
    wrapped := ["sh", "-c", script] + tail;
  }

  // Reading the wrappers back.

  function EnvTokens(env: Environment): (tokens: seq<Token>)
    ensures |tokens| == 7
  {
    Words(EnvWords(env)) + [Word("PATH=" + SHIM_DIR + ":$PATH"), Operator(';')]
  }

  function ExportTokens(env: Environment): seq<Token> {
    EnvTokens(env)
    + if env.agentSocket == "" then []
      else [Word("export"), Word("SSH_AUTH_SOCK=" + env.agentSocket), Operator(';')]
  }

  predicate IsPlainWord(word: string) {
    word != "" && AllLiteral(word) && word[0] != '#'
  }

  lemma RunWord(scanner: Scanner, word: string)
    requires scanner.mode == Bare && scanner.word.None? && IsPlainWord(word)
    ensures scanner.Run(word + " ") == scanner.(tokens := scanner.tokens + [Word(word)])
  {
    RunLiteral(scanner, word);
    assert "" + word == word;
    RunOne(scanner.Add(word), ' ');
    RunTwo(scanner, word, scanner.Add(word), " ", scanner.(tokens := scanner.tokens + [Word(word)]));
  }

  lemma {:induction false} RunSpaced(scanner: Scanner, words: seq<string>)
    requires scanner.mode == Bare && scanner.word.None?
    requires forall i :: 0 <= i < |words| ==> IsPlainWord(words[i])
    ensures scanner.Run(Spaced(words)) == scanner.(tokens := scanner.tokens + Words(words))
    decreases |words|
  {
    if words == [] {
      assert scanner.tokens + Words(words) == scanner.tokens;
    } else {
      var next := scanner.(tokens := scanner.tokens + [Word(words[0])]);
      RunWord(scanner, words[0]);
      RunConcat(scanner, words[0] + " ", Spaced(words[1..]));
      RunSpaced(next, words[1..]);
      assert next.tokens + Words(words[1..]) == scanner.tokens + Words(words);
    }
  }

  lemma RunPlainThenQuoted(fixed: seq<string>, quoted: seq<string>)
    requires forall i :: 0 <= i < |fixed| ==> IsPlainWord(fixed[i])
    requires quoted != []
    ensures var after := START.Run(Spaced(fixed) + Join(QuoteAll(quoted), " "));
            after.mode == Bare && after.Flush().tokens == Words(fixed) + Words(quoted)
  {
    var begun := START.(tokens := START.tokens + Words(fixed));
    RunSpaced(START, fixed);
    RunQuotedWords(begun, quoted);
    RunConcat(START, Spaced(fixed), Join(QuoteAll(quoted), " "));
    assert begun.tokens == Words(fixed);
  }

  lemma RunEnd(scanner: Scanner)
    requires scanner.mode == Bare && scanner.word.Some?
    ensures scanner.Run("; ") ==
            Scanner(scanner.tokens + [Word(scanner.word.value), Operator(';')], None, Bare)
  {
    RunOne(scanner, ';');
    var ended := scanner.Step(';');
    RunOne(ended, ' ');
    assert "; " == ";" + " ";
    RunTwo(scanner, ";", ended, " ", ended);
    assert scanner.tokens + [Word(scanner.word.value)] + [Operator(';')]
        == scanner.tokens + [Word(scanner.word.value), Operator(';')];
  }

  lemma DecimalIsLiteral(s: string)
    requires IsDecimal(s)
    ensures AllLiteral(s)
  {
  }

  lemma LiteralConcat(a: string, b: string)
    requires AllLiteral(a) && AllLiteral(b)
    ensures AllLiteral(a + b)
  {
  }

  lemma ExportWordsAreLiteral()
    ensures AllLiteral("export") && AllLiteral("exec") && AllLiteral("SLUSH=1")
  {
  }

  lemma TokenNamesAreLiteral()
    ensures AllLiteral("SLUSH_TOKEN=") && AllLiteral("SLUSH_PORT=")
  {
  }

  lemma BrowserIsLiteral()
    ensures AllLiteral("BROWSER=slush-open")
  {
  }

  lemma PathPartsAreLiteral()
    ensures AllLiteral("PATH=") && AllLiteral(":$PATH") && AllLiteral("SSH_AUTH_SOCK=")
  {
  }

  lemma ShimDirHasNoQuotes()
    ensures '"' !in SHIM_DIR && '\\' !in SHIM_DIR
  {
  }

  lemma AddTwice(scanner: Scanner, a: string, b: string)
    ensures scanner.Add(a).Add(b) == scanner.Add(a + b)
  {
    assert scanner.Text() + a + b == scanner.Text() + (a + b);
  }

  /** A plain beginning of a word, then some text that joins it. */
  lemma RunHead(scanner: Scanner, head: string, rest: string, added: string)
    requires scanner.mode == Bare && scanner.word.None? && IsPlainWord(head)
    requires scanner.Add(head).Run(rest) == scanner.Add(head).Add(added)
    ensures scanner.Run(head + rest) == scanner.Add(head + added)
  {
    RunLiteral(scanner, head);
    RunConcat(scanner, head, rest);
    AddTwice(scanner, head, added);
  }

  lemma RunTail(scanner: Scanner, text: string, added: string, tail: string)
    requires scanner.mode == Bare && scanner.Run(text) == scanner.Add(added)
    requires tail != "" && AllLiteral(tail)
    ensures scanner.Run(text + tail) == scanner.Add(added + tail)
  {
    RunLiteral(scanner.Add(added), tail);
    RunConcat(scanner, text, tail);
    AddTwice(scanner, added, tail);
  }

  lemma RunPathAssignment(scanner: Scanner)
    requires scanner.mode == Bare && scanner.word.None?
    ensures scanner.Run(PathAssignment()) == scanner.Add("PATH=" + SHIM_DIR + ":$PATH")
  {
    PathPartsAreLiteral();
    ShimDirHasNoQuotes();
    RunDoubleQuoted(scanner.Add("PATH="), SHIM_DIR);
    RunHead(scanner, "PATH=", "\"" + SHIM_DIR + "\"", SHIM_DIR);
    RunTail(scanner, "PATH=" + ("\"" + SHIM_DIR + "\""), "PATH=" + SHIM_DIR, ":$PATH");
  }

  /** An assignment that ends its command. */
  lemma RunCommand(scanner: Scanner, words: seq<string>, last: string, read: string)
    requires scanner.mode == Bare && scanner.word.None?
    requires forall i :: 0 <= i < |words| ==> IsPlainWord(words[i])
    requires var next := scanner.(tokens := scanner.tokens + Words(words)); next.Run(last) == next.Add(read)
    ensures scanner.Run(Spaced(words) + (last + "; ")) ==
            scanner.(tokens := scanner.tokens + (Words(words) + [Word(read), Operator(';')]))
  {
    var next := scanner.(tokens := scanner.tokens + Words(words));
    RunSpaced(scanner, words);
    RunConcat(scanner, Spaced(words), last + "; ");
    RunConcat(next, last, "; ");
    assert "" + read == read;
    RunEnd(next.Add(read));
    assert next.tokens + [Word(read), Operator(';')] == scanner.tokens + (Words(words) + [Word(read), Operator(';')]);
  }

  lemma EnvWordsArePlain(env: Environment)
    requires AllLiteral(env.token)
    ensures forall i :: 0 <= i < |EnvWords(env)| ==> IsPlainWord(EnvWords(env)[i])
  {
    ExportWordsAreLiteral();
    TokenNamesAreLiteral();
    BrowserIsLiteral();
    DecimalIsLiteral(Itoa(env.port));
    LiteralConcat("SLUSH_TOKEN=", env.token);
    LiteralConcat("SLUSH_PORT=", Itoa(env.port));
  }

  lemma RunEnvPrefix(env: Environment)
    requires AllLiteral(env.token)
    ensures START.Run(EnvPrefix(env)) == Scanner(EnvTokens(env), None, Bare)
  {
    EnvWordsArePlain(env);
    var next := START.(tokens := [] + Words(EnvWords(env)));
    RunPathAssignment(next);
    RunCommand(START, EnvWords(env), PathAssignment(), "PATH=" + SHIM_DIR + ":$PATH");
    assert [] + EnvTokens(env) == EnvTokens(env);
  }

  lemma RunSocketExport(scanner: Scanner, socket: string)
    requires scanner.mode == Bare && scanner.word.None?
    ensures scanner.Run(Spaced(["export"]) + ("SSH_AUTH_SOCK=" + Quote(socket) + "; ")) ==
            scanner.(tokens := scanner.tokens + [Word("export"), Word("SSH_AUTH_SOCK=" + socket), Operator(';')])
  {
    ExportWordsAreLiteral();
    PathPartsAreLiteral();
    var next := scanner.(tokens := scanner.tokens + Words(["export"]));
    RunQuote(next.Add("SSH_AUTH_SOCK="), socket);
    RunHead(next, "SSH_AUTH_SOCK=", Quote(socket), socket);
    RunCommand(scanner, ["export"], "SSH_AUTH_SOCK=" + Quote(socket), "SSH_AUTH_SOCK=" + socket);
    assert Words(["export"]) == [Word("export")];
  }

  /** The exports read as the intended assignments; in particular the quoted
      agent socket is read back unchanged. */
  lemma RunExports(env: Environment)
    requires AllLiteral(env.token)
    ensures START.Run(Exports(env)) == Scanner(ExportTokens(env), None, Bare)
  {
    RunEnvPrefix(env);
    if env.agentSocket == "" {
      assert Exports(env) == EnvPrefix(env);
      assert ExportTokens(env) == EnvTokens(env);
    } else {
      RunSocketExport(Scanner(EnvTokens(env), None, Bare), env.agentSocket);
      RunConcat(START, EnvPrefix(env), Spaced(["export"]) + ("SSH_AUTH_SOCK=" + Quote(env.agentSocket) + "; "));
    }
  }

  /** The script that runs a command reads as the exports followed by the
      replacement of the shell by its arguments. */
  lemma TokensOfMoshScript(command: seq<string>, env: Environment)
    requires AllLiteral(env.token) && command != []
    ensures Tokenize(MoshScript(command, env)) == Some(ExportTokens(env) + [Word("exec"), Word("$@")])
  {
    RunExports(env);
    ExportWordsAreLiteral();
    var s1 := Scanner(ExportTokens(env), None, Bare);
    var s2 := s1.(tokens := s1.tokens + Words(["exec"]));
    RunSpaced(s1, ["exec"]);
    RunDoubleQuoted(s2, "$@");
    assert "" + "$@" == "$@";
    RunConcat(s1, Spaced(["exec"]), "\"" + "$@" + "\"");
    RunConcat(START, Exports(env), Spaced(["exec"]) + ("\"" + "$@" + "\""));
    assert s1.tokens + Words(["exec"]) + [Word("$@")] == ExportTokens(env) + [Word("exec"), Word("$@")];
  }

  /** Every script, that of an interactive session too, begins with the exports. */
  lemma ScriptBeginsWithExports(command: seq<string>, env: Environment)
    requires AllLiteral(env.token)
    ensures ExportTokens(env) <= START.Run(MoshScript(command, env)).tokens
  {
    var rest := if command == [] then INTERACTIVE_SHELL else Spaced(["exec"]) + ("\"" + "$@" + "\"");
    RunExports(env);
    RunConcat(START, Exports(env), rest);
    TokensOnlyGrow(START.Run(Exports(env)), rest);
  }

  /** The same for the line that ssh runs. */
  lemma LineBeginsWithExports(command: seq<string>, env: Environment)
    requires AllLiteral(env.token)
    ensures EnvTokens(env) <= START.Run(SSHCommand(command, env).0).tokens
  {
    var rest := if command == [] then INTERACTIVE_SHELL else Join(command, " ");
    RunEnvPrefix(env);
    RunConcat(START, EnvPrefix(env), rest);
    TokensOnlyGrow(START.Run(EnvPrefix(env)), rest);
  }

  /** Quoting the whole argv once more, as for a remote shell, loses nothing: one
      reading gives the argv back and a second one the exports in its script, with the
      agent socket as it was. With a command the script goes on to run just that. */
  lemma TwoReadingsOfMoshCommand(command: seq<string>, env: Environment)
    requires AllLiteral(env.token)
    ensures var argv := MoshCommand(command, env);
            && Tokenize(Join(QuoteAll(argv), " ")) == Some(Words(argv))
            && ExportTokens(env) <= START.Run(argv[2]).tokens
            && (command != [] ==> Tokenize(argv[2]) == Some(ExportTokens(env) + [Word("exec"), Word("$@")]))
            && (env.agentSocket != "" ==> ExportTokens(env)[8] == Word("SSH_AUTH_SOCK=" + env.agentSocket))
            && argv[3..] == if command == [] then [] else ["sh"] + command
  {
    TokensOfQuotedWords(MoshCommand(command, env));
    ScriptBeginsWithExports(command, env);
    if command != [] {
      TokensOfMoshScript(command, env);
    }
  }

  /** What the exports are, word by word: the marker, the token, the port, the browser
      and the wrapper directory ahead of the old PATH; then the agent socket, if any. */
  lemma ExportedWords(env: Environment)
    requires AllLiteral(env.token)
    ensures START.Run(Exports(env)).tokens ==
            [Word("export"), Word("SLUSH=1"), Word("SLUSH_TOKEN=" + env.token), Word("SLUSH_PORT=" + Itoa(env.port)),
             Word("BROWSER=slush-open"),
             Word("PATH=" + "${XDG_CACHE_HOME:-$HOME/.cache}/slush/bin" + ":$PATH"), Operator(';')]
            + if env.agentSocket == "" then []
              else [Word("export"), Word("SSH_AUTH_SOCK=" + env.agentSocket), Operator(';')]
  {
    RunExports(env);
  }
}
