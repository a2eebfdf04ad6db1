# A verified model of slush

slush opens an ssh session whose remote programs can use the local clipboard and
browser. It starts an ssh master with port forwards, publishes a token-guarded
clipboard server through that master, wraps the remote command with an environment,
and starts ssh or Mosh as the terminal client. This project models the parts of it
that decide something, and proves what they promise for every input, every run and
every interleaving.

Each module states what the program does as functions on values, proves methods with
the program's own loops and updates equal to those functions, and proves the promises
about the functions as lemmas.

| module | subject |
|---|---|
| `Text` | joining strings and decimal numerals |
| `SshConfig` | lexing and parsing one line of an ssh configuration file |
| `IncludeWalk`, `IncludeChain`, `IncludeOrder` | collecting host aliases through include files, and the depth limit |
| `ForwardSpec` | splitting, parsing and printing port forwards |
| `ShellWords` | reading POSIX shell text as words, and quoting |
| `RemoteEnv` | the wrappers that export the session's environment |
| `Argv` | options to ssh and Mosh arguments, finding the host in them, wrapping the command |
| `ClipboardCodec` | the clipboard protocol on the wire |
| `ClipboardServer` | the server with many connections at once, and whole client calls |
| `TunnelWait` | the ssh master's process, the goroutine that waits for it, and Stop |
| `SessionLifetime` | what a session acquires and releases, and the search for a free port |
| `WhiteSpace` | the three notions of white space in the program agree, but for four characters |
| `Shim`, `ShimClient` | the remote shim: its credentials, its fallback to native tools, its side of the protocol |

## What is proved

**Include walk.** The walk is a depth-first search with shared sets and a depth limit
of 16. It ends on every include graph, reads no cleaned path twice, and collects
exactly the allowed aliases of the files that it reads, all of which are reachable
(`CollectsFromFilesRead`). It reads every reachable file if and only if each readable
path that the limit turned away was read on another way (`CompleteIffNothingLost`).
What can be checked on the files beforehand: if no chain of distinct files is longer
than 16, everything is read, however many files there are
(`CollectsAllWhenChainsAreShort`; in particular up to 16 files, cycles included), and
whatever is read ends some chain of at most 16 (`ReadsOnlyShallowFiles`). Where all ways
to a file are equally long, as when each file is included once, short chains are exactly
what completeness takes (`CompleteIffChainsAreShort`). In general no condition on the
graph alone is exact: two configurations with the same files, includes and aliases differ
only in the order of two lines, and one walk loses an alias (`OrderDecides`). The bound is
tight: for every number above 16 a chain of that many files, written as ordinary lines,
loses an alias (`LimitIsTight`).
The comment at `internal/command/hosts.go:57-58` promises the aliases of all blocks
without this limit; the model follows the code.

**Configuration lines.** Words in double quotes come back exactly, whatever the blanks
between them and the comment after them. The five ways to write a key and its first
value denote the same directive if and only if that value does not begin with an equals
sign. A line whose key is `host` or `include`, in any case and spelling, contributes
exactly its values as aliases, or exactly the files that they stand for; any other key
contributes nothing.

**Port forwards.** The splitter accepts a text exactly when it is a join of well-formed
fields, and returns those. Printing and parsing undo each other on every accepted
value, printing is injective on meanings, and the parser's results are exactly the
forwards that can be written down. The accepted texts, each with its one meaning, are
characterized without the parser (`ParseExactly`), and so is the printed text
(`PrintedText`).

**Quoting.** A small POSIX tokenizer is the specification. Quoted lists of words are
read back unchanged, also nested: the Mosh script's agent socket survives two
quotations, in interactive sessions too. Text that is appended without quotation joins
its word if and only if no character of it separates or quotes.

**Arguments.** Reading the options back as pairs gives each setting under its own flag and
the printed forwards in order. The argv made from options scans back to the host, whatever paths, ports
and forwards precede it, if and only if the host does not begin with a minus sign.
Splitting and rebuilding a Mosh argv is stable, also for an argv such as
`-p -- host`, where the separator is an option's value. The control path changes only
the `--ssh` option at index one and never the user's command. That option reads as
intended if and only if the control path has no separating or quoting character
(`FinalSSHOptionReads`, if Mosh splits the option as a shell would); a temporary
directory with a blank breaks it (`BlankBreaksSSHOption`).

**Clipboard protocol.** The server decodes what a client encodes, and refuses bad lengths
from the header line alone. A request that is cut off anywhere is refused. In every
interleaving the server is linearizable: the connections settle one at a time, the
desktop is what serving them whole in that order gives, each closed connection was
sent exactly its one reply, and the order respects real time. So the clipboard always
holds its initial value or the complete payload of an authentic COPY, and a paste
returns the latest one. So a client whose Paste begins after another client's successful
Copy has ended gets that data or the data of a copy that took place in between
(`PasteAfterCopy`). What has been opened is exactly the targets of the authentic OPEN
requests, each once and in order (`OpensExactlyTargets`). A client's Copy succeeds under an exact condition; a nil slice
never does, since it sends no length. Of a reply that is cut off the local client
takes nothing, whereas the shim takes two bytes of it for success; both are stated
exactly (`LocalClientNoticesCut`, `CutPasteLooksComplete`, `CopiedOfCutReply`).

**Tunnel and session.** The wait channel is received from at most once, a receipt always
completes the Once, and Stop is never stuck and returns within six steps of child,
goroutine and main in every interleaving. Run releases everything in reverse order on
every path, leaves no listener, and starts the client at most once, with all resources in
place, exactly when every setup step works and the client can be started. Every started
client exports the one port that is forwarded at that moment. It is Mosh exactly when
Mosh was asked for or detected on both sides, and nothing starts without a usable answer
(`StartedClientsAreWanted`, `UnansweredProbeStartsNothing`). The port search makes at
most eight attempts, each on the server's port of that moment; the server has exactly one
open listener at each attempt and at return (a new one opens just before the old one
closes).

**Shim.** The credentials that the provisioning script writes through printf are read back.
A wrapper passes to the first eligible entry of PATH, and `slush-open` to nothing. A
chain of wrappers that pass to each other ends within two steps, unless two links to
different shims, outside the wrapper directories, come ahead of the first native tool;
then it never ends (`ChainEndsUnlessStraysDisagree`). Links that slush itself makes sit
beside their shim, so there one pass is all (`InstalledWrappersPassOnce`). The comment at
`internal/remote/shim.py:139-140` says that one wrapper never runs another;
`TwoInstallationsLoop` is a machine on which it does.

## Assumptions

- Globbing, path cleaning and path joining are arbitrary functions; so are the answers
  of the file system to the shim, except where a lemma asks that entries which resolve
  to the same directory hold the same file.
- IPv6 recognition is a given predicate; lemmas that need it ask that accepted text
  holds a colon, as section 2.2 of RFC 4291 implies.
- The lower-case conversion of keywords covers ASCII letters and the two other letters
  whose lower case is ASCII.
- A desktop operation either happens at once or fails and changes nothing. The desktop
  is a clipboard register and a list of opened targets.
- The separate `ssh -O exit` that Stop runs first returns; the program sets it no time
  limit (`internal/session/tunnel.go:244-252`).
- A connection is the bytes that arrive before it ends. For the server and the local
  client a deadline ends it early. The shim's timeout raises an error instead, with which
  it fails; what is said of replies to the shim that are cut off is about connections that
  were closed.
- Mosh splits the value of its `--ssh` option by the word rules of a shell, at operator
  characters too.
- The session token has only characters that need no quoting where shell text is read;
  slush generates 32 hexadecimal digits.
- The kernel never hands out a port that is in use. Tool outcomes (ssh, Mosh, PATH
  lookups, provisioning) are arbitrary.
- A wrapper that is run by another one is started by the path under which it was found,
  and its own directory is the only one it excludes by name.
- The shim's UTF-8 decoder is any function that leaves ASCII at the front of a text alone.

## Model

| member | source | states |
|---|---|---|
| SshConfig.SplitFields | internal/command/hosts.go:125-163 | the in-place loop over quote, field and fields computes the lexer's specification |
| SshConfig.LexOfRendering | internal/command/hosts.go:125-163 | words in double quotes, with any blanks between them and any trailing comment, lex to exactly those words |
| SshConfig.LexOfQuotation | internal/command/hosts.go:135-149 | either quote keeps everything up to its like, comments and the other quote too |
| SshConfig.UnterminatedQuoteDropsLine | internal/command/hosts.go:158-160 | a quote that never closes makes the whole line contribute nothing, whatever fields came before |
| SshConfig.LexOfSpelling | internal/command/hosts.go:125-163 | which fields each of the five spellings of a key and its first value produces |
| SshConfig.KeywordsInAnyCase | internal/command/hosts.go:120 | the lower-case key is host, or include, exactly when the key spells that word in any mixture of cases |
| SshConfig.DirectiveOfSpelling | internal/command/hosts.go:102-121 | those fields, different as they are, give one directive |
| SshConfig.SpellingsAgree | internal/command/hosts.go:102-121 | the five spellings of a line parse to the same key and values when the first value does not begin with an equals sign |
| SshConfig.SpellingMattersForEquals | internal/command/hosts.go:107-119 | that condition is exact: all spellings agree if and only if the first value does not begin with an equals sign |
| IncludeWalk.AllowedExactly | internal/command/hosts.go:50-55 | an alias is kept exactly when it is not empty, no option, and holds no pattern or separating character |
| IncludeWalk.Site.HostLineContributes | internal/command/hosts.go:77-81 | a host line in any case and spelling contributes exactly its values as aliases, in order |
| IncludeWalk.Site.IncludeLineContributes | internal/command/hosts.go:82-100 | an include line contributes exactly the files its values stand for, in order: from the home directory, from the root, or else from ~/.ssh |
| IncludeWalk.Site.OtherLineContributesNothing | internal/command/hosts.go:76-88 | a line with any other key contributes nothing |
| IncludeWalk.Site.ReadsEachPathOnce | internal/command/hosts.go:64-70 | on every include graph each cleaned path is read at most once, and the visited paths are those read |
| IncludeWalk.Site.CollectsFromFilesRead | internal/command/hosts.go:57-90 | the hosts are exactly the allowed aliases of the files read, and every file read is reachable from the root |
| IncludeWalk.Site.CompleteIffNothingLost | internal/command/hosts.go:60-68 | every reachable file is read if and only if each readable path turned away at the depth limit was read on another way |
| IncludeWalk.Site.CollectsAllWhenChainsAreShort | internal/command/hosts.go:57-90 | if no chain of distinct readable files is longer than 16, every reachable file is read and the hosts are exactly all allowed aliases |
| IncludeWalk.Site.CollectsAllWithinLimit | internal/command/hosts.go:60-63 | the special case of at most 16 reachable files, whatever cycles they form |
| IncludeWalk.Site.ReadsOnlyShallowFiles | internal/command/hosts.go:60-63 | on every graph each file read ends some chain of at most 16 files |
| IncludeWalk.Site.CompleteIffChainsAreShort | internal/command/hosts.go:60-68 | where all ways to a file are equally long, every reachable file is read if and only if no chain is longer than 16 |
| IncludeOrder.OrderDecides | internal/command/hosts.go:60-68 | two configurations with the same include graph and aliases, one of which loses a reachable alias that the other finds |
| IncludeWalk.Site.WalkLosesNothing | internal/command/hosts.go:61-68 | where chains are short, a readable path met at depth 16 is one of the 16 files being read, from every state of the walk |
| IncludeWalk.Site.WalkSettles | internal/command/hosts.go:59-90 | after a walk every visited file that is not still being read has had all its aliases and includes dealt with |
| IncludeWalk.Site.WalkStaysWithin | internal/command/hosts.go:59-90 | a walk finds nothing outside any set of paths that is closed under includes and holds its start |
| IncludeWalk.HostCollector.AddHost | internal/command/hosts.go:50-55 | an alias is added exactly when it is a literal one, and nothing else changes |
| IncludeWalk.HostCollector.ReadConfig | internal/command/hosts.go:59-90 | the recursion over shared sets computes the specification walk, for every state it is called in |
| IncludeWalk.HostCollector.Follow | internal/command/hosts.go:82-88 | one Include line walks all paths of all its patterns, in order and one level deeper |
| IncludeWalk.HostCollector.ReadPaths | internal/command/hosts.go:84-86 | the inner loop walks the paths of one pattern in order, one level deeper |
| IncludeChain.ChainLosesAlias | internal/command/hosts.go:60-63 | every chain of more than 16 files misses an allowed alias of its last, reachable file |
| IncludeChain.LimitIsTight | internal/command/hosts.go:60-63 | for every number above 16 a chain of that many files, written as text lines, misses a reachable alias |
| ForwardSpec.ForwardFields | internal/command/cli_values.go:201-227 | the loop over start, bracketed and fields computes the splitter's specification, errors included |
| ForwardSpec.SplitExactly | internal/command/cli_values.go:201-234 | splitting gives a list if and only if it consists of well-formed fields and joins to the input: success, content and uniqueness |
| ForwardSpec.PortExactly | internal/command/cli_values.go:57-95 | the accepted ports are exactly the numbers from 1 to 65535 in decimal with any number of leading zeros; other texts are not decimal or out of range |
| ForwardSpec.HostExactly | internal/command/cli_values.go:236-254 | the accepted hosts: nothing for localhost, bracketed IPv6 text, or a text without separators and brackets |
| ForwardSpec.ParseExactly | internal/command/cli_values.go:178-199 | the accepted texts are exactly the joined fields of the documented forms, each with its one meaning |
| ForwardSpec.PrintedText | internal/session/session_options.go:28-32 | for any forward, the printed text is the two addresses with their decimal ports, bracketed exactly if they hold a colon |
| ForwardSpec.PrintedFourFields | internal/session/session_options.go:28-32 | for a valid forward it splits into those four fields, none of them empty |
| ForwardSpec.ParseOfPrint | internal/session/session_options.go:28-32 | every forward that can be written down is read back from its printed form |
| ForwardSpec.AcceptedIsValid | internal/command/cli_values.go:178-254 | what the parser accepts can be written down: no decimal bind address, real hosts, ports in range |
| ForwardSpec.PrintIsCanonical | internal/command/cli_values.go:104-134 | parsing the printed form of any accepted value gives the same forward |
| ForwardSpec.ParserRange | internal/command/cli_values.go:178-254 | the parser's results are exactly the forwards that can be written down |
| ForwardSpec.PrintIsInjective | internal/command/cli_values.go:104-111 | two accepted values print alike if and only if they mean the same forward |
| ForwardSpec.Shorthands | internal/command/cli_values.go:113-134 | what each shorthand without a bind address means, empty port and every host form included |
| ForwardSpec.BindAddressPrefix | internal/command/cli_values.go:183-190 | a bind address in front of any form replaces the listen address and nothing else, errors included |
| ForwardSpec.ForwardBuilder.SetDestination | internal/command/cli_values.go:113-134 | filling in the receiver's fields gives the specified destination or error |
| ForwardSpec.ParsePortForward | internal/command/cli_values.go:178-199 | the parser with its partly filled forward computes the specification, every error case included |
| ForwardSpec.ForwardValues.Set | internal/command/cli_values.go:151-158 | an accepted value is appended, and a rejected one leaves the earlier values alone |
| ShellWords.RunQuote | internal/remote/provision.go:161-165 | a quoted string adds exactly its contents to the word being read, from any unquoted position |
| ShellWords.TokensOfQuotedWords | internal/remote/provision.go:161-165 | quoting any list of strings, joining with blanks and reading the line gives the list back |
| ShellWords.QuotedLinesAreDistinct | internal/remote/provision.go:161-165 | two lists have the same quoted line if and only if they are equal |
| ShellWords.AppendedExactly | internal/session/args.go:211-225 | unquoted text joins the current word unchanged if and only if no character of it separates or quotes |
| RemoteEnv.BuildMoshCommand | internal/remote/environment.go:41-57 | appending to the script and filling the argv gives the specified argv |
| RemoteEnv.RunEnvPrefix | internal/remote/environment.go:22-25 | the prefix reads as one export command with the five intended assignments |
| RemoteEnv.ExportedWords | internal/remote/environment.go:22-45 | the exports word by word: marker, token, port, browser, wrapper directory ahead of the old PATH, and the agent socket if there is one |
| RemoteEnv.RunExports | internal/remote/environment.go:41-45 | with an agent socket the exports read as two commands, the socket unchanged whatever its characters are |
| RemoteEnv.TokensOfMoshScript | internal/remote/environment.go:50-52 | the script reads as the exports and then exec with the positional arguments |
| RemoteEnv.ScriptBeginsWithExports | internal/remote/environment.go:41-52 | every script, that of an interactive session too, reads as the exports first |
| RemoteEnv.LineBeginsWithExports | internal/remote/environment.go:30-38 | so does the line that ssh runs |
| RemoteEnv.TwoReadingsOfMoshCommand | internal/remote/environment.go:41-57 | for every command, none included: after quoting the argv once more, one reading gives the argv back and a second one the exports in its script with the agent socket unchanged |
| Argv.SSHHostIndex | internal/session/args.go:46-73 | the scan with its skipped values finds the specified host position |
| Argv.DestinationHostAt | internal/session/args.go:157-188 | the Mosh scan with its skipped values finds the specified host position |
| Argv.SSHOptionForms | internal/session/args.go:75-101 | exactly the listed option letters take the next argument; with the value attached, and for all other options, none is taken |
| Argv.MoshOptionForms | internal/session/args.go:173-207 | the long options stand before their value or carry it behind an equals sign, and -p may have it attached |
| Argv.HowFound | internal/session/args.go:46-73 | a found host is an operand reached over whole options, or follows the separator |
| Argv.HostFromHead | internal/session/args.go:21-29 | only the arguments through the host decide where it is found |
| Argv.SplitKeepsAll | internal/session/args.go:21-29 | splitting loses no argument but the separator in front of a Mosh host |
| Argv.SplitOfRebuild | internal/session/args.go:120-155 | for every argv with a Mosh host, rebuilding with any command and splitting again gives the same options and host and that command |
| Argv.RebuildIsStable | internal/session/args.go:143-155 | the Mosh wrapper keeps options and host, and rebuilding its result changes nothing |
| Argv.SplitOfWrappedSSH | internal/session/args.go:31-44 | the ssh wrapper keeps everything through the host and leaves exactly one command |
| Argv.BuildConnOpts | internal/session/session_options.go:57-69 | the connection options are built up in their branches as specified |
| Argv.BuildNativeOptions | internal/session/session_options.go:56-89 | the translation of options, with its loops over forwards, computes the specification |
| Argv.ConnOptsArePairs | internal/session/session_options.go:57-69 | connection options are pairs of an option that takes a value and its value, so no path is read as an option |
| Argv.ConnOptsRead | internal/session/session_options.go:57-69 | read back as pairs: agent forwarding as asked for under -o, the port under -p, the identity file under -i, the configuration file under -F, and nothing else |
| Argv.ForwardsRead | internal/session/session_options.go:70-78 | read back as pairs: the printed local forwards under -L and the remote ones under -R, in order, and nothing else |
| Argv.MasterRead | internal/session/tunnel.go:92-101 | between -N and the host the master reads its own four settings first, then the agent's, and the forwards |
| Argv.HostIsFound | internal/session/session_options.go:79-84 | for every transport the session finds its host where the options put it if and only if the host does not begin with a minus sign |
| Argv.MasterFindsHost | internal/session/tunnel.go:91-101 | the ssh master's argv, forwards and control path included, leads to the host under the same exact condition |
| Argv.SSHClientRunsOnHost | internal/session/session.go:176-185 | the ssh client has the control path first, -t exactly for an interactive session on a terminal, finds the same host and runs one command |
| Argv.WithMoshSSHControlPath | internal/session/args.go:209-225 | the scan of the whole argv edits the first --ssh option, or adds one, and nothing else |
| Argv.ControlPathIsAppended | internal/session/args.go:211-225 | on any argv the first --ssh option, in either form, gets the path at the end of its value, or one is put in front; nothing else changes |
| Argv.ControlPathGoesToIndexOne | internal/session/args.go:211-225 | for an argv of the client's form the edit happens at index one, whatever follows |
| Argv.BuildMoshClientArgs | internal/session/session.go:147-160 | the Mosh client's argv is built and edited as specified, and missing hosts are reported |
| Argv.MoshClientKeepsCommand | internal/session/session.go:147-160 | everything after the --ssh option stays as wrapped, and Mosh finds the same host and command, even when the command mentions --ssh |
| Argv.FinalSSHOptionReads | internal/session/session.go:152-159 | the --ssh value reads as ssh, no agent forwarding, the connection options and the control path if and only if the control path needs no quoting |
| Argv.BlankBreaksSSHOption | internal/session/args.go:212-221 | a control path with a blank is not read back: a concrete case in which the unquoted append fails |
| Argv.SameCommandUnderBothTransports | internal/remote/environment.go:31-57 | for a non-empty command both wrappers run the same joined words after the same exports |
| Argv.SSHWrapsCommand | internal/session/args.go:31-44 | the wrapped ssh argv is the connection options, the host and the one script, interactive exactly without a command |
| Argv.MoshWrapsCommand | internal/session/args.go:143-155 | the wrapped Mosh argv is the separator, the host, sh -c with the script and, if there is a command, a shell for the joined words |
| Argv.WrappedCommand | internal/session/session.go:103-123 | both branches, with their re-scans and the quoting loop, compute the specified line |
| Argv.WrappedMoshReads | internal/session/session.go:105-113 | the Mosh form is a shell line that reads as the argv that mosh-server would run |
| Argv.WrappedSSHReads | internal/session/session.go:114-122 | the ssh form is the exports and the command, whatever the options are |
| ClipboardCodec.FieldsOfJoin | internal/protocol/server.go:232 | splitting a blank-separated line gives its words, UTF-8 white space included |
| ClipboardCodec.NumberTextReads | internal/protocol/client.go:88-92 | a printed length is read back up to the largest 64-bit integer, and not above |
| ClipboardCodec.SignedNumberReads | internal/protocol/server.go:262 | a length may carry a sign, within the limits of a 64-bit integer |
| WhiteSpace.SameInUtf8 | internal/protocol/server.go:232 | white space on UTF-8 bytes is exactly white space on characters |
| WhiteSpace.PythonHasFourMore | internal/remote/shim.py:56-59 | Python strips exactly four characters more than Go |
| ClipboardCodec.HeaderExactly | internal/protocol/server.go:230-291 | the accepted header lines: exactly the protocol's name, a token, a known verb and, for a verb with a payload only, a length up to 64 MiB |
| ClipboardCodec.ParseOfHeader | internal/protocol/server.go:230-291 | what the server makes of any client's header: the header, a malformed shape, or a bad length |
| ClipboardCodec.RequestIsRead | internal/protocol/server.go:160-182 | from a client's bytes the server reads the same verb, token and length, with exactly the payload left, or the error that its size calls for |
| ClipboardCodec.BadLengthIsRefusedEarly | internal/protocol/server.go:254-291 | a length is refused from the header line alone if and only if it is not a number between 0 and 64 MiB |
| ClipboardCodec.ReplyIsRead | internal/protocol/client.go:63-78 | a client reads every reply as its status line and, for a body reply only, exactly the body |
| ClipboardCodec.LengthOfReply | internal/protocol/client.go:80-93 | a greeting, a plain OK or an error is never taken as announcing a body |
| ClipboardCodec.CutReplyIsNoticed | internal/protocol/client.go:63-78 | of a reply cut off at any byte a client reads all or nothing |
| ClipboardServer.Linearizable | internal/protocol/server.go:155-228 | in every interleaving connections settle at most once each, the desktop is that of serving them whole in that order, and a closed one was sent exactly its reply |
| ClipboardServer.NothingBeforeSettling | internal/protocol/server.go:155-218 | a connection that has not settled was sent nothing and did nothing; a settled one was sent a part of its one reply |
| ClipboardServer.StepMakesProgress | internal/protocol/server.go:220-228 | each step of an open connection brings it nearer to its end and touches no other |
| ClipboardServer.OrderRespectsRealTime | internal/protocol/server.go:220-228 | a connection closed before another was accepted comes first in the order |
| ClipboardServer.DecideCopy | internal/protocol/server.go:171-189 | an input sets the clipboard to some data if and only if it is a complete COPY of that data with the right token |
| ClipboardServer.DecideOpen | internal/protocol/server.go:198-201 | an input opens a target if and only if it is a complete OPEN of that target with the right token |
| ClipboardServer.DecidePaste | internal/protocol/server.go:190-197 | an input reads the clipboard if and only if it is a PASTE with the right token |
| ClipboardServer.ReplayOpensTargets | internal/protocol/server.go:198-218 | in every order, what is opened is the targets of the complete authentic requests without a fault, in order |
| ClipboardServer.OpensExactlyTargets | internal/protocol/server.go:155-228 | the same in every interleaving |
| ClipboardServer.ReplayHoldsLatestCopy | internal/protocol/server.go:184-218 | the clipboard is the data of the latest successful copy in the order |
| ClipboardServer.ClipboardIsAuthentic | internal/protocol/server.go:155-218 | at every moment the clipboard is the initial value or the complete payload of an accepted COPY with the right token |
| ClipboardServer.PasteReturnsLatestCopy | internal/protocol/server.go:190-197 | a paste returns the latest copy before it in the order |
| ClipboardServer.RequestDecision | internal/protocol/server.go:156-205 | what the server decides for every client request, in the order of its checks |
| ClipboardServer.CutRequestIsRefused | internal/protocol/server.go:160-164 | a request cut off at any byte is answered with an error and performs nothing |
| ClipboardServer.CopyOutcome | internal/protocol/client.go:16-26 | Copy succeeds if and only if its data is not nil, fits, carries the right token and the desktop works; the clipboard is then the data and otherwise unchanged |
| ClipboardServer.OpenOutcome | internal/protocol/server.go:198-218 | an OPEN is answered with a plain OK exactly under its condition; then exactly its one target is opened, else nothing, and the clipboard stays |
| ClipboardServer.FaultIsReported | internal/protocol/server.go:190-218 | a desktop tool that fails changes nothing and is reported in its own words |
| ClipboardServer.RefusalLines | internal/protocol/server.go:160-180 | the words with which each kind of request is refused |
| ClipboardServer.CopyThenPaste | internal/protocol/client.go:28-38 | a Copy and then a Paste with the same token return exactly the data, empty data included |
| ClipboardServer.PasteAfterCopy | internal/protocol/client.go:16-38 | in every interleaving, a successful Paste that began after a successful Copy ended returns its data, or that of an effective copy placed between the two |
| ClipboardServer.SuccessfulCopyHadEffect | internal/protocol/client.go:16-26 | in every interleaving, a Copy that its client saw succeed set the clipboard to its data at its place in the order |
| ClipboardServer.Conn.ReadString | internal/protocol/server.go:160-165 | reading byte by byte gives the first line with its newline, or an error, and leaves the rest |
| ClipboardServer.Conn.ReadPayload | internal/protocol/server.go:293-303 | exactly n bytes or an error |
| ClipboardServer.ReadHeader | internal/protocol/server.go:160-175 | the header or the error of the specification, with the payload left unread |
| ClipboardServer.Handle | internal/protocol/server.go:155-182 | the sequential handler changes the desktop and answers as the specification of a whole connection says |
| ClipboardServer.Execute | internal/protocol/server.go:184-205 | after the token check, the desktop and the answer are those of the verb |
| ClipboardServer.HandlePayload | internal/protocol/server.go:207-218 | a short payload is refused, and otherwise the one operation is performed on exactly the payload |
| TunnelWait.StatusIsReceivedOnce | internal/session/tunnel.go:177-213 | in every interleaving the channel is received from at most once, a receipt completes the Once with the child's own status, and the goroutine can always send |
| TunnelWait.StopLeavesNothing | internal/session/tunnel.go:128-138 | when Stop has returned the child has exited and been waited for, the goroutine is gone and the channel is empty |
| TunnelWait.StopMakesProgress | internal/session/tunnel.go:128-138 | while Stop runs some step is always possible without outside help, and every possible step lowers a measure of at most six |
| TunnelWait.StopReturns | internal/session/tunnel.go:128-138 | every run from a state in which Stop runs passes through its return within the measure, at most six steps, if it goes on that long |
| TunnelWait.StopCanReturn | internal/session/tunnel.go:128-138 | such runs exist: from each of those states, steps that are sure to come lead to the return |
| TunnelWait.RunKeepsInv | internal/session/tunnel.go:111-213 | every step of child, goroutine, readiness loop and Stop keeps the invariant on where the exit status is |
| TunnelWait.FirstEventDecides | internal/session/tunnel.go:190-213 | the tunnel comes into use only after a successful check, and fails only with the reason that came first; until then it waits on |
| TunnelWait.WaitCanEnd | internal/session/tunnel.go:195-212 | a failed check leads back to where the deadline and the child's exit are noticed |
| SessionLifetime.Server.Relisten | internal/protocol/server.go:108-130 | success replaces the listener by one on another port, failure keeps the old one, and other listeners stay |
| SessionLifetime.SearchIsBounded | internal/session/tunnel.go:219-242 | at most eight attempts, each on the port of that moment; only a busy port leads to another; the last outcome decides the result |
| SessionLifetime.BindClipboardForward | internal/session/tunnel.go:219-235 | the retry loop that swaps listeners follows the search, has exactly one listener at each attempt and at return, and forwards exactly the server's port on success and none otherwise |
| SessionLifetime.StartTunnel | internal/session/tunnel.go:91-126 | the master is held exactly on success, and stopped again when it does not become ready |
| SessionLifetime.EstablishSession | internal/session/tunnel.go:49-86 | exactly when every step works the master and directory are held, the server's port is forwarded and the parameters name it; else everything is released |
| SessionLifetime.Open | internal/session/session.go:55-80 | the same for opening a session, with the transport that detection chose |
| SessionLifetime.AutoTransport | internal/session/session.go:125-145 | Mosh if it is found on both sides, ssh if either side has none, and an error otherwise |
| SessionLifetime.StartedClientsAreWanted | internal/session/session.go:125-145 | every started client is Mosh exactly when asked for or detected on both sides, and goes through the session's own control socket |
| SessionLifetime.UnansweredProbeStartsNothing | internal/session/session.go:134-144 | without a usable answer nothing is started |
| SessionLifetime.ClientNeedsEveryStep | internal/session/session.go:13-80 | a client is started if and only if each single step of the setup works |
| SessionLifetime.MoshClientsExportSocket | internal/session/tunnel.go:67-75 | with agent forwarding a Mosh client exports the socket that the check reported |
| SessionLifetime.AgentOnlyWhenAskedFor | internal/session/tunnel.go:68-75 | without agent forwarding the agent makes no difference |
| SessionLifetime.Teardown | internal/session/tunnel.go:76-80 | master first, then directory, leaving only the clipboard listener |
| SessionLifetime.RunClient | internal/session/session.go:162-174 | the client is started exactly when its arguments exist and it can be started, with the forwards of that moment; the result says which |
| SessionLifetime.RunWithServer | internal/session/session.go:23-40 | under the deferred Stop everything but the listener is released on every path |
| SessionLifetime.Run | internal/session/session.go:13-40 | whatever fails, all is released and no listener is left; the clients started are exactly the planned one, with arguments built from the port that the search ended on, and none if setup fails |
| SessionLifetime.StartedClientsExportTheirForward | internal/session/tunnel.go:67-75 | every started client has a script that exports the session's token and exactly the one port that is forwarded |
| SessionLifetime.ReleasedInReverse | internal/session/session.go:23-32 | in every trace that keeps the order, a resource acquired after another is released before it, unless that other was acquired once more in between |
| SessionLifetime.ReleasesMatch | internal/session/session.go:14-80 | in every trace that keeps the order, acquisitions and releases of a resource differ by those still held |
| SessionLifetime.EstablishedSessionsStart | internal/session/session.go:147-192 | a host that does not begin with a minus sign always gives the client its arguments, so a session that was set up starts it |
| Shim.LoadTokenPort | internal/remote/shim.py:46-69 | token and port come each from the environment first and else from the first line with a value; only the port has a default |
| Shim.FirstValueExactly | internal/remote/shim.py:52-59 | a value is found exactly when it is that of the first line with one |
| Shim.BlanksDoNotMatter | internal/remote/shim.py:53-59 | blanks around the name and the value do not matter |
| Shim.DefaultPort | internal/remote/shim.py:62-69 | where nothing names a port it is 2489, and without a token there is nothing to use |
| Shim.SignedNumeral | internal/remote/shim.py:66-69 | a port may carry a sign |
| Shim.BlankBeforeNumber | internal/remote/shim.py:66-69 | a blank in front of a port does not matter |
| Shim.ProvisionLineReads | internal/remote/provision.go:63-67 | the shell passes printf its format, the token and the port unchanged, whatever the token is |
| Shim.WrittenEnvText | internal/remote/provision.go:63-67 | printf then writes exactly one line for each credential |
| Shim.EnvFileIsReadBack | internal/remote/shim.py:46-69 | the lines of that file give back the same token and port, each overruled by the environment alone |
| Shim.PyIntOfItoa | internal/remote/shim.py:66-69 | a printed port reads as the same number |
| Shim.Machine.FirstEligible | internal/remote/shim.py:130-161 | the found directory is eligible and no earlier one is; nothing is found exactly when none is eligible |
| Shim.EntriesOfPath | internal/remote/shim.py:130-132 | PATH is split at colons, and an empty part stands for the current directory |
| Shim.FindFallback | internal/remote/shim.py:121-161 | the loop with its skips and errors returns the first eligible entry: an executable file outside the excluded and wrapper directories that is not the shim |
| Shim.Host.PassThrough | internal/remote/shim.py:121-173 | the search that a wrapper makes is the next step of the chain, for every name, slush-open included |
| Shim.Host.NextIsWrapper | internal/remote/shim.py:121-161 | a wrapper passes to another wrapper if and only if its name is not slush-open and a link to a different shim, outside the wrapper directories, precedes the first native tool |
| Shim.Host.ChainEndsUnlessStraysDisagree | internal/remote/shim.py:121-173 | a chain of passes ends within two steps, except that it never ends when two such links lead to different shims; for slush-open it ends at once |
| Shim.Host.InstalledWrappersPassOnce | internal/remote/provision.go:112-123 | with every link beside its shim, as installed, no wrapper passes to a wrapper |
| Shim.TwoInstallationsLoop | internal/remote/shim.py:139-145 | a concrete machine on which two wrappers pass to each other without end |
| ShimClient.Exchange | internal/remote/shim.py:72-98 | the shim sends the bytes of the local client's request and reads the answer as specified |
| ShimClient.SendRequest | internal/remote/shim.py:72-89 | header and payload together are exactly the request of the protocol, with an empty payload not sent separately |
| ShimClient.ReadsWholeReply | internal/remote/shim.py:189-201 | of whole replies only a plain OK counts as copied, only a body is printed, and an error is neither |
| ShimClient.ShimCopyOutcome | internal/remote/shim.py:189-194 | the shim reports a copy if and only if payload and header fit, the token is right and the desktop works; the clipboard is then the payload and otherwise unchanged |
| ShimClient.ShimOpenOutcome | internal/remote/shim.py:204-207 | the shim reports an opened target under an exact condition; then exactly that target is opened |
| ShimClient.NegativeLength | internal/remote/shim.py:93-97 | a negative length of -1 stands for everything that is left, any other for nothing |
| ShimClient.ShimPasteOutcome | internal/remote/shim.py:197-201 | the shim prints exactly the server's clipboard or fails, under an exact condition, and changes nothing |
| ShimClient.PasteOfCutReply | internal/remote/shim.py:90-98 | what the shim prints for a paste reply that is cut off at any byte |
| ShimClient.CutPasteLooksComplete | internal/remote/shim.py:197-201 | the printed text is the clipboard if and only if the whole reply arrived, or the clipboard was empty and two bytes arrived |
| ShimClient.CopiedOfCutReply | internal/remote/shim.py:189-194 | for every reply cut off at any byte, when the shim reports a copy: a plain OK from its second byte on, an error never, any other reply only if it ends behind the letters |
| ShimClient.LocalClientNoticesCut | internal/protocol/client.go:28-38 | the local Paste returns data only for the whole reply |

## Left out

- `readKnownHosts` and the filter and sort of `completeHost` (internal/command/hosts.go:14-48, 165-190): they add only easy members.
- Scanner line limits and invalid UTF-8 in configuration files: a file is a list of lines of characters.
- Path syntax of other platforms: an absolute pattern is one that begins with a slash.
- Shell expansions and multi-character operators: the tokenizer keeps a dollar sign in its word and reads operators one character at a time. The interactive shell text is carried but not read.
- RemoteEnv.RunEnvPrefix: asks, like the lemmas built on it, that the token has no quoting or separating character, because the program inserts it unquoted; slush's own tokens are hexadecimal.
- Failing writes to a connection, the client's dial errors, and socket deadlines except as an early end of input; the shim's timeout.
- ClipboardServer.Linearizable: takes each desktop operation as one atomic step, because the tools behind it are separate programs.
- Token generation and constant-time comparison: only equality of tokens matters here.
- SessionLifetime.EstablishSession: treats provisioning as a step that may fail without effect, as the program does; the scripts it runs are not modelled beyond the line that writes the credentials.
- Process spawning, terminals and signals; the client is one outcome.
- `checkRemoteAgent` is one outcome and its text is not modelled.
- Shim.PyIntOfItoa: Python's `int` is modelled for ASCII digits, signs, blanks and underscores, not for other digits.
- ShimClient.Exchange: does not model the error that ends the shim when the announced length is beyond the platform's index range or its memory; the server announces the size of what it sends.
- Shim.WrittenEnvText: models printf for the conversions that the line uses; the script around the line is not modelled.
- The shim's choice of action by its own name, its first operand, and what it does when the native tool cannot be started (internal/remote/shim.py:204-262).
- Session probes, `install.go`, `validate.go`, the command-line framework and its help text.
