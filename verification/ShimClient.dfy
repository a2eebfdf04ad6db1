/** The remote client of the clipboard protocol (internal/remote/shim.py, exchange,
    do_copy and do_paste): what it sends, how it reads replies, and what becomes of
    replies that end early. */
module ShimClient {
  import opened Text
  import opened ClipboardCodec
  import opened Shim
  import ClipboardServer

  predicate AllAscii(b: Bytes) { forall i :: 0 <= i < |b| ==> b[i] < 128 }

  function Chars(b: Bytes): string
    requires AllAscii(b)
  {
    seq(|b|, i requires 0 <= i < |b| => (b[i] as int) as char)
  }

  /** What any UTF-8 decoder does with ASCII at the front, however it treats the rest. */
  ghost predicate KeepsAscii(decode: Bytes -> string) {
    && decode([]) == ""
    && forall a: Bytes, b: Bytes {:trigger decode(a + b)} :: AllAscii(a) ==> decode(a + b) == Chars(a) + decode(b)
  }

  datatype Response = Response(line: string, body: Bytes)

  /** stream.readline: through the newline, or everything that is left. */
  function LineAndRest(stream: Bytes): (Bytes, Bytes) {
    match ReadLine(stream)
    case None => (stream, [])
    case Some((line, rest)) => (line + [NEWLINE], rest)
  }

  /** str.split(" "). */
  function SplitAtBlanks(s: string, field: string): (fields: seq<string>)
    ensures fields != []
    decreases |s|
  {
    if s == "" then [field]
    else if s[0] == ' ' then [field] + SplitAtBlanks(s[1..], "")
    else SplitAtBlanks(s[1..], field + [s[0]])
  }

  /** stream.read: fewer bytes if the stream ends, all of them for -1, and an error,
      after which the body is empty, for any other negative count. */
  function UpTo(stream: Bytes, n: int): Bytes {
    if n < -1 then [] else if 0 <= n <= |stream| then stream[..n] else stream
  }

  /** The length that a status line announces. */
  function Announced(line: string): Option<int> {
    var fields := SplitAtBlanks(line, "");
    if |fields| != 2 || fields[0] != "OK" then None else PyInt(fields[1])
  }

  function BodyAfter(line: string, rest: Bytes): Bytes {
    match Announced(line)
    case None => []
    case Some(n) => UpTo(rest, n)
  }

  function Read(decode: Bytes -> string, stream: Bytes): Response {
    var (raw, rest) := LineAndRest(stream);
    var line := Strip(decode(raw));
    Response(line, BodyAfter(line, rest))
  }

  /** What do_copy and do_paste make of the answer; a failure exits with an error. */
  predicate Copied(response: Response) { response.line == "OK" }

  function Pasted(response: Response): Option<Bytes> {
    if HasPrefix(response.line, "OK") then Some(response.body) else None
  }

  /** A connected socket: what was sent and what will still arrive. */
  class Socket {
    var sent: Bytes
    var arriving: Bytes

    constructor (arriving: Bytes)
      ensures sent == [] && this.arriving == arriving
    {
      sent, this.arriving := [], arriving;
    }

    method SendAll(data: Bytes)
      modifies this`sent
      ensures sent == old(sent) + data
    {
      sent := sent + data;
    }

    method ReceiveLine() returns (raw: Bytes)
      modifies this`arriving
      ensures (raw, arriving) == LineAndRest(old(arriving))
    {
      var found := ReadLine(arriving);
      if found.None? {
        raw := arriving;
        arriving := [];
      } else {
        raw := found.value.0 + [NEWLINE];
        arriving := found.value.1;
      }
    }
  }

  /** exchange: the request on the wire is the one that the local client sends. */
  method Exchange(decode: Bytes -> string, socket: Socket, token: Bytes, verb: Verb, payload: Option<Bytes>)
    returns (response: Response)
    requires socket.sent == []
    modifies socket
    ensures socket.sent == Request(token, verb, payload)
    ensures response == Read(decode, old(socket.arriving))
  {
    SendRequest(socket, token, verb, payload);
    var raw := socket.ReceiveLine();
    var line := Strip(decode(raw));
    var body: Bytes := [];
    var n := Announced(line);
    if n.Some? {
      body := UpTo(socket.arriving, n.value);
    }
    return Response(line, body);
  }

  method SendRequest(socket: Socket, token: Bytes, verb: Verb, payload: Option<Bytes>)
    requires socket.sent == []
    modifies socket`sent
    ensures socket.sent == Request(token, verb, payload)
  {
    var header := MAGIC + [SPACE] + token + [SPACE] + VerbText(verb);
    if payload.Some? {
      header := header + ([SPACE] + NumberText(|payload.value|));
    }
    HeaderText(token, verb, payload);
    socket.SendAll(header + [NEWLINE]);
    if payload.Some? && payload.value != [] {
      socket.SendAll(payload.value);
    }
  }

  lemma HeaderText(token: Bytes, verb: Verb, payload: Option<Bytes>)
    ensures JoinWords(HeaderWords(token, verb, payload)) ==
            MAGIC + [SPACE] + token + [SPACE] + VerbText(verb)
            + if payload.Some? then [SPACE] + NumberText(|payload.value|) else []
  {
    JoinOfFour(MAGIC, token, VerbText(verb), NumberText(PayloadLength(payload)));
    var words := HeaderWords(token, verb, payload);
    if payload.Some? {
      assert words == [MAGIC, token, VerbText(verb), NumberText(PayloadLength(payload))];
    } else {
      assert words == [MAGIC, token, VerbText(verb)];
      assert JoinWords(words) == JoinWords(words) + [];
    }
  }

  lemma JoinOfFour(a: Bytes, b: Bytes, c: Bytes, d: Bytes)
    ensures JoinWords([a, b, c]) == a + [SPACE] + b + [SPACE] + c
    ensures JoinWords([a, b, c, d]) == a + [SPACE] + b + [SPACE] + c + ([SPACE] + d)
  {
    JoinOfWords([a, b, c]);
    JoinOfWords([b, c, d]);
    assert [a, b, c, d][1..] == [b, c, d];
    assert JoinWords([a, b, c, d]) == a + [SPACE] + (b + [SPACE] + c + [SPACE] + d);
  }

  // Reading replies.

  predicate IsAsciiText(s: string) { forall i :: 0 <= i < |s| ==> s[i] as int < 128 }

  lemma CharsOfAscii(s: string)
    requires IsAsciiText(s)
    ensures AllAscii(Ascii(s)) && Chars(Ascii(s)) == s
  {
  }

  lemma DecodeOfAscii(decode: Bytes -> string, s: string, more: Bytes)
    requires KeepsAscii(decode) && IsAsciiText(s)
    ensures decode(Ascii(s) + more) == s + decode(more)
    ensures decode(Ascii(s)) == s
  {
    CharsOfAscii(s);
    assert Ascii(s) + [] == Ascii(s);
    assert decode(Ascii(s) + []) == s + decode([]);
  }

  lemma {:induction false} SplitWord(word: string, rest: string, field: string)
    requires ' ' !in word
    ensures SplitAtBlanks(word + rest, field) == SplitAtBlanks(rest, field + word)
    decreases |word|
  {
    if word == "" {
      assert word + rest == rest && field + word == field;
    } else {
      assert word[0] in word && (word + rest)[1..] == word[1..] + rest;
      SplitWord(word[1..], rest, field + [word[0]]);
      assert field + [word[0]] + word[1..] == field + word;
    }
  }

  lemma SplitTwo(first: string, second: string)
    requires ' ' !in first && ' ' !in second
    ensures SplitAtBlanks(first + " " + second, "") == [first, second]
  {
    var rest := " " + second;
    assert first + " " + second == first + rest && rest[1..] == second;
    SplitWord(first, rest, "");
    SplitWord(second, "", "");
    assert second + "" == second && "" + first == first && "" + second == second;
  }

  /** Only a body reply announces a length. */
  lemma AnnouncedLength(n: nat)
    ensures Announced("OK " + Itoa(n)) == Some(n) && Announced("OK") == None
  {
    PyIntOfItoa(n);
    SplitTwo("OK", Itoa(n));
    assert "OK " == "OK" + " ";
    SplitWord("OK", "", "");
  }

  /** A negative length: -1 stands for everything that is left, any other for nothing. */
  lemma NegativeLength(n: nat, rest: Bytes)
    ensures BodyAfter("OK -" + Itoa(n), rest) == if n == 1 then rest else []
  {
    var number := "-" + Itoa(n);
    SignedNumeral("-", n);
    PyIntOfItoa(n);
    SplitTwo("OK", number);
    assert "OK" + " " + number == "OK -" + Itoa(n);
    assert rest[..0] == [];
  }

  /** Stripping keeps everything up to a character that is no blank. */
  lemma StripKeepsFront(s: string, k: nat)
    requires k < |s| && !IsPySpace(s[0]) && !IsPySpace(s[k])
    ensures |Strip(s)| > k && Strip(s)[..k + 1] == s[..k + 1]
  {
    RightStripKeepsFront(s, k);
  }

  lemma {:induction false} RightStripKeepsFront(s: string, k: nat)
    requires k < |s| && !IsPySpace(s[k])
    ensures |RightStrip(s)| > k && RightStrip(s)[..k + 1] == s[..k + 1]
    decreases |s|
  {
    if IsPySpace(s[|s| - 1]) {
      var shorter := s[..|s| - 1];
      RightStripKeepsFront(shorter, k);
      assert shorter[..k + 1] == s[..k + 1];
    }
  }

  /** The status line of a body reply as text. */
  function OkLine(n: nat): string { "OK " + Itoa(n) }

  lemma OkLineText(n: nat)
    ensures var text := OkLine(n);
            |text| >= 4 && text[..2] == "OK" && !IsPySpace(text[0]) && !IsPySpace(text[1])
    ensures !IsPySpace(OkLine(n)[|OkLine(n)| - 1]) && IsAsciiText(OkLine(n))
    ensures Ascii("OK") + [SPACE] + NumberText(n) == Ascii(OkLine(n))
  {
    PyIntOfItoa(n);
    AsciiConcat("OK", " ");
    AsciiConcat("OK ", Itoa(n));
    assert "OK" + " " == "OK ";
    assert Ascii(" ") == [SPACE];
  }

  lemma AsciiConcat(a: string, b: string)
    ensures Ascii(a + b) == Ascii(a) + Ascii(b)
  {
  }

  lemma LineOfText(decode: Bytes -> string, text: string, rest: Bytes)
    requires KeepsAscii(decode) && IsAsciiText(text) && NEWLINE !in Ascii(text)
    requires text != "" ==> !IsPySpace(text[0]) && !IsPySpace(text[|text| - 1])
    ensures Read(decode, Ascii(text) + [NEWLINE] + rest) == Response(text, BodyAfter(text, rest))
  {
    ReadLineOf(Ascii(text), rest);
    var ended := text + "\n";
    assert Ascii(ended) == Ascii(text) + [NEWLINE];
    DecodeOfAscii(decode, ended, []);
    StripLine(text);
  }

  lemma LineWithoutEnd(decode: Bytes -> string, text: string)
    requires KeepsAscii(decode) && IsAsciiText(text) && NEWLINE !in Ascii(text)
    ensures Read(decode, Ascii(text)) == Response(Strip(text), [])
  {
    ReadLineOfNone(Ascii(text));
    DecodeOfAscii(decode, text, []);
  }

  lemma OkReplyText(data: Bytes)
    ensures ReplyBytes(Body(data)) == Ascii(OkLine(|data|)) + [NEWLINE] + data
    ensures NEWLINE !in Ascii(OkLine(|data|))
  {
    OkLineText(|data|);
    ReplyWords(Body(data));
  }

  lemma CutBody(decode: Bytes -> string, length: nat, arrived: Bytes)
    requires KeepsAscii(decode) && |arrived| <= length
    ensures Pasted(Read(decode, Ascii(OkLine(length)) + [NEWLINE] + arrived)) == Some(arrived)
  {
    OkLineText(length);
    OkReplyText(seq(length, _ => 0));
    LineOfText(decode, OkLine(length), arrived);
    AnnouncedLength(length);
    assert |arrived| == length ==> arrived[..length] == arrived;
    assert HasPrefix(OkLine(length), "OK");
  }

  /** A paste reply that is cut off after n bytes: once two bytes have arrived the
      shim reports success, with as much of the body as arrived. */
  lemma PasteOfCutReply(decode: Bytes -> string, data: Bytes, n: nat)
    requires KeepsAscii(decode) && n <= |ReplyBytes(Body(data))|
    ensures var header := |OkLine(|data|)| + 1;
            Pasted(Read(decode, ReplyBytes(Body(data))[..n])) ==
            if n < 2 then None else if n < header then Some([]) else Some(data[..n - header])
  {
    var text := OkLine(|data|);
    OkLineText(|data|);
    OkReplyText(data);
    PrefixOfThree(Ascii(text), NEWLINE, data, n);
    if n > |text| {
      CutBody(decode, |data|, data[..n - |text| - 1]);
    } else {
      CutLine(decode, text, n);
      assert Ascii(text)[..n] == Ascii(text[..n]);
    }
  }

  lemma PrefixOfThree(a: Bytes, b: Byte, c: Bytes, n: nat)
    requires n <= |a| + 1 + |c|
    ensures (a + [b] + c)[..n] == if n > |a| then a + [b] + c[..n - |a| - 1] else a[..n]
  {
  }

  lemma CutLine(decode: Bytes -> string, text: string, n: nat)
    requires KeepsAscii(decode) && IsAsciiText(text) && NEWLINE !in Ascii(text) && n <= |text|
    requires |text| >= 2 && text[..2] == "OK"
    ensures Pasted(Read(decode, Ascii(text[..n]))) == if n < 2 then None else Some([])
  {
    var cut := text[..n];
    assert Ascii(cut) == Ascii(text)[..n];
    LineWithoutEnd(decode, cut);
    assert text[0] == text[..2][0] && text[1] == text[..2][1];
    if n < 2 {
      if n == 1 {
        StripLine(cut);
      }
    } else {
      StripKeepsFront(cut, 1);
      assert cut[..2] == "OK";
    }
  }

  /** So what a paste prints is complete exactly when the whole reply has arrived,
      or its line has begun and there was nothing to print. */
  lemma CutPasteLooksComplete(decode: Bytes -> string, data: Bytes, n: nat)
    requires KeepsAscii(decode) && n <= |ReplyBytes(Body(data))|
    ensures Pasted(Read(decode, ReplyBytes(Body(data))[..n])) == Some(data)
            <==> n == |ReplyBytes(Body(data))| || (data == [] && n >= 2)
  {
    PasteOfCutReply(decode, data, n);
    OkReplyText(data);
    assert data[..|data|] == data;
  }

  /** The local client takes nothing but the whole reply. */
  lemma LocalClientNoticesCut(data: Bytes, n: nat)
    requires n <= |ReplyBytes(Body(data))| && |data| <= MAX_INT
    ensures ClipboardServer.PasteResult(ReadResponse(ReplyBytes(Body(data))[..n]))
            == if n == |ReplyBytes(Body(data))| then Some(data) else None
  {
    var rest := ReplyHasLine(Body(data));
    CutReplyIsNoticed(Body(data), n);
    ReplyWords(Body(data));
    ClipboardServer.BodyIsPasted(data);
    assert ReplyBytes(Body(data))[..|ReplyBytes(Body(data))|] == ReplyBytes(Body(data));
  }

  const GREETING := "OK slush-clipboard 1"

  lemma GreetingText()
    ensures IsAsciiText(GREETING) && Ascii(GREETING) == ReplyLine(Greeting)
    ensures !IsPySpace(GREETING[0]) && !IsPySpace(GREETING[|GREETING| - 1])
    ensures GREETING != "OK" && HasPrefix(GREETING, "OK")
  {
    var text := "OK" + (" " + ("slush-clipboard" + (" " + "1")));
    assert GREETING == text;
  }

  lemma ThreeFields(first: string, second: string, third: string)
    requires ' ' !in first && ' ' !in second
    ensures |SplitAtBlanks(first + (" " + (second + (" " + third))), "")| >= 3
  {
    var rest := " " + (second + (" " + third));
    SplitWord(first, rest, "");
    assert rest[1..] == second + (" " + third);
    SplitWord(second, " " + third, "");
    assert (" " + third)[1..] == third;
  }

  lemma GreetingAnnouncesNothing()
    ensures Announced(GREETING) == None
  {
    assert GREETING == "OK" + (" " + ("slush-clipboard" + (" " + "1")));
    ThreeFields("OK", "slush-clipboard", "1");
  }

  /** Whatever the server replies in full, the shim takes a plain OK for a copied
      clipboard and nothing else, prints the body of a paste and of nothing else,
      and takes an error for neither. */
  lemma ReadsWholeReply(decode: Bytes -> string, reply: Reply)
    requires KeepsAscii(decode)
    ensures var response := Read(decode, ReplyBytes(reply));
            && (Copied(response) <==> reply.Done?)
            && Pasted(response) == if reply.Failure? then None else Some(if reply.Body? then reply.body else [])
  {
    match reply {
      case Failure(text) =>
        ReadsFailure(decode, text);
      case Body(body) =>
        ReadsBody(decode, body);
      case Done =>
        ReadsDone(decode);
      case Greeting =>
        ReadsGreeting(decode);
    }
  }

  lemma ReadsDone(decode: Bytes -> string)
    requires KeepsAscii(decode)
    ensures var response := Read(decode, ReplyBytes(Done)); Copied(response) && Pasted(response) == Some([])
  {
    ReplyWords(Done);
    LineOfText(decode, "OK", []);
    AnnouncedLength(0);
    assert Ascii("OK") + [NEWLINE] + [] == ReplyBytes(Done);
  }

  lemma ReadsGreeting(decode: Bytes -> string)
    requires KeepsAscii(decode)
    ensures var response := Read(decode, ReplyBytes(Greeting)); !Copied(response) && Pasted(response) == Some([])
  {
    ReplyWords(Greeting);
    GreetingText();
    GreetingAnnouncesNothing();
    LineOfText(decode, GREETING, []);
    assert Ascii(GREETING) + [NEWLINE] + [] == ReplyBytes(Greeting);
  }

  lemma ReadsBody(decode: Bytes -> string, body: Bytes)
    requires KeepsAscii(decode)
    ensures var response := Read(decode, ReplyBytes(Body(body)));
            !Copied(response) && Pasted(response) == Some(body)
  {
    OkReplyText(body);
    OkLineText(|body|);
    LineOfText(decode, OkLine(|body|), body);
    CutBody(decode, |body|, body);
  }

  const LETTER_E: Byte := 69

  lemma ReadsFailure(decode: Bytes -> string, text: Bytes)
    requires KeepsAscii(decode)
    ensures var response := Read(decode, ReplyBytes(Failure(text)));
            !Copied(response) && Pasted(response) == None
  {
    var rest := ReplyHasLine(Failure(text));
    ErrorBegins(text);
    ReadsError(decode, StatusLine(Failure(text)), rest);
  }

  lemma ErrorBegins(text: Bytes)
    ensures var status := StatusLine(Failure(text)); status != [] && status[0] == LETTER_E
  {
    StatusOfFailure(text);
    var first :| StatusLine(Failure(text)) == Ascii("ERR") + [SPACE] + first;
    assert Ascii("ERR")[0] == LETTER_E;
  }

  lemma ReadsError(decode: Bytes -> string, status: Bytes, rest: Bytes)
    requires KeepsAscii(decode) && NEWLINE !in status && status != [] && status[0] == LETTER_E
    ensures var response := Read(decode, status + [NEWLINE] + rest);
            !Copied(response) && Pasted(response) == None
  {
    ReadLineOf(status, rest);
    ErrorLine(decode, status + [NEWLINE]);
  }

  lemma ErrorLine(decode: Bytes -> string, raw: Bytes)
    requires KeepsAscii(decode) && raw != [] && raw[0] == LETTER_E
    ensures !HasPrefix(Strip(decode(raw)), "OK")
  {
    var letter := [LETTER_E];
    assert raw == letter + raw[1..];
    assert decode(letter + raw[1..]) == Chars(letter) + decode(raw[1..]);
    StripKeepsFront(decode(raw), 0);
    assert Strip(decode(raw))[0] == Strip(decode(raw))[..1][0] == 'E';
  }

  // Copy replies that are cut off.

  /** The texts of status lines that begin with OK: nothing more, or a blank and more. */
  predicate IsOkText(text: string) {
    && IsAsciiText(text) && |text| >= 2 && text[..2] == "OK" && !IsPySpace(text[0])
    && !IsPySpace(text[|text| - 1])
    && (|text| > 2 ==> |text| > 3 && text[2] == ' ' && !IsPySpace(text[3]))
  }

  lemma StripOfCut(text: string, n: nat)
    requires IsOkText(text) && n <= |text|
    ensures Strip(text[..n]) == "OK" <==> n == 2 || n == 3
  {
    var cut := text[..n];
    assert text[0] == text[..2][0] == 'O' && text[1] == text[..2][1] == 'K';
    if n == 3 {
      assert cut == "OK" + " ";
      BlankAtEnd("OK");
      StripLine("OK");
    } else if n > 3 {
      StripKeepsFront(cut, 3);
    } else {
      if n > 0 {
        StripLine(cut);
      }
      assert n == 2 ==> cut == "OK";
    }
  }

  lemma BlankAtEnd(s: string)
    requires s != "" && !IsPySpace(s[0])
    ensures Strip(s + " ") == Strip(s)
  {
    assert (s + " ")[..|s|] == s;
  }

  /** A status line that begins with OK, cut off after n bytes, is taken for a plain OK
      if it is one, or if it was cut right after the letters or the blank behind them. */
  lemma CopiedOfCutText(decode: Bytes -> string, text: string, rest: Bytes, n: nat)
    requires KeepsAscii(decode) && IsOkText(text) && NEWLINE !in Ascii(text) && n <= |text| + 1 + |rest|
    ensures Copied(Read(decode, (Ascii(text) + [NEWLINE] + rest)[..n])) <==>
            if text == "OK" then n >= 2 else n == 2 || n == 3
  {
    PrefixOfThree(Ascii(text), NEWLINE, rest, n);
    if n > |text| {
      LineOfText(decode, text, rest[..n - |text| - 1]);
    } else {
      assert Ascii(text)[..n] == Ascii(text[..n]);
      LineWithoutEnd(decode, text[..n]);
      StripOfCut(text, n);
      assert |text| == 2 ==> text == "OK";
    }
  }

  lemma RawIsFront(stream: Bytes)
    ensures LineAndRest(stream).0 <= stream && (stream != [] ==> LineAndRest(stream).0 != [])
  {
  }

  /** Whatever arrives of an error, the shim fails. */
  lemma CutFailureIsNoSuccess(decode: Bytes -> string, text: Bytes, n: nat)
    requires KeepsAscii(decode) && n <= |ReplyBytes(Failure(text))|
    ensures var response := Read(decode, ReplyBytes(Failure(text))[..n]);
            !Copied(response) && Pasted(response) == None
  {
    var whole := ReplyBytes(Failure(text));
    var stream := whole[..n];
    var raw := LineAndRest(stream).0;
    RawIsFront(stream);
    if n > 0 {
      ErrorBegins(text);
      var rest := ReplyHasLine(Failure(text));
      assert whole[0] == LETTER_E && raw[0] == stream[0] == whole[0];
      ErrorLine(decode, raw);
    } else {
      assert stream == [] && raw == [];
    }
  }

  lemma OkTexts(length: nat)
    ensures IsOkText("OK") && IsOkText(GREETING) && IsOkText(OkLine(length))
  {
    OkLineText(length);
    PyIntOfItoa(length);
    GreetingText();
    assert OkLine(length)[3] == Itoa(length)[0];
    assert GREETING[..2] == "OK" && GREETING[2] == ' ' && GREETING[3] == 's';
  }

  /** When the shim reports a copy, for every reply cut off after n bytes: for a plain
      OK as soon as both letters have arrived, never for an error, and for the replies
      that belong to no copy only if they end right behind the letters. */
  lemma CopiedOfCutReply(decode: Bytes -> string, reply: Reply, n: nat)
    requires KeepsAscii(decode) && n <= |ReplyBytes(reply)|
    ensures Copied(Read(decode, ReplyBytes(reply)[..n])) <==>
            match reply
            case Failure(_) => false
            case Done => n >= 2
            case _ => n == 2 || n == 3
  {
    match reply {
      case Failure(text) =>
        CutFailureIsNoSuccess(decode, text, n);
      case Done =>
        ReplyWords(Done);
        OkTexts(0);
        assert ReplyBytes(Done) == Ascii("OK") + [NEWLINE] + [];
        CopiedOfCutText(decode, "OK", [], n);
      case Greeting =>
        ReplyWords(Greeting);
        GreetingText();
        OkTexts(0);
        assert ReplyBytes(Greeting) == Ascii(GREETING) + [NEWLINE] + [];
        CopiedOfCutText(decode, GREETING, [], n);
      case Body(body) =>
        OkReplyText(body);
        OkTexts(|body|);
        CopiedOfCutText(decode, OkLine(|body|), body, n);
    }
  }

  // The shim and the server together.

  /** The shim reports a copy exactly when the payload and header fit, the token is
      the server's and the desktop works; the clipboard is then the payload, and
      otherwise it is unchanged. */
  lemma ShimCopyOutcome(decode: Bytes -> string, token: Bytes, data: Bytes, serverToken: Bytes,
                        desktop: ClipboardServer.Desktop, fault: Option<Bytes>)
    requires KeepsAscii(decode) && IsWord(token)
    ensures var (after, reply) := ClipboardServer.Serve(serverToken, Request(token, Copy, Some(data)), desktop, fault);
            var copied := Copied(Read(decode, ReplyBytes(reply)));
            && (copied <==> |data| <= MAX_PAYLOAD && ClipboardServer.HeaderFits(token, Copy, Some(data))
                            && token == serverToken && fault.None?)
            && after == if copied then desktop.(clipboard := data) else desktop
  {
    var (after, reply) := ClipboardServer.Serve(serverToken, Request(token, Copy, Some(data)), desktop, fault);
    ClipboardServer.RequestDecision(token, Copy, Some(data), serverToken);
    ReadsWholeReply(decode, reply);
  }

  /** do_open, which takes a plain OK for success as do_copy does. */
  lemma ShimOpenOutcome(decode: Bytes -> string, token: Bytes, target: Bytes, serverToken: Bytes,
                        desktop: ClipboardServer.Desktop, fault: Option<Bytes>)
    requires KeepsAscii(decode) && IsWord(token)
    ensures var request := Request(token, Open, Some(target));
            var (after, reply) := ClipboardServer.Serve(serverToken, request, desktop, fault);
            var success := Copied(Read(decode, ReplyBytes(reply)));
            && (success <==> |target| <= MAX_PAYLOAD && ClipboardServer.HeaderFits(token, Open, Some(target))
                             && token == serverToken && fault.None?)
            && after == if success then desktop.(launched := desktop.launched + [target]) else desktop
  {
    var (after, reply) := ClipboardServer.Serve(serverToken, Request(token, Open, Some(target)), desktop, fault);
    ClipboardServer.RequestDecision(token, Open, Some(target), serverToken);
    ReadsWholeReply(decode, reply);
  }

  /** The shim prints exactly the clipboard or fails, and changes nothing. */
  lemma ShimPasteOutcome(decode: Bytes -> string, token: Bytes, serverToken: Bytes,
                         desktop: ClipboardServer.Desktop, fault: Option<Bytes>)
    requires KeepsAscii(decode) && IsWord(token)
    ensures var (after, reply) := ClipboardServer.Serve(serverToken, Request(token, Paste, None), desktop, fault);
            && after == desktop
            && Pasted(Read(decode, ReplyBytes(reply))) ==
               if ClipboardServer.HeaderFits(token, Paste, None) && token == serverToken && fault.None?
               then Some(desktop.clipboard) else None
  {
    var (after, reply) := ClipboardServer.Serve(serverToken, Request(token, Paste, None), desktop, fault);
    ClipboardServer.RequestDecision(token, Paste, None, serverToken);
    ReadsWholeReply(decode, reply);
  }
}
