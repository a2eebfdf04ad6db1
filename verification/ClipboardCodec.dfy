/** The clipboard protocol on the wire: what clients send, what the server reads,
    and what clients read back (internal/protocol/server.go and client.go). */
module ClipboardCodec {
  import opened Text

  newtype Byte = x: int | 0 <= x < 256

  type Bytes = seq<Byte>

  /** Protocol text is ASCII. */
  function Ascii(s: string): (b: Bytes)
    ensures |b| == |s|
  {
    seq(|s|, i requires 0 <= i < |s| => (s[i] as int % 256) as Byte)
  }

  const SPACE: Byte := 32
  const NEWLINE: Byte := 10

  const MAX_HEADER_LINE: nat := 4096
  const MAX_PAYLOAD: nat := 67_108_864
  const MAX_INT: nat := 9_223_372_036_854_775_807

  // Splitting a line into fields, as Go's strings.Fields does on UTF-8 text.

  /** The length of the white space character at the front, or zero. */
  function SpaceLen(s: Bytes): (n: nat)
    ensures n <= |s|
  {
    if |s| >= 1 && (9 <= s[0] <= 13 || s[0] == 32) then 1
    else if |s| >= 2 && s[0] == 0xC2 && (s[1] == 0x85 || s[1] == 0xA0) then 2
    else if |s| >= 3 && s[0] == 0xE1 && s[1] == 0x9A && s[2] == 0x80 then 3
    else if |s| >= 3 && s[0] == 0xE2 && s[1] == 0x80
            && (0x80 <= s[2] <= 0x8A || s[2] == 0xA8 || s[2] == 0xA9 || s[2] == 0xAF) then 3
    else if |s| >= 3 && s[0] == 0xE2 && s[1] == 0x81 && s[2] == 0x9F then 3
    else if |s| >= 3 && s[0] == 0xE3 && s[1] == 0x80 && s[2] == 0x80 then 3
    else 0
  }

  function Flushed(word: Bytes): seq<Bytes> { if word == [] then [] else [word] }

  function FieldsFrom(s: Bytes, word: Bytes): seq<Bytes>
    decreases |s|
  {
    if s == [] then Flushed(word)
    else if SpaceLen(s) > 0 then Flushed(word) + FieldsFrom(s[SpaceLen(s)..], [])
    else FieldsFrom(s[1..], word + [s[0]])
  }

  function Fields(s: Bytes): seq<Bytes> { FieldsFrom(s, []) }

  /** No white space character occurs anywhere in the word. */
  predicate NoSpace(word: Bytes) {
    forall i :: 0 <= i < |word| ==> SpaceLen(word[i..]) == 0
  }

  predicate IsWord(word: Bytes) { word != [] && NoSpace(word) }

  predicate StartsAscii(s: Bytes) { s == [] || s[0] < 128 }

  lemma {:induction false} FieldsAfterWord(word: Bytes, more: Bytes, rest: Bytes)
    requires NoSpace(more) && StartsAscii(rest)
    ensures FieldsFrom(more + rest, word) == FieldsFrom(rest, word + more)
    decreases |more|
  {
    if more == [] {
      assert more + rest == rest && word + more == word;
    } else {
      assert more[0..] == more;
      assert SpaceLen(more + rest) == 0;
      assert (more + rest)[1..] == more[1..] + rest;
      forall i | 0 <= i < |more[1..]| ensures SpaceLen(more[1..][i..]) == 0 {
        assert more[1..][i..] == more[i + 1..];
      }
      FieldsAfterWord(word + [more[0]], more[1..], rest);
      assert word + [more[0]] + more[1..] == word + more;
    }
  }

  function JoinWords(words: seq<Bytes>): Bytes {
    if words == [] then [] else if |words| == 1 then words[0] else words[0] + [SPACE] + JoinWords(words[1..])
  }

  lemma {:induction false} FieldsOfJoin(words: seq<Bytes>)
    requires forall i :: 0 <= i < |words| ==> IsWord(words[i])
    ensures Fields(JoinWords(words)) == words
    decreases |words|
  {
    if words != [] {
      if |words| == 1 {
        FieldsAfterWord([], words[0], []);
        assert words[0] + [] == words[0] && [] + words[0] == words[0];
      } else {
        FirstField(words[0], JoinWords(words[1..]));
        FieldsOfJoin(words[1..]);
      }
    }
  }

  /** A word and a blank in front of any text become its first field. */
  lemma FirstField(word: Bytes, rest: Bytes)
    requires IsWord(word)
    ensures Fields(word + [SPACE] + rest) == [word] + Fields(rest)
  {
    FieldsAfterWord([], word, [SPACE] + rest);
    assert word + [SPACE] + rest == word + ([SPACE] + rest) && [] + word == word;
    assert ([SPACE] + rest)[1..] == rest;
  }

  predicate AllPrintable(s: Bytes) { forall i :: 0 <= i < |s| ==> 33 <= s[i] < 127 }

  lemma PrintableIsWord(s: Bytes)
    requires s != [] && AllPrintable(s)
    ensures IsWord(s)
  {
    forall i | 0 <= i < |s| ensures SpaceLen(s[i..]) == 0 {
      assert s[i..][0] == s[i];
    }
  }

  // Numbers.

  predicate IsDigitByte(b: Byte) { 48 <= b <= 57 }

  predicate AllDigits(s: Bytes) { s != [] && forall i :: 0 <= i < |s| ==> IsDigitByte(s[i]) }

  function DigitValues(s: Bytes): seq<nat>
    requires forall i :: 0 <= i < |s| ==> IsDigitByte(s[i])
  {
    seq(|s|, i requires 0 <= i < |s| => DigitByteValue(s[i]))
  }

  function DigitByteValue(b: Byte): nat
    requires IsDigitByte(b)
  {
    b as int - 48
  }

  /** strconv.Atoi on a 64-bit platform: an optional sign and decimal digits. */
  function Atoi(s: Bytes): Option<int> {
    if s != [] && (s[0] == 43 || s[0] == 45) then
      if !AllDigits(s[1..]) then None
      else
        var n: int := Value(DigitValues(s[1..]));
        if s[0] == 45 then if n <= MAX_INT + 1 then Some(-n) else None
        else if n <= MAX_INT then Some(n) else None
    else if !AllDigits(s) then None
    else
      var n := Value(DigitValues(s));
      if n <= MAX_INT then Some(n) else None
  }

  function NumberText(n: nat): Bytes { Ascii(Itoa(n)) }

  lemma NumberTextReads(n: nat)
    ensures AllPrintable(NumberText(n)) && NumberText(n) != []
    ensures Atoi(NumberText(n)) == if n <= MAX_INT then Some(n) else None
  {
    var text := Itoa(n);
    forall i | 0 <= i < |text| ensures IsDigitByte(NumberText(n)[i]) && NumberText(n)[i] as int == 48 + Digits(n)[i] {
      assert IsDigit(text[i]);
    }
    assert DigitValues(NumberText(n)) == Digits(n);
    ValueOfDigits(n);
  }

  // Requests.

  datatype Verb = Hello | Copy | Paste | Open

  function VerbText(verb: Verb): Bytes {
    match verb
    case Hello => Ascii("HELLO")
    case Copy => Ascii("COPY")
    case Paste => Ascii("PASTE")
    case Open => Ascii("OPEN")
  }

  function VerbOf(text: Bytes): Option<Verb> {
    if text == Ascii("HELLO") then Some(Hello)
    else if text == Ascii("COPY") then Some(Copy)
    else if text == Ascii("PASTE") then Some(Paste)
    else if text == Ascii("OPEN") then Some(Open)
    else None
  }

  lemma VerbOfText(verb: Verb)
    ensures VerbOf(VerbText(verb)) == Some(verb) && IsWord(VerbText(verb))
    ensures VerbText(verb) == match verb
                              case Hello => [72, 69, 76, 76, 79]
                              case Copy => [67, 79, 80, 89]
                              case Paste => [80, 65, 83, 84, 69]
                              case Open => [79, 80, 69, 78]
  {
    assert Ascii("HELLO") == [72, 69, 76, 76, 79];
    assert Ascii("COPY") == [67, 79, 80, 89];
    assert Ascii("PASTE") == [80, 65, 83, 84, 69];
    assert Ascii("OPEN") == [79, 80, 69, 78];
    PrintableIsWord(VerbText(verb));
  }

  predicate HasPayload(verb: Verb) { verb == Copy || verb == Open }

  const MAGIC := Ascii("SLUSH1")

  lemma MagicIsWord()
    ensures IsWord(MAGIC) && MAGIC == [83, 76, 85, 83, 72, 49]
  {
    assert MAGIC == [83, 76, 85, 83, 72, 49];
    PrintableIsWord(MAGIC);
  }

  function HeaderWords(token: Bytes, verb: Verb, payload: Option<Bytes>): seq<Bytes> {
    [MAGIC, token, VerbText(verb)] + if payload.Some? then [NumberText(|payload.value|)] else []
  }

  /** What clipboardCall writes. A nil payload sends no length. */
  function Request(token: Bytes, verb: Verb, payload: Option<Bytes>): Bytes {
    JoinWords(HeaderWords(token, verb, payload)) + [NEWLINE] + (if payload.Some? then payload.value else [])
  }

  datatype Header = Header(verb: Verb, token: Bytes, length: nat)

  datatype RequestError =
    | NoHeader | HeaderTooLong | MalformedHeader | UnknownProtocol | BadLength | UnknownVerb
    | Unauthorized | ShortPayload

  /** The line up to the newline and the bytes after it. */
  function ReadLine(stream: Bytes): (result: Option<(Bytes, Bytes)>)
    ensures result.Some? ==> stream == result.value.0 + [NEWLINE] + result.value.1 && NEWLINE !in result.value.0
    ensures result.None? ==> NEWLINE !in stream
  {
    if stream == [] then None
    else if stream[0] == NEWLINE then Some(([], stream[1..]))
    else match ReadLine(stream[1..])
      case None => None
      case Some((line, rest)) => Some(([stream[0]] + line, rest))
  }

  lemma {:induction false} ReadLineOf(line: Bytes, rest: Bytes)
    requires NEWLINE !in line
    ensures ReadLine(line + [NEWLINE] + rest) == Some((line, rest))
    decreases |line|
  {
    var stream := line + [NEWLINE] + rest;
    if line == [] {
      assert stream[1..] == rest;
    } else {
      assert line[0] in line && line == [line[0]] + line[1..];
      assert stream[1..] == line[1..] + [NEWLINE] + rest;
      ReadLineOf(line[1..], rest);
    }
  }

  function ParseHeader(line: Bytes): Result<Header, RequestError> {
    var fields := Fields(line);
    if |fields| < 3 then Err(MalformedHeader)
    else if fields[0] != MAGIC then Err(UnknownProtocol)
    else
      var verb := VerbOf(fields[2]);
      var wantLength := verb.Some? && HasPayload(verb.value);
      if |fields| != (if wantLength then 4 else 3) then Err(MalformedHeader)
      else if !wantLength then
        if verb.None? then Err(UnknownVerb) else Ok(Header(verb.value, fields[1], 0))
      else
        match Atoi(fields[3])
        case None => Err(BadLength)
        case Some(n) => if 0 <= n <= MAX_PAYLOAD then Ok(Header(verb.value, fields[1], n)) else Err(BadLength)
  }

  /** The header lines that the server accepts: exactly the protocol's name, a token, a
      known verb and, for a verb with a payload, a length of at most 64 MiB. */
  lemma HeaderExactly(line: Bytes, header: Header)
    ensures ParseHeader(line) == Ok(header) <==>
            exists tail ::
              && Fields(line) == [Ascii("SLUSH1"), header.token, VerbText(header.verb)] + tail
              && if header.verb == Copy || header.verb == Open
                 then |tail| == 1 && Atoi(tail[0]) == Some(header.length) && header.length <= 64 * 1024 * 1024
                 else tail == [] && header.length == 0
  {
    var fields := Fields(line);
    VerbOfText(header.verb);
    if ParseHeader(line) == Ok(header) {
      VerbOfGiven(fields[2]);
      var tail := fields[3..];
      assert fields == [fields[0], fields[1], fields[2]] + tail;
    }
    if tail :| && fields == [Ascii("SLUSH1"), header.token, VerbText(header.verb)] + tail
               && if header.verb == Copy || header.verb == Open
                  then |tail| == 1 && Atoi(tail[0]) == Some(header.length) && header.length <= 64 * 1024 * 1024
                  else tail == [] && header.length == 0 {
      assert fields[0] == MAGIC && fields[2] == VerbText(header.verb);
      assert tail != [] ==> fields[3] == tail[0];
    }
  }

  lemma VerbOfGiven(text: Bytes)
    ensures VerbOf(text).Some? ==> text == VerbText(VerbOf(text).value)
  {
  }

  /** What Atoi makes of digits behind a sign, or of none at all. */
  lemma SignedNumberReads(n: nat)
    ensures Atoi([43] + NumberText(n)).Some? <==> n < 0x8000_0000_0000_0000
    ensures Atoi([43] + NumberText(n)).Some? ==> Atoi([43] + NumberText(n)).value == n
    ensures Atoi([45] + NumberText(n)).Some? <==> n <= 0x8000_0000_0000_0000
    ensures Atoi([45] + NumberText(n)).Some? ==> Atoi([45] + NumberText(n)).value + n == 0
    ensures Atoi([]) == Atoi([43]) == Atoi([45]) == None
  {
    var text := NumberText(n);
    NumberDigits(n);
    assert ([43] + text)[1..] == text && ([45] + text)[1..] == text;
  }

  lemma NumberDigits(n: nat)
    ensures AllDigits(NumberText(n)) && Value(DigitValues(NumberText(n))) == n
  {
    var text := Itoa(n);
    forall i | 0 <= i < |text|
      ensures IsDigitByte(NumberText(n)[i]) && NumberText(n)[i] as int == 48 + Digits(n)[i]
    {
      assert IsDigit(text[i]);
    }
    assert DigitValues(NumberText(n)) == Digits(n);
    ValueOfDigits(n);
  }

  /** The header and the bytes that are left to read after it. */
  function ReadRequest(stream: Bytes): Result<(Header, Bytes), RequestError> {
    match ReadLine(stream)
    case None => Err(NoHeader)
    case Some((line, rest)) =>
      if |line| + 1 > MAX_HEADER_LINE then Err(HeaderTooLong)
      else match ParseHeader(line)
        case Err(e) => Err(e)
        case Ok(header) => Ok((header, rest))
  }

  predicate RightShape(verb: Verb, payload: Option<Bytes>) { HasPayload(verb) == payload.Some? }

  function PayloadLength(payload: Option<Bytes>): nat { if payload.Some? then |payload.value| else 0 }

  lemma HeaderWordsAreWords(token: Bytes, verb: Verb, payload: Option<Bytes>)
    requires IsWord(token)
    ensures forall i :: 0 <= i < |HeaderWords(token, verb, payload)| ==> IsWord(HeaderWords(token, verb, payload)[i])
  {
    MagicIsWord();
    VerbOfText(verb);
    NumberTextReads(PayloadLength(payload));
    PrintableIsWord(NumberText(PayloadLength(payload)));
  }

  lemma WordHasNoNewline(word: Bytes)
    requires NoSpace(word)
    ensures NEWLINE !in word
  {
    forall i | 0 <= i < |word| ensures word[i] != NEWLINE {
      assert word[i..][0] == word[i];
    }
  }

  lemma {:induction false} JoinHasNoNewline(words: seq<Bytes>)
    requires forall i :: 0 <= i < |words| ==> IsWord(words[i])
    ensures NEWLINE !in JoinWords(words)
    decreases |words|
  {
    if words != [] {
      WordHasNoNewline(words[0]);
      JoinHasNoNewline(words[1..]);
    }
  }

  /** What the server makes of a client's header line. */
  function Verdict(token: Bytes, verb: Verb, payload: Option<Bytes>): Result<Header, RequestError> {
    if !RightShape(verb, payload) then Err(MalformedHeader)
    else if PayloadLength(payload) > MAX_PAYLOAD then Err(BadLength)
    else Ok(Header(verb, token, PayloadLength(payload)))
  }

  lemma ParseOfHeader(token: Bytes, verb: Verb, payload: Option<Bytes>)
    requires IsWord(token)
    ensures ParseHeader(JoinWords(HeaderWords(token, verb, payload))) == Verdict(token, verb, payload)
  {
    HeaderWordsAreWords(token, verb, payload);
    FieldsOfJoin(HeaderWords(token, verb, payload));
    VerbOfText(verb);
    NumberTextReads(PayloadLength(payload));
  }

  /** The server reads back exactly what the client meant: the verb, the token and
      the length, with the whole payload and nothing else left to read. It does so
      precisely for payloads of the right kind and size under a short enough header. */
  lemma RequestIsRead(token: Bytes, verb: Verb, payload: Option<Bytes>, later: Bytes)
    requires IsWord(token)
    ensures ReadRequest(Request(token, verb, payload) + later) ==
            if |JoinWords(HeaderWords(token, verb, payload))| >= 4096 then Err(HeaderTooLong)
            else match Verdict(token, verb, payload)
              case Err(e) => Err(e)
              case Ok(header) => Ok((header, (if payload.Some? then payload.value else []) + later))
  {
    var line := JoinWords(HeaderWords(token, verb, payload));
    var body := if payload.Some? then payload.value else [];
    HeaderWordsAreWords(token, verb, payload);
    JoinHasNoNewline(HeaderWords(token, verb, payload));
    assert Request(token, verb, payload) + later == line + [NEWLINE] + (body + later);
    ReadLineOf(line, body + later);
    ParseOfHeader(token, verb, payload);
  }

  /** A length outside the limits is refused from the header line alone, whatever
      follows it. */
  lemma BadLengthIsRefusedEarly(token: Bytes, verb: Verb, number: Bytes, rest: Bytes)
    requires IsWord(token) && IsWord(number) && HasPayload(verb)
    requires |JoinWords([MAGIC, token, VerbText(verb), number])| < MAX_HEADER_LINE
    ensures ReadRequest(JoinWords([MAGIC, token, VerbText(verb), number]) + [NEWLINE] + rest) == Err(BadLength)
            <==> !(Atoi(number).Some? && 0 <= Atoi(number).value <= 64 * 1024 * 1024)
  {
    var words := [MAGIC, token, VerbText(verb), number];
    MagicIsWord();
    VerbOfText(verb);
    FieldsOfJoin(words);
    JoinHasNoNewline(words);
    ReadLineOf(JoinWords(words), rest);
  }

  // Replies.

  datatype Reply = Greeting | Done | Body(body: Bytes) | Failure(text: Bytes)

  function ReplyLine(reply: Reply): Bytes {
    match reply
    case Greeting => Ascii("OK") + [SPACE] + Ascii("slush-clipboard") + [SPACE] + Ascii("1")
    case Done => Ascii("OK")
    case Body(body) => Ascii("OK") + [SPACE] + NumberText(|body|)
    case Failure(text) => Ascii("ERR") + [SPACE] + text
  }

  /** All bytes the server writes for a reply. */
  function ReplyBytes(reply: Reply): Bytes {
    ReplyLine(reply) + [NEWLINE] + if reply.Body? then reply.body else []
  }

  /** clipboardResponsePayloadLength. */
  function ResponseLength(line: Bytes): Option<nat> {
    var fields := Fields(line);
    if |fields| != 2 || fields[0] != Ascii("OK") then None
    else match Atoi(fields[1])
      case None => None
      case Some(n) => if n >= 0 then Some(n) else None
  }

  /** The response line and the payload, or nothing if the stream ends early. */
  function ReadResponse(stream: Bytes): Option<(Bytes, Bytes)> {
    match ReadLine(stream)
    case None => None
    case Some((line, rest)) =>
      match ResponseLength(line)
      case None => Some((line, []))
      case Some(n) => if n <= |rest| then Some((line, rest[..n])) else None
  }

  /** The part of a reply that the client takes for the status line. */
  function StatusLine(reply: Reply): Bytes { FirstLine(ReplyLine(reply)) }

  function FirstLine(text: Bytes): Bytes {
    match ReadLine(text)
    case None => text
    case Some((line, _)) => line
  }

  lemma FirstLineIsRead(text: Bytes, rest: Bytes)
    ensures var read := ReadLine(text + [NEWLINE] + rest);
            read.Some? && read.value.0 == FirstLine(text) && (NEWLINE !in text ==> read.value.1 == rest)
  {
    match ReadLine(text) {
      case None => ReadLineOf(text, rest);
      case Some((line, more)) =>
        assert text + [NEWLINE] + rest == line + [NEWLINE] + (more + [NEWLINE] + rest);
        ReadLineOf(line, more + [NEWLINE] + rest);
        assert NEWLINE in text;
    }
  }

  lemma OKIsWord()
    ensures IsWord(Ascii("OK")) && IsWord(Ascii("ERR")) && Ascii("OK")[0] != Ascii("ERR")[0]
  {
    assert Ascii("OK") == [79, 75] && Ascii("ERR") == [69, 82, 82];
    PrintableIsWord(Ascii("OK"));
    PrintableIsWord(Ascii("ERR"));
  }

  lemma GreetingWords()
    ensures IsWord(Ascii("slush-clipboard")) && IsWord(Ascii("1"))
  {
    assert Ascii("slush-clipboard") == [115, 108, 117, 115, 104, 45, 99, 108, 105, 112, 98, 111, 97, 114, 100];
    assert Ascii("1") == [49];
    PrintableIsWord(Ascii("slush-clipboard"));
    PrintableIsWord(Ascii("1"));
  }

  lemma ReplyWords(reply: Reply)
    requires !reply.Failure?
    ensures Fields(ReplyLine(reply)) ==
            [Ascii("OK")] + match reply
                            case Greeting => [Ascii("slush-clipboard"), Ascii("1")]
                            case Done => []
                            case Body(body) => [NumberText(|body|)]
    ensures NEWLINE !in ReplyLine(reply)
  {
    OKIsWord();
    GreetingWords();
    var words := [Ascii("OK")] + match reply
                                 case Greeting => [Ascii("slush-clipboard"), Ascii("1")]
                                 case Done => []
                                 case Body(body) => [NumberText(|body|)];
    if reply.Body? {
      NumberTextReads(|reply.body|);
      PrintableIsWord(NumberText(|reply.body|));
    }
    FieldsOfJoin(words);
    JoinHasNoNewline(words);
    JoinOfWords(words);
    assert ReplyLine(reply) == JoinWords(words);
  }

  lemma JoinOfWords(words: seq<Bytes>)
    requires 1 <= |words| <= 3
    ensures JoinWords(words) ==
            match |words|
            case 1 => words[0]
            case 2 => words[0] + [SPACE] + words[1]
            case _ => words[0] + [SPACE] + words[1] + [SPACE] + words[2]
  {
    if |words| == 3 {
      assert words[1..][1..] == [words[2]];
    }
  }

  lemma ErrorLineHasNoBody(text: Bytes)
    ensures ResponseLength(Ascii("ERR") + [SPACE] + text) == None
  {
    OKIsWord();
    FirstField(Ascii("ERR"), text);
  }

  lemma StatusOfFailure(text: Bytes)
    ensures exists first :: StatusLine(Failure(text)) == Ascii("ERR") + [SPACE] + first
  {
    var prefix := Ascii("ERR") + [SPACE];
    OKIsWord();
    WordHasNoNewline(Ascii("ERR"));
    match ReadLine(text) {
      case None =>
        assert NEWLINE !in prefix + text;
        assert StatusLine(Failure(text)) == Ascii("ERR") + [SPACE] + text;
      case Some((line, rest)) =>
        assert prefix + text == (prefix + line) + [NEWLINE] + rest;
        ReadLineOf(prefix + line, rest);
        assert StatusLine(Failure(text)) == Ascii("ERR") + [SPACE] + line;
    }
  }

  /** A client reads every reply as its status line and, for a body reply only,
      exactly the body, whatever else might follow. */
  lemma ReplyIsRead(reply: Reply, later: Bytes)
    requires reply.Body? ==> |reply.body| <= MAX_INT
    ensures ReadResponse(ReplyBytes(reply) + later) ==
            Some((StatusLine(reply), if reply.Body? then reply.body else []))
  {
    var tail := if reply.Body? then reply.body else [];
    assert ReplyBytes(reply) + later == ReplyLine(reply) + [NEWLINE] + (tail + later);
    FirstLineIsRead(ReplyLine(reply), tail + later);
    LengthOfReply(reply);
    assert (tail + later)[..|tail|] == tail;
  }

  /** Only a body reply announces a length, and it announces its own. */
  lemma LengthOfReply(reply: Reply)
    requires reply.Body? ==> |reply.body| <= MAX_INT
    ensures ResponseLength(StatusLine(reply)) == if reply.Body? then Some(|reply.body|) else None
    ensures !reply.Failure? ==> NEWLINE !in ReplyLine(reply)
  {
    if reply.Failure? {
      StatusOfFailure(reply.text);
      var first :| StatusLine(reply) == Ascii("ERR") + [SPACE] + first;
      ErrorLineHasNoBody(first);
    } else {
      ReplyWords(reply);
      if reply.Body? {
        NumberTextReads(|reply.body|);
      }
    }
  }

  lemma {:induction false} ReadLineOfNone(stream: Bytes)
    requires NEWLINE !in stream
    ensures ReadLine(stream).None?
    decreases |stream|
  {
    if stream != [] {
      assert stream[0] in stream;
      ReadLineOfNone(stream[1..]);
    }
  }

  lemma ReadLineOfCut(line: Bytes, rest: Bytes, n: nat)
    requires NEWLINE !in line && n <= |line| + 1 + |rest|
    ensures ReadLine((line + [NEWLINE] + rest)[..n]) ==
            if n > |line| then Some((line, rest[..n - |line| - 1])) else None
  {
    var whole := line + [NEWLINE] + rest;
    if n > |line| {
      assert whole[..n] == line + [NEWLINE] + rest[..n - |line| - 1];
      ReadLineOf(line, rest[..n - |line| - 1]);
    } else {
      assert whole[..n] == line[..n];
      ReadLineOfNone(line[..n]);
    }
  }

  /** A whole reply is its status line, a newline and the rest, which for a body
      reply is the body. */
  lemma ReplyHasLine(reply: Reply) returns (rest: Bytes)
    requires reply.Body? ==> |reply.body| <= MAX_INT
    ensures ReplyBytes(reply) == StatusLine(reply) + [NEWLINE] + rest && NEWLINE !in StatusLine(reply)
    ensures reply.Body? ==> rest == reply.body
  {
    var body := if reply.Body? then reply.body else [];
    LengthOfReply(reply);
    FirstLineIsRead(ReplyLine(reply), body);
    rest := ReadLine(ReplyLine(reply) + [NEWLINE] + body).value.1;
  }

  /** Of a reply that is cut off, a client reads all or nothing: it has its answer
      once the status line and the announced body have arrived, and none before. */
  lemma CutReplyIsNoticed(reply: Reply, n: nat)
    requires n <= |ReplyBytes(reply)| && (reply.Body? ==> |reply.body| <= MAX_INT)
    ensures var body := if reply.Body? then reply.body else [];
            ReadResponse(ReplyBytes(reply)[..n]) ==
            if n > |StatusLine(reply)| + |body| then Some((StatusLine(reply), body)) else None
  {
    var rest := ReplyHasLine(reply);
    LengthOfReply(reply);
    ReadCut(StatusLine(reply), rest, n);
    if reply.Body? && n > |StatusLine(reply)| + |rest| {
      assert rest[..|rest|] == rest;
    }
  }

  lemma ReadCut(line: Bytes, rest: Bytes, n: nat)
    requires NEWLINE !in line && n <= |line| + 1 + |rest|
    requires ResponseLength(line).None? || ResponseLength(line) == Some(|rest|)
    ensures ReadResponse((line + [NEWLINE] + rest)[..n]) ==
            if ResponseLength(line).None? then if n > |line| then Some((line, [])) else None
            else if n > |line| + |rest| then Some((line, rest)) else None
  {
    ReadLineOfCut(line, rest, n);
    if n > |line| + |rest| {
      assert rest[..n - |line| - 1] == rest && rest[..|rest|] == rest;
    }
  }
}
