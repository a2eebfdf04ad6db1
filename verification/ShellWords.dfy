/** Reading shell text as words, after sections 2.2.1, 2.2.2, 2.2.3 and 2.3 of the
    Shell Command Language (POSIX.1-2017), and the quoting that must survive it
    (internal/remote/provision.go, ShellQuote). Expansions are not performed: a
    dollar sign stays in its word. Operators are read one character at a time. */
module ShellWords {
  import opened Text

  datatype Token = Word(text: string) | Operator(c: char)

  datatype Mode = Bare | Escaped | Single | Double | DoubleEscaped | Comment

  predicate IsBlank(c: char) { c == ' ' || c == '\t' }

  predicate IsOperator(c: char) {
    c == '&' || c == '|' || c == ';' || c == '<' || c == '>' || c == '(' || c == ')' || c == '\n'
  }

  predicate IsQuoting(c: char) { c == '\'' || c == '"' || c == '\\' }

  /** A character that stands for itself inside an unquoted word. */
  predicate IsLiteral(c: char) { !IsBlank(c) && !IsOperator(c) && !IsQuoting(c) }

  predicate AllLiteral(s: string) { forall c :: c in s ==> IsLiteral(c) }

  datatype Scanner = Scanner(tokens: seq<Token>, word: Option<string>, mode: Mode) {

    function Text(): string { if word.Some? then word.value else "" }

    function Add(s: string): Scanner { this.(word := Some(Text() + s)) }

    function Flush(): Scanner {
      if word.None? then this else this.(tokens := tokens + [Word(word.value)], word := None)
    }

    function Step(c: char): Scanner {
      match mode
      case Comment => if c == '\n' then Scanner(tokens + [Operator(c)], None, Bare) else this
      case Single => if c == '\'' then this.(mode := Bare) else Add([c])
      case Double =>
        if c == '"' then this.(mode := Bare)
        else if c == '\\' then this.(mode := DoubleEscaped)
        else Add([c])
      case DoubleEscaped =>
        if c == '\n' then this.(mode := Double)
        else if c == '$' || c == '`' || c == '"' || c == '\\' then Add([c]).(mode := Double)
        else Add(['\\', c]).(mode := Double)
      case Escaped => if c == '\n' then this.(mode := Bare) else Add([c]).(mode := Bare)
      case Bare =>
        if c == '\'' then Add("").(mode := Single)
        else if c == '"' then Add("").(mode := Double)
        else if c == '\\' then this.(mode := Escaped)
        else if IsBlank(c) then Flush()
        else if IsOperator(c) then Flush().(tokens := Flush().tokens + [Operator(c)])
        else if c == '#' && word.None? then this.(mode := Comment)
        else Add([c])
    }

    function Run(s: string): Scanner
      decreases |s|
    {
      if s == "" then this else Step(s[0]).Run(s[1..])
    }

    /** Text that ends inside a quotation is incomplete. */
    function Finish(): Option<seq<Token>> {
      if mode == Bare || mode == Comment then Some(Flush().tokens) else None
    }
  }

  const START := Scanner([], None, Bare)

  function Tokenize(s: string): Option<seq<Token>> { START.Run(s).Finish() }

  function Words(words: seq<string>): (tokens: seq<Token>)
    ensures |tokens| == |words|
  {
    seq(|words|, i requires 0 <= i < |words| => Word(words[i]))
  }

  // Quoting.

  /** strings.ReplaceAll(s, "'", `'\''`). */
  function Escape(s: string): string {
    if s == "" then "" else (if s[0] == '\'' then "'\\''" else [s[0]]) + Escape(s[1..])
  }

  function Quote(s: string): string { "'" + Escape(s) + "'" }

  function QuoteAll(words: seq<string>): (quoted: seq<string>)
    ensures |quoted| == |words|
    ensures forall i :: 0 <= i < |words| ==> quoted[i] == Quote(words[i])
  {
    seq(|words|, i requires 0 <= i < |words| => Quote(words[i]))
  }

  // How the scanner moves over whole stretches of text.

  lemma {:induction false} RunConcat(scanner: Scanner, a: string, b: string)
    ensures scanner.Run(a + b) == scanner.Run(a).Run(b)
    decreases |a|
  {
    if a == "" {
      assert a + b == b;
    } else {
      assert (a + b)[1..] == a[1..] + b;
      RunConcat(scanner.Step(a[0]), a[1..], b);
    }
  }

  lemma RunOne(scanner: Scanner, c: char)
    ensures scanner.Run([c]) == scanner.Step(c)
  {
    assert [c][1..] == "";
  }

  /** What has been read as words stays so, whatever follows. */
  lemma {:induction false} TokensOnlyGrow(scanner: Scanner, s: string)
    ensures scanner.tokens <= scanner.Run(s).tokens
    decreases |s|
  {
    if s != "" {
      TokensOnlyGrow(scanner.Step(s[0]), s[1..]);
    }
  }

  /** The pair of steps most proofs need: some text, then more text. */
  lemma RunTwo(scanner: Scanner, a: string, middle: Scanner, b: string, end: Scanner)
    requires scanner.Run(a) == middle && middle.Run(b) == end
    ensures scanner.Run(a + b) == end
  {
    RunConcat(scanner, a, b);
  }

  lemma {:induction false} RunSingle(scanner: Scanner, s: string)
    requires scanner.mode == Single && scanner.word.Some?
    ensures scanner.Run(Escape(s)) == scanner.Add(s)
    decreases |s|
  {
    if s == "" {
      assert scanner.word.value + "" == scanner.word.value;
    } else {
      var head := if s[0] == '\'' then "'\\''" else [s[0]];
      RunConcat(scanner, head, Escape(s[1..]));
      if s[0] == '\'' {
        RunEscapedQuote(scanner);
      } else {
        RunOne(scanner, s[0]);
      }
      RunSingle(scanner.Add([s[0]]), s[1..]);
      assert scanner.word.value + [s[0]] + s[1..] == scanner.word.value + s;
    }
  }

  lemma RunEscapedQuote(scanner: Scanner)
    requires scanner.mode == Single && scanner.word.Some?
    ensures scanner.Run("'\\''") == scanner.Add("'")
  {
    var closed := scanner.(mode := Bare);
    var escaped := closed.(mode := Escaped);
    RunOne(scanner, '\'');
    RunOne(closed, '\\');
    RunTwo(scanner, "'", closed, "\\", escaped);
    RunOne(escaped, '\'');
    RunTwo(scanner, "'\\", escaped, "'", closed.Add("'"));
    RunOne(closed.Add("'"), '\'');
    assert closed.Add("'").Text() + "" == closed.Add("'").Text();
    RunTwo(scanner, "'\\'", closed.Add("'"), "'", scanner.Add("'"));
    assert "'\\''" == "'\\'" + "'";
  }

  /** A quoted string adds exactly its contents to the current word. */
  lemma RunQuote(scanner: Scanner, s: string)
    requires scanner.mode == Bare
    ensures scanner.Run(Quote(s)) == scanner.Add(s)
  {
    var inside := scanner.Add("").(mode := Single);
    RunOne(scanner, '\'');
    RunSingle(inside, s);
    RunTwo(scanner, "'", inside, Escape(s), inside.Add(s));
    RunOne(inside.Add(s), '\'');
    assert scanner.Text() + "" + s == scanner.Text() + s;
    RunTwo(scanner, "'" + Escape(s), inside.Add(s), "'", scanner.Add(s));
  }

  lemma {:induction false} RunLiteral(scanner: Scanner, s: string)
    requires scanner.mode == Bare && AllLiteral(s) && s != ""
    requires scanner.word.Some? || s[0] != '#'
    ensures scanner.Run(s) == scanner.Add(s)
    decreases |s|
  {
    var next := scanner.Step(s[0]);
    assert s[0] in s && next == scanner.Add([s[0]]);
    if |s| > 1 {
      RunLiteral(next, s[1..]);
    } else {
      assert next.Run(s[1..]) == next;
      assert s == [s[0]];
    }
    assert scanner.Text() + [s[0]] + s[1..] == scanner.Text() + s;
  }

  lemma {:induction false} RunDouble(scanner: Scanner, s: string)
    requires scanner.mode == Double && scanner.word.Some?
    requires '"' !in s && '\\' !in s
    ensures scanner.Run(s) == scanner.Add(s)
    decreases |s|
  {
    if s == "" {
      assert scanner.word.value + "" == scanner.word.value;
    } else {
      RunDouble(scanner.Add([s[0]]), s[1..]);
      assert scanner.word.value + [s[0]] + s[1..] == scanner.word.value + s;
    }
  }

  lemma RunDoubleQuoted(scanner: Scanner, s: string)
    requires scanner.mode == Bare && '"' !in s && '\\' !in s
    ensures scanner.Run("\"" + s + "\"") == scanner.Add(s)
  {
    var inside := scanner.Add("").(mode := Double);
    RunOne(scanner, '"');
    RunDouble(inside, s);
    RunTwo(scanner, "\"", inside, s, inside.Add(s));
    RunOne(inside.Add(s), '"');
    assert scanner.Text() + "" + s == scanner.Text() + s;
    RunTwo(scanner, "\"" + s, inside.Add(s), "\"", scanner.Add(s));
  }

  /** Blank-separated quoted words, read from between two words. */
  lemma {:induction false} RunQuotedWords(scanner: Scanner, words: seq<string>)
    requires scanner.mode == Bare && scanner.word.None? && words != []
    ensures var after := scanner.Run(Join(QuoteAll(words), " "));
            after.mode == Bare && after.Flush().tokens == scanner.tokens + Words(words)
    decreases |words|
  {
    var first := scanner.Add(words[0]);
    RunQuote(scanner, words[0]);
    assert "" + words[0] == words[0];
    if |words| == 1 {
      assert Words(words) == [Word(words[0])];
    } else {
      var rest := words[1..];
      assert QuoteAll(words)[1..] == QuoteAll(rest);
      RunOne(first, ' ');
      RunTwo(scanner, Quote(words[0]), first, " ", first.Flush());
      RunConcat(scanner, Quote(words[0]) + " ", Join(QuoteAll(rest), " "));
      RunQuotedWords(first.Flush(), rest);
      assert scanner.tokens + [Word(words[0])] + Words(rest) == scanner.tokens + Words(words);
    }
  }

  /** Quoting a list of strings and reading the line back gives the same list,
      whatever the strings contain. */
  lemma TokensOfQuotedWords(words: seq<string>)
    ensures Tokenize(Join(QuoteAll(words), " ")) == Some(Words(words))
  {
    if words != [] {
      RunQuotedWords(START, words);
      assert [] + Words(words) == Words(words);
    }
  }

  /** Hence no two lists share a quoted line. */
  lemma QuotedLinesAreDistinct(a: seq<string>, b: seq<string>)
    ensures Join(QuoteAll(a), " ") == Join(QuoteAll(b), " ") <==> a == b
  {
    TokensOfQuotedWords(a);
    TokensOfQuotedWords(b);
    if Words(a) == Words(b) {
      forall i | 0 <= i < |a| ensures a[i] == b[i] {
        assert Words(a)[i] == Words(b)[i];
      }
    }
  }

  // Text that is appended without quoting.

  /** The token at position t exists or is being read, and is at most n long. */
  ghost predicate TokenBound(scanner: Scanner, t: nat, n: nat) {
    if |scanner.tokens| == t then
      scanner.word.Some? && |scanner.word.value| + (if scanner.mode == DoubleEscaped then 1 else 0) <= n
    else
      |scanner.tokens| > t && (scanner.tokens[t].Word? ==> |scanner.tokens[t].text| <= n)
  }

  lemma {:induction false} RunKeepsBound(scanner: Scanner, t: nat, n: nat, s: string)
    requires TokenBound(scanner, t, n)
    ensures TokenBound(scanner.Run(s), t, n + |s|)
    decreases |s|
  {
    if s != "" {
      RunKeepsBound(scanner.Step(s[0]), t, n + 1, s[1..]);
    }
  }

  /** A separating or quoting character leaves the word it meets too short. */
  lemma {:induction false} NonLiteralShortens(scanner: Scanner, s: string)
    requires scanner.mode == Bare && scanner.word.Some? && !AllLiteral(s)
    ensures TokenBound(scanner.Run(s), |scanner.tokens|, |scanner.word.value| + |s| - 1)
    decreases |s|
  {
    assert s == [s[0]] + s[1..];
    if IsLiteral(s[0]) {
      NonLiteralShortens(scanner.Add([s[0]]), s[1..]);
    } else {
      RunKeepsBound(scanner.Step(s[0]), |scanner.tokens|, |scanner.word.value|, s[1..]);
    }
  }

  /** Unquoted text joins the current word unchanged exactly when none of its
      characters separates words or quotes. */
  lemma AppendedExactly(scanner: Scanner, s: string)
    requires scanner.mode == Bare && scanner.word.Some?
    ensures scanner.Run(s).Finish() == Some(scanner.tokens + [Word(scanner.word.value + s)])
            <==> AllLiteral(s)
  {
    var word := scanner.word.value;
    if !AllLiteral(s) {
      NonLiteralShortens(scanner, s);
      assert TokenBound(scanner.Run(s).Flush(), |scanner.tokens|, |word| + |s| - 1);
      assert |word + s| == |word| + |s|;
    } else if s != "" {
      RunLiteral(scanner, s);
    } else {
      assert word + s == word;
    }
  }
}
