/** Lexing and parsing of one ssh configuration line
    (internal/command/hosts.go, sshConfigFields and sshConfigDirective). */
module SshConfig {
  import opened Text

  /** unicode.IsSpace. */
  predicate IsSpace(c: char) {
    || '\t' <= c <= '\r'
    || c == ' '
    || c == '\U{0085}' || c == '\U{00A0}' || c == '\U{1680}'
    || '\U{2000}' <= c <= '\U{200A}'
    || c == '\U{2028}' || c == '\U{2029}' || c == '\U{202F}' || c == '\U{205F}' || c == '\U{3000}'
  }

  predicate AllSpace(s: string) {
    forall i :: 0 <= i < |s| ==> IsSpace(s[i])
  }

  predicate IsQuote(c: char) { c == '"' || c == '\'' }

  /** A character that is simply appended to the current field outside quotes. */
  predicate IsPlain(c: char) { c != '#' && !IsQuote(c) && !IsSpace(c) }

  predicate AllPlain(s: string) {
    forall i :: 0 <= i < |s| ==> IsPlain(s[i])
  }

  /** The lexer's local variables: the finished fields, the field being built,
      the open quote if any, and whether a comment has ended the line. */
  datatype Lexer = Lexer(fields: seq<string>, field: string, quote: Option<char>, commented: bool) {

    function Flush(): Lexer {
      if field == "" then this else this.(fields := fields + [field], field := "")
    }

    function Step(c: char): Lexer {
      if commented then this
      else if quote.Some? then
        if c == quote.value then this.(quote := None) else this.(field := field + [c])
      else if c == '#' then Flush().(commented := true)
      else if IsQuote(c) then this.(quote := Some(c))
      else if IsSpace(c) then Flush()
      else this.(field := field + [c])
    }

    function Run(s: string): Lexer
      decreases |s|
    {
      if s == "" then this else Step(s[0]).Run(s[1..])
    }

    /** An unterminated quote discards the whole line. */
    function Finish(): seq<string> {
      if commented then fields
      else if quote.Some? then []
      else Flush().fields
    }
  }

  const START := Lexer([], "", None, false)

  function Fields(line: string): seq<string> {
    START.Run(line).Finish()
  }

  method SplitFields(line: string) returns (result: seq<string>)
    ensures result == Fields(line)
  {
    var fields: seq<string>, field, quote: Option<char> := [], "", None;
    for i := 0 to |line|
      invariant Lexer(fields, field, quote, false).Run(line[i..]).Finish() == Fields(line)
    {
      var c := line[i];
      ghost var before := Lexer(fields, field, quote, false);
      assert line[i..][0] == c && line[i..][1..] == line[i + 1..];
      if quote.Some? {
        if c == quote.value {
          quote := None;
        } else {
          field := field + [c];
        }
        assert Lexer(fields, field, quote, false) == before.Step(c);
        continue;
      }
      if c == '#' {
        if field != "" {
          fields, field := fields + [field], "";
        }
        CommentIgnoresRest(before.Step(c), line[i + 1..]);
        return fields;
      } else if c == '"' || c == '\'' {
        quote := Some(c);
      } else if IsSpace(c) {
        if field != "" {
          fields, field := fields + [field], "";
        }
      } else {
        field := field + [c];
      }
      assert Lexer(fields, field, quote, false) == before.Step(c);
    }
    assert line[|line|..] == "";
    if quote.Some? {
      return [];
    }
    if field != "" {
      fields := fields + [field];
    }
    return fields;
  }

  // How the lexer moves over whole stretches of text.

  lemma {:induction false} RunConcat(lexer: Lexer, a: string, b: string)
    ensures lexer.Run(a + b) == lexer.Run(a).Run(b)
    decreases |a|
  {
    if a == "" {
      assert a + b == b;
    } else {
      assert (a + b)[1..] == a[1..] + b;
      RunConcat(lexer.Step(a[0]), a[1..], b);
    }
  }

  lemma {:induction false} CommentIgnoresRest(lexer: Lexer, s: string)
    requires lexer.commented
    ensures lexer.Run(s) == lexer
    decreases |s|
  {
    if s != "" {
      CommentIgnoresRest(lexer, s[1..]);
    }
  }

  lemma {:induction false} RunPlain(lexer: Lexer, s: string)
    requires !lexer.commented && lexer.quote.None? && AllPlain(s)
    ensures lexer.Run(s) == lexer.(field := lexer.field + s)
    decreases |s|
  {
    if s == "" {
      assert lexer.field + s == lexer.field;
    } else {
      RunPlain(lexer.Step(s[0]), s[1..]);
      assert lexer.field + [s[0]] + s[1..] == lexer.field + s;
    }
  }

  lemma {:induction false} RunInsideQuote(lexer: Lexer, s: string)
    requires !lexer.commented && lexer.quote.Some? && lexer.quote.value !in s
    ensures lexer.Run(s) == lexer.(field := lexer.field + s)
    decreases |s|
  {
    if s == "" {
      assert lexer.field + s == lexer.field;
    } else {
      RunInsideQuote(lexer.Step(s[0]), s[1..]);
      assert lexer.field + [s[0]] + s[1..] == lexer.field + s;
    }
  }

  lemma {:induction false} RunSpace(lexer: Lexer, s: string)
    requires !lexer.commented && lexer.quote.None? && AllSpace(s)
    ensures lexer.Run(s) == if s == "" then lexer else lexer.Flush()
    decreases |s|
  {
    if s != "" {
      RunSpace(lexer.Flush(), s[1..]);
    }
  }

  function Quoted(word: string): string { "\"" + word + "\"" }

  lemma RunQuoted(lexer: Lexer, word: string)
    requires !lexer.commented && lexer.quote.None? && '"' !in word
    ensures lexer.Run(Quoted(word)) == lexer.(field := lexer.field + word)
  {
    RunConcat(lexer, "\"" + word, "\"");
    RunConcat(lexer, "\"", word);
    RunOne(lexer, '"');
    RunInsideQuote(lexer.(quote := Some('"')), word);
    RunOne(lexer.(quote := Some('"'), field := lexer.field + word), '"');
  }

  lemma RunOne(lexer: Lexer, c: char)
    ensures lexer.Run([c]) == lexer.Step(c)
  {
    assert [c][1..] == "";
    assert lexer.Step(c).Run("") == lexer.Step(c);
  }

  // Printing words and lexing them again.

  predicate Quotable(word: string) { word != "" && '"' !in word }

  /** Words in double quotes, each preceded by the blanks given for it. */
  function Rendering(words: seq<string>, gaps: seq<string>): string
    requires |words| == |gaps|
  {
    if words == [] then ""
    else gaps[0] + Quoted(words[0]) + Rendering(words[1..], gaps[1..])
  }

  /** Trailing blanks, optionally followed by a comment. */
  predicate IsTrailer(s: string) {
    exists n | 0 <= n <= |s| :: AllSpace(s[..n]) && (n < |s| ==> s[n] == '#')
  }

  /** Blanks separate the words; before the first one they are optional. */
  predicate ValidGaps(gaps: seq<string>) {
    forall i :: 0 <= i < |gaps| ==> AllSpace(gaps[i]) && (i > 0 ==> gaps[i] != "")
  }

  lemma {:induction false} RunRendering(lexer: Lexer, words: seq<string>, gaps: seq<string>)
    requires |words| == |gaps|
    requires forall i :: 0 <= i < |words| ==> Quotable(words[i])
    requires forall i :: 0 <= i < |gaps| ==> AllSpace(gaps[i]) && (gaps[i] == "" ==> i == 0 && lexer.field == "")
    requires !lexer.commented && lexer.quote.None?
    ensures var after := lexer.Run(Rendering(words, gaps));
            !after.commented && after.quote.None? && after.Flush().fields == lexer.Flush().fields + words
    decreases |words|
  {
    if words != [] {
      var rest := Rendering(words[1..], gaps[1..]);
      RunConcat(lexer, gaps[0] + Quoted(words[0]), rest);
      RunConcat(lexer, gaps[0], Quoted(words[0]));
      RunSpace(lexer, gaps[0]);
      var spaced := lexer.Run(gaps[0]);
      RunQuoted(spaced, words[0]);
      assert spaced.field + words[0] == words[0];
      RunRendering(spaced.Run(Quoted(words[0])), words[1..], gaps[1..]);
      assert lexer.Flush().fields + [words[0]] + words[1..] == lexer.Flush().fields + words;
    }
  }

  lemma RunTrailer(lexer: Lexer, trailer: string)
    requires !lexer.commented && lexer.quote.None? && IsTrailer(trailer)
    ensures lexer.Run(trailer).Finish() == lexer.Flush().fields
  {
    var n :| 0 <= n <= |trailer| && AllSpace(trailer[..n]) && (n < |trailer| ==> trailer[n] == '#');
    assert trailer == trailer[..n] + trailer[n..];
    RunConcat(lexer, trailer[..n], trailer[n..]);
    RunSpace(lexer, trailer[..n]);
    if n < |trailer| {
      CommentIgnoresRest(lexer.Run(trailer[..n]).Step('#'), trailer[n..][1..]);
    }
  }

  /** Lexing undoes printing: quoted words come back exactly, whatever the
      blanks between them and whatever comment ends the line. */
  lemma LexOfRendering(words: seq<string>, gaps: seq<string>, trailer: string)
    requires |words| == |gaps| && ValidGaps(gaps) && IsTrailer(trailer)
    requires forall i :: 0 <= i < |words| ==> Quotable(words[i])
    ensures Fields(Rendering(words, gaps) + trailer) == words
  {
    RunConcat(START, Rendering(words, gaps), trailer);
    RunRendering(START, words, gaps);
    RunTrailer(START.Run(Rendering(words, gaps)), trailer);
  }

  /** Either quote keeps everything up to its like, comments and the other quote too. */
  lemma LexOfQuotation(quote: char, text: string)
    requires IsQuote(quote) && quote !in text && text != ""
    ensures Fields([quote] + text + [quote]) == [text]
  {
    RunConcat(START, [quote] + text, [quote]);
    RunConcat(START, [quote], text);
    RunOne(START, quote);
    RunInsideQuote(START.(quote := Some(quote)), text);
    RunOne(START.(quote := Some(quote), field := "" + text), quote);
    assert "" + text == text && [] + [text] == [text];
  }

  /** A quote that never closes makes the line contribute nothing. */
  lemma UnterminatedQuoteDropsLine(before: string, quote: char, rest: string)
    requires var lexer := START.Run(before); !lexer.commented && lexer.quote.None?
    requires IsQuote(quote) && quote !in rest
    ensures Fields(before + [quote] + rest) == []
  {
    RunConcat(START, before + [quote], rest);
    RunConcat(START, before, [quote]);
    var lexer := START.Run(before);
    RunOne(lexer, quote);
    RunInsideQuote(lexer.Step(quote), rest);
  }

  // Directives.

  /** strings.ToLower, as far as it can produce a keyword: ASCII letters and the
      two other letters whose lower case is ASCII. */
  function LowerChar(c: char): char {
    if 'A' <= c <= 'Z' then (c as int + 32) as char
    else if c == '\U{0130}' then 'i'
    else if c == '\U{212A}' then 'k'
    else c
  }

  function Lower(s: string): string { seq(|s|, i requires 0 <= i < |s| => LowerChar(s[i])) }

  /** The key is the word in any mixture of cases. A dotted capital I counts as an I. */
  predicate Spells(key: string, word: string) {
    |key| == |word| && forall i :: 0 <= i < |key| ==> IsCaseOf(key[i], word[i])
  }

  predicate IsCaseOf(c: char, lower: char) {
    c == lower || (c as int + 32 == lower as int) || (c == '\U{0130}' && lower == 'i')
  }

  /** Exactly these keys are the two keywords that matter. */
  lemma KeywordsInAnyCase(key: string)
    ensures Lower(key) == "host" <==> Spells(key, "host")
    ensures Lower(key) == "include" <==> Spells(key, "include")
  {
    IsLowerOf(key, "host");
    IsLowerOf(key, "include");
  }

  predicate IsKeywordText(word: string) { forall i :: 0 <= i < |word| ==> 'a' <= word[i] <= 'z' && word[i] != 'k' }

  lemma IsLowerOf(key: string, word: string)
    requires IsKeywordText(word)
    ensures Lower(key) == word <==> Spells(key, word)
  {
    if Spells(key, word) {
      forall i | 0 <= i < |key| ensures Lower(key)[i] == word[i] {
        assert IsCaseOf(key[i], word[i]);
      }
    }
    if Lower(key) == word {
      forall i | 0 <= i < |key| ensures IsCaseOf(key[i], word[i]) {
        assert word[i] == LowerChar(key[i]);
      }
    }
  }

  /** strings.Cut at the first equals sign. */
  function CutAtEquals(s: string): (string, string) {
    if s == "" then ("", "")
    else if s[0] == '=' then ("", s[1..])
    else var (before, after) := CutAtEquals(s[1..]); ([s[0]] + before, after)
  }

  datatype Directive = Directive(key: string, values: seq<string>)

  function DirectiveOf(fields: seq<string>): Directive {
    if fields == [] then Directive("", [])
    else
      var (key, value) := CutAtEquals(fields[0]);
      var values := fields[1..];
      Directive(Lower(key),
        if value != "" then [value] + values
        else if values != [] && HasPrefix(values[0], "=") then
          if values[0][1..] == "" then values[1..] else values[0 := values[0][1..]]
        else values)
  }

  function Parse(line: string): Directive { DirectiveOf(Fields(line)) }

  lemma {:induction false} CutFirstEquals(key: string, rest: string)
    requires '=' !in key
    ensures CutAtEquals(key) == (key, "")
    ensures CutAtEquals(key + "=" + rest) == (key, rest)
  {
    if key == "" {
      assert key + "=" + rest == "=" + rest;
    } else {
      CutFirstEquals(key[1..], rest);
      assert key == [key[0]] + key[1..];
      assert (key + "=" + rest)[1..] == key[1..] + "=" + rest;
    }
  }

  /** The five ways to write a key and its first value. */
  datatype Spelling = Bare | Tight | Spaced | Attached | Trailing

  /** The text between the key and the quoted first value. */
  function Glue(spelling: Spelling, blank: string): string {
    match spelling
    case Bare => blank
    case Tight => "="
    case Spaced => blank + "=" + blank
    case Attached => blank + "="
    case Trailing => "=" + blank
  }

  function FieldsSpelled(spelling: Spelling, key: string, first: string): seq<string> {
    match spelling
    case Bare => [key, first]
    case Tight => [key + "=" + first]
    case Spaced => [key, "=", first]
    case Attached => [key, "=" + first]
    case Trailing => [key + "=", first]
  }

  function Spell(spelling: Spelling, blank: string, key: string, first: string,
                 others: seq<string>, gaps: seq<string>, trailer: string): string
    requires |others| == |gaps|
  {
    key + Glue(spelling, blank) + Quoted(first) + Rendering(others, gaps) + trailer
  }

  predicate SpellingInput(blank: string, key: string, first: string,
                          others: seq<string>, gaps: seq<string>, trailer: string) {
    && AllSpace(blank) && blank != ""
    && key != "" && AllPlain(key) && '=' !in key
    && Quotable(first)
    && |others| == |gaps|
    && (forall i :: 0 <= i < |others| ==> Quotable(others[i]) && AllSpace(gaps[i]) && gaps[i] != "")
    && IsTrailer(trailer)
  }

  /** Where the lexer stands after the key and the glue. */
  function Glued(spelling: Spelling, key: string): Lexer {
    match spelling
    case Bare => Lexer([key], "", None, false)
    case Tight => Lexer([], key + "=", None, false)
    case Spaced => Lexer([key, "="], "", None, false)
    case Attached => Lexer([key], "=", None, false)
    case Trailing => Lexer([key + "="], "", None, false)
  }

  lemma RunGlue(spelling: Spelling, blank: string, key: string)
    requires AllSpace(blank) && blank != "" && key != ""
    ensures Lexer([], key, None, false).Run(Glue(spelling, blank)) == Glued(spelling, key)
  {
    var keyed := Lexer([], key, None, false);
    var split := Lexer([key], "", None, false);
    match spelling {
      case Bare =>
        RunSpace(keyed, blank);
      case Tight =>
        RunOne(keyed, '=');
      case Spaced =>
        RunConcat(keyed, blank + "=", blank);
        RunConcat(keyed, blank, "=");
        RunSpace(keyed, blank);
        RunOne(split, '=');
        assert keyed.Run(blank + "=") == split.(field := "=");
        RunSpace(split.(field := "="), blank);
        assert keyed.Run(blank + "=" + blank) == Glued(Spaced, key);
      case Attached =>
        RunConcat(keyed, blank, "=");
        RunSpace(keyed, blank);
        RunOne(split, '=');
      case Trailing =>
        RunConcat(keyed, "=", blank);
        RunOne(keyed, '=');
        RunSpace(keyed.(field := key + "="), blank);
    }
  }

  lemma RunKeyAndGlue(spelling: Spelling, blank: string, key: string, first: string)
    requires AllSpace(blank) && blank != "" && key != "" && AllPlain(key)
    ensures START.Run(key + Glue(spelling, blank)) == Glued(spelling, key)
    ensures Glued(spelling, key).fields + [Glued(spelling, key).field + first] == FieldsSpelled(spelling, key, first)
  {
    RunConcat(START, key, Glue(spelling, blank));
    RunPlain(START, key);
    assert "" + key == key && "" + first == first;
    RunGlue(spelling, blank, key);
  }

  lemma LexOfSpelling(spelling: Spelling, blank: string, key: string, first: string,
                      others: seq<string>, gaps: seq<string>, trailer: string)
    requires SpellingInput(blank, key, first, others, gaps, trailer)
    ensures Fields(Spell(spelling, blank, key, first, others, gaps, trailer))
            == FieldsSpelled(spelling, key, first) + others
  {
    var head := key + Glue(spelling, blank);
    RunConcat(START, head + Quoted(first) + Rendering(others, gaps), trailer);
    RunConcat(START, head + Quoted(first), Rendering(others, gaps));
    RunConcat(START, head, Quoted(first));
    RunKeyAndGlue(spelling, blank, key, first);
    var glued := START.Run(head);
    RunQuoted(glued, first);
    var named := glued.Run(Quoted(first));
    RunRendering(named, others, gaps);
    RunTrailer(named.Run(Rendering(others, gaps)), trailer);
    assert named.Flush().fields == FieldsSpelled(spelling, key, first);
  }

  lemma DirectiveOfSpelling(spelling: Spelling, key: string, first: string, others: seq<string>)
    requires key != "" && '=' !in key && first != "" && first[0] != '='
    ensures DirectiveOf(FieldsSpelled(spelling, key, first) + others) == Directive(Lower(key), [first] + others)
  {
    var fields := FieldsSpelled(spelling, key, first) + others;
    match spelling {
      case Bare =>
        CutFirstEquals(key, "");
        assert fields[1..] == [first] + others;
      case Tight =>
        CutFirstEquals(key, first);
        assert fields[1..] == others;
      case Spaced =>
        CutFirstEquals(key, "");
        assert fields[1..] == ["=", first] + others;
        assert fields[1..][1..] == [first] + others;
      case Attached =>
        CutFirstEquals(key, "");
        assert fields[1..] == ["=" + first] + others;
        assert ("=" + first)[1..] == first;
        assert fields[1..][0 := first] == [first] + others;
      case Trailing =>
        CutFirstEquals(key, "");
        assert key + "=" + "" == key + "=";
        assert fields[1..] == [first] + others;
    }
  }

  /** Every spelling denotes the same directive. */
  lemma SpellingsAgree(spelling: Spelling, blank: string, key: string, first: string,
                       others: seq<string>, gaps: seq<string>, trailer: string)
    requires SpellingInput(blank, key, first, others, gaps, trailer)
    requires first[0] != '='
    ensures Parse(Spell(spelling, blank, key, first, others, gaps, trailer))
            == Directive(Lower(key), [first] + others)
  {
    LexOfSpelling(spelling, blank, key, first, others, gaps, trailer);
    DirectiveOfSpelling(spelling, key, first, others);
  }

  /** A first value that starts with an equals sign is exactly what makes the
      spelling matter: the bare form then loses the sign and the tight one keeps it. */
  lemma SpellingMattersForEquals(blank: string, key: string, first: string,
                                 others: seq<string>, gaps: seq<string>, trailer: string)
    requires SpellingInput(blank, key, first, others, gaps, trailer)
    ensures (forall a, b :: Parse(Spell(a, blank, key, first, others, gaps, trailer))
                            == Parse(Spell(b, blank, key, first, others, gaps, trailer)))
            <==> first[0] != '='
  {
    if first[0] != '=' {
      forall a, b
        ensures Parse(Spell(a, blank, key, first, others, gaps, trailer))
                == Parse(Spell(b, blank, key, first, others, gaps, trailer))
      {
        SpellingsAgree(a, blank, key, first, others, gaps, trailer);
        SpellingsAgree(b, blank, key, first, others, gaps, trailer);
      }
    } else {
      LexOfSpelling(Tight, blank, key, first, others, gaps, trailer);
      LexOfSpelling(Bare, blank, key, first, others, gaps, trailer);
      CutFirstEquals(key, first);
      var tight := FieldsSpelled(Tight, key, first) + others;
      assert tight[0] == key + "=" + first && tight[1..] == others;
      var bare := FieldsSpelled(Bare, key, first) + others;
      assert bare[0] == key && bare[1..] == [first] + others;
      var t := Parse(Spell(Tight, blank, key, first, others, gaps, trailer));
      var b := Parse(Spell(Bare, blank, key, first, others, gaps, trailer));
      assert t.values == [first] + others;
      if first == "=" {
        assert |b.values| == |others|;
      } else {
        assert b.values[0] == first[1..];
        assert |b.values[0]| != |t.values[0]|;
      }
      assert t != b;
    }
  }
}
