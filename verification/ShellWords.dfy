/** What the tokenizer's tokens contain, told from the notation of the command alone: which texts
    are commands, and the value every quoted, escaped or bare part contributes to its word
    (crates/runtime/src/builtin/child_process.js:1276-1393). */
module ShellWords {
  import opened Options
  import opened Shell

  /** What may stand between double quotes. */
  datatype Inner = Literal(c: char) | Marker(c: char) | Escaped(c: char) | Kept(c: char) | Continued
  {
    predicate Valid() {
      match this
      case Literal(c) => c != '"' && c != '\\' && c !in DOUBLE_QUOTED_EXPANSION_MARKERS
      case Marker(c) => c in DOUBLE_QUOTED_EXPANSION_MARKERS
      case Escaped(c) => c in DOUBLE_QUOTED_ENV_ESCAPE_CHARACTERS
      case Kept(c) => c !in DOUBLE_QUOTED_ENV_ESCAPE_CHARACTERS && c != '\n'
      case Continued => true
    }

    function Text(): string {
      match this
      case Literal(c) => [c]
      case Marker(c) => [c]
      case Escaped(c) => ['\\', c]
      case Kept(c) => ['\\', c]
      case Continued => ['\\', '\n']
    }

    /** A backslash goes away only in front of a character it escapes. */
    function Value(): string {
      if Escaped? then [c] else Text()
    }

    function Noted(): string {
      if Marker? then [c] else if Continued? then "\n" else ""
    }
  }

  /** A command is a sequence of these. */
  datatype Part =
    | Blank(c: char)
    | Bare(c: char)
    | Operator(c: char)
    | Escape(c: char)
    | SingleQuotes(s: string)
    | DoubleQuotes(inner: seq<Inner>)
  {
    predicate Valid() {
      match this
      case Blank(c) => IsBlank(c)
      case Bare(c) => !IsBlank(c) && c != '\\' && c != '"' && c != '\'' && c !in SHELL_METACHARACTERS
      case Operator(c) => !IsBlank(c) && c in SHELL_METACHARACTERS
      case Escape(c) => true
      case SingleQuotes(s) => '\'' !in s
      case DoubleQuotes(inner) => forall i :: 0 <= i < |inner| ==> inner[i].Valid()
    }

    function Text(): string {
      match this
      case Blank(c) => [c]
      case Bare(c) => [c]
      case Operator(c) => [c]
      case Escape(c) => ['\\', c]
      case SingleQuotes(s) => "'" + s + "'"
      case DoubleQuotes(inner) => "\"" + InnerText(inner) + "\""
    }

    /** What it contributes to the token. */
    function Value(): string {
      match this
      case Blank(_) => ""
      case Bare(c) => [c]
      case Operator(c) => [c]
      case Escape(c) => [c]
      case SingleQuotes(s) => s
      case DoubleQuotes(inner) => InnerValue(inner)
    }

    /** What it records as an unescaped shell character. */
    function Noted(): string {
      match this
      case Blank(c) => if c == '\n' then [c] else ""
      case Bare(_) => ""
      case Operator(c) => [c]
      case Escape(c) => if c == '\n' then [c] else ""
      case SingleQuotes(_) => ""
      case DoubleQuotes(inner) => InnerNoted(inner)
    }
  }

  function InnerText(inner: seq<Inner>): string {
    if inner == [] then "" else inner[0].Text() + InnerText(inner[1..])
  }

  function InnerValue(inner: seq<Inner>): string {
    if inner == [] then "" else inner[0].Value() + InnerValue(inner[1..])
  }

  function InnerNoted(inner: seq<Inner>): string {
    if inner == [] then "" else inner[0].Noted() + InnerNoted(inner[1..])
  }

  ghost predicate Command(parts: seq<Part>) {
    forall i :: 0 <= i < |parts| ==> parts[i].Valid()
  }

  function Text(parts: seq<Part>): string {
    if parts == [] then "" else parts[0].Text() + Text(parts[1..])
  }

  function Value(parts: seq<Part>): string {
    if parts == [] then "" else parts[0].Value() + Value(parts[1..])
  }

  function Noted(parts: seq<Part>): string {
    if parts == [] then "" else parts[0].Noted() + Noted(parts[1..])
  }

  /** The number of parts in front of the first blank. */
  function WordParts(parts: seq<Part>): (n: nat)
    ensures n <= |parts| && (n < |parts| ==> parts[n].Blank?)
    ensures forall i :: 0 <= i < n ==> !parts[i].Blank?
  {
    if parts == [] || parts[0].Blank? then 0 else 1 + WordParts(parts[1..])
  }

  /** One record for every maximal run of parts without a blank. */
  function Words(parts: seq<Part>): seq<Record>
    decreases |parts|
  {
    if parts == [] then []
    else if parts[0].Blank? then Words(parts[1..])
    else
      var n := WordParts(parts);
      [Record(Value(parts[..n]), Noted(parts[..n]))] + Words(parts[n..])
  }

  // ---------------------------------------------------------------------------------------
  // What each part does to the tokenizer
  // ---------------------------------------------------------------------------------------

  /** Single quotes keep everything up to the closing one. */
  lemma {:induction false} SingleQuotedText(st: Lexer, s: string, rest: string)
    requires st.quote == Single && '\'' !in s
    ensures Tokenize(st, s + ("'" + rest)) == Tokenize(st.(current := st.current + s, quote := Unquoted), rest)
    decreases |s|
  {
    hide Tokenize;
    var text := s + ("'" + rest);
    Unfold(st, text);
    if s == [] {
      assert text[1..] == rest && st.current + s == st.current;
    } else {
      var next := st.(current := st.current + [s[0]]);
      assert text[1..] == s[1..] + ("'" + rest) && next.current + s[1..] == st.current + s;
      SingleQuotedText(next, s[1..], rest);
    }
  }

  /** Text without blanks, quotes, backslashes and shell characters is taken as it is. */
  lemma {:induction false} PlainText(st: Lexer, s: string, rest: string)
    requires st.quote == Unquoted && forall i :: 0 <= i < |s| ==> Bare(s[i]).Valid()
    ensures Tokenize(st, s + rest) == Tokenize(if s == "" then st else st.Append(s), rest)
    decreases |s|
  {
    hide Tokenize;
    if s == [] {
      assert s + rest == rest;
    } else {
      Unfold(st, s + rest);
      var next := st.Append([s[0]]);
      assert s == [s[0]] + s[1..] && (s + rest)[1..] == s[1..] + rest && next.current + s[1..] == st.current + s;
      PlainText(next, s[1..], rest);
      assert |s| == 1 ==> s == [s[0]];
    }
  }

  /** In double quotes every inner part appends its value and records what it notes. */
  lemma InnerStep(st: Lexer, part: Inner, rest: string)
    requires st.quote == Double && part.Valid()
    ensures Tokenize(st, part.Text() + rest) == Tokenize(Taking(st, part.Value(), part.Noted()), rest)
  {
    hide Tokenize;
    var text := part.Text() + rest;
    Unfold(st, text);
    if part.Kept? {
      assert text[1..] == [part.c] + rest && text[0] == '\\';
      var next := st.Append(['\\']);
      Unfold(next, [part.c] + rest);
      assert ([part.c] + rest)[1..] == rest;
      assert st.current + ['\\'] + [part.c] == st.current + ['\\', part.c];
      TakingNothing(st, part.Value());
    } else {
      assert text[|part.Text()|..] == rest;
      TakingNothing(st, part.Value());
      if part.Continued? { assert text[..2] == part.Text(); }
    }
  }

  /** The tokenizer after a part of a word. */
  function Taking(st: Lexer, value: string, noted: string): Lexer {
    st.(current := st.current + value, active := true, special := st.special + noted,
        currentSpecial := st.currentSpecial + noted)
  }

  lemma TakingNothing(st: Lexer, value: string)
    ensures Taking(st, value, "") == st.Append(value)
  {
  }

  lemma TakingTwice(st: Lexer, value: string, noted: string, more: string, moreNoted: string)
    ensures Taking(Taking(st, value, noted), more, moreNoted) == Taking(st, value + more, noted + moreNoted)
  {
    assert st.current + value + more == st.current + (value + more);
    assert st.special + noted + moreNoted == st.special + (noted + moreNoted);
    assert st.currentSpecial + noted + moreNoted == st.currentSpecial + (noted + moreNoted);
  }

  lemma TakingNone(st: Lexer)
    requires st.active
    ensures Taking(st, "", "") == st
  {
    assert st.current + "" == st.current && st.special + "" == st.special;
    assert st.currentSpecial + "" == st.currentSpecial;
  }

  lemma Regroup(a: string, b: string, c: string)
    ensures (a + b) + c == a + (b + c)
  {
  }

  /** Double quotes up to the closing one: backslashes go away in front of what they escape, and
      expansion markers and line continuations are recorded. */
  lemma {:induction false} DoubleQuotedText(st: Lexer, inner: seq<Inner>, rest: string)
    requires st.quote == Double && st.active && DoubleQuotes(inner).Valid()
    ensures Tokenize(st, InnerText(inner) + ("\"" + rest)) ==
            Tokenize(Taking(st, InnerValue(inner), InnerNoted(inner)).(quote := Unquoted), rest)
    decreases |inner|
  {
    hide Tokenize, Taking;
    if inner == [] {
      TakingNone(st);
      ClosingQuote(st, rest);
    } else {
      var part := inner[0];
      Regroup(part.Text(), InnerText(inner[1..]), "\"" + rest);
      InnerStep(st, part, InnerText(inner[1..]) + ("\"" + rest));
      TakingKeeps(st, part.Value(), part.Noted());
      DoubleQuotedText(Taking(st, part.Value(), part.Noted()), inner[1..], rest);
      TakingTwice(st, part.Value(), part.Noted(), InnerValue(inner[1..]), InnerNoted(inner[1..]));
    }
  }

  lemma TakingKeeps(st: Lexer, value: string, noted: string)
    ensures var next := Taking(st, value, noted); next.active && next.quote == st.quote && next.records == st.records
  {
  }

  lemma ClosingQuote(st: Lexer, rest: string)
    requires st.quote == Double
    ensures Tokenize(st, "" + ("\"" + rest)) == Tokenize(st.(quote := Unquoted), rest)
  {
    hide Tokenize;
    var text := "" + ("\"" + rest);
    Unfold(st, text);
    assert text[1..] == rest;
  }

  lemma SingleQuotesStep(st: Lexer, s: string, rest: string)
    requires st.quote == Unquoted && SingleQuotes(s).Valid()
    ensures Tokenize(st, "'" + s + "'" + rest) == Tokenize(Taking(st, s, ""), rest)
  {
    hide Tokenize;
    var text := "'" + s + "'" + rest;
    Unfold(st, text);
    assert text[1..] == s + ("'" + rest);
    SingleQuotedText(st.(quote := Single, active := true), s, rest);
    TakingNothing(st, s);
  }

  lemma DoubleQuotesStep(st: Lexer, inner: seq<Inner>, rest: string)
    requires st.quote == Unquoted && DoubleQuotes(inner).Valid()
    ensures Tokenize(st, "\"" + InnerText(inner) + "\"" + rest) ==
            Tokenize(Taking(st, InnerValue(inner), InnerNoted(inner)), rest)
  {
    hide Tokenize, InnerText, InnerValue, InnerNoted;
    var text := "\"" + InnerText(inner) + "\"" + rest;
    Unfold(st, text);
    assert text[1..] == InnerText(inner) + ("\"" + rest);
    DoubleQuotedText(st.(quote := Double, active := true), inner, rest);
  }

  lemma CharStep(st: Lexer, c: char, rest: string)
    requires st.quote == Unquoted && (Bare(c).Valid() || Operator(c).Valid())
    ensures Tokenize(st, [c] + rest) == Tokenize(Taking(st, [c], if Bare(c).Valid() then "" else [c]), rest)
  {
    hide Tokenize;
    Unfold(st, [c] + rest);
    assert ([c] + rest)[1..] == rest;
    TakingNothing(st, [c]);
  }

  lemma EscapeStep(st: Lexer, c: char, rest: string)
    requires st.quote == Unquoted
    ensures Tokenize(st, ['\\', c] + rest) == Tokenize(Taking(st, [c], Escape(c).Noted()), rest)
  {
    hide Tokenize;
    var text := ['\\', c] + rest;
    Unfold(st, text);
    assert text[2..] == rest;
    TakingNothing(st, [c]);
  }

  /** Every part of a word appends its value to the current token and records what it notes. */
  lemma PartStep(st: Lexer, part: Part, rest: string)
    requires st.quote == Unquoted && part.Valid() && !part.Blank?
    ensures Tokenize(st, part.Text() + rest) == Tokenize(Taking(st, part.Value(), part.Noted()), rest)
  {
    hide Tokenize, Taking, Step, InnerText, InnerValue, InnerNoted;
    match part {
      case SingleQuotes(s) => SingleQuotesStep(st, s, rest);
      case DoubleQuotes(inner) => DoubleQuotesStep(st, inner, rest);
      case Bare(c) => CharStep(st, c, rest);
      case Operator(c) => CharStep(st, c, rest);
      case Escape(c) => EscapeStep(st, c, rest);
    }
  }

  /** A blank ends the current word, if there is one. */
  lemma BlankStep(st: Lexer, c: char, rest: string)
    requires st.quote == Unquoted && IsBlank(c)
    ensures Tokenize(st, [c] + rest) == Tokenize(st.(special := st.special + Blank(c).Noted()).Close(), rest)
  {
    hide Tokenize;
    Unfold(st, [c] + rest);
    assert ([c] + rest)[1..] == rest && st.special + "" == st.special;
  }

  // ---------------------------------------------------------------------------------------
  // Commands tokenize to their words
  // ---------------------------------------------------------------------------------------

  lemma {:induction false} PartsTake(st: Lexer, parts: seq<Part>, rest: string)
    requires st.quote == Unquoted && Command(parts) && forall i :: 0 <= i < |parts| ==> !parts[i].Blank?
    ensures Tokenize(st, Text(parts) + rest) ==
            Tokenize(if parts == [] then st else Taking(st, Value(parts), Noted(parts)), rest)
    decreases |parts|
  {
    hide Tokenize, Taking;
    if parts == [] {
      assert "" + rest == rest;
    } else {
      var part, more := parts[0], parts[1..];
      Regroup(part.Text(), Text(more), rest);
      PartStep(st, part, Text(more) + rest);
      var next := Taking(st, part.Value(), part.Noted());
      TakingKeeps(st, part.Value(), part.Noted());
      PartsTake(next, more, rest);
      TakingTwice(st, part.Value(), part.Noted(), Value(more), Noted(more));
      if more == [] { assert part.Value() + "" == part.Value() && part.Noted() + "" == part.Noted(); }
    }
  }

  lemma {:induction false} SplitParts(parts: seq<Part>, n: nat)
    requires n <= |parts|
    ensures Text(parts) == Text(parts[..n]) + Text(parts[n..])
    ensures Noted(parts) == Noted(parts[..n]) + Noted(parts[n..])
    decreases n
  {
    hide Text, Noted;
    FrontPart(parts);
    if n > 0 {
      var front, behind := parts[1..][..n - 1], parts[n..];
      SplitParts(parts[1..], n - 1);
      assert parts[..n][1..] == front && parts[1..][n - 1..] == behind;
      FrontPart(parts[..n]);
      Regroup(parts[0].Text(), Text(front), Text(behind));
      Regroup(parts[0].Noted(), Noted(front), Noted(behind));
    } else {
      FrontPart(parts[..0]);
      assert parts[0..] == parts && "" + Text(parts) == Text(parts) && "" + Noted(parts) == Noted(parts);
    }
  }

  lemma FrontPart(parts: seq<Part>)
    ensures Text(parts) == if parts == [] then "" else parts[0].Text() + Text(parts[1..])
    ensures Noted(parts) == if parts == [] then "" else parts[0].Noted() + Noted(parts[1..])
  {
  }

  /** A tokenizer between two words. */
  predicate Between(st: Lexer) {
    st.quote == Unquoted && !st.active && st.current == "" && st.currentSpecial == ""
  }

  /** A command, however it is quoted, tokenizes to the values of its words. */
  lemma {:induction false} CommandTokenizes(st: Lexer, parts: seq<Part>)
    requires Between(st) && Command(parts)
    ensures Tokenize(st, Text(parts)) == Some(Tokens(st.records + Words(parts), st.special + Noted(parts)))
    decreases |parts|, 1
  {
    hide Tokenize, Taking;
    if parts == [] {
      TokenizeEnd(st);
      assert st.records + [] == st.records && st.special + "" == st.special;
    } else if parts[0].Blank? {
      var c := parts[0].c;
      BlankStep(st, c, Text(parts[1..]));
      CommandTokenizes(st.(special := st.special + Blank(c).Noted()), parts[1..]);
      Regroup(st.special, Blank(c).Noted(), Noted(parts[1..]));
    } else {
      WordTokenizes(st, parts);
    }
  }

  lemma {:induction false} WordTokenizes(st: Lexer, parts: seq<Part>)
    requires Between(st) && Command(parts) && parts != [] && !parts[0].Blank?
    ensures Tokenize(st, Text(parts)) == Some(Tokens(st.records + Words(parts), st.special + Noted(parts)))
    decreases |parts|, 0
  {
    hide Tokenize, Text, Noted, Value;
    var n := WordParts(parts);
    var word, behind := parts[..n], parts[n..];
    SplitParts(parts, n);
    PartsTake(st, word, Text(behind));
    var taken := Taking(st, Value(word), Noted(word));
    Emptiness(word);
    var record := Record(Value(word), Noted(word));
    assert taken.current == Value(word) && taken.currentSpecial == Noted(word);
    if behind == [] {
      Emptiness(behind);
      TokenizeEnd(taken);
      assert Noted(word) + "" == Noted(word);
      assert st.records + Words(parts) == st.records + [record];
    } else {
      var c, more := behind[0].c, behind[1..];
      AtBlank(behind);
      BlankStep(taken, c, Text(more));
      var next := Lexer(st.records + [record], taken.special + Blank(c).Noted(), "", "", false, Unquoted);
      CommandTokenizes(next, more);
      assert Words(parts) == [record] + Words(more);
      assert st.records + [record] + Words(more) == st.records + Words(parts);
      Regroup(st.special, Noted(word), Blank(c).Noted());
      Regroup(st.special, Noted(word) + Blank(c).Noted(), Noted(more));
      Regroup(Noted(word), Blank(c).Noted(), Noted(more));
    }
  }

  lemma Emptiness(parts: seq<Part>)
    ensures parts == [] ==> Text(parts) == "" && Noted(parts) == "" && Value(parts) == ""
  {
  }

  lemma AtBlank(parts: seq<Part>)
    requires parts != [] && parts[0].Blank?
    ensures Text(parts) == [parts[0].c] + Text(parts[1..])
    ensures Noted(parts) == Blank(parts[0].c).Noted() + Noted(parts[1..])
    ensures Words(parts) == Words(parts[1..])
  {
  }

  // ---------------------------------------------------------------------------------------
  // Nothing else tokenizes
  // ---------------------------------------------------------------------------------------

  /** In single quotes a text that tokenizes goes on to the closing quote. */
  lemma {:induction false} ReadSingle(st: Lexer, text: string) returns (s: string, rest: string)
    requires st.quote == Single && Tokenize(st, text).Some?
    ensures '\'' !in s && text == s + ("'" + rest)
    decreases |text|
  {
    if text == [] {
      assert false;
    } else if text[0] == '\'' {
      s, rest := "", text[1..];
    } else {
      s, rest := ReadSingle(Step(st, text).0, text[1..]);
      s := [text[0]] + s;
    }
  }

  /** In double quotes it goes on to the closing quote, in inner parts. */
  lemma {:induction false} ReadDouble(st: Lexer, text: string) returns (inner: seq<Inner>, rest: string)
    requires st.quote == Double && st.active && Tokenize(st, text).Some?
    ensures DoubleQuotes(inner).Valid() && text == InnerText(inner) + ("\"" + rest)
    decreases |text|
  {
    hide Tokenize;
    if text == [] {
      TokenizeEnd(st);
    } else if text[0] == '"' {
      inner, rest := [], text[1..];
    } else {
      var part := InnerFront(st, text);
      var behind := text[|part.Text()|..];
      assert text == part.Text() + behind;
      InnerStep(st, part, behind);
      inner, rest := ReadDouble(Taking(st, part.Value(), part.Noted()), behind);
      Regroup(part.Text(), InnerText(inner), "\"" + rest);
      inner := [part] + inner;
    }
  }

  lemma InnerFront(st: Lexer, text: string) returns (part: Inner)
    requires st.quote == Double && text != [] && text[0] != '"' && Tokenize(st, text).Some?
    ensures part.Valid() && part.Text() <= text
  {
    var c := text[0];
    if c in DOUBLE_QUOTED_EXPANSION_MARKERS {
      part := Marker(c);
    } else if c != '\\' {
      part := Literal(c);
    } else if |text| == 1 {
      part := Continued;
      assert false;
    } else if text[1] == '\n' {
      part := Continued;
    } else if text[1] in DOUBLE_QUOTED_ENV_ESCAPE_CHARACTERS {
      part := Escaped(text[1]);
    } else {
      part := Kept(text[1]);
    }
  }

  /** A text that tokenizes is a command. */
  lemma {:induction false} TokenizedIsCommand(st: Lexer, text: string) returns (parts: seq<Part>)
    requires st.quote == Unquoted && Tokenize(st, text).Some?
    ensures Command(parts) && Text(parts) == text
    decreases |text|
  {
    hide Tokenize, Taking;
    if text == [] {
      parts := [];
    } else {
      var part := PartFront(st, text);
      var behind := text[|part.Text()|..];
      assert text == part.Text() + behind;
      if part.Blank? {
        BlankStep(st, part.c, behind);
        parts := TokenizedIsCommand(st.(special := st.special + part.Noted()).Close(), behind);
      } else {
        PartStep(st, part, behind);
        TakingKeeps(st, part.Value(), part.Noted());
        parts := TokenizedIsCommand(Taking(st, part.Value(), part.Noted()), behind);
      }
      parts := [part] + parts;
    }
  }

  lemma PartFront(st: Lexer, text: string) returns (part: Part)
    requires st.quote == Unquoted && text != [] && Tokenize(st, text).Some?
    ensures part.Valid() && |part.Text()| > 0 && part.Text() <= text
  {
    hide Tokenize;
    var c := text[0];
    Unfold(st, text);
    if c == '\\' {
      part := Escape(text[1]);
    } else if c == '"' {
      var inner, rest := ReadDouble(st.(quote := Double, active := true), text[1..]);
      part := DoubleQuotes(inner);
      assert text == part.Text() + rest;
    } else if c == '\'' {
      var s, rest := ReadSingle(st.(quote := Single, active := true), text[1..]);
      part := SingleQuotes(s);
      assert text == part.Text() + rest;
    } else {
      part := if IsBlank(c) then Blank(c) else if c in SHELL_METACHARACTERS then Operator(c) else Bare(c);
    }
  }

  lemma CommandMeans(parts: seq<Part>)
    requires Command(parts)
    ensures Tokenize(START, Text(parts)) == Some(Tokens(Words(parts), Noted(parts)))
  {
    hide Tokenize, Text, Command, Words, Noted;
    CommandTokenizes(START, parts);
    assert [] + Words(parts) == Words(parts) && "" + Noted(parts) == Noted(parts);
  }

  /** The tokenizer accepts exactly the commands, and gives the words of the command. */
  lemma TokenizeMeans(text: string, result: Option<Tokens>)
    ensures Tokenize(START, text) == result <==>
            if result.None? then !exists parts :: Command(parts) && Text(parts) == text
            else exists parts ::
              Command(parts) && Text(parts) == text && result == Some(Tokens(Words(parts), Noted(parts)))
  {
    hide Tokenize, Text, Command, Words, Noted;
    forall parts | Command(parts) && Text(parts) == text
      ensures Tokenize(START, text) == Some(Tokens(Words(parts), Noted(parts)))
    {
      CommandMeans(parts);
    }
    if Tokenize(START, text).Some? {
      var parts := TokenizedIsCommand(START, text);
    }
  }

  /** The syntax check lets exactly the commands pass that note no shell character. */
  lemma SupportedMeans(text: string)
    ensures !Unsupported(text, Unquoted) <==>
            exists parts :: Command(parts) && Text(parts) == text && Noted(parts) == ""
  {
    hide Tokenize, Text, Command, Unsupported, Words, Noted;
    LexersAgree(START, text);
    TokenizeMeans(text, Tokenize(START, text));
    forall parts | Command(parts) && Text(parts) == text
      ensures Tokenize(START, text) == Some(Tokens(Words(parts), Noted(parts)))
    {
      CommandMeans(parts);
    }
  }

  // ---------------------------------------------------------------------------------------
  // Where a command is cut
  // ---------------------------------------------------------------------------------------

  /** The part is the character sought, neither quoted nor escaped. */
  predicate Sought(part: Part, target: char) {
    (part.Blank? || part.Bare? || part.Operator?) && part.c == target
  }

  function Attach(front: string, parts: seq<string>): seq<string>
    requires parts != []
  {
    [front + parts[0]] + parts[1..]
  }

  /** The texts between the parts sought. */
  function Pieces(parts: seq<Part>, target: char): (texts: seq<string>)
    ensures texts != []
  {
    if parts == [] then [""]
    else if Sought(parts[0], target) then [""] + Pieces(parts[1..], target)
    else Attach(parts[0].Text(), Pieces(parts[1..], target))
  }

  lemma CutStep(text: string, quote: Quote, escaping: bool, target: char)
    requires text != []
    ensures Cut(text, quote, escaping, target) ==
            if Hit(text, quote, escaping, target) then [""] + Cut(text[1..], quote, false, target)
            else var (q, e) := NextState(text, quote, escaping); Attach([text[0]], Cut(text[1..], q, e, target))
  {
  }

  lemma AttachTwice(a: string, b: string, parts: seq<string>)
    requires parts != []
    ensures Attach(a, Attach(b, parts)) == Attach(a + b, parts) && Attach("", parts) == parts
  {
    assert a + (b + parts[0]) == (a + b) + parts[0];
    assert "" + parts[0] == parts[0];
  }

  /** An unescaped character that is not cut at. */
  lemma CutPasses(c: char, rest: string, quote: Quote, target: char)
    requires !(c == '\\' && quote != Single)
    requires quote == Unquoted && NextQuote(quote, c) == quote ==> c != target
    ensures Cut([c] + rest, quote, false, target) == Attach([c], Cut(rest, NextQuote(quote, c), false, target))
  {
    hide Cut;
    CutStep([c] + rest, quote, false, target);
    assert ([c] + rest)[1..] == rest;
  }

  /** A backslash hides the character behind it. */
  lemma CutEscape(c: char, rest: string, quote: Quote, target: char)
    requires quote != Single
    ensures Cut(['\\', c] + rest, quote, false, target) == Attach(['\\', c], Cut(rest, quote, false, target))
  {
    hide Cut;
    var text := ['\\', c] + rest;
    CutStep(text, quote, false, target);
    CutStep([c] + rest, quote, true, target);
    assert text[1..] == [c] + rest && ([c] + rest)[1..] == rest;
    AttachTwice(['\\'], [c], Cut(rest, quote, false, target));
    assert ['\\'] + [c] == ['\\', c];
  }

  lemma {:induction false} CutSingle(s: string, rest: string, target: char)
    requires '\'' !in s
    ensures Cut(s + ("'" + rest), Single, false, target) == Attach(s + "'", Cut(rest, Unquoted, false, target))
    decreases |s|
  {
    hide Cut;
    if s == [] {
      assert s + ("'" + rest) == "'" + rest && s + "'" == "'";
      CutPasses('\'', rest, Single, target);
    } else {
      CutPasses(s[0], s[1..] + ("'" + rest), Single, target);
      assert s + ("'" + rest) == [s[0]] + (s[1..] + ("'" + rest));
      CutSingle(s[1..], rest, target);
      AttachTwice([s[0]], s[1..] + "'", Cut(rest, Unquoted, false, target));
      assert [s[0]] + (s[1..] + "'") == s + "'";
    }
  }

  lemma {:induction false} CutDouble(inner: seq<Inner>, rest: string, target: char)
    requires DoubleQuotes(inner).Valid()
    ensures Cut(InnerText(inner) + ("\"" + rest), Double, false, target)
            == Attach(InnerText(inner) + "\"", Cut(rest, Unquoted, false, target))
    decreases |inner|
  {
    hide Cut;
    if inner == [] {
      assert InnerText(inner) + ("\"" + rest) == "\"" + rest && InnerText(inner) + "\"" == "\"";
      CutPasses('"', rest, Double, target);
    } else {
      var part, more := inner[0].Text(), InnerText(inner[1..]);
      Regroup(part, more, "\"" + rest);
      Regroup(part, more, "\"");
      if inner[0].Literal? || inner[0].Marker? {
        CutPasses(inner[0].c, more + ("\"" + rest), Double, target);
      } else {
        CutEscape(part[1], more + ("\"" + rest), Double, target);
      }
      CutDouble(inner[1..], rest, target);
      AttachTwice(part, more + "\"", Cut(rest, Unquoted, false, target));
    }
  }

  /** A quoted text is passed with both its quotes when what follows the first one is. */
  lemma CutQuoted(q: char, s: string, rest: string, target: char)
    requires NextQuote(Unquoted, q) != Unquoted
    requires Cut(s + ([q] + rest), NextQuote(Unquoted, q), false, target) ==
             Attach(s + [q], Cut(rest, Unquoted, false, target))
    ensures Cut([q] + s + [q] + rest, Unquoted, false, target) ==
            Attach([q] + s + [q], Cut(rest, Unquoted, false, target))
  {
    hide Cut, Attach;
    Regroup([q] + s, [q], rest);
    Regroup([q], s, [q] + rest);
    CutPasses(q, s + ([q] + rest), Unquoted, target);
    AttachTwice([q], s + [q], Cut(rest, Unquoted, false, target));
    Regroup([q], s, [q]);
  }

  lemma CutPart(part: Part, rest: string, target: char)
    requires part.Valid() && !Sought(part, target)
    ensures Cut(part.Text() + rest, Unquoted, false, target) ==
            Attach(part.Text(), Cut(rest, Unquoted, false, target))
  {
    hide Cut, InnerText;
    match part {
      case SingleQuotes(s) =>
        CutSingle(s, rest, target);
        CutQuoted('\'', s, rest, target);
      case DoubleQuotes(inner) =>
        CutDouble(inner, rest, target);
        CutQuoted('"', InnerText(inner), rest, target);
      case Escape(c) => CutEscape(c, rest, Unquoted, target);
      case Blank(c) => CutPasses(c, rest, Unquoted, target);
      case Bare(c) => CutPasses(c, rest, Unquoted, target);
      case Operator(c) => CutPasses(c, rest, Unquoted, target);
    }
  }

  lemma CutSought(part: Part, rest: string, target: char)
    requires part.Valid() && Sought(part, target)
    ensures Cut(part.Text() + rest, Unquoted, false, target) == [""] + Cut(rest, Unquoted, false, target)
  {
    hide Cut;
    CutStep([target] + rest, Unquoted, false, target);
    assert ([target] + rest)[1..] == rest;
  }

  /** A command is cut exactly at the sought characters that stand outside quotes and escapes. */
  lemma {:induction false} CommandIsCut(parts: seq<Part>, target: char)
    requires Command(parts)
    ensures Cut(Text(parts), Unquoted, false, target) == Pieces(parts, target)
    decreases |parts|
  {
    hide Cut, Sought;
    if parts == [] {
      NothingCut(target);
    } else {
      CommandIsCut(parts[1..], target);
      if Sought(parts[0], target) {
        CutSought(parts[0], Text(parts[1..]), target);
      } else {
        CutPart(parts[0], Text(parts[1..]), target);
      }
    }
  }

  lemma NothingCut(target: char)
    ensures Cut("", Unquoted, false, target) == [""]
  {
  }
}
