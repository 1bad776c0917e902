/** The constrained shell front end: an environment expander, a tokenizer and an independent
    syntax check, three lexers over the same quoting rules
    (crates/runtime/src/builtin/child_process.js:1201-1440 and 1670-1711). */
module Shell {
  import opened Options

  const SHELL_METACHARACTERS := "|;&<>$`(){}*?[]~#\n"
  const DOUBLE_QUOTED_EXPANSION_MARKERS := "$`"
  const UNQUOTED_ENV_GLOB_CHARACTERS := "*?["
  const UNQUOTED_ENV_ESCAPE_CHARACTERS := "\\'\"" + SHELL_METACHARACTERS
  const DOUBLE_QUOTED_ENV_ESCAPE_CHARACTERS := "\\\"$`"

  datatype Quote = Unquoted | Single | Double

  predicate IsBlank(c: char) { c == ' ' || c == '\t' || c == '\n' }

  // ---------------------------------------------------------------------------------------
  // The tokenizer
  // ---------------------------------------------------------------------------------------

  datatype Record = Record(value: string, special: string)
  datatype Tokens = Tokens(records: seq<Record>, special: string)

  /** The tokenizer between two steps. `special` collects unescaped shell characters. */
  datatype Lexer = Lexer(records: seq<Record>, special: string, current: string, currentSpecial: string,
                         active: bool, quote: Quote)
  {
    function Push(): Lexer {
      Lexer(records + [Record(current, currentSpecial)], special, "", "", false, quote)
    }

    function Close(): Lexer { if active then Push() else this }

    function Append(piece: string): Lexer { this.(current := current + piece, active := true) }

    function Note(c: char): Lexer { this.(special := special + [c], currentSpecial := currentSpecial + [c]) }
  }

  const START := Lexer([], "", "", "", false, Unquoted)

  /** One step: the new state and the number of characters consumed; 0 at a dangling backslash. */
  function Step(st: Lexer, text: string): (r: (Lexer, nat))
    requires text != []
    ensures r.1 <= 2 && r.1 <= |text|
  {
    var ch := text[0];
    match st.quote
    case Unquoted =>
      if ch == '\\' then
        if |text| == 1 then (st, 0)
        else if text[1] == '\n' then (st.Append([text[1]]).Note('\n'), 2)
        else (st.Append([text[1]]), 2)
      else if ch == '"' then (st.(quote := Double, active := true), 1)
      else if ch == '\'' then (st.(quote := Single, active := true), 1)
      else if IsBlank(ch) then ((if ch == '\n' then st.(special := st.special + [ch]) else st).Close(), 1)
      else if ch in SHELL_METACHARACTERS then (st.Append([ch]).Note(ch), 1)
      else (st.Append([ch]), 1)
    case Single =>
      if ch == '\'' then (st.(quote := Unquoted), 1) else (st.(current := st.current + [ch]), 1)
    case Double =>
      if ch == '"' then (st.(quote := Unquoted), 1)
      else if ch == '\\' && |text| > 1 && text[1] == '\n' then (st.Append(text[..2]).Note('\n'), 2)
      else if ch == '\\' && |text| > 1 && text[1] in DOUBLE_QUOTED_ENV_ESCAPE_CHARACTERS then (st.Append([text[1]]), 2)
      else if ch in DOUBLE_QUOTED_EXPANSION_MARKERS then (st.Append([ch]).Note(ch), 1)
      else (st.Append([ch]), 1)
  }

  function Finish(st: Lexer): Option<Tokens> {
    if st.quote != Unquoted then None else Some(Tokens(st.Close().records, st.special))
  }

  function Tokenize(st: Lexer, text: string): Option<Tokens>
    decreases |text|
  {
    if text == [] then Finish(st)
    else
      var (next, n) := Step(st, text);
      if n == 0 then None else Tokenize(next, text[n..])
  }

  lemma TokenizeEnd(st: Lexer)
    ensures Tokenize(st, []) == Finish(st)
  {
  }

  lemma Unfold(st: Lexer, text: string)
    requires text != []
    ensures var (next, n) := Step(st, text);
            Tokenize(st, text) == if n == 0 then None else Tokenize(next, text[n..])
  {
  }

  method SplitCommandTokenRecords(text: string) returns (result: Option<Tokens>)
    ensures result == Tokenize(START, text)
  {
    hide Tokenize;
    var st := START;
    var escaping := false;
    var i := 0;
    assert text[0..] == text;
    while i < |text|
      invariant 0 <= i <= |text| && (escaping ==> st.quote == Unquoted)
      invariant Tokenize(START, text) ==
                if !escaping then Tokenize(st, text[i..])
                else if i == |text| then None
                else Tokenize(if text[i] == '\n' then st.Append([text[i]]).Note('\n') else st.Append([text[i]]),
                              text[i + 1..])
    {
      var ch := text[i];
      ghost var rest := text[i..];
      assert rest[1..] == text[i + 1..]
          && (i + 1 < |text| ==> rest[2..] == text[i + 2..] && rest[..2] == [ch, text[i + 1]]);
      Unfold(st, rest);
      ghost var step := Step(st, rest);
      ghost var from, was := i, escaping;
      if escaping {
        st := st.Append([ch]);
        if ch == '\n' { st := st.Note(ch); }
        escaping := false;
      } else if st.quote == Unquoted {
        if ch == '\\' {
          escaping := true;
        } else if ch == '"' || ch == '\'' {
          st := st.(quote := if ch == '"' then Double else Single, active := true);
        } else if ch == ' ' || ch == '\t' || ch == '\n' {
          if ch == '\n' { st := st.(special := st.special + [ch]); }
          if st.active { st := st.Push(); }
        } else {
          st := st.(current := st.current + [ch]);
          if ch in SHELL_METACHARACTERS { st := st.Note(ch); }
          st := st.(active := true);
        }
      } else if st.quote == Single {
        if ch == '\'' {
          st := st.(quote := Unquoted);
        } else {
          st := st.(current := st.current + [ch]);
        }
      } else if ch == '"' {
        st := st.(quote := Unquoted);
      } else if ch == '\\' && i + 1 < |text| && text[i + 1] == '\n' {
        st := st.(current := st.current + [ch, text[i + 1]]).Note(text[i + 1]).(active := true);
        i := i + 1;
      } else if ch == '\\' && i + 1 < |text|
          && (text[i + 1] == '"' || text[i + 1] == '\\' || text[i + 1] == '$' || text[i + 1] == '`') {
        st := st.(current := st.current + [text[i + 1]], active := true);
        i := i + 1;
      } else {
        st := st.(current := st.current + [ch]);
        if ch in DOUBLE_QUOTED_EXPANSION_MARKERS { st := st.Note(ch); }
        st := st.(active := true);
      }
      i := i + 1;
      assert was || escaping || (st == step.0 && i == from + step.1);
    }
    TokenizeEnd(st);
    assert text[|text|..] == [];
    if escaping || st.quote != Unquoted { return None; }
    if st.active { st := st.Push(); }
    result := Some(Tokens(st.records, st.special));
  }

  // ---------------------------------------------------------------------------------------
  // The syntax check, and its agreement with the tokenizer
  // ---------------------------------------------------------------------------------------

  predicate Unsupported(text: string, quote: Quote)
    decreases |text|
  {
    if text == [] then quote != Unquoted
    else if text[0] == '\\' && quote != Single then
      |text| == 1 || text[1] == '\n' || Unsupported(text[2..], quote)
    else match quote
      case Single => Unsupported(text[1..], if text[0] == '\'' then Unquoted else Single)
      case Double =>
        || text[0] in DOUBLE_QUOTED_EXPANSION_MARKERS
        || Unsupported(text[1..], if text[0] == '"' then Unquoted else Double)
      case Unquoted =>
        text[0] in SHELL_METACHARACTERS ||
        Unsupported(text[1..], if text[0] == '\'' then Single else if text[0] == '"' then Double else Unquoted)
  }

  method HasUnsupportedJavaScriptShellSyntax(text: string) returns (unsupported: bool)
    ensures unsupported <==> Unsupported(text, Unquoted)
  {
    var quote := Unquoted;
    var escaping := false;
    assert text[0..] == text;
    for i := 0 to |text|
      invariant escaping ==> quote != Single && (i < |text| ==> text[i] != '\n')
      invariant Unsupported(text, Unquoted) <==>
                if !escaping then Unsupported(text[i..], quote) else i == |text| || Unsupported(text[i + 1..], quote)
    {
      var ch := text[i];
      ghost var rest := text[i..];
      assert rest[1..] == text[i + 1..] && (i + 1 < |text| ==> rest[2..] == text[i + 2..]);
      if escaping {
        escaping := false;
        continue;
      }
      if ch == '\\' && quote != Single {
        if i + 1 < |text| && text[i + 1] == '\n' {
          return true;
        }
        escaping := true;
        continue;
      }
      if quote == Single {
        if ch == '\'' { quote := Unquoted; }
        continue;
      }
      if quote == Double {
        if ch == '"' {
          quote := Unquoted;
        } else if ch in DOUBLE_QUOTED_EXPANSION_MARKERS {
          return true;
        }
        continue;
      }
      if ch == '\'' || ch == '"' {
        quote := if ch == '\'' then Single else Double;
        continue;
      }
      if ch in SHELL_METACHARACTERS {
        return true;
      }
    }
    return escaping || quote != Unquoted;
  }

  /** What has been recorded stays recorded. */
  lemma {:induction false} SpecialKept(st: Lexer, text: string)
    ensures Tokenize(st, text).Some? ==> st.special <= Tokenize(st, text).value.special
    decreases |text|
  {
    if text != [] {
      var (next, n) := Step(st, text);
      if n > 0 {
        SpecialKept(next, text[n..]);
      }
    }
  }

  /** The two lexers agree: the check fires exactly when the tokenizer fails or records an
      unescaped shell character. */
  lemma {:induction false} LexersAgree(st: Lexer, text: string)
    requires st.special == ""
    ensures Unsupported(text, st.quote) <==> Tokenize(st, text).None? || Tokenize(st, text).value.special != ""
    decreases |text|
  {
    hide Tokenize;
    if text == [] {
      TokenizeEnd(st);
    } else {
      Unfold(st, text);
      var (next, n) := Step(st, text);
      if n > 0 {
        SpecialKept(next, text[n..]);
        if next.special == "" {
          LexersAgree(next, text[n..]);
        }
      }
    }
  }

  // ---------------------------------------------------------------------------------------
  // Environment expansion
  // ---------------------------------------------------------------------------------------

  /** The effective environment; a name may be present with the value undefined. */
  type Env = map<string, Option<string>>

  function ValueOf(env: Env, name: string): string
    requires name in env
  {
    if env[name].None? then "" else env[name].value
  }

  predicate IsLetter(c: char) { 'A' <= c <= 'Z' || 'a' <= c <= 'z' || c == '_' }
  predicate IsDigit(c: char) { '0' <= c <= '9' }

  function WordLength(s: string): (n: nat)
    ensures n <= |s|
  {
    if s != [] && (IsLetter(s[0]) || IsDigit(s[0])) then 1 + WordLength(s[1..]) else 0
  }

  /** The name of a braced reference at the front of `text`, when it is in the environment. */
  function ReferenceAt(text: string, env: Env): (r: Option<string>)
    ensures r.Some? ==> r.value in env && |r.value| + 3 <= |text| && text[0] == '$'
  {
    if |text| > 2 && text[0] == '$' && text[1] == '{' && IsLetter(text[2]) then
      var n := WordLength(text[2..]);
      if 2 + n < |text| && text[2 + n] == '}' && text[2..2 + n] in env then Some(text[2..2 + n]) else None
    else None
  }

  /** A letter or underscore, then letters, underscores and digits. */
  predicate Identifier(name: string) {
    name != "" && IsLetter(name[0]) && forall i :: 0 <= i < |name| ==> IsLetter(name[i]) || IsDigit(name[i])
  }

  lemma {:induction false} WordLengthOf(s: string, n: nat)
    requires n <= |s| && forall i :: 0 <= i < n ==> IsLetter(s[i]) || IsDigit(s[i])
    ensures WordLength(s) >= n && forall i :: 0 <= i < WordLength(s) ==> IsLetter(s[i]) || IsDigit(s[i])
    ensures n < |s| && !IsLetter(s[n]) && !IsDigit(s[n]) ==> WordLength(s) == n
    decreases |s|
  {
    if s != [] && (IsLetter(s[0]) || IsDigit(s[0])) {
      WordLengthOf(s[1..], if n == 0 then 0 else n - 1);
      assert forall i :: 0 < i < |s| ==> s[i] == s[1..][i - 1];
    }
  }

  /** A reference is at the front exactly when the text starts with "${", an identifier that is in the
      environment, and "}". */
  lemma ReferenceMeans(text: string, env: Env, name: string)
    ensures ReferenceAt(text, env) == Some(name) <==>
            Identifier(name) && name in env && ['$', '{'] + name + ['}'] <= text
  {
    hide WordLength;
    var front := ['$', '{'] + name + ['}'];
    if |text| > 2 {
      WordLengthOf(text[2..], 0);
    }
    if Identifier(name) && front <= text {
      assert forall i :: 0 <= i < |name| ==> text[2..][i] == front[2 + i] == name[i];
      assert text[2..][|name|] == front[2 + |name|] == '}';
      WordLengthOf(text[2..], |name|);
      assert text[2..2 + |name|] == name;
    }
  }

  function EscapeEnvValue(value: string, characters: string): string {
    if value == [] then []
    else (if value[0] in characters then ['\\', value[0]] else [value[0]]) + EscapeEnvValue(value[1..], characters)
  }

  method EscapeEnvValueCharacters(value: string, characters: string) returns (escaped: string)
    ensures escaped == EscapeEnvValue(value, characters)
  {
    escaped := "";
    assert value[0..] == value;
    for i := 0 to |value|
      invariant EscapeEnvValue(value, characters) == escaped + EscapeEnvValue(value[i..], characters)
    {
      assert value[i..][1..] == value[i + 1..];
      escaped := escaped + if value[i] in characters then ['\\', value[i]] else [value[i]];
    }
    assert value[|value|..] == [];
  }

  /** An unquoted value: blanks become spaces, shell characters are escaped. */
  function EscapeUnquoted(value: string): string {
    if value == [] then []
    else UnquotedPiece(value[0]) + EscapeUnquoted(value[1..])
  }

  function UnquotedPiece(c: char): string {
    if IsBlank(c) then " " else if c in UNQUOTED_ENV_ESCAPE_CHARACTERS then ['\\', c] else [c]
  }

  predicate GlobFree(value: string) {
    forall i :: 0 <= i < |value| ==> value[i] !in UNQUOTED_ENV_GLOB_CHARACTERS
  }

  /** What a value becomes under the given quoting; None fails the whole command. */
  function ExpandValue(value: string, quote: Quote): Option<string> {
    if '\0' in value then None
    else if quote == Double then Some(EscapeEnvValue(value, DOUBLE_QUOTED_ENV_ESCAPE_CHARACTERS))
    else if GlobFree(value) then Some(EscapeUnquoted(value))
    else None
  }

  function Prepend(front: string, rest: Option<string>): Option<string> {
    if rest.None? then None else Some(front + rest.value)
  }

  function NextQuote(quote: Quote, ch: char): Quote {
    if ch == '\'' && quote != Double then (if quote == Single then Unquoted else Single)
    else if ch == '"' && quote != Single then (if quote == Double then Unquoted else Double)
    else quote
  }

  function Expand(text: string, quote: Quote, env: Env): Option<string>
    decreases |text|
  {
    if text == [] then Some("")
    else if text[0] == '\\' && quote != Single then
      if |text| == 1 then Some(text) else Prepend(text[..2], Expand(text[2..], quote, env))
    else if quote != Single && ReferenceAt(text, env).Some? then
      var name := ReferenceAt(text, env).value;
      var value := ExpandValue(ValueOf(env, name), quote);
      if value.None? then None else Prepend(value.value, Expand(text[|name| + 3..], quote, env))
    else Prepend(text[..1], Expand(text[1..], NextQuote(quote, text[0]), env))
  }

  // ---------------------------------------------------------------------------------------
  // Expansion and tokenizing undo each other
  // ---------------------------------------------------------------------------------------

  /** From a double-quoted state the escaped value appends exactly itself to the current token. */
  lemma {:induction false} DoubleQuotedValue(st: Lexer, value: string, rest: string)
    requires st.quote == Double
    ensures Tokenize(st, EscapeEnvValue(value, DOUBLE_QUOTED_ENV_ESCAPE_CHARACTERS) + rest) ==
            Tokenize(if value == [] then st else st.Append(value), rest)
    decreases |value|
  {
    hide Tokenize, Step;
    var text := EscapeEnvValue(value, DOUBLE_QUOTED_ENV_ESCAPE_CHARACTERS) + rest;
    if value == [] {
      assert text == rest;
    } else {
      Unfold(st, text);
      DoubleQuotedStep(st, text, value[0]);
      var (next, n) := Step(st, text);
      DropFront(if n == 2 then ['\\', value[0]] else [value[0]],
                EscapeEnvValue(value[1..], DOUBLE_QUOTED_ENV_ESCAPE_CHARACTERS), rest);
      DoubleQuotedValue(next, value[1..], rest);
      assert [value[0]] + value[1..] == value;
      assert st.current + [value[0]] + value[1..] == st.current + value;
      assert value[1..] == [] ==> st.Append([value[0]]) == st.Append(value);
    }
  }

  lemma DoubleQuotedStep(st: Lexer, text: string, c: char)
    requires st.quote == Double && text != []
    requires if c in DOUBLE_QUOTED_ENV_ESCAPE_CHARACTERS
             then |text| > 1 && text[0] == '\\' && text[1] == c else text[0] == c
    ensures Step(st, text) == (st.Append([c]), if c in DOUBLE_QUOTED_ENV_ESCAPE_CHARACTERS then 2 else 1)
  {
    var escaped := DOUBLE_QUOTED_ENV_ESCAPE_CHARACTERS;
    assert escaped[0] == '\\' && escaped[1] == '"' && escaped[2] == '$' && escaped[3] == '`';
    assert c in DOUBLE_QUOTED_EXPANSION_MARKERS ==> c == '$' || c == '`';
  }

  /** The pieces of a value between its blanks. */
  function SplitBlank(value: string): (pieces: seq<string>)
    ensures pieces != []
  {
    if value == [] then [""]
    else
      var pieces := SplitBlank(value[1..]);
      if IsBlank(value[0]) then [""] + pieces else [[value[0]] + pieces[0]] + pieces[1..]
  }

  /** POSIX field splitting into the token being built: the first piece continues it, a blank ends
      it, empty pieces make no token. */
  function Fields(st: Lexer, pieces: seq<string>): Lexer
    requires pieces != []
    decreases |pieces|
  {
    var joined := if pieces[0] == "" then st else st.Append(pieces[0]);
    if |pieces| == 1 then joined else Fields(joined.Close(), pieces[1..])
  }

  lemma {:induction false} FieldsKeep(st: Lexer, pieces: seq<string>)
    requires pieces != []
    ensures Fields(st, pieces).special == st.special && Fields(st, pieces).quote == st.quote
    decreases |pieces|
  {
    if |pieces| > 1 {
      var joined := if pieces[0] == "" then st else st.Append(pieces[0]);
      FieldsKeep(joined.Close(), pieces[1..]);
    }
  }

  /** From an unquoted state a glob-free value yields its fields and records no shell character. */
  lemma {:induction false} UnquotedValue(st: Lexer, value: string, rest: string)
    requires st.quote == Unquoted && GlobFree(value)
    ensures Tokenize(st, EscapeUnquoted(value) + rest) == Tokenize(Fields(st, SplitBlank(value)), rest)
    decreases |value|
  {
    hide Tokenize, Step, SplitBlank, Fields;
    var text := EscapeUnquoted(value) + rest;
    if value == [] {
      FieldsOfNothing(st);
      assert text == rest;
    } else {
      var (next, n) := Step(st, text);
      Unfold(st, text);
      UnquotedStep(st, text, value[0]);
      DropFront(if IsBlank(value[0]) then " " else if n == 2 then ['\\', value[0]] else [value[0]],
                EscapeUnquoted(value[1..]), rest);
      UnquotedValue(next, value[1..], rest);
      FieldsStep(st, value);
    }
  }

  lemma FieldsOfNothing(st: Lexer)
    ensures Fields(st, SplitBlank("")) == st
  {
  }

  lemma DropFront(front: string, after: string, rest: string)
    ensures (front + after + rest)[|front|..] == after + rest
    ensures forall i :: 0 <= i < |front| ==> (front + after + rest)[i] == front[i]
  {
    assert front + after + rest == front + (after + rest);
  }

  lemma EscapeSet(c: char)
    ensures c in UNQUOTED_ENV_ESCAPE_CHARACTERS <==> c == '\\' || c == '\'' || c == '"' || c in SHELL_METACHARACTERS
  {
    var quotes := "\\'\"";
    assert c in quotes <==> c == quotes[0] || c == quotes[1] || c == quotes[2];
  }

  lemma UnquotedStep(st: Lexer, text: string, c: char)
    requires st.quote == Unquoted && text != []
    requires if IsBlank(c) then text[0] == ' '
             else if c in UNQUOTED_ENV_ESCAPE_CHARACTERS then |text| > 1 && text[0] == '\\' && text[1] == c
             else text[0] == c
    ensures Step(st, text) == ((if IsBlank(c) then st.Close() else st.Append([c])),
                               if !IsBlank(c) && c in UNQUOTED_ENV_ESCAPE_CHARACTERS then 2 else 1)
  {
    EscapeSet(c);
    Spaces();
  }

  lemma Spaces()
    ensures ' ' !in SHELL_METACHARACTERS && '\t' !in SHELL_METACHARACTERS
  {
  }

  lemma FieldsStep(st: Lexer, value: string)
    requires value != []
    ensures Fields(st, SplitBlank(value)) ==
            Fields(if IsBlank(value[0]) then st.Close() else st.Append([value[0]]), SplitBlank(value[1..]))
  {
    var pieces := SplitBlank(value[1..]);
    if IsBlank(value[0]) {
      assert ([""] + pieces)[1..] == pieces;
    } else {
      var c := [value[0]];
      assert st.current + (c + pieces[0]) == (st.current + c) + pieces[0];
      assert ([c + pieces[0]] + pieces[1..])[1..] == pieces[1..];
      assert pieces[0] == "" ==> c + pieces[0] == c;
    }
  }

  /** What a template means: references in it stand for data. The value of a double-quoted one goes
      into the current token, that of an unquoted one is split into fields; it is never lexed. */
  function TokenizeTemplate(st: Lexer, text: string, env: Env): Option<Tokens>
    decreases |text|
  {
    if text == [] then Finish(st)
    else if st.quote != Single && ReferenceAt(text, env).Some? then
      var name := ReferenceAt(text, env).value;
      TokenizeTemplate(Insert(st, ValueOf(env, name)), text[|name| + 3..], env)
    else
      var (next, n) := Step(st, text);
      if n == 0 then None else TokenizeTemplate(next, text[n..], env)
  }

  function Insert(st: Lexer, value: string): Lexer {
    if st.quote == Double then (if value == [] then st else st.Append(value)) else Fields(st, SplitBlank(value))
  }

  lemma InsertedValue(st: Lexer, value: string, rest: string)
    requires st.quote != Single && ExpandValue(value, st.quote).Some?
    ensures Tokenize(st, ExpandValue(value, st.quote).value + rest) == Tokenize(Insert(st, value), rest)
    ensures Insert(st, value).quote == st.quote && Insert(st, value).special == st.special
  {
    hide Tokenize, EscapeEnvValue, EscapeUnquoted, Fields, SplitBlank;
    if st.quote == Double {
      DoubleQuotedValue(st, value, rest);
    } else {
      UnquotedValue(st, value, rest);
      FieldsKeep(st, SplitBlank(value));
    }
  }

  /** A step looks at the next character only behind a backslash. */
  lemma StepSame(st: Lexer, a: string, b: string)
    requires a != [] && b != [] && a[0] == b[0]
    requires a[0] == '\\' && st.quote != Single ==> |a| > 1 && |b| > 1 && a[1] == b[1]
    ensures Step(st, a) == Step(st, b)
    ensures a[0] == '\\' && st.quote != Single ==>
              && 1 <= Step(st, a).1 && Step(st, a).0.quote == st.quote
              && (Step(st, a).1 == 1 ==> st.quote == Double && a[1] !in DOUBLE_QUOTED_ENV_ESCAPE_CHARACTERS)
    ensures !(a[0] == '\\' && st.quote != Single) ==>
              Step(st, a).1 == 1 && Step(st, a).0.quote == NextQuote(st.quote, a[0])
  {
    assert |a| > 1 && |b| > 1 && a[1] == b[1] ==> a[..2] == b[..2];
  }

  /** A character without meaning between double quotes expands to itself there. */
  lemma PlainExpands(text: string, env: Env)
    requires text != [] && text[0] !in DOUBLE_QUOTED_ENV_ESCAPE_CHARACTERS
    ensures Expand(text, Double, env) == Prepend(text[..1], Expand(text[1..], Double, env))
  {
    var escaped := DOUBLE_QUOTED_ENV_ESCAPE_CHARACTERS;
    assert text[0] != escaped[0] && text[0] != escaped[1] && text[0] != escaped[2];
  }

  /** Whatever is tokenized after expansion is what the template means: no character of a value is
      ever read as quoting or as shell syntax. */
  lemma {:induction false} ExpansionIsData(st: Lexer, text: string, env: Env)
    requires Expand(text, st.quote, env).Some?
    ensures Tokenize(st, Expand(text, st.quote, env).value) == TokenizeTemplate(st, text, env)
    decreases |text|
  {
    hide Tokenize, Step, ReferenceAt, ExpandValue, Insert;
    TokenizeEnd(st);
    if text == [] {
    } else {
      var e := Expand(text, st.quote, env).value;
      if text[0] == '\\' && st.quote != Single {
        Unfold(st, e);
        if |text| == 1 {
          TokenizeEnd(Step(st, text).0);
        } else {
          StepSame(st, text, e);
          var (next, n) := Step(st, text);
          assert e[2..] == Expand(text[2..], st.quote, env).value;
          if n == 1 {
            PlainExpands(text[1..], env);
            assert e[1..] == text[1..][..1] + Expand(text[2..], st.quote, env).value;
          }
          ExpansionIsData(next, text[n..], env);
        }
      } else if st.quote != Single && ReferenceAt(text, env).Some? {
        var name := ReferenceAt(text, env).value;
        var value := ValueOf(env, name);
        var rest := Expand(text[|name| + 3..], st.quote, env).value;
        InsertedValue(st, value, rest);
        ExpansionIsData(Insert(st, value), text[|name| + 3..], env);
      } else {
        Unfold(st, e);
        StepSame(st, text, e);
        var (next, n) := Step(st, text);
        assert e[1..] == Expand(text[1..], next.quote, env).value;
        ExpansionIsData(next, text[1..], env);
      }
    }
  }

  /** The values the references of a template stand for, with the quoting each stands in. */
  function References(text: string, quote: Quote, env: Env): seq<(string, Quote)>
    decreases |text|
  {
    if text == [] then []
    else if text[0] == '\\' && quote != Single then
      if |text| == 1 then [] else References(text[2..], quote, env)
    else if quote != Single && ReferenceAt(text, env).Some? then
      var name := ReferenceAt(text, env).value;
      [(ValueOf(env, name), quote)] + References(text[|name| + 3..], quote, env)
    else References(text[1..], NextQuote(quote, text[0]), env)
  }

  /** A value with a NUL, or one outside double quotes with a glob character. */
  predicate Refused(value: string, quote: Quote) {
    '\0' in value || (quote != Double && exists i :: 0 <= i < |value| && value[i] in UNQUOTED_ENV_GLOB_CHARACTERS)
  }

  ghost predicate SomeRefused(values: seq<(string, Quote)>) {
    exists i :: 0 <= i < |values| && Refused(values[i].0, values[i].1)
  }

  lemma RefusedFirst(value: (string, Quote), values: seq<(string, Quote)>)
    ensures SomeRefused([value] + values) <==> Refused(value.0, value.1) || SomeRefused(values)
  {
    var all := [value] + values;
    assert all[0] == value;
    if i :| 0 <= i < |values| && Refused(values[i].0, values[i].1) {
      assert all[i + 1] == values[i];
    }
  }

  lemma RefusedValue(value: string, quote: Quote)
    ensures ExpandValue(value, quote).None? <==> Refused(value, quote)
  {
  }

  /** Expansion fails exactly when some reference stands for a refused value. */
  lemma {:induction false} ExpansionFails(text: string, quote: Quote, env: Env)
    ensures Expand(text, quote, env).None? <==> SomeRefused(References(text, quote, env))
    decreases |text|
  {
    hide ReferenceAt, ExpandValue, Refused;
    if text == [] {
    } else if text[0] == '\\' && quote != Single {
      if |text| > 1 { ExpansionFails(text[2..], quote, env); }
    } else if quote != Single && ReferenceAt(text, env).Some? {
      var name := ReferenceAt(text, env).value;
      var behind := text[|name| + 3..];
      RefusedValue(ValueOf(env, name), quote);
      ExpansionFails(behind, quote, env);
      RefusedFirst((ValueOf(env, name), quote), References(behind, quote, env));
    } else {
      ExpansionFails(text[1..], NextQuote(quote, text[0]), env);
    }
  }

  /** No template fails when no value has a NUL or a glob character. */
  lemma {:induction false} ExpansionSucceeds(text: string, quote: Quote, env: Env)
    requires forall name :: name in env ==> '\0' !in ValueOf(env, name) && GlobFree(ValueOf(env, name))
    ensures Expand(text, quote, env).Some?
    decreases |text|
  {
    if text == [] {
    } else if text[0] == '\\' && quote != Single {
      if |text| > 1 { ExpansionSucceeds(text[2..], quote, env); }
    } else if quote != Single && ReferenceAt(text, env).Some? {
      ExpansionSucceeds(text[|ReferenceAt(text, env).value| + 3..], quote, env);
    } else {
      ExpansionSucceeds(text[1..], NextQuote(quote, text[0]), env);
    }
  }

  method ExpandTemplateEnvRefs(source: string, env: Env) returns (result: Option<string>)
    ensures result == Expand(source, Unquoted, env)
  {
    hide Expand, ReferenceAt, ExpandValue, EscapeEnvValue, EscapeUnquoted;
    var expanded := "";
    var quote := Unquoted;
    var i := 0;
    assert source[0..] == source;
    PrependNothing(Expand(source, Unquoted, env));
    while i < |source|
      invariant 0 <= i <= |source|
      invariant Expand(source, Unquoted, env) == Prepend(expanded, Expand(source[i..], quote, env))
    {
      var ch := source[i];
      ghost var rest := source[i..];
      assert rest[1..] == source[i + 1..] && rest[..1] == [ch];
      assert i + 1 < |source| ==> rest[2..] == source[i + 2..] && rest[..2] == [ch, source[i + 1]];
      UnfoldExpand(rest, quote, env);
      ghost var before := expanded;
      if ch == '\\' && quote != Single {
        expanded := expanded + [ch];
        i := i + 1;
        if i < |source| {
          expanded := expanded + [source[i]];
          i := i + 1;
          assert expanded == before + rest[..2];
          PrependTwice(before, rest[..2], Expand(source[i..], quote, env));
        } else {
          ExpandNothing(quote, env);
          assert source[i..] == [] && rest == [ch] && before + rest == expanded + "";
        }
        continue;
      }
      if ch == '\'' && quote != Double {
        quote := if quote == Single then Unquoted else Single;
        expanded := expanded + [ch];
        i := i + 1;
        PrependTwice(before, rest[..1], Expand(source[i..], quote, env));
        continue;
      }
      if ch == '"' && quote != Single {
        quote := if quote == Double then Unquoted else Double;
        expanded := expanded + [ch];
        i := i + 1;
        PrependTwice(before, rest[..1], Expand(source[i..], quote, env));
        continue;
      }
      var match_ := ReferenceAt(source[i..], env);
      if ch != '$' || quote == Single || match_.None? {
        expanded := expanded + [ch];
        i := i + 1;
        PrependTwice(before, rest[..1], Expand(source[i..], quote, env));
        continue;
      }
      var value := ValueOf(env, match_.value);
      var inserted := InsertValue(value, quote);
      if inserted.None? { return None; }
      expanded := expanded + inserted.value;
      i := i + |match_.value| + 3;
      assert rest[|match_.value| + 3..] == source[i..];
      PrependTwice(before, inserted.value, Expand(source[i..], quote, env));
    }
    assert source[|source|..] == [];
    ExpandNothing(quote, env);
    assert expanded + "" == expanded;
    result := Some(expanded);
  }

  /** The NUL and glob checks and the escaping of one value. */
  method InsertValue(value: string, quote: Quote) returns (inserted: Option<string>)
    requires quote != Single
    ensures inserted == ExpandValue(value, quote)
  {
    if '\0' in value { return None; }
    if quote == Double {
      var escaped := EscapeEnvValueCharacters(value, DOUBLE_QUOTED_ENV_ESCAPE_CHARACTERS);
      return Some(escaped);
    }
    inserted := InsertUnquoted(value);
  }

  method AppendUnquoted(expanded: string, valueChar: char) returns (r: string)
    ensures r == expanded + UnquotedPiece(valueChar)
  {
    if valueChar == ' ' || valueChar == '\t' || valueChar == '\n' {
      r := expanded + " ";
    } else if valueChar in UNQUOTED_ENV_ESCAPE_CHARACTERS {
      r := expanded + ['\\', valueChar];
    } else {
      r := expanded + [valueChar];
    }
  }

  method InsertUnquoted(value: string) returns (inserted: Option<string>)
    ensures inserted == if GlobFree(value) then Some(EscapeUnquoted(value)) else None
  {
    hide EscapeUnquoted, GlobFree, UnquotedPiece;
    var expanded := "";
    assert value[0..] == value && value[..0] == "";
    EscapeUnquotedStep("");
    for i := 0 to |value|
      invariant GlobFree(value[..i]) && EscapeUnquoted(value) == expanded + EscapeUnquoted(value[i..])
    {
      var valueChar := value[i];
      EscapeUnquotedStep(value[i..]);
      GlobStep(value, i);
      if valueChar in UNQUOTED_ENV_GLOB_CHARACTERS { return None; }
      expanded := AppendUnquoted(expanded, valueChar);
      assert value[i..][1..] == value[i + 1..];
    }
    assert value[..|value|] == value && value[|value|..] == [] && expanded + [] == expanded;
    EscapeUnquotedStep("");
    inserted := Some(expanded);
  }

  lemma EscapeUnquotedStep(value: string)
    ensures EscapeUnquoted(value) == if value == [] then [] else UnquotedPiece(value[0]) + EscapeUnquoted(value[1..])
    ensures GlobFree("")
  {
  }

  lemma GlobStep(value: string, i: nat)
    requires i < |value| && GlobFree(value[..i])
    ensures if value[i] in UNQUOTED_ENV_GLOB_CHARACTERS then !GlobFree(value) else GlobFree(value[..i + 1])
  {
  }

  lemma UnfoldExpand(text: string, quote: Quote, env: Env)
    requires text != []
    ensures Expand(text, quote, env) ==
            if text[0] == '\\' && quote != Single then
              if |text| == 1 then Some(text) else Prepend(text[..2], Expand(text[2..], quote, env))
            else if quote != Single && ReferenceAt(text, env).Some? then
              var name := ReferenceAt(text, env).value;
              var value := ExpandValue(ValueOf(env, name), quote);
              if value.None? then None else Prepend(value.value, Expand(text[|name| + 3..], quote, env))
            else Prepend(text[..1], Expand(text[1..], NextQuote(quote, text[0]), env))
  {
  }

  lemma ExpandNothing(quote: Quote, env: Env)
    ensures Expand([], quote, env) == Some("")
  {
  }

  lemma PrependNothing(rest: Option<string>)
    ensures Prepend("", rest) == rest
  {
    if rest.Some? { assert "" + rest.value == rest.value; }
  }

  lemma PrependTwice(a: string, b: string, rest: Option<string>)
    ensures Prepend(a, Prepend(b, rest)) == Prepend(a + b, rest)
  {
    if rest.Some? { assert a + (b + rest.value) == (a + b) + rest.value; }
  }

  // ---------------------------------------------------------------------------------------
  // Splitting at unquoted characters
  // ---------------------------------------------------------------------------------------

  function Shift(r: Option<nat>): Option<nat> {
    if r.None? then None else Some(r.value + 1)
  }

  /** The first unquoted, unescaped occurrence of `target`. */
  function Find(text: string, quote: Quote, escaping: bool, target: char): (r: Option<nat>)
    ensures r.Some? ==> r.value < |text|
  {
    if text == [] then None
    else if escaping then Shift(Find(text[1..], quote, false, target))
    else if text[0] == '\\' && quote != Single then Shift(Find(text[1..], quote, true, target))
    else if NextQuote(quote, text[0]) != quote then Shift(Find(text[1..], NextQuote(quote, text[0]), false, target))
    else if text[0] == target && quote == Unquoted then Some(0)
    else Shift(Find(text[1..], quote, false, target))
  }

  method FindUnquotedCharacter(source: string, target: char, start: nat) returns (index: int)
    requires start <= |source|
    ensures match Find(source[start..], Unquoted, false, target)
            case Some(k) => index == start + k
            case None => index == -1
  {
    var quote := Unquoted;
    var escaping := false;
    for i := start to |source|
      invariant var r := Find(source[i..], quote, escaping, target);
                match Find(source[start..], Unquoted, false, target)
                case Some(k) => r.Some? && start + k == i + r.value
                case None => r.None?
    {
      var ch := source[i];
      assert source[i..][1..] == source[i + 1..];
      if escaping {
        escaping := false;
        continue;
      }
      if ch == '\\' && quote != Single {
        escaping := true;
        continue;
      }
      if ch == '\'' && quote != Double {
        quote := if quote == Single then Unquoted else Single;
        continue;
      }
      if ch == '"' && quote != Single {
        quote := if quote == Double then Unquoted else Double;
        continue;
      }
      if ch == target && quote == Unquoted { return i; }
    }
    index := -1;
  }

  /** The character in front is an unquoted, unescaped `target`. */
  predicate Hit(text: string, quote: Quote, escaping: bool, target: char)
    requires text != []
  {
    !escaping && text[0] == target && quote == Unquoted && target != '\\' && NextQuote(quote, target) == quote
  }

  function NextState(text: string, quote: Quote, escaping: bool): (Quote, bool)
    requires text != []
  {
    (if escaping then quote else NextQuote(quote, text[0]), !escaping && text[0] == '\\' && quote != Single)
  }

  function Glue(c: char, parts: seq<string>): seq<string>
    requires parts != []
  {
    [[c] + parts[0]] + parts[1..]
  }

  /** Cutting in one pass, without ever restarting the lexer. */
  function Cut(text: string, quote: Quote, escaping: bool, target: char): (parts: seq<string>)
    ensures parts != []
    decreases |text|
  {
    if text == [] then [""]
    else if Hit(text, quote, escaping, target) then [""] + Cut(text[1..], quote, false, target)
    else
      var (q, e) := NextState(text, quote, escaping);
      Glue(text[0], Cut(text[1..], q, e, target))
  }

  /** The parts a first hit at k leaves. */
  function CutAt(text: string, r: Option<nat>, target: char): seq<string>
    requires r.Some? ==> r.value < |text|
  {
    if r.None? then [text] else [text[..r.value]] + Cut(text[r.value + 1..], Unquoted, false, target)
  }

  /** Restarting with a fresh lexer behind each hit cuts at the same places. */
  lemma {:induction false} CutAtFind(text: string, quote: Quote, escaping: bool, target: char)
    ensures Cut(text, quote, escaping, target) == CutAt(text, Find(text, quote, escaping, target), target)
    decreases |text|
  {
    hide CutAt, Find;
    if text == [] {
      NothingFound(quote, escaping, target);
    } else if Hit(text, quote, escaping, target) {
      FoundFirst(text, quote, escaping, target);
    } else {
      var (q, e) := NextState(text, quote, escaping);
      CutAtFind(text[1..], q, e, target);
      FindNext(text, quote, escaping, target);
      GlueCutAt(text, Find(text[1..], q, e, target), target);
    }
  }

  lemma NothingFound(quote: Quote, escaping: bool, target: char)
    ensures CutAt("", Find("", quote, escaping, target), target) == [""]
  {
  }

  lemma FoundFirst(text: string, quote: Quote, escaping: bool, target: char)
    requires text != [] && Hit(text, quote, escaping, target)
    ensures CutAt(text, Find(text, quote, escaping, target), target) == [""] + Cut(text[1..], quote, false, target)
  {
    hide Cut;
  }

  lemma GlueCutAt(text: string, r: Option<nat>, target: char)
    requires text != [] && (r.Some? ==> r.value < |text| - 1)
    ensures CutAt(text[1..], r, target) != []
            && Glue(text[0], CutAt(text[1..], r, target)) == CutAt(text, Shift(r), target)
  {
    hide Cut;
    if r.Some? {
      assert [text[0]] + text[1..][..r.value] == text[..r.value + 1];
      assert text[1..][r.value + 1..] == text[r.value + 2..];
    } else {
      assert [text[0]] + text[1..] == text;
    }
  }

  lemma FindNext(text: string, quote: Quote, escaping: bool, target: char)
    requires text != [] && !Hit(text, quote, escaping, target)
    ensures var (q, e) := NextState(text, quote, escaping);
            Find(text, quote, escaping, target) == Shift(Find(text[1..], q, e, target))
  {
  }

  function Join(parts: seq<string>, target: char): string
    requires parts != []
  {
    if |parts| == 1 then parts[0] else parts[0] + [target] + Join(parts[1..], target)
  }

  lemma {:induction false} CutJoins(text: string, quote: Quote, escaping: bool, target: char)
    ensures Join(Cut(text, quote, escaping, target), target) == text
    decreases |text|
  {
    hide Join;
    JoinOne("", target);
    if text != [] {
      if Hit(text, quote, escaping, target) {
        CutJoins(text[1..], quote, false, target);
        JoinTwo("", Cut(text[1..], quote, false, target), target);
        assert text == "" + [target] + text[1..];
      } else {
        var (q, e) := NextState(text, quote, escaping);
        CutJoins(text[1..], q, e, target);
        JoinGlue(text[0], Cut(text[1..], q, e, target), target);
        assert [text[0]] + text[1..] == text;
      }
    }
  }

  lemma JoinOne(part: string, target: char)
    ensures Join([part], target) == part
  {
  }

  lemma JoinTwo(part: string, parts: seq<string>, target: char)
    requires parts != []
    ensures Join([part] + parts, target) == part + [target] + Join(parts, target)
  {
    assert ([part] + parts)[1..] == parts;
  }

  lemma JoinGlue(c: char, parts: seq<string>, target: char)
    requires parts != []
    ensures Join(Glue(c, parts), target) == [c] + Join(parts, target)
  {
    assert Glue(c, parts)[1..] == parts[1..];
    if |parts| > 1 {
      assert [c] + parts[0] + [target] + Join(parts[1..], target)
          == [c] + (parts[0] + [target] + Join(parts[1..], target));
    }
  }

  method SplitOnUnquotedCharacter(source: string, target: char) returns (parts: seq<string>)
    ensures parts == Cut(source, Unquoted, false, target) && Join(parts, target) == source
  {
    hide Cut, Find, Join;
    parts := [];
    var offset := 0;
    assert source[0..] == source;
    CutJoins(source, Unquoted, false, target);
    while true
      invariant 0 <= offset <= |source|
      invariant Cut(source, Unquoted, false, target) == parts + Cut(source[offset..], Unquoted, false, target)
      decreases |source| - offset
    {
      CutAtFind(source[offset..], Unquoted, false, target);
      var index := FindUnquotedCharacter(source, target, offset);
      if index == -1 {
        parts := parts + [source[offset..]];
        return;
      }
      assert source[offset..][..index - offset] == source[offset..index];
      assert source[offset..][index - offset + 1..] == source[index + 1..];
      parts := parts + [source[offset..index]];
      offset := index + 1;
    }
  }
}
