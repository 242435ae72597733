/** Quoting command lines for a POSIX shell, against the shell's own word splitting. */
module ShellQuote {
  import opened Options

  // ---- The shell ------------------------------------------------------------------------------------

  /** The quoting rules of section 2.2 of the POSIX.1-2017 Shell Command Language. */
  datatype Mode = Plain | SingleQuoted | DoubleQuoted

  predicate Blank(c: char) {
    c == ' ' || c == '\t'
  }

  /** Characters that mean something to the shell outside quotes, other than the quotes themselves. */
  predicate Special(c: char) {
    c in {'|', '&', ';', '<', '>', '(', ')', '$', '`', '\n', '*', '?', '[', '#', '~', '%', '{', '}', '!'}
  }

  function Push(words: seq<string>, word: Option<string>): seq<string> {
    if word.Some? then words + [word.value] else words
  }

  function Grow(word: Option<string>, c: char): Option<string> {
    Some((if word.Some? then word.value else "") + [c])
  }

  function Begun(word: Option<string>): Option<string> {
    if word.Some? then word else Some("")
  }

  /**
   * Splits `text` into words, quotes removed; `word` is the word under way, if one has begun. None where
   * the text would be expanded, redirected or continued rather than split.
   */
  function Split(text: string, mode: Mode, word: Option<string>, words: seq<string>): Option<seq<string>> {
    if text == "" then (if mode == Plain then Some(Push(words, word)) else None)
    else
      var c, rest := text[0], text[1..];
      match mode
      case Plain =>
        if Blank(c) then Split(rest, Plain, None, Push(words, word))
        else if c == '\'' then Split(rest, SingleQuoted, Begun(word), words)
        else if c == '"' then Split(rest, DoubleQuoted, Begun(word), words)
        else if c == '\\' then
          if rest == "" || rest[0] == '\n' then None else Split(rest[1..], Plain, Grow(word, rest[0]), words)
        else if Special(c) then None
        else Split(rest, Plain, Grow(word, c), words)
      case SingleQuoted =>
        if c == '\'' then Split(rest, Plain, word, words) else Split(rest, SingleQuoted, Grow(word, c), words)
      case DoubleQuoted =>
        if c == '"' then Split(rest, Plain, word, words)
        else if c == '$' || c == '`' then None
        else if c == '\\' && rest != "" && rest[0] in {'$', '`', '"', '\\'} then
          Split(rest[1..], DoubleQuoted, Grow(word, rest[0]), words)
        else Split(rest, DoubleQuoted, Grow(word, c), words)
  }

  // ---- The quoting ----------------------------------------------------------------------------------

  predicate Safe(c: char) {
    'a' <= c <= 'z' || 'A' <= c <= 'Z' || '0' <= c <= '9' || c in {'-', '_', '.', '/', '=', ':', '@', '+', ','}
  }

  function ReplaceQuotes(value: string, replacement: string): string {
    if value == "" then ""
    else (if value[0] == '\'' then replacement else [value[0]]) + ReplaceQuotes(value[1..], replacement)
  }

  function SingleQuotedText(value: string, replacement: string): string {
    "'" + ReplaceQuotes(value, replacement) + "'"
  }

  /** `'\''` leaves the quotes for one escaped quote. */
  const ESCAPED := "'\\''"

  /** `'"'"'` leaves the quotes for one double-quoted quote. */
  const DOUBLE_QUOTED := "'\"'\"'"

  function ShellQuoted(value: string): string {
    if value != "" && forall i :: 0 <= i < |value| ==> Safe(value[i]) then value else SingleQuotedText(value, ESCAPED)
  }

  function PosixArgument(value: string): string {
    SingleQuotedText(value, DOUBLE_QUOTED)
  }

  function Joined(parts: seq<string>): string {
    if parts == [] then ""
    else if |parts| == 1 then parts[0]
    else parts[0] + " " + Joined(parts[1..])
  }

  method ShellCommand(arguments: seq<string>) returns (command: string)
    ensures command == Joined(seq(|arguments|, i requires 0 <= i < |arguments| => ShellQuoted(arguments[i])))
  {
    var quoted: seq<string> := [];
    for i := 0 to |arguments|
      invariant |quoted| == i && forall k :: 0 <= k < i ==> quoted[k] == ShellQuoted(arguments[k])
    {
      quoted := quoted + [ShellQuoted(arguments[i])];
    }
    assert quoted == seq(|arguments|, i requires 0 <= i < |arguments| => ShellQuoted(arguments[i]));
    command := Joined(quoted);
  }

  /** Letters, digits and the nine signs `-_./=:@+,`, by their codes. */
  predicate Harmless(c: char) {
    var code := c as int;
    97 <= code <= 122 || 65 <= code <= 90 || 48 <= code <= 57 || code in {45, 95, 46, 47, 61, 58, 64, 43, 44}
  }

  /** Only what needs it is quoted: a word of harmless characters stays as it is, and no other. */
  lemma QuotedExactly(value: string)
    ensures ShellQuoted(value) == value <==> |value| > 0 && forall i :: 0 <= i < |value| ==> Harmless(value[i])
  {
    hide ReplaceQuotes;
    assert forall c: char :: Safe(c) <==> Harmless(c);
    QuotesOnlyAdd(value, ESCAPED);
  }

  /** A quote leaves the quotes for one that is escaped, or for one that is double-quoted. */
  lemma QuotesExactly(a: string, b: string)
    requires forall i :: 0 <= i < |a| ==> a[i] != '\''
    ensures ReplaceQuotes(a, ESCAPED) == a
    ensures ReplaceQuotes(a + "'" + b, ESCAPED) == a + "'\\''" + ReplaceQuotes(b, ESCAPED)
    ensures PosixArgument(a) == "'" + a + "'"
    ensures ReplaceQuotes(a + "'" + b, DOUBLE_QUOTED) == a + "'\"'\"'" + ReplaceQuotes(b, DOUBLE_QUOTED)
  {
    OneQuote(a, b, ESCAPED);
    OneQuote(a, b, DOUBLE_QUOTED);
  }

  lemma {:induction false} OneQuote(a: string, b: string, replacement: string)
    requires forall i :: 0 <= i < |a| ==> a[i] != '\''
    ensures ReplaceQuotes(a, replacement) == a
    ensures ReplaceQuotes(a + "'" + b, replacement) == a + replacement + ReplaceQuotes(b, replacement)
  {
    hide ReplaceQuotes;
    if a == "" {
      NoQuotes(replacement);
      TakeChar('\'', b, replacement);
      assert a + "'" + b == ['\''] + b;
      assert "" + replacement + ReplaceQuotes(b, replacement) == replacement + ReplaceQuotes(b, replacement);
    } else {
      var rest := a[1..] + "'" + b;
      assert a == [a[0]] + a[1..] && a + "'" + b == [a[0]] + rest;
      OneQuote(a[1..], b, replacement);
      TakeChar(a[0], a[1..], replacement);
      TakeChar(a[0], rest, replacement);
    }
  }

  lemma NoQuotes(replacement: string)
    ensures ReplaceQuotes("", replacement) == ""
  {
  }

  lemma TakeChar(c: char, rest: string, replacement: string)
    ensures ReplaceQuotes([c] + rest, replacement)
            == (if c == '\'' then replacement else [c]) + ReplaceQuotes(rest, replacement)
  {
    assert ([c] + rest)[1..] == rest;
  }

  lemma {:induction false} QuotesOnlyAdd(value: string, replacement: string)
    requires |replacement| >= 1
    ensures |ReplaceQuotes(value, replacement)| >= |value|
  {
    if value != "" { QuotesOnlyAdd(value[1..], replacement); }
  }

  /** The arguments are quoted one by one and stand a blank apart. */
  lemma JoinedExactly(a: string, rest: seq<string>)
    ensures Joined([]) == "" && Joined([a]) == a && (rest != [] ==> Joined([a] + rest) == a + " " + Joined(rest))
  {
    assert ([a] + rest)[1..] == rest;
  }

  // ---- One argument ---------------------------------------------------------------------------------

  lemma SafeTaken(c: char, word: Option<string>, words: seq<string>, rest: string)
    requires Safe(c)
    ensures Split([c] + rest, Plain, word, words) == Split(rest, Plain, Grow(word, c), words)
  {
    assert ([c] + rest)[1..] == rest;
  }

  lemma BlankTaken(word: string, words: seq<string>, rest: string)
    ensures Split(" " + rest, Plain, Some(word), words) == Split(rest, Plain, None, words + [word])
  {
    assert (" " + rest)[1..] == rest;
  }

  lemma {:induction false} SafeSplits(value: string, word: string, words: seq<string>, rest: string)
    requires forall i :: 0 <= i < |value| ==> Safe(value[i])
    ensures Split(value + rest, Plain, Some(word), words) == Split(rest, Plain, Some(word + value), words)
  {
    if value == "" {
      assert value + rest == rest && word + value == word;
    } else {
      hide Split, Safe;
      SafeTaken(value[0], Some(word), words, value[1..] + rest);
      assert value + rest == [value[0]] + (value[1..] + rest);
      SafeSplits(value[1..], word + [value[0]], words, rest);
      assert word + [value[0]] + value[1..] == word + value;
    }
  }

  /** A quote character opens and closes quoting, the same in the middle of a word as at its start. */
  lemma QuoteTaken(word: Option<string>, words: seq<string>, rest: string)
    ensures Split("'" + rest, Plain, word, words) == Split(rest, SingleQuoted, Begun(word), words)
    ensures Split("'" + rest, SingleQuoted, word, words) == Split(rest, Plain, word, words)
  {
    assert ("'" + rest)[1..] == rest;
  }

  lemma EscapedQuoteTaken(word: string, words: seq<string>, rest: string)
    ensures Split("\\'" + rest, Plain, Some(word), words) == Split(rest, Plain, Some(word + "'"), words)
  {
    var text := "\\'" + rest;
    assert text[1..] == "'" + rest && text[1..][1..] == rest;
    assert Grow(Some(word), '\'') == Some(word + "'");
  }

  lemma DoubleQuotedQuoteTaken(word: string, words: seq<string>, rest: string)
    ensures Split("\"'\"" + rest, Plain, Some(word), words) == Split(rest, Plain, Some(word + "'"), words)
  {
    var inner, last := "'\"" + rest, "\"" + rest;
    assert ("\"'\"" + rest)[1..] == inner && inner[1..] == last && last[1..] == rest;
    assert Split("\"'\"" + rest, Plain, Some(word), words) == Split(inner, DoubleQuoted, Some(word), words);
    assert Grow(Some(word), '\'') == Some(word + "'");
    assert Split(inner, DoubleQuoted, Some(word), words) == Split(last, DoubleQuoted, Some(word + "'"), words);
  }

  /** Both replacements step out of the quotes, add one quote character, and step back in. */
  lemma ReplacementSplits(replacement: string, word: string, words: seq<string>, rest: string)
    requires replacement == ESCAPED || replacement == DOUBLE_QUOTED
    ensures Split(replacement + rest, SingleQuoted, Some(word), words)
      == Split(rest, SingleQuoted, Some(word + "'"), words)
  {
    hide Split;
    QuoteTaken(Some(word + "'"), words, rest);
    if replacement == ESCAPED {
      assert replacement + rest == "'" + ("\\'" + ("'" + rest));
      QuoteTaken(Some(word), words, "\\'" + ("'" + rest));
      EscapedQuoteTaken(word, words, "'" + rest);
    } else {
      assert replacement + rest == "'" + ("\"'\"" + ("'" + rest));
      QuoteTaken(Some(word), words, "\"'\"" + ("'" + rest));
      DoubleQuotedQuoteTaken(word, words, "'" + rest);
    }
  }

  lemma {:induction false} QuotedSplits(value: string, replacement: string, word: string, words: seq<string>,
      rest: string)
    requires replacement == ESCAPED || replacement == DOUBLE_QUOTED
    ensures Split(ReplaceQuotes(value, replacement) + rest, SingleQuoted, Some(word), words)
            == Split(rest, SingleQuoted, Some(word + value), words)
  {
    if value == "" {
      assert ReplaceQuotes(value, replacement) + rest == rest && word + value == word;
    } else {
      var tail := ReplaceQuotes(value[1..], replacement) + rest;
      QuotedSplits(value[1..], replacement, word + [value[0]], words, rest);
      assert word + [value[0]] + value[1..] == word + value;
      if value[0] == '\'' {
        hide Split;
        ReplacementSplits(replacement, word, words, tail);
        assert ReplaceQuotes(value, replacement) + rest == replacement + tail;
        assert word + "'" == word + [value[0]];
      } else {
        assert ReplaceQuotes(value, replacement) + rest == [value[0]] + tail;
        assert ([value[0]] + tail)[1..] == tail;
      }
    }
  }

  lemma QuotedArgumentSplits(value: string, replacement: string, words: seq<string>, rest: string)
    requires replacement == ESCAPED || replacement == DOUBLE_QUOTED
    ensures Split(SingleQuotedText(value, replacement) + rest, Plain, None, words)
      == Split(rest, Plain, Some(value), words)
  {
    hide Split, ReplaceQuotes;
    var inside := ReplaceQuotes(value, replacement) + ("'" + rest);
    assert SingleQuotedText(value, replacement) + rest == "'" + inside;
    QuoteTaken(None, words, inside);
    QuotedSplits(value, replacement, "", words, "'" + rest);
    QuoteTaken(Some(value), words, rest);
    assert "" + value == value;
  }

  lemma ArgumentSplits(value: string, words: seq<string>, rest: string)
    ensures Split(ShellQuoted(value) + rest, Plain, None, words) == Split(rest, Plain, Some(value), words)
  {
    hide Split, Safe, SingleQuotedText;
    if value != "" && forall i :: 0 <= i < |value| ==> Safe(value[i]) {
      SafeTaken(value[0], None, words, value[1..] + rest);
      assert value + rest == [value[0]] + (value[1..] + rest) && "" + [value[0]] == [value[0]];
      SafeSplits(value[1..], [value[0]], words, rest);
      assert [value[0]] + value[1..] == value;
    } else {
      QuotedArgumentSplits(value, ESCAPED, words, rest);
    }
  }

  // ---- Whole commands -------------------------------------------------------------------------------

  function QuotedAll(arguments: seq<string>): seq<string> {
    seq(|arguments|, i requires 0 <= i < |arguments| => ShellQuoted(arguments[i]))
  }

  lemma NothingSplits(word: Option<string>, words: seq<string>)
    ensures Split("", Plain, word, words) == Some(Push(words, word))
  {
  }

  lemma {:induction false} CommandSplits(arguments: seq<string>, words: seq<string>)
    ensures Split(Joined(QuotedAll(arguments)), Plain, None, words) == Some(words + arguments)
  {
    hide Split, ShellQuoted;
    var quoted := QuotedAll(arguments);
    if arguments == [] {
      NothingSplits(None, words);
      assert words + arguments == words;
    } else if |arguments| == 1 {
      ArgumentSplits(arguments[0], words, "");
      NothingSplits(Some(arguments[0]), words);
      assert quoted[0] + "" == quoted[0] && words + [arguments[0]] == words + arguments;
    } else {
      var tail := Joined(quoted[1..]);
      assert quoted[1..] == QuotedAll(arguments[1..]);
      assert Joined(quoted) == quoted[0] + (" " + tail);
      ArgumentSplits(arguments[0], words, " " + tail);
      BlankTaken(arguments[0], words, tail);
      CommandSplits(arguments[1..], words + [arguments[0]]);
      assert words + [arguments[0]] + arguments[1..] == words + arguments;
    }
  }

  /** Splitting a quoted command line gives back exactly the arguments, empty strings and quotes included. */
  lemma CommandRoundTrip(arguments: seq<string>)
    ensures Split(Joined(QuotedAll(arguments)), Plain, None, []) == Some(arguments)
  {
    CommandSplits(arguments, []);
    assert [] + arguments == arguments;
  }

  /** The same splitting undoes the other quoting form. */
  lemma PosixArgumentRoundTrip(value: string)
    ensures Split(PosixArgument(value), Plain, None, []) == Some([value])
  {
    QuotedArgumentSplits(value, DOUBLE_QUOTED, [], "");
    assert PosixArgument(value) + "" == PosixArgument(value) && [] + [value] == [value];
  }
}
