/**
 * The quoting of check commands (`shell_quote` and the space join) against the shell's own rules for
 * splitting words: escape character and single quotes as in sections 2.2.1 and 2.2.2 of the Shell
 * Command Language, POSIX.1-2017.
 */
module ShellWords {
  import opened Collections

  /** `value.replace('\'', "'\\''")`. */
  function EscapeQuotes(value: string): string {
    if value == "" then ""
    else (if value[0] == '\'' then "'\\''" else [value[0]]) + EscapeQuotes(value[1..])
  }

  /** `shell_quote`. */
  function ShellQuote(value: string): string {
    "'" + EscapeQuotes(value) + "'"
  }

  /** The arguments quoted and joined by one space. */
  function ShellJoin(args: seq<string>): string {
    if args == [] then ""
    else if |args| == 1 then ShellQuote(args[0])
    else ShellQuote(args[0]) + " " + ShellJoin(args[1..])
  }

  // ---- How a shell reads such a line ----

  /** The reader is between words, in a word, in single quotes, or just after a backslash outside quotes. */
  datatype Mode = Between | InWord | SingleQuoted | Escaped(inWord: bool)

  datatype Reader = Reader(mode: Mode, words: seq<string>, word: string)

  /** Characters with a meaning of their own outside quotes; the reader refuses them. */
  predicate Special(c: char) {
    c in "|&;<>()$`\"*?[#~=%!{}\n"
  }

  predicate Blank(c: char) { c == ' ' || c == '\t' }

  /** One character of input. */
  function Step(r: Reader, c: char): Option<Reader> {
    match r.mode
    case SingleQuoted =>
      Some(if c == '\'' then r.(mode := InWord) else r.(word := r.word + [c]))
    case Escaped(inWord) =>
      // an escaped newline is a line continuation and disappears
      Some(if c == '\n' then r.(mode := if inWord then InWord else Between)
           else r.(mode := InWord, word := r.word + [c]))
    case _ =>
      if c == '\'' then Some(r.(mode := SingleQuoted))
      else if c == '\\' then Some(r.(mode := Escaped(r.mode == InWord)))
      else if Blank(c) then
        Some(if r.mode == Between then r else Reader(Between, r.words + [r.word], ""))
      else if Special(c) then None
      else Some(r.(mode := InWord, word := r.word + [c]))
  }

  function Run(r: Reader, input: string): Option<Reader>
    decreases |input|
  {
    if input == "" then Some(r)
    else match Step(r, input[0])
         case None => None
         case Some(next) => Run(next, input[1..])
  }

  /** All words of a complete line; an open quote or escape is an error. */
  function SplitWords(line: string): Option<seq<string>> {
    match Run(Reader(Between, [], ""), line)
    case None => None
    case Some(r) =>
      match r.mode
      case Between => Some(r.words)
      case InWord => Some(r.words + [r.word])
      case _ => None
  }

  lemma {:induction false} RunAppend(r: Reader, a: string, b: string)
    requires Run(r, a).Some?
    ensures Run(r, a + b) == Run(Run(r, a).value, b)
    decreases |a|
  {
    if a == "" {
      assert a + b == b;
    } else {
      assert (a + b)[1..] == a[1..] + b;
      RunAppend(Step(r, a[0]).value, a[1..], b);
    }
  }

  /** Inside single quotes the escaped text reads back as the text itself, whatever it holds. */
  lemma {:induction false} EscapedReadsBack(words: seq<string>, word: string, value: string)
    ensures Run(Reader(SingleQuoted, words, word), EscapeQuotes(value))
         == Some(Reader(SingleQuoted, words, word + value))
    decreases |value|
  {
    var r := Reader(SingleQuoted, words, word);
    if value == "" {
      assert word + value == word;
    } else {
      var c := value[0];
      var head := if c == '\'' then "'\\''" else [c];
      if c == '\'' {
        QuoteReadsBack(words, word);
      } else {
        assert head[1..] == "";
      }
      assert Run(r, head) == Some(Reader(SingleQuoted, words, word + [c]));
      RunAppend(r, head, EscapeQuotes(value[1..]));
      EscapedReadsBack(words, word + [c], value[1..]);
      assert word + value == word + [c] + value[1..];
    }
  }

  /** Close, escaped quote, open again. */
  lemma QuoteReadsBack(words: seq<string>, word: string)
    ensures Run(Reader(SingleQuoted, words, word), "'\\''") == Some(Reader(SingleQuoted, words, word + ['\'']))
  {
    var input := "'\\''";
    assert input[1..] == "\\''" && input[1..][1..] == "''" && input[1..][1..][1..] == "'";
    var r3 := Reader(InWord, words, word + ['\'']);
    assert Run(r3, "'") == Some(r3.(mode := SingleQuoted)) by { assert "'"[1..] == ""; }
    assert Run(Reader(Escaped(true), words, word), "''") == Run(r3, "'") by { assert "''"[1..] == "'"; }
    assert Run(Reader(InWord, words, word), "\\''") == Run(Reader(Escaped(true), words, word), "''") by {
      assert "\\''"[1..] == "''";
    }
  }

  /** A quoted argument is read as one word, even an empty one. */
  lemma QuotedReadsBack(words: seq<string>, value: string)
    ensures Run(Reader(Between, words, ""), ShellQuote(value)) == Some(Reader(InWord, words, value))
  {
    var start, inside := Reader(Between, words, ""), Reader(SingleQuoted, words, "");
    var escaped := EscapeQuotes(value);
    assert Run(start, "'") == Some(inside) by { assert "'"[1..] == ""; }
    EscapedReadsBack(words, "", value);
    assert "" + value == value;
    RunAppend(inside, escaped, "'");
    assert Run(Reader(SingleQuoted, words, value), "'") == Some(Reader(InWord, words, value)) by {
      assert "'"[1..] == "";
    }
    RunAppend(start, "'", escaped + "'");
    assert ShellQuote(value) == "'" + (escaped + "'");
  }

  lemma {:induction false} JoinReadsBack(words: seq<string>, args: seq<string>)
    requires args != []
    ensures Run(Reader(Between, words, ""), ShellJoin(args))
         == Some(Reader(InWord, words + args[..|args| - 1], args[|args| - 1]))
    decreases |args|
  {
    var start := Reader(Between, words, "");
    QuotedReadsBack(words, args[0]);
    if |args| == 1 {
      assert words + args[..0] == words;
    } else {
      var quoted, rest := ShellQuote(args[0]), ShellJoin(args[1..]);
      var after := Reader(InWord, words, args[0]);
      RunAppend(start, quoted, " ");
      assert Run(after, " ") == Some(Reader(Between, words + [args[0]], "")) by { assert " "[1..] == ""; }
      RunAppend(start, quoted + " ", rest);
      JoinReadsBack(words + [args[0]], args[1..]);
      assert words + [args[0]] + args[1..][..|args| - 2] == words + args[..|args| - 1];
    }
  }

  /** The round trip: for every argument vector the shell sees exactly the original arguments. */
  lemma ShellRoundTrip(args: seq<string>)
    ensures SplitWords(ShellJoin(args)) == Some(args)
  {
    if args != [] {
      JoinReadsBack([], args);
      assert [] + args[..|args| - 1] + [args[|args| - 1]] == args;
    }
  }

  /** So no two argument vectors share a command line. */
  lemma ShellJoinInjective(a: seq<string>, b: seq<string>)
    requires ShellJoin(a) == ShellJoin(b)
    ensures a == b
  {
    ShellRoundTrip(a);
    ShellRoundTrip(b);
  }
}
