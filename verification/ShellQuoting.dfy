/**
 Shell quoting: `build_commit_command` of `crates/forge_app/src/git_app.rs` puts a message
 between single quotes, `parse_shell_command` of `crates/forge_app/src/tool_executor.rs` splits
 a command line into words. Within single quotes every character stands for itself (section
 2.2.2 of the POSIX.1-2017 Shell Command Language); the splitter follows that.
 */
module ShellQuoting {

  // ----- the splitter -----

  datatype Scan = Scan(out: seq<string>, cur: string, inSingle: bool, inDouble: bool, escape: bool)

  const START := Scan([], "", false, false, false)

  function Flush(s: Scan): Scan {
    if s.cur == "" then s else s.(out := s.out + [s.cur], cur := "")
  }

  function Feed(s: Scan, c: char): Scan {
    if s.escape then s.(cur := s.cur + [c], escape := false)
    else if c == '\\' && s.inSingle then s.(cur := s.cur + [c])
    else if c == '\\' then s.(escape := true)
    else if c == '\'' && !s.inDouble then s.(inSingle := !s.inSingle)
    else if c == '\"' && !s.inSingle then s.(inDouble := !s.inDouble)
    else if (c == ' ' || c == '\t') && !s.inSingle && !s.inDouble then Flush(s)
    else s.(cur := s.cur + [c])
  }

  function FeedAll(s: Scan, input: string): Scan
    decreases |input|
  {
    if input == "" then s else FeedAll(Feed(s, input[0]), input[1..])
  }

  function Words(input: string): seq<string> {
    Flush(FeedAll(START, input)).out
  }

  // The first word and the others; an empty line has an empty program.
  function Parse(input: string): (string, seq<string>) {
    var words := Words(input);
    if words == [] then ("", []) else (words[0], words[1..])
  }

  method ParseShellCommand(input: string) returns (program: string, args: seq<string>)
    ensures (program, args) == Parse(input)
  {
    var out: seq<string>, cur: string := [], "";
    var inSingle, inDouble, escape := false, false, false;
    assert input[0..] == input;
    for i := 0 to |input|
      invariant FeedAll(Scan(out, cur, inSingle, inDouble, escape), input[i..]) == FeedAll(START, input)
    {
      var c := input[i];
      assert input[i..][0] == c && input[i..][1..] == input[i + 1..];
      if escape {
        cur := cur + [c];
        escape := false;
      } else if c == '\\' && inSingle {
        cur := cur + [c];
      } else if c == '\\' {
        escape := true;
      } else if c == '\'' && !inDouble {
        inSingle := !inSingle;
      } else if c == '\"' && !inSingle {
        inDouble := !inDouble;
      } else if (c == ' ' || c == '\t') && !inSingle && !inDouble {
        if cur != "" {
          out := out + [cur];
          cur := "";
        }
      } else {
        cur := cur + [c];
      }
    }
    if cur != "" {
      out := out + [cur];
    }
    if out == [] {
      return "", [];
    }
    return out[0], out[1..];
  }

  // ----- the printer -----

  // Each single quote closes the quotation, is escaped, and opens it again.
  function Escape(message: string): string {
    if message == "" then ""
    else (if message[0] == '\'' then "'\\''" else [message[0]]) + Escape(message[1..])
  }

  function Quote(message: string): string {
    "'" + Escape(message) + "'"
  }

  // A quoted environment assignment in front of the command.
  function Assignment(name: string, value: string): string {
    name + "=" + Quote(value) + " "
  }

  const NAME_VARIABLE := "GIT_COMMITTER_NAME"
  const EMAIL_VARIABLE := "GIT_COMMITTER_EMAIL"
  const COMMITTER_NAME := "HeliosLite"
  const COMMITTER_EMAIL := "noreply@helioslite.dev"

  // `git commit {flags} -m '{message}'`, with one blank on either side of the flags.
  function BuildCommitCommand(message: string, flags: string, useForgeCommitter: bool): string {
    var command := "git" + " " + ("commit" + " " + (flags + " " + ("-m" + " " + Quote(message))));
    if useForgeCommitter
    then Assignment(NAME_VARIABLE, COMMITTER_NAME) + Assignment(EMAIL_VARIABLE, COMMITTER_EMAIL) + command
    else command
  }

  // ----- reading text back -----

  predicate IsPlain(c: char) {
    c != '\\' && c != '\'' && c != '\"' && c != ' ' && c != '\t'
  }

  predicate Plain(word: string) {
    forall i :: 0 <= i < |word| ==> IsPlain(word[i])
  }

  predicate Unquoted(s: Scan) {
    !s.inSingle && !s.inDouble && !s.escape
  }

  lemma {:induction false} FeedConcat(s: Scan, a: string, b: string)
    ensures FeedAll(s, a + b) == FeedAll(FeedAll(s, a), b)
    decreases |a|
  {
    if a == "" {
      assert a + b == b;
    } else {
      FeedConcat(Feed(s, a[0]), a[1..], b);
      assert (a + b)[1..] == a[1..] + b;
    }
  }

  lemma FeedOne(s: Scan, c: char)
    ensures FeedAll(s, [c]) == Feed(s, c)
  {
    assert [c][1..] == "";
  }

  lemma {:induction false} PlainWord(s: Scan, word: string)
    requires Unquoted(s) && Plain(word)
    ensures FeedAll(s, word) == s.(cur := s.cur + word)
    decreases |word|
  {
    if word == "" {
      assert s.cur + word == s.cur;
    } else {
      PlainWord(Feed(s, word[0]), word[1..]);
      assert s.cur + word == s.cur + [word[0]] + word[1..];
    }
  }

  // Inside the quotes the escaped text comes back character by character.
  lemma {:induction false} EscapedText(s: Scan, text: string)
    requires s.inSingle && !s.inDouble && !s.escape
    ensures FeedAll(s, Escape(text)) == s.(cur := s.cur + text)
    decreases |text|
  {
    if text == "" {
      assert s.cur + text == s.cur;
    } else {
      var c, after := text[0], s.(cur := s.cur + [text[0]]);
      if c == '\'' {
        RewithinQuote(s);
        FeedConcat(s, "'\\''", Escape(text[1..]));
      } else {
        FeedOne(s, c);
        FeedConcat(s, [c], Escape(text[1..]));
      }
      EscapedText(after, text[1..]);
      assert s.cur + text == s.cur + [c] + text[1..];
    }
  }

  lemma RewithinQuote(s: Scan)
    requires s.inSingle && !s.inDouble && !s.escape
    ensures FeedAll(s, "'\\''") == s.(cur := s.cur + ['\''])
  {
    FeedConcat(s, "'", "\\''");
    FeedOne(s, '\'');
    var closed := Feed(s, '\'');
    FeedConcat(closed, "\\", "''");
    FeedOne(closed, '\\');
    var escaped := Feed(closed, '\\');
    FeedConcat(escaped, "'", "'");
    FeedOne(escaped, '\'');
    FeedOne(Feed(escaped, '\''), '\'');
    assert "'" + "\\''" == "'\\''" && "\\" + "''" == "\\''" && "'" + "'" == "''";
  }

  lemma QuotedText(s: Scan, text: string)
    requires Unquoted(s)
    ensures FeedAll(s, Quote(text)) == s.(cur := s.cur + text)
  {
    var within := s.(inSingle := true);
    FeedConcat(s, "'" + Escape(text), "'");
    FeedConcat(s, "'", Escape(text));
    FeedOne(s, '\'');
    EscapedText(within, text);
    FeedOne(within.(cur := s.cur + text), '\'');
  }

  // ----- double quotes, escapes and blanks -----

  predicate PlainInDouble(text: string) {
    forall i :: 0 <= i < |text| ==> text[i] != '\\' && text[i] != '\"'
  }

  lemma {:induction false} WithinDouble(s: Scan, text: string)
    requires s.inDouble && !s.inSingle && !s.escape && PlainInDouble(text)
    ensures FeedAll(s, text) == s.(cur := s.cur + text)
    decreases |text|
  {
    if text == "" {
      assert s.cur + text == s.cur;
    } else {
      WithinDouble(Feed(s, text[0]), text[1..]);
      assert s.cur + text == s.cur + [text[0]] + text[1..];
    }
  }

  /** A text between double quotes joins the current word, blanks and single quotes included. */
  lemma DoubleQuotedText(s: Scan, text: string)
    requires Unquoted(s) && PlainInDouble(text)
    ensures FeedAll(s, "\"" + text + "\"") == s.(cur := s.cur + text)
  {
    FeedConcat(s, "\"" + text, "\"");
    FeedConcat(s, "\"", text);
    FeedOne(s, '\"');
    WithinDouble(s.(inDouble := true), text);
    FeedOne(s.(inDouble := true, cur := s.cur + text), '\"');
  }

  /** Outside single quotes, between double quotes or not, a backslash takes the next character
      into the word whatever it is. */
  lemma EscapedCharacter(s: Scan, c: char)
    requires !s.inSingle && !s.escape
    ensures FeedAll(s, ['\\', c]) == s.(cur := s.cur + [c])
  {
    assert ['\\', c] == ['\\'] + [c];
    FeedConcat(s, ['\\'], [c]);
    FeedOne(s, '\\');
    FeedOne(s.(escape := true), c);
  }

  /** Outside quotes a blank or a tab ends the current word if there is one, and no other
      character does. */
  lemma BlanksEndWords(s: Scan, c: char)
    requires Unquoted(s)
    ensures c == ' ' || c == '\t' ==>
              FeedAll(s, [c]) == if s.cur == "" then s else s.(out := s.out + [s.cur], cur := "")
    ensures c != ' ' && c != '\t' ==> FeedAll(s, [c]).out == s.out
  {
    FeedOne(s, c);
  }

  // A double-quoted message is one argument, as a single-quoted one is.
  lemma DoubleQuotedMessage(message: string)
    requires PlainInDouble(message) && message != ""
    ensures Parse("git " + "-m " + ("\"" + message + "\"")) == ("git", ["-m", message])
  {
    var quoted := "\"" + message + "\"";
    assert "git " + "-m " + quoted == "git" + " " + ("-m" + " " + quoted);
    WordIsRead(START, "git", "-m" + " " + quoted);
    WordIsRead(START.(out := [] + ["git"]), "-m", quoted);
    DoubleQuotedText(START.(out := [] + ["git"] + ["-m"]), message);
    assert "" + message == message;
    assert [] + ["git"] + ["-m"] + [message] == ["git"] + ["-m", message];
  }

  // ----- any argument list -----

  function QuotedLine(words: seq<string>): string {
    if words == [] then "" else Quote(words[0]) + (" " + QuotedLine(words[1..]))
  }

  function NonEmpty(words: seq<string>): seq<string> {
    if words == [] then [] else (if words[0] == "" then [] else [words[0]]) + NonEmpty(words[1..])
  }

  // A quoted word and the blank behind it.
  lemma QuotedWordIsRead(s: Scan, word: string, rest: string)
    requires Unquoted(s) && s.cur == ""
    ensures FeedAll(s, Quote(word) + (" " + rest)) ==
            FeedAll(if word == "" then s else s.(out := s.out + [word]), rest)
  {
    FeedConcat(s, Quote(word), " " + rest);
    QuotedText(s, word);
    assert s.cur + word == word;
    FeedConcat(s.(cur := word), " ", rest);
    FeedOne(s.(cur := word), ' ');
  }

  lemma {:induction false} QuotedLineIsRead(s: Scan, words: seq<string>)
    requires Unquoted(s) && s.cur == ""
    ensures FeedAll(s, QuotedLine(words)) == s.(out := s.out + NonEmpty(words))
    decreases |words|
  {
    if words == [] {
      assert s.out + NonEmpty(words) == s.out;
    } else {
      QuotedWordIsRead(s, words[0], QuotedLine(words[1..]));
      if words[0] == "" {
        QuotedLineIsRead(s, words[1..]);
        assert NonEmpty(words) == [] + NonEmpty(words[1..]) == NonEmpty(words[1..]);
      } else {
        QuotedLineIsRead(s.(out := s.out + [words[0]]), words[1..]);
        assert s.out + [words[0]] + NonEmpty(words[1..]) == s.out + ([words[0]] + NonEmpty(words[1..]));
      }
    }
  }

  /** Quoting is safe for every list of arguments: splitting the quoted arguments gives back the
      arguments themselves, except that empty ones are lost. */
  lemma AnyArgumentsRoundTrip(words: seq<string>)
    ensures Words(QuotedLine(words)) == NonEmpty(words)
    ensures Words(QuotedLine(words)) == words <==> forall i :: 0 <= i < |words| ==> words[i] != ""
  {
    QuotedLineIsRead(START, words);
    assert [] + NonEmpty(words) == NonEmpty(words);
    NonEmptyIff(words);
  }

  lemma {:induction false} NonEmptyIff(words: seq<string>)
    ensures |NonEmpty(words)| <= |words|
    ensures NonEmpty(words) == words <==> forall i :: 0 <= i < |words| ==> words[i] != ""
  {
    if words != [] {
      NonEmptyIff(words[1..]);
      if words[0] != "" {
        assert NonEmpty(words) == [words[0]] + NonEmpty(words[1..]);
        assert words == [words[0]] + words[1..];
        assert NonEmpty(words) == words ==> NonEmpty(words)[1..] == words[1..];
      }
    }
  }

  // ----- the commit command -----

  // A plain word and the blank behind it.
  lemma WordIsRead(s: Scan, word: string, rest: string)
    requires Unquoted(s) && s.cur == "" && Plain(word) && word != ""
    ensures FeedAll(s, word + " " + rest) == FeedAll(s.(out := s.out + [word]), rest)
  {
    FeedConcat(s, word + " ", rest);
    FeedConcat(s, word, " ");
    PlainWord(s, word);
    assert s.cur + word == word;
    FeedOne(s.(cur := word), ' ');
  }

  // A quoted word at the end of the line.
  lemma LastWord(s: Scan, text: string)
    requires Unquoted(s) && s.cur == ""
    ensures Flush(FeedAll(s, Quote(text))).out == if text == "" then s.out else s.out + [text]
  {
    QuotedText(s, text);
    assert s.cur + text == text;
  }

  // A second blank between two words changes nothing.
  lemma ExtraBlank(s: Scan, rest: string)
    requires Unquoted(s) && s.cur == ""
    ensures FeedAll(s, " " + rest) == FeedAll(s, rest)
  {
    FeedConcat(s, " ", rest);
    FeedOne(s, ' ');
  }

  function Flags(all: bool): string {
    if all then " " + "-a" else ""
  }

  // The words before the message: two of them, a second blank, and the rest.
  function TailWords(all: bool): seq<string> {
    if all then ["-a", "-m"] else ["-m"]
  }

  // The flags and the blanks around them; the first blank ends no word.
  lemma FlagsAreRead(s: Scan, all: bool, rest: string)
    requires Unquoted(s) && s.cur == ""
    ensures FeedAll(s, Flags(all) + " " + rest) == FeedAll(s.(out := s.out + if all then ["-a"] else []), rest)
  {
    if all {
      assert Flags(all) + " " + rest == " " + ("-a" + " " + rest);
      ExtraBlank(s, "-a" + " " + rest);
      WordIsRead(s, "-a", rest);
    } else {
      assert Flags(all) + " " + rest == " " + rest;
      assert s.out + [] == s.out;
      ExtraBlank(s, rest);
    }
  }

  lemma HeadIsRead(s: Scan, tail: string)
    requires Unquoted(s) && s.cur == ""
    ensures FeedAll(s, "git" + " " + ("commit" + " " + tail)) == FeedAll(s.(out := s.out + ["git"] + ["commit"]), tail)
  {
    WordIsRead(s, "git", "commit" + " " + tail);
    WordIsRead(s.(out := s.out + ["git"]), "commit", tail);
  }

  lemma TailIsRead(s: Scan, message: string, all: bool)
    requires Unquoted(s) && s.cur == ""
    ensures FeedAll(s, Flags(all) + " " + ("-m" + " " + Quote(message)))
            == FeedAll(s.(out := s.out + TailWords(all)), Quote(message))
  {
    var u := s.(out := s.out + if all then ["-a"] else []);
    FlagsAreRead(s, all, "-m" + " " + Quote(message));
    WordIsRead(u, "-m", Quote(message));
    assert u.out + ["-m"] == s.out + TailWords(all);
  }

  lemma CommitShape(message: string, flags: string)
    ensures BuildCommitCommand(message, flags, false) ==
            "git" + " " + ("commit" + " " + (flags + " " + ("-m" + " " + Quote(message))))
  {
  }

  lemma CommitIsRead(s: Scan, message: string, all: bool)
    requires Unquoted(s) && s.cur == ""
    ensures FeedAll(s, BuildCommitCommand(message, Flags(all), false))
            == FeedAll(s.(out := s.out + ["git"] + ["commit"] + TailWords(all)), Quote(message))
  {
    CommitShape(message, Flags(all));
    HeadIsRead(s, Flags(all) + " " + ("-m" + " " + Quote(message)));
    TailIsRead(s.(out := s.out + ["git"] + ["commit"]), message, all);
  }

  function CommitArgs(message: string, all: bool): seq<string> {
    ["commit"] + TailWords(all) + [message]
  }

  /** The round trip, for the flags the code uses: splitting the command gives program `git` and
      exactly the message as one argument, whatever characters it holds, if and only if the
      message is not empty (an empty one is dropped). */
  lemma CommitRoundTripIff(message: string, all: bool)
    ensures Parse(BuildCommitCommand(message, Flags(all), false)) == ("git", CommitArgs(message, all)) <==> message != ""
    ensures message == "" ==>
              Parse(BuildCommitCommand(message, Flags(all), false)) == ("git", ["commit"] + TailWords(all))
  {
    CommitIsRead(START, message, all);
    var s := START.(out := [] + ["git"] + ["commit"] + TailWords(all));
    LastWord(s, message);
    assert s.out == ["git"] + (["commit"] + TailWords(all));
    assert s.out + [message] == ["git"] + CommitArgs(message, all);
  }

  /** With the committer override the command is for a shell only: whatever follows, splitting
      takes the first assignment for the program. */
  lemma AssignmentIsTakenForProgram(name: string, value: string, more: string, command: string)
    requires Plain(name)
    ensures Parse(Assignment(name, value) + more + command).0 == name + "=" + value
  {
    var key := name + "=";
    var rest := more + command;
    assert Assignment(name, value) + more + command == key + (Quote(value) + (" " + rest));
    FeedConcat(START, key, Quote(value) + (" " + rest));
    PlainWord(START, key);
    assert "" + key == key;
    var s := START.(cur := key);
    FeedConcat(s, Quote(value), " " + rest);
    QuotedText(s, value);
    var t := s.(cur := key + value);
    FeedConcat(t, " ", rest);
    FeedOne(t, ' ');
    FirstWordStays(Flush(t), rest);
  }

  lemma AssignmentIsRead(s: Scan, name: string, value: string, rest: string)
    requires Unquoted(s) && s.cur == "" && Plain(name)
    ensures FeedAll(s, Assignment(name, value) + rest) == FeedAll(s.(out := s.out + [name + "=" + value]), rest)
  {
    var key := name + "=";
    assert Assignment(name, value) + rest == key + (Quote(value) + (" " + rest));
    FeedConcat(s, key, Quote(value) + (" " + rest));
    PlainWord(s, key);
    assert s.cur + key == key;
    var t := s.(cur := key);
    FeedConcat(t, Quote(value), " " + rest);
    QuotedText(t, value);
    FeedConcat(t.(cur := key + value), " ", rest);
    FeedOne(t.(cur := key + value), ' ');
  }

  lemma CommitWords(s: Scan, message: string, all: bool)
    requires Unquoted(s) && s.cur == "" && message != ""
    ensures Flush(FeedAll(s, BuildCommitCommand(message, Flags(all), false))).out
            == s.out + (["git"] + CommitArgs(message, all))
  {
    CommitIsRead(s, message, all);
    var u := s.(out := s.out + ["git"] + ["commit"] + TailWords(all));
    LastWord(u, message);
    assert u.out + [message] == s.out + (["git"] + CommitArgs(message, all));
  }

  lemma AssignmentsAreRead(n: string, v: string, e: string, w: string, message: string, all: bool)
    requires Plain(n) && Plain(e) && message != ""
    ensures Words(Assignment(n, v) + (Assignment(e, w) + BuildCommitCommand(message, Flags(all), false))) ==
            [n + "=" + v] + [e + "=" + w] + (["git"] + CommitArgs(message, all))
  {
    var command := BuildCommitCommand(message, Flags(all), false);
    AssignmentIsRead(START, n, v, Assignment(e, w) + command);
    assert [] + [n + "=" + v] == [n + "=" + v];
    var s := START.(out := [n + "=" + v]);
    AssignmentIsRead(s, e, w, command);
    CommitWords(s.(out := s.out + [e + "=" + w]), message, all);
  }

  /** The command with the committer override, read as words: the two assignments, and then the
      very words of the command without it. */
  lemma CommitterOverrideWords(message: string, all: bool)
    requires message != ""
    ensures Words(BuildCommitCommand(message, Flags(all), true)) ==
            [NAME_VARIABLE + "=" + COMMITTER_NAME] + [EMAIL_VARIABLE + "=" + COMMITTER_EMAIL]
            + (["git"] + CommitArgs(message, all))
  {
    OverrideShape(message, Flags(all));
    VariablesArePlain();
    AssignmentsAreRead(NAME_VARIABLE, COMMITTER_NAME, EMAIL_VARIABLE, COMMITTER_EMAIL, message, all);
  }

  lemma VariablesArePlain()
    ensures Plain(NAME_VARIABLE) && Plain(EMAIL_VARIABLE)
  {
  }

  lemma OverrideShape(message: string, flags: string)
    ensures BuildCommitCommand(message, flags, true) ==
            Assignment(NAME_VARIABLE, COMMITTER_NAME)
            + (Assignment(EMAIL_VARIABLE, COMMITTER_EMAIL) + BuildCommitCommand(message, flags, false))
  {
  }

  // Words once split off are never touched again.
  lemma {:induction false} FirstWordStays(s: Scan, input: string)
    requires s.out != []
    ensures s.out <= FeedAll(s, input).out
    decreases |input|
  {
    if input != "" {
      FirstWordStays(Feed(s, input[0]), input[1..]);
    }
  }
}
