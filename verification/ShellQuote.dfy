/**
  Quoting paths for a shell script (src/desktop_ipc/mod.rs).

  The reader is the token recognition of the POSIX shell restricted to what the script uses:
  blanks, the `;` operator, and the quoting rules of sections 2.2.1 and 2.2.2 of the Shell
  Command Language chapter of POSIX.1-2017. Anything else unquoted makes it give up.
*/
module ShellQuote {
  import opened Wrappers

  datatype Token = Word(text: string) | Semicolon

  const QUOTE: char := '\''
  const BACKSLASH: char := '\\'

  /** Characters the shell treats specially when they are not quoted. */
  predicate IsSpecial(c: char) {
    || c == '|' || c == '&' || c == ';' || c == '<' || c == '>' || c == '(' || c == ')' || c == '$'
    || c == '`' || c == '\\' || c == '\"' || c == '\'' || c == ' ' || c == '\t' || c == '\n'
    || c == '*' || c == '?' || c == '[' || c == '#' || c == '~' || c == '=' || c == '%'
    || c == '!' || c == '{' || c == '}' || c == '\0'
  }

  /** A word that needs no quoting. */
  predicate IsPlain(word: string) {
    word != "" && forall i :: 0 <= i < |word| ==> !IsSpecial(word[i])
  }

  function Flush(word: Option<string>): seq<Token> {
    if word.Some? then [Word(word.value)] else []
  }

  function Prepend(tokens: seq<Token>, rest: Option<seq<Token>>): Option<seq<Token>> {
    if rest.Some? then Some(tokens + rest.value) else None
  }

  /** Reads `s` with `word` begun, outside quotes or inside single quotes. */
  function Read(s: string, quoted: bool, word: Option<string>): Option<seq<Token>> {
    if quoted then
      if s == "" then None
      else if s[0] == QUOTE then Read(s[1..], false, word)
      else Read(s[1..], true, Some(word.GetOr("") + [s[0]]))
    else
      if s == "" then Some(Flush(word))
      else if s[0] == ' ' || s[0] == '\t' then Prepend(Flush(word), Read(s[1..], false, None))
      else if s[0] == ';' then
        if s[1..] != "" && s[1] == ';' then None
        else Prepend(Flush(word) + [Semicolon], Read(s[1..], false, None))
      else if s[0] == QUOTE then Read(s[1..], true, Some(word.GetOr("")))
      else if s[0] == BACKSLASH then
        if s[1..] == "" then None
        else if s[1] == '\n' then Read(s[2..], false, word)
        else Read(s[2..], false, Some(word.GetOr("") + [s[1]]))
      else if IsSpecial(s[0]) then None
      else Read(s[1..], false, Some(word.GetOr("") + [s[0]]))
  }

  function Tokens(s: string): Option<seq<Token>> {
    Read(s, false, None)
  }

  /** Every single quote becomes: close, escaped quote, reopen. */
  function Replace(value: string): string {
    if value == "" then ""
    else (if value[0] == QUOTE then "'\\''" else [value[0]]) + Replace(value[1..])
  }

  function ShellEscape(value: string): string {
    "'" + Replace(value) + "'"
  }

  lemma ReadQuotedChar(c: char, rest: string, word: string)
    requires c != QUOTE
    ensures Read([c] + rest, true, Some(word)) == Read(rest, true, Some(word + [c]))
  {
    assert ([c] + rest)[1..] == rest;
  }

  lemma ReadClosingQuote(tail: string, word: string)
    ensures Read("'" + tail, true, Some(word)) == Read(tail, false, Some(word))
  {
    assert ("'" + tail)[1..] == tail;
  }

  lemma {:induction false} ReadReplaced(value: string, tail: string, word: string)
    ensures Read(Replace(value) + ("'" + tail), true, Some(word)) == Read(tail, false, Some(word + value))
  {
    var close := "'" + tail;
    if value == "" {
      assert Replace(value) + close == close && word + value == word;
      ReadClosingQuote(tail, word);
    } else {
      var c, rest := value[0], Replace(value[1..]) + close;
      var head := if c == QUOTE then "'\\''" else [c];
      assert Replace(value) + close == head + rest;
      assert word + [c] + value[1..] == word + value;
      ReadReplaced(value[1..], tail, word + [c]);
      if c == QUOTE {
        ReadEscapedQuote(rest, word);
      } else {
        ReadQuotedChar(c, rest, word);
      }
    }
  }

  /** Closing, an escaped quote and reopening add one quote to the word. */
  lemma ReadEscapedQuote(rest: string, word: string)
    ensures Read("'\\''" + rest, true, Some(word)) == Read(rest, true, Some(word + "'"))
  {
    var s := "'\\''" + rest;
    assert s[1..] == "\\''" + rest;
    assert s[1..][2..] == "'" + rest;
    assert ("'" + rest)[1..] == rest;
    assert Read(s, true, Some(word)) == Read(s[1..], false, Some(word));
    assert Read(s[1..], false, Some(word)) == Read("'" + rest, false, Some(word + "'"));
  }

  /** Whatever the value, its quoted form reads as that value and nothing more. */
  lemma ReadEscaped(value: string, tail: string)
    ensures Read(ShellEscape(value) + tail, false, None) == Read(tail, false, Some(value))
  {
    var s := ShellEscape(value) + tail;
    assert s[1..] == Replace(value) + ("'" + tail);
    ReadReplaced(value, tail, "");
    assert "" + value == value;
  }

  lemma EscapedIsOneWord(value: string)
    ensures Tokens(ShellEscape(value)) == Some([Word(value)])
  {
    ReadEscaped(value, "");
    assert ShellEscape(value) + "" == ShellEscape(value);
  }

  lemma {:induction false} ReadPlain(text: string, tail: string, word: string)
    requires forall i :: 0 <= i < |text| ==> !IsSpecial(text[i])
    ensures Read(text + tail, false, Some(word)) == Read(tail, false, Some(word + text))
  {
    if text == "" {
      assert text + tail == tail && word + text == word;
    } else {
      assert (text + tail)[1..] == text[1..] + tail;
      assert word + [text[0]] + text[1..] == word + text;
      ReadPlain(text[1..], tail, word + [text[0]]);
    }
  }

  lemma ReadPlainWord(text: string, tail: string)
    requires IsPlain(text)
    ensures Read(text + tail, false, None) == Read(tail, false, Some(text))
  {
    assert (text + tail)[0] == text[0] && (text + tail)[1..] == text[1..] + tail;
    assert "" + [text[0]] == [text[0]] && [text[0]] + text[1..] == text;
    ReadPlain(text[1..], tail, [text[0]]);
  }

  /** The reader gives up on an open quote, on what it does not know, and on a doubled operator. */
  lemma ReaderGivesUp()
    ensures Tokens("'a") == None && Tokens("$a") == None && Tokens("a;;") == None
  {
    assert "'a"[1..] == "a" && "a"[1..] == "";
    assert Read("a", true, Some("")) == Read("", true, Some("" + "a"));
    assert "a;;"[1..] == ";;" && ";;"[1..] == ";";
    assert Read(";;", false, Some("" + "a")) == None;
  }

  // ---- the repair script ------------------------------------------------------------------

  /** Simple commands, each a list of words ended by a semicolon or by the end of the script. */
  function Split(tokens: seq<Token>, current: seq<string>): seq<seq<string>> {
    if tokens == [] then if current == [] then [] else [current]
    else match tokens[0]
      case Word(text) => Split(tokens[1..], current + [text])
      case Semicolon => [current] + Split(tokens[1..], [])
  }

  function Parse(script: string): Option<seq<seq<string>>> {
    var tokens := Tokens(script);
    if tokens.Some? then Some(Split(tokens.value, [])) else None
  }

  /** One command on a quoted path, as the script spells it. */
  function CommandText(verb: string, argument: string, path: string): string {
    " " + verb + " " + argument + " " + ShellEscape(path) + ";"
  }

  /** The tokens `found`, then those of `rest`. */
  ghost predicate Reads(s: string, found: seq<Token>, rest: string) {
    Read(s, false, None) == Prepend(found, Read(rest, false, None))
  }

  lemma PrependTwice(a: seq<Token>, b: seq<Token>, rest: Option<seq<Token>>)
    ensures Prepend(a, Prepend(b, rest)) == Prepend(a + b, rest)
  {
    if rest.Some? {
      assert a + (b + rest.value) == a + b + rest.value;
    }
  }

  lemma ReadBlank(next: string, found: seq<Token>, rest: string)
    requires Reads(next, found, rest)
    ensures Reads(" " + next, found, rest)
  {
    assert (" " + next)[1..] == next;
    PrependTwice([], found, Read(rest, false, None));
    assert [] + found == found;
  }

  lemma ReadWordAndBlank(word: string, next: string, found: seq<Token>, rest: string)
    requires IsPlain(word) && Reads(next, found, rest)
    ensures Reads(word + (" " + next), [Word(word)] + found, rest)
  {
    ReadPlainWord(word, " " + next);
    assert (" " + next)[1..] == next;
    PrependTwice([Word(word)], found, Read(rest, false, None));
  }

  lemma ReadSemicolon(rest: string, word: string)
    requires rest == "" || rest[0] != ';'
    ensures Read(";" + rest, false, Some(word)) == Prepend([Word(word), Semicolon], Read(rest, false, None))
  {
    assert (";" + rest)[1..] == rest;
    assert Flush(Some(word)) + [Semicolon] == [Word(word), Semicolon];
  }

  lemma ReadPathAndSemicolon(path: string, rest: string)
    requires rest == "" || rest[0] != ';'
    ensures Reads(ShellEscape(path) + (";" + rest), [Word(path), Semicolon], rest)
  {
    ReadEscaped(path, ";" + rest);
    ReadSemicolon(rest, path);
  }

  lemma ReadCommand(verb: string, argument: string, path: string, rest: string)
    requires IsPlain(verb) && IsPlain(argument)
    requires rest == "" || rest[0] != ';'
    ensures Reads(CommandText(verb, argument, path) + rest,
                  [Word(verb)] + ([Word(argument)] + [Word(path), Semicolon]), rest)
  {
    var third := ShellEscape(path) + (";" + rest);
    ReadPathAndSemicolon(path, rest);
    ReadWordAndBlank(argument, third, [Word(path), Semicolon], rest);
    var second := argument + (" " + third);
    ReadWordAndBlank(verb, second, [Word(argument)] + [Word(path), Semicolon], rest);
    ReadBlank(verb + (" " + second), [Word(verb)] + ([Word(argument)] + [Word(path), Semicolon]), rest);
    Regroup(verb, argument, ShellEscape(path), rest);
  }

  lemma Regroup(verb: string, argument: string, quotedPath: string, rest: string)
    ensures " " + verb + " " + argument + " " + quotedPath + ";" + rest ==
            " " + (verb + (" " + (argument + (" " + (quotedPath + (";" + rest))))))
  {
  }

  lemma SplitCommand(verb: string, argument: string, path: string, rest: seq<Token>)
    ensures Split([Word(verb)] + ([Word(argument)] + [Word(path), Semicolon]) + rest, []) ==
            [[verb, argument, path]] + Split(rest, [])
  {
    var last := [Semicolon] + rest;
    var third := [Word(path)] + last;
    var second := [Word(argument)] + third;
    assert [Word(verb)] + ([Word(argument)] + [Word(path), Semicolon]) + rest == [Word(verb)] + second;
    SplitWord(verb, second, []);
    assert [] + [verb] == [verb];
    SplitWord(argument, third, [verb]);
    assert [verb] + [argument] == [verb, argument];
    SplitWord(path, last, [verb, argument]);
    assert [verb, argument] + [path] == [verb, argument, path];
    assert last[1..] == rest;
  }

  lemma SplitWord(text: string, rest: seq<Token>, current: seq<string>)
    ensures Split([Word(text)] + rest, current) == Split(rest, current + [text])
  {
    assert ([Word(text)] + rest)[1..] == rest;
  }

  /** A command in front of a script that parses adds exactly that command. */
  lemma ParseCommand(verb: string, argument: string, path: string, rest: string)
    requires IsPlain(verb) && IsPlain(argument)
    requires rest == "" || rest[0] != ';'
    requires Parse(rest).Some?
    ensures Parse(CommandText(verb, argument, path) + rest) ==
            Some([[verb, argument, path]] + Parse(rest).value)
  {
    ReadCommand(verb, argument, path, rest);
    SplitCommand(verb, argument, path, Tokens(rest).value);
  }

  /** What stat says about a path: its group, nothing although something is there, or nothing there. */
  datatype Probe = OwnedBy(gid: nat) | Unreadable | Missing {
    predicate Present() {
      !Missing?
    }
  }

  /** The commands meant for one path: give it to the group, then set its mode. */
  function Intended(probe: Probe, group: string, mode: string, path: string): seq<seq<string>> {
    if probe.Present() then [["chgrp", group, path], ["chmod", mode, path]] else []
  }

  function PathText(probe: Probe, group: string, mode: string, path: string): string {
    if probe.Present() then CommandText("chgrp", group, path) + CommandText("chmod", mode, path) else ""
  }

  /** The texts in front of `rest` begin with a blank, if there are any. */
  lemma StartsWithBlank(probe: Probe, group: string, mode: string, path: string, rest: string)
    requires rest == "" || rest[0] != ';'
    ensures var s := PathText(probe, group, mode, path) + rest; s == "" || s[0] != ';'
  {
  }

  lemma Associate(a: string, b: string, c: string)
    ensures a + b + c == a + (b + c)
  {
  }

  lemma ParsePath(probe: Probe, group: string, mode: string, path: string, rest: string)
    requires IsPlain(group) && IsPlain(mode)
    requires rest == "" || rest[0] != ';'
    requires Parse(rest).Some?
    ensures Parse(PathText(probe, group, mode, path) + rest) ==
            Some(Intended(probe, group, mode, path) + Parse(rest).value)
  {
    if probe.Present() {
      ParseTwo(group, mode, path, rest);
    } else {
      assert PathText(probe, group, mode, path) + rest == rest;
      assert Intended(probe, group, mode, path) + Parse(rest).value == Parse(rest).value;
    }
  }

  lemma ParseTwo(group: string, mode: string, path: string, rest: string)
    requires IsPlain(group) && IsPlain(mode)
    requires rest == "" || rest[0] != ';'
    requires Parse(rest).Some?
    ensures Parse(CommandText("chgrp", group, path) + CommandText("chmod", mode, path) + rest) ==
            Some([["chgrp", group, path], ["chmod", mode, path]] + Parse(rest).value)
  {
    var chgrp, chmod := CommandText("chgrp", group, path), CommandText("chmod", mode, path);
    ParseCommand("chmod", mode, path, rest);
    ParseCommand("chgrp", group, path, chmod + rest);
    Associate(chgrp, chmod, rest);
    assert [["chgrp", group, path]] + ([["chmod", mode, path]] + Parse(rest).value) ==
           [["chgrp", group, path], ["chmod", mode, path]] + Parse(rest).value;
  }

  lemma ParseSetE(rest: string)
    requires rest == "" || rest[0] != ';'
    requires Parse(rest).Some?
    ensures Parse("set -e;" + rest) == Some([["set", "-e"]] + Parse(rest).value)
  {
    ReadSetE(rest);
    var tokens := Tokens(rest).value;
    var last := [Semicolon] + tokens;
    assert [Word("set")] + [Word("-e"), Semicolon] + tokens == [Word("set")] + ([Word("-e")] + last);
    SplitWord("set", [Word("-e")] + last, []);
    assert [] + ["set"] == ["set"];
    SplitWord("-e", last, ["set"]);
    assert ["set"] + ["-e"] == ["set", "-e"];
    assert last[1..] == tokens;
  }

  lemma ReadSetE(rest: string)
    requires rest == "" || rest[0] != ';'
    ensures Reads("set -e;" + rest, [Word("set")] + [Word("-e"), Semicolon], rest)
  {
    ReadTwoWords("set", "-e", rest);
    assert "set -e;" + rest == "set" + (" " + ("-e" + (";" + rest)));
  }

  lemma ReadTwoWords(first: string, second: string, rest: string)
    requires IsPlain(first) && IsPlain(second)
    requires rest == "" || rest[0] != ';'
    ensures Reads(first + (" " + (second + (";" + rest))), [Word(first)] + [Word(second), Semicolon], rest)
  {
    ReadSemicolon(rest, second);
    ReadPlainWord(second, ";" + rest);
    ReadWordAndBlank(first, second + (";" + rest), [Word(second), Semicolon], rest);
  }

  /** A path that belongs to another group, or is present but does not say. */
  predicate Wrong(probe: Probe, gid: nat) {
    probe.Unreadable? || (probe.OwnedBy? && probe.gid != gid)
  }

  /** Looks at the paths in turn until one is wrong. */
  method NeedsFix(probes: seq<Probe>, gid: nat) returns (needsFix: bool)
    ensures needsFix <==>
              exists probe :: probe in probes && (probe.Unreadable? || (probe.OwnedBy? && probe.gid != gid))
  {
    needsFix := false;
    for i := 0 to |probes|
      invariant !needsFix && forall j :: 0 <= j < i ==> !Wrong(probes[j], gid)
    {
      if Wrong(probes[i], gid) {
        needsFix := true;
        break;
      }
    }
  }

  /** Stop at the first failure; then the group and the mode of each path that is there. */
  function Commands(socket: string, token: string, withSocket: bool, withToken: bool, group: string)
    : (commands: seq<seq<string>>)
    ensures |commands| == 1 + (if withSocket then 2 else 0) + (if withToken then 2 else 0)
    ensures commands[0] == ["set", "-e"]
    ensures withSocket ==> commands[1..3] == [["chgrp", group, socket], ["chmod", "0660", socket]]
    ensures withToken ==> commands[|commands| - 2..] == [["chgrp", group, token], ["chmod", "0640", token]]
  {
    [["set", "-e"]]
    + (if withSocket then [["chgrp", group, socket], ["chmod", "0660", socket]] else [])
    + (if withToken then [["chgrp", group, token], ["chmod", "0640", token]] else [])
  }

  method BuildScript(socket: string, token: string, socketProbe: Probe, tokenProbe: Probe, group: string)
    returns (shell: string)
    requires IsPlain(group)
    ensures Parse(shell) == Some(Commands(socket, token, !socketProbe.Missing?, !tokenProbe.Missing?, group))
  {
    shell := "set -e;";
    if socketProbe.Present() {
      shell := shell + (CommandText("chgrp", group, socket) + CommandText("chmod", "0660", socket));
    }
    if tokenProbe.Present() {
      shell := shell + (CommandText("chgrp", group, token) + CommandText("chmod", "0640", token));
    }
    ScriptParses(socket, token, socketProbe, tokenProbe, group, shell);
  }

  /**
    The script handed to `sh -c`, if one is needed: it parses, whatever characters the two
    paths contain, to exactly the intended commands on the paths that are present.
  */
  method RepairScript(socket: string, token: string, socketProbe: Probe, tokenProbe: Probe,
                      groupGid: Option<nat>, group: string)
    returns (script: Option<string>)
    requires IsPlain(group)
    ensures script.Some? <==>
              && groupGid.Some?
              && (|| socketProbe.Unreadable? || tokenProbe.Unreadable?
                  || (socketProbe.OwnedBy? && socketProbe.gid != groupGid.value)
                  || (tokenProbe.OwnedBy? && tokenProbe.gid != groupGid.value))
    ensures script.Some? ==>
              Parse(script.value) == Some(Commands(socket, token, !socketProbe.Missing?, !tokenProbe.Missing?, group))
  {
    if (socketProbe.Missing? && tokenProbe.Missing?) || groupGid.None? {
      return None;
    }
    var needsFix := NeedsFix([socketProbe, tokenProbe], groupGid.value);
    if !needsFix {
      assert socketProbe in [socketProbe, tokenProbe] && tokenProbe in [socketProbe, tokenProbe];
      return None;
    }
    var shell := BuildScript(socket, token, socketProbe, tokenProbe, group);
    return Some(shell);
  }

  lemma ScriptParses(socket: string, token: string, socketProbe: Probe, tokenProbe: Probe, group: string, shell: string)
    requires IsPlain(group)
    requires shell ==
             "set -e;" + PathText(socketProbe, group, "0660", socket) + PathText(tokenProbe, group, "0640", token)
    ensures Parse(shell) == Some([["set", "-e"]] + Intended(socketProbe, group, "0660", socket)
                                 + Intended(tokenProbe, group, "0640", token))
  {
    var first := PathText(socketProbe, group, "0660", socket);
    var second := PathText(tokenProbe, group, "0640", token);
    ParsePath(tokenProbe, group, "0640", token, "");
    StartsWithBlank(tokenProbe, group, "0640", token, "");
    assert second + "" == second;
    ParsePath(socketProbe, group, "0660", socket, second);
    StartsWithBlank(socketProbe, group, "0660", socket, second);
    ParseSetE(first + second);
    Associate("set -e;", first, second);
    var c1, c2 := Intended(socketProbe, group, "0660", socket), Intended(tokenProbe, group, "0640", token);
    assert Parse("") == Some([]) && c2 + [] == c2;
    assert [["set", "-e"]] + (c1 + c2) == [["set", "-e"]] + c1 + c2;
  }
}
