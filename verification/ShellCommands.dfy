/** `split_commands` of scripts/report/scripts_gate_text.py: the words of the commands of one line. */
module ShellCommands {
  import opened Chars
  import opened ShellText

  /** The commands so far (the last one still open), the word being read and the open quote. */
  datatype Split = Split(commands: seq<seq<string>>, word: Option<string>, quote: Quote)

  const NOTHING_READ := Split([[]], None, Bare)

  function Append(s: Split, more: string): Split {
    s.(word := Some((if s.word.Some? then s.word.value else "") + more))
  }

  function Flush(s: Split): Split {
    if s.word.None? || s.commands == [] then s
    else
      var last := |s.commands| - 1;
      s.(commands := s.commands[last := s.commands[last] + [s.word.value]], word := None)
  }

  function Cut(s: Split): Split {
    var f := Flush(s);
    if f.commands != [] && f.commands[|f.commands| - 1] != [] then f.(commands := f.commands + [[]]) else f
  }

  /** Where the turn at `i` goes on. */
  function Next(line: string, i: nat, s: Split): (r: nat)
    requires i < |line|
    ensures i < r <= |line|
  {
    var c := line[i];
    if c == '\\' && s.quote != Single && i + 1 < |line| then i + 2
    else if s.quote == Bare && c == '$' && At(line, i + 1, '{') then
      var end := Find(line, '}', i);
      if end == |line| then |line| else end + 1
    else i + 1
  }

  function Turn(line: string, i: nat, s: Split): Split
    requires i < |line|
  {
    var c := line[i];
    if s.quote != Bare then
      if c == Mark(s.quote) then s.(quote := Bare)
      else if c == '\\' && s.quote == Double && i + 1 < |line| then Append(s, [line[i + 1]])
      else Append(s, [c])
    else if c == '\'' || c == '"' then Append(s, "").(quote := if c == '"' then Double else Single)
    else if c == '\\' && i + 1 < |line| then Append(s, [line[i + 1]])
    else if IsSpace(c) then Flush(s)
    else if c == '$' && At(line, i + 1, '{') then Append(s, line[i..Next(line, i, s)])
    else if c in ";&|()`" then Cut(s)
    else Append(s, [c])
  }

  function Rest(line: string, i: nat, s: Split): Split
    requires i <= |line|
    decreases |line| - i
  {
    if i == |line| then Flush(s) else Rest(line, Next(line, i, s), Turn(line, i, s))
  }

  /** A command without its `--` words, cut at each of them; no piece is empty. */
  function AtDashes(command: seq<string>, current: seq<string>): seq<seq<string>> {
    var kept := if current == [] then [] else [current];
    if command == [] then kept
    else if command[0] == "--" then kept + AtDashes(command[1..], [])
    else AtDashes(command[1..], current + [command[0]])
  }

  function AllAtDashes(commands: seq<seq<string>>): seq<seq<string>> {
    if commands == [] then [] else AtDashes(commands[0], []) + AllAtDashes(commands[1..])
  }

  function Commands(line: string): seq<seq<string>> {
    AllAtDashes(Rest(line, 0, NOTHING_READ).commands)
  }

  /** The open word, if any, joins the open command. */
  method FlushWord(commands: seq<seq<string>>, word: Option<string>) returns (r: seq<seq<string>>)
    requires commands != []
    ensures r != [] && forall q :: Split(r, None, q) == Flush(Split(commands, word, q))
  {
    r := commands;
    if word.Some? {
      r := r[|r| - 1 := r[|r| - 1] + [word.value]];
    }
  }

  /** The reading loop. */
  method ReadCommands(line: string) returns (commands: seq<seq<string>>)
    ensures commands == Rest(line, 0, NOTHING_READ).commands
  {
    commands := [[]];
    var word: Option<string> := None;
    var quote := Bare;
    var i := 0;
    while i < |line|
      invariant i <= |line| && commands != []
      invariant Rest(line, i, Split(commands, word, quote)) == Rest(line, 0, NOTHING_READ)
      decreases |line| - i
    {
      var c := line[i];
      ghost var s, at := Split(commands, word, quote), i;
      var open := if word.Some? then word.value else "";
      if quote != Bare {
        if c == Mark(quote) {
          quote := Bare;
        } else if c == '\\' && quote == Double && i + 1 < |line| {
          word := Some(open + [line[i + 1]]);
          i := i + 1;
        } else {
          word := Some(open + [c]);
        }
      } else if c == '\'' || c == '"' {
        quote := if c == '"' then Double else Single;
        word := Some(open);
        assert open + "" == open;
      } else if c == '\\' && i + 1 < |line| {
        word := Some(open + [line[i + 1]]);
        i := i + 1;
      } else if IsSpace(c) {
        commands := FlushWord(commands, word);
        word := None;
      } else if c == '$' && At(line, i + 1, '{') {
        var end := Find(line, '}', i);
        end := if end == |line| then |line| - 1 else end;
        word := Some(open + line[i..end + 1]);
        i := end;
      } else if c in ";&|()`" {
        commands := FlushWord(commands, word);
        word := None;
        if commands[|commands| - 1] != [] {
          commands := commands + [[]];
        }
      } else {
        word := Some(open + [c]);
      }
      i := i + 1;
      assert i == Next(line, at, s) && Split(commands, word, quote) == Turn(line, at, s);
    }
    commands := FlushWord(commands, word);
  }

  method CutAtDashes(commands: seq<seq<string>>) returns (out: seq<seq<string>>)
    ensures out == AllAtDashes(commands)
  {
    out := [];
    for k := 0 to |commands|
      invariant AllAtDashes(commands) == out + AllAtDashes(commands[k..])
    {
      assert commands[k..][1..] == commands[k + 1..];
      var command := commands[k];
      var current := [];
      ghost var before := out;
      for w := 0 to |command|
        invariant before + AtDashes(command, []) == out + AtDashes(command[w..], current)
      {
        assert command[w..][1..] == command[w + 1..];
        if command[w] == "--" {
          if current != [] {
            out := out + [current];
          }
          current := [];
        } else {
          current := current + [command[w]];
        }
      }
      if current != [] {
        out := out + [current];
      }
      assert before + AtDashes(command, []) == out;
    }
  }

  method SplitCommands(line: string) returns (out: seq<seq<string>>)
    ensures out == Commands(line) && AllClean(out)
  {
    var commands := ReadCommands(line);
    out := CutAtDashes(commands);
    AllPiecesAreClean(commands);
  }

  // ---- what the commands of any line look like --------------------------------

  predicate Clean(command: seq<string>) {
    command != [] && "--" !in command
  }

  predicate AllClean(commands: seq<seq<string>>) {
    forall k :: 0 <= k < |commands| ==> Clean(commands[k])
  }

  lemma {:induction false} PiecesAreClean(command: seq<string>, current: seq<string>)
    requires "--" !in current
    ensures AllClean(AtDashes(command, current))
    decreases |command|
  {
    if command != [] {
      PiecesAreClean(command[1..], if command[0] == "--" then [] else current + [command[0]]);
    }
  }

  lemma {:induction false} AllPiecesAreClean(commands: seq<seq<string>>)
    ensures AllClean(AllAtDashes(commands))
  {
    if commands != [] {
      PiecesAreClean(commands[0], []);
      AllPiecesAreClean(commands[1..]);
    }
  }

  /** Without a `--`, cutting changes nothing. */
  lemma {:induction false} CleanIsOnePiece(command: seq<string>, current: seq<string>)
    requires "--" !in command
    ensures AtDashes(command, current) == if current + command == [] then [] else [current + command]
    decreases |command|
  {
    if command == [] {
      assert current + command == current;
    } else {
      CleanIsOnePiece(command[1..], current + [command[0]]);
      assert current + command == (current + [command[0]]) + command[1..];
    }
  }

  lemma {:induction false} CleanCommandsStay(commands: seq<seq<string>>)
    requires AllClean(commands)
    ensures AllAtDashes(commands) == commands
  {
    if commands != [] {
      CleanIsOnePiece(commands[0], []);
      assert [] + commands[0] == commands[0];
      CleanCommandsStay(commands[1..]);
    }
  }

  // ---- the quoting printer ----------------------------------------------------

  function Escaped(word: string): string {
    if word == "" then ""
    else (if word[0] == '"' || word[0] == '\\' then ['\\', word[0]] else [word[0]]) + Escaped(word[1..])
  }

  function Quoted(word: string): string {
    "\"" + Escaped(word) + "\""
  }

  function PrintCommand(command: seq<string>): string {
    if command == [] then ""
    else if |command| == 1 then Quoted(command[0])
    else Quoted(command[0]) + (" " + PrintCommand(command[1..]))
  }

  function Print(commands: seq<seq<string>>): string {
    if commands == [] then ""
    else if |commands| == 1 then PrintCommand(commands[0])
    else PrintCommand(commands[0]) + ("; " + Print(commands[1..]))
  }

  /** Inside double quotes, an escaped word is read back letter by letter. */
  lemma {:induction false} EscapedReadsBack(line: string, i: nat, word: string, s: Split)
    requires s.quote == Double && s.word.Some? && Reads(line, i, Escaped(word))
    ensures Rest(line, i, s) == Rest(line, i + |Escaped(word)|, Append(s, word))
    decreases |word|
  {
    if word == "" {
      assert s.word.value + "" == s.word.value;
    } else {
      var head := if word[0] == '"' || word[0] == '\\' then ['\\', word[0]] else [word[0]];
      ReadsSplit(line, i, head, Escaped(word[1..]));
      assert line[i + 0] == head[0] && (|head| == 2 ==> line[i + 1] == head[1]);
      assert Turn(line, i, s) == Append(s, [word[0]]) && Next(line, i, s) == i + |head|;
      EscapedReadsBack(line, i + |head|, word[1..], Append(s, [word[0]]));
      assert (s.word.value + [word[0]]) + word[1..] == s.word.value + word;
    }
  }

  lemma QuotedReadsBack(line: string, i: nat, word: string, s: Split)
    requires s.quote == Bare && s.word == None && Reads(line, i, Quoted(word))
    ensures Rest(line, i, s) == Rest(line, i + |Quoted(word)|, s.(word := Some(word)))
  {
    ReadsSplit(line, i, "\"" + Escaped(word), "\"");
    ReadsSplit(line, i, "\"", Escaped(word));
    assert line[i + 0] == "\""[0] && line[(i + 1 + |Escaped(word)|) + 0] == "\""[0];
    var inside := s.(word := Some(""), quote := Double);
    assert "" + "" == "";
    assert Turn(line, i, s) == inside && Next(line, i, s) == i + 1;
    EscapedReadsBack(line, i + 1, word, inside);
    assert "" + word == word;
  }

  /** `command` joins the open command; its last word is still pending. */
  function Pending(done: seq<seq<string>>, command: seq<string>): Split
    requires command != []
  {
    var last := |command| - 1;
    Split(done + [command[..last]], Some(command[last]), Bare)
  }

  lemma FlushPending(done: seq<seq<string>>, command: seq<string>)
    requires command != []
    ensures Flush(Pending(done, command)) == Split(done + [command], None, Bare)
  {
    assert command[..|command| - 1] + [command[|command| - 1]] == command;
  }

  lemma SpaceEndsWord(line: string, i: nat, done: seq<seq<string>>, command: seq<string>, rest: string)
    requires command != [] && Reads(line, i, " " + rest)
    ensures Reads(line, i + 1, rest)
    ensures Rest(line, i, Pending(done, command)) == Rest(line, i + 1, Split(done + [command], None, Bare))
  {
    ReadsSplit(line, i, " ", rest);
    assert line[i + 0] == " "[0];
    FlushPending(done, command);
  }

  lemma SemicolonEndsCommand(line: string, i: nat, done: seq<seq<string>>, command: seq<string>, rest: string)
    requires command != [] && Reads(line, i, "; " + rest)
    ensures Reads(line, i + 2, rest)
    ensures Rest(line, i, Pending(done, command)) == Rest(line, i + 2, Split(done + [command] + [[]], None, Bare))
  {
    ReadsSplit(line, i, "; ", rest);
    assert line[i + 0] == "; "[0] && line[i + 1] == "; "[1];
    FlushPending(done, command);
    var cut := Split(done + [command] + [[]], None, Bare);
    assert Turn(line, i, Pending(done, command)) == cut && Next(line, i, Pending(done, command)) == i + 1;
    assert Turn(line, i + 1, cut) == cut && Next(line, i + 1, cut) == i + 2;
  }

  lemma WordJoins(line: string, i: nat, done: seq<seq<string>>, read: seq<string>, word: string, rest: string)
    requires Reads(line, i, Quoted(word) + rest)
    ensures Reads(line, i + |Quoted(word)|, rest)
    ensures Rest(line, i, Split(done + [read], None, Bare))
         == Rest(line, i + |Quoted(word)|, Pending(done, read + [word]))
  {
    ReadsSplit(line, i, Quoted(word), rest);
    QuotedReadsBack(line, i, word, Split(done + [read], None, Bare));
    assert (read + [word])[..|read|] == read;
  }

  lemma {:induction false} CommandReadsBack(line: string, i: nat, done: seq<seq<string>>, read: seq<string>,
                                            command: seq<string>, rest: string)
    requires command != [] && Reads(line, i, PrintCommand(command) + rest)
    ensures Reads(line, i + |PrintCommand(command)|, rest)
    ensures Rest(line, i, Split(done + [read], None, Bare))
         == Rest(line, i + |PrintCommand(command)|, Pending(done, read + command))
    decreases |command|
  {
    hide Turn, Next, Rest, Reads, Pending, Quoted;
    var word := command[0];
    if |command| == 1 {
      WordJoins(line, i, done, read, word, rest);
      assert command == [word];
    } else {
      var more := PrintCommand(command[1..]);
      assert PrintCommand(command) + rest == Quoted(word) + (" " + (more + rest));
      WordJoins(line, i, done, read, word, " " + (more + rest));
      SpaceEndsWord(line, i + |Quoted(word)|, done, read + [word], more + rest);
      CommandReadsBack(line, i + |Quoted(word)| + 1, done, read + [word], command[1..], rest);
      assert (read + [word]) + command[1..] == read + command;
    }
  }

  lemma LastCommand(line: string, done: seq<seq<string>>, command: seq<string>)
    requires command != []
    ensures Rest(line, |line|, Pending(done, command)).commands == done + [command]
  {
    FlushPending(done, command);
  }

  lemma {:induction false} CommandsReadBack(line: string, i: nat, done: seq<seq<string>>, commands: seq<seq<string>>)
    requires commands != [] && AllClean(commands) && Reads(line, i, Print(commands)) && i + |Print(commands)| == |line|
    ensures Rest(line, i, Split(done + [[]], None, Bare)).commands == done + commands
    decreases |commands|
  {
    hide Turn, Next, Rest, Reads, Pending, PrintCommand, Flush;
    var command := commands[0];
    var first := PrintCommand(command);
    assert [] + command == command;
    if |commands| == 1 {
      assert first + "" == first;
      CommandReadsBack(line, i, done, [], command, "");
      LastCommand(line, done, command);
    } else {
      var more := Print(commands[1..]);
      CommandReadsBack(line, i, done, [], command, "; " + more);
      SemicolonEndsCommand(line, i + |first|, done, command, more);
      CommandsReadBack(line, i + |first| + 2, done + [command], commands[1..]);
      assert (done + [command]) + commands[1..] == done + commands;
    }
  }

  /** A printed list of commands is read back exactly when no command is empty and no word is `--`. */
  lemma PrintedCommandsReadBack(commands: seq<seq<string>>)
    ensures Commands(Print(commands)) == commands <==> AllClean(commands)
  {
    var line := Print(commands);
    AllPiecesAreClean(Rest(line, 0, NOTHING_READ).commands);
    if AllClean(commands) {
      if commands == [] {
        assert Flush(NOTHING_READ) == NOTHING_READ;
        assert AtDashes([], []) == [] && AllAtDashes([[]]) == AtDashes([], []) + AllAtDashes([]);
      } else {
        assert [] + [[]] == NOTHING_READ.commands;
        CommandsReadBack(line, 0, [], commands);
        assert [] + commands == commands;
        CleanCommandsStay(commands);
      }
    }
  }
}
