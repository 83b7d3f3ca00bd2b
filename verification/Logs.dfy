/** Runtime logs: splitting the runtime's output into lines, the rotated files it is kept in, and reading
    back the last lines of them. */
module Logs {
  import opened Options
  import opened Sequences
  import opened Text

  const ROTATE_MAX_BYTES: nat := 10 * 1024 * 1024
  const ROTATE_KEEP: nat := 2
  const CHUNK: nat := 8192
  const LIVE_LINES: nat := 2000

  /** Puts a character in front of the first line. */
  function Glue(c: char, lines: seq<string>): (r: seq<string>)
    ensures r != []
  {
    if lines == [] then [[c]] else [[c] + lines[0]] + lines[1..]
  }

  /** The plain reading of a file: split at newlines, with an unterminated last line if there is one. */
  function Lines(s: string): (r: seq<string>)
    ensures s != "" ==> r != []
  {
    if s == "" then []
    else if s[0] == '\n' then [""] + Lines(s[1..])
    else Glue(s[0], Lines(s[1..]))
  }

  function FileLines(f: Option<string>): seq<string> {
    if f.None? then [] else Lines(f.value)
  }

  function Newlines(s: string): nat {
    if s == "" then 0 else (if s[0] == '\n' then 1 else 0) + Newlines(s[1..])
  }

  // ---- lines of concatenated text

  lemma {:induction false} LinesCons(line: string, rest: string)
    requires '\n' !in line
    ensures Lines(line + ['\n'] + rest) == [line] + Lines(rest)
  {
    var s := line + ['\n'] + rest;
    if line == "" {
      assert s[1..] == rest;
    } else {
      LinesCons(line[1..], rest);
      assert s[1..] == line[1..] + ['\n'] + rest;
      assert [line[0]] + line[1..] == line;
    }
  }

  lemma GlueAppend(c: char, a: seq<string>, b: seq<string>)
    requires a != []
    ensures Glue(c, a + b) == Glue(c, a) + b
  {
  }

  lemma {:induction false} LinesAppend(a: string, b: string)
    requires a == "" || a[|a| - 1] == '\n'
    ensures Lines(a + b) == Lines(a) + Lines(b)
    decreases |a|
  {
    if a == "" {
      assert a + b == b;
    } else {
      LinesAppend(a[1..], b);
      assert (a + b)[1..] == a[1..] + b && (a + b)[0] == a[0];
      if a[0] == '\n' {
        Associative([""], Lines(a[1..]), Lines(b));
      } else {
        GlueAppend(a[0], Lines(a[1..]), Lines(b));
      }
    }
  }

  lemma {:induction false} NewlinesAppend(a: string, b: string)
    ensures Newlines(a + b) == Newlines(a) + Newlines(b)
  {
    if a == "" {
      assert a + b == b;
    } else {
      assert (a + b)[1..] == a[1..] + b;
      NewlinesAppend(a[1..], b);
    }
  }

  lemma {:induction false} NewlinesNone(s: string)
    ensures Newlines(s) == 0 <==> '\n' !in s
  {
    if s != "" { NewlinesNone(s[1..]); }
  }

  /** The first newline splits the count. */
  lemma {:induction false} NewlinesAfterFirst(s: string)
    requires '\n' in s
    ensures Newlines(s) == 1 + Newlines(s[Find(s, '\n') + 1..])
  {
    if s[0] != '\n' {
      NewlinesAfterFirst(s[1..]);
      assert s[1..][Find(s[1..], '\n') + 1..] == s[Find(s, '\n') + 1..];
    }
  }

  lemma {:induction false} LinesAtLeastNewlines(s: string)
    ensures |Lines(s)| >= Newlines(s)
  {
    if s != "" { LinesAtLeastNewlines(s[1..]); }
  }

  /** Whatever precedes it, the lines of a text after its first newline stay the same. */
  lemma LinesAfterFirst(pre: string, buffer: string) returns (front: seq<string>, rest: seq<string>)
    requires '\n' in buffer
    ensures Lines(pre + buffer) == front + rest
    ensures exists first :: Lines(buffer) == [first] + rest
    ensures |rest| >= Newlines(buffer) - 1
  {
    var i := Find(buffer, '\n');
    var line, after := buffer[..i], buffer[i + 1..];
    NewlinesAfterFirst(buffer);
    LinesAtLeastNewlines(after);
    assert buffer == line + ['\n'] + after;
    LinesCons(line, after);
    var head := pre + (line + ['\n']);
    assert pre + buffer == head + after;
    LinesAppend(head, after);
    front, rest := Lines(head), Lines(after);
  }

  /** A suffix with more than `n` newlines has the file's last `n` lines, though its own first line may be
      only the end of one. */
  lemma SuffixSuffices(pre: string, buffer: string, n: nat)
    requires pre == "" || Newlines(buffer) > n
    ensures LastN(Lines(buffer), n) == LastN(Lines(pre + buffer), n)
  {
    if pre == "" {
      assert pre + buffer == buffer;
    } else {
      NewlinesNone(buffer);
      var front, rest := LinesAfterFirst(pre, buffer);
      var first :| Lines(buffer) == [first] + rest;
      LastNOfAppend(front, rest, n);
      LastNOfAppend([first], rest, n);
    }
  }

  // ---- reading back

  method SplitLines(buffer: string) returns (lines: seq<string>)
    ensures lines == Lines(buffer)
  {
    lines := [];
    var start := 0;
    ghost var goal, left := Lines(buffer), Lines(buffer);
    assert buffer[0..] == buffer;
    for i := 0 to |buffer|
      invariant 0 <= start <= i
      invariant '\n' !in buffer[start..i]
      invariant left == Lines(buffer[start..]) && lines + left == goal
    {
      if buffer[i] == '\n' {
        FirstLine(buffer, start, i);
        left := Lines(buffer[i + 1..]);
        Associative(lines, [buffer[start..i]], left);
        lines := lines + [buffer[start..i]];
        start := i + 1;
      } else {
        assert buffer[start..i + 1] == buffer[start..i] + [buffer[i]];
      }
    }
    assert buffer[start..] == buffer[start..|buffer|];
    LastLine(buffer[start..]);
    if start < |buffer| {
      lines := lines + [buffer[start..]];
    }
  }

  lemma FirstLine(buffer: string, start: nat, i: nat)
    requires start <= i < |buffer| && '\n' !in buffer[start..i] && buffer[i] == '\n'
    ensures Lines(buffer[start..]) == [buffer[start..i]] + Lines(buffer[i + 1..])
  {
    assert buffer[start..] == buffer[start..i] + ['\n'] + buffer[i + 1..];
    LinesCons(buffer[start..i], buffer[i + 1..]);
  }

  lemma {:induction false} LastLine(s: string)
    requires '\n' !in s
    ensures Lines(s) == if s == "" then [] else [s]
  {
    if s != "" {
      LastLine(s[1..]);
      assert [s[0]] + s[1..] == s;
      assert s[1..] == "" ==> s == [s[0]];
    }
  }

  method CountNewlines(s: string) returns (n: nat)
    ensures n == Newlines(s)
  {
    n := 0;
    var rest := s;
    while rest != ""
      invariant n + Newlines(rest) == Newlines(s)
      decreases |rest|
    {
      if rest[0] == '\n' { n := n + 1; }
      rest := rest[1..];
    }
  }

  /** Walks the file backwards a chunk at a time, until it has enough newlines or the whole file. */
  method ReadBack(input: string, maxLines: nat) returns (buffer: string, pos: nat)
    ensures pos <= |input| && buffer == input[pos..]
    ensures pos == 0 || Newlines(buffer) > maxLines
  {
    var newlines := 0;
    buffer, pos := "", |input|;
    while pos > 0 && newlines <= maxLines
      invariant 0 <= pos <= |input| && buffer == input[pos..]
      invariant newlines == Newlines(buffer)
    {
      var readSize := if CHUNK < pos then CHUNK else pos;
      ghost var end := pos;
      pos := pos - readSize;
      var chunk := input[pos..pos + readSize];
      assert chunk + input[end..] == input[pos..];
      buffer := chunk + buffer;
      newlines := CountNewlines(buffer);
    }
  }

  method TailLogFile(file: Option<string>, maxLines: nat) returns (lines: seq<string>)
    ensures lines == LastN(FileLines(file), maxLines)
  {
    if file.None? { return []; }
    var input := file.value;
    if |input| == 0 { return []; }
    var buffer, pos := ReadBack(input, maxLines);
    SuffixSuffices(input[..pos], buffer, maxLines);
    assert input[..pos] + buffer == input;
    lines := SplitLines(buffer);
    if |lines| > maxLines {
      lines := lines[|lines| - maxLines..];
    }
  }

  /** The active file and its rotated predecessors, newest first. */
  type LogFiles = seq<Option<string>>

  /** All lines, oldest first. */
  function AllLines(files: LogFiles): seq<string> {
    if files == [] then [] else AllLines(files[1..]) + FileLines(files[0])
  }

  method Absorb(file: Option<string>, maxLines: nat, collected: seq<string>, ghost newer: seq<string>)
    returns (r: seq<string>)
    requires collected == LastN(newer, maxLines)
    ensures r == LastN(FileLines(file) + newer, maxLines)
  {
    LastNOfAppend(FileLines(file), newer, maxLines);
    if |collected| >= maxLines { return collected; }
    var chunk := TailLogFile(file, maxLines - |collected|);
    r := chunk + collected;
  }

  /** `Logs` when no session is live: the last lines of the active file, then of the rotated ones. */
  method StoredLogs(files: LogFiles, maxLines: nat) returns (lines: seq<string>)
    requires |files| == 1 + ROTATE_KEEP
    ensures lines == LastN(AllLines(files), maxLines)
  {
    hide AllLines, FileLines;
    lines := Absorb(files[0], maxLines, [], []);
    assert files[..1] == [files[0]];
    AllLinesOne(files[0]);
    var i := 1;
    while i <= ROTATE_KEEP && |lines| < maxLines
      invariant 1 <= i <= 1 + ROTATE_KEEP
      invariant lines == LastN(AllLines(files[..i]), maxLines)
    {
      AllLinesSnoc(files[..i], files[i]);
      assert files[..i + 1] == files[..i] + [files[i]];
      lines := Absorb(files[i], maxLines, lines, AllLines(files[..i]));
      i := i + 1;
    }
    assert files == files[..i] + files[i..];
    AllLinesAppend(files[..i], files[i..]);
    Enough(files[..i], files[i..], lines, maxLines);
  }

  lemma AllLinesOne(file: Option<string>)
    ensures AllLines([file]) == FileLines(file) + []
  {
    hide FileLines;
    assert [file][1..] == [];
  }

  /** The older files add nothing to a full answer, and there are none when it is not full. */
  lemma Enough(newer: LogFiles, older: LogFiles, lines: seq<string>, n: nat)
    requires lines == LastN(AllLines(newer), n) && (|lines| >= n || older == [])
    ensures lines == LastN(AllLines(older) + AllLines(newer), n)
  {
    LastNOfAppend(AllLines(older), AllLines(newer), n);
  }

  lemma {:induction false} AllLinesAppend(newer: LogFiles, older: LogFiles)
    ensures AllLines(newer + older) == AllLines(older) + AllLines(newer)
  {
    if newer == [] {
      assert newer + older == older;
    } else {
      assert (newer + older)[1..] == newer[1..] + older && (newer + older)[0] == newer[0];
      AllLinesAppend(newer[1..], older);
      Associative(AllLines(older), AllLines(newer[1..]), FileLines(newer[0]));
    }
  }

  lemma AllLinesSnoc(newer: LogFiles, older: Option<string>)
    ensures AllLines(newer + [older]) == FileLines(older) + AllLines(newer)
  {
    hide FileLines;
    AllLinesAppend(newer, [older]);
    AllLinesOne(older);
    assert FileLines(older) + [] == FileLines(older);
  }

  // ---- rotation

  class LogDirectory {
    var files: LogFiles

    constructor (f: LogFiles)
      requires |f| == 1 + ROTATE_KEEP
      ensures files == f
    {
      files := f;
    }

    method RotateLogsIfNeeded()
      requires |files| == 1 + ROTATE_KEEP
      modifies this
      ensures files == Rotated(old(files))
    {
      if files[0].None? { return; }
      if |files[0].value| <= ROTATE_MAX_BYTES { return; }
      files := files[ROTATE_KEEP := None];
      var i := ROTATE_KEEP;
      while i >= 1
        invariant 0 <= i <= ROTATE_KEEP && |files| == 1 + ROTATE_KEEP
        invariant files == if i == 2 then [old(files)[0], old(files)[1], None]
                           else if i == 1 then [old(files)[0], None, old(files)[1]]
                           else [None, old(files)[0], old(files)[1]]
      {
        if files[i - 1].Some? {
          files := files[i := files[i - 1]];
          files := files[i - 1 := None];
        }
        i := i - 1;
      }
    }
  }

  predicate NeedsRotation(files: LogFiles)
    requires |files| == 1 + ROTATE_KEEP
  {
    files[0].Some? && |files[0].value| > ROTATE_MAX_BYTES
  }

  function Rotated(files: LogFiles): (r: LogFiles)
    requires |files| == 1 + ROTATE_KEEP
    ensures |r| == 1 + ROTATE_KEEP
  {
    if NeedsRotation(files) then [None, files[0], files[1]] else files
  }

  lemma AllLinesOfThree(a: Option<string>, b: Option<string>, c: Option<string>)
    ensures AllLines([a, b, c]) == FileLines(c) + (FileLines(b) + FileLines(a))
  {
    assert [a, b, c][1..] == [b, c] && [b, c][1..] == [c] && [c][1..] == [];
    assert AllLines([c]) == [] + FileLines(c) == FileLines(c);
    Associative(FileLines(c), FileLines(b), FileLines(a));
  }

  /** After a rotation the stored logs are the last lines of old `.1` and old active, whichever existed. */
  lemma LogsAfterRotation(files: LogFiles, n: nat)
    requires |files| == 1 + ROTATE_KEEP && NeedsRotation(files)
    ensures LastN(AllLines(Rotated(files)), n) == LastN(FileLines(files[1]) + FileLines(files[0]), n)
  {
    AllLinesOfThree(None, files[0], files[1]);
    assert FileLines(files[0]) + [] == FileLines(files[0]);
  }

  /** A request is answered alike before and after exactly when there is nothing to rotate, when it does not
      reach into the dropped file, or when that had no lines. */
  lemma RotationInvisibleIff(files: LogFiles, n: nat)
    requires |files| == 1 + ROTATE_KEEP
    ensures LastN(AllLines(Rotated(files)), n) == LastN(AllLines(files), n) <==>
            || files[0].None? || |files[0].value| <= 10 * 1024 * 1024
            || n <= |FileLines(files[1]) + FileLines(files[0])| || FileLines(files[2]) == []
  {
    if NeedsRotation(files) {
      var kept, dropped := FileLines(files[1]) + FileLines(files[0]), FileLines(files[2]);
      LogsAfterRotation(files, n);
      AllLinesOfThree(files[0], files[1], files[2]);
      assert files == [files[0], files[1], files[2]];
      LastNOfAppend(dropped, kept, n);
      assert dropped == [] ==> dropped + kept == kept;
    }
  }

  /** The active file has grown past the limit exactly when there is none afterwards that was there before. The
      texts of the files are then those of before, each in one file, without that of the oldest; and otherwise
      every file is as it was. */
  lemma RotationKeepsTexts(files: LogFiles)
    requires |files| == 1 + ROTATE_KEEP
    ensures var r, grown := Rotated(files), files[0].Some? && |files[0].value| > ROTATE_MAX_BYTES;
            && (grown <==> files[0].Some? && r[0].None?)
            && (!grown ==> r == files)
            && (grown ==> multiset(r) + multiset{files[2]} == multiset(files) + multiset{None})
            && forall i | 0 <= i < ROTATE_KEEP && files[i].Some? :: files[i] in r
  {
    var r := Rotated(files);
    assert files == [files[0], files[1], files[2]];
    if NeedsRotation(files) {
      assert r == [None, files[0], files[1]];
      assert r[1] == files[0] && r[2] == files[1];
    }
  }

  // ---- the live session

  /** The text up to and including its last newline, and what follows it. */
  function Terminated(s: string): string {
    if '\n' !in s then "" else [s[0]] + Terminated(s[1..])
  }

  function Unterminated(s: string): string {
    if '\n' !in s then s else Unterminated(s[1..])
  }

  lemma {:induction false} TerminatedShape(s: string)
    ensures Terminated(s) + Unterminated(s) == s
    ensures Terminated(s) == "" || Terminated(s)[|Terminated(s)| - 1] == '\n'
    ensures '\n' !in Unterminated(s)
  {
    if '\n' in s {
      var t := Terminated(s[1..]);
      TerminatedShape(s[1..]);
      Associative([s[0]], t, Unterminated(s[1..]));
      assert s == [s[0]] + s[1..];
      if t == "" {
        NothingTerminated(s[1..]);
      }
    }
  }

  lemma NothingTerminated(s: string)
    ensures Terminated(s) == "" <==> '\n' !in s
  {
  }

  /** More output only extends the terminated part, by what the unterminated rest becomes. */
  lemma {:induction false} TerminatedAppend(s: string, t: string)
    ensures Terminated(s + t) == Terminated(s) + Terminated(Unterminated(s) + t)
    ensures Unterminated(s + t) == Unterminated(Unterminated(s) + t)
  {
    if '\n' in s {
      assert (s + t)[1..] == s[1..] + t;
      assert '\n' in s + t;
      TerminatedAppend(s[1..], t);
    }
  }

  lemma {:induction false} TerminatedLine(line: string, rest: string)
    requires '\n' !in line
    ensures Terminated(line + ['\n'] + rest) == line + ['\n'] + Terminated(rest)
    ensures Unterminated(line + ['\n'] + rest) == Unterminated(rest)
  {
    var s := line + ['\n'] + rest;
    assert s[|line|] == '\n';
    if line == "" {
      assert s[1..] == rest;
    } else {
      assert s[0] == line[0] && s[1..] == line[1..] + ['\n'] + rest;
      TerminatedLine(line[1..], rest);
      ConsText(line, ['\n'] , Terminated(rest));
    }
  }

  lemma ConsText(a: string, b: string, c: string)
    requires a != ""
    ensures [a[0]] + (a[1..] + b + c) == a + b + c
  {
  }

  lemma LineTaken(pending: string, done: string)
    requires '\n' in pending && (done == "" || done[|done| - 1] == '\n')
    ensures var pos := Find(pending, '\n');
            var line, rest := pending[..pos], pending[pos + 1..];
            && done + (line + ['\n']) + Terminated(rest) == done + Terminated(pending)
            && Unterminated(rest) == Unterminated(pending)
            && Lines(done + (line + ['\n'])) == Lines(done) + [line]
            && (done + (line + ['\n']))[|done| + |line|] == '\n'
  {
    var pos := Find(pending, '\n');
    var line, rest := pending[..pos], pending[pos + 1..];
    assert pending == line + ['\n'] + rest;
    TerminatedLine(line, rest);
    PushLine(done, line);
    Associative(done, line + ['\n'], Terminated(rest));
  }

  /** The reader of the runtime's output: every complete line goes to the log file and to a bounded list. */
  class LogReader {
    var pending: string
    var logFile: string
    var logLines: seq<string>

    /** The state after the whole output `stream`, when the file held `before` at the start. */
    ghost predicate Holds(before: string, stream: string)
      reads this
    {
      && pending == Unterminated(stream)
      && logFile == before + Terminated(stream)
      && logLines == LastN(Lines(Terminated(stream)), LIVE_LINES)
    }

    constructor (before: string)
      ensures Holds(before, "")
    {
      pending, logFile, logLines := "", before, [];
    }

    /** Moves one complete line out of the pending text. */
    method TakeLine(ghost before: string, ghost done: string) returns (ghost done': string)
      requires '\n' in pending && (done == "" || done[|done| - 1] == '\n')
      requires logFile == before + done && logLines == LastN(Lines(done), LIVE_LINES)
      modifies this
      ensures logFile == before + done' && logLines == LastN(Lines(done'), LIVE_LINES)
      ensures done' != "" && done'[|done'| - 1] == '\n' && |pending| < |old(pending)|
      ensures done' + Terminated(pending) == done + Terminated(old(pending))
      ensures Unterminated(pending) == Unterminated(old(pending))
    {
      hide Find, Lines, LastN, Terminated, Unterminated;
      var pos := Find(pending, '\n');
      var line := pending[..pos];
      LineTaken(pending, done);
      LastNPush(Lines(done), line, LIVE_LINES);
      Associative(before, done, line + ['\n']);
      done' := done + (line + ['\n']);
      pending := pending[pos + 1..];
      logFile := logFile + (line + ['\n']);
      logLines := logLines + [line];
      if |logLines| > LIVE_LINES { logLines := logLines[1..]; }
    }

    /** One read of any size from the pipe. */
    method Receive(data: string, ghost before: string, ghost stream: string)
      requires Holds(before, stream)
      modifies this
      ensures Holds(before, stream + data)
    {
      TerminatedAppend(stream, data);
      TerminatedShape(stream);
      pending := pending + data;
      ghost var done := Terminated(stream);
      while '\n' in pending
        invariant logFile == before + done && logLines == LastN(Lines(done), LIVE_LINES)
        invariant done == "" || done[|done| - 1] == '\n'
        invariant done + Terminated(pending) == Terminated(stream + data)
        invariant Unterminated(pending) == Unterminated(stream + data)
        decreases |pending|
      {
        done := TakeLine(before, done);
      }
      assert done + "" == done;
    }

    /** `Logs` while the session is live. */
    method LiveLogs(maxLines: nat) returns (lines: seq<string>)
      ensures lines == LastN(logLines, maxLines)
    {
      var start := if |logLines| > maxLines then |logLines| - maxLines else 0;
      lines := logLines[start..];
    }
  }

  lemma OneLineOnly(line: string)
    requires '\n' !in line
    ensures Lines(line + ['\n']) == [line]
  {
    LinesCons(line, "");
    assert line + ['\n'] + "" == line + ['\n'];
  }

  lemma PushLine(done: string, line: string)
    requires done == "" || done[|done| - 1] == '\n'
    requires '\n' !in line
    ensures Lines(done + (line + ['\n'])) == Lines(done) + [line]
  {
    LinesAppend(done, line + ['\n']);
    OneLineOnly(line);
  }

  /** The live answer is the one that the files give once the session is gone exactly when the request stays
      within the live list or the files hold nothing else. (`before` is what was in the active file when the
      session began: whole lines, since only whole lines are ever written.) */
  lemma LiveMatchesStored(before: string, stream: string, older: LogFiles, n: nat)
    requires before == "" || before[|before| - 1] == '\n'
    ensures var all, live := AllLines([Some(before + Terminated(stream))] + older), LiveCount(stream);
            LastN(LastN(Lines(Terminated(stream)), LIVE_LINES), n) == LastN(all, n) <==> n <= live || live == |all|
  {
    hide AllLines, Lines;
    var t := Terminated(stream);
    LinesAppend(before, t);
    AllLinesAppend([Some(before + t)], older);
    AllLinesOne(Some(before + t));
    Associative(AllLines(older), Lines(before), Lines(t));
    assert Lines(before + t) + [] == Lines(before + t);
    LastOfSuffix(AllLines(older) + Lines(before), Lines(t), LIVE_LINES, n);
  }

  /** How many lines the live list has. */
  function LiveCount(stream: string): nat {
    var k := |Lines(Terminated(stream))|;
    if k < 2000 then k else 2000
  }

  lemma LastOfSuffix<T>(a: seq<T>, b: seq<T>, m: nat, n: nat)
    ensures var kept := if |b| < m then |b| else m;
            LastN(LastN(b, m), n) == LastN(a + b, n) <==> n <= kept || kept == |a + b|
  {
    var kept := if |b| < m then |b| else m;
    if n <= kept {
      LastNTwice(b, m, n);
      LastNOfAppend(a, b, n);
    } else if kept == |a + b| {
      assert a + b == b;
    } else {
      assert |LastN(LastN(b, m), n)| == kept && |LastN(a + b, n)| > kept;
    }
  }
}
