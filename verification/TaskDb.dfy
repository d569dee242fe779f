/** SkTaskDb: a dictionary of recognition tasks and the append-only file it is rebuilt from. */
module TaskDb {
  import opened Wrappers
  import opened Whitespace

  /** None is null. */
  datatype Task = Task(path: string, audioUrl: Option<string>, taskId: Option<string>)

  type Tasks = map<string, Task>

  datatype Error = IndexOutOfRange | DuplicateKey

  datatype Result<+T> = Ok(value: T) | Err(error: Error)

  // ---------------------------------------------------------------------------------------------
  // One line

  function Shown(field: Option<string>): string {
    if field.Some? then field.value else ""
  }

  function LineOf(t: Task): string {
    t.path + "; " + Shown(t.audioUrl) + "; " + Shown(t.taskId)
  }

  /** line.Split(";") */
  function Split(s: string): (parts: seq<string>)
    ensures parts != []
  {
    if s == "" then [""]
    else
      var rest := Split(s[1..]);
      if s[0] == ';' then [""] + rest else [[s[0]] + rest[0]] + rest[1..]
  }

  /** The values go to the properties in their order; a fourth value has no property to go to. */
  function SplitAndFill(line: string): Result<Task> {
    var values := Split(line);
    if |values| > 3 then Err(IndexOutOfRange)
    else
      Ok(Task(Trim(values[0]), if |values| > 1 then Some(Trim(values[1])) else None,
              if |values| > 2 then Some(Trim(values[2])) else None))
  }

  predicate NoSemicolon(s: string) {
    forall i :: 0 <= i < |s| ==> s[i] != ';'
  }

  predicate Clean(field: string) {
    NoSemicolon(field) && IsTrimmed(field)
  }

  /** A task that its own line describes. */
  predicate Storable(t: Task) {
    && t.audioUrl.Some? && t.taskId.Some?
    && Clean(t.path) && Clean(t.audioUrl.value) && Clean(t.taskId.value)
  }

  lemma {:induction false} SplitAtFirst(a: string, rest: string)
    requires NoSemicolon(a)
    ensures Split(a + ";" + rest) == [a] + Split(rest)
    decreases |a|
  {
    var s := a + ";" + rest;
    if a == "" {
      assert s[1..] == rest;
    } else {
      assert s[1..] == a[1..] + ";" + rest;
      SplitAtFirst(a[1..], rest);
      assert [s[0]] + a[1..] == a;
      assert ([a[1..]] + Split(rest))[1..] == Split(rest);
    }
  }

  lemma {:induction false} SplitNone(a: string)
    requires NoSemicolon(a)
    ensures Split(a) == [a]
    decreases |a|
  {
    if a != "" {
      SplitNone(a[1..]);
      assert [a[0]] + a[1..] == a;
    }
  }

  function Semicolons(s: string): nat {
    if s == "" then 0 else (if s[0] == ';' then 1 else 0) + Semicolons(s[1..])
  }

  lemma {:induction false} SplitCount(s: string)
    ensures |Split(s)| == Semicolons(s) + 1
    decreases |s|
  {
    if s != "" {
      SplitCount(s[1..]);
    }
  }

  lemma {:induction false} SemicolonsAppend(a: string, b: string)
    ensures Semicolons(a + b) == Semicolons(a) + Semicolons(b)
    decreases |a|
  {
    if a == "" {
      assert a + b == b;
    } else {
      assert (a + b)[1..] == a[1..] + b;
      SemicolonsAppend(a[1..], b);
    }
  }

  lemma {:induction false} NoneCounted(s: string)
    ensures Semicolons(s) == 0 <==> NoSemicolon(s)
    decreases |s|
  {
    if s != "" {
      NoneCounted(s[1..]);
      assert s == [s[0]] + s[1..];
    }
  }

  lemma LineCount(t: Task)
    ensures Semicolons(LineOf(t)) ==
            Semicolons(t.path) + Semicolons(Shown(t.audioUrl)) + Semicolons(Shown(t.taskId)) + 2
  {
    var (p, u, i) := (t.path, Shown(t.audioUrl), Shown(t.taskId));
    SemicolonsAppend(p, "; ");
    SemicolonsAppend(p + "; ", u);
    SemicolonsAppend(p + "; " + u, "; ");
    SemicolonsAppend(p + "; " + u + "; ", i);
    assert "; "[1..] == " " && " "[1..] == "";
    assert Semicolons(" ") == 0;
    assert Semicolons("; ") == 1;
  }

  lemma TrimSpace(s: string)
    ensures Trim(" " + s) == Trim(s)
  {
    assert (" " + s)[1..] == s;
  }

  lemma LineParts(t: Task)
    requires NoSemicolon(t.path) && NoSemicolon(Shown(t.audioUrl)) && NoSemicolon(Shown(t.taskId))
    ensures Split(LineOf(t)) == [t.path, " " + Shown(t.audioUrl), " " + Shown(t.taskId)]
  {
    var (p, u, i) := (t.path, Shown(t.audioUrl), Shown(t.taskId));
    assert LineOf(t) == p + ";" + (" " + u + ";" + (" " + i));
    SplitAtFirst(p, " " + u + ";" + (" " + i));
    SplitAtFirst(" " + u, " " + i);
    SplitNone(" " + i);
  }

  /** A stored line reads back as its task exactly for tasks with no null, no ";" and no outer white space. */
  lemma LineRoundTrip(t: Task)
    ensures SplitAndFill(LineOf(t)) == Ok(t) <==> Storable(t)
  {
    hide Split, Trim, IsTrimmed, LineOf, NoSemicolon;
    var (p, u, i) := (t.path, Shown(t.audioUrl), Shown(t.taskId));
    NoneCounted(p);
    NoneCounted(u);
    NoneCounted(i);
    LineCount(t);
    SplitCount(LineOf(t));
    if NoSemicolon(p) && NoSemicolon(u) && NoSemicolon(i) {
      LineParts(t);
      TrimSpace(u);
      TrimSpace(i);
      TrimFixed(p);
      TrimFixed(u);
      TrimFixed(i);
    }
  }

  // ---------------------------------------------------------------------------------------------
  // The file

  predicate IsBreak(ch: char) {
    ch == '\n' || ch == '\r'
  }

  predicate NoBreak(s: string) {
    forall i :: 0 <= i < |s| ==> !IsBreak(s[i])
  }

  /** The length of a line, up to its break. */
  function LineLength(s: string): (n: nat)
    ensures n <= |s|
  {
    if s == "" || IsBreak(s[0]) then 0 else 1 + LineLength(s[1..])
  }

  /** File.ReadAllLines: a line ends with "\r\n", "\n", "\r" or the file. */
  function ReadLines(s: string): seq<string>
    decreases |s|
  {
    if s == "" then []
    else
      var n := LineLength(s);
      if n == |s| then [s]
      else if s[n] == '\r' && n + 1 < |s| && s[n + 1] == '\n' then [s[..n]] + ReadLines(s[n + 2..])
      else [s[..n]] + ReadLines(s[n + 1..])
  }

  const BYTE_ORDER_MARK := '\U{FEFF}'

  /** U+FEFF at the beginning of a file is taken for a byte order mark and skipped. */
  predicate BeginsWithMark(s: string) {
    s != "" && s[0] == BYTE_ORDER_MARK
  }

  function WithoutMark(s: string): string {
    if BeginsWithMark(s) then s[1..] else s
  }

  predicate IsNewLine(newLine: string) {
    newLine == "\n" || newLine == "\r\n"
  }

  function FileOf(tasks: seq<Task>, newLine: string): string {
    if tasks == [] then "" else LineOf(tasks[0]) + newLine + FileOf(tasks[1..], newLine)
  }

  lemma {:induction false} LineEnds(a: string, rest: string)
    requires NoBreak(a) && rest != "" && IsBreak(rest[0])
    ensures LineLength(a + rest) == |a|
    decreases |a|
  {
    if a == "" {
      assert a + rest == rest;
    } else {
      assert (a + rest)[1..] == a[1..] + rest;
      LineEnds(a[1..], rest);
    }
  }

  lemma ReadFirstLine(line: string, newLine: string, rest: string)
    requires NoBreak(line) && IsNewLine(newLine)
    ensures ReadLines(line + newLine + rest) == [line] + ReadLines(rest)
  {
    hide LineLength;
    var s := line + newLine + rest;
    assert s == line + (newLine + rest);
    LineEnds(line, newLine + rest);
    assert s[..|line|] == line;
    assert s[|line| + |newLine|..] == rest;
    if newLine == "\n" {
      assert s[|line|] == '\n';
    } else {
      assert s[|line|] == '\r' && s[|line| + 1] == '\n';
    }
  }

  function LinesOf(tasks: seq<Task>): (lines: seq<string>)
    ensures |lines| == |tasks|
  {
    seq(|tasks|, i requires 0 <= i < |tasks| => LineOf(tasks[i]))
  }

  lemma {:induction false} FileLines(tasks: seq<Task>, newLine: string)
    requires IsNewLine(newLine) && forall i :: 0 <= i < |tasks| ==> NoBreak(LineOf(tasks[i]))
    ensures ReadLines(FileOf(tasks, newLine)) == LinesOf(tasks)
    decreases |tasks|
  {
    hide LineOf, ReadLines, NoBreak;
    if tasks == [] {
      assert ReadLines("") == [] by { NoLines(); }
    } else {
      ReadFirstLine(LineOf(tasks[0]), newLine, FileOf(tasks[1..], newLine));
      FileLines(tasks[1..], newLine);
      assert [LineOf(tasks[0])] + LinesOf(tasks[1..]) == LinesOf(tasks);
    }
  }

  lemma NoLines()
    ensures ReadLines("") == []
  {
  }

  lemma {:induction false} FileAppend(tasks: seq<Task>, t: Task, newLine: string)
    ensures FileOf(tasks + [t], newLine) == FileOf(tasks, newLine) + LineOf(t) + newLine
    decreases |tasks|
  {
    hide LineOf;
    if tasks == [] {
      assert [t][1..] == [];
      assert tasks + [t] == [t];
    } else {
      assert (tasks + [t])[1..] == tasks[1..] + [t];
      FileAppend(tasks[1..], t, newLine);
    }
  }

  // ---------------------------------------------------------------------------------------------
  // The dictionary

  /** All lines are split before the first one is added. */
  function ParseAll(lines: seq<string>): Result<seq<Task>> {
    if lines == [] then Ok([])
    else
      match ParseAll(lines[..|lines| - 1])
      case Err(error) => Err(error)
      case Ok(before) =>
        match SplitAndFill(lines[|lines| - 1])
        case Err(error) => Err(error)
        case Ok(t) => Ok(before + [t])
  }

  function AddAll(tasks: seq<Task>): Result<Tasks> {
    if tasks == [] then Ok(map[])
    else
      var last := tasks[|tasks| - 1];
      match AddAll(tasks[..|tasks| - 1])
      case Err(error) => Err(error)
      case Ok(before) => if last.path in before then Err(DuplicateKey) else Ok(before[last.path := last])
  }

  function Load(file: string): Result<Tasks> {
    match ParseAll(ReadLines(WithoutMark(file)))
    case Err(error) => Err(error)
    case Ok(tasks) => AddAll(tasks)
  }

  /** The file and the dictionary. */
  datatype State = State(file: string, tasks: Tasks)

  function Store(s: State, t: Task, newLine: string): State {
    if t.path in s.tasks then s else State(s.file + (LineOf(t) + newLine), s.tasks[t.path := t])
  }

  function StoreAll(s: State, tasks: seq<Task>, newLine: string): State {
    if tasks == [] then s else Store(StoreAll(s, tasks[..|tasks| - 1], newLine), tasks[|tasks| - 1], newLine)
  }

  class SkTaskDb {
    var file: string
    var tasks: Tasks

    /** A new client of an existing file; loading may end in an exception. */
    constructor (file: string)
      ensures this.file == file && tasks == map[]
    {
      this.file, tasks := file, map[];
    }

    method LoadTasksDbFile() returns (error: Option<Error>)
      requires tasks == map[]
      modifies this`tasks
      ensures error.None? <==> Load(file).Ok?
      ensures error.None? ==> Load(file) == Ok(tasks)
      ensures error.Some? ==> Load(file) == Err(error.value)
    {
      hide SplitAndFill, ReadLines;
      var lines := ReadLines(WithoutMark(file));
      var parsed: seq<Task> := [];
      assert lines[..0] == [];
      for i := 0 to |lines|
        invariant ParseAll(lines[..i]) == Ok(parsed)
      {
        assert lines[..i + 1][..i] == lines[..i];
        var t := SplitAndFill(lines[i]);
        if t.Err? {
          ParseStops(lines, i + 1);
          return Some(t.error);
        }
        parsed := parsed + [t.value];
      }
      assert lines[..|lines|] == lines;
      assert parsed[..0] == [];
      for i := 0 to |parsed|
        invariant AddAll(parsed[..i]) == Ok(tasks)
      {
        assert parsed[..i + 1][..i] == parsed[..i];
        if parsed[i].path in tasks {
          AddStops(parsed, i + 1);
          return Some(DuplicateKey);
        }
        tasks := tasks[parsed[i].path := parsed[i]];
      }
      assert parsed[..|parsed|] == parsed;
      return None;
    }

    method StoreTask(t: Task, newLine: string)
      modifies this
      ensures State(file, tasks) == Store(State(old(file), old(tasks)), t, newLine)
    {
      if t.path !in tasks {
        file := file + (LineOf(t) + newLine);
        tasks := tasks[t.path := t];
      }
    }
  }

  lemma {:induction false} ParseStops(lines: seq<string>, i: nat)
    requires i <= |lines| && ParseAll(lines[..i]).Err?
    ensures ParseAll(lines) == ParseAll(lines[..i])
    decreases |lines|
  {
    hide SplitAndFill;
    if i < |lines| {
      assert lines[..|lines| - 1][..i] == lines[..i];
      ParseStops(lines[..|lines| - 1], i);
    } else {
      assert lines[..i] == lines;
    }
  }

  lemma {:induction false} AddStops(tasks: seq<Task>, i: nat)
    requires i <= |tasks| && AddAll(tasks[..i]).Err?
    ensures AddAll(tasks) == AddAll(tasks[..i])
    decreases |tasks|
  {
    if i < |tasks| {
      assert tasks[..|tasks| - 1][..i] == tasks[..i];
      AddStops(tasks[..|tasks| - 1], i);
    } else {
      assert tasks[..i] == tasks;
    }
  }

  // ---------------------------------------------------------------------------------------------
  // Agreement

  /** Storable, and on one line. */
  predicate Fits(t: Task) {
    Storable(t) && NoBreak(LineOf(t))
  }

  lemma {:induction false} ParsesBack(tasks: seq<Task>)
    requires forall i :: 0 <= i < |tasks| ==> Storable(tasks[i])
    ensures ParseAll(LinesOf(tasks)) == Ok(tasks)
    decreases |tasks|
  {
    hide SplitAndFill, LineOf, Storable;
    if tasks != [] {
      var (front, last) := (tasks[..|tasks| - 1], tasks[|tasks| - 1]);
      ParsesBack(front);
      LineRoundTrip(last);
      assert LinesOf(tasks)[..|tasks| - 1] == LinesOf(front);
      assert front + [last] == tasks;
    }
  }

  /** The file holds the lines of the tasks in the dictionary, in the order they were stored. */
  predicate Agrees(s: State, stored: seq<Task>, newLine: string) {
    s.file == FileOf(stored, newLine) && AddAll(stored) == Ok(s.tasks)
  }

  lemma {:induction false} StoredAgree(tasks: seq<Task>, newLine: string) returns (stored: seq<Task>)
    ensures Agrees(StoreAll(State("", map[]), tasks, newLine), stored, newLine)
    ensures (tasks == [] <==> stored == []) && (tasks != [] ==> stored[0] == tasks[0])
    decreases |tasks|
  {
    hide LineOf;
    if tasks == [] {
      stored := [];
    } else {
      var (front, last) := (tasks[..|tasks| - 1], tasks[|tasks| - 1]);
      stored := StoredAgree(front, newLine);
      var before := StoreAll(State("", map[]), front, newLine);
      if last.path !in before.tasks {
        FileAppend(stored, last, newLine);
        assert (stored + [last])[..|stored|] == stored;
        assert stored != [] ==> (stored + [last])[0] == stored[0];
        stored := stored + [last];
        assert before.file + LineOf(last) + newLine == before.file + (LineOf(last) + newLine);
      } else {
        assert stored != [];
      }
    }
  }

  /** The dictionary is made of exactly these tasks. */
  lemma {:induction false} AddedAll(tasks: seq<Task>)
    requires AddAll(tasks).Ok?
    ensures |AddAll(tasks).value| == |tasks|
    ensures forall t :: t in tasks <==> t.path in AddAll(tasks).value && AddAll(tasks).value[t.path] == t
    decreases |tasks|
  {
    if tasks != [] {
      var (front, last) := (tasks[..|tasks| - 1], tasks[|tasks| - 1]);
      AddedAll(front);
      assert front + [last] == tasks;
      forall t
        ensures t in tasks <==> t in front || t == last
      {
      }
      assert AddAll(tasks).value.Keys == AddAll(front).value.Keys + {last.path};
    }
  }

  /** What the dictionary holds after any sequence of storeTask calls: for every path given, and for no other, the
      first task given with it. */
  lemma {:induction false} StoredTasks(tasks: seq<Task>, newLine: string, path: string)
    ensures var stored := StoreAll(State("", map[]), tasks, newLine).tasks;
            && (path in stored <==> exists k :: 0 <= k < |tasks| && tasks[k].path == path)
            && (forall k ::
                  0 <= k < |tasks| && tasks[k].path == path && (forall j :: 0 <= j < k ==> tasks[j].path != path)
                  ==> path in stored && stored[path] == tasks[k])
    decreases |tasks|
  {
    hide LineOf;
    if tasks != [] {
      var (front, last) := (tasks[..|tasks| - 1], tasks[|tasks| - 1]);
      StoredTasks(front, newLine, path);
      assert forall k :: 0 <= k < |front| ==> front[k] == tasks[k];
      assert last == tasks[|tasks| - 1];
    }
  }

  /** A reload reports a repeated path exactly if two of its tasks have one. */
  lemma {:induction false} AddFails(tasks: seq<Task>)
    ensures AddAll(tasks).Err? <==> exists i, j :: 0 <= i < j < |tasks| && tasks[i].path == tasks[j].path
    ensures AddAll(tasks).Err? ==> AddAll(tasks).error == DuplicateKey
    decreases |tasks|
  {
    if tasks != [] {
      var (front, last) := (tasks[..|tasks| - 1], tasks[|tasks| - 1]);
      AddFails(front);
      assert forall k :: 0 <= k < |front| ==> front[k] == tasks[k];
      if AddAll(front).Ok? {
        AddedAll(front);
        if last.path in AddAll(front).value {
          var t := AddAll(front).value[last.path];
          AddedPath(front, last.path);
          var i :| 0 <= i < |front| && front[i] == t;
          AddedKey(front, last.path);
          assert tasks[i].path == tasks[|front|].path;
        } else if exists i :: 0 <= i < |front| && tasks[i].path == last.path {
          var i :| 0 <= i < |front| && tasks[i].path == last.path;
          assert front[i] in front;
        }
      }
    }
  }

  lemma {:induction false} AddedKey(tasks: seq<Task>, path: string)
    requires AddAll(tasks).Ok? && path in AddAll(tasks).value
    ensures AddAll(tasks).value[path].path == path
    decreases |tasks|
  {
    if path != tasks[|tasks| - 1].path {
      AddedKey(tasks[..|tasks| - 1], path);
    }
  }

  /** And it reports a value too many exactly if some line has more than two semicolons, before any other error. */
  lemma {:induction false} ParseFails(lines: seq<string>)
    ensures ParseAll(lines).Err? <==> exists i :: 0 <= i < |lines| && Semicolons(lines[i]) > 2
    ensures ParseAll(lines).Err? ==> ParseAll(lines).error == IndexOutOfRange
    decreases |lines|
  {
    hide Split, Trim;
    if lines != [] {
      ParseFails(lines[..|lines| - 1]);
      SplitCount(lines[|lines| - 1]);
      assert forall k :: 0 <= k < |lines| - 1 ==> lines[..|lines| - 1][k] == lines[k];
    }
  }

  /** A line with fewer values leaves the last fields null. */
  lemma ShortLines(a: string, b: string)
    requires NoSemicolon(a) && NoSemicolon(b)
    ensures SplitAndFill(a) == Ok(Task(Trim(a), None, None))
    ensures SplitAndFill(a + ";" + b) == Ok(Task(Trim(a), Some(Trim(b)), None))
  {
    hide Trim;
    SplitNone(a);
    SplitNone(b);
    SplitAtFirst(a, b);
  }

  /** A null is written as nothing and read back as an empty text. */
  lemma NullsAreEmpty(path: string)
    requires Clean(path)
    ensures LineOf(Task(path, None, None)) == path + "; ; "
    ensures SplitAndFill(LineOf(Task(path, None, None))) == Ok(Task(path, Some(""), Some("")))
  {
    hide Trim, IsTrimmed;
    var t := Task(path, None, None);
    assert path + "; " + "" + "; " + "" == path + "; ; ";
    LineParts(t);
    TrimSpace("");
    TrimFixed("");
    TrimFixed(path);
    assert IsTrimmed("") by {
      NoCharacters();
    }
  }

  lemma NoCharacters()
    ensures IsTrimmed("")
  {
  }

  /** The last line may do without a break. */
  lemma LastLine(line: string)
    requires line != "" && NoBreak(line)
    ensures ReadLines(line) == [line]
  {
    NoBreakLength(line);
  }

  lemma {:induction false} NoBreakLength(line: string)
    requires NoBreak(line)
    ensures LineLength(line) == |line|
    decreases |line|
  {
    if line != "" {
      NoBreakLength(line[1..]);
    }
  }

  /** A line ends at a line feed, with or without a carriage return before it, and at a carriage return alone. */
  lemma OneLine(line: string, lineBreak: string, rest: string)
    requires NoBreak(line)
    requires lineBreak == "\n" || lineBreak == "\r\n" || (lineBreak == "\r" && rest != "" && rest[0] != '\n')
    ensures ReadLines(line + lineBreak + rest) == [line] + ReadLines(rest)
  {
    hide LineLength;
    var s := line + lineBreak + rest;
    assert s == line + (lineBreak + rest);
    LineEnds(line, lineBreak + rest);
    assert s[..|line|] == line && s[|line| + |lineBreak|..] == rest;
    if lineBreak == "\r\n" {
      assert s[|line|] == '\r' && s[|line| + 1] == '\n';
    } else {
      assert s[|line|] == lineBreak[0];
      assert rest != "" ==> s[|line| + 1] == rest[0];
    }
  }

  // ---------------------------------------------------------------------------------------------
  // What a file of any tasks reads back as

  lemma {:induction false} LineLengthAppend(a: string, rest: string)
    requires a != "" && a[|a| - 1] == '\n'
    ensures LineLength(a) < |a| && LineLength(a + rest) == LineLength(a)
    ensures a[LineLength(a)] == (a + rest)[LineLength(a)] && IsBreak(a[LineLength(a)]) && NoBreak(a[..LineLength(a)])
    decreases |a|
  {
    if !IsBreak(a[0]) {
      assert (a + rest)[1..] == a[1..] + rest;
      LineLengthAppend(a[1..], rest);
      var n := LineLength(a[1..]);
      assert a[..n + 1] == [a[0]] + a[1..][..n];
    }
  }

  /** The length of the line break at n. */
  function BreakLength(s: string, n: nat): nat
    requires n < |s|
  {
    if s[n] == '\r' && n + 1 < |s| && s[n + 1] == '\n' then 2 else 1
  }

  lemma BreakStays(a: string, rest: string, n: nat)
    requires a != "" && a[|a| - 1] == '\n' && n < |a|
    ensures n + BreakLength(a, n) <= |a| && BreakLength(a + rest, n) == BreakLength(a, n)
  {
  }

  lemma ReadFirst(s: string)
    requires LineLength(s) < |s|
    ensures var n := LineLength(s);
            && n + BreakLength(s, n) <= |s|
            && ReadLines(s) == [s[..n]] + ReadLines(s[n + BreakLength(s, n)..])
  {
    hide LineLength;
  }

  /** Reading a file starts afresh after every line feed. */
  lemma {:induction false} ReadLinesAppend(a: string, rest: string)
    requires a == "" || a[|a| - 1] == '\n'
    ensures ReadLines(a + rest) == ReadLines(a) + ReadLines(rest)
    decreases |a|
  {
    hide LineLength, IsBreak, ReadLines, BreakLength;
    if a == "" {
      assert a + rest == rest;
      NoLines();
      return;
    }
    var (s, n) := (a + rest, LineLength(a));
    LineLengthAppend(a, rest);
    BreakStays(a, rest, n);
    var next := n + BreakLength(a, n);
    ReadFirst(a);
    ReadFirst(s);
    assert s[..n] == a[..n] && s[next..] == a[next..] + rest;
    ReadLinesAppend(a[next..], rest);
  }

  /** A text that is read as one line is that line, or that line and a carriage return. */
  lemma ReadAsOne(line: string, newLine: string)
    requires IsNewLine(newLine)
    ensures |ReadLines(line + newLine)| >= 1
    ensures |ReadLines(line + newLine)| == 1 ==>
              var read := ReadLines(line + newLine)[0]; NoBreak(read) && (line == read || line == read + "\r")
  {
    hide LineLength, NoBreak, ReadLines, BreakLength;
    var s := line + newLine;
    var n := LineLength(s);
    LineLengthAppend(s, "");
    ReadFirst(s);
    BreakStays(s, "", n);
    var next := n + BreakLength(s, n);
    if next < |s| {
      var rest := s[next..];
      LineLengthAppend(rest, "");
      ReadFirst(rest);
    } else {
      assert s[next..] == "";
      NoLines();
      OneBreak(line, newLine, n);
    }
  }

  lemma OneBreak(line: string, newLine: string, n: nat)
    requires IsNewLine(newLine) && n < |line + newLine|
    requires var s := line + newLine; n + BreakLength(s, n) == |s| && NoBreak(s[..n])
    ensures var read := (line + newLine)[..n]; line == read || line == read + "\r"
  {
    var s := line + newLine;
    assert IsBreak(s[|line|]);
    forall k | 0 <= k < n
      ensures !IsBreak(s[k])
    {
      assert s[..n][k] == s[k];
    }
    if n < |line| {
      assert line == s[..n] + [s[n]];
    } else {
      assert line == s[..n];
    }
  }

  /** How much there is in a task; every change that reading a line makes takes some of it away. */
  function Weight(t: Task): nat {
    |t.path| + |Shown(t.audioUrl)| + |Shown(t.taskId)|
    + (if t.audioUrl.None? then 1 else 0) + (if t.taskId.None? then 1 else 0)
  }

  function TotalWeight(tasks: seq<Task>): nat {
    if tasks == [] then 0 else TotalWeight(tasks[..|tasks| - 1]) + Weight(tasks[|tasks| - 1])
  }

  lemma TrimShrinks(s: string)
    ensures |Trim(s)| <= |s| && (|Trim(s)| == |s| ==> Trim(s) == s)
  {
    hide TrimEnd;
    TrimStartShrinks(s);
    TrimEndResult(TrimStart(s));
  }

  lemma {:induction false} TrimStartShrinks(s: string)
    ensures |TrimStart(s)| <= |s| && (|TrimStart(s)| == |s| ==> TrimStart(s) == s)
    decreases |s|
  {
    if s != "" && IsSpace(s[0]) {
      TrimStartShrinks(s[1..]);
    }
  }

  lemma LineWeighs(t: Task)
    requires SplitAndFill(LineOf(t)).Ok?
    ensures var read := SplitAndFill(LineOf(t)).value;
            Weight(read) <= Weight(t) && (Weight(read) == Weight(t) ==> read == t && Storable(t))
  {
    hide Split, Trim, IsTrimmed, LineOf, NoSemicolon;
    var (p, u, i) := (t.path, Shown(t.audioUrl), Shown(t.taskId));
    NoneCounted(p);
    NoneCounted(u);
    NoneCounted(i);
    LineCount(t);
    SplitCount(LineOf(t));
    LineParts(t);
    TrimSpace(u);
    TrimSpace(i);
    TrimShrinks(p);
    TrimShrinks(u);
    TrimShrinks(i);
    LineRoundTrip(t);
  }

  /** The same for a line that is read as one line. */
  lemma OneLineWeighs(t: Task, newLine: string)
    requires IsNewLine(newLine) && |ReadLines(LineOf(t) + newLine)| == 1
    requires SplitAndFill(ReadLines(LineOf(t) + newLine)[0]).Ok?
    ensures var read := SplitAndFill(ReadLines(LineOf(t) + newLine)[0]).value;
            Weight(read) <= Weight(t) && (Weight(read) == Weight(t) ==> Fits(t))
  {
    hide ReadLines, SplitAndFill, Storable, NoBreak, LineOf;
    ReadAsOne(LineOf(t), newLine);
    var line := ReadLines(LineOf(t) + newLine)[0];
    if LineOf(t) == line {
      LineWeighs(t);
    } else {
      var shorter := WithoutReturn(t, line);
      LineWeighs(shorter);
    }
  }

  /** Only the task id can end in the carriage return that its line ends in. */
  lemma WithoutReturn(t: Task, line: string) returns (shorter: Task)
    requires LineOf(t) == line + "\r"
    ensures LineOf(shorter) == line && Weight(shorter) < Weight(t)
  {
    var id := Shown(t.taskId);
    var front := t.path + "; " + Shown(t.audioUrl) + "; ";
    assert LineOf(t) == front + id;
    assert LineOf(t)[|LineOf(t)| - 1] == '\r';
    assert front[|front| - 1] == ' ';
    assert LineOf(t)[|LineOf(t)| - 1] == if id == "" then ' ' else id[|id| - 1];
    shorter := t.(taskId := Some(id[..|id| - 1]));
    assert LineOf(shorter) == front + id[..|id| - 1] == (front + id)[..|line|];
  }

  lemma {:induction false} ParsedAt(lines: seq<string>)
    requires ParseAll(lines).Ok?
    ensures |ParseAll(lines).value| == |lines|
    decreases |lines|
  {
    hide SplitAndFill;
    if lines != [] {
      ParsedAt(lines[..|lines| - 1]);
    }
  }

  lemma {:induction false} ParsedMore(a: seq<string>, line: string)
    ensures ParseAll(a + [line]) ==
            match ParseAll(a)
            case Err(error) => Err(error)
            case Ok(before) => (match SplitAndFill(line) case Err(error) => Err(error) case Ok(t) => Ok(before + [t]))
  {
    hide SplitAndFill;
    assert (a + [line])[..|a + [line]| - 1] == a;
  }

  lemma {:induction false} EndsWithFeed(tasks: seq<Task>, newLine: string)
    requires IsNewLine(newLine)
    ensures FileOf(tasks, newLine) == "" || FileOf(tasks, newLine)[|FileOf(tasks, newLine)| - 1] == '\n'
    decreases |tasks|
  {
    hide LineOf;
    if tasks != [] {
      EndsWithFeed(tasks[1..], newLine);
    }
  }

  lemma FileLast(tasks: seq<Task>, newLine: string)
    requires IsNewLine(newLine) && tasks != []
    ensures var (front, last) := (tasks[..|tasks| - 1], tasks[|tasks| - 1]);
            ReadLines(FileOf(tasks, newLine)) == ReadLines(FileOf(front, newLine)) + ReadLines(LineOf(last) + newLine)
  {
    hide LineOf, ReadLines, FileOf;
    var (front, last) := (tasks[..|tasks| - 1], tasks[|tasks| - 1]);
    assert front + [last] == tasks;
    FileAppend(front, last, newLine);
    EndsWithFeed(front, newLine);
    assert FileOf(front, newLine) + LineOf(last) + newLine == FileOf(front, newLine) + (LineOf(last) + newLine);
    ReadLinesAppend(FileOf(front, newLine), LineOf(last) + newLine);
  }

  lemma {:induction false} EnoughLines(tasks: seq<Task>, newLine: string)
    requires IsNewLine(newLine)
    ensures |ReadLines(FileOf(tasks, newLine))| >= |tasks|
    decreases |tasks|
  {
    hide LineOf, ReadLines, FileOf;
    if tasks != [] {
      EnoughLines(tasks[..|tasks| - 1], newLine);
      FileLast(tasks, newLine);
      ReadAsOne(LineOf(tasks[|tasks| - 1]), newLine);
    }
  }

  /** A file that reads back as as many tasks as were written has lost weight, unless they all fit. */
  lemma {:induction false} FileWeighs(tasks: seq<Task>, newLine: string)
    requires IsNewLine(newLine) && |ReadLines(FileOf(tasks, newLine))| == |tasks|
    requires ParseAll(ReadLines(FileOf(tasks, newLine))).Ok?
    ensures var read := ParseAll(ReadLines(FileOf(tasks, newLine))).value;
            && TotalWeight(read) <= TotalWeight(tasks)
            && (TotalWeight(read) == TotalWeight(tasks) ==> forall i :: 0 <= i < |tasks| ==> Fits(tasks[i]))
    decreases |tasks|
  {
    hide LineOf, ReadLines, FileOf, SplitAndFill, Fits, Weight, ParseAll;
    var lines := ReadLines(FileOf(tasks, newLine));
    ParsedAt(lines);
    if tasks != [] {
      var (front, last) := (tasks[..|tasks| - 1], tasks[|tasks| - 1]);
      var before := ReadLines(FileOf(front, newLine));
      FileLast(tasks, newLine);
      EnoughLines(front, newLine);
      ReadAsOne(LineOf(last), newLine);
      var line := ReadLines(LineOf(last) + newLine)[0];
      assert lines == before + [line];
      ParsedMore(before, line);
      FileWeighs(front, newLine);
      OneLineWeighs(last, newLine);
      var read := ParseAll(before).value;
      assert (read + [SplitAndFill(line).value])[..|read|] == read;
      if TotalWeight(ParseAll(lines).value) == TotalWeight(tasks) {
        forall i | 0 <= i < |tasks|
          ensures Fits(tasks[i])
        {
          if i < |front| {
            assert tasks[i] == front[i];
          }
        }
      }
    }
  }

  // ---------------------------------------------------------------------------------------------
  // Exactly when a reload rebuilds the dictionary

  function Without(tasks: seq<Task>, j: nat): seq<Task>
    requires j < |tasks|
  {
    tasks[..j] + tasks[j + 1..]
  }

  lemma AddMore(tasks: seq<Task>, t: Task)
    ensures AddAll(tasks + [t]) ==
            match AddAll(tasks)
            case Err(error) => Err(error)
            case Ok(before) => if t.path in before then Err(DuplicateKey) else Ok(before[t.path := t])
    ensures TotalWeight(tasks + [t]) == TotalWeight(tasks) + Weight(t)
  {
    hide Weight;
    assert (tasks + [t])[..|tasks + [t]| - 1] == tasks;
  }

  lemma DropAfterAdd(before: Tasks, path: string, t: Task)
    requires t.path !in before
    ensures before[t.path := t] - {t.path} == before
    ensures path != t.path ==> (before - {path})[t.path := t] == before[t.path := t] - {path}
  {
  }

  lemma {:induction false} TakenOut(tasks: seq<Task>, j: nat)
    requires j < |tasks| && AddAll(tasks).Ok?
    ensures AddAll(Without(tasks, j)) == Ok(AddAll(tasks).value - {tasks[j].path})
    ensures TotalWeight(tasks) == TotalWeight(Without(tasks, j)) + Weight(tasks[j])
    decreases |tasks|
  {
    hide Weight, AddAll, TotalWeight;
    var (front, last) := (tasks[..|tasks| - 1], tasks[|tasks| - 1]);
    assert front + [last] == tasks;
    AddMore(front, last);
    DropAfterAdd(AddAll(front).value, tasks[j].path, last);
    if j == |tasks| - 1 {
      assert Without(tasks, j) == front;
    } else {
      TakenOut(front, j);
      assert Without(tasks, j) == Without(front, j) + [last];
      AddMore(Without(front, j), last);
      AddedAll(front);
      assert tasks[j] == front[j] && front[j] in front;
    }
  }

  /** The weight is that of the dictionary, in whatever order it was filled. */
  lemma {:induction false} SameWeight(a: seq<Task>, b: seq<Task>)
    requires AddAll(a).Ok? && AddAll(b) == AddAll(a)
    ensures TotalWeight(a) == TotalWeight(b)
    decreases |a|
  {
    hide Weight, AddAll;
    AddedAll(a);
    AddedAll(b);
    if a != [] {
      var last := a[|a| - 1];
      assert last in a;
      var j :| 0 <= j < |b| && b[j] == last;
      TakenOut(a, |a| - 1);
      TakenOut(b, j);
      assert Without(a, |a| - 1) == a[..|a| - 1];
      SameWeight(a[..|a| - 1], Without(b, j));
    }
  }

  lemma RebuiltMeansFits(stored: seq<Task>, newLine: string)
    requires IsNewLine(newLine) && AddAll(stored).Ok? && Load(FileOf(stored, newLine)) == AddAll(stored)
    ensures (forall i :: 0 <= i < |stored| ==> Fits(stored[i])) && !BeginsWithMark(FileOf(stored, newLine))
  {
    hide LineOf, ReadLines, Fits, AddAll, ParseAll, Weight;
    AddedAll(stored);
    var file := FileOf(stored, newLine);
    if BeginsWithMark(file) {
      var shorter := WithoutFirst(stored, newLine);
      var read := ParseAll(ReadLines(FileOf(shorter, newLine))).value;
      AddedAll(read);
      ParsedAt(ReadLines(FileOf(shorter, newLine)));
      FileWeighs(shorter, newLine);
      SameWeight(stored, read);
    } else {
      var read := ParseAll(ReadLines(file)).value;
      AddedAll(read);
      ParsedAt(ReadLines(file));
      FileWeighs(stored, newLine);
      SameWeight(stored, read);
    }
  }

  /** What is left of a file that begins with a byte order mark is the file of a shorter path. */
  lemma WithoutFirst(stored: seq<Task>, newLine: string) returns (shorter: seq<Task>)
    requires IsNewLine(newLine) && BeginsWithMark(FileOf(stored, newLine))
    ensures FileOf(shorter, newLine) == WithoutMark(FileOf(stored, newLine))
    ensures |shorter| == |stored| && TotalWeight(shorter) < TotalWeight(stored)
  {
    hide Weight;
    var (first, rest) := (stored[0], stored[1..]);
    var file := FileOf(stored, newLine);
    assert file == LineOf(first) + newLine + FileOf(rest, newLine);
    assert file[0] == LineOf(first)[0];
    assert LineOf(first)[0] == if first.path == "" then ';' else first.path[0];
    var less := first.(path := first.path[1..]);
    shorter := [less] + rest;
    assert LineOf(less) == LineOf(first)[1..];
    assert shorter[1..] == rest;
    assert file[1..] == LineOf(first)[1..] + newLine + FileOf(rest, newLine);
    assert [first] + rest == stored;
    Lighter(first, less, rest);
  }

  lemma {:induction false} Lighter(a: Task, b: Task, rest: seq<Task>)
    requires b == a.(path := b.path) && |b.path| < |a.path|
    ensures TotalWeight([b] + rest) < TotalWeight([a] + rest)
    decreases |rest|
  {
    var (x, y) := ([a] + rest, [b] + rest);
    if rest != [] {
      assert x[..|x| - 1] == [a] + rest[..|rest| - 1] && y[..|y| - 1] == [b] + rest[..|rest| - 1];
      Lighter(a, b, rest[..|rest| - 1]);
    } else {
      var none: seq<Task> := [];
      assert x[..0] == none && y[..0] == none;
    }
  }

  /** After any sequence of storeTask calls, a reload of the file meets no exception and rebuilds exactly the
      dictionary in memory if and only if every task in it fits its line and the first path stored does not
      begin with a byte order mark. */
  lemma ReloadRebuilds(tasks: seq<Task>, newLine: string)
    requires IsNewLine(newLine)
    ensures var s := StoreAll(State("", map[]), tasks, newLine);
            Load(s.file) == Ok(s.tasks) <==>
              (forall path :: path in s.tasks ==> Fits(s.tasks[path]))
              && (tasks != [] ==> !BeginsWithMark(tasks[0].path))
  {
    hide LineOf, Fits, Storable, ReadLines, AddAll, FileOf, StoreAll;
    var s := StoreAll(State("", map[]), tasks, newLine);
    var stored := StoredAgree(tasks, newLine);
    AddedAll(stored);
    FirstMark(stored, newLine);
    if forall i :: 0 <= i < |stored| ==> Fits(stored[i]) {
      forall path | path in s.tasks
        ensures Fits(s.tasks[path])
      {
        AddedPath(stored, path);
      }
      FittingLines(stored);
      FileLines(stored, newLine);
      ParsesBack(stored);
      if Load(s.file) == Ok(s.tasks) {
        RebuiltMeansFits(stored, newLine);
      }
    } else {
      var i :| 0 <= i < |stored| && !Fits(stored[i]);
      assert stored[i] in stored;
      if Load(s.file) == Ok(s.tasks) {
        RebuiltMeansFits(stored, newLine);
        assert false;
      }
    }
  }

  /** A path with a semicolon is such a task. */
  lemma SemicolonIsLost()
    ensures var s := StoreAll(State("", map[]), [Task("a;b", Some("u"), Some("1"))], "\n"); Load(s.file) != Ok(s.tasks)
  {
    hide Load, LineOf;
    var t := Task("a;b", Some("u"), Some("1"));
    assert t.path[1] == ';' && !Fits(t);
    var s := StoreAll(State("", map[]), [t], "\n");
    var none: seq<Task> := [];
    assert StoreAll(State("", map[]), none, "\n") == State("", map[]);
    assert [t][..0] == none && "a;b" in s.tasks && s.tasks["a;b"] == t;
    ReloadRebuilds([t], "\n");
  }

  lemma FittingLines(tasks: seq<Task>)
    requires forall i :: 0 <= i < |tasks| ==> Fits(tasks[i])
    ensures forall i :: 0 <= i < |tasks| ==> Storable(tasks[i]) && NoBreak(LineOf(tasks[i]))
  {
    hide LineOf, Storable;
  }

  lemma {:induction false} AddedPath(tasks: seq<Task>, path: string)
    requires AddAll(tasks).Ok? && path in AddAll(tasks).value
    ensures AddAll(tasks).value[path] in tasks
    decreases |tasks|
  {
    var front := tasks[..|tasks| - 1];
    if path != tasks[|tasks| - 1].path {
      AddedPath(front, path);
      assert forall t :: t in front ==> t in tasks;
    }
  }

  lemma FirstMark(stored: seq<Task>, newLine: string)
    ensures BeginsWithMark(FileOf(stored, newLine)) <==> stored != [] && BeginsWithMark(stored[0].path)
  {
    if stored != [] {
      var line := LineOf(stored[0]);
      assert FileOf(stored, newLine) == line + newLine + FileOf(stored[1..], newLine);
      assert FileOf(stored, newLine)[0] == line[0];
      assert line[0] == if stored[0].path == "" then ';' else stored[0].path[0];
    }
  }
}
