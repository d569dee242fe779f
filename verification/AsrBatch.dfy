/** asr-batch: recognition jobs kept as objects in a bucket, a log entry for each input. */
module AsrBatch {
  import opened Wrappers

  type Key = string

  /** The three prefixes of the bucket's layout. */
  datatype Layout = Layout(input: string, log: string, output: string)

  /** What a log object says about a job; None is a field that is not there. */
  datatype Entry = Entry(id: Option<string>, done: Option<bool>)

  /** A piece of the recognised text, or one that lacks a field the program reads. */
  datatype Chunk = Chunk(channelTag: string, alternatives: seq<string>) | Broken

  /** What the operations service says about an operation. */
  datatype Reply = Reply(done: bool, chunks: Option<seq<Chunk>>)

  /** The request fails; its answer is no JSON, or lacks a field that is read at once; or all is well. */
  datatype Answer = NoAnswer | Garbled | Answered(reply: Reply)

  /** The answer as it is stored: it names the operation that was asked for. */
  datatype Result = Result(id: string, done: bool, chunks: Option<seq<Chunk>>)

  datatype Content = Audio | Log(entry: Entry) | Json(result: Result) | Text(text: string)

  type Objects = map<Key, Content>

  /** The bucket, and the inputs submitted for recognition so far. */
  datatype State = State(objects: Objects, submitted: seq<Key>)

  // ---------------------------------------------------------------------------------------------
  // Keys

  predicate EndsWith(s: string, suffix: string) {
    |s| >= |suffix| && s[|s| - |suffix|..] == suffix
  }

  function LogKey(layout: Layout, key: Key): Key
    requires layout.input <= key
  {
    layout.log + key[|layout.input|..] + ".json"
  }

  function ResultKey(layout: Layout, logKey: Key): Key
    requires layout.log <= logKey
  {
    layout.output + logKey[|layout.log|..]
  }

  /** A listed log object whose key the program takes for a log entry. */
  predicate IsLogKey(layout: Layout, key: Key) {
    layout.log <= key && EndsWith(key, ".json") && |key| >= |layout.log| + 5
  }

  function TextKey(layout: Layout, logKey: Key): Key
    requires IsLogKey(layout, logKey)
  {
    var resultKey := ResultKey(layout, logKey);
    resultKey[..|resultKey| - 5] + ".txt"
  }

  /** A key as the listing of the log prefix gives it; the prefix itself does not end within ".json". */
  predicate Listed(layout: Layout, key: Key) {
    layout.log <= key && (EndsWith(key, ".json") ==> IsLogKey(layout, key))
  }

  /** Neither of the log and output prefixes is a prefix of the other. */
  predicate Separate(layout: Layout) {
    !(layout.log <= layout.output) && !(layout.output <= layout.log)
  }

  lemma NotPrefix(a: string, b: string, s: string)
    requires b <= s && !(a <= b) && !(b <= a)
    ensures !(a <= s)
  {
    if |a| <= |b| {
      assert b[..|a|] == s[..|a|];
    } else if |a| <= |s| {
      assert s[..|a|][..|b|] == b;
    }
  }

  /** Distinct inputs never share a log key. */
  lemma LogKeysDistinct(layout: Layout, a: Key, b: Key)
    requires layout.input <= a && layout.input <= b && LogKey(layout, a) == LogKey(layout, b)
    ensures a == b
  {
    var n := |layout.log|;
    assert LogKey(layout, a)[n..] == a[|layout.input|..] + ".json";
    assert LogKey(layout, b)[n..] == b[|layout.input|..] + ".json";
    var (x, y) := (a[|layout.input|..], b[|layout.input|..]);
    assert (x + ".json")[..|x|] == x && (y + ".json")[..|y|] == y;
    assert a == layout.input + x && b == layout.input + y;
  }

  lemma LogKeyIsLogKey(layout: Layout, key: Key)
    requires layout.input <= key
    ensures IsLogKey(layout, LogKey(layout, key))
  {
    var s := LogKey(layout, key);
    assert s[|s| - 5..] == ".json";
  }

  /** The log key without its prefix and its ".json". */
  function Stem(layout: Layout, logKey: Key): string
    requires IsLogKey(layout, logKey)
  {
    logKey[|layout.log|..|logKey| - 5]
  }

  lemma KeysFromStem(layout: Layout, logKey: Key)
    requires IsLogKey(layout, logKey)
    ensures var stem := Stem(layout, logKey);
            && logKey == layout.log + stem + ".json"
            && ResultKey(layout, logKey) == layout.output + stem + ".json"
            && TextKey(layout, logKey) == layout.output + stem + ".txt"
  {
    var stem := Stem(layout, logKey);
    assert logKey == logKey[..|logKey| - 5] + logKey[|logKey| - 5..];
    assert logKey[|layout.log|..] == stem + ".json";
    var resultKey := ResultKey(layout, logKey);
    assert resultKey == (layout.output + stem) + ".json";
    assert resultKey[..|resultKey| - 5] == layout.output + stem;
  }

  lemma SameStem(a: string, x: string, y: string, b: string)
    requires a + x + b == a + y + b
    ensures x == y
  {
    assert |x| == |y|;
    assert (a + x + b)[|a|..|a| + |x|] == x && (a + y + b)[|a|..|a| + |y|] == y;
  }

  lemma EndsDiffer(p: string, q: string)
    ensures p + ".json" != q + ".txt"
  {
    var (s, t) := (p + ".json", q + ".txt");
    assert s[|s| - 1] == 'n' && t[|t| - 1] == 't';
  }

  /** Distinct log entries never share an output key, neither of one kind nor of the two kinds. */
  lemma OutputKeysDistinct(layout: Layout, a: Key, b: Key)
    requires IsLogKey(layout, a) && IsLogKey(layout, b)
    ensures ResultKey(layout, a) == ResultKey(layout, b) ==> a == b
    ensures TextKey(layout, a) == TextKey(layout, b) ==> a == b
    ensures ResultKey(layout, a) != TextKey(layout, b)
  {
    hide ResultKey, TextKey, IsLogKey, Stem;
    KeysFromStem(layout, a);
    KeysFromStem(layout, b);
    var (x, y) := (Stem(layout, a), Stem(layout, b));
    if ResultKey(layout, a) == ResultKey(layout, b) {
      SameStem(layout.output, x, y, ".json");
    }
    if TextKey(layout, a) == TextKey(layout, b) {
      SameStem(layout.output, x, y, ".txt");
    }
    EndsDiffer(layout.output + x, layout.output + y);
  }

  /** With separate prefixes no output is ever taken for a log entry. */
  lemma OutputsAreNoLogs(layout: Layout, logKey: Key)
    requires Separate(layout) && IsLogKey(layout, logKey)
    ensures !(layout.log <= ResultKey(layout, logKey)) && !(layout.log <= TextKey(layout, logKey))
  {
    KeysFromStem(layout, logKey);
    NotPrefix(layout.log, layout.output, ResultKey(layout, logKey));
    NotPrefix(layout.log, layout.output, TextKey(layout, logKey));
  }

  // ---------------------------------------------------------------------------------------------
  // The transcript

  function Lines(alternatives: seq<string>): string {
    if alternatives == [] then ""
    else Lines(alternatives[..|alternatives| - 1]) + (alternatives[|alternatives| - 1] + "\n")
  }

  /** The alternatives of the chunks of channel 1, one a line. */
  function Transcript(chunks: seq<Chunk>): string {
    if chunks == [] then ""
    else
      var last := chunks[|chunks| - 1];
      Transcript(chunks[..|chunks| - 1])
      + (if last.Chunk? && last.channelTag == "1" then Lines(last.alternatives) else "")
  }

  predicate Readable(chunks: seq<Chunk>) {
    forall i :: 0 <= i < |chunks| ==> chunks[i].Chunk?
  }

  lemma TranscriptStep(chunks: seq<Chunk>, i: nat)
    requires i < |chunks|
    ensures Transcript(chunks[..i + 1]) == Transcript(chunks[..i])
            + (if chunks[i].Chunk? && chunks[i].channelTag == "1" then Lines(chunks[i].alternatives) else "")
    ensures Readable(chunks[..i + 1]) <==> Readable(chunks[..i]) && chunks[i].Chunk?
    ensures chunks[i].Broken? ==> !Readable(chunks)
  {
    hide Lines;
    assert chunks[..i + 1][..i] == chunks[..i];
  }

  lemma LinesStep(before: string, alternatives: seq<string>, i: nat)
    requires i < |alternatives|
    ensures before + Lines(alternatives[..i + 1]) == before + Lines(alternatives[..i]) + (alternatives[i] + "\n")
  {
    assert alternatives[..i + 1][..i] == alternatives[..i];
    assert before + (Lines(alternatives[..i]) + (alternatives[i] + "\n"))
           == before + Lines(alternatives[..i]) + (alternatives[i] + "\n");
  }

  lemma NoLines(before: string)
    ensures before + Lines([]) == before
  {
  }

  lemma NoTranscript()
    ensures Transcript([]) == "" && Readable([])
  {
  }

  // ---------------------------------------------------------------------------------------------
  // One object

  /** The outcome of a POST: no job is created; a job is created and its description arrives; a job is
      created and the answer is lost, which looks like a refusal. */
  datatype Response = Refused | Accepted(body: Entry) | LostReply

  /** An input object as the listing names it, and how the calls made for it come out. A failing HEAD
      looks like an object that is not there. If `uncaught`, a GET or PUT that fails does so with an error
      other than a ClientError, which the program does not catch. */
  datatype InputEvent = InputEvent(key: Key, headFails: bool, response: Response, putOk: bool, uncaught: bool)

  datatype CheckEvent = CheckEvent(key: Key, getOk: bool, answer: Answer, jsonOk: bool, textOk: bool, logOk: bool,
                                   uncaught: bool)

  /** The state afterwards, and whether an exception ended the script. */
  datatype Outcome = Outcome(state: State, crashed: bool)

  const SUFFIXES: seq<string> := [".mp3", ".wav", ".ogg"]

  function LowerChar(ch: char): char {
    if 'A' <= ch <= 'Z' then (ch as int + 32) as char else ch
  }

  function Lowered(s: string): (lower: string)
    ensures |lower| == |s|
  {
    seq(|s|, i requires 0 <= i < |s| => LowerChar(s[i]))
  }

  predicate IsAudio(key: Key) {
    exists k :: 0 <= k < 3 && EndsWith(Lowered(key), SUFFIXES[k])
  }

  /** The log entry a response becomes: itself, or a placeholder if its id is empty. */
  function EntryOf(body: Entry): Entry {
    if body.id == Some("") then Entry(None, None) else body
  }

  function ProcessOne(layout: Layout, s: State, e: InputEvent): Outcome
    requires layout.input <= e.key
  {
    var logKey := LogKey(layout, e.key);
    if !IsAudio(e.key) || (logKey in s.objects && !e.headFails) then Outcome(s, false)
    else
      match e.response
      case Refused => Outcome(s, false)
      case LostReply => Outcome(s.(submitted := s.submitted + [e.key]), false)
      case Accepted(body) =>
        if body.id.None? then Outcome(s.(submitted := s.submitted + [e.key]), true)
        else if e.putOk then
          Outcome(State(s.objects[logKey := Log(EntryOf(body))], s.submitted + [e.key]), false)
        else Outcome(s.(submitted := s.submitted + [e.key]), e.uncaught)
  }

  function ResultOf(id: string, reply: Reply): Result {
    Result(id, reply.done, reply.chunks)
  }

  function Finish(layout: Layout, objects: Objects, e: CheckEvent, result: Result): Objects
    requires IsLogKey(layout, e.key)
  {
    if !e.jsonOk then objects
    else
      var withJson := objects[ResultKey(layout, e.key) := Json(result)];
      if result.chunks.Some? && (!Readable(result.chunks.value) || !e.textOk) then withJson
      else
        var withText :=
          if result.chunks.Some? then withJson[TextKey(layout, e.key) := Text(Transcript(result.chunks.value))]
          else withJson;
        if e.logOk then withText[e.key := Log(Entry(Some(result.id), Some(true)))] else withText
  }

  /** Whether an exception ends it: a chunk that cannot be read, or an error that is not caught. */
  predicate FinishCrashes(e: CheckEvent, result: Result) {
    if !e.jsonOk then e.uncaught
    else if result.chunks.Some? && !Readable(result.chunks.value) then true
    else if result.chunks.Some? && !e.textOk then e.uncaught
    else !e.logOk && e.uncaught
  }

  /** The fields `id` and `done` of an object, if it is a JSON object; a stored result has both. */
  function EntryIn(content: Content): Option<Entry> {
    match content
    case Log(entry) => Some(entry)
    case Json(result) => Some(Entry(Some(result.id), Some(result.done)))
    case Audio => None
    case Text(_) => None
  }

  function CheckOne(layout: Layout, s: State, e: CheckEvent): Outcome
    requires Listed(layout, e.key)
  {
    if !EndsWith(e.key, ".json") then Outcome(s, false)
    else if !e.getOk then Outcome(s, e.uncaught)
    else if e.key !in s.objects then Outcome(s, false)
    else if EntryIn(s.objects[e.key]).None? then Outcome(s, true)
    else
      var entry := EntryIn(s.objects[e.key]).value;
      if entry.id.None? then Outcome(s, true)
      else if entry.id.value == "" then Outcome(s, false)
      else if entry.done.None? then Outcome(s, true)
      else if entry.done.value then Outcome(s, false)
      else
        match e.answer
        case NoAnswer => Outcome(s, false)
        case Garbled => Outcome(s, true)
        case Answered(reply) =>
          if !reply.done then Outcome(s, false)
          else
            var result := ResultOf(entry.id.value, reply);
            Outcome(s.(objects := Finish(layout, s.objects, e, result)), FinishCrashes(e, result))
  }

  // ---------------------------------------------------------------------------------------------
  // The script

  function ProcessAll(layout: Layout, s: State, events: seq<InputEvent>): Outcome
    requires forall i :: 0 <= i < |events| ==> layout.input <= events[i].key
  {
    if events == [] then Outcome(s, false)
    else
      var before := ProcessAll(layout, s, events[..|events| - 1]);
      if before.crashed then before else ProcessOne(layout, before.state, events[|events| - 1])
  }

  function CheckAll(layout: Layout, s: State, events: seq<CheckEvent>): Outcome
    requires forall i :: 0 <= i < |events| ==> Listed(layout, events[i].key)
  {
    if events == [] then Outcome(s, false)
    else
      var before := CheckAll(layout, s, events[..|events| - 1]);
      if before.crashed then before else CheckOne(layout, before.state, events[|events| - 1])
  }

  /** One run of the script: the objects the two listings name, and how every call comes out. */
  datatype Script = Script(inputs: seq<InputEvent>, checks: seq<CheckEvent>)

  predicate ValidScript(layout: Layout, script: Script) {
    && (forall i :: 0 <= i < |script.inputs| ==> layout.input <= script.inputs[i].key)
    && (forall i :: 0 <= i < |script.checks| ==> Listed(layout, script.checks[i].key))
  }

  function RunScript(layout: Layout, s: State, script: Script): State
    requires ValidScript(layout, script)
  {
    var processed := ProcessAll(layout, s, script.inputs);
    if processed.crashed then processed.state else CheckAll(layout, processed.state, script.checks).state
  }

  function RunScripts(layout: Layout, s: State, scripts: seq<Script>): State
    requires forall i :: 0 <= i < |scripts| ==> ValidScript(layout, scripts[i])
  {
    if scripts == [] then s
    else RunScript(layout, RunScripts(layout, s, scripts[..|scripts| - 1]), scripts[|scripts| - 1])
  }

  class Bucket {
    var objects: Objects
    var submitted: seq<Key>

    constructor (objects: Objects)
      ensures this.objects == objects && submitted == []
    {
      this.objects := objects;
      submitted := [];
    }

    function Snapshot(): State
      reads this
    {
      State(objects, submitted)
    }

    method PutObject(key: Key, body: Content, ok: bool)
      modifies this
      ensures objects == (if ok then old(objects)[key := body] else old(objects)) && submitted == old(submitted)
    {
      if ok {
        objects := objects[key := body];
      }
    }

    method ProcessInputObjects(layout: Layout, events: seq<InputEvent>) returns (crashed: bool)
      requires forall i :: 0 <= i < |events| ==> layout.input <= events[i].key
      modifies this
      ensures Outcome(Snapshot(), crashed) == ProcessAll(layout, old(Snapshot()), events)
    {
      hide IsAudio, LogKey, EntryOf;
      ghost var start := Snapshot();
      assert events[..0] == [];
      for i := 0 to |events|
        invariant ProcessAll(layout, start, events[..i]) == Outcome(Snapshot(), false)
      {
        var e := events[i];
        assert events[..i + 1][..i] == events[..i];
        if i + 1 < |events| {
          InputsStop(layout, start, events, i + 1);
        } else {
          assert events[..i + 1] == events;
        }
        if !IsAudio(e.key) {
          continue;
        }
        var keyProcess := LogKey(layout, e.key);
        if keyProcess in objects && !e.headFails {
          continue;
        }
        if !e.response.Refused? {
          submitted := submitted + [e.key];
        }
        if e.response.Accepted? {
          if e.response.body.id.None? {
            return true;
          }
          PutObject(keyProcess, Log(EntryOf(e.response.body)), e.putOk);
          if !e.putOk && e.uncaught {
            return true;
          }
        }
      }
      assert events[..|events|] == events;
      return false;
    }

    /** The text of the chunks is accumulated piece by piece, up to one that cannot be read. */
    static method TextOf(chunks: seq<Chunk>) returns (text: string, ok: bool)
      ensures ok <==> Readable(chunks)
      ensures ok ==> text == Transcript(chunks)
    {
      hide Transcript, Readable, Lines;
      text := "";
      NoTranscript();
      assert chunks[..0] == [];
      for i := 0 to |chunks|
        invariant text == Transcript(chunks[..i])
        invariant Readable(chunks[..i])
      {
        var chunk := chunks[i];
        TranscriptStep(chunks, i);
        if chunk.Broken? {
          return text, false;
        }
        if chunk.channelTag == "1" {
          ghost var before := text;
          var alternatives := chunk.alternatives;
          NoLines(before);
          assert alternatives[..0] == [];
          for j := 0 to |alternatives|
            invariant text == before + Lines(alternatives[..j])
          {
            LinesStep(before, alternatives, j);
            text := text + (alternatives[j] + "\n");
          }
          assert alternatives[..|alternatives|] == alternatives;
        } else {
          assert text + "" == text;
        }
      }
      assert chunks[..|chunks|] == chunks;
      ok := true;
    }

    method CheckProcessingObjects(layout: Layout, events: seq<CheckEvent>) returns (crashed: bool)
      requires forall i :: 0 <= i < |events| ==> Listed(layout, events[i].key)
      modifies this
      ensures Outcome(Snapshot(), crashed) == CheckAll(layout, old(Snapshot()), events)
    {
      hide Transcript, ResultKey, TextKey, EntryIn, Readable;
      ghost var start := Snapshot();
      NoChecks(layout, start);
      hide CheckAll;
      assert events[..0] == [];
      for i := 0 to |events|
        invariant CheckAll(layout, start, events[..i]) == Outcome(Snapshot(), false)
      {
        var e := events[i];
        NextCheck(layout, start, events, i);
        if !EndsWith(e.key, ".json") {
          continue;
        }
        if !e.getOk {
          if e.uncaught {
            return true;
          }
          continue;
        }
        if e.key !in objects {
          continue;
        }
        if EntryIn(objects[e.key]).None? {
          return true;
        }
        var entry := EntryIn(objects[e.key]).value;
        if entry.id.None? {
          return true;
        }
        if entry.id.value == "" {
          continue;
        }
        if entry.done.None? {
          return true;
        }
        if entry.done.value || e.answer.NoAnswer? {
          continue;
        }
        if e.answer.Garbled? {
          return true;
        }
        var result := ResultOf(entry.id.value, e.answer.reply);
        if !result.done {
          continue;
        }
        PutObject(ResultKey(layout, e.key), Json(result), e.jsonOk);
        if !e.jsonOk {
          if e.uncaught {
            return true;
          }
          continue;
        }
        if result.chunks.Some? {
          var text, ok := TextOf(result.chunks.value);
          if !ok {
            return true;
          }
          PutObject(TextKey(layout, e.key), Text(text), e.textOk);
          if !e.textOk {
            if e.uncaught {
              return true;
            }
            continue;
          }
        }
        PutObject(e.key, Log(Entry(Some(entry.id.value), Some(true))), e.logOk);
        if !e.logOk && e.uncaught {
          return true;
        }
      }
      assert events[..|events|] == events;
      return false;
    }
  }

  /** After an exception the remaining objects are not looked at. */
  lemma {:induction false} InputsStop(layout: Layout, s: State, events: seq<InputEvent>, i: nat)
    requires i <= |events|
    requires forall i :: 0 <= i < |events| ==> layout.input <= events[i].key
    ensures ProcessAll(layout, s, events[..i]).crashed
            ==> ProcessAll(layout, s, events) == ProcessAll(layout, s, events[..i])
    decreases |events|
  {
    hide ProcessOne;
    if i < |events| {
      assert events[..|events| - 1][..i] == events[..i];
      InputsStop(layout, s, events[..|events| - 1], i);
    } else {
      assert events[..i] == events;
    }
  }

  lemma {:induction false} ChecksStop(layout: Layout, s: State, events: seq<CheckEvent>, i: nat)
    requires i <= |events|
    requires forall i :: 0 <= i < |events| ==> Listed(layout, events[i].key)
    ensures CheckAll(layout, s, events[..i]).crashed ==> CheckAll(layout, s, events) == CheckAll(layout, s, events[..i])
    decreases |events|
  {
    hide CheckOne;
    if i < |events| {
      assert events[..|events| - 1][..i] == events[..i];
      ChecksStop(layout, s, events[..|events| - 1], i);
    } else {
      assert events[..i] == events;
    }
  }

  lemma NextCheck(layout: Layout, s: State, events: seq<CheckEvent>, i: nat)
    requires i < |events|
    requires forall i :: 0 <= i < |events| ==> Listed(layout, events[i].key)
    requires !CheckAll(layout, s, events[..i]).crashed
    ensures var next := CheckOne(layout, CheckAll(layout, s, events[..i]).state, events[i]);
            CheckAll(layout, s, events[..i + 1]) == next && (next.crashed ==> CheckAll(layout, s, events) == next)
  {
    hide CheckOne, Listed;
    assert events[..i + 1][..i] == events[..i];
    ChecksStop(layout, s, events, i + 1);
  }

  lemma NoChecks(layout: Layout, s: State)
    ensures CheckAll(layout, s, []) == Outcome(s, false)
  {
  }

  /** The module body: first the one loop, then the other. */
  method RunOnce(layout: Layout, bucket: Bucket, script: Script)
    requires ValidScript(layout, script)
    modifies bucket
    ensures bucket.Snapshot() == RunScript(layout, old(bucket.Snapshot()), script)
  {
    var crashed := bucket.ProcessInputObjects(layout, script.inputs);
    if !crashed {
      var _ := bucket.CheckProcessingObjects(layout, script.checks);
    }
  }
}
