/** asr-batch over runs of the script: what is complete, what is submitted, and what stops a pass. */
module AsrRuns {
  import opened Wrappers
  import opened AsrBatch

  // ---------------------------------------------------------------------------------------------
  // A complete entry has its outputs

  /** The result of the operation with that id is stored, and its transcript if it has chunks. */
  predicate HasOutputs(layout: Layout, objects: Objects, logKey: Key, id: Option<string>)
    requires IsLogKey(layout, logKey)
  {
    && ResultKey(layout, logKey) in objects && objects[ResultKey(layout, logKey)].Json?
    && var result := objects[ResultKey(layout, logKey)].result;
       && Some(result.id) == id && result.done
       && (result.chunks.Some? ==> TextKey(layout, logKey) in objects
                                   && objects[TextKey(layout, logKey)] == Text(Transcript(result.chunks.value)))
  }

  predicate IsComplete(content: Content) {
    content.Log? && content.entry.done == Some(true)
  }

  predicate Faithful(layout: Layout, objects: Objects) {
    forall l :: l in objects && IsLogKey(layout, l) && IsComplete(objects[l])
                ==> HasOutputs(layout, objects, l, objects[l].entry.id)
  }

  /** A job that was just accepted, and has an id, is not reported as done. */
  predicate HonestInput(e: InputEvent) {
    e.response.Accepted? && e.response.body.id.Some? && e.response.body.id.value != "" ==>
      e.response.body.done != Some(true)
  }

  lemma LogPrefix(layout: Layout, key: Key)
    requires IsLogKey(layout, key)
    ensures layout.log <= key
  {
  }

  lemma PutLogKeeps(layout: Layout, objects: Objects, logKey: Key, entry: Entry)
    requires Separate(layout) && Faithful(layout, objects) && IsLogKey(layout, logKey)
    requires entry.done == Some(true) ==> HasOutputs(layout, objects, logKey, entry.id)
    ensures Faithful(layout, objects[logKey := Log(entry)])
  {
    hide ResultKey, TextKey, Transcript, IsLogKey;
    var after := objects[logKey := Log(entry)];
    forall l | l in after && IsLogKey(layout, l) && IsComplete(after[l])
      ensures HasOutputs(layout, after, l, after[l].entry.id)
    {
      OutputsAreNoLogs(layout, l);
      LogPrefix(layout, logKey);
    }
  }

  /** Rewriting an output of an entry that is not complete harms no other entry. */
  lemma OutputKeeps(layout: Layout, objects: Objects, logKey: Key, key: Key, content: Content)
    requires Separate(layout) && Faithful(layout, objects) && IsLogKey(layout, logKey)
    requires key == ResultKey(layout, logKey) || key == TextKey(layout, logKey)
    requires logKey in objects && !IsComplete(objects[logKey])
    ensures Faithful(layout, objects[key := content])
    ensures logKey in objects[key := content] && objects[key := content][logKey] == objects[logKey]
  {
    hide ResultKey, TextKey, Transcript, IsLogKey;
    OutputsAreNoLogs(layout, logKey);
    LogPrefix(layout, logKey);
    var after := objects[key := content];
    forall l | l in after && IsLogKey(layout, l) && IsComplete(after[l])
      ensures HasOutputs(layout, after, l, after[l].entry.id)
    {
      LogPrefix(layout, l);
      OutputKeysDistinct(layout, l, logKey);
      OutputKeysDistinct(layout, logKey, l);
    }
  }

  lemma FinishKeeps(layout: Layout, objects: Objects, e: CheckEvent, result: Result)
    requires Separate(layout) && Faithful(layout, objects) && IsLogKey(layout, e.key) && result.done
    requires e.key in objects && !IsComplete(objects[e.key])
    ensures Faithful(layout, Finish(layout, objects, e, result))
  {
    hide ResultKey, TextKey, Transcript, IsLogKey;
    LogPrefix(layout, e.key);
    OutputsAreNoLogs(layout, e.key);
    OutputKeysDistinct(layout, e.key, e.key);
    if e.jsonOk {
      var withJson := objects[ResultKey(layout, e.key) := Json(result)];
      OutputKeeps(layout, objects, e.key, ResultKey(layout, e.key), Json(result));
      var withText :=
        if result.chunks.Some? then withJson[TextKey(layout, e.key) := Text(Transcript(result.chunks.value))]
        else withJson;
      if result.chunks.Some? {
        OutputKeeps(layout, withJson, e.key, TextKey(layout, e.key), Text(Transcript(result.chunks.value)));
      }
      PutLogKeeps(layout, withText, e.key, Entry(Some(result.id), Some(true)));
    }
  }

  /** The answer arrives with an id, even an empty one, and the log entry is stored. */
  predicate Records(e: InputEvent) {
    e.response.Accepted? && e.response.body.id.Some? && e.putOk
  }

  /** A job is submitted, and its description, which says that it is done, stored as the log entry. */
  predicate StoresDone(layout: Layout, s: State, e: InputEvent)
    requires layout.input <= e.key
  {
    && IsAudio(e.key) && (LogKey(layout, e.key) !in s.objects || e.headFails)
    && Records(e) && e.response.body.id != Some("") && e.response.body.done == Some(true)
  }

  /** Exactly when an input object leaves every complete entry with its outputs: not if the service says
      of a job just accepted that it is done, unless the outputs of that very job are stored already. */
  lemma ProcessKeeps(layout: Layout, s: State, e: InputEvent)
    requires Separate(layout) && Faithful(layout, s.objects) && layout.input <= e.key
    ensures IsLogKey(layout, LogKey(layout, e.key))
    ensures Faithful(layout, ProcessOne(layout, s, e).state.objects) <==>
            !(StoresDone(layout, s, e) && !HasOutputs(layout, s.objects, LogKey(layout, e.key), e.response.body.id))
  {
    hide IsAudio, Faithful, LogKey;
    var logKey := LogKey(layout, e.key);
    LogKeyIsLogKey(layout, e.key);
    if StoresDone(layout, s, e) && !HasOutputs(layout, s.objects, logKey, e.response.body.id) {
      Unfounded(layout, s.objects, logKey, e.response.body);
    } else if Records(e) && (StoresDone(layout, s, e) || EntryOf(e.response.body).done != Some(true)) {
      PutLogKeeps(layout, s.objects, logKey, EntryOf(e.response.body));
    }
  }

  lemma Unfounded(layout: Layout, objects: Objects, logKey: Key, entry: Entry)
    requires Separate(layout) && IsLogKey(layout, logKey) && entry.done == Some(true)
    requires !HasOutputs(layout, objects, logKey, entry.id)
    ensures !Faithful(layout, objects[logKey := Log(entry)])
  {
    hide ResultKey, TextKey, Transcript, IsLogKey;
    OutputsAreNoLogs(layout, logKey);
    LogPrefix(layout, logKey);
    var after := objects[logKey := Log(entry)];
    assert !HasOutputs(layout, after, logKey, entry.id);
    assert logKey in after && IsComplete(after[logKey]);
  }

  lemma CheckKeeps(layout: Layout, s: State, e: CheckEvent)
    requires Separate(layout) && Faithful(layout, s.objects) && Listed(layout, e.key)
    ensures Faithful(layout, CheckOne(layout, s, e).state.objects)
  {
    hide Faithful, IsLogKey, Finish;
    if EndsWith(e.key, ".json") && e.key in s.objects && EntryIn(s.objects[e.key]).Some? {
      var entry := EntryIn(s.objects[e.key]).value;
      if entry.id.Some? && entry.done == Some(false) && e.answer.Answered? && e.answer.reply.done {
        FinishKeeps(layout, s.objects, e, ResultOf(entry.id.value, e.answer.reply));
      }
    }
  }

  lemma {:induction false} ProcessAllKeeps(layout: Layout, s: State, events: seq<InputEvent>)
    requires Separate(layout) && Faithful(layout, s.objects)
    requires forall i :: 0 <= i < |events| ==> layout.input <= events[i].key && HonestInput(events[i])
    ensures Faithful(layout, ProcessAll(layout, s, events).state.objects)
    decreases |events|
  {
    hide Faithful, ProcessOne;
    if events != [] {
      ProcessAllKeeps(layout, s, events[..|events| - 1]);
      ProcessKeeps(layout, ProcessAll(layout, s, events[..|events| - 1]).state, events[|events| - 1]);
    }
  }

  lemma {:induction false} CheckAllKeeps(layout: Layout, s: State, events: seq<CheckEvent>)
    requires Separate(layout) && Faithful(layout, s.objects)
    requires forall i :: 0 <= i < |events| ==> Listed(layout, events[i].key)
    ensures Faithful(layout, CheckAll(layout, s, events).state.objects)
    decreases |events|
  {
    hide Faithful, CheckOne, Listed;
    if events != [] {
      CheckAllKeeps(layout, s, events[..|events| - 1]);
      CheckKeeps(layout, CheckAll(layout, s, events[..|events| - 1]).state, events[|events| - 1]);
    }
  }

  /** Over all runs of the script, with failures at any call and exceptions anywhere, a log entry that
      is marked complete has the result of the operation it names stored, and the transcript of that
      result if it has chunks. This includes entries that a failing HEAD has made the program write anew. */
  lemma {:induction false} CompleteMeansStored(layout: Layout, s: State, scripts: seq<Script>)
    requires Separate(layout) && Faithful(layout, s.objects)
    requires forall i :: 0 <= i < |scripts| ==> ValidScript(layout, scripts[i])
    requires forall i, k :: 0 <= i < |scripts| && 0 <= k < |scripts[i].inputs| ==> HonestInput(scripts[i].inputs[k])
    ensures Faithful(layout, RunScripts(layout, s, scripts).objects)
    decreases |scripts|
  {
    hide Faithful, ProcessAll, CheckAll, HonestInput, Listed;
    if scripts != [] {
      var (front, last) := (scripts[..|scripts| - 1], scripts[|scripts| - 1]);
      CompleteMeansStored(layout, s, front);
      var before := RunScripts(layout, s, front);
      assert last == scripts[|scripts| - 1] && ValidScript(layout, last);
      ProcessAllKeeps(layout, before, last.inputs);
      CheckAllKeeps(layout, ProcessAll(layout, before, last.inputs).state, last.checks);
    }
  }

  /** And completion is reached: a pending entry whose operation is done is marked complete, with its
      outputs stored, by the first check in which nothing fails. */
  lemma CheckCompletes(layout: Layout, s: State, e: CheckEvent)
    requires Separate(layout) && IsLogKey(layout, e.key) && e.getOk && e.jsonOk && e.textOk && e.logOk
    requires e.key in s.objects && EntryIn(s.objects[e.key]).Some?
    requires var entry := EntryIn(s.objects[e.key]).value;
             entry.id.Some? && entry.id.value != "" && entry.done == Some(false)
    requires e.answer.Answered? && e.answer.reply.done
    requires e.answer.reply.chunks.Some? ==> Readable(e.answer.reply.chunks.value)
    ensures var id := EntryIn(s.objects[e.key]).value.id;
            var after := CheckOne(layout, s, e).state.objects;
            && !CheckOne(layout, s, e).crashed
            && e.key in after && after[e.key] == Log(Entry(id, Some(true)))
            && HasOutputs(layout, after, e.key, id)
            && after[ResultKey(layout, e.key)] == Json(ResultOf(id.value, e.answer.reply))
  {
    hide ResultKey, TextKey, Transcript;
    LogPrefix(layout, e.key);
    OutputsAreNoLogs(layout, e.key);
    OutputKeysDistinct(layout, e.key, e.key);
  }

  /** Such an input, and an empty bucket: the run ends with a complete entry and no result. */
  lemma DoneTooEarly()
    ensures var layout := Layout("in", "log", "out");
            var e := InputEvent("in/a.mp3", false, Accepted(Entry(Some("op"), Some(true))), true, false);
            var none: Objects := map[];
            && layout.input <= e.key && Separate(layout) && Faithful(layout, none)
            && RunScript(layout, State(none, []), Script([e], [])).objects
               == map["log/a.mp3.json" := Log(Entry(Some("op"), Some(true)))]
            && !Faithful(layout, RunScript(layout, State(none, []), Script([e], [])).objects)
  {
    var layout := Layout("in", "log", "out");
    var e := InputEvent("in/a.mp3", false, Accepted(Entry(Some("op"), Some(true))), true, false);
    var none: Objects := map[];
    AudioExample();
    ExampleKeys();
    hide IsAudio, LogKey, IsLogKey;
    assert layout.log[0] != layout.output[0];
    OneInput(layout, State(none, []), e);
    ProcessKeeps(layout, State(none, []), e);
  }

  // ---------------------------------------------------------------------------------------------
  // From an input to its transcript

  /** The description of an accepted job with an id is stored as it came. */
  lemma StoredAsAnswered(layout: Layout, s: State, e: InputEvent)
    requires layout.input <= e.key && IsAudio(e.key) && (LogKey(layout, e.key) !in s.objects || e.headFails)
    requires e.response.Accepted? && e.response.body.id.Some? && e.response.body.id.value != "" && e.putOk
    ensures ProcessOne(layout, s, e)
            == Outcome(State(s.objects[LogKey(layout, e.key) := Log(e.response.body)], s.submitted + [e.key]), false)
  {
    hide IsAudio, LogKey;
  }

  /** An input accepted as a running job, and then checked without a failure once the service says that it is
      done, ends as a complete entry with its result and its transcript; the check is no exception. */
  lemma SubmittedAndCompleted(layout: Layout, s: State, e: InputEvent, c: CheckEvent, id: string, chunks: seq<Chunk>)
    requires Separate(layout) && layout.input <= e.key && IsAudio(e.key)
    requires LogKey(layout, e.key) !in s.objects || e.headFails
    requires e.response == Accepted(Entry(Some(id), Some(false))) && id != "" && e.putOk
    requires c.key == LogKey(layout, e.key) && c.getOk && c.jsonOk && c.textOk && c.logOk
    requires c.answer == Answered(Reply(true, Some(chunks))) && Readable(chunks)
    ensures ValidScript(layout, Script([e], [c])) && IsLogKey(layout, c.key)
    ensures var after := RunScript(layout, s, Script([e], [c]));
            && after.submitted == s.submitted + [e.key]
            && after.objects == s.objects[c.key := Log(Entry(Some(id), Some(true)))]
                                         [ResultKey(layout, c.key) := Json(Result(id, true, Some(chunks)))]
                                         [TextKey(layout, c.key) := Text(Transcript(chunks))]
    ensures !CheckOne(layout, ProcessOne(layout, s, e).state, c).crashed
  {
    hide IsAudio, LogKey, IsLogKey, ResultKey, TextKey, Transcript, Readable;
    ExampleKey(layout, e.key, c.key);
    StoredAsAnswered(layout, s, e);
    var processed := ProcessOne(layout, s, e).state;
    OutputsAreNoLogs(layout, c.key);
    OutputKeysDistinct(layout, c.key, c.key);
    LogPrefix(layout, c.key);
    var none: seq<InputEvent>, nothing: seq<CheckEvent> := [], [];
    assert [e][..0] == none && ProcessAll(layout, s, [e]) == Outcome(processed, false);
    assert [c][..0] == nothing && CheckAll(layout, processed, [c]) == CheckOne(layout, processed, c);
  }

  /** Each line is an alternative, and nothing else. */
  lemma LinesAppend(a: seq<string>, b: seq<string>)
    ensures Lines(a + b) == Lines(a) + Lines(b)
    ensures |a| == 1 ==> Lines(a) == a[0] + "\n"
    decreases |b|
  {
    if b == [] {
      assert a + b == a;
      var none: seq<string> := [];
      assert |a| == 1 ==> a[..0] == none;
    } else {
      assert (a + b)[..|a + b| - 1] == a + b[..|b| - 1];
      LinesAppend(a, b[..|b| - 1]);
    }
  }

  /** The transcript is that of the chunks in their order, and a chunk gives its lines exactly if it is one of
      channel 1. */
  lemma TranscriptAppend(a: seq<Chunk>, b: seq<Chunk>)
    ensures Transcript(a + b) == Transcript(a) + Transcript(b)
    ensures |a| == 1 ==>
              Transcript(a) == if a[0].Chunk? && a[0].channelTag == "1" then Lines(a[0].alternatives) else ""
    decreases |b|
  {
    hide Lines;
    if b == [] {
      assert a + b == a;
      var none: seq<Chunk> := [];
      assert |a| == 1 ==> a[..0] == none;
    } else {
      assert (a + b)[..|a + b| - 1] == a + b[..|b| - 1];
      TranscriptAppend(a, b[..|b| - 1]);
    }
  }

  /** Two channels, of which the second repeats the first. */
  lemma TranscriptExample()
    ensures Transcript([Chunk("1", ["so", "sow"]), Chunk("2", ["so"]), Chunk("1", ["be it"])]) == "so\nsow\nbe it\n"
  {
    hide Transcript, Lines;
    var (x, y, z) := (Chunk("1", ["so", "sow"]), Chunk("2", ["so"]), Chunk("1", ["be it"]));
    assert [x, y, z] == [x] + ([y] + [z]);
    TranscriptAppend([x], [y] + [z]);
    TranscriptAppend([y], [z]);
    TranscriptAppend([z], []);
    assert ["so", "sow"] == ["so"] + ["sow"];
    LinesAppend(["so"], ["sow"]);
    LinesAppend(["sow"], []);
    LinesAppend(["be it"], []);
    assert "so" + "\n" + ("sow" + "\n") + ("" + ("be it" + "\n")) == "so\nsow\nbe it\n";
  }

  /** An input is taken for audio exactly if its name ends with .mp3, .wav or .ogg in any case. */
  lemma AudioBySuffix(key: Key)
    ensures IsAudio(key) <==> |key| >= 4 && Lowered(key[|key| - 4..]) in {".mp3", ".wav", ".ogg"}
  {
    assert SUFFIXES == [".mp3", ".wav", ".ogg"];
    if |key| >= 4 {
      assert Lowered(key)[|key| - 4..] == Lowered(key[|key| - 4..]);
      hide Lowered;
      assert EndsWith(Lowered(key), SUFFIXES[0]) <==> Lowered(key[|key| - 4..]) == ".mp3";
      assert EndsWith(Lowered(key), SUFFIXES[1]) <==> Lowered(key[|key| - 4..]) == ".wav";
      assert EndsWith(Lowered(key), SUFFIXES[2]) <==> Lowered(key[|key| - 4..]) == ".ogg";
    }
  }

  lemma LetterCase()
    ensures forall ch :: 'A' <= ch <= 'Z' ==> LowerChar(ch) as int == ch as int + 32
    ensures forall ch :: ch < 'A' || 'Z' < ch ==> LowerChar(ch) == ch
  {
  }

  lemma FourLowered(a: char, b: char, c: char, d: char)
    ensures Lowered([a, b, c, d]) == [LowerChar(a), LowerChar(b), LowerChar(c), LowerChar(d)]
  {
  }

  lemma AudioNames(stem: string)
    ensures IsAudio(stem + ".mp3") && IsAudio(stem + ".WAV") && IsAudio(stem + ".Ogg")
    ensures !IsAudio(stem + ".txt") && !IsAudio(stem + ".mp4")
  {
    hide IsAudio, Lowered, LowerChar;
    LetterCase();
    FourLowered('.', 'm', 'p', '3');
    FourLowered('.', 'W', 'A', 'V');
    FourLowered('.', 'O', 'g', 'g');
    FourLowered('.', 't', 'x', 't');
    FourLowered('.', 'm', 'p', '4');
    assert LowerChar('W') == 'w' && LowerChar('A') == 'a' && LowerChar('V') == 'v' && LowerChar('O') == 'o';
    assert Lowered(".mp3") == ".mp3" && Lowered(".WAV") == ".wav" && Lowered(".Ogg") == ".ogg";
    assert Lowered(".txt") == ".txt" && Lowered(".mp4") == ".mp4";
    SuffixOf(stem, ".mp3");
    SuffixOf(stem, ".WAV");
    SuffixOf(stem, ".Ogg");
    SuffixOf(stem, ".txt");
    SuffixOf(stem, ".mp4");
  }

  lemma SuffixOf(stem: string, suffix: string)
    requires |suffix| == 4
    ensures IsAudio(stem + suffix) <==> Lowered(suffix) in {".mp3", ".wav", ".ogg"}
  {
    hide IsAudio, Lowered;
    AudioBySuffix(stem + suffix);
    assert (stem + suffix)[|stem|..] == suffix;
  }

  // ---------------------------------------------------------------------------------------------
  // One check

  /** Nothing is written for an entry that is complete, has no id, or whose operation is not done yet. */
  lemma CheckLeavesAlone(layout: Layout, s: State, e: CheckEvent)
    requires IsLogKey(layout, e.key) && e.key in s.objects && s.objects[e.key].Log?
    requires var entry := s.objects[e.key].entry;
             entry.done == Some(true) || entry.id == None || entry.id == Some("")
             || !e.answer.Answered? || !e.answer.reply.done
    ensures CheckOne(layout, s, e).state == s
  {
  }

  /** A pending entry whose operation is done: the writes go on up to the first that fails. */
  lemma CheckStopsAtFailure(layout: Layout, s: State, e: CheckEvent, id: string, reply: Reply)
    requires IsLogKey(layout, e.key) && e.key in s.objects && id != "" && e.getOk
    requires s.objects[e.key] == Log(Entry(Some(id), Some(false))) && e.answer == Answered(reply) && reply.done
    ensures var after := CheckOne(layout, s, e).state.objects;
            var json := s.objects[ResultKey(layout, e.key) := Json(Result(id, true, reply.chunks))];
            && (!e.jsonOk ==> after == s.objects)
            && (e.jsonOk && reply.chunks.Some? && (!Readable(reply.chunks.value) || !e.textOk) ==> after == json)
            && (e.jsonOk && reply.chunks.Some? && Readable(reply.chunks.value) && e.textOk && !e.logOk ==>
                  after == json[TextKey(layout, e.key) := Text(Transcript(reply.chunks.value))])
            && (e.jsonOk && reply.chunks.None? && !e.logOk ==> after == json)
            && (e.jsonOk && reply.chunks.None? && e.logOk ==> after == json[e.key := Log(Entry(Some(id), Some(true)))])
  {
    hide ResultKey, TextKey, Transcript, Readable;
  }

  /** Checking an entry writes to its own three keys only, the same ones every time. */
  lemma CheckWritesOwnKeys(layout: Layout, s: State, e: CheckEvent, key: Key)
    requires IsLogKey(layout, e.key)
    requires key != e.key && key != ResultKey(layout, e.key) && key != TextKey(layout, e.key)
    ensures var after := CheckOne(layout, s, e).state.objects;
            (key in after <==> key in s.objects) && (key in s.objects ==> after[key] == s.objects[key])
  {
    hide ResultKey, TextKey, Transcript, EntryIn;
  }

  // ---------------------------------------------------------------------------------------------
  // An accepted job

  /** The log entry of a job: still pending, or complete with its outputs. */
  predicate IsJob(layout: Layout, objects: Objects, logKey: Key, id: string)
    requires IsLogKey(layout, logKey)
  {
    && logKey in objects
    && (objects[logKey] == Log(Entry(Some(id), Some(false)))
        || (objects[logKey] == Log(Entry(Some(id), Some(true))) && HasOutputs(layout, objects, logKey, Some(id))))
  }

  lemma SameOutputs(layout: Layout, a: Objects, b: Objects, logKey: Key, id: Option<string>)
    requires IsLogKey(layout, logKey) && HasOutputs(layout, a, logKey, id)
    requires forall key :: key == ResultKey(layout, logKey) || key == TextKey(layout, logKey) ==>
               (key in a <==> key in b) && (key in a ==> a[key] == b[key])
    ensures HasOutputs(layout, b, logKey, id)
  {
    hide ResultKey, TextKey, Transcript, IsLogKey;
  }

  lemma InputKeepsJob(layout: Layout, s: State, e: InputEvent, key: Key, id: string)
    requires Separate(layout) && layout.input <= e.key && layout.input <= key && !(e.key == key && e.headFails)
    requires IsLogKey(layout, LogKey(layout, key)) && IsJob(layout, s.objects, LogKey(layout, key), id)
    ensures IsJob(layout, ProcessOne(layout, s, e).state.objects, LogKey(layout, key), id)
  {
    var logKey := LogKey(layout, key);
    LogKeyIsLogKey(layout, e.key);
    LogPrefix(layout, LogKey(layout, e.key));
    OutputsAreNoLogs(layout, logKey);
    if LogKey(layout, e.key) == logKey {
      LogKeysDistinct(layout, e.key, key);
    }
    hide IsAudio, LogKey, IsLogKey, HasOutputs, ResultKey, TextKey, EntryOf;
    if s.objects[logKey].entry.done == Some(true) {
      SameOutputs(layout, s.objects, ProcessOne(layout, s, e).state.objects, logKey, Some(id));
    }
  }

  lemma CheckKeepsJob(layout: Layout, s: State, e: CheckEvent, logKey: Key, id: string)
    requires Separate(layout) && Listed(layout, e.key) && IsLogKey(layout, logKey) && id != ""
    requires IsJob(layout, s.objects, logKey, id)
    ensures IsJob(layout, CheckOne(layout, s, e).state.objects, logKey, id)
  {
    if !IsLogKey(layout, e.key) {
      NotJson(layout, s, e);
    } else if e.key == logKey {
      OwnCheckKeepsJob(layout, s, e, id);
    } else {
      var after := CheckOne(layout, s, e).state.objects;
      OutputsAreNoLogs(layout, logKey);
      OutputsAreNoLogs(layout, e.key);
      LogPrefix(layout, logKey);
      LogPrefix(layout, e.key);
      OutputKeysDistinct(layout, logKey, e.key);
      OutputKeysDistinct(layout, e.key, logKey);
      hide CheckOne, IsLogKey, HasOutputs, ResultKey, TextKey;
      CheckWritesOwnKeys(layout, s, e, logKey);
      CheckWritesOwnKeys(layout, s, e, ResultKey(layout, logKey));
      CheckWritesOwnKeys(layout, s, e, TextKey(layout, logKey));
      if s.objects[logKey].entry.done == Some(true) {
        SameOutputs(layout, s.objects, after, logKey, Some(id));
      }
    }
  }

  lemma OwnCheckKeepsJob(layout: Layout, s: State, e: CheckEvent, id: string)
    requires Separate(layout) && IsLogKey(layout, e.key) && id != ""
    requires IsJob(layout, s.objects, e.key, id)
    ensures IsJob(layout, CheckOne(layout, s, e).state.objects, e.key, id)
  {
    hide ResultKey, TextKey, Transcript, Readable, FinishCrashes;
    LogPrefix(layout, e.key);
    OutputsAreNoLogs(layout, e.key);
    OutputKeysDistinct(layout, e.key, e.key);
  }

  lemma {:induction false} InputsKeepJob(layout: Layout, s: State, events: seq<InputEvent>, key: Key, id: string)
    requires Separate(layout) && layout.input <= key
    requires forall i :: 0 <= i < |events| ==>
               layout.input <= events[i].key && (events[i].key == key ==> !events[i].headFails)
    requires IsLogKey(layout, LogKey(layout, key)) && IsJob(layout, s.objects, LogKey(layout, key), id)
    ensures IsJob(layout, ProcessAll(layout, s, events).state.objects, LogKey(layout, key), id)
    decreases |events|
  {
    hide IsJob, ProcessOne, LogKey, IsLogKey;
    if events != [] {
      InputsKeepJob(layout, s, events[..|events| - 1], key, id);
      InputKeepsJob(layout, ProcessAll(layout, s, events[..|events| - 1]).state, events[|events| - 1], key, id);
    }
  }

  lemma {:induction false} ChecksKeepJob(layout: Layout, s: State, events: seq<CheckEvent>, logKey: Key, id: string)
    requires Separate(layout) && IsLogKey(layout, logKey) && id != "" && IsJob(layout, s.objects, logKey, id)
    requires forall i :: 0 <= i < |events| ==> Listed(layout, events[i].key)
    ensures IsJob(layout, CheckAll(layout, s, events).state.objects, logKey, id)
    decreases |events|
  {
    hide IsJob, CheckOne, Listed, IsLogKey;
    if events != [] {
      ChecksKeepJob(layout, s, events[..|events| - 1], logKey, id);
      CheckKeepsJob(layout, CheckAll(layout, s, events[..|events| - 1]).state, events[|events| - 1], logKey, id);
    }
  }

  /** Over all runs in which its existence check answers, an accepted job stays what it is: its entry goes on
      naming it, and once that is complete it has the job's own outputs, whatever fails and whatever is done to
      other inputs. No assumption is made about other jobs. */
  lemma {:induction false} JobIsKept(layout: Layout, s: State, scripts: seq<Script>, key: Key, id: string)
    requires Separate(layout) && layout.input <= key && id != ""
    requires IsLogKey(layout, LogKey(layout, key)) && IsJob(layout, s.objects, LogKey(layout, key), id)
    requires forall i :: 0 <= i < |scripts| ==> ValidScript(layout, scripts[i])
    requires forall i, k :: 0 <= i < |scripts| && 0 <= k < |scripts[i].inputs| && scripts[i].inputs[k].key == key
                            ==> !scripts[i].inputs[k].headFails
    ensures IsJob(layout, RunScripts(layout, s, scripts).objects, LogKey(layout, key), id)
    decreases |scripts|
  {
    hide IsJob, ProcessAll, CheckAll, LogKey, Listed, IsLogKey;
    if scripts != [] {
      var (front, last) := (scripts[..|scripts| - 1], scripts[|scripts| - 1]);
      JobIsKept(layout, s, front, key, id);
      var before := RunScripts(layout, s, front);
      assert last == scripts[|scripts| - 1] && ValidScript(layout, last);
      InputsKeepJob(layout, before, last.inputs, key, id);
      ChecksKeepJob(layout, ProcessAll(layout, before, last.inputs).state, last.checks, LogKey(layout, key), id);
    }
  }

  /** From acceptance to completion: after any such runs a check without a failure, when the service says that the
      job is done, leaves its entry complete and its outputs stored, and is no exception. */
  lemma AcceptedJobCompletes(layout: Layout, s: State, e: InputEvent, scripts: seq<Script>, c: CheckEvent, id: string)
    requires Separate(layout) && layout.input <= e.key && IsAudio(e.key)
    requires LogKey(layout, e.key) !in s.objects || e.headFails
    requires e.response == Accepted(Entry(Some(id), Some(false))) && id != "" && e.putOk
    requires forall i :: 0 <= i < |scripts| ==> ValidScript(layout, scripts[i])
    requires forall i, k :: 0 <= i < |scripts| && 0 <= k < |scripts[i].inputs| && scripts[i].inputs[k].key == e.key
                            ==> !scripts[i].inputs[k].headFails
    requires c.key == LogKey(layout, e.key) && c.getOk && c.jsonOk && c.textOk && c.logOk
    requires c.answer.Answered? && c.answer.reply.done
    requires c.answer.reply.chunks.Some? ==> Readable(c.answer.reply.chunks.value)
    ensures IsLogKey(layout, c.key)
    ensures var end := CheckOne(layout, RunScripts(layout, ProcessOne(layout, s, e).state, scripts), c);
            && !end.crashed && c.key in end.state.objects
            && end.state.objects[c.key] == Log(Entry(Some(id), Some(true)))
            && HasOutputs(layout, end.state.objects, c.key, Some(id))
  {
    LogKeyIsLogKey(layout, e.key);
    hide IsAudio, LogKey, IsLogKey, Listed, HasOutputs, RunScripts, ProcessOne, Finish, FinishCrashes, Readable;
    StoredAsAnswered(layout, s, e);
    JobIsKept(layout, ProcessOne(layout, s, e).state, scripts, e.key, id);
    var later := RunScripts(layout, ProcessOne(layout, s, e).state, scripts);
    if later.objects[c.key] == Log(Entry(Some(id), Some(false))) {
      CheckCompletes(layout, later, c);
    }
  }

  // ---------------------------------------------------------------------------------------------
  // Repeated checks

  lemma FinishAgain(layout: Layout, objects: Objects, e: CheckEvent, again: CheckEvent, result: Result)
    requires Separate(layout) && IsLogKey(layout, e.key) && e.key in objects
    requires again == e.(getOk := true, jsonOk := true, textOk := true, logOk := true)
    ensures var after := Finish(layout, objects, e, result);
            && Finish(layout, after, again, result) == Finish(layout, objects, again, result)
            && e.key in after
            && (after[e.key] == objects[e.key]
                || (after[e.key] == Log(Entry(Some(result.id), Some(true)))
                    && after == Finish(layout, objects, again, result)))
  {
    hide ResultKey, TextKey, Transcript, IsLogKey, Readable;
    OutputsAreNoLogs(layout, e.key);
    OutputKeysDistinct(layout, e.key, e.key);
    LogPrefix(layout, e.key);
  }

  /** A check that was cut off between its writes, or that failed anywhere, is made good by the next one
      that finds the same result: together they leave what one unbroken check would have left. */
  lemma CheckAgain(layout: Layout, s: State, e: CheckEvent, again: CheckEvent)
    requires Separate(layout) && Listed(layout, e.key)
    requires again == e.(getOk := true, jsonOk := true, textOk := true, logOk := true)
    ensures CheckOne(layout, CheckOne(layout, s, e).state, again).state == CheckOne(layout, s, again).state
  {
    hide IsLogKey, Finish, FinishCrashes, EndsWith;
    if IsLogKey(layout, e.key) && e.key in s.objects && e.answer.Answered? {
      if EntryIn(s.objects[e.key]).Some? && EntryIn(s.objects[e.key]).value.id.Some? {
        var result := ResultOf(EntryIn(s.objects[e.key]).value.id.value, e.answer.reply);
        FinishAgain(layout, s.objects, e, again, result);
      }
    }
  }

  // ---------------------------------------------------------------------------------------------
  // How often an input is submitted

  /** The input objects a pass comes to: all of them, or those up to the one that ends it. */
  function Reached(layout: Layout, s: State, events: seq<InputEvent>): seq<InputEvent>
    requires forall i :: 0 <= i < |events| ==> layout.input <= events[i].key
  {
    if events == [] then []
    else
      var front := events[..|events| - 1];
      if ProcessAll(layout, s, front).crashed then Reached(layout, s, front)
      else Reached(layout, s, front) + [events[|events| - 1]]
  }

  function ReachedInRuns(layout: Layout, s: State, scripts: seq<Script>): seq<InputEvent>
    requires forall i :: 0 <= i < |scripts| ==> ValidScript(layout, scripts[i])
  {
    if scripts == [] then []
    else
      var (front, last) := (scripts[..|scripts| - 1], scripts[|scripts| - 1]);
      assert ValidScript(layout, last);
      ReachedInRuns(layout, s, front) + Reached(layout, RunScripts(layout, s, front), last.inputs)
  }

  /** The moments at which a POST for the input would create a job. */
  function Openings(key: Key, events: seq<InputEvent>): seq<InputEvent> {
    if events == [] then []
    else
      var last := events[|events| - 1];
      Openings(key, events[..|events| - 1])
      + (if last.key == key && IsAudio(key) && !last.response.Refused? then [last] else [])
  }

  predicate AnyRecords(openings: seq<InputEvent>) {
    exists i :: 0 <= i < |openings| && Records(openings[i])
  }

  /** The openings that are used: those at which the existence check fails, and, if the log entry was
      missing at the start, those up to the first one that records. */
  function Used(missing: bool, openings: seq<InputEvent>): nat {
    if openings == [] then 0
    else
      var front := openings[..|openings| - 1];
      Used(missing, front) + (if openings[|openings| - 1].headFails || (missing && !AnyRecords(front)) then 1 else 0)
  }

  /** Where the submissions of one input and its log entry stand. If an output can be taken for a log
      entry, there may be fewer submissions, but never more. */
  predicate Tallied(layout: Layout, start: Objects, s: State, key: Key, openings: seq<InputEvent>)
    requires layout.input <= key
  {
    var logKey := LogKey(layout, key);
    && multiset(s.submitted)[key] <= Used(logKey !in start, openings)
    && (logKey in start || AnyRecords(openings) ==> logKey in s.objects)
    && (Separate(layout) ==> multiset(s.submitted)[key] == Used(logKey !in start, openings)
                             && (logKey in s.objects ==> logKey in start || AnyRecords(openings)))
  }

  lemma OneMore(missing: bool, openings: seq<InputEvent>, e: InputEvent)
    ensures AnyRecords(openings + [e]) <==> AnyRecords(openings) || Records(e)
    ensures Used(missing, openings + [e])
            == Used(missing, openings) + (if e.headFails || (missing && !AnyRecords(openings)) then 1 else 0)
  {
    hide Records;
    var more := openings + [e];
    assert more[..|more| - 1] == openings;
    if AnyRecords(openings) {
      var i :| 0 <= i < |openings| && Records(openings[i]);
      assert more[i] == openings[i];
    }
    if Records(e) {
      assert more[|openings|] == e;
    }
  }

  /** What one listed input object does to the bucket and to the jobs. */
  lemma WhenSubmitted(layout: Layout, s: State, e: InputEvent)
    requires layout.input <= e.key
    ensures var after := ProcessOne(layout, s, e).state;
            var logKey := LogKey(layout, e.key);
            var submits := IsAudio(e.key) && (logKey !in s.objects || e.headFails) && !e.response.Refused?;
            && after.submitted == (if submits then s.submitted + [e.key] else s.submitted)
            && after.objects == (if submits && Records(e) then s.objects[logKey := Log(EntryOf(e.response.body))]
                                 else s.objects)
  {
    hide IsAudio, LogKey;
  }

  lemma TallyInput(layout: Layout, start: Objects, s: State, e: InputEvent, key: Key, openings: seq<InputEvent>)
    requires layout.input <= key && layout.input <= e.key && Tallied(layout, start, s, key, openings)
    ensures Tallied(layout, start, ProcessOne(layout, s, e).state, key,
                    openings + (if e.key == key && IsAudio(key) && !e.response.Refused? then [e] else []))
  {
    hide IsAudio, LogKey, Used, AnyRecords, EntryOf, ProcessOne, Records, Separate;
    WhenSubmitted(layout, s, e);
    OneMore(LogKey(layout, key) !in start, openings, e);
    assert openings + [] == openings;
    if LogKey(layout, key) == LogKey(layout, e.key) {
      LogKeysDistinct(layout, key, e.key);
    }
  }

  lemma {:induction false} TallyInputs(layout: Layout, start: Objects, s: State, events: seq<InputEvent>, key: Key,
                                       openings: seq<InputEvent>)
    requires forall i :: 0 <= i < |events| ==> layout.input <= events[i].key
    requires layout.input <= key && Tallied(layout, start, s, key, openings)
    ensures Tallied(layout, start, ProcessAll(layout, s, events).state, key,
                    openings + Openings(key, Reached(layout, s, events)))
    decreases |events|
  {
    hide Tallied, ProcessOne, IsAudio;
    if events == [] {
      assert openings + [] == openings;
    } else {
      var (front, last) := (events[..|events| - 1], events[|events| - 1]);
      TallyInputs(layout, start, s, front, key, openings);
      var before := ProcessAll(layout, s, front);
      if !before.crashed {
        var reached := Reached(layout, s, front);
        TallyInput(layout, start, before.state, last, key, openings + Openings(key, reached));
        assert (reached + [last])[..|reached|] == reached;
        var more := if last.key == key && IsAudio(key) && !last.response.Refused? then [last] else [];
        assert openings + Openings(key, reached) + more == openings + (Openings(key, reached) + more);
      }
    }
  }

  /** A check neither submits anything nor creates or drops a log entry. */
  lemma TallyCheck(layout: Layout, start: Objects, s: State, e: CheckEvent, key: Key, openings: seq<InputEvent>)
    requires layout.input <= key && Listed(layout, e.key) && Tallied(layout, start, s, key, openings)
    ensures Tallied(layout, start, CheckOne(layout, s, e).state, key, openings)
  {
    hide ResultKey, TextKey, Transcript, EntryIn, LogKey, Used, AnyRecords, IsLogKey;
    LogKeyIsLogKey(layout, key);
    LogPrefix(layout, LogKey(layout, key));
    if IsLogKey(layout, e.key) && Separate(layout) {
      OutputsAreNoLogs(layout, e.key);
    }
  }

  lemma {:induction false} TallyChecks(layout: Layout, start: Objects, s: State, events: seq<CheckEvent>, key: Key,
                                       openings: seq<InputEvent>)
    requires forall i :: 0 <= i < |events| ==> Listed(layout, events[i].key)
    requires layout.input <= key && Tallied(layout, start, s, key, openings)
    ensures Tallied(layout, start, CheckAll(layout, s, events).state, key, openings)
    decreases |events|
  {
    hide Tallied, CheckOne, Listed;
    if events != [] {
      TallyChecks(layout, start, s, events[..|events| - 1], key, openings);
      TallyCheck(layout, start, CheckAll(layout, s, events[..|events| - 1]).state, events[|events| - 1], key, openings);
    }
  }

  lemma OpeningsAppend(key: Key, a: seq<InputEvent>, b: seq<InputEvent>)
    ensures Openings(key, a + b) == Openings(key, a) + Openings(key, b)
    decreases |b|
  {
    hide IsAudio;
    if b == [] {
      assert a + b == a;
    } else {
      assert (a + b)[..|a + b| - 1] == a + b[..|b| - 1];
      OpeningsAppend(key, a, b[..|b| - 1]);
    }
  }

  /** How often an input is submitted, over all runs and whatever fails: at most, and exactly if the log
      and output prefixes are separate, once for every opening at which
      the existence check fails, and, if its log entry was missing at the start, once for every opening up
      to the first one that records. Afterwards the log entry is there if it was there at the start or
      some opening recorded, and only then if the prefixes are separate. */
  lemma {:induction false} SubmissionCount(layout: Layout, start: Objects, scripts: seq<Script>, key: Key)
    requires layout.input <= key
    requires forall i :: 0 <= i < |scripts| ==> ValidScript(layout, scripts[i])
    ensures var after := RunScripts(layout, State(start, []), scripts);
            var openings := Openings(key, ReachedInRuns(layout, State(start, []), scripts));
            var (used, recorded) := (Used(LogKey(layout, key) !in start, openings), AnyRecords(openings));
            && multiset(after.submitted)[key] <= used
            && (LogKey(layout, key) in start || recorded ==> LogKey(layout, key) in after.objects)
            && (Separate(layout) ==>
                  multiset(after.submitted)[key] == used
                  && (LogKey(layout, key) in after.objects ==> LogKey(layout, key) in start || recorded))
    decreases |scripts|
  {
    hide ProcessAll, CheckAll, Openings, Used, AnyRecords, LogKey, Listed, Reached;
    if scripts == [] {
      NothingOpened(key, LogKey(layout, key) !in start);
    } else {
      var (front, last) := (scripts[..|scripts| - 1], scripts[|scripts| - 1]);
      SubmissionCount(layout, start, front, key);
      var before := RunScripts(layout, State(start, []), front);
      var earlier := ReachedInRuns(layout, State(start, []), front);
      assert ValidScript(layout, last);
      TallyInputs(layout, start, before, last.inputs, key, Openings(key, earlier));
      OpeningsAppend(key, earlier, Reached(layout, before, last.inputs));
      var processed := ProcessAll(layout, before, last.inputs);
      TallyChecks(layout, start, processed.state, last.checks, key,
                  Openings(key, earlier) + Openings(key, Reached(layout, before, last.inputs)));
    }
  }

  lemma NothingOpened(key: Key, missing: bool)
    ensures Openings(key, []) == [] && Used(missing, []) == 0 && !AnyRecords([])
  {
  }

  /** While no existence check fails, an input is submitted more than once exactly if its log entry was
      missing and the first of at least two openings did not record: the answer was lost, had no id, or
      the entry could not be stored. Otherwise it is submitted at most once, even if the prefixes are
      not separate. */
  lemma SubmittedAtMostOnce(layout: Layout, start: Objects, scripts: seq<Script>, key: Key)
    requires layout.input <= key
    requires forall i :: 0 <= i < |scripts| ==> ValidScript(layout, scripts[i])
    requires forall e :: e in Openings(key, ReachedInRuns(layout, State(start, []), scripts)) ==> !e.headFails
    ensures var after := RunScripts(layout, State(start, []), scripts);
            var openings := Openings(key, ReachedInRuns(layout, State(start, []), scripts));
            var twice := LogKey(layout, key) !in start && |openings| >= 2 && !Records(openings[0]);
            && (multiset(after.submitted)[key] > 1 ==> twice)
            && (Separate(layout) ==> (multiset(after.submitted)[key] > 1 <==> twice))
  {
    hide RunScripts, ReachedInRuns, Openings, Used, Records, LogKey;
    SubmissionCount(layout, start, scripts, key);
    UsedTwice(LogKey(layout, key) !in start, Openings(key, ReachedInRuns(layout, State(start, []), scripts)));
  }

  lemma {:induction false} UsedTwice(missing: bool, openings: seq<InputEvent>)
    requires forall e :: e in openings ==> !e.headFails
    ensures Used(missing, openings) > 1 <==> missing && |openings| >= 2 && !Records(openings[0])
    ensures Used(missing, openings) >= 1 <==> missing && |openings| >= 1
    decreases |openings|
  {
    hide Records;
    if openings != [] {
      var front := openings[..|openings| - 1];
      assert forall e :: e in front ==> e in openings;
      UsedTwice(missing, front);
      assert openings[|openings| - 1] in openings;
      if |front| == 1 {
        assert front[0] == openings[0];
      } else if |front| > 1 && Records(openings[0]) {
        assert Records(front[0]);
      }
    }
  }

  /** A response without an id, or a lost one, is such an opening: the job is created, no log entry is
      stored, and the next run submits the same input again. */
  lemma SubmittedTwice(response: Response)
    requires response == Accepted(Entry(None, Some(false))) || response == LostReply
    ensures var script := Script([InputEvent("in/a.mp3", false, response, true, false)], []);
            RunScripts(Layout("in", "log", "out"), State(map[], []), [script] + [script]).submitted
                == ["in/a.mp3", "in/a.mp3"]
  {
    var (layout, key) := (Layout("in", "log", "out"), "in/a.mp3");
    var script := Script([InputEvent(key, false, response, true, false)], []);
    var nothing: seq<Key> := [];
    AudioExample();
    hide IsAudio;
    OneInput(layout, State(map[], nothing), script.inputs[0]);
    OneInput(layout, State(map[], [key]), script.inputs[0]);
    assert nothing + [key] == [key] && [key] + [key] == [key, key];
    RunTwo(layout, State(map[], nothing), script, script);
  }

  lemma AudioExample()
    ensures IsAudio("in/a.mp3")
  {
    assert "in/a" + ".mp3" == "in/a.mp3";
    AudioNames("in/a");
  }

  lemma RunTwo(layout: Layout, s: State, a: Script, b: Script)
    requires ValidScript(layout, a) && ValidScript(layout, b)
    ensures RunScripts(layout, s, [a] + [b]) == RunScript(layout, RunScript(layout, s, a), b)
  {
    hide RunScript, ValidScript;
    assert ([a] + [b])[..1] == [a] && [a][..0] == [];
    assert RunScripts(layout, s, [a]) == RunScript(layout, s, a);
  }

  lemma OneInput(layout: Layout, s: State, e: InputEvent)
    requires layout.input <= e.key
    ensures RunScript(layout, s, Script([e], [])).submitted == ProcessOne(layout, s, e).state.submitted
    ensures RunScript(layout, s, Script([e], [])).objects == ProcessOne(layout, s, e).state.objects
  {
    hide ProcessOne;
    var none: seq<InputEvent> := [];
    assert [e][..0] == none && ProcessAll(layout, s, none) == Outcome(s, false);
    assert ProcessAll(layout, s, [e]) == ProcessOne(layout, s, e);
  }

  // ---------------------------------------------------------------------------------------------
  // What ends an input pass

  /** Processing this input is an exception: it is submitted, and the answer has no id or the entry cannot be stored
      because of an error that is not caught. */
  predicate InputFatal(layout: Layout, objects: Objects, e: InputEvent)
    requires layout.input <= e.key
  {
    && IsAudio(e.key) && (LogKey(layout, e.key) !in objects || e.headFails) && e.response.Accepted?
    && (e.response.body.id == None || (!e.putOk && e.uncaught))
  }

  lemma InputStops(layout: Layout, s: State, e: InputEvent)
    requires layout.input <= e.key
    ensures ProcessOne(layout, s, e).crashed <==> InputFatal(layout, s.objects, e)
  {
    hide IsAudio, LogKey;
  }

  lemma {:induction false} OtherInputs(layout: Layout, s: State, events: seq<InputEvent>, key: Key)
    requires layout.input <= key
    requires forall i :: 0 <= i < |events| ==> layout.input <= events[i].key && events[i].key != key
    ensures LogKey(layout, key) in ProcessAll(layout, s, events).state.objects <==> LogKey(layout, key) in s.objects
    decreases |events|
  {
    hide ProcessOne, IsAudio, LogKey;
    if events != [] {
      var (front, last) := (events[..|events| - 1], events[|events| - 1]);
      OtherInputs(layout, s, front, key);
      WhenSubmitted(layout, ProcessAll(layout, s, front).state, last);
      if LogKey(layout, key) == LogKey(layout, last.key) {
        LogKeysDistinct(layout, key, last.key);
      }
    }
  }

  /** A pass over the inputs is ended by an exception exactly if processing one of them, as the bucket was before
      the pass, is one. */
  lemma {:induction false} InputPassEnds(layout: Layout, s: State, events: seq<InputEvent>)
    requires forall i :: 0 <= i < |events| ==> layout.input <= events[i].key
    requires forall i, j :: 0 <= i < j < |events| ==> events[i].key != events[j].key
    ensures ProcessAll(layout, s, events).crashed <==>
            exists i :: 0 <= i < |events| && InputFatal(layout, s.objects, events[i])
    decreases |events|
  {
    hide ProcessOne, IsAudio, LogKey;
    if events != [] {
      var (front, last) := (events[..|events| - 1], events[|events| - 1]);
      InputPassEnds(layout, s, front);
      var before := ProcessAll(layout, s, front);
      InputStops(layout, before.state, last);
      OtherInputs(layout, s, front, last.key);
      assert forall i :: 0 <= i < |front| ==> front[i] == events[i];
      assert last == events[|events| - 1];
    }
  }

  /** A response without an id ends the whole run: whatever comes after it, inputs or checks, is not done. */
  lemma NoIdEndsRun(layout: Layout, s: State, e: InputEvent, others: seq<InputEvent>, checks: seq<CheckEvent>)
    requires layout.input <= e.key && ValidScript(layout, Script([e] + others, checks))
    requires IsAudio(e.key) && (LogKey(layout, e.key) !in s.objects || e.headFails)
    requires e.response.Accepted? && e.response.body.id == None
    ensures RunScript(layout, s, Script([e] + others, checks)) == State(s.objects, s.submitted + [e.key])
  {
    hide IsAudio, LogKey, CheckAll;
    var events := [e] + others;
    var none: seq<InputEvent> := [];
    assert events[..1] == [e] && [e][..0] == none;
    assert ProcessAll(layout, s, none) == Outcome(s, false);
    InputsStop(layout, s, events, 1);
  }

  // ---------------------------------------------------------------------------------------------
  // What ends a check pass

  /** Reading this object is an exception: its GET fails with an error that is not caught, or it is no JSON
      object, or has no id, or an id but no `done`; or its operation is pending, and asking for it or
      finishing it is one. */
  predicate Fatal(objects: Objects, e: CheckEvent) {
    && EndsWith(e.key, ".json")
    && if !e.getOk then e.uncaught
       else
         && e.key in objects
         && match EntryIn(objects[e.key])
            case None => true
            case Some(entry) =>
              entry.id.None? || (entry.id.value != "" && (entry.done.None? || (!entry.done.value && AnswerFatal(e))))
  }

  predicate AnswerFatal(e: CheckEvent) {
    || e.answer.Garbled?
    || (e.answer.Answered? && e.answer.reply.done &&
        if !e.jsonOk then e.uncaught
        else
          match e.answer.reply.chunks
          case None => !e.logOk && e.uncaught
          case Some(chunks) =>
            (exists i :: 0 <= i < |chunks| && chunks[i].Broken?) || ((!e.textOk || !e.logOk) && e.uncaught))
  }

  predicate DistinctKeys(events: seq<CheckEvent>) {
    forall i, j :: 0 <= i < j < |events| ==> events[i].key != events[j].key
  }

  lemma FatalStops(layout: Layout, s: State, e: CheckEvent)
    requires Listed(layout, e.key)
    ensures CheckOne(layout, s, e).crashed <==> Fatal(s.objects, e)
  {
    hide EntryIn, Finish;
  }

  /** A stored result is read like the log entry that its fields make: a check crashes on both or on neither, and
      does the same to every other object. */
  lemma ResultReadAsEntry(layout: Layout, s: State, e: CheckEvent, result: Result, key: Key)
    requires Separate(layout) && IsLogKey(layout, e.key) && key != e.key
    requires e.key in s.objects && s.objects[e.key] == Json(result)
    ensures var entry := Log(Entry(Some(result.id), Some(result.done)));
            var (a, b) := (CheckOne(layout, s, e), CheckOne(layout, s.(objects := s.objects[e.key := entry]), e));
            && a.crashed == b.crashed && a.state.submitted == b.state.submitted
            && (key in a.state.objects <==> key in b.state.objects)
            && (key in a.state.objects ==> a.state.objects[key] == b.state.objects[key])
  {
    hide Finish, FinishCrashes;
    LogPrefix(layout, e.key);
    if e.answer.Answered? && e.answer.reply.done {
      FinishElsewhere(layout, s.objects, e, ResultOf(result.id, e.answer.reply), key,
                      Log(Entry(Some(result.id), Some(result.done))));
    }
  }

  lemma FinishElsewhere(layout: Layout, objects: Objects, e: CheckEvent, result: Result, key: Key, other: Content)
    requires Separate(layout) && IsLogKey(layout, e.key) && key != e.key
    ensures var (a, b) := (Finish(layout, objects, e, result), Finish(layout, objects[e.key := other], e, result));
            (key in a <==> key in b) && (key in a ==> a[key] == b[key])
  {
    hide ResultKey, TextKey, Transcript, Readable;
  }

  /** The checks of other entries do not touch this one. */
  lemma {:induction false} UntouchedByOthers(layout: Layout, s: State, events: seq<CheckEvent>, key: Key)
    requires Separate(layout) && layout.log <= key
    requires forall i :: 0 <= i < |events| ==> Listed(layout, events[i].key) && events[i].key != key
    ensures var after := CheckAll(layout, s, events).state.objects;
            (key in after <==> key in s.objects) && (key in s.objects ==> after[key] == s.objects[key])
    decreases |events|
  {
    hide CheckOne, IsLogKey, EndsWith;
    if events != [] {
      var (front, last) := (events[..|events| - 1], events[|events| - 1]);
      UntouchedByOthers(layout, s, front, key);
      var before := CheckAll(layout, s, front);
      if IsLogKey(layout, last.key) {
        OutputsAreNoLogs(layout, last.key);
        CheckWritesOwnKeys(layout, before.state, last, key);
      } else {
        NotJson(layout, before.state, last);
      }
    }
  }

  lemma NotJson(layout: Layout, s: State, e: CheckEvent)
    requires Listed(layout, e.key) && !IsLogKey(layout, e.key)
    ensures CheckOne(layout, s, e) == Outcome(s, false)
  {
  }

  /** A check pass is ended by an exception exactly if checking one of the listed objects, as it was before
      the pass, is one. */
  lemma {:induction false} PassEnds(layout: Layout, s: State, events: seq<CheckEvent>)
    requires Separate(layout) && DistinctKeys(events)
    requires forall i :: 0 <= i < |events| ==> Listed(layout, events[i].key)
    ensures CheckAll(layout, s, events).crashed <==> exists i :: 0 <= i < |events| && Fatal(s.objects, events[i])
    decreases |events|
  {
    hide CheckOne, Fatal, Listed, Separate;
    if events != [] {
      var (front, last) := (events[..|events| - 1], events[|events| - 1]);
      PassEnds(layout, s, front);
      var before := CheckAll(layout, s, front);
      FatalStops(layout, before.state, last);
      ListedPrefix(layout, last.key);
      UntouchedByOthers(layout, s, front, last.key);
      SameVerdict(s.objects, before.state.objects, last);
      assert forall i :: 0 <= i < |front| ==> front[i] == events[i];
      assert last == events[|events| - 1];
    }
  }

  lemma ListedPrefix(layout: Layout, key: Key)
    requires Listed(layout, key)
    ensures layout.log <= key
  {
  }

  lemma SameVerdict(a: Objects, b: Objects, e: CheckEvent)
    requires (e.key in b <==> e.key in a) && (e.key in a ==> b[e.key] == a[e.key])
    ensures Fatal(a, e) <==> Fatal(b, e)
  {
  }

  /** Such an object stays as it is through every check pass, so it ends each pass that reads it. */
  lemma {:induction false} FatalStays(layout: Layout, s: State, events: seq<CheckEvent>, key: Key)
    requires Separate(layout) && IsLogKey(layout, key) && key in s.objects
    requires s.objects[key] == Log(Entry(None, None))
    requires forall i :: 0 <= i < |events| ==> Listed(layout, events[i].key)
    ensures var after := CheckAll(layout, s, events).state.objects; key in after && after[key] == Log(Entry(None, None))
    decreases |events|
  {
    hide IsLogKey, CheckOne, EndsWith;
    if events != [] {
      var (front, last) := (events[..|events| - 1], events[|events| - 1]);
      FatalStays(layout, s, front, key);
      var before := CheckAll(layout, s, front);
      if last.key == key {
        NoIdUntouched(layout, before.state, last);
      } else if IsLogKey(layout, last.key) {
        LogPrefix(layout, key);
        OutputsAreNoLogs(layout, last.key);
        CheckWritesOwnKeys(layout, before.state, last, key);
      } else {
        NotJson(layout, before.state, last);
      }
    }
  }

  lemma NoIdUntouched(layout: Layout, s: State, e: CheckEvent)
    requires Listed(layout, e.key) && e.key in s.objects && s.objects[e.key] == Log(Entry(None, None))
    ensures CheckOne(layout, s, e).state == s
  {
  }

  /** The one way out: the existence check fails, and the new job has a proper id and is recorded. */
  predicate Replaces(e: InputEvent, key: Key) {
    e.key == key && IsAudio(key) && e.headFails && Records(e) && e.response.body.id != Some("")
  }

  lemma OneInputBlocked(layout: Layout, s: State, e: InputEvent, key: Key)
    requires layout.input <= key && layout.input <= e.key
    requires LogKey(layout, key) in s.objects && s.objects[LogKey(layout, key)] == Log(Entry(None, None))
    ensures var after := ProcessOne(layout, s, e).state.objects;
            && LogKey(layout, key) in after
            && (after[LogKey(layout, key)] == Log(Entry(None, None)) <==> !Replaces(e, key))
  {
    hide IsAudio, LogKey;
    if LogKey(layout, key) == LogKey(layout, e.key) {
      LogKeysDistinct(layout, key, e.key);
    }
  }

  lemma {:induction false} InputsBlocked(layout: Layout, s: State, events: seq<InputEvent>, key: Key)
    requires layout.input <= key
    requires LogKey(layout, key) in s.objects && s.objects[LogKey(layout, key)] == Log(Entry(None, None))
    requires forall i :: 0 <= i < |events| ==> layout.input <= events[i].key && !Replaces(events[i], key)
    ensures var after := ProcessAll(layout, s, events).state.objects;
            LogKey(layout, key) in after && after[LogKey(layout, key)] == Log(Entry(None, None))
    decreases |events|
  {
    hide Replaces, ProcessOne, LogKey;
    if events != [] {
      InputsBlocked(layout, s, events[..|events| - 1], key);
      OneInputBlocked(layout, ProcessAll(layout, s, events[..|events| - 1]).state, events[|events| - 1], key);
    }
  }

  /** An entry without an id survives any runs in which nothing replaces it, and ends every check pass after
      them that reads it. */
  lemma {:induction false} EntryWithoutIdBlocks(layout: Layout, s: State, scripts: seq<Script>, key: Key)
    requires Separate(layout) && layout.input <= key
    requires LogKey(layout, key) in s.objects && s.objects[LogKey(layout, key)] == Log(Entry(None, None))
    requires forall i :: 0 <= i < |scripts| ==> ValidScript(layout, scripts[i])
    requires forall i, k :: 0 <= i < |scripts| && 0 <= k < |scripts[i].inputs| ==> !Replaces(scripts[i].inputs[k], key)
    ensures var after := RunScripts(layout, s, scripts);
            && LogKey(layout, key) in after.objects && after.objects[LogKey(layout, key)] == Log(Entry(None, None))
            && forall checks: seq<CheckEvent> ::
                 DistinctKeys(checks) && (forall i :: 0 <= i < |checks| ==> Listed(layout, checks[i].key))
                 && (exists i :: 0 <= i < |checks| && checks[i].key == LogKey(layout, key) && checks[i].getOk)
                 ==> CheckAll(layout, after, checks).crashed
    decreases |scripts|
  {
    hide Replaces, ProcessAll, CheckAll, LogKey, Listed, DistinctKeys, IsLogKey, Fatal, IsAudio;
    LogKeyIsLogKey(layout, key);
    if scripts != [] {
      var (front, last) := (scripts[..|scripts| - 1], scripts[|scripts| - 1]);
      EntryWithoutIdBlocks(layout, s, front, key);
      var before := RunScripts(layout, s, front);
      assert last == scripts[|scripts| - 1] && ValidScript(layout, last);
      InputsBlocked(layout, before, last.inputs, key);
      FatalStays(layout, ProcessAll(layout, before, last.inputs).state, last.checks, LogKey(layout, key));
    }
    var after := RunScripts(layout, s, scripts);
    forall checks: seq<CheckEvent> |
      DistinctKeys(checks) && (forall i :: 0 <= i < |checks| ==> Listed(layout, checks[i].key))
      && (exists i :: 0 <= i < |checks| && checks[i].key == LogKey(layout, key) && checks[i].getOk)
      ensures CheckAll(layout, after, checks).crashed
    {
      var i :| 0 <= i < |checks| && checks[i].key == LogKey(layout, key) && checks[i].getOk;
      NoIdIsFatal(layout, after.objects, checks[i]);
      PassEnds(layout, after, checks);
    }
  }

  lemma NoIdIsFatal(layout: Layout, objects: Objects, e: CheckEvent)
    requires IsLogKey(layout, e.key) && e.getOk && e.key in objects && objects[e.key] == Log(Entry(None, None))
    ensures Fatal(objects, e)
  {
  }

  /** One accepted job whose id is empty is enough: from any bucket without the log entry, every check
      pass of every later run that reads the entry ends there, until something replaces it. */
  lemma EmptyIdBlocks(layout: Layout, s: State, e: InputEvent, scripts: seq<Script>, checks: seq<CheckEvent>)
    requires Separate(layout) && layout.input <= e.key && IsAudio(e.key) && e.putOk
    requires LogKey(layout, e.key) !in s.objects && e.response.Accepted? && e.response.body.id == Some("")
    requires forall i :: 0 <= i < |scripts| ==> ValidScript(layout, scripts[i])
    requires forall i, k ::
               0 <= i < |scripts| && 0 <= k < |scripts[i].inputs| ==> !Replaces(scripts[i].inputs[k], e.key)
    requires DistinctKeys(checks) && forall i :: 0 <= i < |checks| ==> Listed(layout, checks[i].key)
    requires exists i :: 0 <= i < |checks| && checks[i].key == LogKey(layout, e.key) && checks[i].getOk
    ensures CheckAll(layout, RunScripts(layout, ProcessOne(layout, s, e).state, scripts), checks).crashed
  {
    hide IsAudio, LogKey, Listed, CheckAll, RunScripts, DistinctKeys, Replaces;
    EntryWithoutIdBlocks(layout, ProcessOne(layout, s, e).state, scripts, e.key);
  }

  lemma ExampleKey(layout: Layout, input: Key, log: Key)
    requires layout.input <= input && LogKey(layout, input) == log
    ensures IsLogKey(layout, log) && Listed(layout, log)
  {
    LogKeyIsLogKey(layout, input);
  }

  /** A pass over two entries that ends at the first. */
  lemma FirstEnds(layout: Layout, s: State, a: CheckEvent, b: CheckEvent)
    requires Listed(layout, a.key) && Listed(layout, b.key) && Fatal(s.objects, a)
    requires a.key in s.objects && s.objects[a.key] == Log(Entry(None, None))
    ensures CheckAll(layout, s, [a, b]) == Outcome(s, true)
  {
    hide CheckOne, Listed, Fatal;
    FatalStops(layout, s, a);
    NoIdUntouched(layout, s, a);
    var none: seq<CheckEvent> := [];
    assert [a][..0] == none && CheckAll(layout, s, [a]) == Outcome(s, true);
    assert [a, b][..1] == [a];
  }

  /** A run that submits an input, gets an empty id, and then reads two entries, that of the input first. */
  lemma EmptyIdStopsNext(layout: Layout, s: State, e: InputEvent, a: CheckEvent, b: CheckEvent)
    requires layout.input <= e.key && IsAudio(e.key) && LogKey(layout, e.key) == a.key && a.key !in s.objects
    requires e.response.Accepted? && e.response.body.id == Some("") && e.putOk && a.getOk
    requires Listed(layout, b.key)
    ensures ValidScript(layout, Script([e], [a, b]))
    ensures RunScript(layout, s, Script([e], [a, b])).objects == s.objects[a.key := Log(Entry(None, None))]
  {
    hide IsAudio, LogKey, Listed, CheckAll, Fatal;
    ExampleKey(layout, e.key, a.key);
    var processed := ProcessOne(layout, s, e).state;
    NoIdIsFatal(layout, processed.objects, a);
    FirstEnds(layout, processed, a, b);
    var none: seq<InputEvent> := [];
    assert [e][..0] == none && ProcessAll(layout, s, [e]) == Outcome(processed, false);
  }

  lemma ExampleKeys()
    ensures var layout := Layout("in", "log", "out");
            && layout.input <= "in/a.mp3" && LogKey(layout, "in/a.mp3") == "log/a.mp3.json" != "log/b.mp3.json"
            && Listed(layout, "log/a.mp3.json") && Listed(layout, "log/b.mp3.json")
  {
    hide LogKey, Listed, IsLogKey;
    var layout := Layout("in", "log", "out");
    KeyAfter("/a.mp3");
    KeyAfter("/b.mp3");
    assert "in" + "/a.mp3" == "in/a.mp3" && "in" + "/b.mp3" == "in/b.mp3";
    assert "log" + "/a.mp3" + ".json" == "log/a.mp3.json" && "log" + "/b.mp3" + ".json" == "log/b.mp3.json";
    ExampleKey(layout, "in/a.mp3", "log/a.mp3.json");
    ExampleKey(layout, "in/b.mp3", "log/b.mp3.json");
    assert "log/a.mp3.json"[4] != "log/b.mp3.json"[4];
  }

  lemma KeyAfter(rest: string)
    ensures LogKey(Layout("in", "log", "out"), "in" + rest) == "log" + rest + ".json"
  {
    assert ("in" + rest)[2..] == rest;
  }

  /** Such a run: the entry of `a` is written without an id; the operation of `b` is done, and yet `b` is
      not completed, because its entry comes after that of `a`. */
  lemma EmptyIdExample()
    ensures var layout := Layout("in", "log", "out");
            var pending := Log(Entry(Some("op"), Some(false)));
            var script := Script([InputEvent("in/a.mp3", false, Accepted(Entry(Some(""), Some(false))), true, false)],
                                 [CheckEvent("log/a.mp3.json", true, NoAnswer, true, true, true, false),
                                  CheckEvent("log/b.mp3.json", true, Answered(Reply(true, None)), true, true, true,
                                             false)]);
            && ValidScript(layout, script)
            && RunScript(layout, State(map["log/b.mp3.json" := pending], []), script).objects
               == map["log/a.mp3.json" := Log(Entry(None, None)), "log/b.mp3.json" := pending]
  {
    var layout := Layout("in", "log", "out");
    var e := InputEvent("in/a.mp3", false, Accepted(Entry(Some(""), Some(false))), true, false);
    var (a, b) := (CheckEvent("log/a.mp3.json", true, NoAnswer, true, true, true, false),
                   CheckEvent("log/b.mp3.json", true, Answered(Reply(true, None)), true, true, true, false));
    hide *;
    AudioExample();
    ExampleKeys();
    EmptyIdStopsNext(layout, State(map[b.key := Log(Entry(Some("op"), Some(false)))], []), e, a, b);
  }
}
