/** SpeechKitTtsClient.SynthesizeTxtLine: a text is cut after punctuation and sent in small buffers. */
module TtsChunker {
  import opened Whitespace

  const MAX_LINE_LENGTH: nat := 160

  predicate IsCut(ch: char) {
    ch == '.' || ch == ',' || ch == ';'
  }

  /** Regex.Split with the lookbehind (?<=[.,;]): a cut after every such character. */
  function Parts(text: string): (parts: seq<string>)
    ensures parts != []
  {
    if text == "" then [""]
    else
      var rest := Parts(text[1..]);
      if IsCut(text[0]) then [[text[0]]] + rest else [[text[0]] + rest[0]] + rest[1..]
  }

  function Concat(texts: seq<string>): string {
    if texts == [] then "" else texts[0] + Concat(texts[1..])
  }

  /** Nothing of the text is lost. */
  lemma {:induction false} PartsConcat(text: string)
    ensures Concat(Parts(text)) == text
    decreases |text|
  {
    hide Concat;
    if text == "" {
      OnePart("");
    } else {
      var rest := Parts(text[1..]);
      PartsConcat(text[1..]);
      ConcatHead([text[0]], rest);
      ConcatHead(rest[0], rest[1..]);
      ConcatHead([text[0]] + rest[0], rest[1..]);
      assert rest == [rest[0]] + rest[1..];
      assert text == [text[0]] + text[1..];
      assert [text[0]] + rest[0] + Concat(rest[1..]) == [text[0]] + (rest[0] + Concat(rest[1..]));
    }
  }

  lemma OnePart(part: string)
    ensures Concat([part]) == part
  {
    assert [part][1..] == [];
  }

  lemma ConcatHead(part: string, rest: seq<string>)
    ensures Concat([part] + rest) == part + Concat(rest)
  {
    assert ([part] + rest)[1..] == rest;
  }

  /** A cut character ends every part but the last, and is nowhere else. */
  predicate WellCut(parts: seq<string>) {
    && parts != [] && NoCut(parts[|parts| - 1])
    && forall i :: 0 <= i < |parts| - 1 ==>
         parts[i] != "" && IsCut(parts[i][|parts[i]| - 1]) && NoCut(parts[i][..|parts[i]| - 1])
  }

  lemma {:induction false} PartsWellCut(text: string)
    ensures WellCut(Parts(text))
    decreases |text|
  {
    if text != "" {
      PartsWellCut(text[1..]);
      if IsCut(text[0]) {
        CutAlone(text[0], Parts(text[1..]));
      } else {
        CutLater(text[0], Parts(text[1..]));
      }
    }
  }

  lemma CutAlone(ch: char, rest: seq<string>)
    requires IsCut(ch) && WellCut(rest)
    ensures WellCut([[ch]] + rest)
  {
  }

  lemma CutLater(ch: char, rest: seq<string>)
    requires !IsCut(ch) && WellCut(rest)
    ensures WellCut([[ch] + rest[0]] + rest[1..])
  {
    var parts := [[ch] + rest[0]] + rest[1..];
    assert forall i :: 1 <= i < |parts| ==> parts[i] == rest[i];
    if |parts| > 1 {
      var front := rest[0][..|rest[0]| - 1];
      assert parts[0][..|parts[0]| - 1] == [ch] + front;
    }
  }

  predicate NoCut(part: string) {
    forall i :: 0 <= i < |part| ==> !IsCut(part[i])
  }

  // ---------------------------------------------------------------------------------------------
  // Lengths

  /** The Length of a .NET string: UTF-16 units, two for a character beyond U+FFFF. */
  function Units(s: string): (n: nat)
    ensures n >= |s| && (n == 0 <==> s == "")
  {
    if s == "" then 0 else Units(s[..|s| - 1]) + (if s[|s| - 1] > '\U{FFFF}' then 2 else 1)
  }

  lemma {:induction false} UnitsAppend(a: string, b: string)
    ensures Units(a + b) == Units(a) + Units(b)
    decreases |b|
  {
    if b == "" {
      assert a + b == a;
    } else {
      assert (a + b)[..|a + b| - 1] == a + b[..|b| - 1];
      UnitsAppend(a, b[..|b| - 1]);
    }
  }

  /** A character counts once, and one that UTF-16 writes as a pair of surrogates twice. */
  lemma UnitsOf(ch: char)
    ensures Units([ch]) == if ch as int < 0x1_0000 then 1 else 2
  {
    assert [ch][..0] == "";
  }

  // ---------------------------------------------------------------------------------------------
  // The loop

  /** What has been sent, and what is waiting. */
  datatype State = State(sent: seq<string>, buffer: string)

  function Take(s: State, line: string, newLine: string): State {
    if IsBlank(line) then s
    else if Units(s.buffer) + Units(line) >= MAX_LINE_LENGTH then State(s.sent + [s.buffer], line + newLine)
    else State(s.sent, s.buffer + (line + newLine))
  }

  function TakeAll(parts: seq<string>, newLine: string): State {
    if parts == [] then State([], "") else Take(TakeAll(parts[..|parts| - 1], newLine), parts[|parts| - 1], newLine)
  }

  function Buffers(parts: seq<string>, newLine: string): seq<string> {
    var s := TakeAll(parts, newLine);
    if |s.buffer| > 0 then s.sent + [s.buffer] else s.sent
  }

  method SynthesizeTxtLine(text: string, newLine: string) returns (sent: seq<string>)
    ensures sent == Buffers(Parts(text), newLine)
  {
    var ttsBuffer := "";
    sent := [];
    var parts := Parts(text);
    assert parts[..0] == [];
    for i := 0 to |parts|
      invariant State(sent, ttsBuffer) == TakeAll(parts[..i], newLine)
    {
      var line := parts[i];
      assert parts[..i + 1][..i] == parts[..i];
      if !IsBlank(line) {
        if Units(ttsBuffer) + Units(line) >= MAX_LINE_LENGTH {
          sent := sent + [ttsBuffer];
          ttsBuffer := "";
          assert "" + (line + newLine) == line + newLine;
        }
        ttsBuffer := ttsBuffer + (line + newLine);
      }
    }
    assert parts[..|parts|] == parts;
    if |ttsBuffer| > 0 {
      sent := sent + [ttsBuffer];
    }
  }

  // ---------------------------------------------------------------------------------------------
  // Conservation and bound

  /** The parts that are not blank, each on its own line. */
  function Spoken(parts: seq<string>, newLine: string): string {
    if parts == [] then ""
    else
      var last := parts[|parts| - 1];
      Spoken(parts[..|parts| - 1], newLine) + (if IsBlank(last) then "" else last + newLine)
  }

  lemma {:induction false} ConcatAppend(texts: seq<string>, text: string)
    ensures Concat(texts + [text]) == Concat(texts) + text
    decreases |texts|
  {
    if texts == [] {
      assert texts + [text] == [text] && [text][1..] == [];
      assert Concat([text]) == text + "";
    } else {
      assert (texts + [text])[1..] == texts[1..] + [text];
      ConcatAppend(texts[1..], text);
    }
  }

  /** A buffer that fits, or one long part alone. */
  predicate Fits(buffer: string, parts: seq<string>, newLine: string) {
    || Units(buffer) <= MAX_LINE_LENGTH - 1 + Units(newLine)
    || exists i :: 0 <= i < |parts| && Units(parts[i]) >= MAX_LINE_LENGTH && buffer == parts[i] + newLine
  }

  /** The first part that is not blank, if there is one, is at least MAX_LINE_LENGTH long. */
  predicate LongStart(parts: seq<string>) {
    exists i :: 0 <= i < |parts| && !IsBlank(parts[i]) && Units(parts[i]) >= MAX_LINE_LENGTH
                && forall j :: 0 <= j < i ==> IsBlank(parts[j])
  }

  predicate AllBlank(parts: seq<string>) {
    forall i :: 0 <= i < |parts| ==> IsBlank(parts[i])
  }

  lemma LongStartStep(parts: seq<string>)
    requires parts != []
    ensures var (front, last) := (parts[..|parts| - 1], parts[|parts| - 1]);
            && (AllBlank(parts) <==> AllBlank(front) && IsBlank(last))
            && (LongStart(parts) <==>
                LongStart(front) || (AllBlank(front) && !IsBlank(last) && Units(last) >= MAX_LINE_LENGTH))
  {
    hide IsBlank, Units;
    var (front, last) := (parts[..|parts| - 1], parts[|parts| - 1]);
    assert forall i :: 0 <= i < |front| ==> front[i] == parts[i];
    if LongStart(front) {
      var i :| 0 <= i < |front| && !IsBlank(front[i]) && Units(front[i]) >= MAX_LINE_LENGTH
               && forall j :: 0 <= j < i ==> IsBlank(front[j]);
      assert !IsBlank(parts[i]);
    }
    if LongStart(parts) {
      var i :| 0 <= i < |parts| && !IsBlank(parts[i]) && Units(parts[i]) >= MAX_LINE_LENGTH
               && forall j :: 0 <= j < i ==> IsBlank(parts[j]);
      if i < |front| {
        assert !IsBlank(front[i]);
      }
    }
    if AllBlank(front) && !IsBlank(last) && Units(last) >= MAX_LINE_LENGTH {
      assert !IsBlank(parts[|parts| - 1]);
    }
  }

  lemma FitsLater(buffer: string, parts: seq<string>, newLine: string)
    requires parts != [] && Fits(buffer, parts[..|parts| - 1], newLine)
    ensures Fits(buffer, parts, newLine)
  {
    var front := parts[..|parts| - 1];
    if Units(buffer) > MAX_LINE_LENGTH - 1 + Units(newLine) {
      var i :| 0 <= i < |front| && Units(front[i]) >= MAX_LINE_LENGTH && buffer == front[i] + newLine;
      assert parts[i] == front[i];
    }
  }

  /** What the loop has done with the parts so far. */
  predicate Done(s: State, parts: seq<string>, newLine: string) {
    && Concat(s.sent) + s.buffer == Spoken(parts, newLine)
    && Fits(s.buffer, parts, newLine)
    && (forall k :: 0 <= k < |s.sent| ==> Fits(s.sent[k], parts, newLine))
    && (s.buffer == "" <==> AllBlank(parts))
    && (s.buffer == "" ==> s.sent == [])
    && (s.sent != [] && s.sent[0] == "" <==> LongStart(parts))
    && (forall k :: 1 <= k < |s.sent| ==> s.sent[k] != "")
  }

  lemma BlankStep(s: State, parts: seq<string>, newLine: string)
    requires parts != [] && IsBlank(parts[|parts| - 1]) && Done(s, parts[..|parts| - 1], newLine)
    ensures Done(s, parts, newLine)
  {
    hide IsBlank, Fits, LongStart, AllBlank, Concat;
    LongStartStep(parts);
    FitsLater(s.buffer, parts, newLine);
    forall k | 0 <= k < |s.sent|
      ensures Fits(s.sent[k], parts, newLine)
    {
      FitsLater(s.sent[k], parts, newLine);
    }
    assert Spoken(parts[..|parts| - 1], newLine) + "" == Spoken(parts[..|parts| - 1], newLine);
  }

  lemma SpokenLast(s: State, parts: seq<string>, newLine: string)
    requires parts != [] && !IsBlank(parts[|parts| - 1])
    requires Concat(s.sent) + s.buffer == Spoken(parts[..|parts| - 1], newLine)
    ensures var after := Take(s, parts[|parts| - 1], newLine);
            Concat(after.sent) + after.buffer == Spoken(parts, newLine)
  {
    hide IsBlank, Concat;
    var last := parts[|parts| - 1];
    ConcatAppend(s.sent, s.buffer);
    assert Concat(s.sent) + (s.buffer + (last + newLine)) == Concat(s.sent) + s.buffer + (last + newLine);
  }

  lemma SpokenStep(s: State, parts: seq<string>, newLine: string)
    requires newLine != "" && parts != [] && !IsBlank(parts[|parts| - 1]) && Done(s, parts[..|parts| - 1], newLine)
    ensures Done(Take(s, parts[|parts| - 1], newLine), parts, newLine)
  {
    hide IsBlank, Fits, LongStart, AllBlank, Concat, Spoken, Units;
    var (front, last) := (parts[..|parts| - 1], parts[|parts| - 1]);
    var after := Take(s, last, newLine);
    LongStartStep(parts);
    FitsLater(s.buffer, parts, newLine);
    BufferFits(after.buffer, s.buffer, parts, newLine);
    forall k | 0 <= k < |s.sent|
      ensures Fits(s.sent[k], parts, newLine)
    {
      FitsLater(s.sent[k], parts, newLine);
    }
    SpokenLast(s, parts, newLine);
  }

  lemma {:induction false} LoopMeaning(parts: seq<string>, newLine: string)
    requires newLine != ""
    ensures Done(TakeAll(parts, newLine), parts, newLine)
    decreases |parts|
  {
    hide Done, IsBlank;
    if parts == [] {
      NoParts(newLine);
    } else {
      LoopMeaning(parts[..|parts| - 1], newLine);
      if IsBlank(parts[|parts| - 1]) {
        BlankStep(TakeAll(parts[..|parts| - 1], newLine), parts, newLine);
      } else {
        SpokenStep(TakeAll(parts[..|parts| - 1], newLine), parts, newLine);
      }
    }
  }

  lemma NoParts(newLine: string)
    ensures Done(State([], ""), [], newLine)
  {
  }

  lemma BufferFits(buffer: string, before: string, parts: seq<string>, newLine: string)
    requires parts != []
    requires var last := parts[|parts| - 1];
             buffer == if Units(before) + Units(last) >= MAX_LINE_LENGTH then last + newLine
                       else before + (last + newLine)
    ensures Fits(buffer, parts, newLine)
  {
    hide Units;
    UnitsAppend(before, parts[|parts| - 1] + newLine);
    UnitsAppend(parts[|parts| - 1], newLine);
  }

  /** Every part that is not blank is sent, in order, on a line of its own, and nothing else is. A buffer
      has at most MAX_LINE_LENGTH - 1 units and a line break unless it is a single part that is
      itself at least MAX_LINE_LENGTH long. */
  lemma ChunkerConserves(text: string, newLine: string)
    requires newLine != ""
    ensures var sent := Buffers(Parts(text), newLine);
            && Concat(sent) == Spoken(Parts(text), newLine)
            && forall k :: 0 <= k < |sent| ==> Fits(sent[k], Parts(text), newLine)
  {
    hide Fits, Spoken, Parts, TakeAll, Units;
    var parts := Parts(text);
    LoopMeaning(parts, newLine);
    var s := TakeAll(parts, newLine);
    ConcatAppend(s.sent, s.buffer);
    assert Concat(s.sent) + "" == Concat(s.sent);
  }

  /** An empty buffer is sent exactly when the first part that is not blank is too long for one line,
      and then it is the first buffer and the only empty one. */
  lemma EmptyBufferSent(text: string, newLine: string)
    requires newLine != ""
    ensures var sent := Buffers(Parts(text), newLine);
            && ("" in sent <==> LongStart(Parts(text)))
            && forall k :: 1 <= k < |sent| ==> sent[k] != ""
  {
    hide Fits, Spoken, Parts, TakeAll, LongStart;
    LoopMeaning(Parts(text), newLine);
  }

  lemma {:induction false} UncutIsOnePart(text: string)
    requires NoCut(text)
    ensures Parts(text) == [text]
    decreases |text|
  {
    if text != "" {
      UncutIsOnePart(text[1..]);
      assert text == [text[0]] + text[1..];
    }
  }

  predicate Plain(text: string) {
    forall i :: 0 <= i < |text| ==> text[i] !in {'.', ',', ';'}
  }

  /** A text is cut after its first point, comma or semicolon, if it has one, and the rest in the same way. */
  lemma {:induction false} CutOff(before: string, ch: char, rest: string)
    requires Plain(before)
    ensures Parts(before) == [before]
    ensures ch in {'.', ',', ';'} ==> Parts(before + [ch] + rest) == [before + [ch]] + Parts(rest)
    decreases |before|
  {
    UncutIsOnePart(before);
    if ch in {'.', ',', ';'} {
      var text := before + [ch] + rest;
      if before == "" {
        assert text[1..] == rest && [ch] == "" + [ch];
      } else {
        assert text[1..] == before[1..] + [ch] + rest;
        CutOff(before[1..], ch, rest);
        var parts := Parts(text[1..]);
        assert parts[0] == before[1..] + [ch] && parts[1..] == Parts(rest);
        assert [text[0]] + (before[1..] + [ch]) == before + [ch];
      }
    }
  }

  lemma {:induction false} PlainUnits(n: nat)
    ensures Units(seq(n, _ => 'a')) == n
    decreases n
  {
    if n > 0 {
      var text := seq(n, _ => 'a');
      assert text == seq(n - 1, _ => 'a') + ['a'];
      UnitsAppend(seq(n - 1, _ => 'a'), ['a']);
      PlainUnits(n - 1);
      UnitsOf('a');
    } else {
      assert seq(0, _ => 'a') == "";
    }
  }

  /** One letter less, and it is sent as it is. */
  lemma ShortWordFits(newLine: string)
    requires newLine != ""
    ensures Buffers(Parts(seq(159, _ => 'a')), newLine) == [seq(159, _ => 'a') + newLine]
  {
    hide Parts, Units;
    var text := seq(159, _ => 'a');
    UncutIsOnePart(text);
    PlainUnits(159);
    NoUnits();
    assert text[0] == 'a' && !IsBlank(text);
    assert [text][..0] == [];
    assert "" + (text + newLine) == text + newLine;
    var none: seq<string> := [];
    assert TakeAll([text], newLine) == State(none, text + newLine);
    assert none + [text + newLine] == [text + newLine];
  }

  lemma NoUnits()
    ensures Units("") == 0
  {
  }

  /** Such a text exists: 160 letters without punctuation. The service is first sent nothing. */
  lemma LongWordSendsNothing(newLine: string)
    requires newLine != ""
    ensures var sent := Buffers(Parts(seq(160, _ => 'a')), newLine); sent != [] && sent[0] == ""
  {
    hide Buffers, Parts, Units;
    var text := seq(160, _ => 'a');
    UncutIsOnePart(text);
    assert text[0] == 'a' && !IsBlank(text);
    assert Units([text][0]) >= MAX_LINE_LENGTH && LongStart([text]);
    EmptyBufferSent(text, newLine);
  }

  /** The buffer after `before` begins with a part that did not fit any more. */
  predicate Forced(before: string, next: string, parts: seq<string>, newLine: string) {
    exists i :: 0 <= i < |parts| && Units(before) + Units(parts[i]) >= MAX_LINE_LENGTH && parts[i] + newLine <= next
  }

  function BufferAfter(s: State, k: nat): string
    requires k < |s.sent|
  {
    if k + 1 < |s.sent| then s.sent[k + 1] else s.buffer
  }

  predicate Greedy(s: State, parts: seq<string>, newLine: string) {
    forall k :: 0 <= k < |s.sent| ==> Forced(s.sent[k], BufferAfter(s, k), parts, newLine)
  }

  lemma ForcedLater(before: string, next: string, later: string, parts: seq<string>, newLine: string)
    requires parts != [] && Forced(before, next, parts[..|parts| - 1], newLine) && next <= later
    ensures Forced(before, later, parts, newLine)
  {
    var front := parts[..|parts| - 1];
    var i :| 0 <= i < |front| && Units(before) + Units(front[i]) >= MAX_LINE_LENGTH && front[i] + newLine <= next;
    assert parts[i] == front[i];
  }

  lemma {:induction false} LoopGreedy(parts: seq<string>, newLine: string)
    ensures Greedy(TakeAll(parts, newLine), parts, newLine)
    decreases |parts|
  {
    hide Forced, IsBlank;
    if parts != [] {
      var (front, last) := (parts[..|parts| - 1], parts[|parts| - 1]);
      LoopGreedy(front, newLine);
      var (before, s) := (TakeAll(front, newLine), TakeAll(parts, newLine));
      forall k | 0 <= k < |s.sent|
        ensures Forced(s.sent[k], BufferAfter(s, k), parts, newLine)
      {
        if k < |before.sent| {
          assert s.sent[k] == before.sent[k] && BufferAfter(before, k) <= BufferAfter(s, k);
          ForcedLater(before.sent[k], BufferAfter(before, k), BufferAfter(s, k), parts, newLine);
        } else {
          ForcedNow(before.buffer, parts, newLine);
        }
      }
    }
  }

  lemma ForcedNow(before: string, parts: seq<string>, newLine: string)
    requires parts != [] && Units(before) + Units(parts[|parts| - 1]) >= MAX_LINE_LENGTH
    ensures Forced(before, parts[|parts| - 1] + newLine, parts, newLine)
  {
    var last := parts[|parts| - 1];
    assert last + newLine <= last + newLine;
  }

  /** A buffer is sent only when it has to be: with the part that begins the next one it would have
      reached MAX_LINE_LENGTH. */
  lemma ChunkerIsGreedy(text: string, newLine: string)
    ensures var sent := Buffers(Parts(text), newLine);
            forall k :: 0 <= k < |sent| - 1 ==> Forced(sent[k], sent[k + 1], Parts(text), newLine)
  {
    hide Forced, Parts, TakeAll;
    LoopGreedy(Parts(text), newLine);
    var (s, sent) := (TakeAll(Parts(text), newLine), Buffers(Parts(text), newLine));
    forall k | 0 <= k < |sent| - 1
      ensures Forced(sent[k], sent[k + 1], Parts(text), newLine)
    {
      assert s.sent[k] == sent[k] && BufferAfter(s, k) == sent[k + 1];
    }
  }
}
