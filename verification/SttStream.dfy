/** SpeechKitSttStreamClient: audio chunks sent over streaming sessions that are rotated by byte count. */
module SttStream {
  import opened Wrappers

  newtype byte = b: int | 0 <= b < 256

  type Chunk = seq<byte>

  datatype Message = Options | Audio(data: Chunk)

  /** What the service accepted in one session. Once a write has failed it accepts nothing more. */
  datatype Session = Session(messages: seq<Message>, broken: bool)

  /** The sessions opened so far, the one the client holds on to, and the client's byte counter. */
  datatype State = State(sessions: seq<Session>, call: Option<nat>, bytesSent: int)

  const MAX_BYTES_SENT: int := 10 * 1024 * 1024

  const NEW_CLIENT := State([], None, 0)

  /** Whether opening a session, writing its options and writing the audio succeed in one attempt. */
  datatype Attempt = Attempt(openOk: bool, optionsOk: bool, audioOk: bool)

  /** 32-bit addition. */
  function Add32(a: int, b: int): int {
    (a + b + 0x8000_0000) % 0x1_0000_0000 - 0x8000_0000
  }

  predicate Holds(s: State) {
    s.call.Some? ==> s.call.value < |s.sessions|
  }

  /** A write to the session the client holds: it is accepted, or it breaks the session. */
  function Write(s: State, message: Message, ok: bool): (State, bool)
    requires Holds(s) && s.call.Some?
  {
    var session := s.sessions[s.call.value];
    if ok && !session.broken then
      (s.(sessions := s.sessions[s.call.value := Session(session.messages + [message], false)]), true)
    else
      (s.(sessions := s.sessions[s.call.value := session.(broken := true)]), false)
  }

  function ActiveCall(s: State, a: Attempt): (r: (State, bool))
    requires Holds(s)
    ensures Holds(r.0) && (r.1 ==> r.0.call.Some?)
  {
    if s.call.Some? then (s, true)
    else if !a.openOk then (s, false)
    else Write(State(s.sessions + [Session([], false)], Some(|s.sessions|), 0), Options, a.optionsOk)
  }

  function WriteAudio(s: State, chunk: Chunk, a: Attempt): (r: (State, bool))
    requires Holds(s)
    ensures Holds(r.0)
  {
    var (ready, ok) := ActiveCall(s, a);
    if ok then Write(ready, Audio(chunk), a.audioOk) else (ready, false)
  }

  /** One chunk from the listener; false is an exception. */
  function Send(s: State, chunk: Chunk, first: Attempt, retry: Attempt): (r: (State, bool))
    requires Holds(s)
    ensures Holds(r.0)
  {
    var counted := s.(bytesSent := Add32(s.bytesSent, |chunk|));
    var rotated := if counted.bytesSent >= MAX_BYTES_SENT then counted.(call := None) else counted;
    var (tried, ok) := WriteAudio(rotated, chunk, first);
    if ok then (tried, true) else WriteAudio(tried.(call := None), chunk, retry)
  }

  // ---------------------------------------------------------------------------------------------
  // The client

  class SpeechKitSttStreamClient {
    var sessions: seq<Session>
    var call: Option<nat>
    var bytesSent: int

    function Snapshot(): State
      reads this
    {
      State(sessions, call, bytesSent)
    }

    constructor ()
      ensures Snapshot() == NEW_CLIENT
    {
      sessions, call, bytesSent := [], None, 0;
    }

    method WriteMessage(message: Message, ok: bool) returns (accepted: bool)
      requires Holds(Snapshot()) && call.Some?
      modifies this
      ensures (Snapshot(), accepted) == Write(old(Snapshot()), message, ok)
    {
      var session := sessions[call.value];
      accepted := ok && !session.broken;
      if accepted {
        sessions := sessions[call.value := Session(session.messages + [message], false)];
      } else {
        sessions := sessions[call.value := session.(broken := true)];
      }
    }

    method GetActiveCall(a: Attempt) returns (ok: bool)
      requires Holds(Snapshot())
      modifies this
      ensures (Snapshot(), ok) == ActiveCall(old(Snapshot()), a)
    {
      if call.Some? {
        return true;
      }
      if !a.openOk {
        return false;
      }
      sessions := sessions + [Session([], false)];
      call := Some(|sessions| - 1);
      bytesSent := 0;
      ok := WriteMessage(Options, a.optionsOk);
    }

    method TryWriteAudio(audioData: Chunk, a: Attempt) returns (ok: bool)
      requires Holds(Snapshot())
      modifies this
      ensures (Snapshot(), ok) == WriteAudio(old(Snapshot()), audioData, a)
    {
      ok := GetActiveCall(a);
      if ok {
        ok := WriteMessage(Audio(audioData), a.audioOk);
      }
    }

    method ListenerSpeechKitSend(audioData: Chunk, first: Attempt, retry: Attempt) returns (ok: bool)
      requires Holds(Snapshot())
      modifies this
      ensures (Snapshot(), ok) == Send(old(Snapshot()), audioData, first, retry)
    {
      hide Add32, WriteAudio;
      bytesSent := Add32(bytesSent, |audioData|);
      if bytesSent >= MAX_BYTES_SENT {
        call := None;
      }
      ok := TryWriteAudio(audioData, first);
      if !ok {
        call := None;
        ok := TryWriteAudio(audioData, retry);
      }
    }
  }

  // ---------------------------------------------------------------------------------------------
  // What the service has received

  function AudioIn(messages: seq<Message>): seq<Chunk> {
    if messages == [] then []
    else
      var last := messages[|messages| - 1];
      AudioIn(messages[..|messages| - 1]) + (if last.Audio? then [last.data] else [])
  }

  /** The audio chunks of all sessions, in order. */
  function Received(sessions: seq<Session>): seq<Chunk> {
    if sessions == [] then []
    else Received(sessions[..|sessions| - 1]) + AudioIn(sessions[|sessions| - 1].messages)
  }

  function TotalLength(chunks: seq<Chunk>): nat {
    if chunks == [] then 0 else TotalLength(chunks[..|chunks| - 1]) + |chunks[|chunks| - 1]|
  }

  /** The length of all chunks but the first. */
  function AfterFirst(chunks: seq<Chunk>): nat {
    if chunks == [] then 0 else TotalLength(chunks[1..])
  }

  /** The options first, and once; nothing at all only if even they were refused. */
  predicate WellOpened(session: Session) {
    (session.messages == [] && session.broken)
    || (session.messages != [] && session.messages[0] == Options
        && forall i :: 0 < i < |session.messages| ==> session.messages[i].Audio?)
  }

  predicate Bounded(session: Session) {
    AfterFirst(AudioIn(session.messages)) < MAX_BYTES_SENT
  }

  /** The client only ever writes to the newest session. If no counter wraps around (`exact`), the counter
      covers all of that session's audio but the first chunk. */
  predicate Valid(s: State, exact: bool) {
    && (s.call.Some? ==> |s.sessions| > 0 && s.call.value == |s.sessions| - 1)
    && (s.call.Some? && exact ==>
          0 <= s.bytesSent < MAX_BYTES_SENT && AfterFirst(AudioIn(s.sessions[s.call.value].messages)) <= s.bytesSent)
    && (forall i :: 0 <= i < |s.sessions| ==> WellOpened(s.sessions[i]) && (exact ==> Bounded(s.sessions[i])))
  }

  lemma AudioStep(messages: seq<Message>, message: Message)
    ensures AudioIn(messages + [message]) == AudioIn(messages) + (if message.Audio? then [message.data] else [])
  {
    assert (messages + [message])[..|messages|] == messages;
  }

  lemma LengthStep(chunks: seq<Chunk>, chunk: Chunk)
    ensures AfterFirst(chunks + [chunk]) == if chunks == [] then 0 else AfterFirst(chunks) + |chunk|
  {
    if chunks == [] {
      assert (chunks + [chunk])[1..] == [];
    } else {
      var rest := chunks[1..];
      assert (chunks + [chunk])[1..] == rest + [chunk];
      assert (rest + [chunk])[..|rest|] == rest;
    }
  }

  lemma ReceivedUpdate(sessions: seq<Session>, session: Session)
    requires sessions != []
    ensures var i := |sessions| - 1;
            Received(sessions[i := session]) == Received(sessions[..i]) + AudioIn(session.messages)
  {
    assert sessions[|sessions| - 1 := session][..|sessions| - 1] == sessions[..|sessions| - 1];
  }

  /** An audio write to the newest session. */
  lemma AudioWritten(s: State, chunk: Chunk, ok: bool, exact: bool)
    requires Valid(s, exact) && s.call.Some?
    requires exact && AudioIn(s.sessions[s.call.value].messages) != [] ==>
               AfterFirst(AudioIn(s.sessions[s.call.value].messages)) + |chunk| <= s.bytesSent
    ensures var (after, accepted) := Write(s, Audio(chunk), ok);
            Valid(after, exact) && Received(after.sessions) == Received(s.sessions) + (if accepted then [chunk] else [])
  {
    hide AudioIn, AfterFirst, Received;
    var session := s.sessions[s.call.value];
    var (after, accepted) := Write(s, Audio(chunk), ok);
    AudioStep(session.messages, Audio(chunk));
    LengthStep(AudioIn(session.messages), chunk);
    ReceivedUpdate(s.sessions, after.sessions[s.call.value]);
    ReceivedUpdate(s.sessions, session);
    assert s.sessions[s.call.value := session] == s.sessions;
    if !accepted {
      NoMoreAudio(session);
    } else {
      assert session.messages != [];
    }
  }

  lemma NoMoreAudio(session: Session)
    requires WellOpened(session)
    ensures WellOpened(session.(broken := true))
  {
  }

  /** Opening a session, when the client holds none. */
  lemma SessionOpened(s: State, a: Attempt, exact: bool)
    requires Valid(s, exact)
    ensures var (after, ok) := ActiveCall(s, a);
            && Valid(after, exact) && Received(after.sessions) == Received(s.sessions) && (ok ==> after.call.Some?)
            && (s.call.None? && ok ==> AudioIn(after.sessions[after.call.value].messages) == [])
            && (s.call.Some? ==> after == s)
  {
    if s.call.None? && a.openOk {
      var (after, ok) := ActiveCall(s, a);
      assert after.sessions[..|s.sessions|] == s.sessions;
      assert AudioIn([]) == [];
      AudioStep([], Options);
      assert [] + [Options] == [Options];
      assert AfterFirst([]) == 0;
    }
  }

  /** One attempt to write a chunk. */
  lemma AttemptMade(s: State, chunk: Chunk, a: Attempt, exact: bool)
    requires Valid(s, exact)
    requires exact && s.call.Some? ==> AfterFirst(AudioIn(s.sessions[s.call.value].messages)) + |chunk| <= s.bytesSent
    ensures var (after, ok) := WriteAudio(s, chunk, a);
            Valid(after, exact) && Received(after.sessions) == Received(s.sessions) + (if ok then [chunk] else [])
  {
    hide AudioIn, AfterFirst, Received, ActiveCall, Write;
    SessionOpened(s, a, exact);
    var (ready, ok) := ActiveCall(s, a);
    if ok {
      AudioWritten(ready, chunk, a.audioOk, exact);
    }
  }

  /** The longest chunk for which the counter cannot wrap around: it is at most MAX_BYTES_SENT - 1 before. */
  const MAX_CHUNK: int := 0x7FFF_FFFF - MAX_BYTES_SENT + 1

  lemma NoWrap(bytesSent: int, n: nat)
    requires 0 <= bytesSent < MAX_BYTES_SENT && n <= MAX_CHUNK
    ensures Add32(bytesSent, n) == bytesSent + n
  {
  }

  /** The sum as a 32-bit number: it differs by a whole multiple of 2^32. */
  lemma SumIn32Bits(a: int, b: int)
    ensures -0x8000_0000 <= Add32(a, b) < 0x8000_0000 && (Add32(a, b) - (a + b)) % 0x1_0000_0000 == 0
  {
  }

  lemma ChunkSent(s: State, chunk: Chunk, first: Attempt, retry: Attempt, exact: bool)
    requires Valid(s, exact) && (exact ==> |chunk| <= MAX_CHUNK)
    ensures var (after, ok) := Send(s, chunk, first, retry);
            Valid(after, exact) && Received(after.sessions) == Received(s.sessions) + (if ok then [chunk] else [])
  {
    hide AudioIn, AfterFirst, Received, WriteAudio, Add32;
    var counted := s.(bytesSent := Add32(s.bytesSent, |chunk|));
    var rotated := if counted.bytesSent >= MAX_BYTES_SENT then counted.(call := None) else counted;
    if exact && s.call.Some? {
      NoWrap(s.bytesSent, |chunk|);
    }
    AttemptMade(rotated, chunk, first, exact);
    var (tried, ok) := WriteAudio(rotated, chunk, first);
    if !ok {
      AttemptMade(tried.(call := None), chunk, retry, exact);
    }
  }

  /** Whatever is wrong with the session in use, a send throws only if the retry itself meets a failure. */
  lemma RetrySucceeds(s: State, chunk: Chunk, first: Attempt, retry: Attempt)
    requires Valid(s, false)
    ensures retry.openOk && retry.optionsOk && retry.audioOk ==> Send(s, chunk, first, retry).1
  {
    hide Add32, AudioIn, AfterFirst;
  }

  // ---------------------------------------------------------------------------------------------
  // Any sequence of chunks

  datatype Event = Event(chunk: Chunk, first: Attempt, retry: Attempt)

  /** The state after the events, and the chunks whose send returned normally. */
  function SendAll(s: State, events: seq<Event>): (r: (State, seq<Chunk>))
    requires Holds(s)
    ensures Holds(r.0)
  {
    if events == [] then (s, [])
    else
      var last := events[|events| - 1];
      var (before, delivered) := SendAll(s, events[..|events| - 1]);
      var (after, ok) := Send(before, last.chunk, last.first, last.retry);
      (after, delivered + (if ok then [last.chunk] else []))
  }

  /** No chunk has more than n bytes. */
  predicate AtMost(events: seq<Event>, n: nat) {
    forall i :: 0 <= i < |events| ==> |events[i].chunk| <= n
  }

  lemma {:induction false} AllSent(events: seq<Event>, exact: bool)
    requires exact ==> AtMost(events, MAX_CHUNK)
    ensures var (after, delivered) := SendAll(NEW_CLIENT, events);
            Valid(after, exact) && Received(after.sessions) == delivered
    decreases |events|
  {
    hide AudioIn, AfterFirst, Received, Send;
    if events == [] {
      NothingReceived();
    } else {
      var (front, last) := (events[..|events| - 1], events[|events| - 1]);
      AllSent(front, exact);
      ChunkSent(SendAll(NEW_CLIENT, front).0, last.chunk, last.first, last.retry, exact);
    }
  }

  /** Over any sequence of chunks, rotations and failed writes: all sessions together have received exactly
      the chunks whose send returned normally, in order, and every session that accepted anything begins
      with its one options message. */
  lemma StreamConservation(events: seq<Event>)
    ensures var (after, delivered) := SendAll(NEW_CLIENT, events);
            && Received(after.sessions) == delivered
            && (forall i :: 0 <= i < |after.sessions| ==> WellOpened(after.sessions[i]))
  {
    hide Received, SendAll, WellOpened;
    AllSent(events, false);
  }

  lemma NothingReceived()
    ensures Received([]) == []
  {
  }

  lemma {:induction false} FirstAndRest(chunks: seq<Chunk>)
    requires chunks != []
    ensures TotalLength(chunks) == |chunks[0]| + AfterFirst(chunks)
    decreases |chunks|
  {
    if |chunks| == 1 {
      assert chunks[..0] == [] && chunks[1..] == [];
    } else {
      var front := chunks[..|chunks| - 1];
      FirstAndRest(front);
      assert chunks[1..][..|chunks| - 2] == front[1..];
    }
  }

  /** The bound as the client could state it: the total of a session stays below MAX_BYTES_SENT plus the
      length of its first chunk. */
  predicate WithinBound(session: Session) {
    var audio := AudioIn(session.messages);
    audio != [] ==> TotalLength(audio) < MAX_BYTES_SENT + |audio[0]|
  }

  lemma SessionBound(events: seq<Event>, i: nat)
    requires AtMost(events, MAX_CHUNK)
    requires i < |SendAll(NEW_CLIENT, events).0.sessions|
    ensures WithinBound(SendAll(NEW_CLIENT, events).0.sessions[i])
  {
    hide SendAll, AudioIn;
    AllSent(events, true);
    var audio := AudioIn(SendAll(NEW_CLIENT, events).0.sessions[i].messages);
    if audio != [] {
      FirstAndRest(audio);
    }
  }

  // ---------------------------------------------------------------------------------------------
  // Two and three chunks in one session

  const GOOD := Attempt(true, true, true)

  function OneSession(messages: seq<Message>, bytesSent: int): State {
    State([Session(messages, false)], Some(0), bytesSent)
  }

  lemma FirstSend(chunk: Chunk)
    requires |chunk| < MAX_BYTES_SENT
    ensures Send(NEW_CLIENT, chunk, GOOD, GOOD) == (OneSession([Options, Audio(chunk)], 0), true)
  {
    NoWrap(0, |chunk|);
    hide Add32;
    var empty: seq<Session> := [];
    var counted := State(empty, None, |chunk|);
    assert empty + [Session([], false)] == [Session([], false)];
    var none: seq<Message> := [];
    assert none + [Options] == [Options] && [Options] + [Audio(chunk)] == [Options, Audio(chunk)];
    assert [Session([], false)][0 := Session([Options], false)] == [Session([Options], false)];
    var ready := OneSession([Options], 0);
    assert ActiveCall(counted, GOOD) == (ready, true);
    assert [Session([Options], false)][0 := Session([Options, Audio(chunk)], false)]
        == [Session([Options, Audio(chunk)], false)];
    assert Write(ready, Audio(chunk), true) == (OneSession([Options, Audio(chunk)], 0), true);
  }

  /** While the counter, wrapped around or not, is below the limit, a chunk joins the session in use. */
  lemma NextSend(messages: seq<Message>, bytesSent: int, chunk: Chunk)
    requires Add32(bytesSent, |chunk|) < MAX_BYTES_SENT
    ensures Send(OneSession(messages, bytesSent), chunk, GOOD, GOOD)
            == (OneSession(messages + [Audio(chunk)], Add32(bytesSent, |chunk|)), true)
  {
    hide Add32;
    assert [Session(messages, false)][0 := Session(messages + [Audio(chunk)], false)]
           == [Session(messages + [Audio(chunk)], false)];
  }

  lemma SendOneMore(events: seq<Event>, chunk: Chunk)
    ensures var (before, delivered) := SendAll(NEW_CLIENT, events);
            var (after, ok) := Send(before, chunk, GOOD, GOOD);
            SendAll(NEW_CLIENT, events + [Event(chunk, GOOD, GOOD)])
                == (after, delivered + (if ok then [chunk] else []))
  {
    hide Send;
    var more := events + [Event(chunk, GOOD, GOOD)];
    assert more[..|more| - 1] == events;
  }

  lemma NothingSent()
    ensures SendAll(NEW_CLIENT, []) == (NEW_CLIENT, [])
  {
  }

  /** Two chunks below the limit always share a session: opening it resets the counter after the chunk
      that caused it was added. */
  lemma TwoShare(a: Chunk, b: Chunk)
    requires |a| < MAX_BYTES_SENT && |b| < MAX_BYTES_SENT
    ensures var events := [Event(a, GOOD, GOOD)] + [Event(b, GOOD, GOOD)];
            SendAll(NEW_CLIENT, events) == (OneSession([Options, Audio(a)] + [Audio(b)], |b|), [a] + [b])
  {
    hide Send, SendAll;
    NothingSent();
    SendOneMore([], a);
    var noEvent: seq<Event>, noChunk: seq<Chunk> := [], [];
    assert noEvent + [Event(a, GOOD, GOOD)] == [Event(a, GOOD, GOOD)] && noChunk + [a] == [a];
    FirstSend(a);
    SendOneMore([Event(a, GOOD, GOOD)], b);
    NoWrap(0, |b|);
    NextSend([Options, Audio(a)], 0, b);
  }

  lemma NoAudio()
    ensures AudioIn([Options]) == []
  {
    var none: seq<Message> := [];
    assert [Options][..0] == none;
    assert AudioIn(none) == [];
  }

  lemma LengthOfMore(chunks: seq<Chunk>, chunk: Chunk)
    ensures TotalLength(chunks + [chunk]) == TotalLength(chunks) + |chunk|
  {
    assert (chunks + [chunk])[..|chunks|] == chunks;
  }

  lemma AudioOfTwo(a: Chunk, b: Chunk)
    ensures AudioIn([Options, Audio(a)] + [Audio(b)]) == [a] + [b]
    ensures TotalLength([a] + [b]) == |a| + |b|
  {
    hide AudioIn, TotalLength;
    NoAudio();
    AudioStep([Options], Audio(a));
    AudioStep([Options, Audio(a)], Audio(b));
    assert [Options] + [Audio(a)] == [Options, Audio(a)];
    var none: seq<Chunk> := [];
    assert none + [a] == [a];
    NoLength();
    LengthOfMore(none, a);
    LengthOfMore([a], b);
  }

  lemma NoLength()
    ensures TotalLength([]) == 0
  {
  }

  // ---------------------------------------------------------------------------------------------
  // The first chunk of a session escapes the counter

  /** The counter of an unbroken session in use is exactly its audio without the first chunk. */
  predicate Exact(s: State) {
    s.call.Some? && s.call.value < |s.sessions| && !s.sessions[s.call.value].broken ==>
      var audio := AudioIn(s.sessions[s.call.value].messages);
      audio != [] && s.bytesSent == AfterFirst(audio)
  }

  lemma ExactAttempt(s: State, chunk: Chunk, a: Attempt)
    requires Valid(s, true)
    requires s.call.Some? && !s.sessions[s.call.value].broken ==>
               var audio := AudioIn(s.sessions[s.call.value].messages);
               audio != [] && s.bytesSent == AfterFirst(audio) + |chunk|
    ensures var (after, ok) := WriteAudio(s, chunk, a);
            && (ok ==> Exact(after))
            && (!ok && after.call.Some? ==>
                  after.call.value < |after.sessions| && after.sessions[after.call.value].broken)
  {
    hide AudioIn, AfterFirst;
    var (ready, ok) := ActiveCall(s, a);
    SessionOpened(s, a, true);
    if ok {
      var messages := ready.sessions[ready.call.value].messages;
      AudioStep(messages, Audio(chunk));
      LengthStep(AudioIn(messages), chunk);
    }
  }

  lemma ExactSent(s: State, chunk: Chunk, first: Attempt, retry: Attempt)
    requires Valid(s, true) && Exact(s) && |chunk| <= MAX_CHUNK
    ensures Exact(Send(s, chunk, first, retry).0)
  {
    hide AudioIn, AfterFirst, WriteAudio, Add32;
    var counted := s.(bytesSent := Add32(s.bytesSent, |chunk|));
    var rotated := if counted.bytesSent >= MAX_BYTES_SENT then counted.(call := None) else counted;
    if s.call.Some? {
      NoWrap(s.bytesSent, |chunk|);
    }
    ExactAttempt(rotated, chunk, first);
    var (tried, ok) := WriteAudio(rotated, chunk, first);
    if !ok {
      AttemptMade(rotated, chunk, first, true);
      ExactAttempt(tried.(call := None), chunk, retry);
    }
  }

  lemma {:induction false} AlwaysExact(events: seq<Event>)
    requires AtMost(events, MAX_CHUNK)
    ensures Exact(SendAll(NEW_CLIENT, events).0)
    decreases |events|
  {
    hide AudioIn, AfterFirst, Send, Exact, Valid;
    if events == [] {
      NewIsExact();
    } else {
      var (front, last) := (events[..|events| - 1], events[|events| - 1]);
      AlwaysExact(front);
      AllSent(front, true);
      ExactSent(SendAll(NEW_CLIENT, front).0, last.chunk, last.first, last.retry);
    }
  }

  lemma NewIsExact()
    ensures Exact(NEW_CLIENT)
  {
  }

  /** After any run, exactly when one more chunk takes the session in use from below MAX_BYTES_SENT to
      MAX_BYTES_SENT or more: it is accepted there, and the counter stays below the limit only because
      the first chunk is missing from it. */
  lemma LimitReached(events: seq<Event>, next: Event)
    requires AtMost(events, MAX_CHUNK) && |next.chunk| <= MAX_CHUNK
    requires var s := SendAll(NEW_CLIENT, events).0;
             s.call.Some? && !s.sessions[s.call.value].broken
             && TotalLength(AudioIn(s.sessions[s.call.value].messages)) < MAX_BYTES_SENT
    ensures var s := SendAll(NEW_CLIENT, events).0;
            var audio := AudioIn(s.sessions[s.call.value].messages);
            var after := Send(s, next.chunk, next.first, next.retry).0;
            && audio != [] && s.bytesSent + |audio[0]| == TotalLength(audio)
            && s.call.value < |after.sessions|
            && (TotalLength(AudioIn(after.sessions[s.call.value].messages)) >= MAX_BYTES_SENT <==>
                next.first.audioOk && MAX_BYTES_SENT - |audio[0]| <= s.bytesSent + |next.chunk| < MAX_BYTES_SENT)
  {
    hide SendAll, AudioIn, TotalLength, AfterFirst, Send;
    var s := SendAll(NEW_CLIENT, events).0;
    var audio := AudioIn(s.sessions[s.call.value].messages);
    AllSent(events, true);
    AlwaysExact(events);
    FirstAndRest(audio);
    LengthOfMore(audio, next.chunk);
    NoWrap(s.bytesSent, |next.chunk|);
    HeldSessionAfter(s, next);
  }

  /** What one send does to the unbroken session in use. */
  lemma HeldSessionAfter(s: State, next: Event)
    requires Valid(s, true) && s.call.Some? && !s.sessions[s.call.value].broken
    ensures var after := Send(s, next.chunk, next.first, next.retry).0;
            var audio := AudioIn(s.sessions[s.call.value].messages);
            && s.call.value < |after.sessions|
            && AudioIn(after.sessions[s.call.value].messages)
               == if Add32(s.bytesSent, |next.chunk|) < MAX_BYTES_SENT && next.first.audioOk then audio + [next.chunk]
                  else audio
  {
    hide AudioIn, AfterFirst, Add32;
    AudioStep(s.sessions[s.call.value].messages, Audio(next.chunk));
  }

  predicate BelowLimit(session: Session) {
    TotalLength(AudioIn(session.messages)) < MAX_BYTES_SENT
  }

  predicate AllBelow(sessions: seq<Session>) {
    forall i :: 0 <= i < |sessions| ==> BelowLimit(sessions[i])
  }

  /** The audio in the session the client holds; none if it holds none. */
  function HeldTotal(s: State): nat
    requires Holds(s)
  {
    if s.call.Some? then TotalLength(AudioIn(s.sessions[s.call.value].messages)) else 0
  }

  lemma ValidHolds(s: State)
    requires Valid(s, true)
    ensures Holds(s)
  {
  }

  lemma OnlyHeldChanges(s: State, session: Session)
    requires Holds(s) && s.call.Some? && AllBelow(s.sessions)
    ensures AllBelow(s.sessions[s.call.value := session]) <==> BelowLimit(session)
  {
    hide BelowLimit;
    assert s.sessions[s.call.value := session][s.call.value] == session;
  }

  lemma WriteAtLimit(s: State, chunk: Chunk, ok: bool)
    requires Holds(s) && s.call.Some? && AllBelow(s.sessions)
    ensures var (after, accepted) := Write(s, Audio(chunk), ok);
            && (accepted <==> ok && !s.sessions[s.call.value].broken)
            && (AllBelow(after.sessions) <==> !(accepted && HeldTotal(s) + |chunk| >= MAX_BYTES_SENT))
  {
    hide AudioIn, TotalLength, AllBelow;
    var session := s.sessions[s.call.value];
    AudioStep(session.messages, Audio(chunk));
    LengthOfMore(AudioIn(session.messages), chunk);
    OnlyHeldChanges(s, Session(session.messages + [Audio(chunk)], false));
    OnlyHeldChanges(s, session.(broken := true));
    HeldBelow(s);
  }

  lemma HeldBelow(s: State)
    requires Holds(s) && s.call.Some? && AllBelow(s.sessions)
    ensures BelowLimit(s.sessions[s.call.value])
  {
  }

  /** A new session with its options, or without them, holds no audio. */
  lemma OpeningAtLimit(s: State, a: Attempt)
    requires Holds(s) && AllBelow(s.sessions)
    ensures var (ready, ok) := ActiveCall(s, a);
            && AllBelow(ready.sessions) && (s.call.Some? ==> ready == s && ok)
            && (s.call.None? && ok ==> HeldTotal(ready) == 0 && !ready.sessions[ready.call.value].broken)
  {
    hide AudioIn, TotalLength;
    if s.call.None? && a.openOk {
      var ready := ActiveCall(s, a).0;
      NoAudio();
      NoMessages();
      NoLength();
      var none: seq<Message> := [];
      assert none + [Options] == [Options];
      forall i | 0 <= i < |ready.sessions|
        ensures BelowLimit(ready.sessions[i])
      {
        if i < |s.sessions| {
          assert ready.sessions[i] == s.sessions[i];
        }
      }
    }
  }

  lemma NoMessages()
    ensures AudioIn([]) == []
  {
  }

  lemma AttemptAtLimit(s: State, chunk: Chunk, a: Attempt)
    requires Holds(s) && AllBelow(s.sessions)
    ensures var (after, ok) := WriteAudio(s, chunk, a);
            && (AllBelow(after.sessions) <==> !(ok && HeldTotal(s) + |chunk| >= MAX_BYTES_SENT))
            && (s.call.Some? ==> (ok <==> a.audioOk && !s.sessions[s.call.value].broken))
  {
    hide AllBelow, ActiveCall, Write, BelowLimit, AudioIn, TotalLength;
    OpeningAtLimit(s, a);
    var (ready, ok) := ActiveCall(s, a);
    if ok {
      WriteAtLimit(ready, chunk, a.audioOk);
    }
  }

  /** The counter of the session in use stays below the limit although its audio does not. */
  predicate Overfills(s: State, next: Event)
    requires Holds(s)
  {
    s.call.Some? && !s.sessions[s.call.value].broken && next.first.audioOk &&
    var audio := AudioIn(s.sessions[s.call.value].messages);
    audio != [] && MAX_BYTES_SENT - |audio[0]| <= s.bytesSent + |next.chunk| < MAX_BYTES_SENT
  }

  lemma OverfillsHeld(s: State, next: Event)
    requires Valid(s, true) && Exact(s) && AllBelow(s.sessions) && |next.chunk| <= MAX_CHUNK
    requires s.call.Some? && !s.sessions[s.call.value].broken
    ensures 0 <= s.bytesSent < MAX_BYTES_SENT && HeldTotal(s) >= s.bytesSent
    ensures Overfills(s, next) <==>
            next.first.audioOk && HeldTotal(s) + |next.chunk| >= MAX_BYTES_SENT
            && s.bytesSent + |next.chunk| < MAX_BYTES_SENT
  {
    hide AudioIn, TotalLength, AfterFirst;
    FirstAndRest(AudioIn(s.sessions[s.call.value].messages));
  }

  /** One send, exactly: all sessions stay below MAX_BYTES_SENT unless a chunk of that size is delivered, or
      the session in use is filled beyond what its counter shows. */
  lemma SendAtLimit(s: State, next: Event)
    requires Valid(s, true) && Exact(s) && AllBelow(s.sessions) && |next.chunk| <= MAX_CHUNK
    ensures var (after, ok) := Send(s, next.chunk, next.first, next.retry);
            AllBelow(after.sessions) <==> !(ok && |next.chunk| >= MAX_BYTES_SENT) && !Overfills(s, next)
  {
    hide AudioIn, TotalLength, AllBelow, WriteAudio, Exact, AfterFirst, Overfills, Add32;
    ValidHolds(s);
    var counted := s.(bytesSent := Add32(s.bytesSent, |next.chunk|));
    var rotated := if counted.bytesSent >= MAX_BYTES_SENT then counted.(call := None) else counted;
    if s.call.Some? {
      NoWrap(s.bytesSent, |next.chunk|);
    }
    if s.call.Some? && !s.sessions[s.call.value].broken {
      OverfillsHeld(s, next);
    } else {
      NotHeld(s, next);
    }
    AttemptAtLimit(rotated, next.chunk, next.first);
    var (tried, ok) := WriteAudio(rotated, next.chunk, next.first);
    if !ok {
      AttemptAtLimit(tried.(call := None), next.chunk, next.retry);
    }
  }

  lemma NotHeld(s: State, next: Event)
    requires Holds(s) && (s.call.None? || s.sessions[s.call.value].broken)
    ensures !Overfills(s, next)
  {
  }

  /** After any run in which no session has received MAX_BYTES_SENT yet, exactly when the next chunk changes
      that: it has that many bytes itself and its send returns normally; or it is accepted by the session
      in use, whose counter, lacking the first chunk, stays below the limit although its audio does not. */
  lemma LimitDomain(events: seq<Event>, next: Event)
    requires AtMost(events, MAX_CHUNK) && |next.chunk| <= MAX_CHUNK
    requires AllBelow(SendAll(NEW_CLIENT, events).0.sessions)
    ensures var s := SendAll(NEW_CLIENT, events).0;
            var (after, ok) := Send(s, next.chunk, next.first, next.retry);
            AllBelow(after.sessions) <==> !(ok && |next.chunk| >= MAX_BYTES_SENT) && !Overfills(s, next)
  {
    hide SendAll, AllBelow, Send, Valid, Exact, Overfills;
    AllSent(events, true);
    AlwaysExact(events);
    SendAtLimit(SendAll(NEW_CLIENT, events).0, next);
  }

  /** Two chunks of one byte less than the limit: together almost twice MAX_BYTES_SENT in one session. */
  lemma LimitExceeded()
    ensures var chunk: Chunk := seq(MAX_BYTES_SENT - 1, _ => 0);
            var (after, delivered) := SendAll(NEW_CLIENT, [Event(chunk, GOOD, GOOD)] + [Event(chunk, GOOD, GOOD)]);
            && delivered == [chunk] + [chunk] && |after.sessions| == 1
            && TotalLength(AudioIn(after.sessions[0].messages)) == 2 * MAX_BYTES_SENT - 2 == 20_971_518
  {
    hide SendAll, AudioIn, TotalLength;
    var chunk: Chunk := seq(MAX_BYTES_SENT - 1, _ => 0);
    TwoShare(chunk, chunk);
    AudioOfTwo(chunk, chunk);
  }

  // ---------------------------------------------------------------------------------------------
  // A long chunk escapes it too

  /** A chunk that makes the 32-bit counter wrap is taken for a small one and joins the session in use,
      which then breaks the bound, whatever the two chunks before it. */
  lemma WrapEscapes(a: Chunk, b: Chunk, c: Chunk)
    requires |a| < MAX_BYTES_SENT && |b| < MAX_BYTES_SENT && |b| + |c| > 0x7FFF_FFFF && |c| <= 0x7FFF_FFFF
    ensures var events := [Event(a, GOOD, GOOD)] + [Event(b, GOOD, GOOD)] + [Event(c, GOOD, GOOD)];
            var (after, delivered) := SendAll(NEW_CLIENT, events);
            && delivered == [a] + [b] + [c] && |after.sessions| == 1
            && AudioIn(after.sessions[0].messages) == [a] + [b] + [c]
            && !WithinBound(after.sessions[0])
  {
    hide SendAll, AudioIn, TotalLength, Send;
    TwoShare(a, b);
    var two := [Event(a, GOOD, GOOD)] + [Event(b, GOOD, GOOD)];
    SendOneMore(two, c);
    var messages := [Options, Audio(a)] + [Audio(b)];
    assert Add32(|b|, |c|) < 0;
    hide Add32;
    NextSend(messages, |b|, c);
    AudioOfTwo(a, b);
    AudioStep(messages, Audio(c));
    LengthOfMore([a] + [b], c);
  }

  /** Every run whose chunks have at most n bytes keeps the bound. */
  ghost predicate KeepsBound(n: nat) {
    forall events: seq<Event> :: AtMost(events, n) ==> AllWithin(SendAll(NEW_CLIENT, events).0.sessions)
  }

  predicate AllWithin(sessions: seq<Session>) {
    forall i :: 0 <= i < |sessions| ==> WithinBound(sessions[i])
  }

  /** The bound holds for runs of chunks up to n bytes exactly if no such chunk can wrap the counter; an
      array of the program has no more than 2^31 - 1 bytes. */
  lemma BoundDomain(n: nat)
    requires n <= 0x7FFF_FFFF
    ensures KeepsBound(n) <==> n <= MAX_CHUNK
  {
    hide SendAll, WithinBound;
    if n <= MAX_CHUNK {
      forall events: seq<Event> | AtMost(events, n)
        ensures AllWithin(SendAll(NEW_CLIENT, events).0.sessions)
      {
        forall i | 0 <= i < |SendAll(NEW_CLIENT, events).0.sessions|
          ensures WithinBound(SendAll(NEW_CLIENT, events).0.sessions[i])
        {
          SessionBound(events, i);
        }
      }
    } else {
      var a: Chunk, b: Chunk, c: Chunk := [], seq(MAX_BYTES_SENT - 1, _ => 0), seq(n, _ => 0);
      WrapEscapes(a, b, c);
      var events := [Event(a, GOOD, GOOD)] + [Event(b, GOOD, GOOD)] + [Event(c, GOOD, GOOD)];
      assert AtMost(events, n);
      assert !AllWithin(SendAll(NEW_CLIENT, events).0.sessions);
    }
  }
}
