/**
 * The tsserver protocol engine: one `TSServerWrapper` per workspace, talking to
 * TypeScript's tsserver over newline-delimited JSON.
 *
 * The wrapper has three parts that share its fields:
 *   - the line framer (`HandleData`), which cuts the incoming text into lines;
 *   - the request correlator (`SendRequest`, `HandleMessage`, `OnTimeout`), which
 *     matches responses to requests by sequence number;
 *   - the lifecycle machine (`Start`, `OnExit`, `AttemptReconnect`,
 *     `ReconnectTimerFires`, `Dispose`), which restarts a crashed server with a
 *     bounded back-off.
 *
 * Every callback of the original (a chunk of output arrives, a timer fires, the
 * process exits, ...) is one method call here. What the wrapper hands to the rest
 * of the world (promise outcomes, emitted events, bytes written to stdin, signals
 * sent) is recorded in fields of its own, so that the contracts can speak of it.
 */
module TsServer {
  import opened Wrappers
  import opened Text

  const DEFAULT_TIMEOUT: nat := 30000
  const MAX_RETRIES: nat := 3
  const BACKOFF_DELAYS: seq<nat> := [1000, 2000, 4000]

  /** A handle on a spawned tsserver process. */
  type ProcessId = nat

  /** A JSON value carried through unchanged (request arguments, response and event bodies). */
  type Json = string

  /** A request as it is serialised; `sequence` is the protocol's `seq` field. */
  datatype Request = Request(sequence: nat, command: string, arguments: Option<Json>)

  /** A parsed line of tsserver output, by its `type` field. */
  datatype Message =
    | Response(requestSeq: int, command: string, success: bool, message: Option<string>, body: Option<Json>)
    | Event(event: string, body: Option<Json>)
    | Other

  /** What a request's promise was settled with. */
  datatype Completion = Resolved(response: Message) | Rejected(reason: string)

  /** The events the wrapper emits to its listeners. */
  datatype Emission =
    | EventMessage(event: string, body: Option<Json>)   // emit('event', event)
    | Named(name: string, body: Option<Json>)           // emit(event.event, event.body)
    | Failed(reason: string)                            // emit('failed', ...)
    | Reconnected                                       // emit('reconnected')

  /** An entry of `pendingRequests`: the command, for the timeout message. */
  datatype PendingRequest = PendingRequest(command: string)

  /** The back-off timer of a reconnect attempt. */
  datatype Backoff = Idle | Waiting(delay: nat)

  /** The state the correlator works on: pending requests, settled outcomes, emitted events. */
  datatype Channel = Channel(pending: map<nat, PendingRequest>, settled: map<nat, Completion>, emitted: seq<Emission>)

  const EXITED_MESSAGE: string := "TSServer process exited unexpectedly"
  const DISPOSED_MESSAGE: string := "TSServer disposed"
  const NOT_RUNNING_MESSAGE: string := "TSServer is not running"
  const ALREADY_STARTED_MESSAGE: string := "TSServer already started"
  const GAVE_UP_MESSAGE: string := "TSServer failed after maximum reconnection attempts"

  function TimeoutMessage(command: string): string {
    "Request timed out after " + Decimal(DEFAULT_TIMEOUT) + "ms: " + command
  }

  // ---------------------------------------------------------------------------
  // The correlator, as functions on a Channel

  /**
   * Every request issued so far (sequence numbers 1..issued) is either still pending
   * or settled, never both, and nothing else is in either map.
   */
  ghost predicate Accounted(ch: Channel, issued: nat) {
    (forall s | s in ch.pending :: 1 <= s <= issued && s !in ch.settled)
    && (forall s | s in ch.settled :: 1 <= s <= issued)
    && (forall s: nat | 1 <= s <= issued :: s in ch.pending || s in ch.settled)
  }

  /** `b` extends `a`: every outcome settled in a is settled in b, with the same value. */
  ghost predicate Extends(a: map<nat, Completion>, b: map<nat, Completion>) {
    forall s | s in a :: s in b && b[s] == a[s]
  }

  /** `handleMessage`: a response settles its pending request; an event is emitted twice. */
  function Dispatch(ch: Channel, m: Message): (r: Channel)
    ensures r.pending.Keys <= ch.pending.Keys
    ensures r.pending != ch.pending <==> m.Response? && m.requestSeq in ch.pending
    ensures forall s | s in ch.settled && s !in ch.pending :: s in r.settled && r.settled[s] == ch.settled[s]
    ensures forall s | s in r.settled && s !in ch.settled :: s in ch.pending && s !in r.pending
    ensures m.Response? && m.requestSeq in ch.pending ==>
              m.requestSeq in r.settled && r.settled[m.requestSeq] == Resolved(m)
    ensures m.Event? ==> r.emitted == ch.emitted + [EventMessage(m.event, m.body), Named(m.event, m.body)]
    ensures !m.Event? ==> r.emitted == ch.emitted
  {
    match m
    case Response(requestSeq, _, _, _, _) =>
      if requestSeq >= 0 && requestSeq in ch.pending then
        assert requestSeq in ch.pending.Keys - (ch.pending - {requestSeq}).Keys;
        Channel(ch.pending - {requestSeq}, ch.settled[requestSeq := Resolved(m)], ch.emitted)
      else ch
    case Event(event, body) =>
      Channel(ch.pending, ch.settled, ch.emitted + [EventMessage(event, body), Named(event, body)])
    case Other => ch
  }

  /** Handling a message keeps every request accounted for. */
  lemma {:induction false} DispatchAccounted(ch: Channel, issued: nat, m: Message)
    requires Accounted(ch, issued)
    ensures Accounted(Dispatch(ch, m), issued)
  {
    var r := Dispatch(ch, m);
    forall s: nat | 1 <= s <= issued ensures s in r.pending || s in r.settled {
      if s !in r.pending {
        assert s in ch.pending ==> m.Response? && m.requestSeq == s;
      }
    }
  }

  /** One line of output: trimmed, skipped when empty or unparseable, else dispatched. */
  function Consume(parse: string -> Option<Message>, ch: Channel, raw: string): (r: Channel)
    ensures Trim(raw) == [] || parse(Trim(raw)).None? ==> r == ch
    ensures Trim(raw) != [] && parse(Trim(raw)).Some? ==> r == Dispatch(ch, parse(Trim(raw)).value)
  {
    var line := Trim(raw);
    if |line| == 0 then ch
    else
      match parse(line)
      case None => ch
      case Some(m) => Dispatch(ch, m)
  }

  /** The lines, handled in order. */
  function Ingest(parse: string -> Option<Message>, ch: Channel, lines: seq<string>): Channel
    decreases |lines|
  {
    if lines == [] then ch
    else Consume(parse, Ingest(parse, ch, lines[..|lines| - 1]), lines[|lines| - 1])
  }

  /** Handling a + b is handling a, then b. */
  lemma {:induction false} IngestAppend(parse: string -> Option<Message>, ch: Channel, a: seq<string>, b: seq<string>)
    ensures Ingest(parse, ch, a + b) == Ingest(parse, Ingest(parse, ch, a), b)
    decreases |b|
  {
    if b == [] {
      assert a + b == a;
    } else {
      IngestAppend(parse, ch, a, b[..|b| - 1]);
      InitOfAppend(a, b);
    }
  }

  lemma {:induction false} IngestSnoc(parse: string -> Option<Message>, ch: Channel, done: seq<string>, line: string)
    ensures Ingest(parse, ch, done + [line]) == Consume(parse, Ingest(parse, ch, done), line)
  {
    assert (done + [line])[..|done|] == done;
  }

  /** Cutting the first line off the buffer moves it from the buffer's lines to those done. */
  lemma {:induction false} CutFirstLine(buffer: string, done: seq<string>, whole: string)
    requires IndexOf(buffer, '\n') != -1
    requires done + CompleteLines(buffer) == CompleteLines(whole)
    requires PartialLine(buffer) == PartialLine(whole)
    ensures var i := IndexOf(buffer, '\n');
            (done + [buffer[..i]]) + CompleteLines(buffer[i + 1..]) == CompleteLines(whole)
            && PartialLine(buffer[i + 1..]) == PartialLine(whole)
  {
    var i := IndexOf(buffer, '\n');
    var raw, rest := buffer[..i], buffer[i + 1..];
    CutAt(buffer, i);
    assert '\n' !in raw by {
      forall k | 0 <= k < |raw| ensures raw[k] != '\n' {
        assert raw[k] == buffer[k];
      }
    }
    CutLine(raw, rest);
    AppendAssoc(done, [raw], CompleteLines(rest));
  }

  /** The outcome of rejecting every request in `keys` with `reason`. */
  function Rejections(keys: set<nat>, reason: string): (r: map<nat, Completion>)
    ensures r.Keys == keys
  {
    map s | s in keys :: Rejected(reason)
  }

  lemma {:induction false} NoKeys<K, V>(m: map<K, V>)
    requires m.Keys <= {}
    ensures m == map[]
  {
  }

  /** One turn of the rejection loop: `s` moves from the pending keys to the drained ones. */
  lemma {:induction false} DrainStep(pending: map<nat, PendingRequest>, drained: set<nat>, all: set<nat>, s: nat,
                  base: map<nat, Completion>, reason: string)
    requires pending.Keys + drained == all && pending.Keys !! drained && s in pending
    ensures (pending - {s}).Keys + (drained + {s}) == all
    ensures (pending - {s}).Keys !! (drained + {s})
    ensures |(pending - {s}).Keys| < |pending.Keys|
    ensures (base + Rejections(drained, reason))[s := Rejected(reason)] == base + Rejections(drained + {s}, reason)
  {
    assert (pending - {s}).Keys == pending.Keys - {s};
  }

  /** Rejecting every pending request keeps the channel accounted for. */
  lemma {:induction false} DrainAccounted(ch: Channel, issued: nat, reason: string)
    requires Accounted(ch, issued)
    ensures Accounted(Channel(map[], ch.settled + Rejections(ch.pending.Keys, reason), ch.emitted), issued)
  {
  }

  /** Once no newline is left, the lines done are all the complete lines and the rest is the partial one. */
  lemma {:induction false} FramerDone(done: seq<string>, buffer: string, whole: string)
    requires IndexOf(buffer, '\n') == -1
    requires done + CompleteLines(buffer) == CompleteLines(whole)
    requires PartialLine(buffer) == PartialLine(whole)
    ensures done == CompleteLines(whole) && buffer == PartialLine(whole) && '\n' !in buffer
  {
    assert CompleteLines(buffer) == [] && PartialLine(buffer) == buffer;
    assert done + [] == done;
  }

  /** Handling any lines keeps every request accounted for. */
  /**
   * One line of output never overwrites a settled outcome, never adds a pending
   * request, and keeps every request accounted for.
   */
  lemma {:induction false} ConsumeSettlesOnce(parse: string -> Option<Message>, ch: Channel, issued: nat, raw: string)
    requires Accounted(ch, issued)
    ensures var r := Consume(parse, ch, raw);
            Accounted(r, issued) && Extends(ch.settled, r.settled) && r.pending.Keys <= ch.pending.Keys
  {
    var line := Trim(raw);
    if line != [] && parse(line).Some? {
      DispatchAccounted(ch, issued, parse(line).value);
    }
  }

  /** Any run of lines keeps every request accounted for and every settled outcome as it was. */
  lemma {:induction false} IngestAccounted(parse: string -> Option<Message>, ch: Channel, issued: nat, lines: seq<string>)
    requires Accounted(ch, issued)
    ensures Accounted(Ingest(parse, ch, lines), issued)
    decreases |lines|
  {
    if lines != [] {
      IngestAccounted(parse, ch, issued, lines[..|lines| - 1]);
      var before := Ingest(parse, ch, lines[..|lines| - 1]);
      ConsumeSettlesOnce(parse, before, issued, lines[|lines| - 1]);
    }
  }

  /** Handling any lines never overwrites or withdraws an outcome already settled. */
  lemma {:induction false} IngestSettlesOnce(parse: string -> Option<Message>, ch: Channel, issued: nat, lines: seq<string>)
    requires Accounted(ch, issued)
    ensures Extends(ch.settled, Ingest(parse, ch, lines).settled)
    decreases |lines|
  {
    if lines != [] {
      IngestAccounted(parse, ch, issued, lines[..|lines| - 1]);
      IngestSettlesOnce(parse, ch, issued, lines[..|lines| - 1]);
      var before := Ingest(parse, ch, lines[..|lines| - 1]);
      ConsumeSettlesOnce(parse, before, issued, lines[|lines| - 1]);
    }
  }


  /**
   * The framer's whole effect on one chunk: the complete lines of what was buffered
   * plus the chunk are handled, and the text after the last newline stays buffered.
   */
  function Feed(parse: string -> Option<Message>, ch: Channel, buffer: string, chunk: string): (r: (Channel, string))
    ensures '\n' !in r.1
  {
    (Ingest(parse, ch, CompleteLines(buffer + chunk)), PartialLine(buffer + chunk))
  }

  /** However the output is cut into chunks, the same lines are handled and the same text remains. */
  lemma {:induction false} ChunkingIrrelevant(parse: string -> Option<Message>, ch: Channel, buffer: string, a: string, b: string)
    ensures var (ch1, buf1) := Feed(parse, ch, buffer, a); Feed(parse, ch1, buf1, b) == Feed(parse, ch, buffer, a + b)
  {
    var whole := buffer + a;
    AppendAssoc(buffer, a, b);
    CompleteLinesAppend(whole, b);
    IngestAppend(parse, ch, CompleteLines(whole), CompleteLines(PartialLine(whole) + b));
  }

  // ---------------------------------------------------------------------------
  // The reconnect schedule

  datatype Attempt = GiveUp | Retry(delay: nat, nextCount: nat)

  function Pow2(n: nat): (p: nat)
    ensures p >= 1
  {
    if n == 0 then 1 else 2 * Pow2(n - 1)
  }

  /** `attemptReconnect`'s decision for a given retry count. */
  function PlanReconnect(retryCount: nat): (a: Attempt)
    ensures a.GiveUp? <==> retryCount >= MAX_RETRIES
    ensures a.Retry? ==> a.delay == 1000 * Pow2(retryCount) && a.nextCount == retryCount + 1 <= MAX_RETRIES
  {
    if retryCount >= MAX_RETRIES then GiveUp
    else Retry(BACKOFF_DELAYS[retryCount], retryCount + 1)
  }

  /** The waits of a run of failed reconnect attempts, starting at retryCount, until giving up. */
  function FailedRun(retryCount: nat): seq<nat>
    decreases MAX_RETRIES - retryCount
  {
    match PlanReconnect(retryCount)
    case GiveUp => []
    case Retry(delay, next) => [delay] + FailedRun(next)
  }

  function Sum(s: seq<nat>): nat {
    if s == [] then 0 else s[0] + Sum(s[1..])
  }

  /**
   * Starting from any count, consecutive failures wait at most three times, each wait
   * doubling, and never more than 7 seconds in all before the wrapper gives up.
   */
  lemma {:induction false} BackoffBounded(retryCount: nat)
    ensures |FailedRun(retryCount)| == if retryCount >= MAX_RETRIES then 0 else MAX_RETRIES - retryCount
    ensures Sum(FailedRun(retryCount)) == if retryCount >= MAX_RETRIES then 0 else 1000 * (Pow2(MAX_RETRIES) - Pow2(retryCount))
    ensures Sum(FailedRun(retryCount)) <= 7000
    ensures forall i | 0 < i < |FailedRun(retryCount)| :: FailedRun(retryCount)[i] == 2 * FailedRun(retryCount)[i - 1]
    decreases MAX_RETRIES - retryCount
  {
    if retryCount < MAX_RETRIES {
      BackoffBounded(retryCount + 1);
    }
  }

  /** From a fresh count the waits are exactly 1000, 2000 and 4000 ms. */
  lemma {:induction false} BackoffFromStart()
    ensures FailedRun(0) == [1000, 2000, 4000]
  {
    assert FailedRun(3) == [];
  }

  /** A frame is the serialised request and one newline; the reader cuts it back out whole. */
  lemma {:induction false} FrameIsOneLine(serialised: string)
    requires '\n' !in serialised
    ensures CompleteLines(serialised + "\n") == [serialised] && PartialLine(serialised + "\n") == ""
  {
    FrameOfLine(serialised);
  }

  // ---------------------------------------------------------------------------
  // The wrapper

  class TSServerWrapper {
    const workspaceRoot: string
    /** `JSON.parse` of one line, as the messages it can yield. */
    const parse: string -> Option<Message>
    /** `JSON.stringify` of a request. */
    const encode: Request -> string

    var process: Option<ProcessId>
    var sequenceNumber: nat
    var pendingRequests: map<nat, PendingRequest>
    var buffer: string
    var isDisposed: bool
    var retryCount: nat

    /** Outcomes handed to the callers of sendRequest, by sequence number. */
    var settled: map<nat, Completion>
    /** Events emitted to listeners, oldest first. */
    var emitted: seq<Emission>
    /** Everything written to the process's stdin, one entry per write. */
    var written: seq<string>
    /** Processes sent SIGTERM. */
    var killed: seq<ProcessId>
    /** The back-off wait of a reconnect attempt in progress. */
    var backoff: Backoff

    function Chan(): Channel
      reads this`pendingRequests, this`settled, this`emitted
    {
      Channel(pendingRequests, settled, emitted)
    }

    ghost predicate Valid()
      reads this
    {
      Accounted(Chan(), sequenceNumber)
      && '\n' !in buffer
      && Steady()
    }

    /** The reconnect bookkeeping is within bounds, and no encoded request holds a newline. */
    ghost predicate Steady()
      reads this`retryCount, this`backoff
    {
      retryCount <= MAX_RETRIES
      && (backoff.Waiting? ==> retryCount >= 1)
      && (forall q :: '\n' !in encode(q))
    }

    /** After dispose: no process, nothing pending. */
    ghost predicate Settled()
      reads this
    {
      isDisposed ==> process.None? && pendingRequests == map[]
    }

    /** Running: a process is held and the wrapper is not disposed; once a disposed wrapper has let its process go, holding one is enough. */
    function IsRunning(): (running: bool)
      reads this
      ensures running ==> process.Some?
      ensures isDisposed ==> !running
      ensures Settled() ==> (running <==> process.Some?)
    {
      process.Some? && !isDisposed
    }

    constructor (root: string, parse: string -> Option<Message>, encode: Request -> string)
      requires forall q :: '\n' !in encode(q)
      ensures Valid() && Settled() && !IsRunning()
      ensures workspaceRoot == root && this.parse == parse && this.encode == encode
      ensures process.None? && sequenceNumber == 0 && pendingRequests == map[] && buffer == ""
      ensures !isDisposed && retryCount == 0 && backoff == Idle
      ensures settled == map[] && emitted == [] && written == [] && killed == []
    {
      workspaceRoot := root;
      this.parse := parse;
      this.encode := encode;
      process := None;
      sequenceNumber := 0;
      pendingRequests := map[];
      buffer := "";
      isDisposed := false;
      retryCount := 0;
      settled := map[];
      emitted := [];
      written := [];
      killed := [];
      backoff := Idle;
    }

    /**
     * `start`: fails when a process is already held; otherwise spawns, with `launch`
     * standing for what the spawn gave.
     */
    method Start(launch: Result<ProcessId, string>) returns (r: Result<(), string>)
      requires Valid()
      modifies this`process
      ensures Valid()
      ensures old(process).Some? ==> r == Failure(ALREADY_STARTED_MESSAGE) && process == old(process)
      ensures old(process).None? && launch.Failure? ==>
                r == Failure("Failed to start tsserver: " + launch.error) && process.None?
      ensures old(process).None? && launch.Success? ==> r.Success? && process == Some(launch.value)
      ensures r.Success? ==> (IsRunning() <==> !isDisposed)
    {
      if process.Some? {
        return Failure(ALREADY_STARTED_MESSAGE);
      }
      match launch
      case Failure(e) =>
        r := Failure("Failed to start tsserver: " + e);
      case Success(pid) =>
        process := Some(pid);
        r := Success(());
    }

    /**
     * `sendRequest`: with no process it fails before touching any state; otherwise the
     * request takes the next sequence number, is registered as pending and is written
     * as one line.
     */
    method SendRequest(command: string, arguments: Option<Json>) returns (r: Result<nat, string>)
      requires Valid()
      modifies this`sequenceNumber, this`pendingRequests, this`written
      ensures Valid()
      ensures old(process).None? ==>
                r == Failure(NOT_RUNNING_MESSAGE)
                && sequenceNumber == old(sequenceNumber) && pendingRequests == old(pendingRequests)
                && written == old(written)
      ensures old(process).Some? ==>
                r == Success(old(sequenceNumber) + 1)
                && sequenceNumber == old(sequenceNumber) + 1
                && sequenceNumber !in old(pendingRequests) && sequenceNumber !in settled
                && pendingRequests == old(pendingRequests)[sequenceNumber := PendingRequest(command)]
                && written == old(written) + [encode(Request(sequenceNumber, command, arguments)) + "\n"]
      ensures old(Settled()) ==> Settled()
    {
      if process.None? {
        return Failure(NOT_RUNNING_MESSAGE);
      }
      sequenceNumber := sequenceNumber + 1;
      var sequence := sequenceNumber;
      pendingRequests := pendingRequests[sequence := PendingRequest(command)];
      written := written + [encode(Request(sequence, command, arguments)) + "\n"];
      r := Success(sequence);
    }

    /** A pending request is rejected with `reason` and deleted from the map. */
    method RejectOne(sequence: nat, reason: string)
      requires Accounted(Chan(), sequenceNumber)
      requires sequence in pendingRequests
      modifies this`pendingRequests, this`settled
      ensures Accounted(Chan(), sequenceNumber)
      ensures pendingRequests == old(pendingRequests) - {sequence}
      ensures settled == old(settled)[sequence := Rejected(reason)]
    {
      pendingRequests := pendingRequests - {sequence};
      settled := settled[sequence := Rejected(reason)];
    }

    /** The timer of a pending request fires: that request alone is rejected and dropped. */
    method OnTimeout(sequence: nat)
      requires Valid()
      requires sequence in pendingRequests
      modifies this`pendingRequests, this`settled
      ensures Valid()
      ensures pendingRequests == old(pendingRequests) - {sequence}
      ensures settled == old(settled)[sequence := Rejected(TimeoutMessage(old(pendingRequests)[sequence].command))]
      ensures Extends(old(settled), settled)
      ensures old(Settled()) ==> Settled()
    {
      RejectOne(sequence, TimeoutMessage(pendingRequests[sequence].command));
    }

    /** `handleMessage`. */
    method HandleMessage(m: Message)
      requires Accounted(Chan(), sequenceNumber)
      modifies this`pendingRequests, this`settled, this`emitted
      ensures Accounted(Chan(), sequenceNumber)
      ensures Chan() == Dispatch(old(Chan()), m)
    {
      DispatchAccounted(Chan(), sequenceNumber, m);
      match m
      case Response(requestSeq, _, _, _, _) =>
        if requestSeq >= 0 && requestSeq in pendingRequests {
          pendingRequests := pendingRequests - {requestSeq};
          settled := settled[requestSeq := Resolved(m)];
        }
      case Event(event, body) =>
        emitted := emitted + [EventMessage(event, body), Named(event, body)];
      case Other =>
    }

    /**
     * One turn of `handleData`'s loop: the first line is cut off the buffer, trimmed
     * and, unless empty or unparseable, handled.
     */
    method TakeLine() returns (ghost raw: string)
      requires Accounted(Chan(), sequenceNumber)
      requires IndexOf(buffer, '\n') != -1
      modifies this`buffer, this`pendingRequests, this`settled, this`emitted
      ensures Accounted(Chan(), sequenceNumber)
      ensures CompleteLines(old(buffer)) == [raw] + CompleteLines(buffer)
      ensures PartialLine(old(buffer)) == PartialLine(buffer)
      ensures |buffer| < |old(buffer)|
      ensures Chan() == Consume(parse, old(Chan()), raw)
      ensures pendingRequests.Keys <= old(pendingRequests).Keys
    {
      var newlineIndex := IndexOf(buffer, '\n');
      raw := buffer[..newlineIndex];
      var line := Trim(buffer[..newlineIndex]);
      buffer := buffer[newlineIndex + 1..];
      if |line| == 0 {
        return;
      }
      match parse(line)
      case None =>
      case Some(m) =>
        HandleMessage(m);
    }

    /** `handleData`'s loop: every complete line in the buffer is taken, in order. */
    method TakeLines()
      requires Accounted(Chan(), sequenceNumber)
      modifies this`buffer, this`pendingRequests, this`settled, this`emitted
      ensures Accounted(Chan(), sequenceNumber)
      ensures Chan() == Ingest(parse, old(Chan()), CompleteLines(old(buffer)))
      ensures buffer == PartialLine(old(buffer)) && '\n' !in buffer
      ensures pendingRequests.Keys <= old(pendingRequests).Keys
    {
      ghost var whole := buffer;
      ghost var start := Chan();
      ghost var done: seq<string> := [];
      assert done + CompleteLines(buffer) == CompleteLines(whole);
      while IndexOf(buffer, '\n') != -1
        invariant done + CompleteLines(buffer) == CompleteLines(whole)
        invariant PartialLine(buffer) == PartialLine(whole)
        invariant Chan() == Ingest(parse, start, done)
        invariant Accounted(Chan(), sequenceNumber)
        invariant pendingRequests.Keys <= old(pendingRequests).Keys
        decreases |buffer|
      {
        ghost var raw := TakeLine();
        IngestSnoc(parse, start, done, raw);
        AppendAssoc(done, [raw], CompleteLines(buffer));
        done := done + [raw];
      }
      FramerDone(done, buffer, whole);
    }

    /**
     * `handleData`: the chunk is appended to the buffer; each complete line is cut
     * off, trimmed and, unless empty or unparseable, handled, in order.
     */
    method HandleData(chunk: string)
      requires Valid()
      modifies this`buffer, this`pendingRequests, this`settled, this`emitted
      ensures Valid()
      ensures (Chan(), buffer) == Feed(parse, old(Chan()), old(buffer), chunk)
      ensures old(Settled()) ==> Settled()
    {
      ghost var before := Chan();
      buffer := buffer + chunk;
      assert Chan() == before;
      TakeLines();
      assert (Chan(), buffer) == Feed(parse, before, old(buffer), chunk);
      if old(pendingRequests) == map[] {
        NoKeys(pendingRequests);
      }
    }

    /** Every pending request is rejected with `reason` and removed; the map ends empty. */
    method DrainPending(reason: string)
      modifies this`pendingRequests, this`settled
      ensures pendingRequests == map[]
      ensures settled == old(settled) + Rejections(old(pendingRequests).Keys, reason)
    {
      var pending := pendingRequests;
      var outcomes := settled;
      ghost var drained: set<nat> := {};
      while pending.Keys != {}
        invariant pending.Keys + drained == old(pendingRequests).Keys
        invariant pending.Keys !! drained
        invariant outcomes == old(settled) + Rejections(drained, reason)
        decreases |pending.Keys|
      {
        var sequence :| sequence in pending;
        DrainStep(pending, drained, old(pendingRequests).Keys, sequence, old(settled), reason);
        pending := pending - {sequence};
        outcomes := outcomes[sequence := Rejected(reason)];
        drained := drained + {sequence};
      }
      assert drained == old(pendingRequests).Keys;
      pendingRequests := map[];
      settled := outcomes;
    }

    /**
     * `attemptReconnect`: after three failed attempts it gives up with 'failed';
     * otherwise it counts the attempt and starts the back-off wait.
     */
    method AttemptReconnect()
      requires Valid()
      modifies this`retryCount, this`backoff, this`emitted
      ensures Valid()
      ensures match PlanReconnect(old(retryCount))
              case GiveUp =>
                retryCount == old(retryCount) && backoff == old(backoff)
                && emitted == old(emitted) + [Failed(GAVE_UP_MESSAGE)]
              case Retry(delay, next) =>
                retryCount == next && backoff == Waiting(delay) && emitted == old(emitted)
    {
      if retryCount >= MAX_RETRIES {
        emitted := emitted + [Failed(GAVE_UP_MESSAGE)];
        return;
      }
      var delay := BACKOFF_DELAYS[retryCount];
      retryCount := retryCount + 1;
      backoff := Waiting(delay);
    }

    /**
     * The process exits: the handle is dropped, every pending request is rejected,
     * and, unless disposed, a reconnect is attempted.
     */
    method OnExit()
      requires Valid()
      requires process.Some? || isDisposed
      modifies this`process, this`pendingRequests, this`settled, this`retryCount, this`backoff, this`emitted
      ensures Valid() && Settled()
      ensures process.None? && pendingRequests == map[]
      ensures settled == old(settled) + Rejections(old(pendingRequests).Keys, EXITED_MESSAGE)
      ensures Extends(old(settled), settled)
      ensures old(isDisposed) ==>
                retryCount == old(retryCount) && backoff == old(backoff) && emitted == old(emitted)
      ensures !old(isDisposed) ==>
                match PlanReconnect(old(retryCount))
                case GiveUp =>
                  retryCount == old(retryCount) && backoff == old(backoff)
                  && emitted == old(emitted) + [Failed(GAVE_UP_MESSAGE)]
                case Retry(delay, next) => retryCount == next && backoff == Waiting(delay) && emitted == old(emitted)
    {
      process := None;
      DrainAccounted(Chan(), sequenceNumber, EXITED_MESSAGE);
      DrainPending(EXITED_MESSAGE);
      if !isDisposed {
        AttemptReconnect();
      }
    }

    /**
     * The back-off wait ends and the reconnect tries `start`. A wrapper disposed during
     * the wait does not start again; otherwise a successful start resets the retry
     * count and emits 'reconnected', and a failed one attempts again.
     */
    method ReconnectTimerFires(launch: Result<ProcessId, string>)
      requires Valid()
      requires backoff.Waiting?
      modifies this`process, this`retryCount, this`backoff, this`emitted
      ensures Valid()
      ensures old(Settled()) ==> Settled()
      ensures old(isDisposed) ==>
                process == old(process) && backoff == Idle && retryCount == old(retryCount) && emitted == old(emitted)
      ensures !old(isDisposed) && old(process).None? && launch.Success? ==>
                process == Some(launch.value) && retryCount == 0 && backoff == Idle
                && emitted == old(emitted) + [Reconnected] && IsRunning()
      ensures !old(isDisposed) && (old(process).Some? || launch.Failure?) ==>
                process == old(process)
                && match PlanReconnect(old(retryCount))
                   case GiveUp =>
                     retryCount == old(retryCount) && backoff == Idle
                     && emitted == old(emitted) + [Failed(GAVE_UP_MESSAGE)]
                   case Retry(delay, next) => retryCount == next && backoff == Waiting(delay) && emitted == old(emitted)
    {
      backoff := Idle;
      if isDisposed {
        return;
      }
      var started := Start(launch);
      if started.Success? {
        retryCount := 0;
        emitted := emitted + [Reconnected];
      } else {
        AttemptReconnect();
      }
    }

    /** The same step as the original writes it: the wait ends in `start` even after dispose. */
    method ReconnectTimerFiresAsWritten(launch: Result<ProcessId, string>)
      requires Valid()
      requires backoff.Waiting?
      modifies this`process, this`retryCount, this`backoff, this`emitted
      ensures Valid()
      ensures old(process).None? && launch.Success? ==>
                process == Some(launch.value) && retryCount == 0 && backoff == Idle
                && emitted == old(emitted) + [Reconnected]
      ensures old(process).Some? || launch.Failure? ==>
                process == old(process)
                && match PlanReconnect(old(retryCount))
                   case GiveUp =>
                     retryCount == old(retryCount) && backoff == Idle
                     && emitted == old(emitted) + [Failed(GAVE_UP_MESSAGE)]
                   case Retry(delay, next) => retryCount == next && backoff == Waiting(delay) && emitted == old(emitted)
    {
      backoff := Idle;
      var started := Start(launch);
      if started.Success? {
        retryCount := 0;
        emitted := emitted + [Reconnected];
      } else {
        AttemptReconnect();
      }
    }

    /** `dispose`: rejects everything pending, kills the process and drops its handle. */
    method Dispose()
      modifies this`isDisposed, this`pendingRequests, this`settled, this`process, this`killed
      ensures old(Valid()) ==> Valid()
      ensures Settled() && isDisposed && !IsRunning()
      ensures process.None? && pendingRequests == map[]
      ensures settled == old(settled) + Rejections(old(pendingRequests).Keys, DISPOSED_MESSAGE)
      ensures killed == old(killed) + (if old(process).Some? then [old(process).value] else [])
      ensures old(isDisposed) && old(Settled()) ==> settled == old(settled) && killed == old(killed)
    {
      isDisposed := true;
      if Valid() {
        DrainAccounted(Chan(), sequenceNumber, DISPOSED_MESSAGE);
      }
      DrainPending(DISPOSED_MESSAGE);
      if process.Some? {
        killed := killed + [process.value];
        process := None;
      }
    }
  }

  // ---------------------------------------------------------------------------
  // Dispose during a reconnect wait

  /**
   * A running wrapper's process exits, the wrapper is disposed while the back-off wait
   * runs, and the wait then ends with a spawn that would succeed. The wrapper stays
   * stopped and refuses requests.
   */
  method DisposeDuringBackoff(w: TSServerWrapper, spawned: ProcessId) returns (sent: Result<nat, string>)
    requires w.Valid() && w.process.Some? && !w.isDisposed && w.retryCount < MAX_RETRIES
    modifies w
    ensures w.Valid() && w.Settled() && w.isDisposed && w.process.None?
    ensures sent == Failure(NOT_RUNNING_MESSAGE)
  {
    w.OnExit();
    w.Dispose();
    w.ReconnectTimerFires(Success(spawned));
    sent := w.SendRequest("open", None);
  }

  /**
   * The same sequence with the step as written: the disposed wrapper ends up holding
   * the freshly spawned process, which its owner already let go of and will not kill,
   * and it accepts requests again.
   */
  method DisposeDuringBackoffAsWritten(w: TSServerWrapper, spawned: ProcessId) returns (sent: Result<nat, string>)
    requires w.Valid() && w.process.Some? && !w.isDisposed && w.retryCount < MAX_RETRIES
    modifies w
    ensures w.isDisposed && w.process == Some(spawned) && !w.Settled()
    ensures sent == Success(old(w.sequenceNumber) + 1)
  {
    ghost var issued := w.sequenceNumber;
    w.OnExit();
    w.Dispose();
    assert w.sequenceNumber == issued && w.process.None? && w.isDisposed;
    w.ReconnectTimerFiresAsWritten(Success(spawned));
    assert w.process == Some(spawned);
    sent := w.SendRequest("open", None);
    assert w.pendingRequests != map[] by {
      assert w.sequenceNumber in w.pendingRequests;
    }
  }
}
