/**
 * A serial session from its first channel on: senders, the writer, the reader and the response timers, as atomic
 * steps that may interleave in any order.
 */
module Sessions {
  import opened Wrappers
  import opened Bitwise

  type Matcher = (seq<byte>, seq<byte>) -> bool

  const MAX_INT: nat := 0x7fff_ffff

  /** An Int that is not negative. */
  type Count = n: nat | n <= MAX_INT

  datatype Command = Command(payload: seq<byte>, maxRetries: Count, matcher: Option<Matcher>)

  /** How often the writer's repeat goes round: maxRetries + 1 as an Int, which wraps at the greatest one. */
  function Rounds(command: Command): (rounds: nat)
    ensures rounds == if command.maxRetries == MAX_INT then 0 else command.maxRetries + 1
  {
    var times := ToInt(command.maxRetries + 1);
    if times < 0 then 0 else times
  }

  datatype WriteResult = Wrote(bytes: nat) | WriteTimedOut | WriteFailed

  /** How a handle completes; a response names the received chunk that resolved it. */
  datatype Result = Sent(bytes: nat) | TimedOut | Failed | Response(chunk: nat)

  /** One call of transport.write. Commands are known by their place in the order of successful trySends. */
  datatype Attempt = Attempt(ticket: nat, result: WriteResult)

  datatype Writer = Idle | Sending(ticket: nat, tries: nat, last: WriteResult) | WriterStopped

  datatype Reader = Reading | Matched(ticket: nat, chunk: nat) | Resolved | ReaderStopped

  /** A response timer: still waiting, found its command pending, or has cleared the pending field. */
  datatype Timer = Armed | Expired | Cleared

  datatype Channel = Channel(
    capacity: nat,
    closed: bool,
    accepted: seq<Command>,
    queue: seq<nat>,
    results: seq<Option<Result>>,
    writer: Writer,
    reader: Reader,
    pending: Option<nat>,
    timers: map<nat, Timer>,
    writes: seq<Attempt>,
    chunks: seq<seq<byte>>)

  function Opened(capacity: nat): Channel {
    Channel(capacity, false, [], [], [], Idle, Reading, None, map[], [], [])
  }

  datatype Step =
    | Offer(command: Command)
    | Discard
    | Close
    | Take
    | Write(result: WriteResult)
    | Settle
    | StopWriter
    | Receive(data: seq<byte>)
    | Resolve
    | ClearPending
    | StopReader
    | Expire(ticket: nat)
    | ClearExpired(ticket: nat)
    | GiveUp(ticket: nat)
    | Reopen(capacity: nat)

  /** The writer has more attempts to make. */
  predicate MoreTries(c: Channel) {
    c.writer.Sending? && c.writer.ticket < |c.accepted|
    && !c.writer.last.Wrote? && c.writer.tries < Rounds(c.accepted[c.writer.ticket])
  }

  predicate Enabled(c: Channel, step: Step) {
    match step
    case Offer(_) => true
    case Discard => c.queue != []
    case Close => true
    case Take => c.writer.Idle? && c.queue != []
    case Write(_) => MoreTries(c)
    case Settle => c.writer.Sending? && c.writer.ticket < |c.accepted| && !MoreTries(c)
    case StopWriter => true
    case Receive(_) => c.reader.Reading?
    case Resolve => c.reader.Matched?
    case ClearPending => c.reader.Resolved?
    case StopReader => true
    case Expire(ticket) => ticket in c.timers && c.timers[ticket] == Armed
    case ClearExpired(ticket) => ticket in c.timers && c.timers[ticket] == Expired
    case GiveUp(ticket) => ticket in c.timers && c.timers[ticket] == Cleared
    case Reopen(_) => c.writer.WriterStopped? && c.reader.ReaderStopped?
  }

  /** A handle completes once; later completions are ignored. */
  function Complete(results: seq<Option<Result>>, ticket: nat, result: Result): seq<Option<Result>> {
    if ticket < |results| && results[ticket].None? then results[ticket := Some(result)] else results
  }

  function Accepts(c: Channel): bool { !c.closed && |c.queue| < c.capacity }

  function ResultOf(last: WriteResult): Result {
    match last case Wrote(bytes) => Sent(bytes) case WriteTimedOut => TimedOut case WriteFailed => Failed
  }

  predicate Answers(c: Channel, data: seq<byte>) {
    && c.pending.Some? && c.pending.value < |c.accepted|
    && var command := c.accepted[c.pending.value];
    command.matcher.Some? && command.matcher.value(command.payload, data)
  }

  function Next(c: Channel, step: Step): Channel
    requires Enabled(c, step)
  {
    match step
    case Offer(command) =>
      if Accepts(c) then
        c.(accepted := c.accepted + [command], queue := c.queue + [|c.accepted|], results := c.results + [None])
      else c
    case Discard => c.(queue := c.queue[1..])
    case Close => c.(closed := true)
    case Take => c.(queue := c.queue[1..], writer := Sending(c.queue[0], 0, WriteFailed))
    case Write(result) =>
      var w := c.writer;
      c.(writes := c.writes + [Attempt(w.ticket, result)], writer := Sending(w.ticket, w.tries + 1, result))
    case Settle =>
      var w := c.writer;
      if w.last.Wrote? && c.accepted[w.ticket].matcher.Some?
      then c.(pending := Some(w.ticket), timers := c.timers[w.ticket := Armed], writer := Idle)
      else c.(results := Complete(c.results, w.ticket, ResultOf(w.last)), writer := Idle)
    case StopWriter => c.(writer := WriterStopped)
    case Receive(data) =>
      c.(chunks := c.chunks + [data],
         reader := if Answers(c, data) then Matched(c.pending.value, |c.chunks|) else Reading)
    case Resolve =>
      c.(results := Complete(c.results, c.reader.ticket, Response(c.reader.chunk)), reader := Resolved)
    case ClearPending => c.(pending := None, reader := Reading)
    case StopReader => c.(reader := ReaderStopped)
    case Expire(ticket) =>
      c.(timers := if c.pending == Some(ticket) then c.timers[ticket := Expired] else c.timers - {ticket})
    case ClearExpired(ticket) => c.(pending := None, timers := c.timers[ticket := Cleared])
    case GiveUp(ticket) => c.(results := Complete(c.results, ticket, TimedOut), timers := c.timers - {ticket})
    case Reopen(capacity) =>
      c.(capacity := capacity, closed := false, queue := [], writer := Idle, reader := Reading)
  }

  // ---------- What is promised ----------

  function Tries(writes: seq<Attempt>, ticket: nat): nat {
    if writes == [] then 0
    else Tries(writes[..|writes| - 1], ticket) + if writes[|writes| - 1].ticket == ticket then 1 else 0
  }

  ghost predicate Succeeded(writes: seq<Attempt>, ticket: nat) {
    exists i :: 0 <= i < |writes| && writes[i].ticket == ticket && writes[i].result.Wrote?
  }

  /** Writes follow the order of acceptance, a command's attempts side by side and none after a success. */
  ghost predicate InOrder(writes: seq<Attempt>) {
    forall i, j :: 0 <= i < j < |writes| ==>
      writes[i].ticket <= writes[j].ticket
      && (writes[i].ticket == writes[j].ticket ==> !writes[i].result.Wrote?)
  }

  /** What a completed handle says about its command. */
  ghost predicate Justified(c: Channel, ticket: nat, result: Result)
    requires ticket < |c.accepted|
  {
    var command := c.accepted[ticket];
    match result
    case Sent(bytes) => command.matcher.None? && Attempt(ticket, Wrote(bytes)) in c.writes
    case Response(chunk) =>
      && Succeeded(c.writes, ticket) && chunk < |c.chunks|
      && command.matcher.Some? && command.matcher.value(command.payload, c.chunks[chunk])
    case Failed => !Succeeded(c.writes, ticket) && Tries(c.writes, ticket) == Rounds(command)
    case TimedOut =>
      if Succeeded(c.writes, ticket) then command.matcher.Some?
      else Tries(c.writes, ticket) == Rounds(command) > 0
  }

  predicate IsResponse(result: Option<Result>) { result.Some? && result.value.Response? }

  /** This chunk has resolved no handle. */
  ghost predicate Unused(results: seq<Option<Result>>, chunk: nat) {
    forall t :: 0 <= t < |results| && IsResponse(results[t]) ==> results[t].value.chunk != chunk
  }

  /** One received chunk resolves at most one handle. */
  ghost predicate ResolvesOnce(results: seq<Option<Result>>) {
    forall s, t :: 0 <= s < t < |results| && IsResponse(results[s]) && IsResponse(results[t]) ==>
      results[s].value.chunk != results[t].value.chunk
  }

  ghost predicate Promised(c: Channel) {
    && InOrder(c.writes)
    && (forall i :: 0 <= i < |c.writes| ==> c.writes[i].ticket < |c.accepted|)
    && (forall t :: 0 <= t < |c.accepted| ==> Tries(c.writes, t) <= Rounds(c.accepted[t]))
    && |c.results| == |c.accepted|
    && (forall t :: 0 <= t < |c.results| && c.results[t].Some? ==> Justified(c, t, c.results[t].value))
    && ResolvesOnce(c.results)
  }

  // ---------- What every step keeps ----------

  /** No longer queued and no longer being written. */
  ghost predicate Settled(c: Channel, ticket: nat) {
    && ticket < |c.accepted|
    && (c.writer.Sending? ==> ticket < c.writer.ticket)
    && (forall k :: 0 <= k < |c.queue| ==> ticket < c.queue[k])
  }

  /** Written successfully and waiting, or once waiting, for a response. */
  ghost predicate Awaits(c: Channel, ticket: nat) {
    Settled(c, ticket) && Succeeded(c.writes, ticket) && c.accepted[ticket].matcher.Some?
  }

  /** Tickets move in order from the queue through the writer into the record of writes. */
  ghost predicate Flows(c: Channel) {
    && (forall k :: 0 <= k < |c.queue| ==> c.queue[k] < |c.accepted|)
    && (forall j, k :: 0 <= j < k < |c.queue| ==> c.queue[j] < c.queue[k])
    && (forall i, k :: 0 <= i < |c.writes| && 0 <= k < |c.queue| ==> c.writes[i].ticket < c.queue[k])
    && (c.writer.Sending? ==> SendingFlows(c, c.writer.ticket, c.writer.tries, c.writer.last))
  }

  ghost predicate SendingFlows(c: Channel, ticket: nat, tries: nat, last: WriteResult) {
    && ticket < |c.accepted| && tries <= Rounds(c.accepted[ticket])
    && (forall k :: 0 <= k < |c.queue| ==> ticket < c.queue[k])
    && (forall i :: 0 <= i < |c.writes| ==> c.writes[i].ticket <= ticket)
    && Tries(c.writes, ticket) == tries
    && (if tries == 0 then last == WriteFailed
        else c.writes != [] && c.writes[|c.writes| - 1] == Attempt(ticket, last))
  }

  /** Only settled commands are answered, awaited or completed, and the chunk in hand resolved nothing yet. */
  ghost predicate Links(c: Channel) {
    && |c.results| == |c.accepted|
    && (forall t :: 0 <= t < |c.results| && c.results[t].Some? ==> Settled(c, t))
    && (c.pending.Some? ==> Awaits(c, c.pending.value))
    && (forall t <- c.timers :: Awaits(c, t))
    && (c.reader.Matched? ==>
          && Awaits(c, c.reader.ticket) && c.reader.chunk < |c.chunks|
          && Justified(c, c.reader.ticket, Response(c.reader.chunk))
          && Unused(c.results, c.reader.chunk))
  }

  ghost predicate Inv(c: Channel) { Promised(c) && Flows(c) && Links(c) }

  lemma OpenedKeeps(capacity: nat)
    ensures Inv(Opened(capacity))
  {}

  // ---------- The record of writes ----------

  lemma TriesAppended(writes: seq<Attempt>, attempt: Attempt, ticket: nat)
    ensures Tries(writes + [attempt], ticket) == Tries(writes, ticket) + if attempt.ticket == ticket then 1 else 0
  {
    assert (writes + [attempt])[..|writes|] == writes;
  }

  lemma {:induction false} NoTries(writes: seq<Attempt>, ticket: nat)
    requires forall i :: 0 <= i < |writes| ==> writes[i].ticket != ticket
    ensures Tries(writes, ticket) == 0 && !Succeeded(writes, ticket)
  {
    if writes != [] {
      NoTries(writes[..|writes| - 1], ticket);
    }
  }

  lemma SucceededAppended(writes: seq<Attempt>, attempt: Attempt, ticket: nat)
    ensures Succeeded(writes + [attempt], ticket)
            <==> Succeeded(writes, ticket) || (attempt.ticket == ticket && attempt.result.Wrote?)
  {
    var now := writes + [attempt];
    if Succeeded(writes, ticket) {
      var i :| 0 <= i < |writes| && writes[i].ticket == ticket && writes[i].result.Wrote?;
      assert now[i] == writes[i];
    }
    if attempt.ticket == ticket && attempt.result.Wrote? {
      assert now[|writes|] == attempt;
    }
  }

  /** A completed handle stays justified while commands and chunks arrive and other commands are written. */
  lemma JustifiedKept(c: Channel, d: Channel, ticket: nat, result: Result)
    requires ticket < |c.accepted| <= |d.accepted| && c.accepted[ticket] == d.accepted[ticket]
    requires c.chunks <= d.chunks
    requires d.writes == c.writes
          || (d.writes != [] && d.writes[..|d.writes| - 1] == c.writes && d.writes[|d.writes| - 1].ticket != ticket)
    requires Justified(c, ticket, result)
    ensures Justified(d, ticket, result)
  {
    if d.writes != c.writes {
      var attempt := d.writes[|d.writes| - 1];
      assert d.writes == c.writes + [attempt];
      TriesAppended(c.writes, attempt, ticket);
      SucceededAppended(c.writes, attempt, ticket);
    }
  }

  /** Completing one settled handle with something justified. */
  lemma CompletionPromises(c: Channel, ticket: nat, result: Result)
    requires Inv(c) && Settled(c, ticket) && Justified(c, ticket, result)
    requires result.Response? ==> Unused(c.results, result.chunk)
    ensures Promised(c.(results := Complete(c.results, ticket, result)))
  {
    hide InOrder, Tries, Succeeded, Flows, Links;
    var d := c.(results := Complete(c.results, ticket, result));
    forall t | 0 <= t < |d.results| && d.results[t].Some? ensures Justified(d, t, d.results[t].value) {
      JustifiedKept(c, d, t, d.results[t].value);
    }
    hide Justified;
    forall s, t | 0 <= s < t < |d.results| && IsResponse(d.results[s]) && IsResponse(d.results[t])
      ensures d.results[s].value.chunk != d.results[t].value.chunk
    {
    }
  }

  lemma CompletionLinks(c: Channel, ticket: nat, result: Result)
    requires Promised(c) && Links(c) && Settled(c, ticket)
    requires result.Response? ==> !c.reader.Matched?
    ensures Links(c.(results := Complete(c.results, ticket, result)))
  {
    var d := c.(results := Complete(c.results, ticket, result));
    if c.reader.Matched? {
      JustifiedKept(c, d, c.reader.ticket, Response(c.reader.chunk));
    }
    hide Justified, Promised, Tries, Succeeded;
  }

  lemma CompletionFlows(c: Channel, ticket: nat, result: Result)
    requires Flows(c)
    ensures Flows(c.(results := Complete(c.results, ticket, result)))
  {
    hide Tries, Complete;
  }

  lemma CompletionKeeps(c: Channel, ticket: nat, result: Result)
    requires Inv(c) && Settled(c, ticket) && Justified(c, ticket, result)
    requires result.Response? ==> !c.reader.Matched? && Unused(c.results, result.chunk)
    ensures Inv(c.(results := Complete(c.results, ticket, result)))
  {
    CompletionPromises(c, ticket, result);
    CompletionFlows(c, ticket, result);
    CompletionLinks(c, ticket, result);
    hide Promised, Flows, Links, Complete, Justified;
  }

  lemma OfferPromises(c: Channel, command: Command)
    requires Inv(c) && Accepts(c)
    ensures Promised(Next(c, Offer(command)))
  {
    hide InOrder, Succeeded, Tries, Links;
    var d := Next(c, Offer(command));
    NoTries(c.writes, |c.accepted|);
    forall t | 0 <= t < |d.results| && d.results[t].Some? ensures Justified(d, t, d.results[t].value) {
      JustifiedKept(c, d, t, d.results[t].value);
    }
  }

  lemma OfferFlows(c: Channel, command: Command)
    requires Flows(c) && Accepts(c)
    requires forall i :: 0 <= i < |c.writes| ==> c.writes[i].ticket < |c.accepted|
    ensures Flows(Next(c, Offer(command)))
  {
    hide Tries;
  }

  lemma OfferLinks(c: Channel, command: Command)
    requires Promised(c) && Links(c) && Accepts(c)
    ensures Links(Next(c, Offer(command)))
  {
    hide Tries, InOrder, Succeeded, ResolvesOnce;
    var d := Next(c, Offer(command));
    if c.reader.Matched? {
      JustifiedKept(c, d, c.reader.ticket, Response(c.reader.chunk));
    }
    hide Justified, Promised;
  }

  lemma OfferKeeps(c: Channel, command: Command)
    requires Inv(c)
    ensures Inv(Next(c, Offer(command)))
  {
    if Accepts(c) {
      OfferPromises(c, command);
      OfferFlows(c, command);
      OfferLinks(c, command);
    }
  }

  lemma TakeKeeps(c: Channel)
    requires Inv(c) && Enabled(c, Take)
    ensures Inv(Next(c, Take))
  {
    hide InOrder, Succeeded, Tries;
    var d := Next(c, Take);
    NoTries(c.writes, c.queue[0]);
    forall t | 0 <= t < |d.results| && d.results[t].Some? ensures Justified(d, t, d.results[t].value) {
      JustifiedKept(c, d, t, d.results[t].value);
    }
    if c.reader.Matched? {
      JustifiedKept(c, d, c.reader.ticket, Response(c.reader.chunk));
    }
  }

  lemma LastTried(writes: seq<Attempt>, ticket: nat)
    requires writes != [] && Tries(writes, ticket) == 0
    ensures writes[|writes| - 1].ticket != ticket
  {}

  /** Another attempt by the command last written, if it has not succeeded, or by a later one. */
  lemma InOrderAppended(writes: seq<Attempt>, attempt: Attempt)
    requires InOrder(writes)
    requires forall i :: 0 <= i < |writes| ==> writes[i].ticket <= attempt.ticket
    requires writes != [] && writes[|writes| - 1].ticket == attempt.ticket ==> !writes[|writes| - 1].result.Wrote?
    ensures InOrder(writes + [attempt])
  {
    forall i | 0 <= i < |writes| && writes[i].ticket == attempt.ticket ensures !writes[i].result.Wrote? {
      assert writes[i].ticket <= writes[|writes| - 1].ticket;
    }
  }

  lemma WriteInOrder(c: Channel, result: WriteResult)
    requires Inv(c) && Enabled(c, Write(result))
    ensures InOrder(Next(c, Write(result)).writes)
  {
    hide Justified, Links;
    if c.writer.tries == 0 && c.writes != [] {
      LastTried(c.writes, c.writer.ticket);
    }
    InOrderAppended(c.writes, Attempt(c.writer.ticket, result));
  }

  lemma WriteFlows(c: Channel, result: WriteResult)
    requires Inv(c) && Enabled(c, Write(result))
    ensures Flows(Next(c, Write(result)))
  {
    var w, attempt := c.writer, Attempt(c.writer.ticket, result);
    var d := Next(c, Write(result));
    TriesAppended(c.writes, attempt, w.ticket);
    hide Promised, Links, Tries, Rounds;
    assert d.writes[..|c.writes|] == c.writes && d.writes[|c.writes|] == attempt;
    assert SendingFlows(d, w.ticket, w.tries + 1, result);
    hide SendingFlows;
  }

  lemma WritePromises(c: Channel, result: WriteResult)
    requires Inv(c) && Enabled(c, Write(result))
    ensures var d := Next(c, Write(result)); Promised(d)
  {
    WriteInOrder(c, result);
    hide Tries, Succeeded, Justified, InOrder, ResolvesOnce;
    var d := Next(c, Write(result));
    var attempt := Attempt(c.writer.ticket, result);
    assert d.writes[..|d.writes| - 1] == c.writes;
    forall t | 0 <= t < |d.accepted| ensures Tries(d.writes, t) <= Rounds(d.accepted[t]) {
      TriesAppended(c.writes, attempt, t);
    }
    forall t | 0 <= t < |d.results| && d.results[t].Some? ensures Justified(d, t, d.results[t].value) {
      JustifiedKept(c, d, t, d.results[t].value);
    }
  }

  lemma WriteLinks(c: Channel, result: WriteResult)
    requires Inv(c) && Enabled(c, Write(result))
    ensures var d := Next(c, Write(result)); Links(d)
  {
    hide Tries, Succeeded, Justified, Promised;
    var d := Next(c, Write(result));
    assert d.writes[..|d.writes| - 1] == c.writes;
    forall t | Succeeded(c.writes, t) ensures Succeeded(d.writes, t) {
      SucceededAppended(c.writes, Attempt(c.writer.ticket, result), t);
    }
    if c.reader.Matched? {
      JustifiedKept(c, d, c.reader.ticket, Response(c.reader.chunk));
    }
  }

  lemma WriteKeeps(c: Channel, result: WriteResult)
    requires Inv(c) && Enabled(c, Write(result))
    ensures Inv(Next(c, Write(result)))
  {
    WritePromises(c, result);
    WriteFlows(c, result);
    WriteLinks(c, result);
  }

  /** Waiting for a response from now on. */
  lemma PendingKeeps(c: Channel, ticket: nat)
    requires Inv(c) && Awaits(c, ticket)
    ensures Inv(c.(pending := Some(ticket), timers := c.timers[ticket := Armed]))
  {
    var d := c.(pending := Some(ticket), timers := c.timers[ticket := Armed]);
    ResultsKept(c, d);
    hide Justified, Promised, Flows, Settled, Awaits;
  }

  lemma ResultsKept(c: Channel, d: Channel)
    requires Promised(c) && Flows(c)
    requires d == c.(closed := d.closed, pending := d.pending, timers := d.timers, reader := d.reader)
    ensures Promised(d) && Flows(d)
    ensures forall t: nat, r :: t < |c.accepted| ==> Justified(c, t, r) == Justified(d, t, r)
    ensures forall t: nat :: Settled(c, t) == Settled(d, t) && Awaits(c, t) == Awaits(d, t)
  {
    hide Tries, InOrder, Succeeded, ResolvesOnce;
  }

  lemma SettleKeeps(c: Channel)
    requires Inv(c) && Enabled(c, Settle)
    ensures Inv(Next(c, Settle))
  {
    SettledOnce(c);
    hide Inv, Awaits, Justified, Settled;
    var w := c.writer;
    var d := c.(writer := Idle);
    if w.last.Wrote? && c.accepted[w.ticket].matcher.Some? {
      PendingKeeps(d, w.ticket);
    } else {
      CompletionKeeps(d, w.ticket, ResultOf(w.last));
    }
  }

  /** The writer is done with a command: what there is to say about it. */
  lemma SettledOnce(c: Channel)
    requires Inv(c) && Enabled(c, Settle)
    ensures var d := c.(writer := Idle);
            var w := c.writer;
            && Inv(d) && Settled(d, w.ticket)
            && (w.last.Wrote? && c.accepted[w.ticket].matcher.Some? ==> Awaits(d, w.ticket))
            && (!(w.last.Wrote? && c.accepted[w.ticket].matcher.Some?) ==> Justified(d, w.ticket, ResultOf(w.last)))
  {
    hide InOrder, ResolvesOnce;
    var w := c.writer;
    var d := c.(writer := Idle);
    forall t | 0 <= t < |d.results| && d.results[t].Some? ensures Justified(d, t, d.results[t].value) {
      JustifiedKept(c, d, t, d.results[t].value);
    }
    if !w.last.Wrote? {
      NoSuccess(c);
    } else {
      assert c.writes[|c.writes| - 1] == Attempt(w.ticket, w.last);
    }
  }

  lemma NoSuccess(c: Channel)
    requires InOrder(c.writes) && c.writer.Sending? && SendingFlows(c, c.writer.ticket, c.writer.tries, c.writer.last)
    requires !c.writer.last.Wrote?
    ensures !Succeeded(c.writes, c.writer.ticket)
  {
    if c.writer.tries == 0 {
      NeverTried(c.writes, c.writer.ticket);
    }
  }

  lemma {:induction false} NeverTried(writes: seq<Attempt>, ticket: nat)
    requires Tries(writes, ticket) == 0
    ensures !Succeeded(writes, ticket)
  {
    if writes != [] {
      NeverTried(writes[..|writes| - 1], ticket);
      assert writes == writes[..|writes| - 1] + [writes[|writes| - 1]];
    }
  }

  // ---------- Steps that only let go ----------

  /** Commands are dropped from the queue's front, the writer or the reader ends or starts afresh. */
  lemma ForgettingKeeps(c: Channel, d: Channel, n: nat)
    requires Inv(c) && n <= |c.queue| && d.queue == c.queue[n..]
    requires d == c.(capacity := d.capacity, closed := d.closed, queue := d.queue,
                     writer := d.writer, reader := d.reader)
    requires d.writer == c.writer || !d.writer.Sending?
    requires d.reader == c.reader || !d.reader.Matched?
    ensures Inv(d)
  {
    hide Tries, InOrder, Succeeded, ResolvesOnce;
    assert forall t: nat, r :: t < |c.accepted| ==> Justified(c, t, r) == Justified(d, t, r);
    hide Justified;
    assert Promised(d) && Flows(d);
    assert forall t: nat :: Settled(c, t) ==> Settled(d, t);
    hide Settled, Promised, Flows;
  }

  /** The channel closes, the pending field is cleared, timers move on or end, the reader lets go of its match. */
  lemma LettingGoKeeps(c: Channel, d: Channel)
    requires Inv(c)
    requires d == c.(closed := d.closed, pending := d.pending, timers := d.timers, reader := d.reader)
    requires d.pending == c.pending || d.pending.None?
    requires d.timers.Keys <= c.timers.Keys
    requires d.reader == c.reader || !d.reader.Matched?
    ensures Inv(d)
  {
    ResultsKept(c, d);
    hide Justified, Promised, Flows, Settled, Awaits;
    assert forall t <- d.timers :: t in c.timers;
  }

  lemma ReceivePromises(c: Channel, data: seq<byte>)
    requires Inv(c) && Enabled(c, Receive(data))
    ensures Promised(Next(c, Receive(data)))
  {
    hide Tries, InOrder, Succeeded, ResolvesOnce, Flows, Links, Answers;
    var d := Next(c, Receive(data));
    forall t | 0 <= t < |d.results| && d.results[t].Some? ensures Justified(d, t, d.results[t].value) {
      JustifiedKept(c, d, t, d.results[t].value);
    }
  }

  lemma ReceiveFlows(c: Channel, data: seq<byte>)
    requires Flows(c) && Enabled(c, Receive(data))
    ensures Flows(Next(c, Receive(data)))
  {
    hide Tries, Answers;
  }

  /** Earlier responses came from earlier chunks. */
  lemma ChunksBefore(c: Channel)
    requires Promised(c)
    ensures forall t :: 0 <= t < |c.results| && IsResponse(c.results[t]) ==> c.results[t].value.chunk < |c.chunks|
  {
    hide Tries, InOrder, Succeeded, ResolvesOnce;
  }

  lemma ReceiveLinks(c: Channel, data: seq<byte>)
    requires Promised(c) && Links(c) && Enabled(c, Receive(data))
    ensures Links(Next(c, Receive(data)))
  {
    ChunksBefore(c);
    hide Promised, Tries, InOrder, Succeeded, ResolvesOnce;
    var d := Next(c, Receive(data));
    assert forall t: nat :: Settled(c, t) == Settled(d, t) && Awaits(c, t) == Awaits(d, t);
    hide Settled;
    if Answers(c, data) {
      assert d.chunks[|c.chunks|] == data;
    }
  }

  lemma ReceiveKeeps(c: Channel, data: seq<byte>)
    requires Inv(c) && Enabled(c, Receive(data))
    ensures Inv(Next(c, Receive(data)))
  {
    ReceivePromises(c, data);
    ReceiveFlows(c, data);
    ReceiveLinks(c, data);
  }

  lemma ResolveKeeps(c: Channel)
    requires Inv(c) && Enabled(c, Resolve)
    ensures Inv(Next(c, Resolve))
  {
    var d := c.(reader := Resolved);
    LettingGoKeeps(c, d);
    hide Tries, InOrder, Succeeded, ResolvesOnce, Flows;
    CompletionKeeps(d, c.reader.ticket, Response(c.reader.chunk));
  }

  lemma GiveUpKeeps(c: Channel, ticket: nat)
    requires Inv(c) && Enabled(c, GiveUp(ticket))
    ensures Inv(Next(c, GiveUp(ticket)))
  {
    var d := c.(timers := c.timers - {ticket});
    LettingGoKeeps(c, d);
    hide Tries, InOrder, ResolvesOnce, Flows;
    CompletionKeeps(d, ticket, TimedOut);
  }

  lemma StepKeeps(c: Channel, step: Step)
    requires Inv(c) && Enabled(c, step)
    ensures Inv(Next(c, step))
  {
    hide Inv, Complete, Accepts, MoreTries;
    match step {
      case Offer(command) => OfferKeeps(c, command);
      case Discard => ForgettingKeeps(c, Next(c, step), 1);
      case Close => LettingGoKeeps(c, Next(c, step));
      case Take => TakeKeeps(c);
      case Write(result) => WriteKeeps(c, result);
      case Settle => SettleKeeps(c);
      case StopWriter => ForgettingKeeps(c, Next(c, step), 0);
      case Receive(data) => ReceiveKeeps(c, data);
      case Resolve => ResolveKeeps(c);
      case ClearPending => LettingGoKeeps(c, Next(c, step));
      case StopReader => LettingGoKeeps(c, Next(c, step));
      case Expire(ticket) => LettingGoKeeps(c, Next(c, step));
      case ClearExpired(ticket) => LettingGoKeeps(c, Next(c, step));
      case GiveUp(ticket) => GiveUpKeeps(c, ticket);
      case Reopen(_) => ForgettingKeeps(c, Next(c, step), |c.queue|);
    }
  }

  // ---------- Whole runs ----------

  /** The channel after these steps, if each was enabled in its turn. */
  function Run(c: Channel, steps: seq<Step>): Option<Channel>
    decreases |steps|
  {
    if steps == [] then Some(c)
    else if !Enabled(c, steps[0]) then None
    else Run(Next(c, steps[0]), steps[1..])
  }

  /** Every promise holds after every interleaving. */
  lemma {:induction false} EveryRunKeepsPromises(c: Channel, steps: seq<Step>)
    requires Inv(c) && Run(c, steps).Some?
    ensures Inv(Run(c, steps).value)
    decreases |steps|
  {
    hide Inv, Next;
    if steps != [] {
      StepKeeps(c, steps[0]);
      EveryRunKeepsPromises(Next(c, steps[0]), steps[1..]);
    }
  }

  /** Once completed, a handle keeps its result, whatever happens after. */
  lemma {:induction false} CompletionsAreFinal(c: Channel, steps: seq<Step>, ticket: nat)
    requires Inv(c) && Run(c, steps).Some?
    requires ticket < |c.results| && c.results[ticket].Some?
    ensures var d := Run(c, steps).value; ticket < |d.results| && d.results[ticket] == c.results[ticket]
    decreases |steps|
  {
    hide Inv;
    if steps != [] {
      StepKeeps(c, steps[0]);
      CompletionsAreFinal(Next(c, steps[0]), steps[1..], ticket);
    }
  }

  /**
   * On any channels one after the other, whatever their capacities and however senders, writer, reader, timers and
   * cancellations interleave: writes in the order of acceptance, a command's attempts side by side, at most its
   * rounds and none after a success; every completion justified; every received chunk used at most once.
   */
  lemma PromisesAlwaysHold(capacity: nat, steps: seq<Step>)
    requires Run(Opened(capacity), steps).Some?
    ensures Promised(Run(Opened(capacity), steps).value)
  {
    OpenedKeeps(capacity);
    EveryRunKeepsPromises(Opened(capacity), steps);
  }

  // ---------- Nothing accepted is passed over ----------

  /** Nothing was passed over: what is neither queued nor in hand was tried, or has failed for having no rounds. */
  ghost predicate Served(c: Channel, ticket: nat)
    requires ticket < |c.accepted|
  {
    if Rounds(c.accepted[ticket]) == 0 then ticket < |c.results| && c.results[ticket] == Some(Failed)
    else Tries(c.writes, ticket) > 0
  }

  ghost predicate NoneSkipped(c: Channel) {
    && !c.writer.WriterStopped?
    && forall t: nat :: t < |c.accepted| ==>
         t in c.queue || (c.writer.Sending? && c.writer.ticket == t) || Served(c, t)
  }

  lemma ServedStays(c: Channel, step: Step, ticket: nat)
    requires Enabled(c, step) && ticket < |c.accepted| && Served(c, ticket)
    ensures ticket < |Next(c, step).accepted| && Served(Next(c, step), ticket)
  {
    if step.Write? {
      TriesAppended(c.writes, Attempt(c.writer.ticket, step.result), ticket);
    }
    hide Tries, MoreTries, Answers;
  }

  /** What the writer is done with was tried, or had no rounds and has failed. */
  lemma SettledIsServed(c: Channel)
    requires Inv(c) && Enabled(c, Settle)
    ensures Served(Next(c, Settle), c.writer.ticket)
  {
    hide Promised, Tries, Succeeded;
  }

  lemma StepSkipsNothing(c: Channel, step: Step)
    requires Inv(c) && Enabled(c, step) && NoneSkipped(c)
    requires !step.Discard? && !step.StopWriter?
    ensures NoneSkipped(Next(c, step))
  {
    forall t: nat | t < |c.accepted| && Served(c, t) ensures Served(Next(c, step), t) {
      ServedStays(c, step, t);
    }
    if step.Settle? {
      SettledIsServed(c);
    } else if step.Take? {
      assert forall t :: t in c.queue ==> t == c.queue[0] || t in Next(c, step).queue;
    }
    hide Served, Inv, Complete, Answers;
  }

  lemma {:induction false} RunSkipsNothing(c: Channel, steps: seq<Step>)
    requires Inv(c) && NoneSkipped(c) && Run(c, steps).Some?
    requires forall step <- steps :: !step.Discard? && !step.StopWriter?
    ensures NoneSkipped(Run(c, steps).value)
    decreases |steps|
  {
    hide Inv, NoneSkipped, Next;
    if steps != [] {
      StepKeeps(c, steps[0]);
      StepSkipsNothing(c, steps[0]);
      RunSkipsNothing(Next(c, steps[0]), steps[1..]);
    }
  }

  /**
   * Unless the oldest command is dropped or the writer cancelled, no accepted command is passed over: once the
   * queue is empty and the writer idle, a command has been tried exactly when its maxRetries is not the greatest
   * Int; one with the greatest Int has failed without a try.
   */
  lemma EveryCommandIsTried(capacity: nat, steps: seq<Step>, ticket: nat)
    requires Run(Opened(capacity), steps).Some?
    requires forall step <- steps :: !step.Discard? && !step.StopWriter?
    requires ticket < |Run(Opened(capacity), steps).value.accepted|
    ensures var c := Run(Opened(capacity), steps).value;
            c.queue == [] && c.writer.Idle? ==>
              && (Tries(c.writes, ticket) > 0 <==> c.accepted[ticket].maxRetries < MAX_INT)
              && (c.accepted[ticket].maxRetries == MAX_INT ==>
                    ticket < |c.results| && c.results[ticket] == Some(Failed))
  {
    OpenedKeeps(capacity);
    RunSkipsNothing(Opened(capacity), steps);
    EveryRunKeepsPromises(Opened(capacity), steps);
    var c := Run(Opened(capacity), steps).value;
    hide Tries, Run, InOrder, Justified, ResolvesOnce;
    if c.queue == [] && c.writer.Idle? {
      assert ticket !in c.queue && Served(c, ticket);
    }
  }

  /** Retrying for as long as an Int allows is not to try at all. */
  lemma GreatestRetriesNeverTry(command: Command)
    requires command.maxRetries == MAX_INT
    ensures var run := Run(Opened(1), [Offer(command), Take, Settle]);
            run.Some? && run.value.writes == [] && run.value.results == [Some(Failed)]
  {
    var c1 := Next(Opened(1), Offer(command));
    var c2 := Next(c1, Take);
    var c3 := Next(c2, Settle);
    var steps := [Offer(command), Take, Settle];
    assert steps[1..] == [Take, Settle] && [Take, Settle][1..] == [Settle] && [Settle][1..] == [];
    assert c1 == Opened(1).(accepted := [command], queue := [0], results := [None]);
    assert c2 == c1.(queue := [], writer := Sending(0, 0, WriteFailed));
    assert c3 == c2.(results := [Some(Failed)], writer := Idle);
    assert Run(c3, []) == Some(c3);
    assert Run(c2, [Settle]) == Some(c3);
    assert Run(c1, [Take, Settle]) == Some(c3);
  }
}
