/** What becomes of a command: when it is accepted, what its handle completes with, and who completes it. */
module SessionProgress {
  import opened Wrappers
  import opened Bitwise
  import opened Sessions

  lemma {:induction false} RunAppend(c: Channel, a: seq<Step>, b: seq<Step>)
    ensures Run(c, a + b) == if Run(c, a).Some? then Run(Run(c, a).value, b) else None
    decreases |a|
  {
    hide Next, Enabled;
    if a == [] {
      assert a + b == b;
    } else {
      assert (a + b)[0] == a[0] && (a + b)[1..] == a[1..] + b;
      if Enabled(c, a[0]) {
        RunAppend(Next(c, a[0]), a[1..], b);
      }
    }
  }

  lemma RunOne(c: Channel, step: Step)
    ensures Run(c, [step]) == if Enabled(c, step) then Some(Next(c, step)) else None
  {
    hide Next, Enabled;
    assert [step][1..] == [];
    if Enabled(c, step) {
      assert Run(Next(c, step), []) == Some(Next(c, step));
    }
  }

  // ---------- The queue ----------

  /** A command is accepted exactly while the channel is open and the queue is not full, and then queued last. */
  lemma OfferAcceptsExactlyWhen(c: Channel, command: Command)
    ensures var run := Run(c, [Offer(command)]);
            run == Some(if c.closed || |c.queue| >= c.capacity then c
                        else c.(accepted := c.accepted + [command], queue := c.queue + [|c.accepted|],
                                results := c.results + [None]))
  {
    RunOne(c, Offer(command));
  }

  /** The writer takes the oldest command, with no attempt made yet; dropping one drops the oldest. */
  lemma OldestComesFirst(c: Channel)
    requires c.queue != []
    ensures Run(c, [Discard]) == Some(c.(queue := c.queue[1..]))
    ensures c.writer.Idle? ==>
              Run(c, [Take]) == Some(c.(queue := c.queue[1..], writer := Sending(c.queue[0], 0, WriteFailed)))
  {
    RunOne(c, Discard);
    RunOne(c, Take);
  }

  /** The queue never holds more than it is for. */
  lemma {:induction false} QueueFitsCapacity(c: Channel, steps: seq<Step>)
    requires |c.queue| <= c.capacity && Run(c, steps).Some?
    ensures var d := Run(c, steps).value; |d.queue| <= d.capacity
    decreases |steps|
  {
    if steps != [] {
      assert |Next(c, steps[0]).queue| <= Next(c, steps[0]).capacity by {
        hide Run, MoreTries, Answers;
      }
      QueueFitsCapacity(Next(c, steps[0]), steps[1..]);
    }
  }

  /** A close or a cancellation changes that much; a new channel is open and empty, and leaves what waits waiting. */
  lemma ChannelsComeAndGo(c: Channel, capacity: nat)
    ensures Run(c, [Close]) == Some(c.(closed := true))
    ensures Run(c, [StopWriter]) == Some(c.(writer := WriterStopped))
    ensures Run(c, [StopReader]) == Some(c.(reader := ReaderStopped))
    ensures Run(c, [Reopen(capacity)])
         == if c.writer.WriterStopped? && c.reader.ReaderStopped? then
              Some(c.(capacity := capacity, closed := false, queue := [], writer := Idle, reader := Reading))
            else None
  {
    RunOne(c, Close);
    RunOne(c, StopWriter);
    RunOne(c, StopReader);
    RunOne(c, Reopen(capacity));
    hide Run;
  }

  // ---------- Nobody gets stuck ----------

  /** The command in hand has not completed. */
  lemma InHandIsOpen(c: Channel)
    requires Inv(c) && c.writer.Sending?
    ensures c.writer.ticket < |c.results| == |c.accepted| && c.results[c.writer.ticket].None?
  {
    hide InOrder, ResolvesOnce, Tries, Succeeded, Justified;
    var t := c.writer.ticket;
    assert t < |c.accepted|;
    assert !Settled(c, t);
  }

  /**
   * The writer with a command in hand makes another attempt exactly while none has succeeded and there were no more
   * than maxRetries, which must not be the greatest Int, and is done with it otherwise.
   */
  lemma WriterCanGoOn(c: Channel, result: WriteResult)
    requires Inv(c) && c.writer.Sending?
    ensures c.writer.ticket < |c.accepted|
    ensures var retries := c.accepted[c.writer.ticket].maxRetries;
            var more := !c.writer.last.Wrote? && c.writer.tries <= retries && retries < 2147483647;
            (Run(c, [Write(result)]).Some? <==> more) && (Run(c, [Settle]).Some? <==> !more)
  {
    RunOne(c, Write(result));
    RunOne(c, Settle);
    InHandIsOpen(c);
    hide Run, Inv;
  }

  /** The reader can always take its next step, and the writer its next command. */
  lemma ReaderAndWriterCanGoOn(c: Channel, data: seq<byte>)
    ensures c.reader.Reading? ==> Run(c, [Receive(data)]).Some?
    ensures c.reader.Matched? ==> Run(c, [Resolve]).Some?
    ensures c.reader.Resolved? ==> Run(c, [ClearPending]).Some?
    ensures c.writer.Idle? && c.queue != [] ==> Run(c, [Take]).Some?
  {
    RunOne(c, Receive(data));
    RunOne(c, Resolve);
    RunOne(c, ClearPending);
    RunOne(c, Take);
    hide Run, Next;
  }

  /** So can every timer. */
  lemma TimersCanGoOn(c: Channel, ticket: nat)
    requires ticket in c.timers
    ensures c.timers[ticket] == Armed ==> Run(c, [Expire(ticket)]).Some?
    ensures c.timers[ticket] == Expired ==> Run(c, [ClearExpired(ticket)]).Some?
    ensures c.timers[ticket] == Cleared ==> Run(c, [GiveUp(ticket)]).Some?
  {
    RunOne(c, Expire(ticket));
    RunOne(c, ClearExpired(ticket));
    RunOne(c, GiveUp(ticket));
    hide Run, Next;
  }

  /** An attempt is recorded for the command in hand, and what it came to is remembered. */
  lemma AttemptIsRecorded(c: Channel, result: WriteResult)
    requires c.writer.Sending?
    ensures var run := Run(c, [Write(result)]);
            run.Some? ==> run.value == c.(writes := c.writes + [Attempt(c.writer.ticket, result)],
                                          writer := Sending(c.writer.ticket, c.writer.tries + 1, result))
  {
    hide Run, MoreTries;
    RunOne(c, Write(result));
  }

  // ---------- What the writer makes of a command ----------

  /**
   * Done with a command, the writer leaves it waiting, with a timer, exactly if the last attempt succeeded and it has
   * a matcher; else it completes it with what the last attempt came to.
   */
  lemma SettlingDoes(c: Channel)
    requires Inv(c) && Enabled(c, Settle)
    ensures var t, last := c.writer.ticket, c.writer.last;
            && t < |c.accepted| == |c.results|
            && Run(c, [Settle])
               == Some(if last.Wrote? && c.accepted[t].matcher.Some?
                       then c.(writer := Idle, pending := Some(t), timers := c.timers[t := Armed])
                       else c.(writer := Idle, results := c.results[t := Some(
                              match last case Wrote(bytes) => Sent(bytes) case WriteTimedOut => TimedOut
                                         case WriteFailed => Failed)]))
  {
    InHandIsOpen(c);
    RunOne(c, Settle);
    hide Inv, MoreTries;
  }

  // ---------- What the reader makes of a chunk ----------

  /**
   * A received chunk is kept, and the reader owes it to a command exactly if that is the one waiting, has a matcher,
   * and its matcher accepts the chunk for its payload; otherwise it goes on reading.
   */
  lemma ReceiveMatchesExactlyWhen(c: Channel, data: seq<byte>, ticket: nat)
    requires Inv(c) && c.reader.Reading?
    ensures var run := Run(c, [Receive(data)]);
            && run.Some?
            && var d := run.value;
            && d == c.(reader := d.reader, chunks := c.chunks + [data])
            && (d.reader.Reading? || (d.reader.Matched? && d.reader.chunk == |c.chunks|))
            && (d.reader == Matched(ticket, |c.chunks|) <==>
                  && c.pending == Some(ticket) && ticket < |c.accepted| && c.accepted[ticket].matcher.Some?
                  && c.accepted[ticket].matcher.value(c.accepted[ticket].payload, data))
  {
    RunOne(c, Receive(data));
    hide Inv;
  }

  /** Settled commands stay so, and are not the writer's any more. */
  lemma MatchedIsSettled(c: Channel)
    requires Inv(c) && c.reader.Matched?
    ensures c.reader.ticket < |c.accepted| == |c.results|
    ensures c.writer.Sending? ==> c.reader.ticket < c.writer.ticket
  {
    hide InOrder, ResolvesOnce, Tries, Succeeded, Justified;
  }

  lemma MatchedStep(c: Channel, step: Step)
    requires Inv(c) && c.reader.Matched? && Enabled(c, step) && step != Resolve && step != StopReader
    ensures var d, t := Next(c, step), c.reader.ticket;
            && d.reader == c.reader && d.chunks == c.chunks
            && t < |c.results| <= |d.results|
            && d.results[t] == (if c.results[t].Some? then c.results[t]
                                else if step == GiveUp(t) then Some(TimedOut) else None)
  {
    hide Inv, MoreTries, Rounds;
    MatchedIsSettled(c);
  }

  /** While the reader owes a chunk, nothing but the command's own timer completes it. */
  lemma {:induction false} WhileMatched(c: Channel, steps: seq<Step>)
    requires Inv(c) && c.reader.Matched? && Run(c, steps).Some?
    requires Resolve !in steps && StopReader !in steps
    ensures var d, t := Run(c, steps).value, c.reader.ticket;
            && Inv(d) && d.reader == c.reader && d.chunks == c.chunks
            && t < |c.results| && t < |d.results|
            && d.results[t] == (if c.results[t].Some? then c.results[t]
                                else if GiveUp(t) in steps then Some(TimedOut) else None)
    decreases |steps|
  {
    MatchedIsSettled(c);
    if steps != [] {
      var next := Next(c, steps[0]);
      StepKeeps(c, steps[0]);
      assert steps == [steps[0]] + steps[1..];
      MatchedStep(c, steps[0]);
      hide Inv, Next, Enabled;
      WhileMatched(next, steps[1..]);
    }
  }

  lemma ResolvedStep(c: Channel, step: Step)
    requires c.reader.Resolved? && Enabled(c, step) && step != ClearPending && step != StopReader
    ensures Next(c, step).reader.Resolved? && Next(c, step).chunks == c.chunks
  {
    hide MoreTries, Complete;
  }

  lemma {:induction false} WhileResolved(c: Channel, steps: seq<Step>)
    requires Inv(c) && c.reader.Resolved? && Run(c, steps).Some?
    requires ClearPending !in steps && StopReader !in steps
    ensures var d := Run(c, steps).value; d.reader.Resolved? && d.chunks == c.chunks
    decreases |steps|
  {
    if steps != [] {
      StepKeeps(c, steps[0]);
      assert steps == [steps[0]] + steps[1..];
      ResolvedStep(c, steps[0]);
      hide Inv, Next, Enabled;
      WhileResolved(Next(c, steps[0]), steps[1..]);
    }
  }

  lemma MatchedChunk(c: Channel)
    requires Inv(c) && c.reader.Matched?
    ensures c.reader.chunk < |c.chunks|
  {
    hide Promised, Flows, Awaits, Justified, Unused;
  }

  /**
   * A chunk the reader owes is delivered: whatever the others do in the meantime, after the reader's next two steps
   * nothing is pending, and the handle has this response unless it had completed before or its timer gave up first.
   */
  lemma ResponseIsDelivered(c: Channel, a: seq<Step>, b: seq<Step>)
    requires Inv(c) && c.reader.Matched?
    requires Resolve !in a && StopReader !in a && ClearPending !in b && StopReader !in b
    requires Run(c, a + [Resolve] + b + [ClearPending]).Some?
    ensures var d, t, k := Run(c, a + [Resolve] + b + [ClearPending]).value, c.reader.ticket, c.reader.chunk;
            && t < |c.results| && t < |d.results| && k < |c.chunks| && c.chunks == d.chunks
            && d.pending.None? && d.reader.Reading?
            && d.results[t] == (if c.results[t].Some? then c.results[t]
                                else if GiveUp(t) in a then Some(TimedOut) else Some(Response(k)))
  {
    RunAppend(c, a + [Resolve] + b, [ClearPending]);
    RunAppend(c, a + [Resolve], b);
    RunAppend(c, a, [Resolve]);
    WhileMatched(c, a);
    var c1, t := Run(c, a).value, c.reader.ticket;
    RunOne(c1, Resolve);
    StepKeeps(c1, Resolve);
    var c2 := Next(c1, Resolve);
    assert c2.chunks == c.chunks && c2.reader.Resolved?;
    WhileResolved(c2, b);
    CompletionsAreFinal(c2, b, t);
    var c3 := Run(c2, b).value;
    RunOne(c3, ClearPending);
    MatchedChunk(c);
    hide Inv, Run;
  }

  /** A chunk arrives, and the reader's next two steps follow, with other steps in between. */
  function Delivery(data: seq<byte>, a: seq<Step>, b: seq<Step>): seq<Step> {
    [Receive(data)] + (a + [Resolve] + b + [ClearPending])
  }

  /**
   * From the chunk to the handle: if the waiting command's matcher accepts a chunk, then, whatever the others do
   * between the reader's steps, the handle completes with that chunk, unless it had completed before or its timer
   * gives up first, and nothing is pending any more.
   */
  lemma AnswerCompletes(c: Channel, ticket: nat, data: seq<byte>, a: seq<Step>, b: seq<Step>)
    requires Inv(c) && c.reader.Reading? && c.pending == Some(ticket)
    requires ticket < |c.accepted| && c.accepted[ticket].matcher.Some?
    requires c.accepted[ticket].matcher.value(c.accepted[ticket].payload, data)
    requires Resolve !in a && StopReader !in a && ClearPending !in b && StopReader !in b
    requires Run(c, Delivery(data, a, b)).Some?
    ensures var d, k := Run(c, Delivery(data, a, b)).value, |c.chunks|;
            && ticket < |c.results| && ticket < |d.results| && k < |d.chunks| && d.chunks[k] == data
            && d.pending.None?
            && d.results[ticket] == (if c.results[ticket].Some? then c.results[ticket]
                                     else if GiveUp(ticket) in a then Some(TimedOut) else Some(Response(k)))
  {
    ReceiveMatchesExactlyWhen(c, data, ticket);
    RunAppend(c, [Receive(data)], a + [Resolve] + b + [ClearPending]);
    RunOne(c, Receive(data));
    StepKeeps(c, Receive(data));
    hide Inv, Run, Next;
    ResponseIsDelivered(Run(c, [Receive(data)]).value, a, b);
  }

  // ---------- Waiting ----------

  /** Another command put to wait, a pending command forgotten, or the reader cancelled. */
  predicate Disturbs(step: Step) { step.Settle? || step.ClearPending? || step.ClearExpired? || step.StopReader? }

  /** Nothing disturbs the wait for this command's response, and no chunk received is one. */
  ghost predicate Undisturbed(command: Command, steps: seq<Step>) {
    forall step <- steps ::
      && !Disturbs(step)
      && (step.Receive? && command.matcher.Some? ==> !command.matcher.value(command.payload, step.data))
  }

  /** This command waits for its response, with its timer running, and no chunk is owed to it. */
  ghost predicate Waits(c: Channel, ticket: nat) {
    && c.pending == Some(ticket) && ticket < |c.results| == |c.accepted| && c.results[ticket].None?
    && ticket in c.timers && !c.timers[ticket].Cleared?
    && (c.reader.Matched? ==> c.reader.ticket != ticket)
  }

  lemma WaitingStep(c: Channel, step: Step, ticket: nat)
    requires Waits(c, ticket) && Enabled(c, step) && Undisturbed(c.accepted[ticket], [step])
    ensures Waits(Next(c, step), ticket) && Next(c, step).accepted[ticket] == c.accepted[ticket]
  {
    assert step in [step];
    hide MoreTries, Undisturbed;
  }

  /** A command waits on, whatever chunks arrive for nobody and whatever becomes of others. */
  lemma {:induction false} WaitingGoesOn(c: Channel, steps: seq<Step>, ticket: nat)
    requires Waits(c, ticket) && Undisturbed(c.accepted[ticket], steps) && Run(c, steps).Some?
    ensures var d := Run(c, steps).value; Waits(d, ticket) && d.accepted[ticket] == c.accepted[ticket]
    decreases |steps|
  {
    if steps != [] {
      var command := c.accepted[ticket];
      assert steps[0] in steps && Undisturbed(command, [steps[0]]);
      assert forall step <- steps[1..] :: step in steps;
      assert Undisturbed(command, steps[1..]);
      WaitingStep(c, steps[0], ticket);
      hide Waits, Undisturbed, Next, Enabled;
      WaitingGoesOn(Next(c, steps[0]), steps[1..], ticket);
    }
  }

  /** Once written, a command with a matcher waits. */
  lemma WrittenWaits(c: Channel)
    requires Inv(c) && Enabled(c, Settle) && c.writer.last.Wrote? && c.accepted[c.writer.ticket].matcher.Some?
    ensures var d := Next(c, Settle); Waits(d, c.writer.ticket) && d.accepted == c.accepted
  {
    InHandIsOpen(c);
    if c.reader.Matched? {
      MatchedIsSettled(c);
    }
    hide Inv, MoreTries;
  }

  lemma WaitingCommandGetsItsResponse(c: Channel, ticket: nat, data: seq<byte>, a: seq<Step>, b: seq<Step>)
    requires Inv(c) && Waits(c, ticket)
    requires var command := c.accepted[ticket];
             command.matcher.Some? && command.matcher.value(command.payload, data)
    requires Resolve !in a && StopReader !in a && GiveUp(ticket) !in a && ClearPending !in b && StopReader !in b
    requires Run(c, Delivery(data, a, b)).Some?
    ensures var d := Run(c, Delivery(data, a, b)).value;
            && ticket < |d.results| && d.pending.None?
            && IsResponse(d.results[ticket]) && d.results[ticket].value.chunk < |d.chunks|
            && d.chunks[d.results[ticket].value.chunk] == data
  {
    RunAppend(c, [Receive(data)], a + [Resolve] + b + [ClearPending]);
    RunOne(c, Receive(data));
    hide Inv, Run, Next;
    assert Enabled(c, Receive(data));
    AnswerCompletes(c, ticket, data, a, b);
  }

  /**
   * From the write to the response: a command written with success completes with the first chunk its matcher
   * accepts, whatever the others do in between, if nothing disturbs its wait and its timer does not give up between
   * the chunk and the reader's next step.
   */
  lemma WrittenCommandGetsItsResponse(c: Channel, waiting: seq<Step>, data: seq<byte>, a: seq<Step>, b: seq<Step>)
    requires Inv(c) && Enabled(c, Settle) && c.writer.last.Wrote?
    requires var command := c.accepted[c.writer.ticket];
             && Undisturbed(command, waiting)
             && command.matcher.Some? && command.matcher.value(command.payload, data)
    requires Resolve !in a && StopReader !in a && GiveUp(c.writer.ticket) !in a
    requires ClearPending !in b && StopReader !in b
    requires Run(c, [Settle] + waiting + Delivery(data, a, b)).Some?
    ensures var d, t := Run(c, [Settle] + waiting + Delivery(data, a, b)).value, c.writer.ticket;
            && t < |d.results| && d.pending.None?
            && IsResponse(d.results[t]) && d.results[t].value.chunk < |d.chunks|
            && d.chunks[d.results[t].value.chunk] == data
  {
    hide Delivery, Run, Waits, Undisturbed, MoreTries, Inv;
    var t := c.writer.ticket;
    RunAppend(c, [Settle] + waiting, Delivery(data, a, b));
    RunAppend(c, [Settle], waiting);
    RunOne(c, Settle);
    WrittenWaits(c);
    StepKeeps(c, Settle);
    hide Next;
    var c1 := Next(c, Settle);
    WaitingGoesOn(c1, waiting, t);
    EveryRunKeepsPromises(c1, waiting);
    WaitingCommandGetsItsResponse(Run(c1, waiting).value, t, data, a, b);
  }

  // ---------- Timers ----------

  /** A timer that does not find its command waiting ends, and leaves everything else alone. */
  lemma TimerOfAnotherDoesNothing(c: Channel, ticket: nat)
    requires ticket in c.timers && c.timers[ticket] == Armed && c.pending != Some(ticket)
    ensures Run(c, [Expire(ticket)]) == Some(c.(timers := c.timers - {ticket}))
  {
    RunOne(c, Expire(ticket));
  }

  lemma TimedIsSettled(c: Channel, ticket: nat)
    requires Inv(c) && ticket in c.timers
    ensures ticket < |c.accepted| == |c.results| && (c.writer.Sending? ==> ticket < c.writer.ticket)
  {
    hide InOrder, ResolvesOnce, Tries, Succeeded, Justified;
  }

  lemma TimerMoves(c: Channel, ticket: nat, step: Step)
    requires Inv(c) && ticket in c.timers && Enabled(c, step)
    requires step != Expire(ticket) && step != ClearExpired(ticket) && step != GiveUp(ticket)
    ensures var d := Next(c, step); ticket in d.timers && d.timers[ticket] == c.timers[ticket]
  {
    if step.Settle? {
      TimedIsSettled(c, ticket);
    }
    hide Inv, MoreTries, Answers, Complete, Run;
  }

  /** Until a timer's own next step it stays where it is. */
  lemma {:induction false} TimerStands(c: Channel, ticket: nat, steps: seq<Step>)
    requires Inv(c) && ticket in c.timers && Run(c, steps).Some?
    requires Expire(ticket) !in steps && ClearExpired(ticket) !in steps && GiveUp(ticket) !in steps
    ensures var d := Run(c, steps).value; Inv(d) && ticket in d.timers && d.timers[ticket] == c.timers[ticket]
    decreases |steps|
  {
    if steps != [] {
      assert steps[0] in steps && forall step <- steps[1..] :: step in steps;
      StepKeeps(c, steps[0]);
      TimerMoves(c, ticket, steps[0]);
      hide Inv, Next, Enabled;
      TimerStands(Next(c, steps[0]), ticket, steps[1..]);
    }
  }

  /** The timer's last step completes the handle as timed out, unless it had completed before. */
  lemma GivingUpCompletes(c: Channel, ticket: nat)
    requires Inv(c) && ticket in c.timers && c.timers[ticket] == Cleared
    ensures var run := Run(c, [GiveUp(ticket)]);
            && run.Some? && ticket < |c.results|
            && run.value == c.(timers := c.timers - {ticket},
                 results := if c.results[ticket].Some? then c.results else c.results[ticket := Some(TimedOut)])
  {
    TimedIsSettled(c, ticket);
    RunOne(c, GiveUp(ticket));
    hide Inv;
  }

  /** Steps of anyone but this timer. */
  ghost predicate OfOthers(ticket: nat, steps: seq<Step>) {
    Expire(ticket) !in steps && ClearExpired(ticket) !in steps && GiveUp(ticket) !in steps
  }

  lemma TimerExpires(c: Channel, ticket: nat)
    requires Inv(c) && c.pending == Some(ticket) && ticket in c.timers && c.timers[ticket] == Armed
    ensures var d := c.(timers := c.timers[ticket := Expired]); Run(c, [Expire(ticket)]) == Some(d) && Inv(d)
  {
    RunOne(c, Expire(ticket));
    StepKeeps(c, Expire(ticket));
  }

  /** A timer that finds its command waiting clears the pending field at its next step, whatever happens before it. */
  lemma TimerClears(c: Channel, ticket: nat, a: seq<Step>)
    requires Inv(c) && c.pending == Some(ticket) && ticket in c.timers && c.timers[ticket] == Armed
    requires OfOthers(ticket, a) && Run(c, [Expire(ticket)] + a).Some?
    ensures var run := Run(c, [Expire(ticket)] + a + [ClearExpired(ticket)]);
            && run.Some? && Inv(run.value)
            && run.value.pending.None? && ticket in run.value.timers && run.value.timers[ticket] == Cleared
  {
    hide Inv, Run;
    TimerExpires(c, ticket);
    RunAppend(c, [Expire(ticket)], a);
    RunAppend(c, [Expire(ticket)] + a, [ClearExpired(ticket)]);
    var c1 := c.(timers := c.timers[ticket := Expired]);
    TimerStands(c1, ticket, a);
    var d := Run(c1, a).value;
    RunOne(d, ClearExpired(ticket));
    StepKeeps(d, ClearExpired(ticket));
  }

  /** After that it completes the handle as timed out, unless something else completed it first. */
  lemma TimerGivesUp(c: Channel, ticket: nat, b: seq<Step>)
    requires Inv(c) && ticket in c.timers && c.timers[ticket] == Cleared
    requires OfOthers(ticket, b) && Run(c, b).Some?
    ensures var before, run := Run(c, b).value.results, Run(c, b + [GiveUp(ticket)]);
            && run.Some? && ticket < |before| == |run.value.results|
            && run.value.results[ticket] == if before[ticket].Some? then before[ticket] else Some(TimedOut)
  {
    hide Inv, Run;
    RunAppend(c, b, [GiveUp(ticket)]);
    TimerStands(c, ticket, b);
    GivingUpCompletes(Run(c, b).value, ticket);
  }

  // ---------- Handles that never complete ----------

  /** Something is still under way that can complete this handle. */
  predicate UnderWay(c: Channel, ticket: nat) {
    || (ticket in c.queue && !c.writer.WriterStopped?)
    || (c.writer.Sending? && c.writer.ticket == ticket)
    || c.pending == Some(ticket)
    || (c.reader.Matched? && c.reader.ticket == ticket)
    || (ticket in c.timers && c.timers[ticket] != Armed)
  }

  /** Not completed, and nothing under way: dropped, left in a queue nobody serves, or not waited for any more. */
  predicate Forsaken(c: Channel, ticket: nat) {
    ticket < |c.results| == |c.accepted| && c.results[ticket].None? && !UnderWay(c, ticket)
  }

  lemma ForsakenStep(c: Channel, step: Step, ticket: nat)
    requires Forsaken(c, ticket) && Enabled(c, step)
    ensures Forsaken(Next(c, step), ticket)
  {
    hide Rounds;
    match step {
      case Take => assert c.queue[0] in c.queue;
      case _ =>
    }
  }

  lemma {:induction false} ForsakenForGood(c: Channel, steps: seq<Step>, ticket: nat)
    requires Forsaken(c, ticket) && Run(c, steps).Some?
    ensures Forsaken(Run(c, steps).value, ticket)
    decreases |steps|
  {
    hide Forsaken, Next, Enabled;
    if steps != [] {
      ForsakenStep(c, steps[0], ticket);
      ForsakenForGood(Next(c, steps[0]), steps[1..], ticket);
    }
  }

  lemma NotQueued(c: Channel, ticket: nat)
    requires Inv(c) && ticket in c.timers
    ensures ticket !in c.queue
  {
    hide Promised, Flows, Succeeded;
    assert Settled(c, ticket);
  }

  /** The next command put to wait takes the place of one that waits, which then waits for nothing. */
  lemma OverwrittenIsForsaken(c: Channel, ticket: nat)
    requires Inv(c) && Waits(c, ticket) && c.timers[ticket] == Armed
    requires Enabled(c, Settle) && c.writer.last.Wrote? && c.accepted[c.writer.ticket].matcher.Some?
    ensures Forsaken(Next(c, Settle), ticket)
  {
    TimedIsSettled(c, ticket);
    NotQueued(c, ticket);
    hide Inv, MoreTries;
  }

  /** A pending command's timer is running, or about to clear the field. */
  predicate PendingIsTimed(c: Channel) {
    c.pending.Some? ==> c.pending.value in c.timers && c.timers[c.pending.value] != Cleared
  }

  lemma {:induction false} RunKeepsTimed(c: Channel, steps: seq<Step>)
    requires PendingIsTimed(c) && Run(c, steps).Some?
    ensures PendingIsTimed(Run(c, steps).value)
    decreases |steps|
  {
    if steps != [] {
      assert PendingIsTimed(Next(c, steps[0])) by {
        hide MoreTries, Answers, Run;
      }
      hide PendingIsTimed, Next, Enabled;
      RunKeepsTimed(Next(c, steps[0]), steps[1..]);
    }
  }

  lemma PendingCompletes(c: Channel, ticket: nat) returns (steps: seq<Step>)
    requires Inv(c) && PendingIsTimed(c) && c.pending == Some(ticket)
    ensures Run(c, steps).Some? && ticket < |Run(c, steps).value.results|
    ensures Run(c, steps).value.results[ticket].Some?
  {
    hide Inv, Run;
    var first := if c.timers[ticket] == Armed then [Expire(ticket)] else [];
    if c.timers[ticket] == Armed {
      TimerExpires(c, ticket);
    } else {
      RunNothing(c);
    }
    var d := Run(c, first).value;
    ExpiredCompletes(d, ticket);
    steps := first + [ClearExpired(ticket), GiveUp(ticket)];
    RunAppend(c, first, [ClearExpired(ticket), GiveUp(ticket)]);
  }

  lemma RunNothing(c: Channel)
    ensures Run(c, []) == Some(c)
  {}

  lemma ExpiredCompletes(c: Channel, ticket: nat)
    requires Inv(c) && ticket in c.timers && c.timers[ticket] == Expired
    ensures var run := Run(c, [ClearExpired(ticket), GiveUp(ticket)]);
            run.Some? && ticket < |run.value.results| && run.value.results[ticket].Some?
  {
    hide Inv, Run;
    assert [ClearExpired(ticket), GiveUp(ticket)] == [ClearExpired(ticket)] + [GiveUp(ticket)];
    RunAppend(c, [ClearExpired(ticket)], [GiveUp(ticket)]);
    RunOne(c, ClearExpired(ticket));
    StepKeeps(c, ClearExpired(ticket));
    GivingUpCompletes(Next(c, ClearExpired(ticket)), ticket);
  }

  /** The writer finishes with the command in hand: at most one more attempt, which succeeds. */
  lemma HandFinishes(c: Channel) returns (steps: seq<Step>)
    requires Inv(c) && PendingIsTimed(c) && c.writer.Sending?
    ensures Run(c, steps).Some?
    ensures var d, t := Run(c, steps).value, c.writer.ticket;
            && Inv(d) && PendingIsTimed(d) && d.writer.Idle? && d.queue == c.queue
            && ((t < |d.results| && d.results[t].Some?) || d.pending == Some(t))
  {
    hide Inv, Run, PendingIsTimed;
    WriterCanGoOn(c, Wrote(0));
    var more := if MoreTries(c) then [Write(Wrote(0))] else [];
    RunOne(c, Write(Wrote(0)));
    RunNothing(c);
    var d := Run(c, more).value;
    EveryRunKeepsPromises(c, more);
    RunKeepsTimed(c, more);
    SettlingDoes(d);
    RunAppend(c, more, [Settle]);
    steps := more + [Settle];
    EveryRunKeepsPromises(c, steps);
    RunKeepsTimed(c, steps);
  }

  /** These steps complete the handle. */
  ghost predicate Completes(c: Channel, steps: seq<Step>, ticket: nat) {
    Run(c, steps).Some?
    && var results := Run(c, steps).value.results; ticket < |results| && results[ticket].Some?
  }

  lemma CompletesLater(c: Channel, a: seq<Step>, b: seq<Step>, ticket: nat)
    requires Run(c, a).Some? && Completes(Run(c, a).value, b, ticket)
    ensures Completes(c, a + b, ticket)
  {
    hide Run;
    RunAppend(c, a, b);
  }

  lemma HandCompletes(c: Channel) returns (steps: seq<Step>)
    requires Inv(c) && PendingIsTimed(c) && c.writer.Sending?
    ensures Completes(c, steps, c.writer.ticket)
  {
    hide Inv, Run, PendingIsTimed;
    var t := c.writer.ticket;
    var a := HandFinishes(c);
    var d := Run(c, a).value;
    var b := [];
    if d.pending == Some(t) {
      b := PendingCompletes(d, t);
    } else {
      RunNothing(d);
    }
    CompletesLater(c, a, b, t);
    steps := a + b;
  }

  lemma QueuedCompletes(c: Channel, ticket: nat) returns (steps: seq<Step>)
    requires Inv(c) && PendingIsTimed(c) && ticket in c.queue && !c.writer.WriterStopped?
    ensures Completes(c, steps, ticket)
    decreases |c.queue|, c.writer.Sending?
  {
    hide Inv, Run, PendingIsTimed, Completes, Next;
    var a, b := [], [];
    if c.writer.Sending? {
      a := HandFinishes(c);
      b := QueuedCompletes(Run(c, a).value, ticket);
    } else {
      a := [Take];
      OldestComesFirst(c);
      EveryRunKeepsPromises(c, a);
      RunKeepsTimed(c, a);
      if c.queue[0] == ticket {
        b := HandCompletes(Run(c, a).value);
      } else {
        b := QueuedCompletes(Run(c, a).value, ticket);
      }
    }
    CompletesLater(c, a, b, ticket);
    steps := a + b;
  }

  lemma MatchedCompletes(c: Channel)
    requires Inv(c) && c.reader.Matched?
    ensures Completes(c, [Resolve], c.reader.ticket)
  {
    MatchedIsSettled(c);
    RunOne(c, Resolve);
    hide Inv, Run;
  }

  lemma UnderWayCompletes(c: Channel, ticket: nat) returns (steps: seq<Step>)
    requires Inv(c) && PendingIsTimed(c) && UnderWay(c, ticket)
    ensures Completes(c, steps, ticket)
  {
    hide Inv, PendingIsTimed, Run;
    if c.writer.Sending? && c.writer.ticket == ticket {
      steps := HandCompletes(c);
    } else if c.pending == Some(ticket) {
      steps := PendingCompletes(c, ticket);
    } else if c.reader.Matched? && c.reader.ticket == ticket {
      MatchedCompletes(c);
      steps := [Resolve];
    } else if ticket in c.queue && !c.writer.WriterStopped? {
      steps := QueuedCompletes(c, ticket);
    } else if c.timers[ticket] == Expired {
      ExpiredCompletes(c, ticket);
      steps := [ClearExpired(ticket), GiveUp(ticket)];
    } else {
      GivingUpCompletes(c, ticket);
      steps := [GiveUp(ticket)];
    }
  }

  /**
   * At any moment of any run, the handle of an accepted command that has not completed can still do so exactly if
   * the command is in hand, pending or matched, its timer has found it pending, or it is queued for a writer at work.
   * A command that was dropped, whose channel was left, or whose place as the pending one another took before its
   * timer looked, never completes.
   */
  lemma MayCompleteExactlyWhen(capacity: nat, steps: seq<Step>, ticket: nat)
    requires Run(Opened(capacity), steps).Some?
    requires var c := Run(Opened(capacity), steps).value; ticket < |c.results| && c.results[ticket].None?
    ensures var c := Run(Opened(capacity), steps).value;
            (exists more :: Completes(c, more, ticket)) <==> UnderWay(c, ticket)
  {
    OpenedKeeps(capacity);
    EveryRunKeepsPromises(Opened(capacity), steps);
    RunKeepsTimed(Opened(capacity), steps);
    var c := Run(Opened(capacity), steps).value;
    assert |c.results| == |c.accepted|;
    hide Inv, Run, PendingIsTimed, UnderWay;
    if UnderWay(c, ticket) {
      var more := UnderWayCompletes(c, ticket);
    } else {
      forall more | Completes(c, more, ticket) ensures false {
        ForsakenForGood(c, more, ticket);
      }
    }
  }
}
