/** SerialSession.kt's coroutines, each method what one of them does between two suspensions. */
module SessionWorkers {
  import opened Wrappers
  import opened Bitwise
  import opened Sessions

  datatype SendError = AlreadyClosed | NotConnected | QueueFull

  lemma {:induction false} RunOneMore(c: Channel, steps: seq<Step>, step: Step)
    requires Run(c, steps).Some?
    ensures var d := Run(c, steps).value;
            Run(c, steps + [step]) == if Enabled(d, step) then Some(Next(d, step)) else None
    decreases |steps|
  {
    hide Next, Enabled;
    if steps == [] {
      assert [step][1..] == [];
      if Enabled(c, step) {
        assert Run(Next(c, step), []) == Some(Next(c, step));
      }
    } else {
      RunOneMore(Next(c, steps[0]), steps[1..], step);
      assert (steps + [step])[1..] == steps[1..] + [step];
    }
  }

  /** The last of so many outcomes; before the first, a failure is assumed. */
  function LastOutcome(outcomes: nat -> WriteResult, attempts: nat): WriteResult {
    if attempts == 0 then WriteFailed else outcomes(attempts - 1)
  }

  /** As many attempts as it takes to succeed, and otherwise all rounds. */
  ghost predicate StopsWhereItShould(outcomes: nat -> WriteResult, attempts: nat, rounds: nat) {
    && attempts <= rounds && (attempts == 0 <==> rounds == 0)
    && (forall k: nat :: k < attempts - 1 ==> !outcomes(k).Wrote?)
    && (LastOutcome(outcomes, attempts).Wrote? || attempts == rounds)
  }

  /** The first n attempts at a command. */
  function Attempts(ticket: nat, outcomes: nat -> WriteResult, n: nat): (attempts: seq<Attempt>)
    ensures |attempts| == n
  {
    if n == 0 then [] else Attempts(ticket, outcomes, n - 1) + [Attempt(ticket, outcomes(n - 1))]
  }

  lemma NoAttempts(ticket: nat, outcomes: nat -> WriteResult)
    ensures Attempts(ticket, outcomes, 0) == []
  {}

  lemma OneMoreAttempt(before: seq<Attempt>, ticket: nat, outcomes: nat -> WriteResult, n: nat)
    ensures before + Attempts(ticket, outcomes, n + 1) == before + Attempts(ticket, outcomes, n) + [Attempt(ticket,
        outcomes(n))]
  {}

  lemma InvBounds(c: Channel)
    requires Inv(c) && c.writer.Sending?
    ensures c.writer.ticket < |c.accepted|
  {}

  lemma RejectedOfferChangesNothing(c: Channel, command: Command)
    requires !Accepts(c)
    ensures Next(c, Offer(command)) == c
  {}

  class SerialSession {
    var capacity: nat
    var closed: bool
    var commands: seq<nat>
    var pendingResponse: Option<nat>
    var accepted: seq<Command>
    var results: seq<Option<Result>>
    var writer: Writer
    var reader: Reader
    var timers: map<nat, Timer>
    var writes: seq<Attempt>
    var chunks: seq<seq<byte>>

    function View(): Channel reads this {
      Channel(capacity, closed, accepted, commands, results, writer, reader, pendingResponse, timers, writes, chunks)
    }

    constructor (capacity: nat)
      ensures View() == Opened(capacity) && Inv(View())
    {
      this.capacity := capacity;
      closed, commands, pendingResponse := false, [], None;
      accepted, results, writer, reader := [], [], Idle, Reading;
      timers, writes, chunks := map[], [], [];
      new;
      OpenedKeeps(capacity);
    }

    method TrySend(command: Command) returns (success: bool)
      requires Inv(View())
      modifies this
      ensures Inv(View()) && View() == Next(old(View()), Offer(command)) && success == Accepts(old(View()))
    {
      hide Inv;
      StepKeeps(View(), Offer(command));
      success := !closed && |commands| < capacity;
      if success {
        commands := commands + [|accepted|];
        accepted := accepted + [command];
        results := results + [None];
      }
    }

    /** As send does to make room under DropOldest, and disconnect to whatever comes first. */
    method TryReceive()
      requires Inv(View())
      modifies this
      ensures Inv(View()) && View() == if old(commands) == [] then old(View()) else Next(old(View()), Discard)
    {
      hide Inv;
      if commands != [] {
        StepKeeps(View(), Discard);
        commands := commands[1..];
      }
    }

    /**
     * send, given what it finds in the fields other coroutines write: a closed or unconnected session rejects
     * the command, a full queue rejects it or makes room for it by dropping the oldest.
     */
    method Send(command: Command, terminal: bool, connected: bool, dropOldest: bool) returns (error: Option<SendError>)
      requires Inv(View())
      modifies this
      ensures Inv(View())
      ensures var was := old(View());
              if terminal then error == Some(AlreadyClosed) && View() == was
              else if !connected then error == Some(NotConnected) && View() == was
              else
                var room := if Accepts(was) || !dropOldest || was.queue == [] then was else Next(was, Discard);
                error == (if Accepts(room) then None else Some(QueueFull)) && View() == Next(room, Offer(command))
    {
      hide Inv, Next;
      if terminal {
        return Some(AlreadyClosed);
      }
      if !connected {
        return Some(NotConnected);
      }
      var success := TrySend(command);
      if !success && dropOldest {
        RejectedOfferChangesNothing(old(View()), command);
        TryReceive();
        success := TrySend(command);
      }
      error := if success then None else Some(QueueFull);
    }

    /** A new channel and new workers, the old ones having come to their end. */
    method Reopen(capacity: nat)
      requires Inv(View()) && Enabled(View(), Sessions.Reopen(capacity))
      modifies this
      ensures Inv(View()) && View() == Next(old(View()), Sessions.Reopen(capacity))
    {
      hide Inv;
      StepKeeps(View(), Sessions.Reopen(capacity));
      this.capacity := capacity;
      closed, commands := false, [];
      writer, reader := Idle, Reading;
    }

    method CloseCommands()
      requires Inv(View())
      modifies this
      ensures Inv(View()) && View() == Next(old(View()), Sessions.Close)
    {
      hide Inv;
      StepKeeps(View(), Sessions.Close);
      closed := true;
    }

    // ---------- The writer ----------

    method TakeCommand()
      requires Inv(View()) && Enabled(View(), Take)
      modifies this
      ensures Inv(View()) && View() == Next(old(View()), Take)
    {
      hide Inv;
      StepKeeps(View(), Take);
      writer := Sending(commands[0], 0, WriteFailed);
      commands := commands[1..];
    }

    method WriteOnce(result: WriteResult)
      requires Inv(View()) && Enabled(View(), Write(result))
      modifies this
      ensures Inv(View()) && View() == Next(old(View()), Write(result))
    {
      hide Inv;
      StepKeeps(View(), Write(result));
      writes := writes + [Attempt(writer.ticket, result)];
      writer := Sending(writer.ticket, writer.tries + 1, result);
    }

    method SettleCommand()
      requires Inv(View()) && Enabled(View(), Settle)
      modifies this
      ensures Inv(View()) && View() == Next(old(View()), Settle)
    {
      hide Inv, Complete;
      StepKeeps(View(), Settle);
      var w := writer;
      if w.last.Wrote? && accepted[w.ticket].matcher.Some? {
        pendingResponse := Some(w.ticket);
        timers := timers[w.ticket := Armed];
      } else {
        results := Complete(results, w.ticket, ResultOf(w.last));
      }
      writer := Idle;
    }

    /** The repeat over the attempts, undisturbed: up to the first success or the last round. */
    method TryWrites(outcomes: nat -> WriteResult) returns (attempts: nat)
      requires Inv(View()) && writer.Sending? && writer.ticket < |accepted|
      requires writer.tries == 0 && writer.last == WriteFailed
      modifies this
      ensures Inv(View()) && View() == old(View()).(writer := writer, writes := writes)
      ensures var ticket := old(writer.ticket);
              && writer == Sending(ticket, attempts, LastOutcome(outcomes, attempts))
              && writes == old(writes) + Attempts(ticket, outcomes, attempts)
              && StopsWhereItShould(outcomes, attempts, Rounds(accepted[ticket]))
    {
      hide Inv, Attempts;
      ghost var ticket := writer.ticket;
      NoAttempts(ticket, outcomes);
      assert old(writes) + [] == old(writes);
      var times := ToInt(accepted[writer.ticket].maxRetries + 1);
      var attempt := 0;
      attempts := 0;
      while attempt < times
        invariant Inv(View()) && writer.Sending? && writer.ticket == ticket < |accepted|
        invariant View() == old(View()).(writer := writer, writes := writes)
        invariant attempts == writer.tries <= attempt <= Rounds(accepted[ticket])
        invariant writes == old(writes) + Attempts(ticket, outcomes, attempts)
        invariant forall k: nat :: k < attempts - 1 ==> !outcomes(k).Wrote?
        invariant writer.last == LastOutcome(outcomes, attempts)
        invariant attempts < attempt ==> writer.last.Wrote?
      {
        if !writer.last.Wrote? {
          OneMoreAttempt(old(writes), ticket, outcomes, attempt);
          WriteOnce(outcomes(attempt));
          attempts := attempts + 1;
        }
        attempt := attempt + 1;
      }
    }

    /** One turn of the writer's loop, undisturbed; the transport's results are given. */
    method ServeCommand(outcomes: nat -> WriteResult) returns (attempts: nat)
      requires Inv(View()) && Enabled(View(), Take)
      modifies this
      ensures Inv(View()) && writer.Idle? && accepted == old(accepted) && old(commands[0]) < |accepted|
      ensures var ticket, last := old(commands[0]), LastOutcome(outcomes, attempts);
              && commands == old(commands[1..])
              && writes == old(writes) + Attempts(ticket, outcomes, attempts)
              && StopsWhereItShould(outcomes, attempts, Rounds(accepted[ticket]))
              && (if last.Wrote? && accepted[ticket].matcher.Some?
                  then pendingResponse == Some(ticket) && results == old(results)
                  else results == Complete(old(results), ticket, ResultOf(last)))
    {
      hide Inv, Attempts, Complete;
      TakeCommand();
      InvBounds(View());
      attempts := TryWrites(outcomes);
      SettleCommand();
    }

    method CancelWriter()
      requires Inv(View())
      modifies this
      ensures Inv(View()) && View() == Next(old(View()), StopWriter)
    {
      hide Inv;
      StepKeeps(View(), StopWriter);
      writer := WriterStopped;
    }

    // ---------- The reader ----------

    method ReceiveChunk(data: seq<byte>)
      requires Inv(View()) && Enabled(View(), Receive(data))
      modifies this
      ensures Inv(View()) && View() == Next(old(View()), Receive(data))
    {
      hide Inv;
      StepKeeps(View(), Receive(data));
      if Answers(View(), data) {
        reader := Matched(pendingResponse.value, |chunks|);
      }
      chunks := chunks + [data];
    }

    method CompleteWaiting()
      requires Inv(View()) && Enabled(View(), Resolve)
      modifies this
      ensures Inv(View()) && View() == Next(old(View()), Resolve)
    {
      hide Inv, Complete;
      StepKeeps(View(), Resolve);
      results := Complete(results, reader.ticket, Response(reader.chunk));
      reader := Resolved;
    }

    method ForgetWaiting()
      requires Inv(View()) && Enabled(View(), ClearPending)
      modifies this
      ensures Inv(View()) && View() == Next(old(View()), ClearPending)
    {
      hide Inv;
      StepKeeps(View(), ClearPending);
      pendingResponse := None;
      reader := Reading;
    }

    method CancelReader()
      requires Inv(View())
      modifies this
      ensures Inv(View()) && View() == Next(old(View()), StopReader)
    {
      hide Inv;
      StepKeeps(View(), StopReader);
      reader := ReaderStopped;
    }

    // ---------- Response timers ----------

    method TimerChecks(ticket: nat)
      requires Inv(View()) && Enabled(View(), Expire(ticket))
      modifies this
      ensures Inv(View()) && View() == Next(old(View()), Expire(ticket))
    {
      hide Inv;
      StepKeeps(View(), Expire(ticket));
      timers := if pendingResponse == Some(ticket) then timers[ticket := Expired] else timers - {ticket};
    }

    method TimerClears(ticket: nat)
      requires Inv(View()) && Enabled(View(), ClearExpired(ticket))
      modifies this
      ensures Inv(View()) && View() == Next(old(View()), ClearExpired(ticket))
    {
      hide Inv;
      StepKeeps(View(), ClearExpired(ticket));
      pendingResponse := None;
      timers := timers[ticket := Cleared];
    }

    method TimerCompletes(ticket: nat)
      requires Inv(View()) && Enabled(View(), GiveUp(ticket))
      modifies this
      ensures Inv(View()) && View() == Next(old(View()), GiveUp(ticket))
    {
      hide Inv, Complete;
      StepKeeps(View(), GiveUp(ticket));
      results := Complete(results, ticket, TimedOut);
      timers := timers - {ticket};
    }

    // ---------- Any of them, in any order ----------

    method TakeStep(step: Step)
      requires Inv(View()) && Enabled(View(), step)
      modifies this
      ensures Inv(View()) && View() == Next(old(View()), step)
    {
      hide Inv, Next;
      match step {
        case Offer(command) => var _ := TrySend(command);
        case Discard => TryReceive();
        case Close => CloseCommands();
        case Take => TakeCommand();
        case Write(result) => WriteOnce(result);
        case Settle => SettleCommand();
        case StopWriter => CancelWriter();
        case Receive(data) => ReceiveChunk(data);
        case Resolve => CompleteWaiting();
        case ClearPending => ForgetWaiting();
        case StopReader => CancelReader();
        case Expire(ticket) => TimerChecks(ticket);
        case ClearExpired(ticket) => TimerClears(ticket);
        case GiveUp(ticket) => TimerCompletes(ticket);
        case Reopen(capacity) => Reopen(capacity);
      }
    }

    /** The coroutines as scheduled, as far as each in its turn can take its step. */
    method Interleave(steps: seq<Step>) returns (done: nat)
      requires Inv(View())
      modifies this
      ensures done <= |steps| && Run(old(View()), steps[..done]) == Some(View())
      ensures done < |steps| ==> Run(old(View()), steps[..done + 1]) == None
      ensures Inv(View()) && Promised(View())
    {
      hide Promised, Flows, Links, Next, Enabled;
      done := 0;
      while done < |steps| && Enabled(View(), steps[done])
        invariant done <= |steps| && Inv(View()) && Run(old(View()), steps[..done]) == Some(View())
      {
        RunOneMore(old(View()), steps[..done], steps[done]);
        assert steps[..done] + [steps[done]] == steps[..done + 1];
        TakeStep(steps[done]);
        done := done + 1;
      }
      if done < |steps| {
        RunOneMore(old(View()), steps[..done], steps[done]);
        assert steps[..done] + [steps[done]] == steps[..done + 1];
      }
    }
  }
}
