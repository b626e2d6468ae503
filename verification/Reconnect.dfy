/** Delays between reconnect attempts, and the reconnect loops that failures may start. */
module Reconnects {
  import opened Wrappers

  // ---------- The policy ----------

  /** Delays in milliseconds. */
  datatype Policy = Policy(enabled: bool, maxAttempts: nat, initialDelay: nat, maxDelay: nat, multiplier: real)

  /** What the constructor insists on; the rest it insists on is in the types. */
  predicate ValidPolicy(p: Policy) { p.maxDelay >= p.initialDelay && p.multiplier >= 1.0 }

  function Pow(base: real, n: nat): real {
    if n == 0 then 1.0 else base * Pow(base, n - 1)
  }

  /** The delay before it is cut to whole milliseconds and to the greatest delay. */
  function Grown(p: Policy, attempt: nat): real { p.initialDelay as real * Pow(p.multiplier, attempt) }

  function DelayFor(p: Policy, attempt: nat): int {
    var millis := Grown(p, attempt).Floor;
    if millis <= p.maxDelay then millis else p.maxDelay
  }

  lemma PowStep(base: real, n: nat)
    ensures Pow(base, 0) == 1.0 && Pow(base, n + 1) == base * Pow(base, n)
  {}

  lemma {:induction false} PowGrows(base: real, n: nat)
    requires base >= 1.0
    ensures Pow(base, n + 1) >= Pow(base, n) >= 1.0
  {
    PowStep(base, n);
    hide Pow;
    if n > 0 {
      PowGrows(base, n - 1);
      PowStep(base, n - 1);
      Scaled(base, Pow(base, n - 1), Pow(base, n));
    }
  }

  lemma Scaled(base: real, a: real, b: real)
    requires base >= 0.0 && a <= b
    ensures base * a <= base * b
  {}

  lemma GrownGrows(p: Policy, attempt: nat)
    requires ValidPolicy(p)
    ensures p.initialDelay as real <= Grown(p, attempt) <= Grown(p, attempt + 1)
  {
    PowGrows(p.multiplier, attempt);
    hide Pow;
    var first, a, b := p.initialDelay as real, Pow(p.multiplier, attempt), Pow(p.multiplier, attempt + 1);
    Scaled(first, 1.0, a);
    Scaled(first, a, b);
  }

  lemma FloorsGrow(first: nat, a: real, b: real)
    requires first as real <= a <= b
    ensures first <= a.Floor <= b.Floor
  {}

  /** Every delay lies between the first and the greatest, and none is shorter than the one before. */
  lemma DelaysGrow(p: Policy, attempt: nat)
    requires ValidPolicy(p)
    ensures p.initialDelay <= DelayFor(p, attempt) <= DelayFor(p, attempt + 1) <= p.maxDelay
  {
    GrownGrows(p, attempt);
    hide Grown;
    FloorsGrow(p.initialDelay, Grown(p, attempt), Grown(p, attempt + 1));
  }

  /** The delays of the first n attempts, and how long they last together. */
  function Delays(p: Policy, n: nat): (delays: seq<int>)
    ensures |delays| == n
  {
    if n == 0 then [] else Delays(p, n - 1) + [DelayFor(p, n - 1)]
  }

  function Sum(delays: seq<int>): int {
    if delays == [] then 0 else Sum(delays[..|delays| - 1]) + delays[|delays| - 1]
  }

  lemma {:induction false} WaitingIsBounded(p: Policy, n: nat)
    requires ValidPolicy(p)
    ensures n * p.initialDelay <= Sum(Delays(p, n)) <= n * p.maxDelay
  {
    if n > 0 {
      WaitingIsBounded(p, n - 1);
      DelaysGrow(p, n - 1);
      OneMoreDelay(p, n);
      hide Delays, Sum, DelayFor, ValidPolicy;
      BoundsAdd(n, p.initialDelay, p.maxDelay, Sum(Delays(p, n - 1)), DelayFor(p, n - 1));
    }
  }

  lemma OneMoreDelay(p: Policy, n: nat)
    requires n > 0
    ensures Sum(Delays(p, n)) == Sum(Delays(p, n - 1)) + DelayFor(p, n - 1)
  {
    assert Delays(p, n)[..n - 1] == Delays(p, n - 1);
  }

  lemma BoundsAdd(n: nat, low: nat, high: nat, sum: int, more: int)
    requires n > 0 && (n - 1) * low <= sum <= (n - 1) * high && low <= more <= high
    ensures n * low <= sum + more <= n * high
  {
    assert n * low == (n - 1) * low + low && n * high == (n - 1) * high + high;
  }

  lemma {:induction false} GrownIsGeometric(p: Policy, grown: seq<real>, attempt: nat)
    requires attempt < |grown| && grown[0] == p.initialDelay as real
    requires forall k: nat :: k + 1 < |grown| ==> grown[k + 1] == grown[k] * p.multiplier
    ensures Grown(p, attempt) == grown[attempt]
  {
    if attempt == 0 {
      assert Pow(p.multiplier, 0) == 1.0;
    } else {
      GrownIsGeometric(p, grown, attempt - 1);
      PowStep(p.multiplier, attempt - 1);
      hide Pow;
      Regroup(p.initialDelay as real, p.multiplier, Pow(p.multiplier, attempt - 1));
      assert attempt - 1 + 1 < |grown|;
    }
  }

  lemma Regroup(a: real, b: real, c: real)
    ensures a * (b * c) == a * c * b
  {}

  /** The delays start with the first one and are multiplied from one to the next, up to the greatest. */
  lemma {:induction false} DelaysAreGeometric(p: Policy, grown: seq<real>, n: nat)
    requires n <= |grown| && (n > 0 ==> grown[0] == p.initialDelay as real)
    requires forall k: nat :: k + 1 < |grown| ==> grown[k + 1] == grown[k] * p.multiplier
    ensures forall k: nat :: k < n ==>
              Delays(p, n)[k] == if grown[k].Floor <= p.maxDelay then grown[k].Floor else p.maxDelay
  {
    if n > 0 {
      DelaysAreGeometric(p, grown, n - 1);
      GrownIsGeometric(p, grown, n - 1);
      hide Grown;
    }
  }

  /** Those of the default policy. */
  lemma DefaultDelays(p: Policy)
    requires p == Policy(p.enabled, p.maxAttempts, 500, 10000, 2.0)
    ensures Delays(p, 7) == [500, 1000, 2000, 4000, 8000, 10000, 10000]
  {
    var grown := [500.0, 1000.0, 2000.0, 4000.0, 8000.0, 16000.0, 32000.0];
    DelaysAreGeometric(p, grown, 7);
    hide Delays;
  }

  // ---------- The loops ----------

  datatype Report = Succeeded | Exhausted

  /**
   * Where a reconnect loop is: launched and not begun, closing the old transport, about to make the next attempt,
   * waiting before it, opening, having an outcome to clear the flag after, or over.
   */
  datatype Phase = Launched | Closing | Next | Waiting | Opening | Finishing | Over

  /** One loop, with the delays it waited, the opens it made and what it reported. */
  datatype Loop = Loop(phase: Phase, delays: seq<int>, opens: seq<bool>, reports: seq<Report>)

  const NEW_LOOP := Loop(Launched, [], [], [])

  /** claims counts the fail calls that won the flag and have not looked at terminal yet. */
  datatype Session = Session(policy: Policy, terminal: bool, reconnecting: bool, claims: nat, loops: seq<Loop>)

  datatype Step =
    | Fail
    | Launch
    | Terminate
    | Start(i: nat)
    | Close(i: nat, failed: bool)
    | Begin(i: nat)
    | Delayed(i: nat)
    | Open(i: nat, succeeded: bool)
    | Cancel(i: nat)
    | Finish(i: nat)

  predicate At(s: Session, i: nat, phase: Phase) { i < |s.loops| && s.loops[i].phase == phase }

  predicate Enabled(s: Session, step: Step) {
    match step
    case Fail => true
    case Launch => s.claims > 0
    case Terminate => true
    case Start(i) => At(s, i, Launched)
    case Close(i, _) => At(s, i, Closing)
    case Begin(i) => At(s, i, Next)
    case Delayed(i) => At(s, i, Waiting)
    case Open(i, _) => At(s, i, Opening)
    // only close cancels the scope, after setting terminal
    case Cancel(i) => s.terminal && i < |s.loops| && s.loops[i].phase != Over
    case Finish(i) => At(s, i, Finishing)
  }

  function Set(s: Session, i: nat, loop: Loop): Session
    requires i < |s.loops|
  {
    s.(loops := s.loops[i := loop])
  }

  function Do(s: Session, step: Step): Session
    requires Enabled(s, step)
  {
    match step
    // compareAndSet comes before the look at terminal
    case Fail => if s.policy.enabled && !s.reconnecting then s.(reconnecting := true, claims := s.claims + 1) else s
    case Launch =>
      var s' := s.(claims := s.claims - 1);
      if s.terminal then s' else s'.(loops := s.loops + [NEW_LOOP])
    case Terminate => s.(terminal := true)
    case Start(i) => Set(s, i, s.loops[i].(phase := Closing))
    case Close(i, failed) => Set(s, i, s.loops[i].(phase := if failed then Finishing else Next))
    case Begin(i) => Set(s, i, BeginAttempt(s.policy, s.terminal, s.loops[i]))
    case Delayed(i) => Set(s, i, s.loops[i].(phase := Opening))
    case Open(i, succeeded) => Set(s, i, EndAttempt(s.loops[i], succeeded))
    // a coroutine cancelled before it begins never comes to its finally
    case Cancel(i) => Set(s, i, s.loops[i].(phase := if s.loops[i].phase.Launched? then Over else Finishing))
    case Finish(i) => Set(s, i, s.loops[i].(phase := Over)).(reconnecting := false)
  }

  /** The top of the repeat: out of attempts, or closed meanwhile, or on to the next delay. */
  function BeginAttempt(p: Policy, terminal: bool, loop: Loop): Loop {
    var attempt := |loop.opens|;
    if attempt >= p.maxAttempts then loop.(reports := loop.reports + [Exhausted], phase := Finishing)
    else if terminal then loop.(phase := Finishing)
    else loop.(delays := loop.delays + [DelayFor(p, attempt)], phase := Waiting)
  }

  function EndAttempt(loop: Loop, succeeded: bool): Loop {
    var tried := loop.(opens := loop.opens + [succeeded]);
    if succeeded then tried.(reports := loop.reports + [Succeeded], phase := Finishing) else tried.(phase := Next)
  }

  // ---------- What is promised ----------

  function Live(loops: seq<Loop>): nat {
    if loops == [] then 0 else Live(loops[..|loops| - 1]) + if loops[|loops| - 1].phase == Over then 0 else 1
  }

  ghost predicate LoopKeepsPolicy(p: Policy, loop: Loop) {
    var n := |loop.opens|;
    && n <= p.maxAttempts
    && loop.delays == Delays(p, |loop.delays|)
    && (n <= |loop.delays| <= p.maxAttempts && |loop.delays| <= n + 1)
    && (forall k :: 0 <= k < n - 1 ==> !loop.opens[k])
    && |loop.reports| <= 1
    && (loop.reports == [Succeeded] ==> n > 0 && loop.opens[n - 1])
    && (loop.reports == [Exhausted] ==> n == p.maxAttempts && forall k :: 0 <= k < n ==> !loop.opens[k])
  }

  /** What ties a loop's progress to its phase. */
  ghost predicate LoopAt(loop: Loop) {
    var n := |loop.opens|;
    && (loop.phase.Launched? || loop.phase.Closing? ==> n == 0 && loop.delays == [])
    && (loop.phase.Closing? || loop.phase.Next? ==> |loop.delays| == n)
    && (loop.phase.Waiting? || loop.phase.Opening? ==> |loop.delays| == n + 1)
    && (!loop.phase.Finishing? && !loop.phase.Over? ==>
          loop.reports == [] && forall k :: 0 <= k < n ==> !loop.opens[k])
  }

  /**
   * Never more than one loop at work, counting a fail call about to start one; and while there is one the flag
   * is set.
   */
  ghost predicate Inv(s: Session) {
    && s.claims + Live(s.loops) <= 1
    && (s.claims + Live(s.loops) == 1 ==> s.reconnecting)
    && (s.reconnecting && !s.terminal ==> s.claims + Live(s.loops) == 1)
    && forall i :: 0 <= i < |s.loops| ==> LoopKeepsPolicy(s.policy, s.loops[i]) && LoopAt(s.loops[i])
  }

  lemma {:induction false} LiveSet(loops: seq<Loop>, i: nat, loop: Loop)
    requires i < |loops|
    ensures Live(loops[i := loop]) + (if loops[i].phase == Over then 0 else 1)
         == Live(loops) + (if loop.phase == Over then 0 else 1)
  {
    var n := |loops| - 1;
    var now := loops[i := loop];
    if i < n {
      LiveSet(loops[..n], i, loop);
      assert now[..n] == loops[..n][i := loop] && now[n] == loops[n];
    } else {
      assert now[..n] == loops[..n];
    }
  }

  lemma LiveAppended(loops: seq<Loop>, loop: Loop)
    ensures Live(loops + [loop]) == Live(loops) + if loop.phase == Over then 0 else 1
  {
    assert (loops + [loop])[..|loops|] == loops;
  }

  /** A step that leaves the flag up with nothing to take it down: terminal seen too late, or a loop never begun. */
  predicate Strands(s: Session, step: Step) {
    (step.Launch? && s.terminal) || (step.Cancel? && At(s, step.i, Launched))
  }

  /** Which loop a step moves. */
  function Mover(step: Step): Option<nat> {
    match step
    case Start(i) => Some(i)
    case Close(i, _) => Some(i)
    case Begin(i) => Some(i)
    case Delayed(i) => Some(i)
    case Open(i, _) => Some(i)
    case Cancel(i) => Some(i)
    case Finish(i) => Some(i)
    case _ => None
  }

  lemma MovedLoopKeeps(s: Session, step: Step)
    requires Inv(s) && Enabled(s, step) && Mover(step).Some?
    ensures var i := Mover(step).value;
            && i < |s.loops|
            && var t := Do(s, step);
            var loop := t.loops[i];
            && t == s.(loops := s.loops[i := loop], reconnecting := t.reconnecting)
            && s.loops[i].phase != Over
            && (loop.phase == Over <==> step.Finish? || Strands(s, step))
            && t.reconnecting == (s.reconnecting && !step.Finish?)
  {
    hide Live, LoopKeepsPolicy, LoopAt, DelayFor;
  }

  ghost predicate LoopKeeps(p: Policy, loop: Loop) { LoopKeepsPolicy(p, loop) && LoopAt(loop) }

  lemma BeginKeeps(p: Policy, terminal: bool, loop: Loop)
    requires LoopKeeps(p, loop) && loop.phase == Next
    ensures LoopKeeps(p, BeginAttempt(p, terminal, loop))
  {
    NextDelay(p, loop.delays);
    assert [] + [Exhausted] == [Exhausted] && [Exhausted][0] != [Succeeded][0];
    hide Delays, DelayFor;
  }

  lemma EndKeeps(p: Policy, loop: Loop, succeeded: bool)
    requires LoopKeeps(p, loop) && loop.phase == Opening
    ensures LoopKeeps(p, EndAttempt(loop, succeeded))
  {
    assert [] + [Succeeded] == [Succeeded] && [Exhausted][0] != [Succeeded][0];
    hide Delays, DelayFor;
  }

  lemma LetGoKeeps(p: Policy, loop: Loop, phase: Phase)
    requires LoopKeeps(p, loop)
    requires || phase == Finishing || phase == Over
             || (loop.phase == Launched && phase == Closing) || (loop.phase == Closing && phase == Next)
             || (loop.phase == Waiting && phase == Opening)
    ensures LoopKeeps(p, loop.(phase := phase))
  {
    hide Delays, DelayFor;
  }

  lemma MovedLoopKeepsPolicy(s: Session, step: Step)
    requires Enabled(s, step) && Mover(step).Some? && LoopKeeps(s.policy, s.loops[Mover(step).value])
    ensures LoopKeeps(s.policy, Do(s, step).loops[Mover(step).value])
  {
    hide LoopKeeps, BeginAttempt, EndAttempt;
    match step
    case Start(i) => LetGoKeeps(s.policy, s.loops[i], Closing);
    case Close(i, failed) => LetGoKeeps(s.policy, s.loops[i], if failed then Finishing else Next);
    case Begin(i) => BeginKeeps(s.policy, s.terminal, s.loops[i]);
    case Delayed(i) => LetGoKeeps(s.policy, s.loops[i], Opening);
    case Open(i, succeeded) => EndKeeps(s.policy, s.loops[i], succeeded);
    case Cancel(i) => LetGoKeeps(s.policy, s.loops[i], if s.loops[i].phase.Launched? then Over else Finishing);
    case Finish(i) => LetGoKeeps(s.policy, s.loops[i], Over);
    case _ =>
  }

  lemma NextDelay(p: Policy, delays: seq<int>)
    requires delays == Delays(p, |delays|)
    ensures delays + [DelayFor(p, |delays|)] == Delays(p, |delays| + 1)
  {}

  lemma MovingKeeps(s: Session, step: Step)
    requires Inv(s) && Enabled(s, step) && Mover(step).Some?
    ensures Inv(Do(s, step)) && Do(s, step).policy == s.policy
  {
    var i := Mover(step).value;
    MovedLoopKeeps(s, step);
    MovedLoopKeepsPolicy(s, step);
    LiveSet(s.loops, i, Do(s, step).loops[i]);
    hide LoopKeepsPolicy, LoopAt, Live, Do, Enabled;
  }

  lemma StartingKeeps(s: Session, step: Step)
    requires Inv(s) && Enabled(s, step) && Mover(step).None?
    ensures Inv(Do(s, step)) && Do(s, step).policy == s.policy
  {
    LiveAppended(s.loops, NEW_LOOP);
    NewLoopKeeps(s.policy);
    hide LoopKeepsPolicy, LoopAt, Live;
  }

  lemma NewLoopKeeps(p: Policy)
    ensures LoopKeepsPolicy(p, NEW_LOOP) && LoopAt(NEW_LOOP) && NEW_LOOP.phase != Over
  {
    assert Delays(p, 0) == [];
  }

  lemma StepKeeps(s: Session, step: Step)
    requires Inv(s) && Enabled(s, step)
    ensures Inv(Do(s, step)) && Do(s, step).policy == s.policy
  {
    hide Inv, Do, Enabled;
    if Mover(step).Some? {
      MovingKeeps(s, step);
    } else {
      StartingKeeps(s, step);
    }
  }

  function Run(s: Session, steps: seq<Step>): Option<Session>
    decreases |steps|
  {
    if steps == [] then Some(s)
    else if !Enabled(s, steps[0]) then None
    else Run(Do(s, steps[0]), steps[1..])
  }

  lemma {:induction false} EveryRunKeeps(s: Session, steps: seq<Step>)
    requires Inv(s) && Run(s, steps).Some?
    ensures var t := Run(s, steps).value; Inv(t) && t.policy == s.policy
    decreases |steps|
  {
    hide Inv, Do;
    if steps != [] {
      StepKeeps(s, steps[0]);
      EveryRunKeeps(Do(s, steps[0]), steps[1..]);
    }
  }

  function Fresh(policy: Policy): Session { Session(policy, false, false, 0, []) }

  lemma {:induction false} AtMostOneLive(loops: seq<Loop>)
    requires Live(loops) <= 1
    ensures forall i, j :: 0 <= i < j < |loops| ==> loops[i].phase == Over || loops[j].phase == Over
    ensures Live(loops) == 0 ==> forall i :: 0 <= i < |loops| ==> loops[i].phase == Over
  {
    if loops != [] {
      AtMostOneLive(loops[..|loops| - 1]);
    }
  }

  /**
   * However failures, loops and a close interleave: two loops are never at work together; each waits the
   * policy's delays, at most maxAttempts of them and no longer than that many greatest delays, opens no more
   * often than it waited, and reports at most once: success after the open that succeeded, exhaustion after
   * as many failed opens as the policy allows.
   */
  lemma ReconnectingIsSingleAndBounded(policy: Policy, steps: seq<Step>)
    requires ValidPolicy(policy) && Run(Fresh(policy), steps).Some?
    ensures var s := Run(Fresh(policy), steps).value;
            && (forall i, j :: 0 <= i < j < |s.loops| ==> s.loops[i].phase == Over || s.loops[j].phase == Over)
            && (!s.reconnecting ==> forall i :: 0 <= i < |s.loops| ==> s.loops[i].phase == Over)
            && forall i :: 0 <= i < |s.loops| ==>
                 var loop := s.loops[i];
                 && LoopKeepsPolicy(policy, loop)
                 && |loop.opens| <= |loop.delays| <= policy.maxAttempts
                 && Sum(loop.delays) <= policy.maxAttempts * policy.maxDelay
  {
    assert Live([]) == 0;
    EveryRunKeeps(Fresh(policy), steps);
    var s := Run(Fresh(policy), steps).value;
    AtMostOneLive(s.loops);
    hide Live, Run, Delays, Sum, ValidPolicy, LoopAt;
    forall i | 0 <= i < |s.loops| ensures Sum(s.loops[i].delays) <= policy.maxAttempts * policy.maxDelay {
      WaitingIsBounded(policy, |s.loops[i].delays|);
      Scales(|s.loops[i].delays|, policy.maxAttempts, policy.maxDelay);
    }
  }

  lemma Scales(m: nat, n: nat, x: nat)
    requires m <= n
    ensures m * x <= n * x
  {}

  /** The flag is taken before terminal is looked at, so a close in between leaves it up with no loop at work. */
  lemma FlagMayOutliveLoops(policy: Policy)
    requires policy.enabled
    ensures Run(Fresh(policy), [Fail, Terminate, Launch]) == Some(Session(policy, true, true, 0, []))
  {
    var s0 := Fresh(policy);
    var s1, steps1 := Do(s0, Fail), [Terminate, Launch];
    var s2, steps2 := Do(s1, Terminate), [Launch];
    assert [Fail, Terminate, Launch][1..] == steps1 && steps1[1..] == steps2 && steps2[1..] == [];
    assert Run(Do(s2, Launch), []) == Some(Do(s2, Launch));
    assert Run(s2, steps2) == Run(Do(s2, Launch), []);
    assert Run(s1, steps1) == Run(s2, steps2);
  }

  lemma {:induction false} SomeLive(loops: seq<Loop>)
    requires Live(loops) > 0
    ensures exists i :: 0 <= i < |loops| && loops[i].phase != Over
  {
    var n := |loops| - 1;
    if loops[n].phase == Over {
      SomeLive(loops[..n]);
      var i :| 0 <= i < n && loops[..n][i].phase != Over;
      assert loops[i].phase != Over;
    }
  }

  /** Before a close the flag is up exactly while a loop is at work or about to be started. */
  lemma FlagFollowsLoops(policy: Policy, steps: seq<Step>)
    requires Run(Fresh(policy), steps).Some? && !Run(Fresh(policy), steps).value.terminal
    ensures var s := Run(Fresh(policy), steps).value;
            s.reconnecting <==> s.claims > 0 || exists i :: 0 <= i < |s.loops| && s.loops[i].phase != Over
  {
    assert Live([]) == 0;
    EveryRunKeeps(Fresh(policy), steps);
    var s := Run(Fresh(policy), steps).value;
    AtMostOneLive(s.loops);
    if Live(s.loops) > 0 {
      SomeLive(s.loops);
    }
  }

  predicate AtWork(s: Session) { s.claims + Live(s.loops) > 0 }

  /** One of these steps strands the flag. */
  predicate Stranded(s: Session, steps: seq<Step>)
    requires Run(s, steps).Some?
    decreases |steps|
  {
    steps != [] && (Strands(s, steps[0]) || Stranded(Do(s, steps[0]), steps[1..]))
  }

  lemma StepStrands(s: Session, step: Step)
    requires Inv(s) && Enabled(s, step)
    ensures var t := Do(s, step);
            t.reconnecting && !AtWork(t) <==> (s.reconnecting && !AtWork(s)) || Strands(s, step)
  {
    if Mover(step).Some? {
      MovedLoopKeeps(s, step);
      var i := Mover(step).value;
      LiveSet(s.loops, i, Do(s, step).loops[i]);
      hide Do;
    } else {
      LiveAppended(s.loops, NEW_LOOP);
    }
    hide Live, LoopKeepsPolicy, LoopAt, Enabled;
  }

  lemma {:induction false} RunStrands(s: Session, steps: seq<Step>)
    requires Inv(s) && Run(s, steps).Some?
    ensures var t := Run(s, steps).value;
            t.reconnecting && !AtWork(t) <==> (s.reconnecting && !AtWork(s)) || Stranded(s, steps)
    decreases |steps|
  {
    hide Inv, Do, AtWork, Strands;
    if steps != [] {
      StepKeeps(s, steps[0]);
      StepStrands(s, steps[0]);
      RunStrands(Do(s, steps[0]), steps[1..]);
    }
  }

  /**
   * Before and after a close: the flag is up with no loop at work or about to start exactly when a fail call that
   * had won it came to look at terminal after the close, or a loop was cancelled before it began; and then it is up
   * for good.
   */
  lemma FlagOutlivesLoopsExactlyWhen(policy: Policy, steps: seq<Step>)
    requires Run(Fresh(policy), steps).Some?
    ensures var s := Run(Fresh(policy), steps).value;
            && (s.reconnecting && !AtWork(s) <==> Stranded(Fresh(policy), steps))
            && (AtWork(s) <==> s.claims > 0 || exists i :: 0 <= i < |s.loops| && s.loops[i].phase != Over)
            && (AtWork(s) ==> s.reconnecting)
  {
    assert Live([]) == 0;
    EveryRunKeeps(Fresh(policy), steps);
    RunStrands(Fresh(policy), steps);
    var s := Run(Fresh(policy), steps).value;
    AtMostOneLive(s.loops);
    if Live(s.loops) > 0 {
      SomeLive(s.loops);
    }
    hide Stranded, Run, LoopKeepsPolicy, LoopAt;
  }

  lemma StrandedForGood(policy: Policy, steps: seq<Step>, more: seq<Step>)
    requires Run(Fresh(policy), steps).Some? && Stranded(Fresh(policy), steps)
    requires Run(Run(Fresh(policy), steps).value, more).Some?
    ensures var s := Run(Run(Fresh(policy), steps).value, more).value; s.reconnecting && !AtWork(s)
  {
    assert Live([]) == 0;
    EveryRunKeeps(Fresh(policy), steps);
    RunStrands(Fresh(policy), steps);
    RunStrands(Run(Fresh(policy), steps).value, more);
    hide Stranded, Run, Inv;
  }

  // ---------- The course of a loop ----------

  lemma {:induction false} RunAppend(s: Session, a: seq<Step>, b: seq<Step>)
    ensures Run(s, a + b) == if Run(s, a).Some? then Run(Run(s, a).value, b) else None
    decreases |a|
  {
    hide Do, Enabled;
    if a == [] {
      assert a + b == b;
    } else {
      assert (a + b)[0] == a[0] && (a + b)[1..] == a[1..] + b;
      if Enabled(s, a[0]) {
        RunAppend(Do(s, a[0]), a[1..], b);
      }
    }
  }

  lemma RunOne(s: Session, step: Step)
    ensures Run(s, [step]) == if Enabled(s, step) then Some(Do(s, step)) else None
  {
    hide Do, Enabled;
    assert [step][1..] == [];
    if Enabled(s, step) {
      assert Run(Do(s, step), []) == Some(Do(s, step));
    }
  }

  lemma RunTwo(s: Session, a: Step, b: Step)
    requires Enabled(s, a) && Enabled(Do(s, a), b)
    ensures Run(s, [a, b]) == Some(Do(Do(s, a), b))
  {
    assert [a, b] == [a] + [b];
    RunAppend(s, [a], [b]);
    RunOne(s, a);
    RunOne(Do(s, a), b);
    hide Do, Enabled, Run;
  }

  function Falses(n: nat): (opens: seq<bool>)
    ensures |opens| == n
  {
    if n == 0 then [] else Falses(n - 1) + [false]
  }

  /** One attempt of this loop, and n that fail. */
  function Attempt(i: nat, succeeded: bool): seq<Step> { [Begin(i), Delayed(i)] + [Open(i, succeeded)] }

  function Failing(i: nat, n: nat): seq<Step> {
    if n == 0 then [] else Failing(i, n - 1) + Attempt(i, false)
  }

  /** A loop at work beside loops that are over, after n attempts that failed. */
  function After(s: Session, n: nat): Session {
    s.(reconnecting := true, loops := s.loops + [Loop(Next, Delays(s.policy, n), Falses(n), [])])
  }

  lemma Launches(s: Session)
    requires !s.reconnecting && !s.terminal && s.policy.enabled
    ensures var i := |s.loops|;
            Run(s, [Fail, Launch] + [Start(i), Close(i, false)]) == Some(After(s, 0))
  {
    var i := |s.loops|;
    RunAppend(s, [Fail, Launch], [Start(i), Close(i, false)]);
    RunTwo(s, Fail, Launch);
    var t := s.(reconnecting := true, loops := s.loops + [NEW_LOOP]);
    RunTwo(t, Start(i), Close(i, false));
    hide Run;
    assert t.loops[i := NEW_LOOP.(phase := Closing)] == s.loops + [NEW_LOOP.(phase := Closing)];
    assert Do(Do(t, Start(i)), Close(i, false)).loops == After(s, 0).loops;
  }

  lemma AttemptFails(s: Session, n: nat)
    requires !s.terminal && n < s.policy.maxAttempts
    ensures Run(After(s, n), Attempt(|s.loops|, false)) == Some(After(s, n + 1))
  {
    hide DelayFor;
    var i, t := |s.loops|, After(s, n);
    RunAppend(t, [Begin(i), Delayed(i)], [Open(i, false)]);
    RunTwo(t, Begin(i), Delayed(i));
    RunOne(Do(Do(t, Begin(i)), Delayed(i)), Open(i, false));
    assert Do(Do(Do(t, Begin(i)), Delayed(i)), Open(i, false)).loops == After(s, n + 1).loops;
  }

  lemma RunNothing(s: Session)
    ensures Run(s, []) == Some(s)
  {}

  lemma {:induction false} AttemptsFail(s: Session, n: nat)
    requires !s.terminal && n <= s.policy.maxAttempts
    ensures Run(After(s, 0), Failing(|s.loops|, n)) == Some(After(s, n))
  {
    hide After, Attempt, Run;
    if n == 0 {
      RunNothing(After(s, 0));
    } else {
      AttemptsFail(s, n - 1);
      AttemptFails(s, n - 1);
      RunAppend(After(s, 0), Failing(|s.loops|, n - 1), Attempt(|s.loops|, false));
    }
  }

  /** From the failure that takes the flag through n failed attempts. */
  function Course(i: nat, n: nat): seq<Step> {
    [Fail, Launch] + [Start(i), Close(i, false)] + Failing(i, n)
  }

  lemma CourseLeads(s: Session, n: nat)
    requires !s.reconnecting && !s.terminal && s.policy.enabled && n <= s.policy.maxAttempts
    ensures Run(s, Course(|s.loops|, n)) == Some(After(s, n))
  {
    Launches(s);
    AttemptsFail(s, n);
    RunAppend(s, [Fail, Launch] + [Start(|s.loops|), Close(|s.loops|, false)], Failing(|s.loops|, n));
    hide Run, After;
  }

  /** A loop done with its attempts, beside loops that are over. */
  function Done(s: Session, loop: Loop): Session { s.(reconnecting := true, loops := s.loops + [loop]) }

  lemma AttemptSucceeds(s: Session, n: nat)
    requires !s.terminal && n < s.policy.maxAttempts
    ensures Run(After(s, n), Attempt(|s.loops|, true))
         == Some(Done(s, Loop(Finishing, Delays(s.policy, n + 1), Falses(n) + [true], [Succeeded])))
  {
    hide DelayFor;
    var i, t := |s.loops|, After(s, n);
    RunAppend(t, [Begin(i), Delayed(i)], [Open(i, true)]);
    RunTwo(t, Begin(i), Delayed(i));
    RunOne(Do(Do(t, Begin(i)), Delayed(i)), Open(i, true));
    assert [] + [Succeeded] == [Succeeded];
    var loop := Loop(Finishing, Delays(s.policy, n + 1), Falses(n) + [true], [Succeeded]);
    assert Do(Do(Do(t, Begin(i)), Delayed(i)), Open(i, true)).loops == s.loops + [loop];
  }

  lemma OutOfAttempts(s: Session)
    ensures var n := s.policy.maxAttempts;
            Run(After(s, n), [Begin(|s.loops|)])
            == Some(Done(s, Loop(Finishing, Delays(s.policy, n), Falses(n), [Exhausted])))
  {
    var i, n := |s.loops|, s.policy.maxAttempts;
    RunOne(After(s, n), Begin(i));
    assert [] + [Exhausted] == [Exhausted];
    var loop := Loop(Finishing, Delays(s.policy, n), Falses(n), [Exhausted]);
    assert Do(After(s, n), Begin(i)).loops == s.loops + [loop];
  }

  lemma Finishes(s: Session, loop: Loop)
    requires loop.phase == Finishing && !s.reconnecting
    ensures Run(Done(s, loop), [Finish(|s.loops|)]) == Some(s.(loops := s.loops + [loop.(phase := Over)]))
  {
    RunOne(Done(s, loop), Finish(|s.loops|));
    assert (s.loops + [loop])[|s.loops| := loop.(phase := Over)] == s.loops + [loop.(phase := Over)];
  }

  /**
   * A loop goes on for as long as it may: after n failed attempts, fewer than the policy allows, there is another
   * with the next delay, and if that succeeds it reports success and the flag is down.
   */
  lemma LoopMaySucceed(s: Session, n: nat)
    requires !s.reconnecting && !s.terminal && s.policy.enabled && n < s.policy.maxAttempts
    ensures var i := |s.loops|;
            Run(s, Course(i, n) + Attempt(i, true) + [Finish(i)])
            == Some(s.(loops := s.loops + [Loop(Over, Delays(s.policy, n + 1), Falses(n) + [true], [Succeeded])]))
  {
    hide Run, Course, Attempt, After, Done, Delays, Falses;
    var i := |s.loops|;
    CourseLeads(s, n);
    RunAppend(s, Course(i, n) + Attempt(i, true), [Finish(i)]);
    RunAppend(s, Course(i, n), Attempt(i, true));
    AttemptSucceeds(s, n);
    Finishes(s, Loop(Finishing, Delays(s.policy, n + 1), Falses(n) + [true], [Succeeded]));
  }

  /** After as many failed attempts as the policy allows it reports exhaustion, and the flag is down. */
  lemma LoopMayExhaust(s: Session)
    requires !s.reconnecting && !s.terminal && s.policy.enabled
    ensures var i, n := |s.loops|, s.policy.maxAttempts;
            Run(s, Course(i, n) + [Begin(i)] + [Finish(i)])
            == Some(s.(loops := s.loops + [Loop(Over, Delays(s.policy, n), Falses(n), [Exhausted])]))
  {
    hide Run, Course, After, Done, Delays, Falses;
    var i, n := |s.loops|, s.policy.maxAttempts;
    CourseLeads(s, n);
    RunAppend(s, Course(i, n) + [Begin(i)], [Finish(i)]);
    RunAppend(s, Course(i, n), [Begin(i)]);
    OutOfAttempts(s);
    Finishes(s, Loop(Finishing, Delays(s.policy, n), Falses(n), [Exhausted]));
  }

  /** A loop makes no attempt once the session is closed, nor when the old transport cannot be closed. */
  lemma NoAttemptAfterClose(s: Session, i: nat)
    requires i < |s.loops|
    ensures var ended := s.(loops := s.loops[i := s.loops[i].(phase := Finishing)]);
            && (s.loops[i].phase == Next && s.terminal && |s.loops[i].opens| < s.policy.maxAttempts ==>
                  Run(s, [Begin(i)]) == Some(ended))
            && (s.loops[i].phase == Closing ==> Run(s, [Close(i, true)]) == Some(ended))
  {
    RunOne(s, Begin(i));
    RunOne(s, Close(i, true));
    hide Run, DelayFor;
  }

  /** Failures while the flag is up, or with reconnecting disabled, start nothing. */
  lemma FailuresStartNothingWhile(s: Session)
    ensures s.reconnecting || !s.policy.enabled ==> Run(s, [Fail]) == Some(s)
    ensures s.claims > 0 && s.terminal ==> Run(s, [Launch]) == Some(s.(claims := s.claims - 1))
  {
    RunOne(s, Fail);
    RunOne(s, Launch);
    hide Run;
  }
}
