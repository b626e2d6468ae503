/** What a client learns of the modem lines from the notifications alone. */
module ModemView {
  import opened Wrappers
  import opened Bitwise
  import opened Checksums
  import opened Ports

  /** RLSD, RING, DSR and CTS: every bit but the deltas. */
  const NO_DELTA: byte := 240

  datatype Poll = Poll(state: byte, notice: Option<byte>)

  /** One poll: a notification, and a new remembered state, only when masked line bits differ. */
  function PollLines(state: byte, mask: byte, lines: Lines): Poll {
    var now := ModemStateOf(lines, state);
    if AndBytes(AndBytes(now, mask), NO_DELTA) != AndBytes(AndBytes(state, mask), NO_DELTA)
    then Poll(now, Some(AndBytes(now, mask)))
    else Poll(state, None)
  }

  /** The line bits alone. */
  function LineByte(lines: Lines): byte {
    Powers();
    Assemble([false, false, false, false, lines.cts, lines.dsr, lines.rng, lines.car]) as byte
  }

  // ---------- Bits of the bytes involved ----------

  lemma BitOfAndBytes(a: byte, b: byte, k: nat)
    requires k < 8
    ensures BitOf(AndBytes(a, b), k) == (BitOf(a, k) && BitOf(b, k))
  {
    BitOfAnd(a as nat, b as nat, k);
  }

  lemma SameBitsSameByte(a: byte, b: byte)
    requires forall k: nat :: k < 8 ==> BitOf(a, k) == BitOf(b, k)
    ensures a == b
  {
    Powers();
    var m, n: nat := a as nat, b as nat;
    forall k: nat | k < 8 ensures Drop(m, k) % 2 == Drop(n, k) % 2 {
      assert BitOf(a, k) == BitOf(b, k);
    }
    BitsDetermineNumber(m, n, 8);
  }

  lemma BitOfState(lines: Lines, previous: byte, k: nat)
    requires k < 8
    ensures BitOf(ModemStateOf(lines, previous), k) == StateBits(lines, previous)[k]
  {
    AssembledBit(StateBits(lines, previous), k);
  }

  lemma BitOfLine(lines: Lines, k: nat)
    requires k < 8
    ensures BitOf(LineByte(lines), k) == [false, false, false, false, lines.cts, lines.dsr, lines.rng, lines.car][k]
  {
    AssembledBit([false, false, false, false, lines.cts, lines.dsr, lines.rng, lines.car], k);
  }

  lemma NoDeltaSpelled()
    ensures NO_DELTA as nat == Assemble([false, false, false, false, true, true, true, true])
  {
    var bits := [false, false, false, false, true, true, true, true];
    assert bits[7..] == [true] && Assemble(bits[7..]) == 1;
    assert bits[6..][1..] == bits[7..] && Assemble(bits[6..]) == 3;
    assert bits[5..][1..] == bits[6..] && Assemble(bits[5..]) == 7;
    assert bits[4..][1..] == bits[5..] && Assemble(bits[4..]) == 15;
    assert bits[3..][1..] == bits[4..] && Assemble(bits[3..]) == 30;
    assert bits[2..][1..] == bits[3..] && Assemble(bits[2..]) == 60;
    assert bits[1..][1..] == bits[2..] && Assemble(bits[1..]) == 120;
  }

  lemma BitOfNoDelta(k: nat)
    requires k < 8
    ensures BitOf(NO_DELTA, k) == (k >= 4)
  {
    hide Assemble;
    NoDeltaSpelled();
    AssembledBit([false, false, false, false, true, true, true, true], k);
  }

  lemma LineBitOfState(lines: Lines, previous: byte, k: nat)
    requires k < 8
    ensures k >= 4 ==> BitOf(ModemStateOf(lines, previous), k) == BitOf(LineByte(lines), k)
    ensures k < 4 ==> !BitOf(LineByte(lines), k)
  {
    hide BitOf, ModemStateOf, LineByte;
    BitOfState(lines, previous, k);
    BitOfLine(lines, k);
  }

  /** Whatever the previous state, the masked line bits of a new one are the masked lines. */
  lemma MaskedStateIsMaskedLines(lines: Lines, previous: byte, mask: byte)
    ensures AndBytes(AndBytes(ModemStateOf(lines, previous), mask), NO_DELTA) == AndBytes(LineByte(lines), mask)
  {
    hide BitOf, ModemStateOf, LineByte, AndBytes;
    var state := ModemStateOf(lines, previous);
    forall k: nat | k < 8
      ensures BitOf(AndBytes(AndBytes(state, mask), NO_DELTA), k) == BitOf(AndBytes(LineByte(lines), mask), k)
    {
      BitOfAndBytes(AndBytes(state, mask), NO_DELTA, k);
      BitOfAndBytes(state, mask, k);
      BitOfAndBytes(LineByte(lines), mask, k);
      LineBitOfState(lines, previous, k);
      BitOfNoDelta(k);
    }
    SameBitsSameByte(AndBytes(AndBytes(state, mask), NO_DELTA), AndBytes(LineByte(lines), mask));
  }

  // ---------- A watching client ----------

  /** The remembered state, the non-delta bits of the client's last notification, and whether it had one. */
  datatype Watch = Watch(state: byte, view: byte, notified: bool)

  function Watched(w: Watch, mask: byte, lines: Lines): Watch {
    var poll := PollLines(w.state, mask, lines);
    if poll.notice.Some? then Watch(poll.state, AndBytes(poll.notice.value, NO_DELTA), true)
    else w
  }

  function WatchAll(w: Watch, mask: byte, polls: seq<Lines>): Watch {
    if polls == [] then w else Watched(WatchAll(w, mask, polls[..|polls| - 1]), mask, polls[|polls| - 1])
  }

  predicate InStep(w: Watch, mask: byte) { w.view == AndBytes(AndBytes(w.state, mask), NO_DELTA) }

  lemma WatchedStaysInStep(w: Watch, mask: byte, lines: Lines)
    ensures var now := Watched(w, mask, lines);
            && AndBytes(AndBytes(now.state, mask), NO_DELTA) == AndBytes(LineByte(lines), mask)
            && (now.notified <==> w.notified || PollLines(w.state, mask, lines).notice.Some?)
            && (PollLines(w.state, mask, lines).notice.Some? ==> InStep(now, mask))
            && (PollLines(w.state, mask, lines).notice.None? ==> now == w)
  {
    hide AndBytes, ModemStateOf, LineByte;
    MaskedStateIsMaskedLines(lines, w.state, mask);
  }

  lemma {:induction false} InStepIffStartedSoOrNotified(w: Watch, mask: byte, polls: seq<Lines>)
    requires !w.notified
    ensures var end := WatchAll(w, mask, polls); InStep(end, mask) <==> InStep(w, mask) || end.notified
  {
    hide Watched, AndBytes, LineByte;
    if polls != [] {
      InStepIffStartedSoOrNotified(w, mask, polls[..|polls| - 1]);
      WatchedStaysInStep(WatchAll(w, mask, polls[..|polls| - 1]), mask, polls[|polls| - 1]);
      NotInStepUntilNotified(w, mask, polls);
    }
  }

  lemma {:induction false} NotInStepUntilNotified(w: Watch, mask: byte, polls: seq<Lines>)
    requires !w.notified
    ensures var end := WatchAll(w, mask, polls); !end.notified ==> end == w
    ensures var end := WatchAll(w, mask, polls); end.notified ==> InStep(end, mask)
  {
    hide Watched, AndBytes, LineByte;
    if polls != [] {
      NotInStepUntilNotified(w, mask, polls[..|polls| - 1]);
      WatchedStaysInStep(WatchAll(w, mask, polls[..|polls| - 1]), mask, polls[|polls| - 1]);
    }
  }

  /**
   * After any polls, what the client holds is the masked lines at the last poll exactly when it was right to
   * begin with or has been notified since; a client that connects while ModemState is 0 is always right.
   */
  lemma ViewIsLastPolledLines(w: Watch, mask: byte, polls: seq<Lines>)
    requires !w.notified && polls != []
    ensures var end := WatchAll(w, mask, polls);
            end.view == AndBytes(LineByte(polls[|polls| - 1]), mask) <==> InStep(w, mask) || end.notified
    ensures w.state == 0 && w.view == 0 ==> InStep(w, mask)
  {
    var before := WatchAll(w, mask, polls[..|polls| - 1]);
    WatchedStaysInStep(before, mask, polls[|polls| - 1]);
    InStepIffStartedSoOrNotified(w, mask, polls);
    if w.state == 0 {
      NothingMasked(mask);
    }
  }

  /**
   * A new mask keeps a client that was right right exactly when it shows and hides only lines that are down in the
   * remembered state; what ViewIsLastPolledLines says of the polls under the new mask follows from that.
   */
  lemma InStepAfterMaskChangeExactlyWhen(w: Watch, mask: byte, mask': byte)
    requires InStep(w, mask)
    ensures InStep(w, mask')
            <==> forall k: nat :: 4 <= k < 8 && BitOf(w.state, k) ==> BitOf(mask, k) == BitOf(mask', k)
  {
    hide BitOf, AndBytes;
    var a, b := AndBytes(AndBytes(w.state, mask), NO_DELTA), AndBytes(AndBytes(w.state, mask'), NO_DELTA);
    forall k: nat | k < 8
      ensures BitOf(a, k) == (k >= 4 && BitOf(w.state, k) && BitOf(mask, k))
      ensures BitOf(b, k) == (k >= 4 && BitOf(w.state, k) && BitOf(mask', k))
    {
      BitOfAndBytes(AndBytes(w.state, mask), NO_DELTA, k);
      BitOfAndBytes(AndBytes(w.state, mask'), NO_DELTA, k);
      BitOfAndBytes(w.state, mask, k);
      BitOfAndBytes(w.state, mask', k);
      BitOfNoDelta(k);
    }
    if forall k: nat :: 4 <= k < 8 && BitOf(w.state, k) ==> BitOf(mask, k) == BitOf(mask', k) {
      SameBitsSameByte(a, b);
    }
  }

  lemma NothingMasked(mask: byte)
    ensures AndBytes(AndBytes(0, mask), NO_DELTA) == 0
  {
    forall k: nat | k < 8 ensures BitOf(AndBytes(AndBytes(0, mask), NO_DELTA), k) == BitOf(0, k) {
      BitOfAndBytes(AndBytes(0, mask), NO_DELTA, k);
      BitOfAndBytes(0, mask, k);
      DropOfZero(k);
    }
    SameBitsSameByte(AndBytes(AndBytes(0, mask), NO_DELTA), 0);
  }

  lemma {:induction false} DropOfZero(k: nat)
    ensures Drop(0, k) == 0
    decreases k
  {
    if k > 0 {
      DropOfZero(k - 1);
    }
  }

  /** Delta bit k of a notification: the mask lets it through and line bit k + 4 differs from the old state. */
  ghost predicate DeltaSays(notice: byte, mask: byte, now: byte, was: byte, k: nat)
    requires k < 4
  {
    BitOf(notice, k) <==> BitOf(mask, k) && BitOf(now, k + 4) != BitOf(was, k + 4)
  }

  /**
   * A poll notifies exactly when a client in step would otherwise be wrong, and the notification's delta bits,
   * where the mask lets them through, say which lines differ from the last notified state.
   */
  lemma NoticeSaysWhatChanged(w: Watch, mask: byte, lines: Lines)
    requires InStep(w, mask)
    ensures var poll := PollLines(w.state, mask, lines);
            && (poll.notice.Some? <==> w.view != AndBytes(LineByte(lines), mask))
            && (poll.notice.Some? ==> forall k: nat :: k < 4 ==> DeltaSays(poll.notice.value, mask,
                LineByte(lines), w.state, k))
            && (poll.notice.Some? ==> forall k: nat :: 4 <= k < 8 ==> BitOf(poll.state, k) == BitOf(LineByte(lines), k))
  {
    hide AndBytes, ModemStateOf, LineByte, BitOf;
    var now := ModemStateOf(lines, w.state);
    MaskedStateIsMaskedLines(lines, w.state, mask);
    forall k: nat | k < 4 ensures DeltaSays(AndBytes(now, mask), mask, LineByte(lines), w.state, k) {
      BitOfAndBytes(now, mask, k);
      BitOfState(lines, w.state, k);
      BitOfLine(lines, k + 4);
    }
    forall k: nat | 4 <= k < 8 ensures BitOf(now, k) == BitOf(LineByte(lines), k) {
      LineBitOfState(lines, w.state, k);
    }
  }
}
