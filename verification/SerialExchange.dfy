/** The byte a transfer exchanges, bit by bit, and the time the internal clock takes over it. */
module SerialExchange {
  import opened Prelude
  import opened Hardware
  import opened Scheduler
  import opened Serial
  import opened SerialRuns

  /** Shift register contents after `k` shifts of `x`, and the bits that have left it, as a number. */
  function ShiftedBy(x: u8, k: nat): u8 {
    (x * Pow2(k)) % 0x100
  }

  function Gathered(x: u8, k: nat): int {
    (x * Pow2(k)) / 0x100
  }

  /** SB after `k` bits of `x` have come in below `was`. */
  function ShiftedIn(was: u8, x: u8, k: nat): u8 {
    (was * Pow2(k) + Gathered(x, k)) % 0x100
  }

  lemma Doubling(y: nat, b: nat)
    requires b <= 1
    ensures (2 * y + b) % 0x100 == ShiftedLeft(y % 0x100) + b
    ensures 2 * y / 0x100 == 2 * (y / 0x100) + TopBit(y % 0x100)
  {
    var q, r := y / 0x100, y % 0x100;
    var high := if r >= 0x80 then 1 else 0;
    DivUnique(2 * y, 0x100, 2 * q + high, 2 * r - 0x100 * high);
    DivUnique(2 * y + b, 0x100, 2 * q + high, 2 * r - 0x100 * high + b);
  }

  /** One more shift: the register doubles, and its top bit joins the bits gathered. */
  lemma RegisterStep(x: u8, k: nat)
    ensures ShiftedBy(x, k + 1) == ShiftedLeft(ShiftedBy(x, k))
    ensures Gathered(x, k + 1) == 2 * Gathered(x, k) + TopBit(ShiftedBy(x, k))
  {
    DoublesWithPower(x, k);
    Doubling(x * Pow2(k), 0);
    hide Pow2, ShiftedLeft, TopBit;
  }

  lemma SbStep(was: u8, x: u8, k: nat)
    ensures ShiftedIn(was, x, k + 1) == ShiftedLeft(ShiftedIn(was, x, k)) + TopBit(ShiftedBy(x, k))
  {
    hide *;
    RegisterStep(x, k);
    DoublesWithPower(was, k);
    GatheredBits(x, k);
    Doubling(was * Pow2(k) + Gathered(x, k), TopBit(ShiftedBy(x, k)));
    ShiftedInUnfolds(was, x, k);
    ShiftedInUnfolds(was, x, k + 1);
  }

  lemma ShiftedInUnfolds(was: u8, x: u8, k: nat)
    ensures ShiftedIn(was, x, k) == (was * Pow2(k) + Gathered(x, k)) % 0x100
  {
  }

  lemma GatheredBits(x: u8, k: nat)
    ensures Gathered(x, k) >= 0
  {
  }

  lemma NothingShifted(was: u8, x: u8)
    ensures ShiftedBy(x, 0) == x && ShiftedIn(was, x, 0) == was
  {
  }

  /** Eight shifts replace the register by the byte that came in. */
  lemma ByteShiftedIn(was: u8, x: u8)
    ensures ShiftedIn(was, x, 8) == x
  {
    Pow2Byte();
    assert Gathered(x, 8) == x;
  }

  /** An open line reads ones. */
  lemma {:induction false} OnesStayHigh(k: nat)
    requires k < 8
    ensures ShiftedBy(0xFF, k) >= 0x80
    ensures ShiftedBy(0xFF, k) + Pow2(k) == 0x100 && Pow2(k) <= 0x80
  {
    if k > 0 {
      OnesStayHigh(k - 1);
      RegisterStep(0xFF, k - 1);
      assert Pow2(k) == 2 * Pow2(k - 1);
      if Pow2(k - 1) > 0x40 {
        Pow2Byte();
        Pow2Grows(k, 7);
      }
      hide ShiftedBy;
    }
  }

  /** The byte the first shift latches to shift in: all ones from an open line, its own output on loopback. */
  function IncomingByte(peer: Peer, outgoing: u8): u8 {
    match peer
    case Disconnected => 0xFF
    case Loopback => outgoing
    case StagedIncomingByte(byte) => byte
  }

  predicate SameKind(a: Peer, b: Peer) {
    (a.Disconnected? <==> b.Disconnected?) && (a.Loopback? <==> b.Loopback?)
  }

  /** Operations that neither write the serial registers, take its output, nor change the kind of peer. */
  predicate Undisturbed(s: SerialState, ops: seq<Op>) {
    forall op :: op in ops ==>
      op.TickOp? || op.Pulse? || op.SetModeOp? || (op.SetPeerOp? && SameKind(op.peer, s.peer))
  }

  function Edges(s: SerialState, ops: seq<Op>): nat {
    TotalTelemetry(s, ops).shiftEdges
  }

  /** The incoming byte as the peer stood at the first shift edge of the run. */
  function LatchedIncoming(s: SerialState, ops: seq<Op>): u8 {
    if ops == [] || Edges(s, ops[..|ops| - 1]) == 0
    then IncomingByte((if ops == [] then s else Run(s, ops[..|ops| - 1])).peer, s.stagedOutgoing)
    else LatchedIncoming(s, ops[..|ops| - 1])
  }

  /** A transfer that started in `s0` with `e` of the bits of `x` received. */
  ghost predicate Midway(s0: SerialState, now: SerialState, x: u8, e: nat) {
    && now.transfer == Requested(e) && e < 8
    && now.stagedOutgoing == s0.stagedOutgoing && now.completed == s0.completed
    && SameKind(now.peer, s0.peer)
    && now.sb == ShiftedIn(s0.sb, x, e)
    && (e > 0 ==> LatchedRegisters(s0, now, x, e))
  }

  ghost predicate LatchedRegisters(s0: SerialState, now: SerialState, x: u8, e: nat) {
    && now.currentOutgoing == s0.stagedOutgoing
    && now.outgoingShift == ShiftedBy(s0.stagedOutgoing, e)
    && (s0.peer.Disconnected? ==> x == 0xFF)
    && (s0.peer.Loopback? ==> x == s0.stagedOutgoing)
    && (s0.peer.StagedIncomingByte? ==> now.incoming == ShiftedBy(x, e))
  }

  ghost predicate Exchanged(s0: SerialState, now: SerialState, x: u8) {
    && now.transfer.Idle? && now.sb == x && now.completed == s0.completed + [s0.stagedOutgoing]
    && now.stagedOutgoing == s0.stagedOutgoing
  }

  /** Before the shift, the working registers hold what `e` shifts of the two bytes leave. */
  lemma LatchedHolds(s0: SerialState, now: SerialState, x: u8, e: nat)
    requires Midway(s0, now, x, e) && (e == 0 ==> x == IncomingByte(now.peer, s0.stagedOutgoing))
    ensures LatchedRegisters(s0, now.Latched(), x, e)
    ensures now.Latched().IncomingBit() == TopBit(ShiftedBy(x, e))
  {
    NothingShifted(s0.sb, x);
    NothingShifted(s0.sb, s0.stagedOutgoing);
    OnesStayHigh(e);
    hide ShiftedBy, ShiftedIn;
  }

  /** A shift edge takes in the next bit, and the eighth ends the transfer with the byte exchanged. */
  lemma ShiftStep(s0: SerialState, now: SerialState, x: u8, e: nat)
    requires Midway(s0, now, x, e) && (e == 0 ==> x == IncomingByte(now.peer, s0.stagedOutgoing))
    ensures e < 7 ==> Midway(s0, now.Shifted(), x, e + 1)
    ensures e == 7 ==> Exchanged(s0, now.Shifted(), x)
    ensures now.CompletesByte() <==> e == 7
  {
    LatchedHolds(s0, now, x, e);
    SbStep(s0.sb, x, e);
    RegisterStep(x, e);
    RegisterStep(s0.stagedOutgoing, e);
    ByteShiftedIn(s0.sb, x);
    hide ShiftedBy, ShiftedIn, ShiftedLeft, TopBit, IncomingByte;
  }

  /** Anything short of a shift leaves the exchange where it is. */
  lemma MidwayApply(s0: SerialState, now: SerialState, x: u8, e: nat, op: Op)
    requires Midway(s0, now, x, e) && Undisturbed(s0, [op])
    requires e == 0 ==> x == IncomingByte(now.peer, s0.stagedOutgoing)
    ensures var r := Apply(now, op);
      && r.telemetry.shiftEdges <= 1
      && (r.telemetry.shiftEdges == 0 ==> Midway(s0, r.state, x, e) && r.interrupts == [])
      && (r.telemetry.shiftEdges == 1 && e < 7 ==> Midway(s0, r.state, x, e + 1) && r.interrupts == [])
      && (r.telemetry.shiftEdges == 1 && e == 7 ==> Exchanged(s0, r.state, x) && r.interrupts == [SerialInterrupt])
  {
    assert op in [op];
    if op.TickOp? {
      var counted := now.Counted();
      var spent := if now.clockMode.External? && now.pendingPulses != 0
                   then counted.(pendingPulses := now.pendingPulses - 1) else counted;
      hide ShiftedBy, ShiftedIn, InternalClockEdge, IncomingByte, SerialState.Shifted;
      assert Midway(s0, spent, x, e);
      ShiftStep(s0, spent, x, e);
    }
    hide ShiftedBy, ShiftedIn, InternalClockEdge, IncomingByte, SerialState.Shifted;
  }

  lemma ExchangedApply(s0: SerialState, now: SerialState, x: u8, op: Op)
    requires Exchanged(s0, now, x) && Undisturbed(s0, [op])
    ensures var r := Apply(now, op);
      Exchanged(s0, r.state, x) && r.telemetry.shiftEdges == 0 && r.interrupts == []
  {
    assert op in [op];
    hide InternalClockEdge, SerialState.Shifted;
  }

  /** The state of the exchange after any run without register writes, by the number of shift edges so far. */
  ghost predicate ExchangeState(s0: SerialState, now: SerialState, x: u8, e: nat, interrupts: seq<InterruptSource>) {
    && e <= 8
    && (e < 8 ==> Midway(s0, now, x, e) && interrupts == [])
    && (e == 8 ==> Exchanged(s0, now, x) && interrupts == [SerialInterrupt])
  }

  lemma RelabelUnlatched(s0: SerialState, now: SerialState, x: u8, y: u8)
    requires Midway(s0, now, x, 0)
    ensures Midway(s0, now, y, 0)
  {
    NothingShifted(s0.sb, x);
    NothingShifted(s0.sb, y);
  }

  /** Over any run without register writes and with the same kind of peer: eight shift edges and no more; then SB
      holds the byte latched at the first edge, exactly the staged byte has gone out, and one interrupt is queued. */
  lemma {:induction false} ExchangeRun(s0: SerialState, ops: seq<Op>)
    requires s0.transfer == Requested(0) && Undisturbed(s0, ops)
    ensures ExchangeState(s0, Run(s0, ops), LatchedIncoming(s0, ops), Edges(s0, ops), AllInterrupts(s0, ops))
  {
    var x := LatchedIncoming(s0, ops);
    if ops == [] {
      NothingShifted(s0.sb, x);
    } else {
      var before, op := ops[..|ops| - 1], ops[|ops| - 1];
      UndisturbedParts(s0, ops);
      ExchangeRun(s0, before);
      RunStep(s0, ops);
      hide *;
      ExchangeApply(s0, Run(s0, before), LatchedIncoming(s0, before), x, Edges(s0, before),
                    AllInterrupts(s0, before), op);
    }
  }

  lemma UndisturbedParts(s: SerialState, ops: seq<Op>)
    requires ops != [] && Undisturbed(s, ops)
    ensures Undisturbed(s, ops[..|ops| - 1]) && Undisturbed(s, [ops[|ops| - 1]])
  {
  }

  lemma RunStep(s: SerialState, ops: seq<Op>)
    requires ops != []
    ensures var before, r := ops[..|ops| - 1], Apply(Run(s, ops[..|ops| - 1]), ops[|ops| - 1]);
      && Run(s, ops) == r.state
      && Edges(s, ops) == Edges(s, before) + r.telemetry.shiftEdges
      && AllInterrupts(s, ops) == AllInterrupts(s, before) + r.interrupts
      && (Edges(s, before) > 0 ==> LatchedIncoming(s, ops) == LatchedIncoming(s, before))
      && (Edges(s, before) == 0 ==> LatchedIncoming(s, ops) == IncomingByte(Run(s, before).peer, s.stagedOutgoing))
  {
    hide Apply, IncomingByte;
  }

  lemma ExchangeApply(
    s0: SerialState, now: SerialState, was: u8, x: u8, e: nat, interrupts: seq<InterruptSource>, op: Op)
    requires ExchangeState(s0, now, was, e, interrupts) && Undisturbed(s0, [op])
    requires if e > 0 then x == was else x == IncomingByte(now.peer, s0.stagedOutgoing)
    ensures var r := Apply(now, op);
      ExchangeState(s0, r.state, x, e + r.telemetry.shiftEdges, interrupts + r.interrupts)
  {
    if e == 8 {
      ExchangedApply(s0, now, x, op);
    } else {
      if e == 0 {
        RelabelUnlatched(s0, now, was, x);
      }
      MidwayApply(s0, now, x, e, op);
    }
    hide Midway, Exchanged, Apply, IncomingByte;
  }

  /** The whole exchange, as its user sees it. */
  lemma ByteExchange(s0: SerialState, ops: seq<Op>)
    requires s0.transfer == Requested(0) && Undisturbed(s0, ops)
    ensures Edges(s0, ops) <= 8
    ensures var now := Run(s0, ops);
      if Edges(s0, ops) == 8
      then
        && now.transfer.Idle?
        && now.sb == LatchedIncoming(s0, ops)
        && now.completed == s0.completed + [s0.stagedOutgoing]
        && AllInterrupts(s0, ops) == [SerialInterrupt]
      else
        now.transfer == Requested(Edges(s0, ops)) && now.completed == s0.completed && AllInterrupts(s0, ops) == []
  {
    ExchangeRun(s0, ops);
    hide Edges, LatchedIncoming, Run, AllInterrupts, Undisturbed;
  }

  // ----- Timing of the internal clock

  function TickOps(n: nat, speed: CgbSpeedMode): (ops: seq<Op>)
    ensures |ops| == n
  {
    seq(n, _ => TickOp(speed))
  }

  function ClockPeriod(s: SerialState, speed: CgbSpeedMode): pos {
    2 * EdgeWeight(speed, s.HighSpeedClock())
  }

  /** Nothing that sets the pace of the internal clock changes while it ticks. */
  ghost predicate SamePace(s: SerialState, now: SerialState, n: nat) {
    && now.clockMode.Internal? && now.counter == (s.counter + n) % 0x1_0000
    && now.HighSpeedClock() == s.HighSpeedClock()
  }

  lemma PaceStep(s: SerialState, now: SerialState, n: nat, speed: CgbSpeedMode)
    requires SamePace(s, now, n)
    ensures SamePace(s, now.AfterTick(speed).state, n + 1)
    ensures now.AfterTick(speed).telemetry.shiftEdges
         == if now.transfer.Requested? && (s.counter + n + 1) % ClockPeriod(s, speed) == 0 then 1 else 0
  {
    CountFalls(s.counter + n, EdgeWeight(speed, s.HighSpeedClock()));
    hide Bit, EdgeWeight;
  }

  /** After `n` ticks the internal clock has given one shift edge per period boundary crossed, up to eight. */
  lemma {:induction false} InternalEdges(s: SerialState, n: nat, speed: CgbSpeedMode)
    requires s.transfer == Requested(0) && s.clockMode.Internal?
    ensures SamePace(s, Run(s, TickOps(n, speed)), n)
    ensures Edges(s, TickOps(n, speed))
         == Min(8, (s.counter + n) / ClockPeriod(s, speed) - s.counter / ClockPeriod(s, speed))
  {
    hide *;
    if n == 0 {
      NoTicks(s, speed);
    } else {
      var ops, before := TickOps(n, speed), TickOps(n - 1, speed);
      TickOpsStep(n, speed);
      InternalEdges(s, n - 1, speed);
      TicksUndisturbed(s, n - 1, speed);
      ByteExchange(s, before);
      RunStep(s, ops);
      PaceStep(s, Run(s, before), n - 1, speed);
      EdgeCount(s.counter, n - 1, ClockPeriod(s, speed));
      AsTick(Run(s, before), speed);
    }
  }

  lemma NoTicks(s: SerialState, speed: CgbSpeedMode)
    requires s.clockMode.Internal?
    ensures SamePace(s, Run(s, TickOps(0, speed)), 0)
    ensures Edges(s, TickOps(0, speed)) == 0
    ensures Min(8, (s.counter + 0) / ClockPeriod(s, speed) - s.counter / ClockPeriod(s, speed)) == 0
  {
  }

  lemma TickOpsStep(n: pos, speed: CgbSpeedMode)
    ensures |TickOps(n, speed)| == n
    ensures TickOps(n, speed)[..n - 1] == TickOps(n - 1, speed) && TickOps(n, speed)[n - 1] == TickOp(speed)
  {
  }

  lemma TicksUndisturbed(s: SerialState, n: nat, speed: CgbSpeedMode)
    ensures Undisturbed(s, TickOps(n, speed))
  {
  }

  lemma AsTick(s: SerialState, speed: CgbSpeedMode)
    ensures Apply(s, TickOp(speed)) == s.AfterTick(speed)
  {
  }

  /** The capped count of period boundaries, one tick further on. */
  lemma EdgeCount(counter: nat, n: nat, p: pos)
    ensures var e, e' := (counter + n) / p - counter / p, (counter + n + 1) / p - counter / p;
      && e >= 0
      && Min(8, e') == Min(8, e) + (if Min(8, e) < 8 && (counter + n + 1) % p == 0 then 1 else 0)
  {
    DivSucc(counter + n, p);
    DivMonotone(counter, counter + n, p);
  }

  /** An internally clocked transfer started at counter `c` ends exactly on tick `8 * P - c mod P`. */
  lemma InternalTransferEnds(s: SerialState, n: nat, speed: CgbSpeedMode)
    requires s.transfer == Requested(0) && s.clockMode.Internal?
    ensures var p := ClockPeriod(s, speed);
      Run(s, TickOps(n, speed)).transfer.Idle? <==> n >= 8 * p - s.counter % p
  {
    hide *;
    InternalEdges(s, n, speed);
    TicksUndisturbed(s, n, speed);
    ByteExchange(s, TickOps(n, speed));
    EightBoundaries(s.counter, n, ClockPeriod(s, speed));
  }

  lemma EightBoundaries(counter: nat, n: nat, p: pos)
    ensures Min(8, (counter + n) / p - counter / p) == 8 <==> n >= 8 * p - counter % p
  {
    var base := counter / p;
    DivReaches(counter + n, p, base + 8);
    assert counter == base * p + counter % p;
    assert (base + 8) * p == base * p + 8 * p;
  }
}
