/** Skipping the controller's tick whenever it says it needs none changes nothing anyone can observe. */
module DmaSkipping {
  import opened Prelude
  import opened Hardware
  import opened DmaTransfers
  import opened Dma
  import opened DmaInvariant
  import opened DmaVramPhases

  /** The machine step: a tick that is not required is not run. */
  function LazyApply(s: ControllerState, op: Op): (ControllerState, Option<Work>) {
    if op.Tick? && !s.RequiresTick() then (s, None) else Apply(s, op)
  }

  function LazyRun(s: ControllerState, ops: seq<Op>): ControllerState {
    if ops == [] then s else LazyApply(LazyRun(s, ops[..|ops| - 1]), ops[|ops| - 1]).0
  }

  function Works(s: ControllerState, ops: seq<Op>): seq<Option<Work>> {
    if ops == [] then []
    else Works(s, ops[..|ops| - 1]) + [Apply(Run(s, ops[..|ops| - 1]), ops[|ops| - 1]).1]
  }

  function LazyWorks(s: ControllerState, ops: seq<Op>): seq<Option<Work>> {
    if ops == [] then []
    else LazyWorks(s, ops[..|ops| - 1]) + [LazyApply(LazyRun(s, ops[..|ops| - 1]), ops[|ops| - 1]).1]
  }

  /** The step decision as code: the controller's own predicate decides whether its tick runs. */
  method StepDma(dma: DmaController, context: RuntimeContext) returns (work: Option<Work>, bus: BusState)
    modifies dma
    ensures (dma.View(), work) == LazyApply(old(dma.View()), Tick(context))
    ensures bus == dma.View().Bus()
  {
    var required := dma.RequiresTCycleTick();
    if required {
      work := dma.TickTCycleWithVramDmaContext(context);
      bus := dma.PublishedBusState();
    } else {
      work, bus := None, UNRESTRICTED_BUS;
    }
  }

  /** The two controllers differ at most in the counter of a finished GDMA whose publication no longer counts. */
  ghost predicate Similar(eager: ControllerState, lazy: ControllerState) {
    || eager == lazy
    || (&& eager.transferState.Completed? && lazy.transferState.Completed?
        && eager == lazy.(transferState := eager.transferState)
        && eager.transferState.progress.transfer == lazy.transferState.progress.transfer
        && eager.transferState.HasKind(Gdma)
        && !eager.vramState.GeneralPurposeActive?)
  }

  /** A finished transfer has issued all its bytes. */
  lemma CompletedIssuesNothing(t: TransferState)
    requires PhaseOk(t) && t.Completed?
    ensures t.Next().Completed? && t.Next().progress.transfer == t.progress.transfer
    ensures WorkBetween(t, t.Next()) == None
  {
    if !t.progress.transfer.kind.Oam? {
      StopsAtFinal(t.progress.transfer);
    }
  }

  lemma PublishingNothing(s: ControllerState, kind: TransferKind, blocks: nat)
    requires kind.Gdma? && !s.vramState.GeneralPurposeActive?
    ensures s.AfterPublishing(kind, blocks) == s
  {
  }

  /** A finished GDMA in a state where its publication does not count ticks to a similar state, silently. */
  lemma FinishedGdmaTick(s: ControllerState)
    requires PhaseOk(s.transferState) && s.transferState.Completed? && s.transferState.HasKind(Gdma)
    requires !s.vramState.GeneralPurposeActive?
    ensures s.AfterTransferTick() == (s.(transferState := s.transferState.Next()), None)
    ensures s.transferState.Next().Completed?
    ensures s.transferState.Next().progress.transfer == s.transferState.progress.transfer
  {
    var t := s.transferState;
    CompletedIssuesNothing(t);
    TransferTickOver(s, t, Gdma);
    PublishingNothing(s, Gdma, t.Next().Published() - t.Published());
    assert s.(transferState := t) == s;
    hide TransferState.Next, TransferState.Published, WorkBetween, ControllerState.AfterPublishing;
  }

  /** In any state the invariant allows, a tick that is not required is silent and leaves a similar state. */
  lemma UnneededTick(s: ControllerState, context: RuntimeContext)
    requires Inv(s) && !s.RequiresTick()
    ensures s.AfterTick(context).1 == None
    ensures Similar(s.AfterTick(context).0, s)
  {
    assert s.AfterTick(context) == s.AfterTransferTick();
    if s.transferState.Completed? {
      if s.transferState.HasKind(Gdma) {
        FinishedGdmaTick(s);
      } else {
        QuietKinds(s);
      }
    }
    hide TransferState.Next;
  }

  lemma QuietKinds(s: ControllerState)
    requires Inv(s) && s.transferState.Completed? && !s.transferState.HasKind(Gdma) && !s.vramState.HBlankActive?
    ensures s.AfterTransferTick() == (s, None)
  {
    var p := s.transferState.progress;
    if p.transfer.kind.Hdma? {
      PublishedAtMostAll(p);
      assert !p.HasUnpublishedBlocks();
    }
    assert s.transferState.Next() == s.transferState;
    hide PhaseOk, TransferState.Next;
  }

  lemma SimilarTick(eager: ControllerState, lazy: ControllerState, context: RuntimeContext)
    requires Similar(eager, lazy) && eager != lazy && Inv(eager) && Inv(lazy)
    ensures Similar(eager.AfterTick(context).0, lazy.AfterTick(context).0)
    ensures eager.AfterTick(context).1 == lazy.AfterTick(context).1
  {
    var a, b := eager.AfterOpening(context), lazy.AfterOpening(context);
    if eager.OpensBlock(context) {
      assert a == b;
    } else {
      assert a == eager && b == lazy;
      FinishedGdmaTick(a);
      FinishedGdmaTick(b);
      if a.pendingRestart.Some? {
        var restart := a.pendingRestart.value.Advance();
        FinishedGdmaTick(a.(pendingRestart := Some(restart)));
        FinishedGdmaTick(b.(pendingRestart := Some(restart)));
      }
      hide ControllerState.AfterTransferTick, TransferState.Next, PhaseOk;
    }
  }

  lemma SimilarApply(eager: ControllerState, lazy: ControllerState, op: Op)
    requires Similar(eager, lazy) && Inv(eager) && Inv(lazy)
    ensures Similar(Apply(eager, op).0, LazyApply(lazy, op).0)
    ensures Apply(eager, op).1 == LazyApply(lazy, op).1
  {
    if op.Tick? {
      if eager == lazy {
        if !lazy.RequiresTick() {
          UnneededTick(lazy, op.context);
        }
      } else if lazy.RequiresTick() {
        SimilarTick(eager, lazy, op.context);
      } else {
        assert eager.AfterTick(op.context) == eager.AfterTransferTick();
        FinishedGdmaTick(eager);
      }
      hide ControllerState.AfterTick, ControllerState.AfterTransferTick, TransferState.Next, Inv;
    } else if eager != lazy {
      SimilarWrite(eager, lazy, op);
    }
  }

  lemma SimilarWrite(eager: ControllerState, lazy: ControllerState, op: Op)
    requires Similar(eager, lazy) && eager != lazy && !op.Tick?
    ensures Similar(Apply(eager, op).0, Apply(lazy, op).0)
    ensures Apply(eager, op).1 == Apply(lazy, op).1 == None
  {
    hide GdmaForSpeed, ClipBlocks, VramRegisters.SourceStart, VramRegisters.DestinationStart;
  }

  /** What the rest of the machine can see of the controller. */
  ghost predicate SameToObservers(a: ControllerState, b: ControllerState) {
    && a.Bus() == b.Bus() && a.CpuStall() == b.CpuStall()
    && a.registers == b.registers && a.vramState == b.vramState
    && a.lastServedWindow == b.lastServedWindow && a.pendingRestart == b.pendingRestart
    && a.sourcePageLatch == b.sourcePageLatch
    && a.RequiresTick() == b.RequiresTick()
  }

  /** Over any sequence of writes and ticks from power-on, skipping unneeded ticks emits the same works and shows
      the same state. */
  lemma {:induction false} SkippingIsSound(model: ConsoleModel, ops: seq<Op>)
    ensures Works(Initial(model), ops) == LazyWorks(Initial(model), ops)
    ensures Similar(Run(Initial(model), ops), LazyRun(Initial(model), ops))
    ensures SameToObservers(Run(Initial(model), ops), LazyRun(Initial(model), ops))
    ensures Inv(LazyRun(Initial(model), ops))
  {
    var s := Initial(model);
    InitialInv(model);
    if ops != [] {
      var before, op := ops[..|ops| - 1], ops[|ops| - 1];
      SkippingIsSound(model, before);
      RunKeepsInv(model, before);
      hide Inv, Similar, Initial, Apply;
      SimilarApply(Run(s, before), LazyRun(s, before), op);
      ApplyKeepsInv(LazyRun(s, before), op);
    }
    SimilarLooksSame(Run(s, ops), LazyRun(s, ops));
  }

  lemma SimilarLooksSame(eager: ControllerState, lazy: ControllerState)
    requires Similar(eager, lazy)
    ensures SameToObservers(eager, lazy)
  {
  }
}
