/** Timing of the transmit machine over whole runs: `tr[i]` is the machine before run `i`. The runs start from
    any state, with any timer configuration. */
module TxRuns {
  import opened Bytes
  import RxSpec
  import opened TxSpec

  /** Around one run: whether something changed locally before it, the port and the admin status. */
  datatype TxInput = TxInput(changed: bool, portEnabled: bool, admin: RxSpec.AdminStatus)

  function StepTxOut(s: Tx, inp: TxInput): TxOut {
    RunTx(s.(changedLocal := s.changedLocal || inp.changed), inp.portEnabled, inp.admin)
  }

  function StepTx(s: Tx, inp: TxInput): Tx {
    StepTxOut(s, inp).tx
  }

  ghost predicate TxTrace(tr: seq<Tx>, ins: seq<TxInput>) {
    |tr| == |ins| + 1 && forall i {:trigger ins[i]} :: 0 <= i < |ins| ==> tr[i + 1] == StepTx(tr[i], ins[i])
  }

  predicate Sending(inp: TxInput) {
    inp.portEnabled && RxSpec.TxEnabled(inp.admin)
  }

  /** Runs between information frames when nothing changes locally. */
  function Period(s: Tx): nat {
    Max(Max(s.msgTxInterval, s.txDelay), 1) + 1
  }

  /** The shortest gap, whatever changes. */
  function MinGap(s: Tx): nat {
    Max(s.txDelay, 1) + 1
  }

  predicate SameConfig(s: Tx, t: Tx) {
    s.msgTxInterval == t.msgTxInterval && s.msgTxHold == t.msgTxHold && s.txDelay == t.txDelay
  }

  /** The machine `j` runs after the one that sent a frame, counted from that run's end, while none is due. */
  predicate Waiting(s0: Tx, s: Tx, j: nat) {
    && s.state == TxIdle && SameConfig(s0, s)
    && s.txTTR == Max(0, s0.msgTxInterval - j) && s.txDelayWhile == Max(0, s0.txDelay - j)
    && s.txTTL == Advertised(s0.msgTxInterval, s0.msgTxHold)
  }

  /** One run of a sending machine, case by case. */
  lemma SendingStep(s: Tx, inp: TxInput)
    requires Sending(inp)
    ensures var s1 := s.(changedLocal := s.changedLocal || inp.changed);
      var o := StepTxOut(s, inp);
      match s.state
      case TxInfoFrame => o == TxOut(TickTx(Enter(s1, TxIdle)), Silent)
      case TxInitialize => o == TxOut(TickTx(Enter(s1, TxIdle)), Silent)
      case TxIdle =>
        if InfoDue(s1) then o == TxOut(TickTx(s1.(state := TxInfoFrame)), SendInfo(s.txTTL))
        else o == TxOut(TickTx(s1), Silent)
      case TxShutdownFrame => true
  {
  }

  lemma {:induction false} WaitingAfter(tr: seq<Tx>, ins: seq<TxInput>, a: nat, j: nat)
    requires TxTrace(tr, ins) && 1 <= j && a + j < |tr| && tr[a].state == TxInfoFrame
    requires forall i :: a <= i < a + j ==> Sending(ins[i])
    requires forall i :: a < i <= a + j ==> tr[i].state != TxInfoFrame
    ensures Waiting(tr[a], tr[a + j], j)
    ensures (forall i :: a < i < a + j ==> !ins[i].changed) ==> !tr[a + j].changedLocal
    ensures forall i :: a < i < a + j ==> !InfoDue(tr[i].(changedLocal := tr[i].changedLocal || ins[i].changed))
    decreases j
  {
    SendingStep(tr[a + j - 1], ins[a + j - 1]);
    if j == 1 {
    } else {
      WaitingAfter(tr, ins, a, j - 1);
    }
  }

  /** A sending machine that has been quiet since its last frame sends again when the period is up. */
  lemma DueAfterPeriod(tr: seq<Tx>, ins: seq<TxInput>, a: nat)
    requires TxTrace(tr, ins) && a < |tr| && a + Period(tr[a]) < |tr| && tr[a].state == TxInfoFrame
    requires forall i :: a <= i < a + Period(tr[a]) ==> Sending(ins[i])
    requires forall i :: a < i < a + Period(tr[a]) ==> tr[i].state != TxInfoFrame
    ensures tr[a + Period(tr[a])].state == TxInfoFrame
  {
    var i := a + Period(tr[a]) - 1;
    WaitingAfter(tr, ins, a, i - a);
    SendingStep(tr[i], ins[i]);
    assert tr[i + 1] == StepTx(tr[i], ins[i]);
  }

  /** Transmit spacing: with the port up and transmission enabled, consecutive information frames are at least
      max(txDelay,1)+1 and at most max(msgTxInterval,txDelay,1)+1 runs apart, whatever changes locally, and
      exactly the latter when nothing does. A change reported in the run right after a frame is lost. */
  lemma TransmitSpacing(tr: seq<Tx>, ins: seq<TxInput>, a: nat, b: nat)
    requires TxTrace(tr, ins) && a < b < |tr|
    requires tr[a].state == TxInfoFrame && tr[b].state == TxInfoFrame
    requires forall i :: a < i < b ==> tr[i].state != TxInfoFrame
    requires forall i :: a <= i < b ==> Sending(ins[i])
    ensures MinGap(tr[a]) <= b - a <= Period(tr[a])
    ensures (forall i :: a < i < b ==> !ins[i].changed) ==> b - a == Period(tr[a])
    ensures StepTxOut(tr[b - 1], ins[b - 1]).emission == SendInfo(Advertised(tr[a].msgTxInterval, tr[a].msgTxHold))
    ensures SameConfig(tr[a], tr[b])
  {
    SendingStep(tr[b - 1], ins[b - 1]);
    if b == a + 1 {
      assert false;
    }
    WaitingAfter(tr, ins, a, b - 1 - a);
    if b - a > Period(tr[a]) {
      DueAfterPeriod(tr, ins, a);
      assert false;
    }
  }

  /** The next information frame does come. */
  lemma NextInfoFrame(tr: seq<Tx>, ins: seq<TxInput>, a: nat) returns (b: nat)
    requires TxTrace(tr, ins) && a < |tr| && a + Period(tr[a]) < |tr| && tr[a].state == TxInfoFrame
    requires forall i :: a <= i < a + Period(tr[a]) ==> Sending(ins[i])
    ensures a < b <= a + Period(tr[a]) && tr[b].state == TxInfoFrame
    ensures forall i :: a < i < b ==> tr[i].state != TxInfoFrame
  {
    b := a + 1;
    while tr[b].state != TxInfoFrame
      invariant a < b <= a + Period(tr[a])
      invariant forall i :: a < i < b ==> tr[i].state != TxInfoFrame
      decreases |tr| - b
    {
      if b == a + Period(tr[a]) {
        DueAfterPeriod(tr, ins, a);
        assert false;
      }
      b := b + 1;
    }
  }

  /** TX_INFO_FRAME never lasts two runs. */
  lemma InfoFrameIsBrief(s: Tx, inp: TxInput)
    requires s.state == TxInfoFrame
    ensures StepTx(s, inp).state != TxInfoFrame
  {
  }

  // -------- what the environment decides --------

  /** With the port up, TX_IDLE is left for TX_SHUTDOWN_FRAME iff transmission is not enabled, and
      TX_LLDP_INITIALIZE is left iff it is. */
  lemma AdminDecides(s: Tx, inp: TxInput)
    requires inp.portEnabled
    ensures s.state == TxIdle ==>
      (StepTx(s, inp).state == TxShutdownFrame <==>
         inp.admin == RxSpec.Disabled || inp.admin == RxSpec.EnabledRxOnly)
    ensures s.state == TxInitialize ==>
      (StepTx(s, inp).state != TxInitialize <==>
         inp.admin == RxSpec.EnabledRxTx || inp.admin == RxSpec.EnabledTxOnly)
  {
  }

  /** A port found disabled starts anew from any state, TX_SHUTDOWN_FRAME included. */
  lemma DisabledPortRestarts(s: Tx, inp: TxInput)
    requires !inp.portEnabled
    ensures StepTx(s, inp).state ==
      if inp.admin == RxSpec.EnabledRxTx || inp.admin == RxSpec.EnabledTxOnly then TxIdle else TxInitialize
    ensures StepTxOut(s, inp).emission == Silent
  {
  }

  lemma {:induction false} ChangePending(tr: seq<Tx>, ins: seq<TxInput>, c: nat, j: nat)
    requires TxTrace(tr, ins) && c + j < |tr| && tr[c].state == TxIdle && j <= tr[c].txDelayWhile
    requires j > 0 ==> tr[c].changedLocal || ins[c].changed
    requires forall i :: c <= i < c + j ==> Sending(ins[i])
    ensures tr[c + j].state == TxIdle && tr[c + j].txDelayWhile == tr[c].txDelayWhile - j
    ensures j > 0 ==> tr[c + j].changedLocal
    decreases j
  {
    if j == 0 {
    } else {
      ChangePending(tr, ins, c, j - 1);
      SendingStep(tr[c + j - 1], ins[c + j - 1]);
      assert tr[c + j] == StepTx(tr[c + j - 1], ins[c + j - 1]);
    }
  }

  /** A local change reported in TX_IDLE is announced as soon as the transmit delay allows, and no sooner: in the run
      in which txDelayWhile has come down to 0. */
  lemma ChangeIsAnnounced(tr: seq<Tx>, ins: seq<TxInput>, c: nat)
    requires TxTrace(tr, ins) && c < |ins| && c + tr[c].txDelayWhile < |ins| && tr[c].state == TxIdle && ins[c].changed
    requires forall i :: c <= i <= c + tr[c].txDelayWhile ==> Sending(ins[i])
    ensures tr[c + tr[c].txDelayWhile + 1].state == TxInfoFrame
    ensures forall i :: c < i <= c + tr[c].txDelayWhile ==> tr[i].state == TxIdle
  {
    forall i | c < i <= c + tr[c].txDelayWhile
      ensures tr[i].state == TxIdle
    {
      ChangePending(tr, ins, c, i - c);
    }
    var j := c + tr[c].txDelayWhile;
    ChangePending(tr, ins, c, j - c);
    SendingStep(tr[j], ins[j]);
    assert tr[j + 1] == StepTx(tr[j], ins[j]);
  }

  // -------- shutdown --------

  lemma ShutdownStep(s: Tx, inp: TxInput)
    requires s.state == TxShutdownFrame && inp.portEnabled
    ensures var o := StepTxOut(s, inp);
      if s.txShutdownWhile == 0 then o.tx.state == TxInitialize
      else o.tx.state == TxShutdownFrame && o.emission == SendShutdown && o.tx.reinitDelay == s.reinitDelay &&
           o.tx.txShutdownWhile == Dec(s.reinitDelay)
  {
  }

  /** The shutdown action reloads its timer on every run. So a machine that has spent a run in
      TX_SHUTDOWN_FRAME leaves it in the next run, the port staying enabled, iff reinitDelay is below 2. */
  lemma ShutdownLeavesIff(s: Tx, first: TxInput, second: TxInput)
    requires StepTx(s, first).state == TxShutdownFrame && second.portEnabled
    ensures StepTx(StepTx(s, first), second).state != TxShutdownFrame <==> StepTx(s, first).reinitDelay < 2
  {
    ShutdownStep(StepTx(s, first), second);
  }

  /** With reinitDelay at least 2, which initialisation sets, TX_SHUTDOWN_FRAME is never left while the port
      stays enabled, whatever the admin status becomes, and another shutdown frame goes out on every run. */
  lemma {:induction false} ShutdownAbsorbs(tr: seq<Tx>, ins: seq<TxInput>, a: nat, i: nat)
    requires TxTrace(tr, ins) && 0 < a <= i < |ins| && tr[a].state == TxShutdownFrame && tr[a].reinitDelay >= 2
    requires forall j :: a <= j <= i ==> ins[j].portEnabled
    ensures tr[i + 1].state == TxShutdownFrame && tr[i + 1].reinitDelay == tr[a].reinitDelay
    ensures StepTxOut(tr[i], ins[i]).emission == SendShutdown
  {
    if i == a {
    } else {
      ShutdownAbsorbs(tr, ins, a, i - 1);
    }
    assert tr[i] == StepTx(tr[i - 1], ins[i - 1]);
    ShutdownStep(tr[i], ins[i]);
  }
}
