/** Outside valuations of the pUSD vault over whole runs: their numbers only go up, and none is from the future. */
module PusdVaultValuation {
  import opened ShareToken
  import opened PusdVault

  /** How the valuation record may change in one call. */
  ghost predicate RecordMoves(s: State, t: State) {
    && s.valuationSequence <= t.valuationSequence && s.now <= t.now
    && (s.valuedAt <= s.now ==> t.valuedAt <= t.now)
    && (s.valuationSequence == t.valuationSequence ==>
          t.snapshotHash == s.snapshotHash && t.reservedCollateral == s.reservedCollateral)
  }

  lemma RequestCallsKeepRecord(s: State, call: Call)
    requires call.op.RequestRedeem? || call.op.CancelRedemption? || call.op.MakeClaimable? || call.op.ClaimRedemption?
    ensures RecordMoves(s, Step(s, call))
  {
  }

  lemma TokenCallsKeepRecord(s: State, call: Call)
    requires call.op.Deposit? || call.op.Mint? || call.op.Withdraw? || call.op.Redeem?
             || call.op.Transfer? || call.op.TransferFrom? || call.op.Approve?
    ensures RecordMoves(s, Step(s, call))
  {
    hide FreeCash, MaxDeposit, MaxMint, MaxWithdraw, MaxRedeem, PreviewDeposit, PreviewMint, PreviewWithdraw,
         PreviewRedeem;
  }

  lemma MoneyCallsMoveRecord(s: State, call: Call)
    requires call.op.Allocate? || call.op.SyncReturnedCapital? || call.op.RecordValuation?
    ensures RecordMoves(s, Step(s, call))
  {
    hide TotalAssets, FreeCash, ValuationFresh, CashAfterSending;
    assert s.now % UINT64_SPAN <= s.now;
  }

  lemma SettingsKeepRecord(s: State, caller: Address, op: Op)
    ensures var o := ApplySettings(s, caller, op); o.Done? ==> RecordMoves(s, o.state)
  {
    hide IsOperatorOrOwner, LimitsOk;
  }

  lemma StepMovesRecord(s: State, call: Call)
    ensures RecordMoves(s, Step(s, call))
  {
    hide RecordMoves, ApplyAllocate, ApplySync, ApplyRecordValuation, ApplySettings, ApplyDeposit, ApplyMint,
         ApplyWithdraw, ApplyRedeem, ApplyTransfer, ApplyTransferFrom, ApplyApprove,
         ApplyRequestRedeem, ApplyCancel, ApplyMakeClaimable, ApplyClaim, TotalAssets, FreeCash, ValuationFresh;
    NothingMovesNothing(s);
    match call.op
    case Deposit(_, _, _) => TokenCallsKeepRecord(s, call);
    case Mint(_, _, _) => TokenCallsKeepRecord(s, call);
    case Withdraw(_, _, _) => TokenCallsKeepRecord(s, call);
    case Redeem(_, _, _) => TokenCallsKeepRecord(s, call);
    case Transfer(_, _) => TokenCallsKeepRecord(s, call);
    case TransferFrom(_, _, _) => TokenCallsKeepRecord(s, call);
    case Approve(_, _) => TokenCallsKeepRecord(s, call);
    case RequestRedeem(_, _, _, _) => RequestCallsKeepRecord(s, call);
    case CancelRedemption(_) => RequestCallsKeepRecord(s, call);
    case MakeClaimable(_) => RequestCallsKeepRecord(s, call);
    case ClaimRedemption(_) => RequestCallsKeepRecord(s, call);
    case Allocate(_, _) => MoneyCallsMoveRecord(s, call);
    case SyncReturnedCapital => MoneyCallsMoveRecord(s, call);
    case RecordValuation(_, _, _, _, _) => MoneyCallsMoveRecord(s, call);
    case _ => SettingsKeepRecord(s, call.caller, call.op);
  }

  lemma NothingMovesNothing(s: State)
    ensures RecordMoves(s, s)
  {
  }

  /** Over any run the sequence number never falls, no valuation comes to be dated after the clock, and as long as the
      number stands, so do the reserved collateral and the snapshot that came with it. */
  lemma {:induction false} RunMovesRecord(s: State, calls: seq<Call>)
    ensures RecordMoves(s, Run(s, calls))
    decreases calls
  {
    hide Step;
    if calls != [] {
      StepMovesRecord(s, calls[0]);
      RunMovesRecord(Step(s, calls[0]), calls[1..]);
    }
  }

  /** Once a valuation is recorded, it and every one numbered no higher are refused for ever, whoever sends them. */
  lemma RecordedValuationIsFinal(s: State, first: Call, calls: seq<Call>, caller: Address, again: Op)
    requires first.op.RecordValuation? && Apply(s, first.caller, first.op).Done?
    requires again.RecordValuation? && again.sequence <= first.op.sequence
    ensures Apply(Run(Step(s, first), calls), caller, again).Revert?
  {
    RunMovesRecord(Step(s, first), calls);
    hide Run;
  }
}
