/** The Lightning-to-Liquid swap as a state machine (pkg/escrow/swap/fund.go): the service's steps in
    their order, and between any two of them payment, expiry, new blocks, refunds and crashes. */
module Swap {
  import opened Basics
  import opened RelativeLocks

  /** As the answer of a lookup, `NoInvoice` stands for every other text. */
  datatype Invoice = NoInvoice | Open | Accepted | Settled | Canceled

  datatype Output = NoOutput | Unspent | Claimed | Refunded

  /** Where the service is. `Stopped` is a returned error or a crash. */
  datatype Control = Start | Unconfirmed | Confirmed | Polling | Claiming | Settling | Finished | Stopped

  datatype Event =
    | HtlcFunded
    | InvoiceAdded
    | LookupFailed
    | Looked(state: Invoice)
    | ClaimCall(taken: bool)
    | SettleCall(taken: bool)

  /** Fixed for one swap: satoshis locked, the fee of each HTLC spend, blocks until the refund. */
  datatype Terms = Terms(amount: nat, fee: nat, timeout: uint32)

  datatype State = State(
    control: Control, invoice: Invoice, output: Output, age: Age,
    buyerLN: nat, heldLN: nat, serviceLN: nat, serviceLBTC: nat, escrow: nat, fees: nat,
    log: seq<Event>)

  /** How a call to a node ends: done and answered, done with the answer lost, or refused. */
  datatype Outcome = Done | DoneUnanswered | Refused

  datatype Step =
    | FundHtlc(outcome: Outcome, walletFee: nat)
    | ConfirmHtlc(ok: bool)
    | AddInvoice(outcome: Outcome)
    | Lookup(answer: Option<Invoice>)
    | ClaimHtlc(outcome: Outcome)
    | SettleInvoice(outcome: Outcome)
    | BuyerPays
    | InvoiceExpires
    | TimePasses(blocks: nat, seconds: nat)
    | RefundHtlc
    | Crash
    | Resume

  function LockedValue(s: State, t: Terms): nat {
    if s.output == Unspent then t.amount else 0
  }

  /** SpendHTLC produces an output above dust that, with the fee, is worth the input. */
  predicate Spendable(t: Terms) {
    t.amount > t.fee + 546
  }

  function Log(s: State, e: Event): State {
    s.(log := s.log + [e])
  }

  /** Step 2: the HTLC is funded from the wallet. */
  function DoFund(t: Terms, s: State, outcome: Outcome, walletFee: nat): Option<State> {
    if s.control != Start then None
    else if outcome == Refused then Some(s.(control := Stopped))
    else if s.serviceLBTC < t.amount + walletFee then None
    else
      var s' := s.(output := Unspent, age := Age(0, 0),
                   serviceLBTC := s.serviceLBTC - t.amount - walletFee, fees := s.fees + walletFee);
      Some(Log(s'.(control := if outcome == Done then Unconfirmed else Stopped), HtlcFunded))
  }

  /** Step 3: the hold invoice. */
  function DoAddInvoice(s: State, outcome: Outcome): Option<State> {
    if s.control != Confirmed then None
    else if outcome == Refused then Some(s.(control := Stopped))
    else Some(Log(s.(invoice := Open, control := if outcome == Done then Polling else Stopped), InvoiceAdded))
  }

  function AfterAnswer(e: Event): Control {
    match e
    case Looked(Accepted) => Claiming
    case Looked(Open) => Polling
    case _ => Stopped
  }

  /** Step 5: one look at the invoice. Any answer may come, true at that moment or not. */
  function DoLookup(s: State, answer: Option<Invoice>): Option<State> {
    if s.control != Polling then None
    else if answer.None? then Some(Log(s.(control := Stopped), LookupFailed))
    else
      Some(Log(s.(control := AfterAnswer(Looked(answer.value))), Looked(answer.value)))
  }

  /** Step 6: the HTLC is claimed into the escrow. The chain takes it only while the output is there. */
  function DoClaim(t: Terms, s: State, outcome: Outcome): Option<State> {
    if s.control != Claiming then None
    else if outcome == Refused then Some(Log(s.(control := Stopped), ClaimCall(false)))
    else if s.output != Unspent || !Spendable(t) then None
    else
      var s' := s.(output := Claimed, escrow := s.escrow + t.amount - t.fee, fees := s.fees + t.fee);
      if outcome == Done then Some(Log(s'.(control := Settling), ClaimCall(true)))
      else Some(Log(s'.(control := Stopped), ClaimCall(false)))
  }

  /** Step 7: the invoice is settled. The node does it only for a held payment. */
  function DoSettle(t: Terms, s: State, outcome: Outcome): Option<State> {
    if s.control != Settling then None
    else if outcome == Refused then Some(Log(s.(control := Stopped), SettleCall(false)))
    else if s.invoice != Accepted then None
    else
      var s' := s.(invoice := Settled, serviceLN := s.serviceLN + s.heldLN, heldLN := 0);
      Some(Log(s'.(control := if outcome == Done then Finished else Stopped), SettleCall(outcome == Done)))
  }

  /** The next state, if the step is possible at all. */
  function Apply(t: Terms, s: State, step: Step): Option<State> {
    match step
    case FundHtlc(outcome, walletFee) => DoFund(t, s, outcome, walletFee)
    case ConfirmHtlc(ok) =>
      if s.control != Unconfirmed then None else Some(s.(control := if ok then Confirmed else Stopped))
    case AddInvoice(outcome) => DoAddInvoice(s, outcome)
    case Lookup(answer) => DoLookup(s, answer)
    case ClaimHtlc(outcome) => DoClaim(t, s, outcome)
    case SettleInvoice(outcome) => DoSettle(t, s, outcome)
    case BuyerPays =>
      if s.invoice != Open || s.buyerLN < t.amount then None
      else Some(s.(invoice := Accepted, buyerLN := s.buyerLN - t.amount, heldLN := t.amount))
    case InvoiceExpires =>
      if s.invoice != Open && s.invoice != Accepted then None
      else Some(s.(invoice := Canceled, buyerLN := s.buyerLN + s.heldLN, heldLN := 0))
    case TimePasses(blocks, seconds) => Some(s.(age := Age(s.age.blocks + blocks, s.age.seconds + seconds)))
    case RefundHtlc =>
      if s.output != Unspent || !SequenceLock(t.timeout, s.age) || !Spendable(t) then None
      else Some(s.(output := Refunded, serviceLBTC := s.serviceLBTC + t.amount - t.fee, fees := s.fees + t.fee))
    case Crash => Some(s.(control := Stopped))
    // a restarted service that still has the fund result polls again
    case Resume => if s.control != Stopped || s.invoice == NoInvoice then None else Some(s.(control := Polling))
  }

  ghost predicate Reaches(t: Terms, s: State, steps: seq<Step>, s': State)
    decreases |steps|
  {
    if steps == [] then s == s'
    else Apply(t, s, steps[0]).Some? && Reaches(t, Apply(t, s, steps[0]).value, steps[1..], s')
  }

  predicate Initial(s: State) {
    && s.control == Start && s.invoice == NoInvoice && s.output == NoOutput && s.log == []
    && s.heldLN == 0 && s.escrow == 0 && s.fees == 0
  }

  function Total(t: Terms, s: State): nat {
    s.buyerLN + s.heldLN + s.serviceLN + s.serviceLBTC + LockedValue(s, t) + s.escrow + s.fees
  }

  // ------------------------------------------------------------ safety

  /** The order of events: a claim is tried only right after the invoice was seen accepted, and an
      invoice is settled only right after a claim that was answered. */
  predicate Ordered(log: seq<Event>) {
    forall i :: 0 <= i < |log| ==> InOrder(log, i)
  }

  predicate InOrder(log: seq<Event>, i: nat)
    requires i < |log|
  {
    && (log[i].ClaimCall? ==> i > 0 && log[i - 1] == Looked(Accepted))
    && (log[i].SettleCall? ==> i > 0 && log[i - 1] == ClaimCall(true))
  }

  predicate ControlMatchesLog(s: State) {
    && (s.control == Claiming ==> s.log != [] && Last(s.log) == Looked(Accepted))
    && (s.control == Settling ==> s.log != [] && Last(s.log) == ClaimCall(true))
  }

  /** Who has what, measured against the balances at the start. */
  predicate Accounts(t: Terms, start: State, s: State) {
    && Total(t, s) == Total(t, start)
    && s.heldLN == (if s.invoice == Accepted then t.amount else 0)
    && s.escrow == (if s.output == Claimed then t.amount - t.fee else 0)
    && s.buyerLN + (if s.invoice == Accepted || s.invoice == Settled then t.amount else 0) == start.buyerLN
    && s.serviceLN == start.serviceLN + (if s.invoice == Settled then t.amount else 0)
  }

  /** What the service, the invoice and the HTLC can be at the same time. */
  predicate Consistent(t: Terms, s: State) {
    && (s.output == Claimed || s.output == Refunded ==> Spendable(t))
    && (s.output == NoOutput ==> (s.control == Start || s.control == Stopped) && s.invoice == NoInvoice)
    && (s.control == Start ==> s.output == NoOutput)
    && (s.control == Settling || s.invoice == Settled ==> s.output == Claimed)
    && (s.control == Start || s.control == Unconfirmed || s.control == Confirmed ==> s.invoice == NoInvoice)
  }

  predicate Invariant(t: Terms, start: State, s: State) {
    Accounts(t, start, s) && Consistent(t, s) && Ordered(s.log) && ControlMatchesLog(s)
  }

  lemma InitialInvariant(t: Terms, s: State)
    requires Initial(s)
    ensures Invariant(t, s, s)
  {
  }

  lemma OrderedSnoc(log: seq<Event>, e: Event)
    requires Ordered(log)
    requires e.ClaimCall? ==> log != [] && Last(log) == Looked(Accepted)
    requires e.SettleCall? ==> log != [] && Last(log) == ClaimCall(true)
    ensures Ordered(log + [e]) && Last(log + [e]) == e
  {
    var longer := log + [e];
    forall i | 0 <= i < |longer| ensures InOrder(longer, i) {
      assert i < |log| ==> InOrder(log, i);
    }
  }

  /** Steps outside the service's control. */
  predicate Environmental(step: Step) {
    step.BuyerPays? || step.InvoiceExpires? || step.TimePasses? || step.RefundHtlc?
  }

  lemma ServiceAccounts(t: Terms, start: State, s: State, step: Step)
    requires Accounts(t, start, s) && Consistent(t, s) && Apply(t, s, step).Some?
    requires !Environmental(step) && !step.ClaimHtlc?
    ensures Accounts(t, start, Apply(t, s, step).value)
  {
    hide SequenceLock;
  }

  lemma ClaimAccounts(t: Terms, start: State, s: State, outcome: Outcome)
    requires Accounts(t, start, s) && Consistent(t, s) && Apply(t, s, ClaimHtlc(outcome)).Some?
    ensures Accounts(t, start, Apply(t, s, ClaimHtlc(outcome)).value)
  {
  }

  lemma EnvironmentAccounts(t: Terms, start: State, s: State, step: Step)
    requires Accounts(t, start, s) && Consistent(t, s) && Apply(t, s, step).Some? && Environmental(step)
    ensures Accounts(t, start, Apply(t, s, step).value)
  {
    hide SequenceLock;
  }

  lemma StepConsistent(t: Terms, s: State, step: Step)
    requires Consistent(t, s) && Apply(t, s, step).Some?
    ensures Consistent(t, Apply(t, s, step).value)
  {
    hide SequenceLock;
  }

  lemma StepLog(t: Terms, s: State, step: Step)
    requires Ordered(s.log) && ControlMatchesLog(s) && Apply(t, s, step).Some?
    ensures Ordered(Apply(t, s, step).value.log) && ControlMatchesLog(Apply(t, s, step).value)
  {
    hide Ordered, SequenceLock;
    var s' := Apply(t, s, step).value;
    if s'.log != s.log {
      assert s'.log == s.log + [Last(s'.log)];
      OrderedSnoc(s.log, Last(s'.log));
    }
  }

  lemma StepInvariant(t: Terms, start: State, s: State, step: Step)
    requires Invariant(t, start, s) && Apply(t, s, step).Some?
    ensures Invariant(t, start, Apply(t, s, step).value)
  {
    hide Apply, Ordered, ControlMatchesLog, Accounts, Consistent;
    if Environmental(step) {
      EnvironmentAccounts(t, start, s, step);
    } else if step.ClaimHtlc? {
      ClaimAccounts(t, start, s, step.outcome);
    } else {
      ServiceAccounts(t, start, s, step);
    }
    StepConsistent(t, s, step);
    StepLog(t, s, step);
  }

  lemma {:induction false} RunInvariant(t: Terms, start: State, s: State, steps: seq<Step>, s': State)
    requires Invariant(t, start, s) && Reaches(t, s, steps, s')
    ensures Invariant(t, start, s')
    decreases |steps|
  {
    hide Invariant, Apply;
    if steps != [] {
      StepInvariant(t, start, s, steps[0]);
      RunInvariant(t, start, Apply(t, s, steps[0]).value, steps[1..], s');
    }
  }

  /** What the service has: its two balances, an HTLC it can still take back, and the fees it paid. */
  function ServiceFunds(t: Terms, s: State): nat {
    s.serviceLN + s.serviceLBTC + s.fees + if s.output == Unspent && Spendable(t) then t.amount else 0
  }

  /** The two ways to lose the amount: an HTLC claimed without a settled invoice, and an HTLC too small
      to be spent at all. */
  predicate Lost(t: Terms, s: State) {
    || (s.output == Claimed && s.invoice != Settled)
    || (s.output == Unspent && !Spendable(t))
  }

  /** Safety over every run, with crashes, lost answers, untrue lookups, expiry and refunds anywhere: an
      invoice is settled only if the HTLC was claimed into an escrow output of the amount less the fee;
      all funds together stay the same; the buyer is never out of more than the fee; and the service is
      out of the amount, against the fee that its claim took from the escrow, exactly when it is lost. */
  lemma SwapIsSafe(t: Terms, start: State, steps: seq<Step>, s: State)
    requires Initial(start) && Reaches(t, start, steps, s)
    ensures s.invoice == Settled ==> s.output == Claimed && s.escrow == t.amount - t.fee
    ensures Total(t, s) == Total(t, start)
    ensures s.buyerLN + s.heldLN + s.escrow + t.fee >= start.buyerLN
    ensures s.invoice == Settled ==> s.buyerLN + s.escrow + t.fee == start.buyerLN
    ensures ServiceFunds(t, s) + (if Lost(t, s) then t.amount else 0)
         == ServiceFunds(t, start) + (if s.output == Claimed then t.fee else 0)
    ensures Ordered(s.log)
  {
    InitialInvariant(t, start);
    RunInvariant(t, start, start, steps, s);
  }

  /** An unspent HTLC can be taken back, in the end, exactly when it is worth more than fee and dust. */
  lemma RefundIsReachable(t: Terms, s: State)
    requires s.output == Unspent
    ensures (exists steps, s' :: Reaches(t, s, steps, s') && s'.output == Refunded) <==> Spendable(t)
  {
    if Spendable(t) {
      WaitAndRefund(t, s);
    }
    if steps, s' :| Reaches(t, s, steps, s') && s'.output == Refunded {
      RefundNeedsValue(t, s, steps, s');
    }
  }

  /** Longer than any lock can ask for. */
  const LONG_ENOUGH := TimePasses(0x1_0000, 0x1_0000 * 512)

  lemma WaitAndRefund(t: Terms, s: State)
    requires s.output == Unspent && Spendable(t)
    ensures exists steps, s' :: Reaches(t, s, steps, s') && s'.output == Refunded
  {
    var s1 := Apply(t, s, LONG_ENOUGH).value;
    assert SequenceLock(t.timeout, s1.age);
    var s2 := Apply(t, s1, RefundHtlc).value;
    var steps := [LONG_ENOUGH, RefundHtlc];
    assert steps[1..] == [RefundHtlc] && steps[1..][1..] == [];
    assert Reaches(t, s1, [RefundHtlc], s2);
    assert Reaches(t, s, steps, s2) && s2.output == Refunded;
  }

  lemma {:induction false} RefundNeedsValue(t: Terms, s: State, steps: seq<Step>, s': State)
    requires s.output != Refunded && Reaches(t, s, steps, s') && s'.output == Refunded
    ensures Spendable(t)
    decreases |steps|
  {
    hide SequenceLock;
    var s1 := Apply(t, s, steps[0]).value;
    if s1.output != Refunded {
      RefundNeedsValue(t, s1, steps[1..], s');
    }
  }

  /** A spent output stays spent the way it was: never both claimed and refunded, and the escrow output
      is never filled twice. */
  lemma {:induction false} SpendsOnce(t: Terms, s: State, steps: seq<Step>, s': State)
    requires s.control != Start && Reaches(t, s, steps, s')
    ensures s'.control != Start
    ensures s.output == Claimed ==> s'.output == Claimed && s'.escrow == s.escrow
    ensures s.output == Refunded ==> s'.output == Refunded && s'.escrow == s.escrow
    decreases |steps|
  {
    hide SequenceLock;
    if steps != [] {
      SpendsOnce(t, Apply(t, s, steps[0]).value, steps[1..], s');
    }
  }

  /** A refund before a claim is possible only after the timeout: with a block timeout in the 16-bit
      range, the HTLC is at least that many blocks old. */
  lemma RefundWaits(t: Terms, s: State)
    requires t.timeout <= 0xffff && Apply(t, s, RefundHtlc).Some?
    ensures s.age.blocks >= t.timeout && s.output == Unspent
  {
    EnforcesBlocks(t.timeout);
  }

  // ------------------------------------------------------------ answers of the lookup

  predicate OnlyOpens(events: seq<Event>) {
    forall e :: e in events ==> e == Looked(Open)
  }

  lemma StepLogs(t: Terms, s: State, step: Step)
    requires Apply(t, s, step).Some?
    ensures var s1 := Apply(t, s, step).value;
            s1.log == s.log || s1.log == s.log + [Last(s1.log)]
  {
    hide SequenceLock;
  }

  lemma {:induction false} LogGrows(t: Terms, s: State, steps: seq<Step>, s': State)
    requires Reaches(t, s, steps, s')
    ensures s.log <= s'.log
    decreases |steps|
  {
    hide Apply;
    if steps != [] {
      StepLogs(t, s, steps[0]);
      LogGrows(t, Apply(t, s, steps[0]).value, steps[1..], s');
    }
  }

  /** Nothing moved, but for an HTLC that was refunded. */
  predicate OnlyRefunded(s: State, s': State) {
    && s'.escrow == s.escrow && s'.serviceLN == s.serviceLN && (s'.invoice == Settled <==> s.invoice == Settled)
    && (s'.output == s.output || (s.output == Unspent && s'.output == Refunded))
    && (s'.output == s.output ==> s'.serviceLBTC == s.serviceLBTC && s'.fees == s.fees)
  }

  /** While all that the service sees is OPEN, any number of times, no funds move but the service's own:
      it can only get back an HTLC whose timeout is over. */
  lemma {:induction false} OpenRun(t: Terms, s: State, steps: seq<Step>, s': State, added: seq<Event>)
    requires Reaches(t, s, steps, s') && s'.log == s.log + added && OnlyOpens(added)
    ensures OnlyRefunded(s, s')
    decreases |steps|
  {
    hide Apply;
    if steps != [] {
      var s1 := Apply(t, s, steps[0]).value;
      LogGrows(t, s1, steps[1..], s');
      OpenStep(t, s, steps[0], added);
      var rest := added[|s1.log| - |s.log|..];
      assert forall e :: e in rest ==> e in added;
      OpenRun(t, s1, steps[1..], s', rest);
    }
  }

  /** A step that shows nothing, or an OPEN. */
  lemma QuietStep(t: Terms, s: State, step: Step)
    requires Apply(t, s, step).Some?
    requires var s1 := Apply(t, s, step).value; s1.log == s.log || s1.log == s.log + [Looked(Open)]
    ensures OnlyRefunded(s, Apply(t, s, step).value)
  {
    hide SequenceLock;
    var s1 := Apply(t, s, step).value;
    assert s1.log == s.log || Last(s1.log) == Looked(Open);
  }

  lemma OpenStep(t: Terms, s: State, step: Step, added: seq<Event>)
    requires Apply(t, s, step).Some? && Apply(t, s, step).value.log <= s.log + added && OnlyOpens(added)
    ensures var s1 := Apply(t, s, step).value;
            && |s.log| <= |s1.log| && |s1.log| - |s.log| <= |added|
            && s.log + added == s1.log + added[|s1.log| - |s.log|..]
            && OnlyRefunded(s, s1)
  {
    hide Apply, OnlyRefunded;
    var s1 := Apply(t, s, step).value;
    StepLogs(t, s, step);
    if s1.log != s.log {
      assert (s.log + added)[|s.log|] == s1.log[|s.log|] == Last(s1.log);
      assert Last(s1.log) == added[0] && added[0] in added;
    }
    QuietStep(t, s, step);
  }

  /** And what the buyer has, with what is held for the invoice, does not change either. */
  lemma OpenRunKeepsBuyer(t: Terms, start: State, s: State, steps: seq<Step>, s': State, added: seq<Event>)
    requires Invariant(t, start, s) && Reaches(t, s, steps, s') && s'.log == s.log + added && OnlyOpens(added)
    ensures s'.buyerLN + s'.heldLN == s.buyerLN + s.heldLN
  {
    hide Reaches;
    OpenRun(t, s, steps, s', added);
    RunInvariant(t, start, s, steps, s');
  }

  /** Every lookup of the run that is answered tells the state of the invoice at that moment. */
  ghost predicate Truthful(t: Terms, s: State, steps: seq<Step>)
    decreases |steps|
  {
    steps == [] ||
    (&& (steps[0].Lookup? && steps[0].answer.Some? ==> steps[0].answer.value == s.invoice)
     && (Apply(t, s, steps[0]).Some? ==> Truthful(t, Apply(t, s, steps[0]).value, steps[1..])))
  }

  /** The claim comes after the buyer's payment. */
  predicate PaidBeforeClaim(s: State) {
    && (s.control == Start || s.control == Unconfirmed || s.control == Confirmed ==> s.output != Claimed)
    && (s.control == Claiming || s.control == Settling || s.output == Claimed ==>
          s.invoice == Accepted || s.invoice == Settled || s.invoice == Canceled)
  }

  lemma TruthfulStep(t: Terms, s: State, step: Step)
    requires Apply(t, s, step).Some? && PaidBeforeClaim(s)
    requires step.Lookup? && step.answer.Some? ==> step.answer.value == s.invoice
    ensures PaidBeforeClaim(Apply(t, s, step).value)
  {
    hide SequenceLock;
  }

  /** With truthful lookups the HTLC is claimed only after the buyer's payment was held. */
  lemma {:induction false} TruthfulClaims(t: Terms, s: State, steps: seq<Step>, s': State)
    requires Reaches(t, s, steps, s') && Truthful(t, s, steps) && PaidBeforeClaim(s)
    ensures PaidBeforeClaim(s')
    decreases |steps|
  {
    hide Apply, PaidBeforeClaim;
    if steps != [] {
      TruthfulStep(t, s, steps[0]);
      TruthfulClaims(t, Apply(t, s, steps[0]).value, steps[1..], s');
    }
  }

  lemma {:induction false} ReachesAppend(t: Terms, a: State, first: seq<Step>, b: State, second: seq<Step>, c: State)
    requires Reaches(t, a, first, b) && Reaches(t, b, second, c)
    ensures Reaches(t, a, first + second, c)
    decreases |first|
  {
    hide Apply;
    if first == [] {
      assert first + second == second;
    } else {
      assert (first + second)[0] == first[0] && (first + second)[1..] == first[1..] + second;
      ReachesAppend(t, Apply(t, a, first[0]).value, first[1..], b, second, c);
    }
  }
}

/** The polling loop as it runs, refining the state machine. */
module SwapService {
  import opened Basics
  import opened Swap
  import opened RelativeLocks

  /** What happens around one iteration: time running out, events before the lookup, and its answer. */
  datatype Poll = Poll(cancelled: bool, before: seq<Step>, answer: Option<Invoice>)

  /** The log of one call of the poll loop: any number of open answers, then at most one claim, then at
      most one settlement. */
  predicate PollLog(log: seq<Event>)
    decreases |log|
  {
    log == [] ||
    match log[0]
    case LookupFailed => |log| == 1
    case Looked(Open) => PollLog(log[1..])
    case Looked(Accepted) =>
      || log[1..] == [ClaimCall(false)]
      || log[1..] == [ClaimCall(true), SettleCall(false)]
      || log[1..] == [ClaimCall(true), SettleCall(true)]
    case Looked(_) => |log| == 1
    case _ => false
  }

  function Claims(log: seq<Event>): nat {
    if log == [] then 0 else (if log[0].ClaimCall? then 1 else 0) + Claims(log[1..])
  }

  function Settlements(log: seq<Event>): nat {
    if log == [] then 0 else (if log[0].SettleCall? then 1 else 0) + Settlements(log[1..])
  }

  lemma Counts(e: Event, rest: seq<Event>)
    ensures Claims([e] + rest) == (if e.ClaimCall? then 1 else 0) + Claims(rest)
    ensures Settlements([e] + rest) == (if e.SettleCall? then 1 else 0) + Settlements(rest)
  {
    assert ([e] + rest)[1..] == rest;
  }

  lemma ClaimTail(rest: seq<Event>)
    requires PollLog([Looked(Accepted)] + rest)
    ensures Claims(rest) == 1 && Settlements(rest) <= 1
    ensures Settlements(rest) == 1 ==> ClaimCall(true) in rest
    ensures rest != [] && (SettleCall(true) in rest ==> Last(rest) == SettleCall(true))
  {
    assert ([Looked(Accepted)] + rest)[1..] == rest;
    Counts(rest[0], []);
    assert [rest[0]] + [] == [rest[0]];
    if |rest| == 2 {
      Counts(rest[1], []);
      assert [rest[1]] + [] == [rest[1]];
      Counts(rest[0], [rest[1]]);
      assert rest == [rest[0]] + [rest[1]];
    } else {
      assert rest == [rest[0]];
    }
  }

  /** One call claims at most once and settles at most once, and settles only after its claim was
      answered. */
  lemma {:induction false} AtMostOnce(log: seq<Event>)
    requires PollLog(log)
    ensures Claims(log) <= 1 && Settlements(log) <= Claims(log)
    ensures Settlements(log) == 1 ==> ClaimCall(true) in log
    ensures SettleCall(true) in log ==> Last(log) == SettleCall(true)
    decreases |log|
  {
    if log != [] {
      var e, rest := log[0], log[1..];
      assert log == [e] + rest;
      Counts(e, rest);
      if e == Looked(Open) {
        AtMostOnce(rest);
      } else if e == Looked(Accepted) {
        ClaimTail(rest);
      } else {
        assert rest == [];
      }
    }
  }

  function Opens(n: nat): seq<Event> {
    seq(n, _ => Looked(Open))
  }

  lemma {:induction false} OpenPrefix(n: nat, tail: seq<Event>)
    requires PollLog(tail)
    ensures PollLog(Opens(n) + tail)
    ensures SettleCall(true) in Opens(n) + tail <==> SettleCall(true) in tail
  {
    var log := Opens(n) + tail;
    if n == 0 {
      assert log == tail;
    } else {
      OpenPrefix(n - 1, tail);
      assert log[1..] == Opens(n - 1) + tail;
      assert log == [Looked(Open)] + log[1..];
    }
  }

  lemma Arrived(t: Terms, s: State)
    ensures Reaches(t, s, [], s) && After(t, s, []) == s && s.log + Opens(0) == s.log
  {
  }

  lemma OpensAlone(t: Terms, s: State, trace: seq<Step>, s': State, n: nat)
    requires Reaches(t, s, trace, s') && s'.log == s.log + Opens(n)
    ensures PollLog(Opens(n)) && SettleCall(true) !in Opens(n)
    ensures OnlyRefunded(s, s')
  {
    hide Reaches, Apply;
    OpenPrefix(n, []);
    assert Opens(n) + [] == Opens(n);
    OpenRun(t, s, trace, s', Opens(n));
  }

  /** The loop ends with an answer that is neither OPEN nor ACCEPTED, or with none. */
  lemma StopsAfter(n: nat, event: Event)
    requires event == LookupFailed || (event.Looked? && event.state != Open && event.state != Accepted)
    ensures PollLog(Opens(n) + [event]) && SettleCall(true) !in Opens(n) + [event] && !OnlyOpens(Opens(n) + [event])
  {
    assert [event][1..] == [];
    OpenPrefix(n, [event]);
    assert event in Opens(n) + [event];
  }

  ghost function WithClaim(n: nat, calls: seq<Event>): seq<Event> {
    Opens(n) + ([Looked(Accepted)] + calls)
  }

  lemma ClaimAfterOpens(n: nat, calls: seq<Event>)
    requires calls == [ClaimCall(false)] || calls == [ClaimCall(true), SettleCall(false)] ||
             calls == [ClaimCall(true), SettleCall(true)]
    ensures PollLog(WithClaim(n, calls)) && !OnlyOpens(WithClaim(n, calls))
    ensures SettleCall(true) in WithClaim(n, calls) <==> SettleCall(true) in calls
  {
    var tail := [Looked(Accepted)] + calls;
    assert tail[1..] == calls;
    OpenPrefix(n, tail);
    assert Looked(Accepted) in WithClaim(n, calls);
  }

  // ------------------------------------------------------------ what the calls come to

  /** All that is outside the service during one call of the loop. */
  datatype Schedule = Schedule(
    polls: seq<Poll>, beforeClaim: seq<Step>, claim: Outcome, beforeSettle: seq<Step>, settle: Outcome)

  ghost predicate ValidSchedule(plan: Schedule) {
    && (forall poll, step :: poll in plan.polls && step in poll.before ==> Environmental(step))
    && (forall step :: step in plan.beforeClaim || step in plan.beforeSettle ==> Environmental(step))
  }

  function Attempt(t: Terms, s: State, step: Step): State {
    if Apply(t, s, step).Some? then Apply(t, s, step).value else s
  }

  /** The state after some steps; those that cannot happen do not. */
  function After(t: Terms, s: State, steps: seq<Step>): State
    decreases |steps|
  {
    if steps == [] then s else After(t, Attempt(t, s, steps[0]), steps[1..])
  }

  lemma {:induction false} AfterAppend(t: Terms, s: State, a: seq<Step>, b: seq<Step>)
    ensures After(t, s, a + b) == After(t, After(t, s, a), b)
    decreases |a|
  {
    hide Attempt;
    if a == [] {
      assert a + b == b;
    } else {
      assert (a + b)[0] == a[0] && (a + b)[1..] == a[1..] + b;
      AfterAppend(t, Attempt(t, s, a[0]), a[1..], b);
    }
  }

  /** Steps that can all happen do all happen. */
  lemma {:induction false} AfterRuns(t: Terms, s: State, steps: seq<Step>, s': State)
    requires Reaches(t, s, steps, s')
    ensures After(t, s, steps) == s'
    decreases |steps|
  {
    hide Apply;
    if steps != [] {
      AfterRuns(t, Apply(t, s, steps[0]).value, steps[1..], s');
    }
  }

  lemma AfterOne(t: Terms, s: State, steps: seq<Step>, step: Step)
    ensures After(t, s, steps + [step]) == Attempt(t, After(t, s, steps), step)
  {
    hide Attempt;
    AfterAppend(t, s, steps, [step]);
    assert [step][1..] == [];
    assert After(t, Attempt(t, After(t, s, steps), step), []) == Attempt(t, After(t, s, steps), step);
  }

  /** Outside events neither see nor change where the service is and what it logged. */
  lemma {:induction false} EnvironmentIsBlind(t: Terms, s: State, steps: seq<Step>, control: Control, log: seq<Event>)
    requires forall step :: step in steps ==> Environmental(step)
    ensures After(t, s.(control := control, log := log), steps) ==
            After(t, s, steps).(control := control, log := log)
    ensures After(t, s, steps).control == s.control && After(t, s, steps).log == s.log
    decreases |steps|
  {
    hide Apply;
    if steps != [] {
      assert steps[0] in steps && forall step :: step in steps[1..] ==> step in steps;
      EventIsBlind(t, s, steps[0], control, log);
      EnvironmentIsBlind(t, Attempt(t, s, steps[0]), steps[1..], control, log);
    }
  }

  lemma EventIsBlind(t: Terms, s: State, step: Step, control: Control, log: seq<Event>)
    requires Environmental(step)
    ensures Attempt(t, s.(control := control, log := log), step) ==
            Attempt(t, s, step).(control := control, log := log)
    ensures Attempt(t, s, step).control == s.control && Attempt(t, s, step).log == s.log
  {
    hide SequenceLock;
  }

  lemma {:induction false} EventsKeepAccounts(t: Terms, start: State, s: State, steps: seq<Step>)
    requires Accounts(t, start, s) && Consistent(t, s) && forall step :: step in steps ==> Environmental(step)
    ensures Accounts(t, start, After(t, s, steps)) && Consistent(t, After(t, s, steps))
    ensures s.output == Claimed ==> After(t, s, steps).output == Claimed
    decreases |steps|
  {
    hide Accounts, Consistent, SequenceLock;
    if steps != [] {
      assert steps[0] in steps && forall step :: step in steps[1..] ==> step in steps;
      if Apply(t, s, steps[0]).Some? {
        EnvironmentAccounts(t, start, s, steps[0]);
        StepConsistent(t, s, steps[0]);
      }
      EventsKeepAccounts(t, start, Attempt(t, s, steps[0]), steps[1..]);
    }
  }

  /** The HTLC funded from the wallet, at no age. */
  function Locked(t: Terms, s: State, walletFee: nat): State {
    if s.serviceLBTC < t.amount + walletFee then s
    else s.(output := Unspent, age := Age(0, 0), fees := s.fees + walletFee,
            serviceLBTC := s.serviceLBTC - t.amount - walletFee)
  }

  /** The HTLC moved into the escrow. */
  function Claim(t: Terms, s: State): State
    requires Spendable(t)
  {
    s.(output := Claimed, escrow := s.escrow + t.amount - t.fee, fees := s.fees + t.fee)
  }

  /** The held payment paid out to the service. */
  function Settle(s: State): State {
    s.(invoice := Settled, serviceLN := s.serviceLN + s.heldLN, heldLN := 0)
  }

  /** When the claim is answered, and the settlement after it: both nodes do as they are told, the HTLC is
      there and worth spending, and the payment is still held after what happens in between. */
  predicate ClaimSucceeds(t: Terms, s: State, claim: Outcome) {
    claim == Done && s.output == Unspent && Spendable(t)
  }

  predicate Succeeds(t: Terms, s: State, claim: Outcome, beforeSettle: seq<Step>, settle: Outcome) {
    && ClaimSucceeds(t, s, claim) && settle == Done
    && After(t, Claim(t, s), beforeSettle).invoice == Accepted
  }

  /** Polls up to number `n` go on, all before it see OPEN, and it sees ACCEPTED. */
  predicate AcceptedAt(polls: seq<Poll>, n: nat) {
    && n < |polls| && (forall i :: 0 <= i <= n ==> !polls[i].cancelled)
    && (forall i :: 0 <= i < n ==> polls[i].answer == Some(Open))
    && polls[n].answer == Some(Accepted)
  }

  /** What a success comes to, whatever happens around the calls: the service has the amount on Lightning,
      the escrow holds the amount less the fee, and the buyer has paid. */
  lemma SuccessPays(t: Terms, start: State, s: State, before: seq<Step>, claim: Outcome, beforeSettle: seq<Step>,
                    settle: Outcome)
    requires Accounts(t, start, s) && Consistent(t, s) && (s.control == Polling || s.control == Claiming)
    requires forall step :: step in before || step in beforeSettle ==> Environmental(step)
    requires Succeeds(t, After(t, s, before), claim, beforeSettle, settle)
    ensures var end := Settle(After(t, Claim(t, After(t, s, before)), beforeSettle));
            && end.output == Claimed && end.escrow == t.amount - t.fee
            && end.invoice == Settled && end.heldLN == 0
            && end.serviceLN == start.serviceLN + t.amount && end.buyerLN + t.amount == start.buyerLN
  {
    hide After;
    EventsKeepAccounts(t, start, s, before);
    EnvironmentIsBlind(t, s, before, s.control, s.log);
    EventsKeepAccounts(t, start, Claim(t, After(t, s, before)), beforeSettle);
  }

  /** All that happens up to the lookup of poll number `n - 1`. */
  function EventsBefore(polls: seq<Poll>, n: nat): seq<Step>
    requires n <= |polls|
  {
    if n == 0 then [] else EventsBefore(polls, n - 1) + polls[n - 1].before
  }

  /** The state in which the claim is made, when poll number `n` saw ACCEPTED. */
  function Paying(t: Terms, s: State, plan: Schedule, n: nat): State
    requires n < |plan.polls|
  {
    After(t, s, EventsBefore(plan.polls, n + 1) + plan.beforeClaim)
  }

  /** The loop succeeds: some poll sees ACCEPTED after nothing but OPEN, and claim and settlement succeed. */
  ghost predicate LoopSucceeds(t: Terms, s: State, plan: Schedule) {
    exists n: nat :: AcceptedAt(plan.polls, n) &&
                     Succeeds(t, Paying(t, s, plan, n), plan.claim, plan.beforeSettle, plan.settle)
  }

  /** The state after a success, but for the log. */
  ghost predicate PaidOut(t: Terms, s: State, plan: Schedule, end: State) {
    exists n: nat :: AcceptedAt(plan.polls, n) && ClaimSucceeds(t, Paying(t, s, plan, n), plan.claim) &&
                     end == Settle(After(t, Claim(t, Paying(t, s, plan, n)), plan.beforeSettle))
                              .(control := Finished, log := end.log)
  }

  class Service {
    const terms: Terms
    var state: State

    constructor (terms: Terms, state: State)
      ensures this.terms == terms && this.state == state
    {
      this.terms, this.state := terms, state;
    }

    /** One step, if it is possible. */
    method Do(step: Step) returns (done: bool)
      modifies this
      ensures done == Apply(terms, old(state), step).Some?
      ensures state == if done then Apply(terms, old(state), step).value else old(state)
    {
      var next := Apply(terms, state, step);
      if next.Some? {
        state := next.value;
      }
      return next.Some?;
    }

    /** Events outside the service; those that cannot happen do not. */
    method Environment(steps: seq<Step>) returns (ghost trace: seq<Step>)
      requires forall step :: step in steps ==> Environmental(step)
      modifies this
      ensures Reaches(terms, old(state), trace, state) && state == After(terms, old(state), steps)
      ensures state.control == old(state).control && state.log == old(state).log
    {
      hide Apply;
      trace := [];
      assert steps[..0] == [];
      for i := 0 to |steps|
        invariant Reaches(terms, old(state), trace, state) && state == After(terms, old(state), steps[..i])
      {
        ghost var before := state;
        var done := Do(steps[i]);
        AfterOne(terms, old(state), steps[..i], steps[i]);
        assert steps[..i + 1] == steps[..i] + [steps[i]];
        if done {
          Extend(terms, old(state), trace, before, steps[i]);
          trace := trace + [steps[i]];
        }
      }
      assert steps[..|steps|] == steps;
      EnvironmentIsBlind(terms, old(state), steps, old(state).control, old(state).log);
    }

    /** Steps 2 and 3: no invoice is offered before the HTLC is funded and confirmed. A wallet that cannot
        pay counts as a refusal. */
    method FundWithHTLC(fund: Outcome, walletFee: nat, beforeBlock: seq<Step>, confirmed: bool,
                        beforeInvoice: seq<Step>, invoice: Outcome)
      returns (ok: bool, ghost trace: seq<Step>, ghost added: seq<Event>)
      requires state.control == Start
      requires forall step :: step in beforeBlock || step in beforeInvoice ==> Environmental(step)
      modifies this
      ensures Reaches(terms, old(state), trace, state) && state.log == old(state).log + added
      ensures added == [] || added == [HtlcFunded] || added == [HtlcFunded, InvoiceAdded]
      ensures ok <==> CanFund(terms, old(state), fund, walletFee) && confirmed && invoice == Done
      ensures ok ==> added == [HtlcFunded, InvoiceAdded]
      ensures ok ==> state == After(terms, Locked(terms, old(state), walletFee), beforeBlock + beforeInvoice)
                                .(control := Polling, invoice := Open, log := old(state).log + added)
      ensures !ok ==> state.control == Stopped
    {
      hide Apply, After, Locked;
      ghost var start := state;
      trace := [];
      var step := FundHtlc(fund, walletFee);
      var done := Do(step);
      if !done {
        step := FundHtlc(Refused, walletFee);
        done := Do(step);
      }
      FundEnds(terms, start, fund, walletFee);
      Extend(terms, start, trace, start, step);
      trace := trace + [step];
      if state.control != Unconfirmed {
        added := state.log[|start.log|..];
        return false, trace, added;
      }
      ghost var s := state;
      ghost var more := Environment(beforeBlock);
      ReachesAppend(terms, start, trace, s, more, state);
      trace := trace + more;
      ghost var s1 := state;
      done := Do(ConfirmHtlc(confirmed));
      ConfirmEnds(terms, s1, confirmed);
      Extend(terms, start, trace, s1, ConfirmHtlc(confirmed));
      trace := trace + [ConfirmHtlc(confirmed)];
      if state.control != Confirmed {
        return false, trace, [HtlcFunded];
      }
      ghost var s2 := state;
      more := Environment(beforeInvoice);
      ReachesAppend(terms, start, trace, s2, more, state);
      trace := trace + more;
      ghost var s3 := state;
      done := Do(AddInvoice(invoice));
      AddInvoiceEnds(terms, s3, invoice);
      Extend(terms, start, trace, s3, AddInvoice(invoice));
      trace := trace + [AddInvoice(invoice)];
      ok := state.control == Polling;
      added := state.log[|start.log|..];
      if ok {
        FundedState(terms, Locked(terms, start, walletFee), s, beforeBlock, s2, beforeInvoice);
      }
    }

    /** Steps 6 and 7: the claim, and if it is answered, the settlement. A call that the node could not
        carry out counts as refused. */
    method ClaimAndSettle(beforeClaim: seq<Step>, claim: Outcome, beforeSettle: seq<Step>, settle: Outcome)
      returns (ok: bool, ghost trace: seq<Step>, ghost added: seq<Event>)
      requires state.control == Claiming
      requires forall step :: step in beforeClaim || step in beforeSettle ==> Environmental(step)
      modifies this
      ensures Reaches(terms, old(state), trace, state) && state.log == old(state).log + added
      ensures ok <==> SettleCall(true) in added
      ensures var paying := After(terms, old(state), beforeClaim);
              && (ok <==> Succeeds(terms, paying, claim, beforeSettle, settle))
              && added == (if ClaimSucceeds(terms, paying, claim) then [ClaimCall(true), SettleCall(ok)]
                           else [ClaimCall(false)])
              && (ok ==> state == Settle(After(terms, Claim(terms, paying), beforeSettle))
                                    .(control := Finished, log := old(state).log + added))
    {
      hide Apply, After;
      ghost var start := state;
      trace := Environment(beforeClaim);
      ghost var paying := state;
      var done := Do(ClaimHtlc(claim));
      ghost var step := ClaimHtlc(claim);
      if !done {
        done := Do(ClaimHtlc(Refused));
        step := ClaimHtlc(Refused);
      }
      ClaimEnds(terms, paying, claim);
      Extend(terms, start, trace, paying, step);
      trace := trace + [step];
      if state.control != Settling {
        return false, trace, [ClaimCall(false)];
      }
      ghost var claimed := state;
      ghost var more := Environment(beforeSettle);
      ReachesAppend(terms, start, trace, claimed, more, state);
      trace := trace + more;
      ghost var held := state;
      EnvironmentIsBlind(terms, Claim(terms, paying), beforeSettle, claimed.control, claimed.log);
      done := Do(SettleInvoice(settle));
      step := SettleInvoice(settle);
      if !done {
        done := Do(SettleInvoice(Refused));
        step := SettleInvoice(Refused);
      }
      SettleEnds(terms, held, settle);
      Extend(terms, start, trace, held, step);
      trace := trace + [step];
      ok := state.control == Finished;
      added := [ClaimCall(true), SettleCall(ok)];
    }

    /** One iteration of the loop up to the answer of the lookup. */
    method PollOnce(poll: Poll) returns (ghost trace: seq<Step>, ghost event: Event)
      requires state.control == Polling
      requires forall step :: step in poll.before ==> Environmental(step)
      modifies this
      ensures Reaches(terms, old(state), trace, state) && state.log == old(state).log + [event]
      ensures event == if poll.answer.None? then LookupFailed else Looked(poll.answer.value)
      ensures state == After(terms, old(state), poll.before).(control := AfterAnswer(event), log := state.log)
    {
      hide Apply, After;
      trace := Environment(poll.before);
      ghost var s := state;
      var done := Do(Lookup(poll.answer));
      LookupEnds(terms, s, poll.answer);
      Extend(terms, old(state), trace, s, Lookup(poll.answer));
      trace := trace + [Lookup(poll.answer)];
      event := Last(state.log);
    }

    /** WaitForPaymentClaimAndSettle from the point where the service starts to poll. The schedule says
        what happens in between and what the lookups answer; when it is used up the context has ended. */
    method WaitForPaymentClaimAndSettle(plan: Schedule)
      returns (ok: bool, ghost trace: seq<Step>, ghost added: seq<Event>)
      requires state.control == Polling && ValidSchedule(plan)
      modifies this
      ensures Reaches(terms, old(state), trace, state)
      ensures state.log == old(state).log + added && PollLog(added)
      ensures OnlyOpens(added) ==> OnlyRefunded(old(state), state)
      ensures ok <==> SettleCall(true) in added
      ensures ok <==> LoopSucceeds(terms, old(state), plan)
      ensures ok ==> PaidOut(terms, old(state), plan, state)
    {
      hide Apply, PollLog, Reaches, OnlyRefunded, After, Succeeds, LoopSucceeds, PaidOut;
      var polls := plan.polls;
      trace := [];
      ghost var start := state;
      Arrived(terms, start);
      for i := 0 to |polls|
        invariant Reaches(terms, start, trace, state) && state.log == start.log + Opens(i)
        invariant forall k :: 0 <= k < i ==> !polls[k].cancelled && polls[k].answer == Some(Open)
        invariant state == After(terms, start, EventsBefore(polls, i)).(control := Polling, log := state.log)
      {
        if polls[i].cancelled {
          added := Opens(i);
          OpensAlone(terms, start, trace, state, i);
          NeverAccepted(terms, start, plan, i);
          return false, trace, added;
        }
        ghost var s := state;
        ghost var more, event := PollOnce(polls[i]);
        ReachesAppend(terms, start, trace, s, more, state);
        trace := trace + more;
        PollJoins(terms, start, polls, i, s, state);
        assert state.log == start.log + (Opens(i) + [event]);

        if state.control == Claiming {
          s := state;
          ok, more, added := ClaimAndSettle(plan.beforeClaim, plan.claim, plan.beforeSettle, plan.settle);
          ReachesAppend(terms, start, trace, s, more, state);
          trace := trace + more;
          ClaimJoins(terms, start, plan, i, s, ok, state);
          ClaimAfterOpens(i, added);
          added := WithClaim(i, added);
          assert state.log == start.log + added;
          return;
        }
        if state.control != Polling {
          added := Opens(i) + [event];
          StopsAfter(i, event);
          NeverAccepted(terms, start, plan, i);
          return false, trace, added;
        }
        assert Opens(i) + [event] == Opens(i + 1);
      }
      added := Opens(|polls|);
      OpensAlone(terms, start, trace, state, |polls|);
      NeverAccepted(terms, start, plan, |polls|);
      ok := false;
    }
  }

  // ------------------------------------------------------------ steps of the loop

  lemma Extend(t: Terms, start: State, trace: seq<Step>, s: State, step: Step)
    requires Reaches(t, start, trace, s) && Apply(t, s, step).Some?
    ensures Reaches(t, start, trace + [step], Apply(t, s, step).value)
  {
    hide Apply;
    assert [step][1..] == [];
    assert Reaches(t, Apply(t, s, step).value, [step][1..], Apply(t, s, step).value);
    ReachesAppend(t, start, trace, s, [step], Apply(t, s, step).value);
  }

  predicate CanFund(t: Terms, s: State, fund: Outcome, walletFee: nat) {
    fund == Done && s.serviceLBTC >= t.amount + walletFee
  }

  lemma FundEnds(t: Terms, s: State, outcome: Outcome, walletFee: nat)
    requires s.control == Start
    ensures Apply(t, s, FundHtlc(Refused, walletFee)).Some?
    ensures var asked := Apply(t, s, FundHtlc(outcome, walletFee));
            var s' := if asked.Some? then asked.value else Apply(t, s, FundHtlc(Refused, walletFee)).value;
            if CanFund(t, s, outcome, walletFee) then
              s' == Locked(t, s, walletFee).(control := Unconfirmed, log := s.log + [HtlcFunded])
            else
              s'.control == Stopped && (s'.log == s.log || s'.log == s.log + [HtlcFunded])
  {
  }

  lemma ConfirmEnds(t: Terms, s: State, ok: bool)
    requires s.control == Unconfirmed
    ensures Apply(t, s, ConfirmHtlc(ok)) == Some(s.(control := if ok then Confirmed else Stopped))
  {
  }

  lemma AddInvoiceEnds(t: Terms, s: State, outcome: Outcome)
    requires s.control == Confirmed
    ensures Apply(t, s, AddInvoice(outcome)).Some?
    ensures var s' := Apply(t, s, AddInvoice(outcome)).value;
            if outcome == Done then
              s' == s.(control := Polling, invoice := Open, log := s.log + [InvoiceAdded])
            else
              s'.control == Stopped && (s'.log == s.log || s'.log == s.log + [InvoiceAdded])
  {
  }

  /** The events around the confirmation happen to the funded HTLC. */
  lemma FundedState(t: Terms, funded: State, s: State, beforeBlock: seq<Step>, s2: State, beforeInvoice: seq<Step>)
    requires forall step :: step in beforeBlock || step in beforeInvoice ==> Environmental(step)
    requires s == funded.(control := s.control, log := s.log)
    requires s2 == After(t, s, beforeBlock).(control := s2.control, log := s2.log)
    ensures After(t, s2, beforeInvoice) ==
            After(t, funded, beforeBlock + beforeInvoice).(control := s2.control, log := s2.log)
  {
    hide After;
    EnvironmentIsBlind(t, funded, beforeBlock, s.control, s.log);
    EnvironmentIsBlind(t, After(t, funded, beforeBlock), beforeInvoice, s2.control, s2.log);
    AfterAppend(t, funded, beforeBlock, beforeInvoice);
  }

  lemma LookupEnds(t: Terms, s: State, answer: Option<Invoice>)
    requires s.control == Polling
    ensures Apply(t, s, Lookup(answer)).Some?
    ensures var s' := Apply(t, s, Lookup(answer)).value;
            var event := if answer.None? then LookupFailed else Looked(answer.value);
            s' == s.(control := AfterAnswer(event), log := s.log + [event]) && Last(s'.log) == event
  {
  }

  /** One more poll, seen from the start of the loop. */
  lemma PollJoins(t: Terms, start: State, polls: seq<Poll>, i: nat, s: State, s': State)
    requires i < |polls| && forall poll, step :: poll in polls && step in poll.before ==> Environmental(step)
    requires s == After(t, start, EventsBefore(polls, i)).(control := s.control, log := s.log)
    requires s' == After(t, s, polls[i].before).(control := s'.control, log := s'.log)
    ensures s' == After(t, start, EventsBefore(polls, i + 1)).(control := s'.control, log := s'.log)
  {
    hide After;
    assert polls[i] in polls;
    EnvironmentIsBlind(t, After(t, start, EventsBefore(polls, i)), polls[i].before, s.control, s.log);
    AfterAppend(t, start, EventsBefore(polls, i), polls[i].before);
  }

  /** A loop that ends without seeing ACCEPTED. */
  lemma NeverAccepted(t: Terms, s: State, plan: Schedule, i: nat)
    requires i <= |plan.polls| && forall k :: 0 <= k < i ==> plan.polls[k].answer == Some(Open)
    requires i < |plan.polls| ==>
               var poll := plan.polls[i];
               poll.cancelled || (poll.answer != Some(Open) && poll.answer != Some(Accepted))
    ensures !LoopSucceeds(t, s, plan)
  {
    hide Succeeds, Paying;
    assert forall n: nat :: !AcceptedAt(plan.polls, n);
  }

  lemma ClaimEnds(t: Terms, s: State, outcome: Outcome)
    requires s.control == Claiming
    ensures Apply(t, s, ClaimHtlc(Refused)).Some?
    ensures var asked := Apply(t, s, ClaimHtlc(outcome));
            var s' := if asked.Some? then asked.value else Apply(t, s, ClaimHtlc(Refused)).value;
            if ClaimSucceeds(t, s, outcome) then
              s' == Claim(t, s).(control := Settling, log := s.log + [ClaimCall(true)])
            else
              s'.control == Stopped && s'.log == s.log + [ClaimCall(false)]
  {
  }

  lemma SettleEnds(t: Terms, s: State, outcome: Outcome)
    requires s.control == Settling
    ensures Apply(t, s, SettleInvoice(Refused)).Some?
    ensures var asked := Apply(t, s, SettleInvoice(outcome));
            var s' := if asked.Some? then asked.value else Apply(t, s, SettleInvoice(Refused)).value;
            if outcome == Done && s.invoice == Accepted then
              s' == Settle(s).(control := Finished, log := s.log + [SettleCall(true)])
            else
              s'.control == Stopped && s'.log == s.log + [SettleCall(false)]
  {
  }

  /** The claim after poll number `i`, seen from the start of the loop. */
  lemma ClaimJoins(t: Terms, start: State, plan: Schedule, i: nat, s: State, ok: bool, end: State)
    requires AcceptedAt(plan.polls, i) && ValidSchedule(plan)
    requires s == After(t, start, EventsBefore(plan.polls, i + 1)).(control := s.control, log := s.log)
    requires ok <==> Succeeds(t, After(t, s, plan.beforeClaim), plan.claim, plan.beforeSettle, plan.settle)
    requires ok ==> end == Settle(After(t, Claim(t, After(t, s, plan.beforeClaim)), plan.beforeSettle))
                             .(control := Finished, log := end.log)
    ensures ok <==> LoopSucceeds(t, start, plan)
    ensures ok ==> PaidOut(t, start, plan, end)
  {
    hide After;
    var before := EventsBefore(plan.polls, i + 1);
    EnvironmentIsBlind(t, After(t, start, before), plan.beforeClaim, s.control, s.log);
    AfterAppend(t, start, before, plan.beforeClaim);
    var seen, paying := After(t, s, plan.beforeClaim), Paying(t, start, plan, i);
    if ClaimSucceeds(t, seen, plan.claim) {
      EnvironmentIsBlind(t, Claim(t, paying), plan.beforeSettle, s.control, s.log);
      assert Claim(t, seen) == Claim(t, paying).(control := s.control, log := s.log);
    }
    assert forall n: nat :: AcceptedAt(plan.polls, n) ==> n == i;
  }
}
