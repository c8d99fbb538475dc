/** The synchronous write scheduler: one frame of every bus that has any, round after round. */
module BusManagers {
  import opened CanMsgs
  import opened Buses

  /** The scheduler writes on this bus now. */
  predicate Eligible(q: Output) {
    q.mode != Asynchronous && !q.passive && q.pending != []
  }

  /** One round for one bus. */
  function Turn(q: Output): Output {
    if Eligible(q) then AfterWrite(q) else q
  }

  predicate TurnSucceeds(q: Output) {
    Eligible(q) ==> NextOutcome(q) == Written
  }

  function Rounds(q: Output, k: nat): Output {
    if k == 0 then q else Turn(Rounds(q, k - 1))
  }

  /** No write of the first `k` rounds fails. */
  predicate RoundsSucceed(q: Output, k: nat) {
    k == 0 || (RoundsSucceed(q, k - 1) && TurnSucceeds(Rounds(q, k - 1)))
  }

  function Failures(outcomes: seq<Outcome>): (n: nat)
  {
    if outcomes == [] then 0 else (if outcomes[0] == Written then 0 else 1) + Failures(outcomes[1..])
  }

  /** The writes left on a bus: its frames and the failures still to come. */
  function Work(q: Output): nat {
    if Eligible(q) then |q.pending| + Failures(q.outcomes) else 0
  }

  function TotalWork(qs: seq<Output>): nat {
    if qs == [] then 0 else Work(qs[0]) + TotalWork(qs[1..])
  }

  lemma TurnLowersWork(q: Output)
    ensures Work(Turn(q)) <= Work(q)
    ensures Eligible(q) ==> Work(Turn(q)) < Work(q)
  {}

  // ---------------------------------------------------------------- what the rounds achieve

  function Min(a: nat, b: nat): nat { if a < b then a else b }

  /** The outcomes of the next `k` writes are all successes. */
  predicate NextAllWritten(q: Output, k: nat) {
    forall j | 0 <= j < Min(k, |q.outcomes|) :: q.outcomes[j] == Written
  }

  predicate Served(q: Output) {
    q.mode != Asynchronous && !q.passive
  }

  lemma {:induction false} RoundsOnUnserved(q: Output, k: nat)
    requires !Served(q)
    ensures Rounds(q, k) == q && RoundsSucceed(q, k)
  {
    if k > 0 { RoundsOnUnserved(q, k - 1); }
  }

  /** A successful write extends what has been sent by the next frame. */
  lemma OneMoreFrame(q: Output, r: Output, m: nat)
    requires m < |q.pending| && (m < |q.outcomes| ==> q.outcomes[m] == Written)
    requires r.wire == q.wire + q.pending[..m] && r.pending == q.pending[m..]
    requires r.outcomes == q.outcomes[Min(m, |q.outcomes|)..]
    ensures NextOutcome(r) == Written
    ensures AfterWrite(r).wire == q.wire + q.pending[..m + 1] && AfterWrite(r).pending == q.pending[m + 1..]
    ensures AfterWrite(r).outcomes == q.outcomes[Min(m + 1, |q.outcomes|)..]
    ensures AfterWrite(r).mode == r.mode && AfterWrite(r).passive == r.passive
  {
    assert q.pending[..m + 1] == q.pending[..m] + [q.pending[m]];
  }

  /** When the next writes succeed, `k` rounds send the first min(k, n) frames. */
  lemma {:induction false} RoundRobin(q: Output, k: nat)
    requires Served(q) && NextAllWritten(q, Min(k, |q.pending|))
    ensures RoundsSucceed(q, k)
    ensures var n, r := Min(k, |q.pending|), Rounds(q, k);
      && r.wire == q.wire + q.pending[..n] && r.pending == q.pending[n..]
      && r.outcomes == q.outcomes[Min(n, |q.outcomes|)..]
      && r.mode == q.mode && r.passive == q.passive
    decreases k
  {
    hide AfterWrite, NextOutcome;
    if k > 0 {
      RoundRobin(q, k - 1);
      var m := Min(k - 1, |q.pending|);
      if m < |q.pending| { OneMoreFrame(q, Rounds(q, k - 1), m); }
    }
  }

  /** How many of the next `k` writes succeed. */
  function Successes(outcomes: seq<Outcome>, k: nat): nat {
    if k == 0 then 0
    else Successes(outcomes, k - 1) + (if k - 1 < |outcomes| && outcomes[k - 1] != Written then 0 else 1)
  }

  /** One attempt: a frame goes to the wire exactly if the write succeeds, and the attempt is used up. */
  lemma AttemptExactly(q: Output, r: Output, k: nat, m: nat)
    requires m < |q.pending| && r.wire == q.wire + q.pending[..m] && r.pending == q.pending[m..]
    requires r.outcomes == q.outcomes[Min(k, |q.outcomes|)..]
    ensures var n := if k < |q.outcomes| && q.outcomes[k] != Written then m else m + 1;
      && AfterWrite(r).wire == q.wire + q.pending[..n] && AfterWrite(r).pending == q.pending[n..]
      && AfterWrite(r).outcomes == q.outcomes[Min(k + 1, |q.outcomes|)..]
      && AfterWrite(r).mode == r.mode && AfterWrite(r).passive == r.passive
  {
    assert q.pending[..m + 1] == q.pending[..m] + [q.pending[m]];
  }

  /**
   Whatever fails, and for whichever reason: after `k` rounds a served bus has sent exactly its first frames,
   as many as writes succeeded; the others are still queued in order.
   */
  lemma {:induction false} RoundsExactly(q: Output, k: nat)
    requires Served(q)
    ensures var n, r := Min(Successes(q.outcomes, k), |q.pending|), Rounds(q, k);
      && r.wire == q.wire + q.pending[..n] && r.pending == q.pending[n..]
      && (n < |q.pending| ==> r.outcomes == q.outcomes[Min(k, |q.outcomes|)..])
      && r.mode == q.mode && r.passive == q.passive
    decreases k
  {
    hide AfterWrite;
    if k > 0 {
      RoundsExactly(q, k - 1);
      var m := Min(Successes(q.outcomes, k - 1), |q.pending|);
      if m < |q.pending| { AttemptExactly(q, Rounds(q, k - 1), k - 1, m); }
    }
  }

  /** Whatever fails, nothing is lost or reordered, and a failure is noticed. */
  lemma {:induction false} RoundsConserve(q: Output, k: nat)
    ensures var r := Rounds(q, k);
      r.wire + r.pending == q.wire + q.pending && r.mode == q.mode && r.passive == q.passive
  {
    if k > 0 {
      RoundsConserve(q, k - 1);
      var r := Rounds(q, k - 1);
      if Eligible(r) { assert r.wire + [r.pending[0]] + r.pending[1..] == r.wire + r.pending; }
    }
  }

  /** When the rounds have emptied the queue, they all succeeded iff the writes it took succeeded at once. */
  lemma {:induction false} SuccessMeansNoFailure(q: Output, k: nat)
    requires Served(q) && Rounds(q, k).pending == []
    ensures RoundsSucceed(q, k) <==> NextAllWritten(q, |q.pending|)
  {
    if NextAllWritten(q, |q.pending|) {
      RoundRobin(q, k);
    } else {
      FailureIsMet(q, k);
    }
  }

  lemma {:induction false} SuccessfulRounds(q: Output, k: nat)
    requires Served(q) && RoundsSucceed(q, k)
    ensures NextAllWritten(q, Min(k, |q.pending|))
  {
    if k > 0 {
      SuccessfulRounds(q, k - 1);
      RoundRobin(q, k - 1);
      var m := Min(k - 1, |q.pending|);
      if m < |q.pending| && m < |q.outcomes| {
        assert NextOutcome(Rounds(q, k - 1)) == q.outcomes[m];
      }
    }
  }

  /** Fairness: after `k` rounds without a failure a served bus has sent exactly its first min(k, n) frames. */
  lemma {:induction false} FairRounds(q: Output, k: nat)
    requires Served(q) && RoundsSucceed(q, k)
    ensures Rounds(q, k).wire == q.wire + q.pending[..Min(k, |q.pending|)]
    ensures Rounds(q, k).pending == q.pending[Min(k, |q.pending|)..]
  {
    SuccessfulRounds(q, k);
    RoundRobin(q, k);
  }

  lemma FailureIsMet(q: Output, k: nat)
    requires Served(q) && Rounds(q, k).pending == [] && !NextAllWritten(q, |q.pending|)
    ensures !RoundsSucceed(q, k)
  {
    if RoundsSucceed(q, k) {
      SuccessfulRounds(q, k);
      RoundRobin(q, k);
    }
  }

  /** What rounds that leave nothing to do have done to a bus. */
  lemma WhenNothingIsLeft(q: Output, k: nat)
    requires !Eligible(Rounds(q, k))
    ensures var r := Rounds(q, k);
      if Served(q) then r.pending == [] && r.wire == q.wire + q.pending else r == q
    ensures RoundsSucceed(q, k) <==> (Served(q) ==> NextAllWritten(q, |q.pending|))
  {
    RoundsConserve(q, k);
    if Served(q) {
      SuccessMeansNoFailure(q, k);
    } else {
      RoundsOnUnserved(q, k);
    }
  }

  // ---------------------------------------------------------------- all buses together

  function TurnAll(qs: seq<Output>): (r: seq<Output>)
    ensures |r| == |qs| && forall i | 0 <= i < |qs| :: r[i] == Turn(qs[i])
  {
    seq(|qs|, i requires 0 <= i < |qs| => Turn(qs[i]))
  }

  predicate TurnsSucceed(qs: seq<Output>) {
    forall i | 0 <= i < |qs| :: TurnSucceeds(qs[i])
  }

  predicate SomeEligible(qs: seq<Output>) {
    exists i :: 0 <= i < |qs| && Eligible(qs[i])
  }

  function RoundsAll(qs: seq<Output>, k: nat): seq<Output> {
    if k == 0 then qs else TurnAll(RoundsAll(qs, k - 1))
  }

  predicate AllRoundsSucceed(qs: seq<Output>, k: nat) {
    k == 0 || (AllRoundsSucceed(qs, k - 1) && TurnsSucceed(RoundsAll(qs, k - 1)))
  }

  /** One round lowers the work of all buses together, and if nothing was eligible it was the last. */
  lemma {:induction false} RoundLowersTotalWork(qs: seq<Output>)
    ensures SomeEligible(qs) ==> TotalWork(TurnAll(qs)) < TotalWork(qs)
    ensures !SomeEligible(qs) ==> TurnAll(qs) == qs
  {
    RoundLowersEachWork(qs, TurnAll(qs));
  }

  lemma {:induction false} RoundLowersEachWork(before: seq<Output>, after: seq<Output>)
    requires |before| == |after| && forall i | 0 <= i < |before| :: after[i] == Turn(before[i])
    ensures TotalWork(after) <= TotalWork(before)
    ensures (exists i :: 0 <= i < |before| && Eligible(before[i])) ==> TotalWork(after) < TotalWork(before)
  {
    if before != [] {
      TurnLowersWork(before[0]);
      RoundLowersEachWork(before[1..], after[1..]);
      if i :| 0 < i < |before| && Eligible(before[i]) { assert Eligible(before[1..][i - 1]); }
    }
  }

  lemma {:induction false} BusByBus(qs: seq<Output>, k: nat)
    ensures |RoundsAll(qs, k)| == |qs|
    ensures forall i | 0 <= i < |qs| :: RoundsAll(qs, k)[i] == Rounds(qs[i], k)
    ensures AllRoundsSucceed(qs, k) <==> forall i | 0 <= i < |qs| :: RoundsSucceed(qs[i], k)
  {
    hide Turn, TurnSucceeds;
    if k > 0 { BusByBus(qs, k - 1); }
  }

  lemma NoTurns()
    ensures !SomeEligible([]) && TurnsSucceed([])
  {}

  lemma OneMoreTurn(qs: seq<Output>, n: nat)
    requires n < |qs|
    ensures SomeEligible(qs[..n + 1]) <==> SomeEligible(qs[..n]) || Eligible(qs[n])
    ensures TurnsSucceed(qs[..n + 1]) <==> TurnsSucceed(qs[..n]) && TurnSucceeds(qs[n])
  {
    hide Eligible, TurnSucceeds;
    assert forall i | 0 <= i < n :: qs[..n][i] == qs[..n + 1][i];
    assert qs[..n + 1][n] == qs[n];
  }

  /** Every served bus is drained in order, every other bus is left alone. */
  predicate Drained(before: seq<Output>, after: seq<Output>) {
    && |after| == |before|
    && forall i | 0 <= i < |before| ::
         if Served(before[i]) then after[i].pending == [] && after[i].wire == before[i].wire + before[i].pending
         else after[i] == before[i]
  }

  /** On every served bus, the writes that its frames need succeed at once. */
  predicate NoFailureMet(qs: seq<Output>) {
    forall i | 0 <= i < |qs| && Served(qs[i]) :: NextAllWritten(qs[i], |qs[i].pending|)
  }

  lemma RoundsDrain(qs: seq<Output>, k: nat)
    requires !SomeEligible(RoundsAll(qs, k))
    ensures Drained(qs, RoundsAll(qs, k))
    ensures AllRoundsSucceed(qs, k) <==> NoFailureMet(qs)
  {
    BusByBus(qs, k);
    forall i | 0 <= i < |qs|
      ensures RoundsSucceed(qs[i], k) <==> (Served(qs[i]) ==> NextAllWritten(qs[i], |qs[i].pending|))
      ensures if Served(qs[i]) then
                Rounds(qs[i], k).pending == [] && Rounds(qs[i], k).wire == qs[i].wire + qs[i].pending
              else Rounds(qs[i], k) == qs[i]
    {
      assert !Eligible(RoundsAll(qs, k)[i]);
      WhenNothingIsLeft(qs[i], k);
    }
  }

  // ---------------------------------------------------------------- the manager

  class BusManager {
    var buses: seq<Bus>

    ghost predicate Distinct()
      reads this
    {
      forall i, j | 0 <= i < j < |buses| :: buses[i] != buses[j]
    }

    ghost function Outputs(): seq<Output>
      reads this, buses
    {
      seq(|buses|, i requires 0 <= i < |buses| reads this, buses => buses[i].CurrentOutput())
    }

    /** One pass of the inner loop. */
    method WriteRound() returns (sendingData: bool, noError: bool)
      requires Distinct()
      modifies buses
      ensures Outputs() == TurnAll(old(Outputs()))
      ensures sendingData <==> SomeEligible(old(Outputs()))
      ensures noError <==> TurnsSucceed(old(Outputs()))
    {
      hide SomeEligible, TurnsSucceed;
      ghost var before, after := Outputs(), TurnAll(Outputs());
      sendingData, noError := false, true;
      NoTurns();
      for i := 0 to |buses|
        invariant forall j | 0 <= j < |buses| :: buses[j].CurrentOutput() == if j < i then after[j] else before[j]
        invariant sendingData <==> SomeEligible(before[..i])
        invariant noError <==> TurnsSucceed(before[..i])
      {
        OneMoreTurn(before, i);
        var bus := buses[i];
        assert bus.CurrentOutput() == before[i];
        if bus.options.mode != Asynchronous && !bus.isPassive && |bus.outgoingMsgs| > 0 {
          var ok := bus.WriteMessages();
          noError := noError && ok;
          sendingData := true;
        }
      }
      assert before[..|buses|] == before && Outputs() == after;
    }

    /**
     Writes until no served bus has a frame left. It returns true exactly when no write failed, which
     is when on every served bus the writes that its frames need succeed at once.
     */
    method WriteMessagesSynchronous() returns (noError: bool)
      requires Distinct()
      modifies buses
      ensures Drained(old(Outputs()), Outputs())
      ensures noError <==> NoFailureMet(old(Outputs()))
    {
      hide TurnAll, TurnsSucceed, SomeEligible, TotalWork, Drained, NoFailureMet, Outputs;
      var sendingData := true;
      noError := true;
      ghost var k, first := 0, Outputs();
      while sendingData
        invariant Outputs() == RoundsAll(first, k)
        invariant noError <==> AllRoundsSucceed(first, k)
        invariant !sendingData ==> !SomeEligible(RoundsAll(first, k))
        decreases sendingData, TotalWork(Outputs())
      {
        ghost var before := Outputs();
        var ok: bool;
        sendingData, ok := WriteRound();
        RoundLowersTotalWork(before);
        noError := noError && ok;
        k := k + 1;
      }
      RoundsDrain(first, k);
    }
  }
}
