/**
  The billing of one relayed request paid from the wallet: an amount is taken
  from the wallet and the token in advance, raised while the request is prepared,
  and finally settled at the actual cost or refunded.
*/
module Billing {

  /** What the session remembers, and what it has taken on balance. */
  datatype State = State(
    preConsumed: int, tokenConsumed: int, consumed: int,
    playground: bool, trusted: bool, fundingSettled: bool, settled: bool, refunded: bool,
    walletTaken: int, tokenTaken: int)

  /** A call on the session, with the outcome of the database calls it makes. */
  datatype Call =
    | Reserve(target: int, walletFails: bool, tokenFails: bool, rollbackFails: bool)
    | Settle(actual: int, walletFails: bool, tokenFails: bool)
    | Refund(walletFails: bool, tokenFails: bool)

  class Session {
    const playground: bool
    const trusted: bool
    var preConsumed: int
    var tokenConsumed: int
    var consumed: int
    var fundingSettled: bool
    var settled: bool
    var refunded: bool
    var walletTaken: int
    var tokenTaken: int

    function Value(): State
      reads this
    {
      State(preConsumed, tokenConsumed, consumed, playground, trusted, fundingSettled, settled, refunded, walletTaken, tokenTaken)
    }

    /** A session whose advance has been taken; a trusted user pays nothing in advance. */
    constructor (quota: nat, trusted: bool, playground: bool)
      ensures Value() == Opened(quota, trusted, playground)
    {
      var effective := if trusted then 0 else quota;
      this.trusted, this.playground := trusted, playground;
      preConsumed, tokenConsumed, consumed := effective, effective, effective;
      fundingSettled, settled, refunded := false, false, false;
      walletTaken := effective;
      tokenTaken := if playground then 0 else effective;
    }

    method Reserve(target: int, walletFails: bool, tokenFails: bool, rollbackFails: bool) returns (ok: bool)
      modifies this
      ensures Value() == Apply(old(Value()), Call.Reserve(target, walletFails, tokenFails, rollbackFails))
      ensures !ok <==> Raises(old(Value()), target) && (walletFails || (tokenFails && !playground))
    {
      if settled || refunded || trusted || target <= preConsumed {
        return true;
      }
      var delta := target - preConsumed;
      if walletFails {
        return false;
      }
      walletTaken, consumed := walletTaken + delta, consumed + delta;
      if !playground {
        if tokenFails {
          if !rollbackFails {
            walletTaken, consumed := walletTaken - delta, consumed - delta;
          }
          return false;
        }
        tokenTaken := tokenTaken + delta;
      }
      preConsumed := preConsumed + delta;
      tokenConsumed := tokenConsumed + delta;
      ok := true;
    }

    method Settle(actual: int, walletFails: bool, tokenFails: bool) returns (ok: bool)
      modifies this
      ensures Value() == Apply(old(Value()), Call.Settle(actual, walletFails, tokenFails))
      ensures !ok <==> !old(settled) && actual != preConsumed
                       && ((walletFails && !old(fundingSettled)) || (tokenFails && !playground))
    {
      if settled {
        return true;
      }
      var delta := actual - preConsumed;
      if delta == 0 {
        settled := true;
        return true;
      }
      if !fundingSettled {
        if walletFails {
          return false;
        }
        walletTaken := walletTaken + delta;
        fundingSettled := true;
      }
      ok := true;
      if !playground {
        if tokenFails {
          ok := false;
        } else {
          tokenTaken := tokenTaken + delta;
        }
      }
      settled := true;
    }

    method Refund(walletFails: bool, tokenFails: bool)
      modifies this
      ensures Value() == Apply(old(Value()), Call.Refund(walletFails, tokenFails))
    {
      if settled || refunded || fundingSettled || tokenConsumed <= 0 {
        return;
      }
      refunded := true;
      if consumed > 0 && !walletFails {
        walletTaken := walletTaken - consumed;
      }
      if tokenConsumed > 0 && !playground && !tokenFails {
        tokenTaken := tokenTaken - tokenConsumed;
      }
    }
  }

  /**
    preConsume: the token first, then the wallet.  A failure opens no session and
    leaves nothing taken, unless the token had been charged and is not given back.
   */
  method PreConsume(quota: nat, trusted: bool, playground: bool, tokenFails: bool, walletFails: bool, rollbackFails: bool)
    returns (s: Session?, walletLost: int, tokenLost: int)
    ensures var effective := if trusted then 0 else quota;
            && (s == null <==> effective > 0 && (walletFails || (tokenFails && !playground)))
            && (s != null ==> fresh(s) && s.Value() == Opened(quota, trusted, playground))
            && walletLost == 0
            && tokenLost == if s == null && !playground && !tokenFails && rollbackFails then effective else 0
  {
    var effective := if trusted then 0 else quota;
    var tokenTaken := 0;
    s, walletLost, tokenLost := null, 0, 0;
    if effective > 0 && !playground {
      if tokenFails {
        return;
      }
      tokenTaken := effective;
    }
    if effective > 0 && walletFails {
      if !playground && !rollbackFails {
        tokenTaken := tokenTaken - effective;
      }
      tokenLost := tokenTaken;
      return;
    }
    s := new Session(quota, trusted, playground);
  }

  function Opened(quota: nat, trusted: bool, playground: bool): State {
    var effective := if trusted then 0 else quota;
    State(effective, effective, effective, playground, trusted, false, false, false, effective, if playground then 0 else effective)
  }

  predicate Raises(s: State, target: int) {
    !s.settled && !s.refunded && !s.trusted && target > s.preConsumed
  }

  predicate CanRefund(s: State) {
    !s.settled && !s.refunded && !s.fundingSettled && s.tokenConsumed > 0
  }

  function Apply(s: State, c: Call): State {
    match c
    case Reserve(target, walletFails, tokenFails, rollbackFails) =>
      var delta := target - s.preConsumed;
      if !Raises(s, target) || walletFails then s
      else if tokenFails && !s.playground then
        if rollbackFails then s.(walletTaken := s.walletTaken + delta, consumed := s.consumed + delta) else s
      else
        s.(preConsumed := target, tokenConsumed := s.tokenConsumed + delta, consumed := s.consumed + delta,
           walletTaken := s.walletTaken + delta, tokenTaken := if s.playground then s.tokenTaken else s.tokenTaken + delta)
    case Settle(actual, walletFails, tokenFails) =>
      var delta := actual - s.preConsumed;
      if s.settled then s
      else if delta == 0 then s.(settled := true)
      else if !s.fundingSettled && walletFails then s
      else
        s.(settled := true, fundingSettled := true,
           walletTaken := if s.fundingSettled then s.walletTaken else s.walletTaken + delta,
           tokenTaken := if s.playground || tokenFails then s.tokenTaken else s.tokenTaken + delta)
    case Refund(walletFails, tokenFails) =>
      if !CanRefund(s) then s
      else
        s.(refunded := true,
           walletTaken := if walletFails || s.consumed <= 0 then s.walletTaken else s.walletTaken - s.consumed,
           tokenTaken := if tokenFails || s.playground then s.tokenTaken else s.tokenTaken - s.tokenConsumed)
  }

  function After(s: State, calls: seq<Call>): State {
    if calls == [] then s else Apply(After(s, calls[..|calls| - 1]), calls[|calls| - 1])
  }

  // ---- What has been taken

  /** What the open session has taken is what it remembers having taken. */
  predicate Invariant(s: State) {
    && 0 <= s.preConsumed <= s.consumed && s.tokenConsumed == s.preConsumed
    && (s.fundingSettled ==> s.settled)
    && (!s.settled && !s.refunded ==> s.walletTaken == s.consumed)
    && (!s.settled && !s.refunded ==> s.tokenTaken == if s.playground then 0 else s.preConsumed)
    && (!s.settled && s.refunded ==> s.preConsumed > 0 && s.walletTaken in {0, s.consumed})
  }

  lemma {:induction false} RunKeepsInvariant(s: State, calls: seq<Call>)
    requires Invariant(s)
    ensures Invariant(After(s, calls)) && After(s, calls).playground == s.playground
  {
    if calls != [] {
      RunKeepsInvariant(s, calls[..|calls| - 1]);
    }
  }

  /** A session starts with the advance taken from the wallet and the token, unless the user is trusted. */
  lemma OpeningTakes(quota: nat, trusted: bool, playground: bool)
    ensures var s := Opened(quota, trusted, playground);
            && Invariant(s) && !s.settled && !s.refunded
            && s.walletTaken == (if trusted then 0 else quota) && s.tokenTaken == if trusted || playground then 0 else quota
  {
  }

  /**
    In every open state of a session that is not trusted, a reservation whose calls
    succeed leaves at least the target taken from the wallet and the token, and
    exactly the target if it was a raise and no rollback was lost before.
   */
  lemma ReservationHolds(quota: nat, playground: bool, calls: seq<Call>, c: Call)
    requires c.Reserve? && !c.walletFails && (playground || !c.tokenFails)
    requires var s := After(Opened(quota, false, playground), calls); !s.settled && !s.refunded
    ensures var s := After(Opened(quota, false, playground), calls);
            var t := Apply(s, c);
            && t.walletTaken >= c.target && (playground || t.tokenTaken >= c.target)
            && (c.target > s.preConsumed && s.consumed == s.preConsumed ==> t.walletTaken == c.target)
            && (c.target > s.preConsumed && !playground ==> t.tokenTaken == c.target)
            && (c.target <= s.preConsumed ==> t == s)
  {
    RunKeepsInvariant(Opened(quota, false, playground), calls);
    StaysUntrusted(Opened(quota, false, playground), calls);
  }

  lemma {:induction false} StaysUntrusted(s: State, calls: seq<Call>)
    ensures After(s, calls).trusted == s.trusted
  {
    if calls != [] {
      StaysUntrusted(s, calls[..|calls| - 1]);
    }
  }

  /** A reservation that fails takes nothing, unless the token's call failed and the rollback was lost. */
  lemma FailedReservationTakesNothing(s: State, c: Call)
    requires c.Reserve? && (c.walletFails || (c.tokenFails && !s.playground))
    ensures var t := Apply(s, c);
            && t.tokenTaken == s.tokenTaken && t.preConsumed == s.preConsumed
            && (c.walletFails || !c.rollbackFails ==> t.walletTaken == s.walletTaken)
  {
  }

  /** Settling takes effect now. */
  predicate Settles(s: State, c: Call) {
    c.Settle? && !s.settled && (c.actual == s.preConsumed || !c.walletFails)
  }

  /**
    In every state a session can reach, settling leaves exactly the actual cost
    taken from the wallet if and only if the advance is still taken: it was not
    refunded before, and no rollback of a reservation was lost.
   */
  lemma SettlementIsExact(quota: nat, trusted: bool, playground: bool, calls: seq<Call>, c: Call)
    requires Settles(After(Opened(quota, trusted, playground), calls), c)
    ensures var s := After(Opened(quota, trusted, playground), calls);
            Apply(s, c).walletTaken == c.actual <==>
              s.consumed == s.preConsumed && !(s.refunded && s.walletTaken == 0)
  {
    RunKeepsInvariant(Opened(quota, trusted, playground), calls);
  }

  /** The token is charged the actual cost too, if its call succeeds. */
  lemma TokenSettlementIsExact(quota: nat, trusted: bool, calls: seq<Call>, c: Call)
    requires var s := After(Opened(quota, trusted, false), calls); Settles(s, c) && !s.refunded && c.actual != s.preConsumed
    ensures var s := After(Opened(quota, trusted, false), calls);
            Apply(s, c).tokenTaken == c.actual <==> !c.tokenFails
  {
    RunKeepsInvariant(Opened(quota, trusted, false), calls);
  }

  /** A refund whose calls succeed leaves nothing taken, whatever was reserved and rolled back before. */
  lemma RefundIsComplete(quota: nat, trusted: bool, playground: bool, calls: seq<Call>)
    requires CanRefund(After(Opened(quota, trusted, playground), calls))
    ensures var t := Apply(After(Opened(quota, trusted, playground), calls), Refund(false, false));
            t.walletTaken == 0 && t.tokenTaken == 0
  {
    RunKeepsInvariant(Opened(quota, trusted, playground), calls);
  }

  /** An open session that has nothing to refund has taken nothing, unless a rollback was lost. */
  lemma NothingToRefund(quota: nat, trusted: bool, playground: bool, calls: seq<Call>)
    requires var s := After(Opened(quota, trusted, playground), calls); !s.settled && !s.refunded && !CanRefund(s)
    ensures var s := After(Opened(quota, trusted, playground), calls);
            s.tokenTaken == 0 && (s.walletTaken == 0 <==> s.consumed == s.preConsumed)
  {
    RunKeepsInvariant(Opened(quota, trusted, playground), calls);
  }

  predicate AllReserves(calls: seq<Call>) {
    forall i | 0 <= i < |calls| :: calls[i].Reserve?
  }

  /** Reservations neither settle nor refund. */
  lemma {:induction false} ReservesLeaveOpen(s: State, calls: seq<Call>)
    requires Invariant(s) && !s.settled && !s.refunded && AllReserves(calls)
    ensures Invariant(After(s, calls)) && !After(s, calls).settled && !After(s, calls).refunded
  {
    RunKeepsInvariant(s, calls);
    if calls != [] {
      ReservesLeaveOpen(s, calls[..|calls| - 1]);
    }
  }

  /** After any reservations, a refund whose calls succeed leaves nothing taken, unless only a lost rollback was. */
  lemma RefundAfterReserves(s: State, t: State)
    requires Invariant(s) && !s.settled && !s.refunded && t == Apply(s, Refund(false, false))
    ensures t.tokenTaken == 0
    ensures t.walletTaken == 0 <==> CanRefund(s) || s.consumed == s.preConsumed
  {
  }

  /** Settled or refunded, no later refund or second settlement moves anything. */
  lemma {:induction false} FinalIsFinal(s: State, calls: seq<Call>)
    requires Invariant(s) && (s.settled || (s.refunded && forall i | 0 <= i < |calls| :: !calls[i].Settle?))
    ensures After(s, calls) == s
  {
    if calls != [] {
      FinalIsFinal(s, calls[..|calls| - 1]);
    }
  }

  /** Settling after a refund charges only the difference to the advance. */
  lemma SettlementAfterRefund(quota: nat, actual: int)
    requires 0 < quota
    ensures After(Opened(quota, false, false), [Refund(false, false), Settle(actual, false, false)]).walletTaken == actual - quota
  {
    var s, calls := Opened(quota, false, false), [Refund(false, false), Settle(actual, false, false)];
    assert calls[..1] == [Refund(false, false)] && calls[..1][..0] == [];
    assert After(s, calls[..1]) == Apply(s, Refund(false, false));
  }

  /** A lost rollback is charged on top of the actual cost. */
  lemma LostRollbackIsCharged(quota: nat, target: int, actual: int)
    requires quota < target
    ensures After(Opened(quota, false, false), [Reserve(target, false, true, true), Settle(actual, false, false)]).walletTaken
            == actual + (target - quota)
  {
    var s, calls := Opened(quota, false, false), [Reserve(target, false, true, true), Settle(actual, false, false)];
    assert calls[..1] == [Reserve(target, false, true, true)] && calls[..1][..0] == [];
    assert After(s, calls[..1]) == Apply(s, Reserve(target, false, true, true));
  }
}
