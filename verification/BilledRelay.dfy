/** A relayed request together with its billing session. */
module BilledRelay {
  import opened Wrappers
  import Relay
  import Billing

  /**
    The run of a billed request: the advance has been taken, the reservations that
    the attempts ask for are made, and a run that fails refunds.  The reservations
    come before the attempts here: neither reads what the other changes, so only
    their order among themselves counts.  A failed run whose refund calls succeed
    leaves nothing taken from the token, and nothing from the wallet unless all
    that is left is a reservation whose rollback was lost; a successful run leaves
    the session open to be settled.
   */
  method RelayAndRefund(cfg: Relay.Config, world: Relay.World, index: Option<nat>, group: string, pinned: bool, first: int,
                        quota: nat, trusted: bool, playground: bool, reserves: seq<Billing.Call>,
                        walletFails: bool, tokenFails: bool)
    returns (err: Option<Relay.ApiError>, session: Billing.Session)
    requires cfg.Valid() && Relay.Real(world, cfg.channels) && Billing.AllReserves(reserves)
    ensures var s := Billing.After(Billing.Opened(quota, trusted, playground), reserves);
            && (err.None? ==> session.Value() == s && !s.settled && !s.refunded)
            && (err.Some? ==> session.Value() == Billing.Apply(s, Billing.Refund(walletFails, tokenFails)))
            && (err.Some? && !walletFails && !tokenFails ==>
                  && session.tokenTaken == 0
                  && (session.walletTaken == 0 <==> Billing.CanRefund(s) || s.consumed == s.preConsumed))
  {
    session := new Billing.Session(quota, trusted, playground);
    ghost var start := Billing.Opened(quota, trusted, playground);
    for i := 0 to |reserves|
      invariant fresh(session) && session.Value() == Billing.After(start, reserves[..i])
    {
      var ok := session.Reserve(reserves[i].target, reserves[i].walletFails, reserves[i].tokenFails, reserves[i].rollbackFails);
      assert reserves[..i + 1][..i] == reserves[..i];
    }
    assert reserves[..|reserves|] == reserves;
    ghost var s := session.Value();
    Billing.ReservesLeaveOpen(start, reserves);
    var attempts, ending, refunds;
    attempts, ending, err, refunds := Relay.Relay(cfg, world, index, group, pinned, first, true);
    if refunds == 1 {
      session.Refund(walletFails, tokenFails);
      if !walletFails && !tokenFails {
        Billing.RefundAfterReserves(s, session.Value());
      }
    }
  }
}
