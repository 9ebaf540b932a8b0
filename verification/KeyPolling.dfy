/** Which key of a multi-key channel serves the next request. */
module KeyPolling {
  import opened Wrappers
  import opened MultiKey

  datatype Mode = Random | Polling | Unknown

  /** The enabled ones among the first `n` keys, in order. */
  function EnabledBelow(status: map<int, int>, n: nat): (r: seq<nat>)
    ensures |r| <= n
    ensures forall i | 0 <= i < |r| :: r[i] < n && StatusAt(status, r[i]) == ENABLED
  {
    if n == 0 then []
    else
      var r := EnabledBelow(status, n - 1);
      if StatusAt(status, n - 1) == ENABLED then r + [n - 1] else r
  }

  /** How many enabled keys come before `k`. */
  function Rank(status: map<int, int>, k: nat): nat {
    |EnabledBelow(status, k)|
  }

  lemma {:induction false} RankStep(status: map<int, int>, k: nat, n: nat)
    requires k <= n
    ensures EnabledBelow(status, k) <= EnabledBelow(status, n)
    ensures k < n && StatusAt(status, k) == ENABLED ==>
              Rank(status, k) < Rank(status, n) && EnabledBelow(status, n)[Rank(status, k)] == k
  {
    if k < n {
      RankStep(status, k, n - 1);
    }
  }

  /** The position in the round of enabled keys that a polling index stands for. */
  function Turn(status: map<int, int>, n: nat, start: nat): (turn: nat)
    requires start < n && EnabledBelow(status, n) != []
    ensures turn < |EnabledBelow(status, n)|
  {
    RankStep(status, start, n);
    if Rank(status, start) == |EnabledBelow(status, n)| then 0 else Rank(status, start)
  }

  /** The turn after `turn` in a round of `m`. */
  function Following(turn: nat, m: nat): nat {
    if turn + 1 == m then 0 else turn + 1
  }

  function Start(pollingIndex: int, n: nat): nat
    requires n > 0
  {
    if pollingIndex < 0 || pollingIndex >= n then 0 else pollingIndex
  }

  lemma SmallMod(a: nat, m: nat)
    requires a <= m && m > 0
    ensures a % m == if a == m then 0 else a
  {
  }

  /** After the key in turn, the next position is the next turn. */
  lemma NextTurn(status: map<int, int>, n: nat, idx: nat)
    requires idx < n && StatusAt(status, idx) == ENABLED && EnabledBelow(status, n) != []
    ensures Rank(status, idx) < Rank(status, n)
    ensures Turn(status, n, (idx + 1) % n) == Following(Rank(status, idx), Rank(status, n))
  {
    RankStep(status, idx, n);
    SmallMod(idx + 1, n);
    assert Rank(status, idx + 1) == Rank(status, idx) + 1;
  }

  datatype KeyError = NoAvailableKey | GetChannelFailed

  class Poller {
    var pollingIndex: int

    constructor ()
      ensures pollingIndex == 0
    {
      pollingIndex := 0;
    }

    /**
      GetNextEnabledKey on `n` keys.  It fails exactly when no key is enabled, or
      when polling cannot read the saved position, and never returns a disabled
      key; polling serves the enabled keys in turn.
     */
    method GetNextEnabledKey(status: map<int, int>, n: nat, mode: Mode, draw: nat, infoFails: bool) returns (r: Result<nat, KeyError>)
      modifies this
      ensures r.Err? <==> EnabledBelow(status, n) == [] || (mode == Polling && infoFails)
      ensures r.Err? ==> r.error == if EnabledBelow(status, n) == [] then NoAvailableKey else GetChannelFailed
      ensures r.Ok? ==> r.value < n && StatusAt(status, r.value) == ENABLED
      ensures mode != Polling || r.Err? ==> unchanged(this)
      ensures mode == Random && r.Ok? ==> r.value == EnabledBelow(status, n)[draw % |EnabledBelow(status, n)|]
      ensures mode == Unknown && r.Ok? ==> r.value == EnabledBelow(status, n)[0]
      ensures mode == Polling && r.Ok? ==>
                var turn := Turn(status, n, Start(old(pollingIndex), n));
                && r.value == EnabledBelow(status, n)[turn]
                && 0 <= pollingIndex < n && Turn(status, n, pollingIndex) == Following(turn, |EnabledBelow(status, n)|)
    {
      var enabledIdx := CollectEnabled(status, n);
      if |enabledIdx| == 0 {
        return Err(NoAvailableKey);
      }
      match mode {
        case Random =>
          return Ok(enabledIdx[draw % |enabledIdx|]);
        case Unknown =>
          return Ok(enabledIdx[0]);
        case Polling =>
          if infoFails {
            return Err(GetChannelFailed);
          }
          var idx := Poll(status, n, Start(pollingIndex, n));
          NextTurn(status, n, idx);
          pollingIndex := (idx + 1) % n;
          return Ok(idx);
      }
    }

    /**
      As many polls as there are enabled keys, from whatever position: they visit
      the enabled keys once each, in cyclic order, and end in the same turn.
     */
    method Round(status: map<int, int>, n: nat) returns (picks: seq<nat>)
      requires EnabledBelow(status, n) != []
      modifies this
      ensures var turn := Turn(status, n, Start(old(pollingIndex), n));
              picks == Rotated(EnabledBelow(status, n), turn) && Turn(status, n, Start(pollingIndex, n)) == turn
    {
      var enabled := CollectEnabled(status, n);
      ghost var turn := Turn(status, n, Start(pollingIndex, n));
      picks := [];
      for i := 0 to |enabled|
        invariant |picks| == i
        invariant Turn(status, n, Start(pollingIndex, n)) == Wrapped(turn + i, |enabled|)
        invariant picks == Rotated(enabled, turn)[..i]
      {
        var pick := GetNextEnabledKey(status, n, Polling, 0, false);
        RotatedAt(enabled, turn, i);
        picks := picks + [pick.value];
      }
      assert Rotated(enabled, turn)[..|enabled|] == Rotated(enabled, turn);
    }
  }

  function Wrapped(k: nat, m: nat): nat {
    if k < m then k else k - m
  }

  /** The list from position `turn` on, and then its beginning. */
  function Rotated(s: seq<nat>, turn: nat): (r: seq<nat>)
    requires turn < |s|
    ensures |r| == |s|
  {
    s[turn..] + s[..turn]
  }

  lemma RotatedAt(s: seq<nat>, turn: nat, i: nat)
    requires turn < |s| && i < |s|
    ensures Rotated(s, turn)[i] == s[Wrapped(turn + i, |s|)]
    ensures Rotated(s, turn)[..i + 1] == Rotated(s, turn)[..i] + [Rotated(s, turn)[i]]
    ensures Following(Wrapped(turn + i, |s|), |s|) == Wrapped(turn + i + 1, |s|)
  {
  }

  method CollectEnabled(status: map<int, int>, n: nat) returns (r: seq<nat>)
    ensures r == EnabledBelow(status, n)
  {
    r := [];
    for i := 0 to n
      invariant r == EnabledBelow(status, i)
    {
      if StatusAt(status, i) == ENABLED {
        r := r + [i];
      }
    }
  }

  lemma PastTheEnd(k: nat, n: nat)
    requires n <= k < 2 * n
    ensures k % n == k - n
  {
    assert k == n * 1 + (k - n);
  }

  method Around(start: nat, i: nat, n: nat) returns (idx: nat)
    requires start < n && i <= n
    ensures idx == if start + i < n then start + i else start + i - n
  {
    idx := (start + i) % n;
    if start + i >= n {
      PastTheEnd(start + i, n);
    }
  }

  /** The search from the saved position, around the end. */
  method Poll(status: map<int, int>, n: nat, start: nat) returns (idx: nat)
    requires start < n && EnabledBelow(status, n) != []
    ensures idx < n && StatusAt(status, idx) == ENABLED
    ensures Rank(status, idx) == Turn(status, n, start) < Rank(status, n)
    ensures EnabledBelow(status, n)[Turn(status, n, start)] == idx
  {
    var i := 0;
    idx := start;
    RankStep(status, start, n);
    while StatusAt(status, idx) != ENABLED
      invariant 0 <= i < n
      invariant start + i < n ==> idx == start + i && Rank(status, idx) == Rank(status, start)
      invariant start + i >= n ==> idx == start + i - n < start && Rank(status, idx) == 0 && Rank(status, start) == Rank(status, n)
      decreases n - i
    {
      i := i + 1;
      idx := Around(start, i, n);
    }
    RankStep(status, idx, n);
  }
}
