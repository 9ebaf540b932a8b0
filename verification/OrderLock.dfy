/**
  The per-order lock of the top-up controller: a table of reference-counted
  mutexes, one per trade number, guarded by one creation lock.  `UnlockOrder`
  reads the table without that lock.

  The protocol is a state machine over arbitrarily many goroutines.  Every
  statement of `LockOrder` and `UnlockOrder` is one atomic step, and the steps
  of different goroutines interleave freely.  Callers pair each `LockOrder(t)`
  with one later `UnlockOrder(t)`.
*/
module OrderLock {
  import opened Wrappers

  type Goroutine = nat
  type TradeNo = string
  /** The address of a refCountedMutex. */
  type Address = nat

  /** A refCountedMutex: its reference count and who has locked `mu`. */
  datatype Mutex = Mutex(refCount: int, owner: Option<Goroutine>)

  /**
    Where a goroutine is.  Each constructor names the statement it runs next.
    In the `UnlockOrder` half, `mine` is the mutex the goroutine locked (history
    that the code does not keep) and `rcm` is what it loaded from the table.
   */
  datatype Control =
    | Idle
    // LockOrder
    | AwaitCreate(t: TradeNo)
    | Lookup(t: TradeNo)
    | Store(t: TradeNo, mine: Address)
    | Count(t: TradeNo, mine: Address)
    | LeaveCreate(t: TradeNo, mine: Address)
    | AwaitMu(t: TradeNo, mine: Address)
    // LockOrder has returned
    | Holding(t: TradeNo, mine: Address)
    // UnlockOrder
    | Load(t: TradeNo, mine: Address)
    | ReleaseMu(t: TradeNo, mine: Address, rcm: Address)
    | AwaitCreateAgain(t: TradeNo, mine: Address, rcm: Address)
    | Uncount(t: TradeNo, mine: Address, rcm: Address)
    | Delete(t: TradeNo, mine: Address, rcm: Address)
    | LeaveCreateAgain(t: TradeNo)

  /**
    The shared variables and every goroutine's control state.  `crashed` records
    the fatal error Go raises when an unlocked mutex is unlocked.
   */
  datatype State = State(
    createLock: Option<Goroutine>,
    table: map<TradeNo, Address>,
    heap: map<Address, Mutex>,
    control: map<Goroutine, Control>,
    crashed: bool)

  /** The one choice left to the environment: the trade number of a new call, the address of a new object. */
  datatype Choice = Choice(t: TradeNo, address: Address)

  function At(s: State, g: Goroutine): Control {
    if g in s.control then s.control[g] else Idle
  }

  function Goto(s: State, g: Goroutine, c: Control): State {
    s.(control := s.control[g := c])
  }

  // ---- The steps -----------------------------------------------------------

  /** Whether goroutine `g` can run its next statement: only the two kinds of `Lock` block. */
  predicate Enabled(s: State, g: Goroutine) {
    match At(s, g)
    case AwaitCreate(_) => s.createLock.None?
    case AwaitCreateAgain(_, _, _) => s.createLock.None?
    case AwaitMu(_, m) => m in s.heap && s.heap[m].owner.None?
    case _ => true
  }

  /** The next statement of `g` is enabled and finds what it dereferences; `x` names a new object if it needs one. */
  predicate Ready(s: State, g: Goroutine, x: Choice) {
    && g in s.control && Enabled(s, g) && !s.crashed
    && match s.control[g]
       case Lookup(t) => t in s.table || x.address !in s.heap
       case Count(_, m) => m in s.heap
       case ReleaseMu(_, _, r) => r in s.heap
       case Uncount(_, _, r) => r in s.heap
       case _ => true
  }

  /** The state after the next statement of `g`. */
  function After(s: State, g: Goroutine, x: Choice): State
    requires Ready(s, g, x)
  {
    match s.control[g]
    case Idle => Goto(s, g, AwaitCreate(x.t))
    case AwaitCreate(t) => Goto(s, g, Lookup(t)).(createLock := Some(g))
    case Lookup(t) =>
      if t in s.table then Goto(s, g, Count(t, s.table[t]))
      else Goto(s, g, Store(t, x.address)).(heap := s.heap[x.address := Mutex(0, None)])
    case Store(t, m) => Goto(s, g, Count(t, m)).(table := s.table[t := m])
    case Count(t, m) => Goto(s, g, LeaveCreate(t, m)).(heap := s.heap[m := s.heap[m].(refCount := s.heap[m].refCount + 1)])
    case LeaveCreate(t, m) => Goto(s, g, AwaitMu(t, m)).(createLock := None)
    case AwaitMu(t, m) => Goto(s, g, Holding(t, m)).(heap := s.heap[m := s.heap[m].(owner := Some(g))])
    case Holding(t, m) => Goto(s, g, Load(t, m))
    case Load(t, m) => Goto(s, g, if t in s.table then ReleaseMu(t, m, s.table[t]) else Idle)
    case ReleaseMu(t, m, r) =>
      if s.heap[r].owner.None? then s.(crashed := true)
      else Goto(s, g, AwaitCreateAgain(t, m, r)).(heap := s.heap[r := s.heap[r].(owner := None)])
    case AwaitCreateAgain(t, m, r) => Goto(s, g, Uncount(t, m, r)).(createLock := Some(g))
    case Uncount(t, m, r) =>
      Goto(s, g, if s.heap[r].refCount == 1 then Delete(t, m, r) else LeaveCreateAgain(t))
      .(heap := s.heap[r := s.heap[r].(refCount := s.heap[r].refCount - 1)])
    case Delete(t, _, _) => Goto(s, g, LeaveCreateAgain(t)).(table := s.table - {t})
    case LeaveCreateAgain(_) => Goto(s, g, Idle).(createLock := None)
  }

  /** One atomic step of goroutine `g`. */
  ghost predicate Step(s: State, g: Goroutine, x: Choice, s': State) {
    Ready(s, g, x) && s' == After(s, g, x)
  }

  /** Some goroutine takes a step. */
  ghost predicate Next(s: State, s': State) {
    exists g, x :: Step(s, g, x, s')
  }

  ghost predicate Initial(s: State) {
    && s.createLock.None? && s.table == map[] && s.heap == map[] && !s.crashed
    && forall g | g in s.control :: s.control[g].Idle?
  }

  /** A run: any interleaving, of any length, of any number of goroutines. */
  ghost predicate IsRun(run: seq<State>) {
    && |run| > 0
    && Initial(run[0])
    && forall i | 0 <= i < |run| - 1 :: Next(run[i], run[i + 1])
  }

  // ---- The invariant -------------------------------------------------------

  /** Between `createLock.Lock()` and `createLock.Unlock()`. */
  predicate InCreate(c: Control) {
    c.Lookup? || c.Store? || c.Count? || c.LeaveCreate? || c.Uncount? || c.Delete? || c.LeaveCreateAgain?
  }

  /** Between its own `refCount++` and `refCount--` on mutex `m`. */
  predicate Refers(c: Control, m: Address) {
    (c.LeaveCreate? || c.AwaitMu? || c.Holding? || c.Load? || c.ReleaseMu? || c.AwaitCreateAgain? || c.Uncount?)
    && c.mine == m
  }

  /** Between `mu.Lock()` and `mu.Unlock()` on mutex `m`. */
  predicate Owns(c: Control, m: Address) {
    (c.Holding? || c.Load? || c.ReleaseMu?) && c.mine == m
  }

  ghost function Referrers(s: State, m: Address): set<Goroutine> {
    set g | g in s.control && Refers(s.control[g], m)
  }

  /** The facts about one goroutine's control state. */
  ghost predicate Consistent(s: State, c: Control) {
    match c
    case Idle => true
    case AwaitCreate(_) => true
    case Lookup(_) => true
    case LeaveCreateAgain(_) => true
    case Store(t, m) => t !in s.table && m in s.heap && s.heap[m].refCount == 0 && m !in s.table.Values
    case Delete(t, m, r) => t in s.table && s.table[t] == m == r && m in s.heap && s.heap[m].refCount == 0
    case ReleaseMu(t, m, r) => t in s.table && s.table[t] == m == r
    case AwaitCreateAgain(t, m, r) => t in s.table && s.table[t] == m == r
    case Uncount(t, m, r) => t in s.table && s.table[t] == m == r
    case _ => c.t in s.table && s.table[c.t] == c.mine
  }

  /** The goroutine inside the creation lock is about to count, or to delete, the entry of mutex `m`. */
  ghost predicate Transient(s: State, m: Address) {
    exists g | g in s.control :: (s.control[g].Count? || s.control[g].Delete?) && s.control[g].mine == m
  }

  /** The creation lock is held by exactly the goroutine inside it. */
  ghost predicate CreateLockExact(s: State) {
    && (forall g | g in s.control :: InCreate(s.control[g]) <==> s.createLock == Some(g))
    && (s.createLock.Some? ==> s.createLock.value in s.control)
  }

  /** Table entries are allocated objects, no object serves two trade numbers. */
  ghost predicate TableInjective(s: State) {
    && (forall t | t in s.table :: s.table[t] in s.heap)
    && (forall t, u | t in s.table && u in s.table && s.table[t] == s.table[u] :: t == u)
  }

  ghost predicate AllConsistent(s: State) {
    forall g | g in s.control :: Consistent(s, s.control[g])
  }

  /** Every reference count is the number of goroutines between its `refCount++` and `refCount--`. */
  ghost predicate CountsExact(s: State) {
    forall m | m in s.heap :: s.heap[m].refCount == |Referrers(s, m)|
  }

  /** A mutex is locked by exactly the goroutine between `mu.Lock()` and `mu.Unlock()`. */
  ghost predicate OwnersExact(s: State) {
    && (forall m, g | m in s.heap && g in s.control :: Owns(s.control[g], m) <==> s.heap[m].owner == Some(g))
    && (forall m | m in s.heap && s.heap[m].owner.Some? :: s.heap[m].owner.value in s.control)
  }

  /** No entry outlives its last referrer. */
  ghost predicate EntriesReferenced(s: State) {
    forall t | t in s.table :: Referrers(s, s.table[t]) != {} || Transient(s, s.table[t])
  }

  ghost predicate Invariant(s: State) {
    && !s.crashed
    && CreateLockExact(s)
    && TableInjective(s)
    && AllConsistent(s)
    && CountsExact(s)
    && OwnersExact(s)
    && EntriesReferenced(s)
  }

  /** Moving one goroutine changes only that goroutine's membership. */
  lemma ReferrersAfterMove(s: State, s': State, g: Goroutine, c: Control, m: Address)
    requires g in s.control && s'.control == s.control[g := c]
    ensures Refers(c, m) && !Refers(s.control[g], m) ==>
              Referrers(s', m) == Referrers(s, m) + {g} && |Referrers(s', m)| == |Referrers(s, m)| + 1
    ensures !Refers(c, m) && Refers(s.control[g], m) ==>
              Referrers(s', m) == Referrers(s, m) - {g} && |Referrers(s', m)| == |Referrers(s, m)| - 1
    ensures Refers(c, m) == Refers(s.control[g], m) ==> Referrers(s', m) == Referrers(s, m)
  {
    if Refers(c, m) {
      assert Referrers(s', m) == Referrers(s, m) + {g};
    } else {
      assert Referrers(s', m) == Referrers(s, m) - {g};
    }
  }

  /** A step moves its goroutine into or out of the creation lock exactly as it takes or frees that lock. */
  lemma CreateLockDelta(s: State, g: Goroutine, x: Choice, s': State)
    requires Step(s, g, x, s') && !s'.crashed
    requires InCreate(s.control[g]) <==> s.createLock == Some(g)
    ensures s'.control == s.control[g := s'.control[g]]
    ensures InCreate(s'.control[g]) <==> s'.createLock == Some(g)
    ensures s'.createLock == s.createLock || (s.createLock == None && s'.createLock == Some(g))
            || (s.createLock == Some(g) && s'.createLock == None)
  {
  }

  lemma StepKeepsCreateLock(s: State, g: Goroutine, x: Choice, s': State)
    requires CreateLockExact(s) && Step(s, g, x, s') && !s'.crashed
    ensures CreateLockExact(s')
  {
    CreateLockDelta(s, g, x, s');
  }

  /** A step changes the table only by storing a fresh object under a missing key or by deleting its own entry. */
  lemma TableDelta(s: State, g: Goroutine, x: Choice, s': State)
    requires Step(s, g, x, s')
    ensures s.heap.Keys <= s'.heap.Keys
    ensures s.control[g].Store? ==> s'.table == s.table[s.control[g].t := s.control[g].mine]
    ensures s.control[g].Delete? ==> s'.table == s.table - {s.control[g].t}
    ensures !s.control[g].Store? && !s.control[g].Delete? ==> s'.table == s.table
  {
  }

  lemma StepKeepsTable(s: State, g: Goroutine, x: Choice, s': State)
    requires TableInjective(s) && Step(s, g, x, s') && Consistent(s, s.control[g])
    ensures TableInjective(s')
  {
    TableDelta(s, g, x, s');
  }

  lemma UncountedIsUnreferenced(s: State, m: Address, h: Goroutine)
    requires CountsExact(s) && m in s.heap && s.heap[m].refCount == 0 && h in s.control
    ensures !Refers(s.control[h], m)
  {
    assert h in Referrers(s, m) <==> Refers(s.control[h], m);
  }

  /** The goroutine that moves is consistent where it arrives. */
  lemma MoverIsConsistent(s: State, g: Goroutine, x: Choice, s': State)
    requires CreateLockExact(s) && TableInjective(s) && Step(s, g, x, s') && Consistent(s, s.control[g])
    requires CountsExact(s)
    ensures Consistent(s', s'.control[g])
  {
  }

  /** Outside the creation lock a step leaves the table and every reference count alone. */
  lemma OutsideCreateLock(s: State, g: Goroutine, x: Choice, s': State, m: Address)
    requires Step(s, g, x, s') && !InCreate(s.control[g])
    ensures s'.table == s.table && s'.heap.Keys == s.heap.Keys
    ensures m in s.heap ==> s'.heap[m].refCount == s.heap[m].refCount
  {
  }

  /** The others are not disturbed: what a step removes, nobody else names. */
  lemma BystanderIsConsistent(s: State, g: Goroutine, x: Choice, s': State, h: Goroutine)
    requires CreateLockExact(s) && CountsExact(s) && Step(s, g, x, s') && h in s.control && h != g
    requires Consistent(s, s.control[g]) && Consistent(s, s.control[h])
    ensures Consistent(s', s.control[h])
  {
    TableDelta(s, g, x, s');
    if s.control[g].Delete? {
      UncountedIsUnreferenced(s, s.control[g].mine, h);
    }
    if s.control[h].Store? || s.control[h].Delete? {
      OutsideCreateLock(s, g, x, s', s.control[h].mine);
    }
  }

  lemma StepKeepsControl(s: State, g: Goroutine, x: Choice, s': State)
    requires CreateLockExact(s) && TableInjective(s) && AllConsistent(s) && CountsExact(s)
    requires Step(s, g, x, s') && s'.control == s.control[g := s'.control[g]]
    ensures AllConsistent(s')
  {
    forall h | h in s'.control ensures Consistent(s', s'.control[h]) {
      if h == g {
        MoverIsConsistent(s, g, x, s');
      } else {
        BystanderIsConsistent(s, g, x, s', h);
      }
    }
  }

  /** A step changes a count by exactly the change in its own goroutine's standing. */
  lemma CountDelta(s: State, g: Goroutine, x: Choice, s': State, m: Address)
    requires Step(s, g, x, s') && !s'.crashed && Consistent(s, s.control[g]) && m in s'.heap
    ensures s'.control == s.control[g := s'.control[g]]
    ensures m in s.heap ==>
              s'.heap[m].refCount - s.heap[m].refCount
              == (if Refers(s'.control[g], m) then 1 else 0) - (if Refers(s.control[g], m) then 1 else 0)
    ensures m !in s.heap ==> s'.heap[m].refCount == 0 && !Refers(s'.control[g], m)
  {
  }

  lemma StepKeepsCounts(s: State, g: Goroutine, x: Choice, s': State)
    requires CountsExact(s) && AllConsistent(s) && TableInjective(s) && Step(s, g, x, s') && !s'.crashed
    ensures CountsExact(s')
  {
    forall m | m in s'.heap ensures s'.heap[m].refCount == |Referrers(s', m)| {
      CountDelta(s, g, x, s', m);
      ReferrersAfterMove(s, s', g, s'.control[g], m);
      if m !in s.heap {
        forall h | h in s.control ensures !Refers(s.control[h], m) {
          assert Consistent(s, s.control[h]);
        }
        assert Referrers(s, m) == {};
      }
    }
  }

  /** Loading through the table found the mutex this goroutine locked, so unlocking it cannot fail. */
  lemma UnlockNeverFails(s: State, g: Goroutine, x: Choice, s': State)
    requires OwnersExact(s) && TableInjective(s) && Step(s, g, x, s') && Consistent(s, s.control[g])
    ensures !s'.crashed
    ensures s'.control == s.control[g := s'.control[g]]
  {
    if s.control[g].ReleaseMu? {
      assert Owns(s.control[g], s.control[g].mine);
    }
  }

  lemma OwnerDelta(s: State, g: Goroutine, x: Choice, s': State, m: Address)
    requires Step(s, g, x, s') && !s'.crashed && Consistent(s, s.control[g]) && m in s'.heap
    ensures s'.control == s.control[g := s'.control[g]]
    ensures Owns(s'.control[g], m) && !Owns(s.control[g], m) ==>
              m in s.heap && s.heap[m].owner.None? && s'.heap[m].owner == Some(g)
    ensures !Owns(s'.control[g], m) && Owns(s.control[g], m) ==> s'.heap[m].owner.None?
    ensures Owns(s'.control[g], m) == Owns(s.control[g], m) && m in s.heap ==> s'.heap[m].owner == s.heap[m].owner
    ensures m !in s.heap ==> s'.heap[m].owner.None?
  {
  }

  lemma StepKeepsOwners(s: State, g: Goroutine, x: Choice, s': State)
    requires OwnersExact(s) && AllConsistent(s) && TableInjective(s) && Step(s, g, x, s')
    ensures !s'.crashed && OwnersExact(s')
  {
    UnlockNeverFails(s, g, x, s');
    forall m, h | m in s'.heap && h in s'.control
      ensures Owns(s'.control[h], m) <==> s'.heap[m].owner == Some(h)
    {
      OwnerDelta(s, g, x, s', m);
      assert Consistent(s, s.control[h]);
      assert Owns(s.control[h], m) ==> m in s.heap;
    }
    forall m | m in s'.heap && s'.heap[m].owner.Some? ensures s'.heap[m].owner.value in s'.control {
      OwnerDelta(s, g, x, s', m);
    }
  }

  /** What keeps an entry alive: somebody refers to it or the goroutine in the creation lock is working on it. */
  predicate Keeps(c: Control, m: Address) {
    Refers(c, m) || ((c.Count? || c.Delete?) && c.mine == m)
  }

  lemma KeptMeansReferenced(s: State, m: Address)
    ensures (exists h | h in s.control :: Keeps(s.control[h], m)) <==> Referrers(s, m) != {} || Transient(s, m)
  {
    if h :| h in Referrers(s, m) {
      assert Keeps(s.control[h], m);
    }
    if h :| h in s.control && Keeps(s.control[h], m) && Refers(s.control[h], m) {
      assert h in Referrers(s, m);
    }
  }

  /** A goroutine lets go of an entry only by deleting it, or by a decrement that leaves other referrers. */
  lemma MoverKeepsEntry(s: State, g: Goroutine, x: Choice, s': State, t: TradeNo)
    requires TableInjective(s) && Step(s, g, x, s') && !s'.crashed && Consistent(s, s.control[g])
    requires t in s'.table
    ensures s'.control == s.control[g := s'.control[g]]
    ensures Keeps(s'.control[g], s'.table[t]) || (t in s.table && s.table[t] == s'.table[t])
    ensures Keeps(s.control[g], s'.table[t]) && !Keeps(s'.control[g], s'.table[t]) ==>
              s.control[g].Uncount? && s.heap[s'.table[t]].refCount != 1
  {
  }

  lemma EntryReferencedAfterStep(s: State, g: Goroutine, x: Choice, s': State, t: TradeNo)
    requires Invariant(s) && Step(s, g, x, s') && !s'.crashed && t in s'.table
    ensures exists h | h in s'.control :: Keeps(s'.control[h], s'.table[t])
  {
    var m := s'.table[t];
    MoverKeepsEntry(s, g, x, s', t);
    if !Keeps(s'.control[g], m) {
      KeptMeansReferenced(s, m);
      var h :| h in s.control && Keeps(s.control[h], m);
      if h == g {
        assert g in Referrers(s, m) && |Referrers(s, m)| != 1;
        assert Referrers(s, m) != {g};
        h :| h in Referrers(s, m) && h != g;
      }
      assert Keeps(s'.control[h], m);
    }
  }

  lemma StepKeepsReferenced(s: State, g: Goroutine, x: Choice, s': State)
    requires Invariant(s) && Step(s, g, x, s') && !s'.crashed
    ensures EntriesReferenced(s')
  {
    forall t | t in s'.table ensures Referrers(s', s'.table[t]) != {} || Transient(s', s'.table[t]) {
      EntryReferencedAfterStep(s, g, x, s', t);
      KeptMeansReferenced(s', s'.table[t]);
    }
  }

  lemma StepKeepsInvariant(s: State, g: Goroutine, x: Choice, s': State)
    requires Invariant(s) && Step(s, g, x, s')
    ensures Invariant(s')
  {
    UnlockNeverFails(s, g, x, s');
    StepKeepsCreateLock(s, g, x, s');
    StepKeepsTable(s, g, x, s');
    StepKeepsControl(s, g, x, s');
    StepKeepsOwners(s, g, x, s');
    StepKeepsCounts(s, g, x, s');
    StepKeepsReferenced(s, g, x, s');
  }

  /** Every state of every run satisfies the invariant. */
  lemma {:induction false} RunKeepsInvariant(run: seq<State>, i: nat)
    requires IsRun(run) && i < |run|
    ensures Invariant(run[i])
  {
    if i == 0 {
      assert forall m :: Referrers(run[0], m) == {};
    } else {
      RunKeepsInvariant(run, i - 1);
      assert Next(run[i - 1], run[i]);
      var g, x :| Step(run[i - 1], g, x, run[i]);
      StepKeepsInvariant(run[i - 1], g, x, run[i]);
    }
  }

  // ---- What the protocol promises ------------------------------------------

  /** `LockOrder(t)` has returned and the matching `UnlockOrder(t)` has not yet released. */
  predicate Inside(s: State, g: Goroutine, t: TradeNo) {
    g in s.control && (s.control[g].Holding? || s.control[g].Load? || s.control[g].ReleaseMu?) && s.control[g].t == t
  }

  /** Between its own `refCount++` and `refCount--` for trade number `t`. */
  predicate Engaged(s: State, g: Goroutine, t: TradeNo) {
    g in s.control && s.control[g] != Idle && s.control[g].t == t
    && (s.control[g].LeaveCreate? || s.control[g].AwaitMu? || s.control[g].Holding? || s.control[g].Load?
        || s.control[g].ReleaseMu? || s.control[g].AwaitCreateAgain? || s.control[g].Uncount?)
  }

  /** In no run are two goroutines inside the same order at once. */
  lemma MutualExclusion(run: seq<State>, i: nat, g: Goroutine, h: Goroutine, t: TradeNo)
    requires IsRun(run) && i < |run|
    requires Inside(run[i], g, t) && Inside(run[i], h, t)
    ensures g == h
  {
    var s := run[i];
    RunKeepsInvariant(run, i);
    assert Consistent(s, s.control[g]) && Consistent(s, s.control[h]);
    assert Owns(s.control[g], s.table[t]) && Owns(s.control[h], s.table[t]);
  }

  /** Inside the creation lock, about to count the entry of `t` or to delete it. */
  predicate Passing(s: State, g: Goroutine, t: TradeNo) {
    g in s.control && (s.control[g].Count? || s.control[g].Delete?) && s.control[g].t == t
  }

  /**
    In every state, an entry for `t` exists exactly when some goroutine is engaged
    with `t` or is, inside the creation lock, about to count or to delete the
    entry; and its count is the number of the engaged.
   */
  lemma EntryExactlyWhenEngaged(run: seq<State>, i: nat, t: TradeNo)
    requires IsRun(run) && i < |run|
    ensures t in run[i].table <==> (exists g :: Engaged(run[i], g, t)) || (exists g :: Passing(run[i], g, t))
    ensures t in run[i].table ==>
              && run[i].table[t] in run[i].heap
              && run[i].heap[run[i].table[t]].refCount == |set g | g in run[i].control && Engaged(run[i], g, t)|
  {
    var s := run[i];
    RunKeepsInvariant(run, i);
    if t in s.table {
      EntryCountsEngaged(s, t);
    }
    if g :| Engaged(s, g, t) || Passing(s, g, t) {
      assert Consistent(s, s.control[g]);
    }
  }

  lemma EntryCountsEngaged(s: State, t: TradeNo)
    requires Invariant(s) && t in s.table
    ensures s.table[t] in s.heap && s.heap[s.table[t]].refCount == |set g | g in s.control && Engaged(s, g, t)|
    ensures (exists g :: Engaged(s, g, t)) || (exists g :: Passing(s, g, t))
  {
    var m := s.table[t];
    forall g | g in s.control ensures Refers(s.control[g], m) <==> Engaged(s, g, t) {
      assert Consistent(s, s.control[g]);
    }
    assert Referrers(s, m) == set g | g in s.control && Engaged(s, g, t);
    if Referrers(s, m) != {} {
      var g :| g in Referrers(s, m);
      assert Engaged(s, g, t);
    } else {
      var g :| g in s.control && (s.control[g].Count? || s.control[g].Delete?) && s.control[g].mine == m;
      assert Consistent(s, s.control[g]);
      assert Passing(s, g, t);
    }
  }

  /** When the creation lock is free nobody is passing: an entry exists exactly when some goroutine is engaged. */
  lemma NobodyPassing(run: seq<State>, i: nat, g: Goroutine, t: TradeNo)
    requires IsRun(run) && i < |run| && run[i].createLock.None?
    ensures !Passing(run[i], g, t)
  {
    RunKeepsInvariant(run, i);
  }

  /**
    The unguarded `Load` of `UnlockOrder` always finds an entry, and it is the very
    mutex this goroutine locked; the following `mu.Unlock()` therefore never fails.
   */
  lemma LoadFindsOwnMutex(run: seq<State>, i: nat, g: Goroutine)
    requires IsRun(run) && i < |run| && g in run[i].control
    ensures !run[i].crashed
    ensures run[i].control[g].Load? ==>
              && run[i].control[g].t in run[i].table
              && run[i].table[run[i].control[g].t] == run[i].control[g].mine
    ensures run[i].control[g].ReleaseMu? ==>
              && run[i].control[g].rcm == run[i].control[g].mine
              && run[i].control[g].rcm in run[i].heap
              && run[i].heap[run[i].control[g].rcm].owner == Some(g)
  {
    var s := run[i];
    RunKeepsInvariant(run, i);
    assert Consistent(s, s.control[g]);
    if s.control[g].ReleaseMu? {
      assert Owns(s.control[g], s.control[g].mine);
    }
  }

  /** When nobody is in the protocol nothing is left behind in the table. */
  lemma QuiescentTableIsEmpty(run: seq<State>, i: nat)
    requires IsRun(run) && i < |run|
    requires AllIdle(run[i])
    ensures run[i].table == map[] && run[i].createLock.None?
  {
    RunKeepsInvariant(run, i);
    IdleMeansEmpty(run[i]);
  }

  predicate AllIdle(s: State) {
    forall g | g in s.control :: s.control[g].Idle?
  }

  lemma IdleMeansEmpty(s: State)
    requires Invariant(s) && AllIdle(s)
    ensures s.table == map[] && s.createLock.None?
  {
    forall t ensures t !in s.table {
      if t in s.table {
        KeptMeansReferenced(s, s.table[t]);
        assert false;
      }
    }
  }

  // ---- Progress ------------------------------------------------------------

  /** A goroutine inside a call of `LockOrder` or `UnlockOrder`. */
  predicate InCall(c: Control) {
    !c.Idle? && !c.Holding?
  }

  /** An address at which nothing has been allocated. */
  lemma {:induction false} FreshAddress(heap: map<Address, Mutex>) returns (a: Address)
    ensures forall m | m in heap :: m < a
    decreases |heap|
  {
    a := 0;
    if heap != map[] {
      var m :| m in heap;
      assert (heap - {m}).Keys == heap.Keys - {m};
      var b := FreshAddress(heap - {m});
      a := if m < b then b else m + 1;
      forall k | k in heap ensures k < a {
        assert k != m ==> k in heap - {m};
      }
    }
  }

  /** Whatever is enabled can really take a step: its mutex is allocated and nothing has crashed. */
  lemma EnabledCanStep(s: State, g: Goroutine) returns (x: Choice, s': State)
    requires Invariant(s) && g in s.control && Enabled(s, g)
    ensures Step(s, g, x, s')
  {
    var a := FreshAddress(s.heap);
    x := Choice("", a);
    assert Consistent(s, s.control[g]);
    s' := After(s, g, x);
  }

  // ---- Every call is about its own trade number ------------------------------

  /** A call starts with the trade number that was chosen, and no later step of it changes that. */
  lemma StepKeepsTrade(s: State, g: Goroutine, x: Choice, s': State, h: Goroutine)
    requires Step(s, g, x, s') && h in s.control
    ensures h in s'.control && (h != g ==> s'.control[h] == s.control[h])
    ensures h == g && s.control[g].Idle? ==> !s'.control[g].Idle? && s'.control[g].t == x.t
    ensures h == g && !s.control[g].Idle? && !s'.control[g].Idle? ==> s'.control[g].t == s.control[g].t
  {
  }

  lemma NextKeepsTrade(s: State, s': State, g: Goroutine)
    requires Next(s, s') && g in s.control && !s.control[g].Idle? && g in s'.control && !s'.control[g].Idle?
    ensures s'.control[g].t == s.control[g].t
  {
    var h, y :| Step(s, h, y, s');
    StepKeepsTrade(s, h, y, s', g);
  }

  /** In every run, a goroutine that starts a call for `x.t` is about `x.t` in every state until it is idle again. */
  lemma {:induction false} CallKeepsTrade(run: seq<State>, i: nat, j: nat, g: Goroutine, x: Choice)
    requires IsRun(run) && i < j < |run|
    requires Step(run[i], g, x, run[i + 1]) && run[i].control[g].Idle?
    requires forall k | i < k <= j :: g in run[k].control && !run[k].control[g].Idle?
    ensures run[j].control[g].t == x.t
    decreases j
  {
    if j == i + 1 {
      StepKeepsTrade(run[i], g, x, run[j], g);
    } else {
      CallKeepsTrade(run, i, j - 1, g, x);
      NextKeepsTrade(run[j - 1], run[j], g);
    }
  }

  /** States of which each follows from the one before it by a step of `g`. */
  ghost predicate OwnSteps(path: seq<State>, g: Goroutine) {
    path != [] && forall i | 0 <= i < |path| - 1 :: StepsOn(path[i], g, path[i + 1])
  }

  ghost predicate StepsOn(s: State, g: Goroutine, s': State) {
    exists x :: Step(s, g, x, s')
  }

  lemma PathGrows(path: seq<State>, g: Goroutine, x: Choice, s: State)
    requires OwnSteps(path, g) && Step(path[|path| - 1], g, x, s)
    ensures OwnSteps(path + [s], g)
  {
    assert StepsOn(path[|path| - 1], g, s);
    forall i | 0 <= i < |path| ensures StepsOn((path + [s])[i], g, (path + [s])[i + 1]) {
      assert i < |path| - 1 ==> StepsOn(path[i], g, path[i + 1]);
    }
  }

  /** Nobody but `g` is in a call for `t`. */
  ghost predicate Alone(s: State, g: Goroutine, t: TradeNo) {
    forall h | h in s.control && h != g && !s.control[h].Idle? :: s.control[h].t != t
  }

  lemma EntryHasCaller(s: State, t: TradeNo) returns (h: Goroutine)
    requires Invariant(s) && t in s.table
    ensures h in s.control && !s.control[h].Idle? && s.control[h].t == t
  {
    EntryCountsEngaged(s, t);
    if g :| Engaged(s, g, t) {
      h := g;
    } else {
      h :| Passing(s, h, t);
    }
  }

  lemma NoEntryWhenAlone(s: State, g: Goroutine, t: TradeNo)
    requires Invariant(s) && Alone(s, g, t) && g in s.control && s.control[g].Idle?
    ensures t !in s.table
  {
    if t in s.table {
      var h := EntryHasCaller(s, t);
      assert false;
    }
  }

  /** The steps of `LockOrder(t)` up to the new mutex. */
  lemma LockAllocates(s: State, g: Goroutine, t: TradeNo) returns (path: seq<State>, a: Address)
    requires g in s.control && s.control[g].Idle? && s.createLock.None? && !s.crashed && t !in s.table
    ensures OwnSteps(path, g) && path[0] == s && a !in s.heap
    ensures path[|path| - 1] == s.(createLock := Some(g), heap := s.heap[a := Mutex(0, None)], control := s.control[g := Store(t, a)])
  {
    a := FreshAddress(s.heap);
    var x := Choice(t, a);
    var s1 := s.(control := s.control[g := AwaitCreate(t)]);
    var s2 := s.(createLock := Some(g), control := s.control[g := Lookup(t)]);
    var s3 := s.(createLock := Some(g), heap := s.heap[a := Mutex(0, None)], control := s.control[g := Store(t, a)]);
    assert s1.control[g := Lookup(t)] == s2.control && s2.control[g := Store(t, a)] == s3.control;
    path := [s];
    PathGrows(path, g, x, s1);
    path := path + [s1];
    PathGrows(path, g, x, s2);
    path := path + [s2];
    PathGrows(path, g, x, s3);
    path := path + [s3];
  }

  /** The steps from the new mutex until `LockOrder(t)` returns. */
  lemma LockEnters(s: State, g: Goroutine, t: TradeNo, a: Address) returns (path: seq<State>)
    requires g in s.control && s.control[g] == Store(t, a) && !s.crashed && a in s.heap && s.heap[a] == Mutex(0, None)
    ensures OwnSteps(path, g) && path[0] == s
    ensures path[|path| - 1] == s.(createLock := None, table := s.table[t := a], heap := s.heap[a := Mutex(1, Some(g))],
                                   control := s.control[g := Holding(t, a)])
  {
    var x := Choice(t, a);
    var s1 := s.(table := s.table[t := a], control := s.control[g := Count(t, a)]);
    var s2 := s1.(heap := s.heap[a := Mutex(1, None)], control := s.control[g := LeaveCreate(t, a)]);
    var s3 := s2.(createLock := None, control := s.control[g := AwaitMu(t, a)]);
    var s4 := s3.(heap := s.heap[a := Mutex(1, Some(g))], control := s.control[g := Holding(t, a)]);
    assert s1.control[g := LeaveCreate(t, a)] == s2.control && s2.control[g := AwaitMu(t, a)] == s3.control;
    assert s3.control[g := Holding(t, a)] == s4.control && s3.heap[a := Mutex(1, Some(g))] == s4.heap;
    path := [s];
    PathGrows(path, g, x, s1);
    path := path + [s1];
    PathGrows(path, g, x, s2);
    path := path + [s2];
    PathGrows(path, g, x, s3);
    path := path + [s3];
    PathGrows(path, g, x, s4);
    path := path + [s4];
  }

  lemma PathsJoin(p: seq<State>, q: seq<State>, g: Goroutine)
    requires OwnSteps(p, g) && OwnSteps(q, g) && p[|p| - 1] == q[0]
    ensures OwnSteps(p + q[1..], g)
  {
    var r := p + q[1..];
    forall i | 0 <= i < |r| - 1 ensures StepsOn(r[i], g, r[i + 1]) {
      if i < |p| - 1 {
        assert StepsOn(p[i], g, p[i + 1]);
      } else {
        assert StepsOn(q[i - |p| + 1], g, q[i - |p| + 2]);
      }
    }
  }

  /**
    In every state of a run in which the creation lock is free and nobody else is
    in a call for `t`, the steps of `g` alone take it inside order `t`; the entry
    of `t` is then its own mutex, locked by it and counted once.
   */
  lemma LockAlone(run: seq<State>, i: nat, g: Goroutine, t: TradeNo) returns (path: seq<State>)
    requires IsRun(run) && i < |run| && run[i].createLock.None?
    requires g in run[i].control && run[i].control[g].Idle? && Alone(run[i], g, t)
    ensures OwnSteps(path, g) && path[0] == run[i]
    ensures var s := path[|path| - 1];
            && Inside(s, g, t) && t in s.table && s.table[t] == s.control[g].mine
            && s.table[t] in s.heap && s.heap[s.table[t]] == Mutex(1, Some(g))
            && (forall u | u != t :: (u in s.table <==> u in run[i].table) && (u in s.table ==> s.table[u] == run[i].table[u]))
  {
    var s := run[i];
    RunKeepsInvariant(run, i);
    NoEntryWhenAlone(s, g, t);
    var p, a := LockAllocates(s, g, t);
    var q := LockEnters(p[|p| - 1], g, t, a);
    PathsJoin(p, q, g);
    path := p + q[1..];
  }

  /**
    No deadlock: if some goroutine is inside a call, then some goroutine inside a
    call can take a step, unless every one of them waits on an order mutex whose
    holder is outside any call and has yet to call `UnlockOrder`.
   */
  lemma SomeCallCanProceed(run: seq<State>, i: nat)
    requires IsRun(run) && i < |run|
    ensures (exists g, x, s' :: Step(run[i], g, x, s') && InCall(run[i].control[g]))
         || (forall g | g in run[i].control && InCall(run[i].control[g]) ::
               run[i].control[g].AwaitMu? && HeldOutside(run[i], run[i].control[g].mine))
  {
    var s := run[i];
    RunKeepsInvariant(run, i);
    if g :| g in s.control && InCall(s.control[g]) && !(s.control[g].AwaitMu? && HeldOutside(s, s.control[g].mine)) {
      var h := SomeCallEnabled(s, g);
      var x, s' := EnabledCanStep(s, h);
      assert Step(s, h, x, s') && InCall(s.control[h]);
    }
  }

  lemma SomeCallEnabled(s: State, g: Goroutine) returns (h: Goroutine)
    requires Invariant(s) && g in s.control && InCall(s.control[g])
    requires !(s.control[g].AwaitMu? && HeldOutside(s, s.control[g].mine))
    ensures h in s.control && InCall(s.control[h]) && Enabled(s, h)
  {
    if s.createLock.Some? {
      h := s.createLock.value;
    } else if s.control[g].AwaitMu? {
      assert Consistent(s, s.control[g]);
      var m := s.control[g].mine;
      h := if s.heap[m].owner.None? then g else s.heap[m].owner.value;
      assert h != g ==> Owns(s.control[h], m);
    } else {
      h := g;
    }
  }

  /** Mutex `m` is held by a goroutine whose `LockOrder` has returned and that has not called `UnlockOrder`. */
  predicate HeldOutside(s: State, m: Address) {
    && m in s.heap && s.heap[m].owner.Some? && s.heap[m].owner.value in s.control
    && s.control[s.heap[m].owner.value].Holding?
    && s.control[s.heap[m].owner.value].mine == m
  }

  /** An upper bound on the steps a goroutine has left before it is idle again. */
  function Rank(c: Control): nat {
    match c
    case Idle => 0
    case AwaitCreate(_) => 13
    case Lookup(_) => 12
    case Store(_, _) => 11
    case Count(_, _) => 10
    case LeaveCreate(_, _) => 9
    case AwaitMu(_, _) => 8
    case Holding(_, _) => 7
    case Load(_, _) => 6
    case ReleaseMu(_, _, _) => 5
    case AwaitCreateAgain(_, _, _) => 4
    case Uncount(_, _, _) => 3
    case Delete(_, _, _) => 2
    case LeaveCreateAgain(_) => 1
  }

  ghost function Weight(control: map<Goroutine, Control>): nat {
    if control == map[] then 0
    else
      var g :| g in control;
      Rank(control[g]) + Weight(control - {g})
  }

  lemma {:induction false} WeightSplit(control: map<Goroutine, Control>, g: Goroutine)
    requires g in control
    ensures Weight(control) == Rank(control[g]) + Weight(control - {g})
  {
    var h :| h in control && Weight(control) == Rank(control[h]) + Weight(control - {h});
    if h != g {
      WeightSplit(control - {h}, g);
      WeightSplit(control - {g}, h);
      assert control - {h} - {g} == control - {g} - {h};
    }
  }

  /** A run from `s` in which no goroutine starts a new call. */
  ghost predicate Drains(s: State, run: seq<State>) {
    && |run| > 0 && run[0] == s
    && forall i | 0 <= i < |run| - 1 :: NextWithoutCall(run[i], run[i + 1])
  }

  ghost predicate NextWithoutCall(s: State, s': State) {
    exists g, x :: Step(s, g, x, s') && !s.control[g].Idle?
  }

  lemma StepLowersRank(s: State, g: Goroutine, x: Choice, s': State)
    requires Step(s, g, x, s') && !s.control[g].Idle? && !s'.crashed && g in s'.control
    ensures Rank(s'.control[g]) < Rank(s.control[g])
  {
  }

  lemma StepMovesOne(s: State, g: Goroutine, x: Choice, s': State)
    requires Step(s, g, x, s')
    ensures g in s'.control && s'.control == s.control[g := s'.control[g]]
  {
  }

  lemma StepLowersWeight(s: State, g: Goroutine, x: Choice, s': State)
    requires Step(s, g, x, s') && !s.control[g].Idle? && !s'.crashed
    ensures Weight(s'.control) < Weight(s.control)
  {
    StepMovesOne(s, g, x, s');
    StepLowersRank(s, g, x, s');
    WeightSplit(s.control, g);
    WeightSplit(s'.control, g);
    assert s'.control - {g} == s.control - {g};
  }

  /** Nobody who is in the protocol has a step to take. */
  ghost predicate Stuck(s: State) {
    forall s' :: !NextWithoutCall(s, s')
  }

  /** If some goroutine is not idle, some goroutine that is not idle can take a step. */
  lemma SomebodyCanMove(s: State, g: Goroutine) returns (h: Goroutine)
    requires Invariant(s) && g in s.control && !s.control[g].Idle?
    ensures h in s.control && !s.control[h].Idle? && Enabled(s, h)
  {
    if s.control[g].Holding? {
      h := g;
    } else if s.control[g].AwaitMu? && HeldOutside(s, s.control[g].mine) {
      h := s.heap[s.control[g].mine].owner.value;
    } else {
      h := SomeCallEnabled(s, g);
    }
  }

  lemma StuckMeansIdle(s: State)
    requires Invariant(s) && Stuck(s)
    ensures AllIdle(s) && s.table == map[]
  {
    forall g | g in s.control ensures s.control[g].Idle? {
      if !s.control[g].Idle? {
        var h := SomebodyCanMove(s, g);
        var x, s' := EnabledCanStep(s, h);
        assert NextWithoutCall(s, s');
        assert false;
      }
    }
    IdleMeansEmpty(s);
  }

  lemma DrainStep(s: State, s': State)
    requires Invariant(s) && NextWithoutCall(s, s')
    ensures Invariant(s') && Weight(s'.control) < Weight(s.control)
  {
    var g, x :| Step(s, g, x, s') && !s.control[g].Idle?;
    StepKeepsInvariant(s, g, x, s');
    StepLowersWeight(s, g, x, s');
  }

  /**
    Every schedule that starts no new call is finite, with the bound known in
    advance; and where it can go no further, every goroutine is idle and the
    table is empty.  So no interleaving deadlocks and none leaks an entry.
   */
  lemma {:induction false} EveryScheduleDrains(s: State, run: seq<State>)
    requires Invariant(s) && Drains(s, run)
    ensures |run| - 1 + Weight(run[|run| - 1].control) <= Weight(s.control)
    ensures Stuck(run[|run| - 1]) ==> AllIdle(run[|run| - 1]) && run[|run| - 1].table == map[]
    decreases |run|
  {
    if |run| > 1 {
      DrainStep(run[0], run[1]);
      assert forall i | 0 <= i < |run[1..]| - 1 :: run[1..][i] == run[i + 1] && NextWithoutCall(run[i + 1], run[i + 2]);
      EveryScheduleDrains(run[1], run[1..]);
    } else if Stuck(s) {
      StuckMeansIdle(s);
    }
  }

  /** After any run whatever: no schedule deadlocks, and when all calls have ended the table is empty. */
  lemma NoDeadlockNoLeak(past: seq<State>, run: seq<State>)
    requires IsRun(past) && Drains(past[|past| - 1], run)
    ensures |run| - 1 <= Weight(past[|past| - 1].control)
    ensures Stuck(run[|run| - 1]) ==> AllIdle(run[|run| - 1]) && run[|run| - 1].table == map[]
  {
    RunKeepsInvariant(past, |past| - 1);
    EveryScheduleDrains(past[|past| - 1], run);
  }
}
