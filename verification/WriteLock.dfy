/**
 * The write-lock protocol of the DuckDB wrapper (internal/storage/duckdb.go), as the interleaved steps
 * of any number of goroutines.
 *
 * One mutex serializes Exec, ExecContext and write transactions.  BeginTX hands the lock over to the
 * transaction it returns, and whichever Commit or Rollback first sets the `done` flag gives it back.
 * Any goroutine may finish any transaction, any number of times.  Each step below is one critical
 * section, or the SQL work between two of them.
 */
module WriteLock {
  import opened Std

  type Goroutine = nat

  /** Each Lock() call gets a ticket, so that unlocks can be counted per acquisition. */
  datatype Tx = Tx(write: bool, done: bool, ticket: nat)

  /** Where a goroutine stands; one that is not in the map is outside the wrapper. */
  datatype Frame =
    | Writing(ticket: nat)      // in Exec or ExecContext, lock held
    | Beginning(ticket: nat)    // in BeginTX, lock held, no transaction handed out yet
    | Finishing(tx: nat)        // in Commit or Rollback, `done` just set, lock not yet released

  datatype State = State(
    locked: bool, unlocks: seq<nat>, frames: map<Goroutine, Frame>, txs: seq<Tx>, crashed: bool)

  datatype Action =
    | LockExec(g: Goroutine)
    | UnlockExec(g: Goroutine)
    | LockBegin(g: Goroutine)
    | BeginFails(g: Goroutine)
    | BeginSucceeds(g: Goroutine)
    | BeginRead(g: Goroutine)
    | Finish(g: Goroutine, tx: nat)
    | Release(g: Goroutine)

  const Init: State := State(false, [], map[], [], false)

  /** sync.Mutex.Unlock: unlocking a mutex that is not locked is a fatal error. */
  function Unlock(s: State, ticket: nat): State {
    var counted := if ticket < |s.unlocks| then s.(unlocks := s.unlocks[ticket := s.unlocks[ticket] + 1]) else s;
    if s.locked then counted.(locked := false) else counted.(crashed := true)
  }

  function Leave(s: State, g: Goroutine): State {
    s.(frames := s.frames - {g})
  }

  /** The state after one step; None when the step is not possible there. */
  function Apply(s: State, a: Action): (r: Option<State>) {
    match a
    case LockExec(g) =>
      if g in s.frames || s.locked then None
      else Some(s.(locked := true, unlocks := s.unlocks + [0], frames := s.frames[g := Writing(|s.unlocks|)]))
    case UnlockExec(g) =>
      if g !in s.frames || !s.frames[g].Writing? then None
      else Some(Leave(Unlock(s, s.frames[g].ticket), g))
    case LockBegin(g) =>
      if g in s.frames || s.locked then None
      else Some(s.(locked := true, unlocks := s.unlocks + [0], frames := s.frames[g := Beginning(|s.unlocks|)]))
    case BeginFails(g) =>
      if g !in s.frames || !s.frames[g].Beginning? then None
      else Some(Leave(Unlock(s, s.frames[g].ticket), g))
    case BeginSucceeds(g) =>
      if g !in s.frames || !s.frames[g].Beginning? then None
      else Some(Leave(s.(txs := s.txs + [Tx(true, false, s.frames[g].ticket)]), g))
    case BeginRead(g) =>
      if g in s.frames then None else Some(s.(txs := s.txs + [Tx(false, false, 0)]))
    case Finish(g, x) =>
      if g in s.frames || x >= |s.txs| then None
      else if s.txs[x].done then Some(s)
      else Some(s.(txs := s.txs[x := s.txs[x].(done := true)], frames := s.frames[g := Finishing(x)]))
    case Release(g) =>
      if g !in s.frames || !s.frames[g].Finishing? || s.frames[g].tx >= |s.txs| then None
      else
        var tx := s.txs[s.frames[g].tx];
        Some(Leave(if tx.write then Unlock(s, tx.ticket) else s, g))
  }

  // ----- who holds the lock -----

  datatype Holder = ByGoroutine(g: Goroutine) | ByTx(tx: nat)

  /** A goroutine inside a locked section, or a write transaction that nobody has finished. */
  ghost predicate Holds(s: State, h: Holder) {
    match h
    case ByGoroutine(g) =>
      && g in s.frames
      && (s.frames[g].Finishing? ==> s.frames[g].tx < |s.txs| && s.txs[s.frames[g].tx].write)
    case ByTx(x) => x < |s.txs| && s.txs[x].write && !s.txs[x].done
  }

  ghost function TicketOf(s: State, h: Holder): nat
    requires Holds(s, h)
  {
    match h
    case ByGoroutine(g) => if s.frames[g].Finishing? then s.txs[s.frames[g].tx].ticket else s.frames[g].ticket
    case ByTx(x) => s.txs[x].ticket
  }

  ghost predicate TicketsKnown(s: State) {
    && (forall g :: g in s.frames && s.frames[g].Finishing? ==> s.frames[g].tx < |s.txs| && s.txs[s.frames[g].tx].done)
    && (forall h :: Holds(s, h) ==> TicketOf(s, h) < |s.unlocks|)
  }

  /** The lock is held exactly while something holds it, and by one thing at a time. */
  ghost predicate LockMatchesHolders(s: State) {
    && (s.locked <==> exists h :: Holds(s, h))
    && (forall h, h' :: Holds(s, h) && Holds(s, h') ==> h == h')
  }

  /** An acquisition has been given back once, unless its holder is still there. */
  ghost predicate UnlockedOnce(s: State) {
    forall k :: 0 <= k < |s.unlocks| ==>
      s.unlocks[k] == if exists h :: Holds(s, h) && TicketOf(s, h) == k then 0 else 1
  }

  ghost predicate Inv(s: State) {
    TicketsKnown(s) && LockMatchesHolders(s) && UnlockedOnce(s) && !s.crashed
  }

  // ----- every step keeps the invariant -----

  /** Taking the free lock: the new holder is the only one. */
  lemma AcquireKeeps(s: State, s': State, g: Goroutine, f: Frame)
    requires Inv(s) && !s.locked && g !in s.frames && !f.Finishing? && f.ticket == |s.unlocks|
    requires s' == s.(locked := true, unlocks := s.unlocks + [0], frames := s.frames[g := f])
    ensures Inv(s')
  {
    forall h | Holds(s', h) ensures h == ByGoroutine(g) {
      if h != ByGoroutine(g) { assert Holds(s, h); }
    }
    assert Holds(s', ByGoroutine(g)) && TicketOf(s', ByGoroutine(g)) == |s.unlocks|;
  }

  /** The only holder leaves and unlocks: nobody holds the lock afterwards. */
  lemma ReleaseKeeps(s: State, s': State, g: Goroutine)
    requires Inv(s) && Holds(s, ByGoroutine(g))
    requires s' == Leave(Unlock(s, TicketOf(s, ByGoroutine(g))), g)
    ensures Inv(s')
  {
    var k := TicketOf(s, ByGoroutine(g));
    forall h ensures !Holds(s', h) {
      assert Holds(s', h) ==> Holds(s, h);
    }
    assert s.unlocks[k] == 0;
    assert forall h :: Holds(s, h) ==> TicketOf(s, h) == k;
  }

  /** The lock passes from one holder to another under the same ticket. */
  lemma HandOverKeeps(s: State, s': State, from: Holder, to: Holder)
    requires Inv(s) && Holds(s, from) && Holds(s', to) && TicketOf(s', to) == TicketOf(s, from)
    requires forall h :: Holds(s', h) ==> h == to
    requires s'.locked == s.locked && s'.unlocks == s.unlocks && s'.crashed == s.crashed
    requires forall g :: g in s'.frames && s'.frames[g].Finishing? ==>
      s'.frames[g].tx < |s'.txs| && s'.txs[s'.frames[g].tx].done
    ensures Inv(s')
  {
    assert forall h :: Holds(s, h) ==> TicketOf(s, h) == TicketOf(s, from);
    assert forall h :: Holds(s', h) ==> TicketOf(s', h) == TicketOf(s, from);
  }

  /** A step that changes neither the lock nor who holds it. */
  lemma SameHoldersKeeps(s: State, s': State)
    requires Inv(s)
    requires forall h :: Holds(s', h) <==> Holds(s, h)
    requires forall h :: Holds(s', h) ==> TicketOf(s', h) == TicketOf(s, h)
    requires s'.locked == s.locked && s'.unlocks == s.unlocks && s'.crashed == s.crashed
    requires forall g :: g in s'.frames && s'.frames[g].Finishing? ==>
      s'.frames[g].tx < |s'.txs| && s'.txs[s'.frames[g].tx].done
    ensures Inv(s')
  {
    forall k | 0 <= k < |s.unlocks|
      ensures s'.unlocks[k] == if exists h :: Holds(s', h) && TicketOf(s', h) == k then 0 else 1
    {
      if h :| Holds(s, h) && TicketOf(s, h) == k {
        assert Holds(s', h);
      }
    }
    if s.locked {
      var h :| Holds(s, h);
      assert Holds(s', h);
    }
  }

  lemma BeginSucceedsKeeps(s: State, g: Goroutine)
    requires Inv(s) && g in s.frames && s.frames[g].Beginning?
    ensures Apply(s, BeginSucceeds(g)).Some? && Inv(Apply(s, BeginSucceeds(g)).value)
  {
    var s' := Apply(s, BeginSucceeds(g)).value;
    var x := |s.txs|;
    assert Holds(s, ByGoroutine(g));
    forall h | Holds(s', h) ensures h == ByTx(x) {
      if h != ByTx(x) { assert Holds(s, h); }
    }
    HandOverKeeps(s, s', ByGoroutine(g), ByTx(x));
  }

  lemma FinishKeeps(s: State, g: Goroutine, x: nat)
    requires Inv(s) && g !in s.frames && x < |s.txs| && !s.txs[x].done
    ensures Apply(s, Finish(g, x)).Some? && Inv(Apply(s, Finish(g, x)).value)
  {
    var s' := Apply(s, Finish(g, x)).value;
    if s.txs[x].write {
      assert Holds(s, ByTx(x));
      forall h | Holds(s', h) ensures h == ByGoroutine(g) {
        if h != ByGoroutine(g) { assert Holds(s, h); }
      }
      HandOverKeeps(s, s', ByTx(x), ByGoroutine(g));
    } else {
      SameHoldersKeeps(s, s');
    }
  }

  lemma ReadReleaseKeeps(s: State, g: Goroutine)
    requires Inv(s) && g in s.frames && s.frames[g].Finishing? && !s.txs[s.frames[g].tx].write
    ensures Apply(s, Release(g)).Some? && Inv(Apply(s, Release(g)).value)
  {
    SameHoldersKeeps(s, Apply(s, Release(g)).value);
  }

  lemma StepKeeps(s: State, a: Action)
    requires Inv(s) && Apply(s, a).Some?
    ensures Inv(Apply(s, a).value)
  {
    var s' := Apply(s, a).value;
    match a
    case LockExec(g) => AcquireKeeps(s, s', g, Writing(|s.unlocks|));
    case LockBegin(g) => AcquireKeeps(s, s', g, Beginning(|s.unlocks|));
    case UnlockExec(g) => ReleaseKeeps(s, s', g);
    case BeginFails(g) => ReleaseKeeps(s, s', g);
    case BeginSucceeds(g) => BeginSucceedsKeeps(s, g);
    case BeginRead(g) => SameHoldersKeeps(s, s');
    case Finish(g, x) => if !s.txs[x].done { FinishKeeps(s, g, x); }
    case Release(g) => if s.txs[s.frames[g].tx].write { ReleaseKeeps(s, s', g); } else { ReadReleaseKeeps(s, g); }
  }

  // ----- whole runs -----

  /** The state after a run of steps; None when some step is not possible when its turn comes. */
  function Run(actions: seq<Action>): (r: Option<State>) {
    if actions == [] then Some(Init)
    else
      var s := Run(actions[..|actions| - 1]);
      if s.None? then None else Apply(s.value, actions[|actions| - 1])
  }

  lemma {:induction false} RunKeeps(actions: seq<Action>)
    requires Run(actions).Some?
    ensures Inv(Run(actions).value)
  {
    if actions != [] {
      RunKeeps(actions[..|actions| - 1]);
      StepKeeps(Run(actions[..|actions| - 1]).value, actions[|actions| - 1]);
    }
  }

  /** In every interleaving at most one write statement or write transaction is active. */
  lemma OneWriterAtATime(actions: seq<Action>, h: Holder, h': Holder)
    requires Run(actions).Some? && Holds(Run(actions).value, h) && Holds(Run(actions).value, h')
    ensures h == h' && Run(actions).value.locked
  {
    RunKeeps(actions);
  }

  /**
   * In every interleaving no acquisition is unlocked twice, the mutex is never unlocked while free,
   * and once nothing holds the lock every acquisition has been unlocked exactly once.
   */
  lemma EveryAcquisitionUnlockedOnce(actions: seq<Action>, k: nat)
    requires Run(actions).Some? && k < |Run(actions).value.unlocks|
    ensures var s := Run(actions).value;
      && !s.crashed && s.unlocks[k] <= 1
      && (s.unlocks[k] == 0 <==> exists h :: Holds(s, h) && TicketOf(s, h) == k)
      && (!s.locked ==> s.unlocks[k] == 1)
  {
    RunKeeps(actions);
  }

  /** Finishing an open write transaction frees the lock; finishing it again changes nothing. */
  lemma FinishFreesLock(actions: seq<Action>, g: Goroutine, g': Goroutine, x: nat)
    requires Run(actions).Some?
    requires var s := Run(actions).value;
      x < |s.txs| && s.txs[x].write && !s.txs[x].done && g !in s.frames && g' !in s.frames
    ensures var r := Run(actions + [Finish(g, x), Release(g)]);
      && r.Some? && !r.value.locked
      && Run(actions + [Finish(g, x), Release(g)] + [Finish(g', x)]) == r
  {
    RunKeeps(actions);
    var two := actions + [Finish(g, x)];
    var three := actions + [Finish(g, x), Release(g)];
    var four := three + [Finish(g', x)];
    assert two[..|two| - 1] == actions && three[..|three| - 1] == two && four[..|four| - 1] == three;
    assert Holds(Run(actions).value, ByTx(x));
  }

  // ----- no deadlock -----

  lemma RunAppend(actions: seq<Action>, a: Action)
    requires Run(actions).Some?
    ensures Run(actions + [a]) == Apply(Run(actions).value, a)
  {
    assert (actions + [a])[..|actions|] == actions;
  }

  /** Some goroutine is outside the wrapper. */
  lemma OutsiderExists(s: State) returns (g: Goroutine)
    ensures g !in s.frames
  {
    if s.frames == map[] {
      g := 0;
    } else {
      var busy: set<int> := set g: Goroutine | g in s.frames :: g as int;
      var someone :| someone in s.frames;
      assert someone as int in busy;
      var last := MaximumExists(busy);
      g := last + 1;
      assert g in s.frames ==> g as int in busy;
    }
  }

  /** The step is possible, and afterwards the lock is held by `h`. */
  ghost predicate Gives(s: State, a: Action, h: Holder) {
    Apply(s, a).Some? && Apply(s, a).value.locked && Holds(Apply(s, a).value, h)
  }

  lemma FreeLockIsTaken(s: State, g: Goroutine)
    requires !s.locked && g !in s.frames
    ensures Gives(s, LockExec(g), ByGoroutine(g)) && Gives(s, LockBegin(g), ByGoroutine(g))
  {
  }

  lemma LockIsPassedOn(s: State, g: Goroutine)
    requires s.locked && g in s.frames && s.frames[g].Beginning?
    ensures Gives(s, BeginSucceeds(g), ByTx(|s.txs|))
  {
  }

  /** In every interleaving whoever is outside takes a free lock, and BeginTX passes it on to the transaction. */
  lemma WriterGetsIn(actions: seq<Action>, g: Goroutine)
    requires Run(actions).Some? && !Run(actions).value.locked && g !in Run(actions).value.frames
    ensures Gives(Run(actions).value, LockExec(g), ByGoroutine(g))
    ensures Gives(Run(actions).value, LockBegin(g), ByGoroutine(g))
    ensures var s := Apply(Run(actions).value, LockBegin(g)).value;
      Run(actions + [LockBegin(g)]) == Some(s) && Gives(s, BeginSucceeds(g), ByTx(|s.txs|))
  {
    FreeLockIsTaken(Run(actions).value, g);
    RunAppend(actions, LockBegin(g));
    LockIsPassedOn(Apply(Run(actions).value, LockBegin(g)).value, g);
  }

  /** The steps with which a holder gives the lock back. */
  ghost function WayOut(s: State, h: Holder, g: Goroutine): seq<Action>
    requires Holds(s, h)
  {
    match h
    case ByTx(x) => [Finish(g, x)] + [Release(g)]
    case ByGoroutine(b) =>
      match s.frames[b]
      case Writing(_) => [UnlockExec(b)]
      case Beginning(_) => [BeginFails(b)]
      case Finishing(_) => [Release(b)]
  }

  lemma HolderGetsOut(actions: seq<Action>, h: Holder, g: Goroutine)
    requires Run(actions).Some? && Holds(Run(actions).value, h) && g !in Run(actions).value.frames
    ensures var r := Run(actions + WayOut(Run(actions).value, h, g)); r.Some? && !r.value.locked
  {
    var s := Run(actions).value;
    RunKeeps(actions);
    if h.ByTx? {
      FinishFreesLock(actions, g, g, h.tx);
      assert WayOut(s, h, g) == [Finish(g, h.tx), Release(g)];
    } else {
      RunAppend(actions, WayOut(s, h, g)[0]);
    }
  }

  /** From every state of every interleaving at most two steps free the lock: it is never stuck. */
  lemma LockCanBeFreed(actions: seq<Action>) returns (more: seq<Action>)
    requires Run(actions).Some?
    ensures |more| <= 2 && Run(actions + more).Some? && !Run(actions + more).value.locked
  {
    var s := Run(actions).value;
    RunKeeps(actions);
    if s.locked {
      var h :| Holds(s, h);
      var g := OutsiderExists(s);
      HolderGetsOut(actions, h, g);
      more := WayOut(s, h, g);
    } else {
      more := [];
      assert actions + more == actions;
    }
  }
}
