/** Executing a batch on many threads: every load and every store is a separate step.

A thread takes the locks of its transaction one by one in list order, runs its blocks, and when it
returns drops its locks one by one. Steps of different threads interleave arbitrarily. The module proves
that a run always ends like some serial execution of the transactions, that exclusive locks are
exclusive, and that some unfinished thread can always move.
*/
module Interleaving {
  import opened Wrappers
  import opened Ledger
  import opened Programs
  import opened Transactions
  import opened Execution
  import opened ExecutionLaws

  datatype Thread =
    | Waiting(held: nat)
    | Loading(pc: Pc, got: seq<Option<Account>>)
    | Storing(pc: Pc, todo: seq<Write>)
    | Releasing(ok: bool, dropped: nat)
    | Finished(ok: bool)

  datatype World = World(mem: Accounts, threads: seq<Thread>)

  /** A transaction that fails validation returns before it takes any lock. */
  function Locks(tx: Transaction): seq<Lock> {
    if Admitted(tx) then LockList(tx) else []
  }

  predicate Running(th: Thread) {
    th.Loading? || th.Storing?
  }

  /** The transaction has run; only its locks may be left to drop. */
  predicate Done(th: Thread) {
    th.Releasing? || th.Finished?
  }

  function Held(tx: Transaction, th: Thread): seq<Lock> {
    match th
    case Waiting(n) => if n <= |Locks(tx)| then Locks(tx)[..n] else []
    case Releasing(_, n) => if n <= |Locks(tx)| then Locks(tx)[n..] else []
    case Finished(_) => []
    case _ => Locks(tx)
  }

  predicate Clash(a: Lock, b: Lock) {
    a.key == b.key && (a.exclusive || b.exclusive)
  }

  ghost predicate Compatible(xs: seq<Lock>, ys: seq<Lock>) {
    forall a, b :: a in xs && b in ys ==> !Clash(a, b)
  }

  ghost predicate ThreadOk(tx: Transaction, th: Thread) {
    match th
    case Waiting(n) => n <= |Locks(tx)|
    case Loading(pc, got) => Admitted(tx) && PcOk(tx, pc) && !pc.Halt? && |got| <= |Loads(tx, pc)|
    case Storing(pc, todo) => Admitted(tx) && PcOk(tx, pc)
    case Releasing(_, n) => n <= |Locks(tx)|
    case Finished(_) => true
  }

  ghost predicate WorldOk(txs: seq<Transaction>, w: World) {
    && |w.threads| == |txs|
    && forall t :: 0 <= t < |txs| ==> ThreadOk(txs[t], w.threads[t])
  }

  /** No two threads hold clashing locks: an exclusive lock is never shared. */
  ghost predicate Exclusion(txs: seq<Transaction>, w: World)
    requires |w.threads| == |txs|
  {
    forall t, u :: 0 <= t < |txs| && 0 <= u < |txs| && t != u ==>
      Compatible(Held(txs[t], w.threads[t]), Held(txs[u], w.threads[u]))
  }

  // ---------- steps ----------

  /** Whether nobody else holds a lock that clashes with the given one. */
  ghost predicate Free(txs: seq<Transaction>, w: World, t: nat, l: Lock)
    requires |w.threads| == |txs|
  {
    forall u :: 0 <= u < |txs| && u != t ==> Compatible([l], Held(txs[u], w.threads[u]))
  }

  ghost predicate Enabled(txs: seq<Transaction>, w: World, t: nat)
    requires WorldOk(txs, w) && t < |txs|
  {
    match w.threads[t]
    case Waiting(n) => n < |Locks(txs[t])| ==> Free(txs, w, t, Locks(txs[t])[n])
    case Finished(_) => false
    case _ => true
  }

  /** What one step of a thread does to the thread. */
  function Advance(tx: Transaction, th: Thread, mem: Accounts): Thread
    requires th.Loading? ==> PcOk(tx, th.pc) && |th.got| <= |Loads(tx, th.pc)|
  {
    match th
    case Waiting(n) =>
      if n < |Locks(tx)| then Waiting(n + 1)
      else if Admitted(tx) then Loading(Fee, [])
      else Finished(false)
    case Loading(pc, got) =>
      if |got| < |Loads(tx, pc)| then Loading(pc, got + [Lookup(mem, Loads(tx, pc)[|got|])])
      else Storing(Step(tx, pc, got).1, Step(tx, pc, got).0)
    case Storing(pc, todo) =>
      if todo != [] then Storing(pc, todo[1..])
      else if pc.Halt? then Releasing(pc.ok, 0)
      else Loading(pc, [])
    case Releasing(ok, n) => if n < |Locks(tx)| then Releasing(ok, n + 1) else Finished(ok)
    case Finished(_) => th
  }

  function Memory(th: Thread, mem: Accounts): Accounts {
    if th.Storing? && th.todo != [] then ApplyOne(th.todo[0], mem) else mem
  }

  function StepOf(txs: seq<Transaction>, w: World, t: nat): World
    requires |w.threads| == |txs| && t < |txs|
    requires w.threads[t].Loading? ==> PcOk(txs[t], w.threads[t].pc) && |w.threads[t].got| <= |Loads(txs[t], w.threads[t].pc)|
  {
    World(Memory(w.threads[t], w.mem), w.threads[t := Advance(txs[t], w.threads[t], w.mem)])
  }

  function Start(txs: seq<Transaction>, mem: Accounts): World {
    World(mem, seq(|txs|, _ => Waiting(0)))
  }

  /** `schedule` is the order in which threads take their steps. */
  ghost predicate Reaches(txs: seq<Transaction>, mem: Accounts, schedule: seq<nat>, w: World)
    decreases |schedule|
  {
    if schedule == [] then w == Start(txs, mem)
    else
      var t := schedule[|schedule| - 1];
      exists v :: Reaches(txs, mem, schedule[..|schedule| - 1], v) && WorldOk(txs, v) && t < |txs| &&
        Enabled(txs, v, t) && w == StepOf(txs, v, t)
  }

  // ---------- the serial execution behind a run ----------

  /** Run the transactions with the given ids one after another. */
  function Serial(txs: seq<Transaction>, order: seq<nat>, mem: Accounts): Accounts
    requires forall i :: 0 <= i < |order| ==> order[i] < |txs|
  {
    if order == [] then mem
    else Execute(txs[order[|order| - 1]], Serial(txs, order[..|order| - 1], mem)).accounts
  }

  ghost predicate IsOrder(txs: seq<Transaction>, order: seq<nat>) {
    && (forall i :: 0 <= i < |order| ==> order[i] < |txs|)
    && (forall i, j :: 0 <= i < j < |order| ==> order[i] != order[j])
  }

  /** The outcome if the thread ran the rest of its transaction alone from here. */
  function Rest(tx: Transaction, th: Thread, mem: Accounts): Result
    requires th.Loading? ==> PcOk(tx, th.pc) && |th.got| <= |Loads(tx, th.pc)|
    requires th.Storing? ==> PcOk(tx, th.pc)
    requires Running(th)
  {
    match th
    case Loading(pc, got) =>
      var r := Step(tx, pc, got + LookupAll(mem, Loads(tx, pc)[|got|..]));
      RunFrom(tx, r.1, Apply(r.0, mem))
    case Storing(pc, todo) => RunFrom(tx, pc, Apply(todo, mem))
  }

  ghost predicate SameOutcome(tx: Transaction, a: Result, b: Result) {
    a.success == b.success && AgreeOn(tx, a.accounts, b.accounts)
  }

  ghost predicate OwnedByRunning(txs: seq<Transaction>, w: World, k: Pubkey)
    requires |w.threads| == |txs|
  {
    exists t :: 0 <= t < |txs| && Running(w.threads[t]) && Exclusive(txs[t], k)
  }

  /** Outside the accounts owned by running threads, memory is the serial state. */
  ghost predicate MemoryIs(txs: seq<Transaction>, w: World, s: Accounts)
    requires |w.threads| == |txs|
  {
    forall k :: !OwnedByRunning(txs, w, k) ==> Agree(w.mem, s, k)
  }

  /** Every running thread will end as if it ran after the finished ones. */
  ghost predicate WillEndAsAfter(txs: seq<Transaction>, w: World, s: Accounts)
    requires WorldOk(txs, w)
  {
    forall t :: 0 <= t < |txs| && Running(w.threads[t]) ==>
      SameOutcome(txs[t], Rest(txs[t], w.threads[t], w.mem), Execute(txs[t], s))
  }

  ghost predicate EndedWith(th: Thread, ok: bool) {
    Done(th) && th.ok == ok
  }

  /** `order` lists the threads that are done, each with the outcome of its place in the serial run. */
  ghost predicate FinishedAs(txs: seq<Transaction>, w: World, order: seq<nat>, mem: Accounts)
    requires |w.threads| == |txs| && IsOrder(txs, order)
  {
    && (forall t :: 0 <= t < |txs| ==> (Done(w.threads[t]) <==> t in order))
    && (forall i :: 0 <= i < |order| ==>
          EndedWith(w.threads[order[i]], Execute(txs[order[i]], Serial(txs, order[..i], mem)).success))
  }

  /** Every store still to come is to an account its transaction holds exclusively. */
  ghost predicate StoresWithin(txs: seq<Transaction>, w: World)
    requires |w.threads| == |txs|
  {
    forall t :: 0 <= t < |txs| && w.threads[t].Storing? ==> WritesWithin(w.threads[t].todo, txs[t])
  }

  /** The invariant: memory is the serial state of the finished transactions, overlaid with the
  exclusive accounts of the running ones, each of which will end as it would after them. */
  ghost predicate Inv(txs: seq<Transaction>, mem: Accounts, order: seq<nat>, w: World) {
    && WorldOk(txs, w)
    && Exclusion(txs, w)
    && StoresWithin(txs, w)
    && IsOrder(txs, order)
    && FinishedAs(txs, w, order, mem)
    && MemoryIs(txs, w, Serial(txs, order, mem))
    && WillEndAsAfter(txs, w, Serial(txs, order, mem))
  }

  ghost predicate AllFlagged(txs: seq<Transaction>) {
    forall t :: 0 <= t < |txs| ==> Flagged(txs[t])
  }

  /** Two running threads touch no account that either of them owns. */
  lemma RunningApart(txs: seq<Transaction>, w: World, t: nat, u: nat, k: Pubkey)
    requires WorldOk(txs, w) && Exclusion(txs, w) && t < |txs| && u < |txs| && t != u
    requires Admitted(txs[t]) && Held(txs[t], w.threads[t]) == Locks(txs[t]) && Running(w.threads[u])
    requires Touches(txs[t], k) && Touches(txs[u], k)
    ensures !Exclusive(txs[t], k) && !Exclusive(txs[u], k)
  {
    LockListExact(txs[t]);
    LockListExact(txs[u]);
    var a, b := Lock(k, Exclusive(txs[t], k)), Lock(k, Exclusive(txs[u], k));
    assert a in Held(txs[t], w.threads[t]) && b in Held(txs[u], w.threads[u]);
    assert Compatible(Held(txs[t], w.threads[t]), Held(txs[u], w.threads[u]));
    assert !Clash(a, b);
  }

  lemma RestFrame(tx: Transaction, th: Thread, s: Accounts, t: Accounts)
    requires Flagged(tx) && Running(th) && ThreadOk(tx, th) && AgreeOn(tx, s, t)
    ensures SameOutcome(tx, Rest(tx, th, s), Rest(tx, th, t))
  {
    match th
    case Loading(pc, got) =>
      LoadsAgree(tx, pc, s, t);
      var tail := Loads(tx, pc)[|got|..];
      forall j | 0 <= j < |tail| ensures Lookup(s, tail[j]) == Lookup(t, tail[j]) {
        assert LookupAll(s, Loads(tx, pc))[|got| + j] == LookupAll(t, Loads(tx, pc))[|got| + j];
      }
      assert LookupAll(s, tail) == LookupAll(t, tail);
      var r := Step(tx, pc, got + LookupAll(s, tail));
      forall k | Touches(tx, k) ensures Agree(Apply(r.0, s), Apply(r.0, t), k) { ApplyAgree(r.0, s, t, k); }
      RunFrame(tx, r.1, Apply(r.0, s), Apply(r.0, t));
    case Storing(pc, todo) =>
      forall k | Touches(tx, k) ensures Agree(Apply(todo, s), Apply(todo, t), k) { ApplyAgree(todo, s, t, k); }
      RunFrame(tx, pc, Apply(todo, s), Apply(todo, t));
  }

  /** A thread's own step does not change what it will end with. */
  lemma RestStable(tx: Transaction, th: Thread, mem: Accounts)
    requires Running(th) && ThreadOk(tx, th)
    ensures var th' := Advance(tx, th, mem);
      && ThreadOk(tx, th')
      && (Running(th') ==> Rest(tx, th', Memory(th, mem)) == Rest(tx, th, mem))
      && (!Running(th') ==> th'.Releasing? && Rest(tx, th, mem) == Result(mem, th'.ok) && Memory(th, mem) == mem)
  {
    hide Step;
    hide Loads;
    hide Locks;
    match th
    case Loading(pc, got) =>
      var loads := Loads(tx, pc);
      var n := |got|;
      if n < |loads| {
        assert got + LookupAll(mem, loads[n..]) == got + [Lookup(mem, loads[n])] + LookupAll(mem, loads[n + 1..]);
      } else {
        assert got + LookupAll(mem, loads[n..]) == got;
      }
    case Storing(pc, todo) =>
      if todo == [] {
        assert Apply(todo, mem) == mem;
        if !pc.Halt? {
          assert Loads(tx, pc)[0..] == Loads(tx, pc);
          assert [] + LookupAll(mem, Loads(tx, pc)) == LookupAll(mem, Loads(tx, pc));
        }
      }
  }

  // ---------- every step keeps the invariant ----------

  /** Only thread t differs. */
  ghost predicate OnlyThread(w: World, w': World, t: nat) {
    && |w'.threads| == |w.threads|
    && forall u :: 0 <= u < |w.threads| && u != t ==> w'.threads[u] == w.threads[u]
  }

  lemma AdvanceOk(tx: Transaction, th: Thread, mem: Accounts)
    requires ThreadOk(tx, th)
    ensures ThreadOk(tx, Advance(tx, th, mem))
  {
    if Running(th) { RestStable(tx, th, mem); }
  }

  lemma StepKeepsOk(txs: seq<Transaction>, w: World, t: nat)
    requires WorldOk(txs, w) && t < |txs|
    ensures WorldOk(txs, StepOf(txs, w, t)) && OnlyThread(w, StepOf(txs, w, t), t)
  {
    AdvanceOk(txs[t], w.threads[t], w.mem);
  }

  lemma StepKeepsStores(txs: seq<Transaction>, w: World, t: nat)
    requires AllFlagged(txs) && WorldOk(txs, w) && t < |txs| && StoresWithin(txs, w)
    ensures StoresWithin(txs, StepOf(txs, w, t))
  {
    var tx, th := txs[t], w.threads[t];
    assert ThreadOk(tx, th);
    if th.Loading? && |th.got| == |Loads(tx, th.pc)| {
      StepWritesWithin(tx, th.pc, th.got);
    } else if th.Storing? && th.todo != [] {
      assert WritesWithin(th.todo[1..], tx);
    }
    hide WritesWithin;
    hide Step;
    hide Loads;
  }

  /** A step holds what was held before, at most one more free lock. */
  lemma HeldAfter(tx: Transaction, th: Thread, mem: Accounts, l: Lock)
    requires ThreadOk(tx, th) && l in Held(tx, Advance(tx, th, mem))
    ensures l in Held(tx, th) || (th.Waiting? && th.held < |Locks(tx)| && l == Locks(tx)[th.held])
  {
  }

  lemma StepCompatible(txs: seq<Transaction>, w: World, t: nat, u: nat)
    requires WorldOk(txs, w) && Exclusion(txs, w) && t < |txs| && u < |txs| && t != u && Enabled(txs, w, t)
    ensures Compatible(Held(txs[t], Advance(txs[t], w.threads[t], w.mem)), Held(txs[u], w.threads[u]))
  {
    var mine, theirs := Held(txs[t], Advance(txs[t], w.threads[t], w.mem)), Held(txs[u], w.threads[u]);
    assert Compatible(Held(txs[t], w.threads[t]), theirs);
    forall a, b | a in mine && b in theirs ensures !Clash(a, b) {
      HeldAfter(txs[t], w.threads[t], w.mem, a);
      if a !in Held(txs[t], w.threads[t]) {
        assert Compatible([a], theirs);
        assert a in [a];
      }
    }
  }

  lemma CompatibleSymmetric(xs: seq<Lock>, ys: seq<Lock>)
    requires Compatible(xs, ys)
    ensures Compatible(ys, xs)
  {
    forall a, b | a in ys && b in xs ensures !Clash(a, b) { assert !Clash(b, a); }
  }

  lemma StepKeepsExclusion(txs: seq<Transaction>, w: World, t: nat)
    requires WorldOk(txs, w) && Exclusion(txs, w) && t < |txs| && Enabled(txs, w, t)
    ensures Exclusion(txs, StepOf(txs, w, t))
  {
    var w' := StepOf(txs, w, t);
    hide Compatible;
    hide Held;
    forall a, b | 0 <= a < |txs| && 0 <= b < |txs| && a != b
      ensures Compatible(Held(txs[a], w'.threads[a]), Held(txs[b], w'.threads[b]))
    {
      if a == t {
        StepCompatible(txs, w, t, b);
      } else if b == t {
        StepCompatible(txs, w, t, a);
        CompatibleSymmetric(Held(txs[t], w'.threads[t]), Held(txs[a], w.threads[a]));
      }
    }
  }

  /** A step of thread t takes no account away from another running thread. */
  lemma OwnerStays(txs: seq<Transaction>, w: World, w': World, t: nat, k: Pubkey)
    requires |w.threads| == |txs| && t < |txs| && OnlyThread(w, w', t)
    requires Running(w'.threads[t]) || !Running(w.threads[t]) || !Exclusive(txs[t], k)
    ensures OwnedByRunning(txs, w, k) ==> OwnedByRunning(txs, w', k)
  {
    if OwnedByRunning(txs, w, k) {
      var u :| 0 <= u < |txs| && Running(w.threads[u]) && Exclusive(txs[u], k);
      assert Running(w'.threads[u]);
    }
  }

  /** Memory after a step of thread t that leaves it running or that did not find it running. */
  lemma MemoryKept(txs: seq<Transaction>, w: World, w': World, t: nat, s: Accounts)
    requires |w.threads| == |txs| && t < |txs| && OnlyThread(w, w', t) && MemoryIs(txs, w, s)
    requires Running(w'.threads[t]) || !Running(w.threads[t])
    requires forall k :: !Agree(w.mem, w'.mem, k) ==> Running(w'.threads[t]) && Exclusive(txs[t], k)
    ensures MemoryIs(txs, w', s)
  {
    forall k | !OwnedByRunning(txs, w', k) ensures Agree(w'.mem, s, k) {
      OwnerStays(txs, w, w', t, k);
      assert Agree(w.mem, s, k);
      assert Agree(w.mem, w'.mem, k);
    }
  }

  lemma OutcomeFlip(tx: Transaction, a: Result, b: Result, c: Result)
    requires SameOutcome(tx, a, b) && SameOutcome(tx, a, c)
    ensures SameOutcome(tx, b, c)
  {
    forall k | Touches(tx, k) ensures Agree(b.accounts, c.accounts, k) {
      assert Agree(a.accounts, b.accounts, k) && Agree(a.accounts, c.accounts, k);
    }
  }

  lemma OutcomeTrans(tx: Transaction, a: Result, b: Result, c: Result)
    requires SameOutcome(tx, a, b) && SameOutcome(tx, b, c)
    ensures SameOutcome(tx, a, c)
  {
    forall k | Touches(tx, k) ensures Agree(a.accounts, c.accounts, k) {
      assert Agree(a.accounts, b.accounts, k) && Agree(b.accounts, c.accounts, k);
    }
  }

  /** The other running threads still end as after the finished ones. */
  lemma OthersEndAsAfter(txs: seq<Transaction>, w: World, w': World, t: nat, s: Accounts)
    requires AllFlagged(txs) && WorldOk(txs, w) && WorldOk(txs, w') && t < |txs| && OnlyThread(w, w', t)
    requires WillEndAsAfter(txs, w, s)
    requires forall u :: 0 <= u < |txs| && u != t && Running(w.threads[u]) ==> AgreeOn(txs[u], w.mem, w'.mem)
    requires Running(w'.threads[t]) ==> SameOutcome(txs[t], Rest(txs[t], w'.threads[t], w'.mem), Execute(txs[t], s))
    ensures WillEndAsAfter(txs, w', s)
  {
    forall u | 0 <= u < |txs| && Running(w'.threads[u])
      ensures SameOutcome(txs[u], Rest(txs[u], w'.threads[u], w'.mem), Execute(txs[u], s))
    {
      if u != t {
        RestFrame(txs[u], w.threads[u], w.mem, w'.mem);
        OutcomeFlip(txs[u], Rest(txs[u], w.threads[u], w.mem), Rest(txs[u], w.threads[u], w'.mem), Execute(txs[u], s));
      }
    }
  }

  lemma AgreeRefl(txs: seq<Transaction>, mem: Accounts)
    ensures forall u :: 0 <= u < |txs| ==> AgreeOn(txs[u], mem, mem)
  {
  }

  lemma FinishedKept(txs: seq<Transaction>, w: World, w': World, t: nat, order: seq<nat>, mem: Accounts)
    requires |w.threads| == |txs| && t < |txs| && OnlyThread(w, w', t) && IsOrder(txs, order)
    requires FinishedAs(txs, w, order, mem) && !Done(w.threads[t]) && !Done(w'.threads[t])
    ensures FinishedAs(txs, w', order, mem)
  {
  }

  /** Taking a lock. */
  lemma AcquireKeeps(txs: seq<Transaction>, mem: Accounts, order: seq<nat>, w: World, t: nat)
    requires AllFlagged(txs) && Inv(txs, mem, order, w) && t < |txs| && Enabled(txs, w, t)
    requires w.threads[t].Waiting? && w.threads[t].held < |Locks(txs[t])|
    ensures Inv(txs, mem, order, StepOf(txs, w, t))
  {
    var w', s := StepOf(txs, w, t), Serial(txs, order, mem);
    StepKeepsOk(txs, w, t);
    StepKeepsExclusion(txs, w, t);
    StepKeepsStores(txs, w, t);
    FinishedKept(txs, w, w', t, order, mem);
    MemoryKept(txs, w, w', t, s);
    AgreeRefl(txs, mem);
    OthersEndAsAfter(txs, w, w', t, s);
  }

  /** Holding all its locks, a transaction sees the serial state on everything it touches. */
  lemma StartSeesSerial(txs: seq<Transaction>, w: World, t: nat, s: Accounts)
    requires WorldOk(txs, w) && Exclusion(txs, w) && MemoryIs(txs, w, s) && t < |txs| && Admitted(txs[t])
    requires w.threads[t] == Waiting(|Locks(txs[t])|)
    ensures AgreeOn(txs[t], w.mem, s)
  {
    assert Held(txs[t], w.threads[t]) == Locks(txs[t]);
    forall k | Touches(txs[t], k) ensures Agree(w.mem, s, k) {
      if OwnedByRunning(txs, w, k) {
        var u :| 0 <= u < |txs| && Running(w.threads[u]) && Exclusive(txs[u], k);
        RunningApart(txs, w, t, u, k);
      }
    }
  }

  lemma FreshRest(tx: Transaction, mem: Accounts)
    requires Admitted(tx)
    ensures Rest(tx, Loading(Fee, []), mem) == Execute(tx, mem)
  {
    assert Loads(tx, Fee)[0..] == Loads(tx, Fee);
    assert [] + LookupAll(mem, Loads(tx, Fee)) == LookupAll(mem, Loads(tx, Fee));
  }

  lemma StartKeeps(txs: seq<Transaction>, mem: Accounts, order: seq<nat>, w: World, t: nat)
    requires AllFlagged(txs) && Inv(txs, mem, order, w) && t < |txs| && Enabled(txs, w, t)
    requires w.threads[t] == Waiting(|Locks(txs[t])|) && Admitted(txs[t])
    ensures Inv(txs, mem, order, StepOf(txs, w, t))
  {
    var w', s := StepOf(txs, w, t), Serial(txs, order, mem);
    StepKeepsOk(txs, w, t);
    StepKeepsExclusion(txs, w, t);
    StepKeepsStores(txs, w, t);
    FinishedKept(txs, w, w', t, order, mem);
    MemoryKept(txs, w, w', t, s);
    StartSeesSerial(txs, w, t, s);
    ExecuteFrame(txs[t], w.mem, s);
    FreshRest(txs[t], w.mem);
    AgreeRefl(txs, mem);
    OthersEndAsAfter(txs, w, w', t, s);
  }

  /** A step of a running thread changes no account that another running thread touches. */
  lemma MemoryApart(txs: seq<Transaction>, w: World, t: nat, u: nat)
    requires WorldOk(txs, w) && Exclusion(txs, w) && t < |txs| && u < |txs| && t != u
    requires Running(w.threads[t]) && Running(w.threads[u]) && StoresWithin(txs, w)
    ensures AgreeOn(txs[u], w.mem, Memory(w.threads[t], w.mem))
  {
    var th := w.threads[t];
    if th.Storing? && th.todo != [] {
      var key := th.todo[0].key;
      forall k | Touches(txs[u], k) ensures Agree(w.mem, Memory(th, w.mem), k) {
        if k == key { RunningApart(txs, w, t, u, k); }
      }
    }
  }

  /** A load, a decision or a store. */
  lemma RunKeeps(txs: seq<Transaction>, mem: Accounts, order: seq<nat>, w: World, t: nat)
    requires AllFlagged(txs) && Inv(txs, mem, order, w) && t < |txs| && Enabled(txs, w, t)
    requires Running(w.threads[t]) && Running(StepOf(txs, w, t).threads[t])
    ensures Inv(txs, mem, order, StepOf(txs, w, t))
  {
    var w', s := StepOf(txs, w, t), Serial(txs, order, mem);
    StepKeepsOk(txs, w, t);
    StepKeepsExclusion(txs, w, t);
    StepKeepsStores(txs, w, t);
    RestStable(txs[t], w.threads[t], w.mem);
    FinishedKept(txs, w, w', t, order, mem);
    MemoryKept(txs, w, w', t, s);
    forall u | 0 <= u < |txs| && u != t && Running(w.threads[u]) ensures AgreeOn(txs[u], w.mem, w'.mem) {
      MemoryApart(txs, w, t, u);
    }
    OthersEndAsAfter(txs, w, w', t, s);
  }

  lemma SerialAppend(txs: seq<Transaction>, order: seq<nat>, t: nat, mem: Accounts)
    requires IsOrder(txs, order) && t < |txs| && t !in order
    ensures IsOrder(txs, order + [t])
    ensures Serial(txs, order + [t], mem) == Execute(txs[t], Serial(txs, order, mem)).accounts
  {
    assert (order + [t])[..|order|] == order;
  }

  lemma FinishedAppend(txs: seq<Transaction>, w: World, w': World, order: seq<nat>, t: nat, mem: Accounts)
    requires |w.threads| == |txs| && t < |txs| && OnlyThread(w, w', t) && IsOrder(txs, order)
    requires FinishedAs(txs, w, order, mem) && !Done(w.threads[t])
    requires EndedWith(w'.threads[t], Execute(txs[t], Serial(txs, order, mem)).success)
    ensures IsOrder(txs, order + [t]) && FinishedAs(txs, w', order + [t], mem)
  {
    SerialAppend(txs, order, t, mem);
    FinishedMembers(txs, w, w', order, t);
    forall i | 0 <= i < |order| + 1
      ensures EndedWith(w'.threads[(order + [t])[i]],
                        Execute(txs[(order + [t])[i]], Serial(txs, (order + [t])[..i], mem)).success)
    {
      FinishedPlace(txs, w, w', order, t, mem, i);
    }
  }

  lemma FinishedMembers(txs: seq<Transaction>, w: World, w': World, order: seq<nat>, t: nat)
    requires |w.threads| == |txs| && t < |txs| && OnlyThread(w, w', t) && Done(w'.threads[t])
    requires forall u :: 0 <= u < |txs| ==> (Done(w.threads[u]) <==> u in order)
    ensures forall u :: 0 <= u < |txs| ==> (Done(w'.threads[u]) <==> u in order + [t])
  {
  }

  lemma FinishedPlace(txs: seq<Transaction>, w: World, w': World, order: seq<nat>, t: nat, mem: Accounts, i: nat)
    requires |w.threads| == |txs| && t < |txs| && OnlyThread(w, w', t) && IsOrder(txs, order + [t]) && IsOrder(txs, order)
    requires FinishedAs(txs, w, order, mem) && i <= |order| && t !in order
    requires EndedWith(w'.threads[t], Execute(txs[t], Serial(txs, order, mem)).success)
    ensures EndedWith(w'.threads[(order + [t])[i]],
                      Execute(txs[(order + [t])[i]], Serial(txs, (order + [t])[..i], mem)).success)
  {
    hide Execute;
    if i < |order| {
      assert (order + [t])[..i] == order[..i];
      assert order[i] != t;
    } else {
      assert (order + [t])[..i] == order;
    }
  }

  lemma SerialApart(txs: seq<Transaction>, w: World, t: nat, u: nat, s: Accounts, s': Accounts)
    requires WorldOk(txs, w) && Exclusion(txs, w) && t < |txs| && u < |txs| && t != u
    requires Running(w.threads[t]) && Running(w.threads[u]) && AgreeOutside(txs[t], s, s')
    ensures AgreeOn(txs[u], s, s')
  {
    forall k | Touches(txs[u], k) ensures Agree(s, s', k) {
      if Exclusive(txs[t], k) { RunningApart(txs, w, t, u, k); }
    }
  }

  lemma FinishMemory(txs: seq<Transaction>, w: World, w': World, t: nat, s: Accounts, s': Accounts)
    requires |w.threads| == |txs| && t < |txs| && OnlyThread(w, w', t) && w'.mem == w.mem
    requires MemoryIs(txs, w, s) && AgreeOn(txs[t], w.mem, s') && AgreeOutside(txs[t], s, s')
    ensures MemoryIs(txs, w', s')
  {
    forall k | !OwnedByRunning(txs, w', k) ensures Agree(w'.mem, s', k) {
      if !Exclusive(txs[t], k) {
        OwnerStays(txs, w, w', t, k);
        assert Agree(w.mem, s, k) && Agree(s, s', k);
      } else {
        assert Touches(txs[t], k);
        assert Agree(w.mem, s', k);
      }
    }
  }

  lemma FinishOthers(txs: seq<Transaction>, w: World, w': World, t: nat, s: Accounts, s': Accounts)
    requires AllFlagged(txs) && WorldOk(txs, w) && WorldOk(txs, w') && Exclusion(txs, w)
    requires t < |txs| && OnlyThread(w, w', t) && w'.mem == w.mem
    requires WillEndAsAfter(txs, w, s) && Running(w.threads[t]) && !Running(w'.threads[t])
    requires AgreeOutside(txs[t], s, s')
    ensures WillEndAsAfter(txs, w', s')
  {
    forall u | 0 <= u < |txs| && Running(w'.threads[u])
      ensures SameOutcome(txs[u], Rest(txs[u], w'.threads[u], w'.mem), Execute(txs[u], s'))
    {
      SerialApart(txs, w, t, u, s, s');
      ExecuteFrame(txs[u], s, s');
      OutcomeTrans(txs[u], Rest(txs[u], w.threads[u], w.mem), Execute(txs[u], s), Execute(txs[u], s'));
    }
  }

  /** A finished transaction takes its place at the end of the serial order. */
  lemma FinishKeeps(txs: seq<Transaction>, mem: Accounts, order: seq<nat>, w: World, t: nat)
    requires AllFlagged(txs) && Inv(txs, mem, order, w) && t < |txs| && Enabled(txs, w, t)
    requires Running(w.threads[t]) && !Running(StepOf(txs, w, t).threads[t])
    ensures Inv(txs, mem, order + [t], StepOf(txs, w, t))
  {
    var w', s := StepOf(txs, w, t), Serial(txs, order, mem);
    var s' := Execute(txs[t], s).accounts;
    StepKeepsOk(txs, w, t);
    StepKeepsExclusion(txs, w, t);
    StepKeepsStores(txs, w, t);
    RestStable(txs[t], w.threads[t], w.mem);
    FinishedAppend(txs, w, w', order, t, mem);
    SerialAppend(txs, order, t, mem);
    ExecuteFrame(txs[t], s, s);
    FinishMemory(txs, w, w', t, s, s');
    FinishOthers(txs, w, w', t, s, s');
  }

  /** A transaction that is not admitted finishes at once and changes nothing. */
  lemma RejectKeeps(txs: seq<Transaction>, mem: Accounts, order: seq<nat>, w: World, t: nat)
    requires AllFlagged(txs) && Inv(txs, mem, order, w) && t < |txs| && Enabled(txs, w, t)
    requires w.threads[t] == Waiting(|Locks(txs[t])|) && !Admitted(txs[t])
    ensures Inv(txs, mem, order + [t], StepOf(txs, w, t))
  {
    var w', s := StepOf(txs, w, t), Serial(txs, order, mem);
    StepKeepsOk(txs, w, t);
    StepKeepsExclusion(txs, w, t);
    StepKeepsStores(txs, w, t);
    FinishedAppend(txs, w, w', order, t, mem);
    SerialAppend(txs, order, t, mem);
    MemoryKept(txs, w, w', t, s);
    AgreeRefl(txs, mem);
    OthersEndAsAfter(txs, w, w', t, s);
  }

  /** Dropping a lock, or returning after the last one. */
  lemma ReleaseKeeps(txs: seq<Transaction>, mem: Accounts, order: seq<nat>, w: World, t: nat)
    requires AllFlagged(txs) && Inv(txs, mem, order, w) && t < |txs| && Enabled(txs, w, t) && w.threads[t].Releasing?
    ensures Inv(txs, mem, order, StepOf(txs, w, t))
  {
    var w', s := StepOf(txs, w, t), Serial(txs, order, mem);
    StepKeepsOk(txs, w, t);
    StepKeepsExclusion(txs, w, t);
    StepKeepsStores(txs, w, t);
    ReleaseFinished(txs, w, w', t, order, mem);
    MemoryKept(txs, w, w', t, s);
    AgreeRefl(txs, mem);
    OthersEndAsAfter(txs, w, w', t, s);
  }

  lemma ReleaseFinished(txs: seq<Transaction>, w: World, w': World, t: nat, order: seq<nat>, mem: Accounts)
    requires |w.threads| == |txs| && t < |txs| && OnlyThread(w, w', t) && IsOrder(txs, order)
    requires FinishedAs(txs, w, order, mem) && w.threads[t].Releasing? && EndedWith(w'.threads[t], w.threads[t].ok)
    ensures FinishedAs(txs, w', order, mem)
  {
    hide Execute;
    hide Serial;
  }

  lemma StepKeeps(txs: seq<Transaction>, mem: Accounts, order: seq<nat>, w: World, t: nat) returns (next: seq<nat>)
    requires AllFlagged(txs) && Inv(txs, mem, order, w) && t < |txs| && Enabled(txs, w, t)
    ensures Inv(txs, mem, next, StepOf(txs, w, t))
  {
    var th := w.threads[t];
    assert ThreadOk(txs[t], th);
    hide Inv;
    next := order;
    if th.Waiting? && th.held < |Locks(txs[t])| {
      AcquireKeeps(txs, mem, order, w, t);
    } else if th.Waiting? && Admitted(txs[t]) {
      StartKeeps(txs, mem, order, w, t);
    } else if th.Waiting? {
      RejectKeeps(txs, mem, order, w, t);
      next := order + [t];
    } else if th.Releasing? {
      ReleaseKeeps(txs, mem, order, w, t);
    } else if Running(StepOf(txs, w, t).threads[t]) {
      RunKeeps(txs, mem, order, w, t);
    } else {
      FinishKeeps(txs, mem, order, w, t);
      next := order + [t];
    }
  }

  // ---------- the theorems ----------

  lemma StartInv(txs: seq<Transaction>, mem: Accounts)
    ensures Inv(txs, mem, [], Start(txs, mem))
  {
    var w := Start(txs, mem);
    assert forall t :: 0 <= t < |txs| ==> Held(txs[t], w.threads[t]) == [];
  }

  lemma {:induction false} ReachableInv(txs: seq<Transaction>, mem: Accounts, schedule: seq<nat>, w: World)
    returns (order: seq<nat>)
    requires AllFlagged(txs) && Reaches(txs, mem, schedule, w)
    ensures Inv(txs, mem, order, w)
    decreases |schedule|
  {
    if schedule == [] {
      StartInv(txs, mem);
      order := [];
    } else {
      hide Inv;
      hide StepOf;
      var prefix, t := schedule[..|schedule| - 1], schedule[|schedule| - 1];
      var v :| Reaches(txs, mem, prefix, v) && WorldOk(txs, v) && t < |txs| &&
        Enabled(txs, v, t) && w == StepOf(txs, v, t);
      var before := ReachableInv(txs, mem, prefix, v);
      order := StepKeeps(txs, mem, before, v, t);
    }
  }

  /** Every complete run of the threads, however their loads and stores interleave, ends with the
  accounts of some serial execution of all the transactions, and each transaction reports the
  outcome it has in that serial execution. */
  lemma Serializable(txs: seq<Transaction>, mem: Accounts, schedule: seq<nat>, w: World) returns (order: seq<nat>)
    requires AllFlagged(txs) && Reaches(txs, mem, schedule, w) && |w.threads| == |txs|
    requires forall t :: 0 <= t < |txs| ==> w.threads[t].Finished?
    ensures IsOrder(txs, order) && forall t :: 0 <= t < |txs| ==> t in order
    ensures w.mem == Serial(txs, order, mem)
    ensures forall i :: 0 <= i < |order| ==>
      w.threads[order[i]] == Finished(Execute(txs[order[i]], Serial(txs, order[..i], mem)).success)
  {
    order := ReachableInv(txs, mem, schedule, w);
    hide Execute;
    hide Serial;
    hide WillEndAsAfter;
    forall i | 0 <= i < |order|
      ensures w.threads[order[i]] == Finished(Execute(txs[order[i]], Serial(txs, order[..i], mem)).success)
    {
      assert EndedWith(w.threads[order[i]], Execute(txs[order[i]], Serial(txs, order[..i], mem)).success);
    }
    forall k ensures Agree(w.mem, Serial(txs, order, mem), k) {
      assert !OwnedByRunning(txs, w, k);
    }
    LookupExt(w.mem, Serial(txs, order, mem));
  }

  /** In every reachable world, whatever the transactions write, locks are compatible. */
  lemma {:induction false} ReachableExclusion(txs: seq<Transaction>, mem: Accounts, schedule: seq<nat>, w: World)
    requires Reaches(txs, mem, schedule, w)
    ensures WorldOk(txs, w) && Exclusion(txs, w)
    decreases |schedule|
  {
    if schedule == [] {
      assert forall t :: 0 <= t < |txs| ==> Held(txs[t], w.threads[t]) == [];
    } else {
      hide StepOf;
      hide Exclusion;
      var prefix, t := schedule[..|schedule| - 1], schedule[|schedule| - 1];
      var v :| Reaches(txs, mem, prefix, v) && WorldOk(txs, v) && t < |txs| &&
        Enabled(txs, v, t) && w == StepOf(txs, v, t);
      ReachableExclusion(txs, mem, prefix, v);
      StepKeepsOk(txs, v, t);
      StepKeepsExclusion(txs, v, t);
    }
  }

  /** In every reachable world an exclusively held account is held by nobody else. */
  lemma NoSharedWriteLock(txs: seq<Transaction>, mem: Accounts, schedule: seq<nat>, w: World, t: nat, u: nat, k: Pubkey)
    requires Reaches(txs, mem, schedule, w) && |w.threads| == |txs|
    requires t < |txs| && u < |txs| && t != u && Lock(k, true) in Held(txs[t], w.threads[t])
    ensures forall l :: l in Held(txs[u], w.threads[u]) ==> l.key != k
  {
    ReachableExclusion(txs, mem, schedule, w);
    forall l | l in Held(txs[u], w.threads[u]) ensures l.key != k {
      assert Compatible(Held(txs[t], w.threads[t]), Held(txs[u], w.threads[u]));
      assert !Clash(Lock(k, true), l);
    }
  }

  // ---------- progress ----------

  predicate Wanting(txs: seq<Transaction>, w: World, t: nat)
    requires |w.threads| == |txs|
  {
    t < |txs| && w.threads[t].Waiting? && w.threads[t].held < |Locks(txs[t])|
  }

  /** The lock a waiting thread asks for next. */
  function Wanted(txs: seq<Transaction>, w: World, t: nat): Lock
    requires |w.threads| == |txs| && Wanting(txs, w, t)
  {
    Locks(txs[t])[w.threads[t].held]
  }

  /** A thread can move even under a lock that makes new readers wait behind a waiting writer. */
  ghost predicate CanMove(txs: seq<Transaction>, w: World, t: nat)
    requires WorldOk(txs, w) && t < |txs|
  {
    && Enabled(txs, w, t)
    && (Wanting(txs, w, t) && !Wanted(txs, w, t).exclusive ==>
          forall u: nat :: Wanting(txs, w, u) && Wanted(txs, w, u).key == Wanted(txs, w, t).key ==>
            !Wanted(txs, w, u).exclusive)
  }

  ghost predicate AllStuckWaiting(txs: seq<Transaction>, w: World)
    requires |w.threads| == |txs|
  {
    forall t: nat :: t < |txs| && !w.threads[t].Finished? ==> Wanting(txs, w, t)
  }

  /** Among the first n threads, one that wants the greatest key. */
  lemma {:induction false} GreatestWanted(txs: seq<Transaction>, w: World, n: nat, some: nat) returns (t: nat)
    requires |w.threads| == |txs| && some < n <= |txs| && Wanting(txs, w, some)
    ensures t < n && Wanting(txs, w, t)
    ensures forall u: nat :: u < n && Wanting(txs, w, u) ==> Wanted(txs, w, u).key <= Wanted(txs, w, t).key
    decreases n
  {
    hide Wanted;
    hide Wanting;
    var m := n - 1;
    if best: nat :| best < m && Wanting(txs, w, best) {
      t := GreatestWanted(txs, w, m, best);
      if Wanting(txs, w, m) && Wanted(txs, w, m).key > Wanted(txs, w, t).key {
        t := m;
      }
    } else {
      t := some;
    }
  }

  /** A waiting thread holds only keys below the one it wants. */
  lemma HoldsBelow(txs: seq<Transaction>, w: World, u: nat, h: Lock)
    requires WorldOk(txs, w) && Wanting(txs, w, u) && h in Held(txs[u], w.threads[u])
    ensures h.key < Wanted(txs, w, u).key
  {
    LockListExact(txs[u]);
    var i :| 0 <= i < w.threads[u].held && Locks(txs[u])[i] == h;
  }

  /** Nobody holds the greatest wanted key when everybody waits. */
  lemma GreatestIsFree(txs: seq<Transaction>, w: World, t: nat)
    requires WorldOk(txs, w) && AllStuckWaiting(txs, w) && Wanting(txs, w, t)
    requires forall u: nat :: u < |txs| && Wanting(txs, w, u) ==> Wanted(txs, w, u).key <= Wanted(txs, w, t).key
    ensures Free(txs, w, t, Wanted(txs, w, t))
  {
    var l := Wanted(txs, w, t);
    forall u | 0 <= u < |txs| && u != t ensures Compatible([l], Held(txs[u], w.threads[u])) {
      forall a, h | a in [l] && h in Held(txs[u], w.threads[u]) ensures !Clash(a, h) {
        HoldsBelow(txs, w, u, h);
      }
    }
  }

  /** No deadlock: as long as a thread is unfinished, some unfinished thread can move. */
  lemma Progress(txs: seq<Transaction>, w: World, some: nat) returns (t: nat)
    requires WorldOk(txs, w) && some < |txs| && !w.threads[some].Finished?
    ensures t < |txs| && !w.threads[t].Finished? && CanMove(txs, w, t)
  {
    if AllStuckWaiting(txs, w) {
      t := GreatestWanted(txs, w, |txs|, some);
      if u: nat :| Wanting(txs, w, u) && Wanted(txs, w, u).key == Wanted(txs, w, t).key && Wanted(txs, w, u).exclusive {
        t := u;
      }
      GreatestIsFree(txs, w, t);
    } else {
      t :| t < |txs| && !w.threads[t].Finished? && !Wanting(txs, w, t);
    }
  }

  lemma NoDeadlock(txs: seq<Transaction>, mem: Accounts, schedule: seq<nat>, w: World, some: nat) returns (t: nat)
    requires Reaches(txs, mem, schedule, w)
    requires |w.threads| == |txs| && some < |txs| && !w.threads[some].Finished?
    ensures t < |txs| && !w.threads[t].Finished? && WorldOk(txs, w) && CanMove(txs, w, t)
  {
    ReachableExclusion(txs, mem, schedule, w);
    t := Progress(txs, w, some);
  }
}
