/** The recursive mutex of core/cdf/src/cdf_lock.c as a transition system: any number
  * of threads acquire, release and destroy one lock.  Every read and every write of
  * a field is a step of its own, so the unlocked look at owner and state at the top
  * of cdf_mutex_acquire may be interleaved with anything. */
module CdfMutex {

  /** A thread, or none; None stands for the process id 0. */
  datatype Holder = None | Some(thread: nat)

  datatype LockState = Released | Acquired | Destroyed

  /** cdf_mutex_t.  `cookie` says whether the cookie is the one of an initialized lock. */
  datatype Lock = Lock(mLock: Holder, cookie: bool, processID: Holder, state: LockState, refcount: nat)

  const REFCOUNT_SIZE: nat := 256

  datatype Status = NoStatus | Success | Invalid | Failure | Perm | Busy

  datatype Operation = Acquire | Release | Destroy

  /** Where a thread is.  `v` is a value of refcount that was read and not yet written back. */
  datatype Pc =
    | Idle
    | AcqCookie | AcqOwner | AcqState | AcqNest | AcqNested(v: nat)
    | AcqLock | AcqLocked | AcqSetOwner | AcqCount | AcqCounted(v: nat) | AcqSetState | AcqUnlock
    | RelCookie | RelOwner | RelOwnerAgain | RelState | RelCount | RelCounted(v: nat) | RelTest
    | RelClearOwner | RelClearCount | RelClearState | RelUnlock
    | DesCookie | DesTryLock | DesClearCookie | DesSetState | DesClearOwner | DesClearCount | DesUnlock

  /** `depth` counts the successful acquires of a thread minus its successful releases. */
  datatype Thread = Thread(pc: Pc, depth: int, status: Status)

  datatype Moved = Moved(lock: Lock, thread: Thread, wrapped: bool)

  function Begin(op: Operation): Pc {
    match op
    case Acquire => AcqCookie
    case Release => RelCookie
    case Destroy => DesCookie
  }

  function Stay(l: Lock, th: Thread, pc: Pc): Moved {
    Moved(l, th.(pc := pc), false)
  }

  function Return(l: Lock, th: Thread, status: Status, gained: int): Moved {
    Moved(l, Thread(Idle, th.depth + gained, status), false)
  }

  /** mutex_lock blocks; every other step can always be taken. */
  predicate CanMove(l: Lock, th: Thread) {
    th.pc != Idle && (th.pc == AcqLock ==> l.mLock == None)
  }

  /** One step of thread `t` (133-194, 210-276, 297-333). */
  function Move(l: Lock, t: nat, th: Thread): Moved
    requires CanMove(l, th)
  {
    match th.pc
    case AcqCookie => if !l.cookie then Return(l, th, Invalid, 0) else Stay(l, th, AcqOwner)
    case AcqOwner => Stay(l, th, if l.processID == Some(t) then AcqState else AcqLock)
    case AcqState => Stay(l, th, if l.state == Acquired then AcqNest else AcqLock)
    case AcqNest => Stay(l, th, AcqNested(l.refcount))
    case AcqNested(v) =>
      Return(l.(refcount := (v + 1) % REFCOUNT_SIZE), th, Success, 1).(wrapped := v + 1 >= REFCOUNT_SIZE)
    case AcqLock => Stay(l.(mLock := Some(t)), th, AcqLocked)
    case AcqLocked => Stay(l, th, if l.state != Destroyed then AcqSetOwner else AcqUnlock)
    case AcqSetOwner => Stay(l.(processID := Some(t)), th, AcqCount)
    case AcqCount => Stay(l, th, AcqCounted(l.refcount))
    case AcqCounted(v) => Stay(l.(refcount := (v + 1) % REFCOUNT_SIZE), th, AcqSetState)
    case AcqSetState => Return(l.(state := Acquired), th, Success, 1)
    case AcqUnlock => Return(l.(mLock := None), th, Failure, 0)
    case RelCookie => if !l.cookie then Return(l, th, Invalid, 0) else Stay(l, th, RelOwner)
    case RelOwner => if l.processID != Some(t) then Return(l, th, Perm, 0) else Stay(l, th, RelOwnerAgain)
    case RelOwnerAgain => Stay(l, th, if l.processID == Some(t) then RelState else RelTest)
    case RelState => Stay(l, th, if l.state == Acquired then RelCount else RelTest)
    case RelCount => Stay(l, th, if l.refcount > 0 then RelCounted(l.refcount) else RelTest)
    case RelCounted(v) => Stay(l.(refcount := if v > 0 then v - 1 else v), th, RelTest)
    case RelTest => if l.refcount != 0 then Return(l, th, Success, -1) else Stay(l, th, RelClearOwner)
    case RelClearOwner => Stay(l.(processID := None), th, RelClearCount)
    case RelClearCount => Stay(l.(refcount := 0), th, RelClearState)
    case RelClearState => Stay(l.(state := Released), th, RelUnlock)
    case RelUnlock => Return(l.(mLock := None), th, Success, -1)
    case DesCookie => if !l.cookie then Return(l, th, Invalid, 0) else Stay(l, th, DesTryLock)
    case DesTryLock =>
      if l.mLock != None then Return(l, th, Busy, 0) else Stay(l.(mLock := Some(t)), th, DesClearCookie)
    case DesClearCookie => Stay(l.(cookie := false), th, DesSetState)
    case DesSetState => Stay(l.(state := Destroyed), th, DesClearOwner)
    case DesClearOwner => Stay(l.(processID := None), th, DesClearCount)
    case DesClearCount => Stay(l.(refcount := 0), th, DesUnlock)
    case DesUnlock => Return(l.(mLock := None), th, Success, 0)
  }

  /** cdf_mutex_init on a lock that is not initialized. */
  function Initialized(): Lock {
    Lock(None, true, None, Released, 0)
  }

  // ---------- the system ----------

  /** `wrapped` records that some refcount increment has wrapped around. */
  datatype System = System(lock: Lock, threads: seq<Thread>, wrapped: bool)

  datatype Action = Call(t: nat, op: Operation) | Step(t: nat) | Init

  predicate AllIdle(s: System) {
    forall t :: 0 <= t < |s.threads| ==> s.threads[t].pc == Idle
  }

  /** A lock is initialized again only when no thread is using it. */
  predicate Enabled(s: System, a: Action) {
    match a
    case Call(t, _) => t < |s.threads| && s.threads[t].pc == Idle
    case Step(t) => t < |s.threads| && CanMove(s.lock, s.threads[t])
    case Init => !s.lock.cookie && AllIdle(s)
  }

  function Do(s: System, a: Action): System
    requires Enabled(s, a)
  {
    match a
    case Call(t, op) => s.(threads := s.threads[t := s.threads[t].(pc := Begin(op), status := NoStatus)])
    case Step(t) =>
      var m := Move(s.lock, t, s.threads[t]);
      System(m.lock, s.threads[t := m.thread], s.wrapped || m.wrapped)
    case Init => s.(lock := Initialized())
  }

  function Start(threads: nat): System {
    System(Initialized(), seq(threads, i => Thread(Idle, 0, NoStatus)), false)
  }

  predicate Runs(s: System, run: seq<Action>)
    decreases |run|
  {
    run == [] || (Enabled(s, run[0]) && Runs(Do(s, run[0]), run[1..]))
  }

  function After(s: System, run: seq<Action>): System
    requires Runs(s, run)
    decreases |run|
  {
    if run == [] then s else After(Do(s, run[0]), run[1..])
  }

  ghost predicate Reachable(s: System) {
    exists threads: nat, run: seq<Action> :: Runs(Start(threads), run) && After(Start(threads), run) == s
  }

  // ---------- what is kept ----------

  /** The thread is inside m_lock. */
  predicate Inside(th: Thread) {
    || th.depth > 0
    || th.pc.AcqLocked? || th.pc.AcqSetOwner? || th.pc.AcqCount? || th.pc.AcqCounted? || th.pc.AcqSetState? || th.pc.AcqUnlock?
    || th.pc.DesClearCookie? || th.pc.DesSetState? || th.pc.DesClearOwner? || th.pc.DesClearCount? || th.pc.DesUnlock?
  }

  /** Nobody has the lock. */
  predicate FreeRight(l: Lock) {
    l.processID == None && l.refcount == 0 && l.state == (if l.cookie then Released else Destroyed)
  }

  /** The fields while thread `t` has the lock with positive depth. */
  predicate HeldRight(l: Lock, t: nat, th: Thread) {
    && l.cookie && th.depth < REFCOUNT_SIZE
    && match th.pc
       case Idle | AcqCookie | AcqOwner | AcqState | AcqNest | RelCookie | RelOwner | RelOwnerAgain | RelState | RelCount
          | DesCookie | DesTryLock => l.processID == Some(t) && l.state == Acquired && l.refcount == th.depth
       case AcqNested(v) => l.processID == Some(t) && l.state == Acquired && l.refcount == th.depth == v
       case RelCounted(v) => l.processID == Some(t) && l.state == Acquired && l.refcount == th.depth == v
       case RelTest => l.processID == Some(t) && l.state == Acquired && l.refcount == th.depth - 1
       case RelClearOwner => l.processID == Some(t) && l.state == Acquired && l.refcount == 0 && th.depth == 1
       case RelClearCount => l.processID == None && l.state == Acquired && l.refcount == 0 && th.depth == 1
       case RelClearState => l.processID == None && l.state == Acquired && l.refcount == 0 && th.depth == 1
       case RelUnlock => l.processID == None && l.state == Released && l.refcount == 0 && th.depth == 1
       case _ => false
  }

  /** The fields while thread `t` is on its way in, or destroys the lock. */
  predicate EnteringRight(l: Lock, t: nat, th: Thread) {
    && th.depth == 0
    && match th.pc
       case AcqLocked => FreeRight(l)
       case AcqSetOwner => l.cookie && FreeRight(l)
       case AcqCount => l.cookie && l.processID == Some(t) && l.refcount == 0 && l.state == Released
       case AcqCounted(v) => l.cookie && l.processID == Some(t) && l.refcount == 0 == v && l.state == Released
       case AcqSetState => l.cookie && l.processID == Some(t) && l.refcount == 1 && l.state == Released
       case AcqUnlock => !l.cookie && FreeRight(l)
       case DesClearCookie => FreeRight(l)
       case DesSetState => !l.cookie && l.processID == None && l.refcount == 0 && l.state != Acquired
       case DesClearOwner | DesClearCount | DesUnlock => !l.cookie && FreeRight(l)
       case _ => false
  }

  /** A thread without the lock is at no step that only the owner can come to. */
  predicate OutsideRight(th: Thread) {
    && th.depth == 0
    && match th.pc
       case Idle | AcqCookie | AcqOwner | AcqLock | RelCookie | RelOwner | DesCookie | DesTryLock => true
       case _ => false
  }

  predicate Right(l: Lock, t: nat, th: Thread) {
    if Inside(th) then l.mLock == Some(t) && (if th.depth > 0 then HeldRight(l, t, th) else EnteringRight(l, t, th))
    else l.mLock != Some(t) && l.processID != Some(t) && OutsideRight(th)
  }

  ghost predicate Sound(s: System) {
    && (forall t :: 0 <= t < |s.threads| ==> Right(s.lock, t, s.threads[t]))
    && (s.lock.mLock == None ==> FreeRight(s.lock))
    && (s.lock.mLock.Some? ==> s.lock.mLock.thread < |s.threads|)
  }

  /** A step keeps what concerns the thread that takes it, unless refcount wraps. */
  lemma MoveKeepsRight(l: Lock, t: nat, th: Thread)
    requires CanMove(l, th) && Right(l, t, th) && (l.mLock == None ==> FreeRight(l))
    ensures Kept(Move(l, t, th), l, t)
  {
    hide Right, FreeRight, Move, Kept;
    match OperationOf(th.pc)
    case Acquire => AcquireKeepsRight(l, t, th);
    case Release => ReleaseKeepsRight(l, t, th);
    case Destroy => DestroyKeepsRight(l, t, th);
  }

  /** After its step the thread is right again, and m_lock is taken or freed by it alone. */
  predicate Kept(m: Moved, l: Lock, t: nat) {
    && (!m.wrapped ==> Right(m.lock, t, m.thread) && (m.lock.mLock == None ==> FreeRight(m.lock)))
    && (m.lock.mLock == l.mLock || m.lock.mLock == Some(t) || m.lock.mLock == None)
  }

  /** The operation a step belongs to. */
  function OperationOf(pc: Pc): Operation {
    if pc.DesCookie? || pc.DesTryLock? || pc.DesClearCookie? || pc.DesSetState? || pc.DesClearOwner? || pc.DesClearCount? || pc.DesUnlock?
    then Destroy
    else if pc.RelCookie? || pc.RelOwner? || pc.RelOwnerAgain? || pc.RelState? || pc.RelCount? || pc.RelCounted? || pc.RelTest?
      || pc.RelClearOwner? || pc.RelClearCount? || pc.RelClearState? || pc.RelUnlock?
    then Release
    else Acquire
  }

  lemma AcquireKeepsRight(l: Lock, t: nat, th: Thread)
    requires CanMove(l, th) && Right(l, t, th) && (l.mLock == None ==> FreeRight(l)) && OperationOf(th.pc) == Acquire
    ensures Kept(Move(l, t, th), l, t)
  {
  }

  lemma ReleaseKeepsRight(l: Lock, t: nat, th: Thread)
    requires CanMove(l, th) && Right(l, t, th) && (l.mLock == None ==> FreeRight(l)) && OperationOf(th.pc) == Release
    ensures Kept(Move(l, t, th), l, t)
  {
  }

  lemma DestroyKeepsRight(l: Lock, t: nat, th: Thread)
    requires CanMove(l, th) && Right(l, t, th) && (l.mLock == None ==> FreeRight(l)) && OperationOf(th.pc) == Destroy
    ensures Kept(Move(l, t, th), l, t)
  {
    if th.pc.DesCookie? || th.pc.DesTryLock? {
      DestroyBegins(l, t, th);
    } else {
      hide Move, Kept;
      DestroyGoesOn(l, t, th);
    }
  }

  lemma DestroyBegins(l: Lock, t: nat, th: Thread)
    requires CanMove(l, th) && Right(l, t, th) && (l.mLock == None ==> FreeRight(l)) && (th.pc.DesCookie? || th.pc.DesTryLock?)
    ensures Kept(Move(l, t, th), l, t)
  {
  }

  lemma DestroyGoesOn(l: Lock, t: nat, th: Thread)
    requires Right(l, t, th)
    requires th.pc.DesClearCookie? || th.pc.DesSetState? || th.pc.DesClearOwner? || th.pc.DesClearCount? || th.pc.DesUnlock?
    ensures Kept(Move(l, t, th), l, t)
  {
  }

  /** And what concerns any other thread: whoever is not inside changes nothing. */
  lemma MoveKeepsOthers(l: Lock, t: nat, th: Thread, u: nat, other: Thread)
    requires CanMove(l, th) && Right(l, t, th) && Right(l, u, other) && t != u
    ensures Right(Move(l, t, th).lock, u, other)
    ensures !Inside(th) && !Move(l, t, th).lock.mLock.None? && Move(l, t, th).lock.mLock != Some(t) ==>
      Move(l, t, th).lock == l
  {
  }

  lemma StepKeepsSound(s: System, a: Action)
    requires Enabled(s, a) && Sound(s)
    ensures !Do(s, a).wrapped ==> Sound(Do(s, a))
  {
    hide Right, FreeRight, Move, CanMove;
    var f := Do(s, a);
    match a
    case Call(t, op) => CallKeepsRight(s.lock, t, s.threads[t], op);
    case Step(t) =>
      MoveKeepsRight(s.lock, t, s.threads[t]);
      forall u | 0 <= u < |s.threads| && u != t && !f.wrapped ensures Right(f.lock, u, f.threads[u]) {
        MoveKeepsOthers(s.lock, t, s.threads[t], u, s.threads[u]);
      }
    case Init => InitKeepsSound(s);
  }

  lemma CallKeepsRight(l: Lock, t: nat, th: Thread, op: Operation)
    requires th.pc == Idle && Right(l, t, th)
    ensures Right(l, t, th.(pc := Begin(op), status := NoStatus))
  {
  }

  lemma InitKeepsSound(s: System)
    requires Enabled(s, Init) && Sound(s)
    ensures Sound(Do(s, Init))
  {
    forall t | 0 <= t < |s.threads| ensures Right(Initialized(), t, s.threads[t]) {
      assert Right(s.lock, t, s.threads[t]) && s.threads[t].pc == Idle;
    }
  }

  lemma {:induction false} RunKeepsSound(s: System, run: seq<Action>)
    requires Runs(s, run) && (!s.wrapped ==> Sound(s))
    ensures !After(s, run).wrapped ==> Sound(After(s, run))
    decreases |run|
  {
    hide Sound, Do, Enabled;
    if run != [] {
      WrappedStays(s, run[0]);
      if !s.wrapped {
        StepKeepsSound(s, run[0]);
      }
      RunKeepsSound(Do(s, run[0]), run[1..]);
    }
  }

  lemma WrappedStays(s: System, a: Action)
    requires Enabled(s, a)
    ensures s.wrapped ==> Do(s, a).wrapped
  {
  }

  lemma {:induction false} ReachableIsSound(s: System)
    requires Reachable(s) && !s.wrapped
    ensures Sound(s)
  {
    hide Sound, Do, Enabled, Runs, After;
    var threads: nat, run: seq<Action> :| Runs(Start(threads), run) && After(Start(threads), run) == s;
    StartIsSound(threads);
    RunKeepsSound(Start(threads), run);
  }

  lemma StartIsSound(threads: nat)
    ensures Sound(Start(threads))
  {
  }

  // ---------- the theorems ----------

  /** Mutual exclusion, in every run in which refcount never wraps. */
  lemma {:induction false} MutualExclusion(s: System, t: nat, u: nat)
    requires Reachable(s) && !s.wrapped && t < |s.threads| && u < |s.threads|
    requires Inside(s.threads[t]) && Inside(s.threads[u])
    ensures t == u
  {
    ReachableIsSound(s);
    assert Right(s.lock, t, s.threads[t]) && Right(s.lock, u, s.threads[u]);
  }

  /** m_lock is taken exactly while a thread is inside, and the refcount of a lock
    * that no operation is under way on is the nesting depth of its owner. */
  lemma {:induction false} RefcountIsDepth(s: System, t: nat)
    requires Reachable(s) && !s.wrapped && t < |s.threads|
    ensures s.lock.mLock == Some(t) <==> Inside(s.threads[t])
    ensures s.threads[t].depth >= 0
    ensures s.threads[t].depth > 0 && s.threads[t].pc == Idle ==>
      s.lock.processID == Some(t) && s.lock.state == Acquired && s.lock.refcount == s.threads[t].depth
    ensures s.lock.mLock == None ==> s.lock.processID == None && s.lock.refcount == 0
  {
    ReachableIsSound(s);
    assert Right(s.lock, t, s.threads[t]);
  }

  /** The fast path is taken only by the thread that has the lock already. */
  lemma {:induction false} FastPathOnlyByOwner(s: System, t: nat)
    requires Reachable(s) && !s.wrapped && t < |s.threads|
    requires var pc := s.threads[t].pc; pc.AcqState? || pc.AcqNest? || pc.AcqNested?
    ensures s.threads[t].depth > 0 && s.lock.mLock == Some(t)
  {
    ReachableIsSound(s);
    assert Right(s.lock, t, s.threads[t]);
  }

  /** An owner stays the owner through every step of the system but one: its own step
    * that ends its outermost release. */
  lemma {:induction false} ReleasedAtOutermost(s: System, a: Action, t: nat)
    requires Reachable(s) && !s.wrapped && Enabled(s, a) && !Do(s, a).wrapped
    requires t < |s.threads| && s.threads[t].depth > 0
    ensures Do(s, a).lock.mLock == None <==> a == Step(t) && s.threads[t].pc == RelUnlock
    ensures Do(s, a).lock.mLock != None ==> Do(s, a).lock.mLock == Some(t) && Do(s, a).threads[t].depth > 0
    ensures Do(s, a).lock.mLock == None ==> s.threads[t].depth == 1 && Do(s, a).threads[t].depth == 0
  {
    ReachableIsSound(s);
    StepKeepsSound(s, a);
    assert Right(s.lock, t, s.threads[t]);
    assert Right(Do(s, a).lock, t, Do(s, a).threads[t]);
    if a.Step? && a.t != t {
      assert Right(s.lock, a.t, s.threads[a.t]);
    }
  }

  /** A release by a thread that does not own the lock changes nothing, and fails. */
  lemma {:induction false} NonOwnerChangesNothing(s: System, t: nat)
    requires Reachable(s) && !s.wrapped && t < |s.threads| && Enabled(s, Step(t))
    requires s.threads[t].depth == 0 && (s.threads[t].pc == RelCookie || s.threads[t].pc == RelOwner)
    ensures var f := Do(s, Step(t));
      && f.lock == s.lock && f.threads[t].depth == 0
      && (f.threads[t].pc == Idle ==> f.threads[t].status == Perm || f.threads[t].status == Invalid)
      && (f.threads[t].pc == Idle || f.threads[t].pc == RelOwner)
  {
    ReachableIsSound(s);
    assert Right(s.lock, t, s.threads[t]);
  }

  /** Once the lock is destroyed nobody holds it, and no acquire succeeds until the
    * lock is initialized again. */
  lemma {:induction false} NoAcquireAfterDestroy(s: System, a: Action, t: nat)
    requires Reachable(s) && !s.wrapped && Enabled(s, a) && s.lock.state == Destroyed && a != Init
    requires t < |s.threads|
    ensures s.threads[t].depth == 0 && Do(s, a).threads[t].depth == 0
    ensures Do(s, a).lock.state == Destroyed && !Do(s, a).wrapped
  {
    ReachableIsSound(s);
    assert Right(s.lock, t, s.threads[t]);
    if a.Step? {
      assert Right(s.lock, a.t, s.threads[a.t]);
    }
  }

  /** A successful destroy destroys. */
  lemma {:induction false} DestroyDestroys(s: System, t: nat)
    requires Reachable(s) && !s.wrapped && t < |s.threads| && s.threads[t].pc == DesUnlock
    ensures s.lock.state == Destroyed && !s.lock.cookie
    ensures Do(s, Step(t)).threads[t].status == Success && Do(s, Step(t)).lock.state == Destroyed
  {
    ReachableIsSound(s);
    assert Right(s.lock, t, s.threads[t]);
  }

  /** What an operation returns is what it did: Success of an acquire is one more level, of
    * a release one level less, and of a destroy a destroyed lock; whatever else it returns,
    * the depth is as before, and an uninitialized lock is what Invalid means. */
  lemma ReturnsWhatItDid(l: Lock, t: nat, th: Thread)
    requires CanMove(l, th) && Right(l, t, th) && (l.mLock == None ==> FreeRight(l)) && Move(l, t, th).thread.pc == Idle
    ensures var m := Move(l, t, th); var gained := m.thread.depth - th.depth;
      match OperationOf(th.pc)
      case Acquire => gained == (if m.thread.status == Success then 1 else 0)
      case Release => gained == (if m.thread.status == Success then -1 else 0)
      case Destroy => gained == 0 && (m.thread.status == Success ==> m.lock.state == Destroyed && !m.lock.cookie)
    ensures Move(l, t, th).thread.status == Invalid <==> !l.cookie && (th.pc.AcqCookie? || th.pc.RelCookie? || th.pc.DesCookie?)
    ensures Move(l, t, th).thread.status != Success ==> Move(l, t, th).lock == l.(mLock := Move(l, t, th).lock.mLock)
    ensures Move(l, t, th).thread.status != NoStatus
  {
  }

  // ---------- the limit ----------

  /** refcount has eight bits: it wraps exactly when a thread that has the lock 255
    * deep acquires it once more. */
  lemma {:induction false} WrapsAtDepth256(s: System, a: Action)
    requires Reachable(s) && !s.wrapped && Enabled(s, a)
    ensures Do(s, a).wrapped <==>
      a.Step? && s.threads[a.t].pc.AcqNested? && s.threads[a.t].depth == REFCOUNT_SIZE - 1
  {
    ReachableIsSound(s);
    if a.Step? {
      assert Right(s.lock, a.t, s.threads[a.t]);
    }
  }

  /** The refcount of an idle owner is its nesting depth. */
  ghost predicate CountsRight(s: System) {
    forall t :: 0 <= t < |s.threads| && s.threads[t].pc == Idle && s.threads[t].depth > 0 ==> s.lock.refcount == s.threads[t].depth
  }

  /** And so in every state of a run. */
  ghost predicate AlwaysCountsRight(s: System, run: seq<Action>)
    requires Runs(s, run)
    decreases |run|
  {
    CountsRight(s) && (run != [] ==> AlwaysCountsRight(Do(s, run[0]), run[1..]))
  }

  /** The condition is exact: refcount is the depth of the idle owner in every state of a
    * run if and only if the run does not wrap it. */
  lemma {:induction false} CountsRightUnlessWrapped(s: System, run: seq<Action>)
    requires Sound(s) && !s.wrapped && Runs(s, run)
    ensures AlwaysCountsRight(s, run) <==> !After(s, run).wrapped
    decreases |run|
  {
    hide Sound, Do, Enabled, CountsRight;
    SoundCountsRight(s);
    if run != [] {
      var f := Do(s, run[0]);
      if f.wrapped {
        WrapMiscounts(s, run[0]);
        WrappedForGood(f, run[1..]);
      } else {
        StepKeepsSound(s, run[0]);
        CountsRightUnlessWrapped(f, run[1..]);
      }
    }
  }

  lemma {:induction false} FromStartCountsRightUnlessWrapped(threads: nat, run: seq<Action>)
    requires Runs(Start(threads), run)
    ensures AlwaysCountsRight(Start(threads), run) <==> !After(Start(threads), run).wrapped
  {
    hide AlwaysCountsRight, Runs, After, Sound;
    StartIsSound(threads);
    CountsRightUnlessWrapped(Start(threads), run);
  }

  lemma SoundCountsRight(s: System)
    requires Sound(s)
    ensures CountsRight(s)
  {
    forall t | 0 <= t < |s.threads| && s.threads[t].pc == Idle && s.threads[t].depth > 0
      ensures s.lock.refcount == s.threads[t].depth
    {
      assert Right(s.lock, t, s.threads[t]);
    }
  }

  /** The step that wraps leaves an idle owner with depth 256 and refcount 0. */
  lemma WrapMiscounts(s: System, a: Action)
    requires Sound(s) && !s.wrapped && Enabled(s, a) && Do(s, a).wrapped
    ensures !CountsRight(Do(s, a))
  {
    assert a.Step? && Right(s.lock, a.t, s.threads[a.t]);
    var th := Do(s, a).threads[a.t];
    assert th.pc == Idle && th.depth == REFCOUNT_SIZE && Do(s, a).lock.refcount == 0;
  }

  lemma {:induction false} WrappedForGood(s: System, run: seq<Action>)
    requires Runs(s, run) && s.wrapped
    ensures After(s, run).wrapped
    decreases |run|
  {
    hide Do, Enabled;
    if run != [] {
      WrappedStays(s, run[0]);
      WrappedForGood(Do(s, run[0]), run[1..]);
    }
  }

  // ---------- operations without interference ----------

  /** An upper bound on the steps a thread has still to take. */
  function Rank(pc: Pc): nat {
    match pc
    case Idle => 0
    case AcqCookie => 12 case AcqOwner => 11 case AcqState => 10 case AcqNest => 9 case AcqNested(_) => 8
    case AcqLock => 7 case AcqLocked => 6 case AcqSetOwner => 5 case AcqCount => 4 case AcqCounted(_) => 3
    case AcqSetState => 2 case AcqUnlock => 1
    case RelCookie => 11 case RelOwner => 10 case RelOwnerAgain => 9 case RelState => 8 case RelCount => 7
    case RelCounted(_) => 6 case RelTest => 5 case RelClearOwner => 4 case RelClearCount => 3 case RelClearState => 2
    case RelUnlock => 1
    case DesCookie => 7 case DesTryLock => 6 case DesClearCookie => 5 case DesSetState => 4 case DesClearOwner => 3
    case DesClearCount => 2 case DesUnlock => 1
  }

  /** The steps of one thread, one after the other, until it returns or blocks. */
  function Solo(l: Lock, t: nat, th: Thread): Moved
    decreases Rank(th.pc)
  {
    if !CanMove(l, th) then Moved(l, th, false)
    else
      var m := Move(l, t, th);
      var r := Solo(m.lock, t, m.thread);
      r.(wrapped := m.wrapped || r.wrapped)
  }

  lemma {:induction false} SoloIsRun(s: System, t: nat) returns (run: seq<Action>)
    requires t < |s.threads|
    ensures var m := Solo(s.lock, t, s.threads[t]);
      Runs(s, run) && After(s, run) == System(m.lock, s.threads[t := m.thread], s.wrapped || m.wrapped)
    decreases Rank(s.threads[t].pc)
  {
    hide Move;
    if CanMove(s.lock, s.threads[t]) {
      MoveGoesOn(s.lock, t, s.threads[t]);
      var rest := SoloIsRun(Do(s, Step(t)), t);
      run := [Step(t)] + rest;
      assert run[1..] == rest;
    } else {
      run := [];
    }
  }

  lemma MoveGoesOn(l: Lock, t: nat, th: Thread)
    requires CanMove(l, th)
    ensures Rank(Move(l, t, th).thread.pc) < Rank(th.pc)
  {
  }

  /** One call of an operation, from an idle thread. */
  function Operate(l: Lock, t: nat, depth: int, op: Operation): Moved {
    Solo(l, t, Thread(Begin(op), depth, NoStatus))
  }

  lemma {:induction false} OperateIsRun(s: System, t: nat, op: Operation) returns (run: seq<Action>)
    requires t < |s.threads| && s.threads[t].pc == Idle
    ensures var m := Operate(s.lock, t, s.threads[t].depth, op);
      Runs(s, run) && After(s, run) == System(m.lock, s.threads[t := m.thread], s.wrapped || m.wrapped)
  {
    hide Solo;
    var rest := SoloIsRun(Do(s, Call(t, op)), t);
    run := [Call(t, op)] + rest;
    assert run[1..] == rest;
    assert s.threads[t := s.threads[t].(pc := Begin(op), status := NoStatus)][t := Operate(s.lock, t, s.threads[t].depth, op).thread]
      == s.threads[t := Operate(s.lock, t, s.threads[t].depth, op).thread];
  }

  lemma {:induction false} RunsConcat(s: System, a: seq<Action>, b: seq<Action>)
    requires Runs(s, a) && Runs(After(s, a), b)
    ensures Runs(s, a + b) && After(s, a + b) == After(After(s, a), b)
    decreases |a|
  {
    hide Do, Enabled;
    if a == [] {
      assert a + b == b;
    } else {
      assert (a + b)[1..] == a[1..] + b;
      RunsConcat(Do(s, a[0]), a[1..], b);
    }
  }

  lemma HeldLock(s: System, t: nat)
    requires Reachable(s) && !s.wrapped && t < |s.threads| && s.threads[t].pc == Idle && s.threads[t].depth > 0
    ensures s.lock == Lock(Some(t), true, Some(t), Acquired, s.threads[t].depth)
  {
    ReachableIsSound(s);
    assert Right(s.lock, t, s.threads[t]);
  }

  lemma ReachesOn(s: System, run: seq<Action>)
    requires Reachable(s) && Runs(s, run)
    ensures Reachable(After(s, run))
  {
    hide Runs, After;
    var threads: nat, before: seq<Action> :| Runs(Start(threads), before) && After(Start(threads), before) == s;
    RunsConcat(Start(threads), before, run);
  }

  /** Any thread can come to have the lock any number of times up to 255. */
  lemma {:induction false} Nest(threads: nat, t: nat, n: nat) returns (s: System)
    requires t < threads && n < REFCOUNT_SIZE
    ensures Reachable(s) && !s.wrapped
    ensures s.lock == if n == 0 then Initialized() else Lock(Some(t), true, Some(t), Acquired, n)
    ensures s.threads == Start(threads).threads[t := Thread(Idle, n, if n == 0 then NoStatus else Success)]
  {
    hide Operate, Reachable, Runs, After;
    if n == 0 {
      s := Start(threads);
      StartIsReachable(threads);
    } else {
      var before := Nest(threads, t, n - 1);
      SoloAcquire(before.lock, t, n - 1);
      var acquire := OperateIsRun(before, t, Acquire);
      ReachesOn(before, acquire);
      s := After(before, acquire);
    }
  }

  lemma StartIsReachable(threads: nat)
    ensures Reachable(Start(threads))
  {
    assert Runs(Start(threads), []) && After(Start(threads), []) == Start(threads);
  }

  /** Beyond the limit the lock is unsafe: a thread that has it 255 deep, acquires it
    * once more and releases it once, still counts on it 255 times over, while it is
    * free for everybody. */
  lemma {:induction false} OverflowFreesHeldLock(s: System, t: nat) returns (run: seq<Action>)
    requires Reachable(s) && !s.wrapped && t < |s.threads|
    requires s.threads[t].pc == Idle && s.threads[t].depth == REFCOUNT_SIZE - 1
    ensures Runs(s, run)
    ensures After(s, run) == System(Initialized(), s.threads[t := Thread(Idle, REFCOUNT_SIZE - 1, Success)], true)
  {
    hide Operate, Reachable, Right, Sound, Do, Enabled, Runs, After, Move, Inside;
    HeldLock(s, t);
    SoloAcquire(s.lock, t, 255);
    var acquire := OperateIsRun(s, t, Acquire);
    var f := After(s, acquire);
    SoloRelease(f.lock, t, 256);
    var release := OperateIsRun(f, t, Release);
    RunsConcat(s, acquire, release);
    run := acquire + release;
  }

  /** Such a run exists, and ends with two threads that both have the lock. */
  lemma {:induction false} TwoThreadsInside() returns (s: System)
    ensures Reachable(s) && |s.threads| == 2 && AllIdle(s)
    ensures s.threads[0].depth == REFCOUNT_SIZE - 1 && s.threads[1].depth == 1
    ensures Inside(s.threads[0]) && Inside(s.threads[1]) && s.wrapped
  {
    hide Operate, Reachable, Runs, After;
    var deep := Nest(2, 0, REFCOUNT_SIZE - 1);
    var overflow := OverflowFreesHeldLock(deep, 0);
    ReachesOn(deep, overflow);
    var free := After(deep, overflow);
    SoloAcquire(free.lock, 1, 0);
    var acquire := OperateIsRun(free, 1, Acquire);
    ReachesOn(free, acquire);
    s := After(free, acquire);
  }

  lemma Next(l: Lock, t: nat, th: Thread)
    ensures CanMove(l, th) ==>
      var m := Move(l, t, th);
      if m.thread.pc == Idle then Solo(l, t, th) == m
      else Solo(l, t, th) == Solo(m.lock, t, m.thread).(wrapped := m.wrapped || Solo(m.lock, t, m.thread).wrapped)
  {
  }

  lemma SoloSetOwner(l: Lock, t: nat, th: Thread)
    requires th.pc == AcqSetOwner
    ensures Solo(l, t, th) == Moved(
      l.(processID := Some(t), refcount := (l.refcount + 1) % REFCOUNT_SIZE, state := Acquired),
      Thread(Idle, th.depth + 1, Success), false)
  {
    hide Solo;
    var o := l.(processID := Some(t));
    Next(l, t, th);
    Next(o, t, th.(pc := AcqCount));
    Next(o, t, th.(pc := AcqCounted(l.refcount)));
    Next(o.(refcount := (l.refcount + 1) % REFCOUNT_SIZE), t, th.(pc := AcqSetState));
  }

  lemma SoloLock(l: Lock, t: nat, th: Thread)
    requires th.pc == AcqLock && l.mLock == None
    ensures Solo(l, t, th) ==
      if l.state == Destroyed then Moved(l, Thread(Idle, th.depth, Failure), false)
      else Moved(Lock(Some(t), l.cookie, Some(t), Acquired, (l.refcount + 1) % REFCOUNT_SIZE),
                 Thread(Idle, th.depth + 1, Success), false)
  {
    hide Solo;
    var m := l.(mLock := Some(t));
    Next(l, t, th);
    Next(m, t, th.(pc := AcqLocked));
    if l.state == Destroyed {
      Next(m, t, th.(pc := AcqUnlock));
    } else {
      SoloSetOwner(m, t, th.(pc := AcqSetOwner));
    }
  }

  /** What the operations come to when nothing interferes. */
  lemma SoloAcquire(l: Lock, t: nat, depth: int)
    requires l.mLock == None || !l.cookie || (l.processID == Some(t) && l.state == Acquired)
    ensures Operate(l, t, depth, Acquire) ==
      if !l.cookie then Moved(l, Thread(Idle, depth, Invalid), false)
      else if l.processID == Some(t) && l.state == Acquired then
        Moved(l.(refcount := (l.refcount + 1) % REFCOUNT_SIZE), Thread(Idle, depth + 1, Success), l.refcount + 1 >= REFCOUNT_SIZE)
      else if l.state != Destroyed then
        Moved(Lock(Some(t), true, Some(t), Acquired, (l.refcount + 1) % REFCOUNT_SIZE), Thread(Idle, depth + 1, Success), false)
      else Moved(l, Thread(Idle, depth, Failure), false)
  {
    hide Solo;
    var th := Thread(AcqCookie, depth, NoStatus);
    Next(l, t, th);
    if l.cookie {
      Next(l, t, th.(pc := AcqOwner));
      if l.processID == Some(t) {
        Next(l, t, th.(pc := AcqState));
      }
      if l.processID == Some(t) && l.state == Acquired {
        Next(l, t, th.(pc := AcqNest));
        Next(l, t, th.(pc := AcqNested(l.refcount)));
      } else {
        SoloLock(l, t, th.(pc := AcqLock));
      }
    }
  }

  lemma SoloClearCount(l: Lock, t: nat, th: Thread)
    requires th.pc == RelClearCount
    ensures Solo(l, t, th) == Moved(l.(mLock := None, refcount := 0, state := Released), Thread(Idle, th.depth - 1, Success), false)
  {
    hide Solo;
    var o := l.(refcount := 0);
    Next(l, t, th);
    Next(o, t, th.(pc := RelClearState));
    Next(o.(state := Released), t, th.(pc := RelUnlock));
  }

  lemma SoloRelTest(l: Lock, t: nat, th: Thread)
    requires th.pc == RelTest
    ensures Solo(l, t, th) == Moved(
      if l.refcount != 0 then l else Lock(None, l.cookie, None, Released, 0), Thread(Idle, th.depth - 1, Success), false)
  {
    hide Solo;
    Next(l, t, th);
    if l.refcount == 0 {
      Next(l, t, th.(pc := RelClearOwner));
      SoloClearCount(l.(processID := None), t, th.(pc := RelClearCount));
    }
  }

  /** The decrement of a release by the owner. */
  lemma SoloOwnerAgain(l: Lock, t: nat, th: Thread)
    requires th.pc == RelOwnerAgain && l.processID == Some(t)
    ensures Solo(l, t, th) ==
      Solo(l.(refcount := if l.state == Acquired && l.refcount > 0 then l.refcount - 1 else l.refcount), t, th.(pc := RelTest))
  {
    hide Solo;
    Next(l, t, th);
    Next(l, t, th.(pc := RelState));
    SoloCount(l, t, th.(pc := RelCount));
    SoloRelTest(l, t, th.(pc := RelTest));
  }

  lemma SoloCount(l: Lock, t: nat, th: Thread)
    requires th.pc == RelCount
    ensures Solo(l, t, th) == Solo(l.(refcount := if l.refcount > 0 then l.refcount - 1 else l.refcount), t, th.(pc := RelTest))
  {
    hide Solo;
    Next(l, t, th);
    Next(l, t, th.(pc := RelCounted(l.refcount)));
    SoloRelTest(l, t, th.(pc := RelTest));
    SoloRelTest(l.(refcount := if l.refcount > 0 then l.refcount - 1 else l.refcount), t, th.(pc := RelTest));
  }

  lemma SoloRelease(l: Lock, t: nat, depth: int)
    ensures Operate(l, t, depth, Release) ==
      if !l.cookie then Moved(l, Thread(Idle, depth, Invalid), false)
      else if l.processID != Some(t) then Moved(l, Thread(Idle, depth, Perm), false)
      else
        var left := if l.state == Acquired && l.refcount > 0 then l.refcount - 1 else l.refcount;
        if left != 0 then Moved(l.(refcount := left), Thread(Idle, depth - 1, Success), false)
        else Moved(Lock(None, true, None, Released, 0), Thread(Idle, depth - 1, Success), false)
  {
    hide Solo;
    var th := Thread(RelCookie, depth, NoStatus);
    Next(l, t, th);
    if l.cookie {
      Next(l, t, th.(pc := RelOwner));
      if l.processID == Some(t) {
        SoloOwnerAgain(l, t, th.(pc := RelOwnerAgain));
        var left := if l.state == Acquired && l.refcount > 0 then l.refcount - 1 else l.refcount;
        SoloRelTest(l.(refcount := left), t, th.(pc := RelTest));
      }
    }
  }

  lemma SoloClearOwner(l: Lock, t: nat, th: Thread)
    requires th.pc == DesClearOwner
    ensures Solo(l, t, th) == Moved(l.(mLock := None, processID := None, refcount := 0), Thread(Idle, th.depth, Success), false)
  {
    hide Solo;
    var m := l.(processID := None);
    Next(l, t, th);
    Next(m, t, th.(pc := DesClearCount));
    Next(m.(refcount := 0), t, th.(pc := DesUnlock));
  }

  lemma SoloClearCookie(l: Lock, t: nat, th: Thread)
    requires th.pc == DesClearCookie
    ensures Solo(l, t, th) == Moved(Lock(None, false, None, Destroyed, 0), Thread(Idle, th.depth, Success), false)
  {
    hide Solo;
    var m := l.(cookie := false);
    Next(l, t, th);
    Next(m, t, th.(pc := DesSetState));
    SoloClearOwner(m.(state := Destroyed), t, th.(pc := DesClearOwner));
  }

  lemma SoloDestroy(l: Lock, t: nat, depth: int)
    ensures Operate(l, t, depth, Destroy) ==
      if !l.cookie then Moved(l, Thread(Idle, depth, Invalid), false)
      else if l.mLock != None then Moved(l, Thread(Idle, depth, Busy), false)
      else Moved(Lock(None, false, None, Destroyed, 0), Thread(Idle, depth, Success), false)
  {
    hide Solo;
    var th := Thread(DesCookie, depth, NoStatus);
    Next(l, t, th);
    if l.cookie {
      Next(l, t, th.(pc := DesTryLock));
      if l.mLock == None {
        SoloClearCookie(l.(mLock := Some(t)), t, th.(pc := DesClearCookie));
      }
    }
  }

  /** The object itself: each operation, run without interference, does what the steps
    * of the system do one after the other. */
  class Mutex {
    var mLock: Holder
    var cookie: bool
    var processID: Holder
    var state: LockState
    var refcount: nat

    function Value(): Lock
      reads this
    {
      Lock(mLock, cookie, processID, state, refcount)
    }

    /** cdf_mutex_init */
    method Initialize() returns (status: Status)
      modifies this
      ensures if old(cookie) then status == Busy && Value() == old(Value()) else status == Success && Value() == Initialized()
    {
      if cookie {
        return Busy;
      }
      mLock := None;
      cookie := true;
      state := Released;
      processID := None;
      refcount := 0;
      return Success;
    }

    /** cdf_mutex_acquire by thread `pid`, when it need not wait. */
    method AcquireFree(pid: nat, ghost depth: int) returns (status: Status)
      requires mLock == None || !cookie || (processID == Some(pid) && state == Acquired)
      modifies this
      ensures var m := Operate(old(Value()), pid, depth, Acquire);
        m.thread.pc == Idle && Value() == m.lock && status == m.thread.status
    {
      hide Operate;
      SoloAcquire(Value(), pid, depth);
      if !cookie {
        return Invalid;
      }
      if processID == Some(pid) && state == Acquired {
        refcount := (refcount + 1) % REFCOUNT_SIZE;
        return Success;
      }
      mLock := Some(pid);
      if state != Destroyed {
        processID := Some(pid);
        refcount := (refcount + 1) % REFCOUNT_SIZE;
        state := Acquired;
        return Success;
      } else {
        mLock := None;
        return Failure;
      }
    }

    /** cdf_mutex_release by thread `pid`. */
    method ReleaseIt(pid: nat, ghost depth: int) returns (status: Status)
      modifies this
      ensures var m := Operate(old(Value()), pid, depth, Release);
        m.thread.pc == Idle && Value() == m.lock && status == m.thread.status
    {
      hide Operate;
      SoloRelease(Value(), pid, depth);
      if !cookie {
        return Invalid;
      }
      if processID != Some(pid) {
        return Perm;
      }
      if processID == Some(pid) && state == Acquired {
        if refcount > 0 {
          refcount := refcount - 1;
        }
      }
      if refcount != 0 {
        return Success;
      }
      processID := None;
      refcount := 0;
      state := Released;
      mLock := None;
      return Success;
    }

    /** cdf_mutex_destroy by thread `pid`. */
    method DestroyIt(pid: nat, ghost depth: int) returns (status: Status)
      modifies this
      ensures var m := Operate(old(Value()), pid, depth, Destroy);
        m.thread.pc == Idle && Value() == m.lock && status == m.thread.status
    {
      hide Operate;
      SoloDestroy(Value(), pid, depth);
      if !cookie {
        return Invalid;
      }
      if mLock != None {
        return Busy;
      }
      mLock := Some(pid);
      cookie := false;
      state := Destroyed;
      processID := None;
      refcount := 0;
      mLock := None;
      return Success;
    }
  }
}
