/**
 * The lock protocol that guards a native execution or log handle in the Go SDK:
 * `ExecutionSession`, its `ExecutionStdin`, and `MachineLogStream`.
 *
 * Any number of goroutines call the methods of one session. Each method is cut into the
 * steps between which another goroutine may run, and a native call is an interval: it is
 * entered in one step and left in another. A step takes at most one lock action and changes
 * the session's fields. The read-write mutex is Go's: a writer first announces itself, which
 * keeps new readers out, and then waits for the readers inside to leave.
 */
module Session {
  import opened Common

  type Tid = nat

  /** A log stream has no stdin and no control calls; otherwise the protocol is the same. */
  datatype Kind = Execution | Log

  /** Recv, Wait and Collect; Recv on a log stream. */
  datatype RecvPc =
    | RecvTry
    | RecvWantRead
    | RecvCheck
    | RecvUnlockRead(open: bool)
    | RecvCalling
    | RecvCancelling(inFlight: bool)
    | RecvAwait(inFlight: bool)
    | RecvDone

  /** Signal, ResizePTY, CloseRequests and Cancel. */
  datatype ControlPc = ControlWantRead | ControlCheck | ControlCalling | ControlDone

  /** Close of the session or stream: the cancelling read-locked part. */
  datatype ClosePc =
    | CloseWantRead
    | CloseCheck
    | CloseCancelling
    | CloseUnlockRead(proceed: bool)
    | CloseWantReceiver

  /** Close of the session or stream: the freeing part, which holds the receiver lock throughout. */
  datatype FinishPc =
    | FinishWantWrite
    | FinishAnnounced
    | FinishRecheck
    | FinishFree
    | FinishClearNative
    | FinishMarkClosed
    | FinishUnlockWrite
    | FinishDone

  /** Stdin, which hands out the writer. */
  datatype StdinPc = StdinWantWrite | StdinAnnounced | StdinCheck | StdinCalling | StdinDone

  /** WriteContext of the stdin writer. */
  datatype WritePc = WriteWantLock | WriteCheck | WriteCalling | WriteDone

  /** Close of the stdin writer. */
  datatype InputPc =
    | InputWantLock
    | InputCheck
    | InputClosing
    | InputFree
    | InputClearNative
    | InputMarkClosed
    | InputDone

  /** Where a goroutine is. The session's Close closes the stdin writer as a nested call. */
  datatype Pc =
    | Idle
    | Receiving(recv: RecvPc)
    | Controlling(control: ControlPc)
    | Closing(close: ClosePc)
    | Finishing(finish: FinishPc)
    | Asking(ask: StdinPc)
    | Writing(write: WritePc)
    | Ending(nested: bool, end: InputPc)

  /** An `ExecutionStdin`: whether its native pointer is set, its closed flag, and frees so far. */
  datatype Input = Input(native: bool, closed: bool, frees: nat)

  /** The session's own fields, and how often its native handle has been freed. */
  datatype Data = Data(native: bool, closed: bool, frees: nat, input: Option<Input>)

  /** The receiver mutex, the session's read-write mutex, and the mutex inside the stdin writer. */
  datatype Locks = Locks(
    receiver: Option<Tid>,
    readers: set<Tid>,
    announced: Option<Tid>,
    writing: bool,
    input: Option<Tid>)

  datatype State = State(pc: map<Tid, Pc>, locks: Locks, data: Data)

  // Lock actions

  datatype Action =
    | Skip
    | LockReceiver | UnlockReceiver
    | ReadLock | ReadUnlock
    | Announce | AwaitReaders | WriteUnlock
    | LockInput | UnlockInput

  /** Whether the lock lets a goroutine through now; otherwise it blocks. */
  predicate Enabled(l: Locks, a: Action) {
    match a
    case LockReceiver => l.receiver.None?
    case ReadLock => l.announced.None?
    case Announce => l.announced.None?
    case AwaitReaders => l.readers == {}
    case LockInput => l.input.None?
    case _ => true
  }

  function Apply(l: Locks, a: Action, t: Tid): Locks {
    match a
    case Skip => l
    case LockReceiver => l.(receiver := Some(t))
    case UnlockReceiver => l.(receiver := None)
    case ReadLock => l.(readers := l.readers + {t})
    case ReadUnlock => l.(readers := l.readers - {t})
    case Announce => l.(announced := Some(t))
    case AwaitReaders => l.(writing := true)
    case WriteUnlock => l.(announced := None, writing := false)
    case LockInput => l.(input := Some(t))
    case UnlockInput => l.(input := None)
  }

  /** The lock action of each position. `TryLock` takes the receiver only if it is free. */
  function ActionAt(p: Pc, receiverFree: bool): Action {
    match p
    case Idle => Skip
    case Receiving(r) =>
      if r.RecvTry? && receiverFree then LockReceiver
      else if r.RecvWantRead? then ReadLock
      else if r.RecvUnlockRead? then ReadUnlock
      else if r.RecvDone? then UnlockReceiver
      else Skip
    case Controlling(c) =>
      if c.ControlWantRead? then ReadLock else if c.ControlDone? then ReadUnlock else Skip
    case Closing(c) =>
      if c.CloseWantRead? then ReadLock
      else if c.CloseUnlockRead? then ReadUnlock
      else if c.CloseWantReceiver? then LockReceiver
      else Skip
    case Finishing(f) =>
      if f.FinishWantWrite? then Announce
      else if f.FinishAnnounced? then AwaitReaders
      else if f.FinishUnlockWrite? then WriteUnlock
      else if f.FinishDone? then UnlockReceiver
      else Skip
    case Asking(q) =>
      if q.StdinWantWrite? then Announce
      else if q.StdinAnnounced? then AwaitReaders
      else if q.StdinDone? then WriteUnlock
      else Skip
    case Writing(w) => if w.WriteWantLock? then LockInput else if w.WriteDone? then UnlockInput else Skip
    case Ending(_, e) => if e.InputWantLock? then LockInput else if e.InputDone? then UnlockInput else Skip
  }

  // The methods: where a goroutine goes next, and what it writes, once its lock lets it through

  /** The call a goroutine starts. A writer exists only once `Stdin` has returned it. */
  ghost predicate Start(k: Kind, d: Data, p': Pc) {
    || p' == Receiving(RecvTry)
    || p' == Closing(CloseWantRead)
    || (k == Execution && (p' == Controlling(ControlWantRead) || p' == Asking(StdinWantWrite)))
    || (k == Execution && d.input.Some? && (p' == Writing(WriteWantLock) || p' == Ending(false, InputWantLock)))
  }

  ghost predicate ReceiveMove(r: RecvPc, d: Data, receiverFree: bool, p': Pc) {
    match r
    case RecvTry => p' == if receiverFree then Receiving(RecvWantRead) else Idle
    case RecvWantRead => p' == Receiving(RecvCheck)
    case RecvCheck => p' == Receiving(RecvUnlockRead(!d.closed))
    case RecvUnlockRead(open) => p' == Receiving(if open then RecvCalling else RecvDone)
    case RecvCalling => p' == Receiving(RecvDone) || p' == Receiving(RecvCancelling(true))
    case RecvCancelling(inFlight) =>
      p' == Receiving(RecvAwait(inFlight)) || (inFlight && p' == Receiving(RecvCancelling(false)))
    case RecvAwait(_) => p' == Receiving(RecvDone)
    case RecvDone => p' == Idle
  }

  ghost predicate ControlMove(c: ControlPc, d: Data, p': Pc) {
    match c
    case ControlWantRead => p' == Controlling(ControlCheck)
    case ControlCheck => p' == Controlling(if d.closed then ControlDone else ControlCalling)
    case ControlCalling => p' == Controlling(ControlDone)
    case ControlDone => p' == Idle
  }

  ghost predicate CloseMove(c: ClosePc, d: Data, p': Pc) {
    match c
    case CloseWantRead => p' == Closing(CloseCheck)
    case CloseCheck => p' == Closing(if d.closed then CloseUnlockRead(false) else CloseCancelling)
    case CloseCancelling => p' == Closing(CloseUnlockRead(true))
    case CloseUnlockRead(proceed) => p' == if proceed then Closing(CloseWantReceiver) else Idle
    case CloseWantReceiver => p' == Finishing(FinishWantWrite)
  }

  ghost predicate FinishMove(f: FinishPc, d: Data, p': Pc, d': Data) {
    match f
    case FinishWantWrite => d' == d && p' == Finishing(FinishAnnounced)
    case FinishAnnounced => d' == d && p' == Finishing(FinishRecheck)
    case FinishRecheck =>
      && d' == d
      && p' == if d.closed then Finishing(FinishUnlockWrite)
               else if d.input.Some? then Ending(true, InputWantLock)
               else Finishing(FinishFree)
    case FinishFree => d' == d.(frees := d.frees + 1) && p' == Finishing(FinishClearNative)
    case FinishClearNative => d' == d.(native := false) && p' == Finishing(FinishMarkClosed)
    case FinishMarkClosed => d' == d.(closed := true) && p' == Finishing(FinishUnlockWrite)
    case FinishUnlockWrite => d' == d && p' == Finishing(FinishDone)
    case FinishDone => d' == d && p' == Idle
  }

  ghost predicate StdinMove(q: StdinPc, d: Data, p': Pc, d': Data) {
    match q
    case StdinWantWrite => d' == d && p' == Asking(StdinAnnounced)
    case StdinAnnounced => d' == d && p' == Asking(StdinCheck)
    case StdinCheck =>
      d' == d && p' == Asking(if d.closed || !d.native || d.input.Some? then StdinDone else StdinCalling)
    case StdinCalling =>
      p' == Asking(StdinDone) && (d' == d || d' == d.(input := Some(Input(true, false, 0))))
    case StdinDone => d' == d && p' == Idle
  }

  ghost predicate WriteMove(w: WritePc, i: Input, p': Pc) {
    match w
    case WriteWantLock => p' == Writing(WriteCheck)
    case WriteCheck => p' == Writing(if i.closed then WriteDone else WriteCalling)
    case WriteCalling => p' == Writing(WriteDone)
    case WriteDone => p' == Idle
  }

  ghost predicate InputMove(n: bool, e: InputPc, i: Input, p': Pc, i': Input) {
    match e
    case InputWantLock => i' == i && p' == Ending(n, InputCheck)
    case InputCheck => i' == i && p' == Ending(n, if i.closed then InputDone else InputClosing)
    case InputClosing => i' == i && p' == Ending(n, InputFree)
    case InputFree => i' == i.(frees := i.frees + 1) && p' == Ending(n, InputClearNative)
    case InputClearNative => i' == i.(native := false) && p' == Ending(n, InputMarkClosed)
    case InputMarkClosed => i' == i.(closed := true) && p' == Ending(n, InputDone)
    case InputDone => i' == i && p' == if n then Finishing(FinishFree) else Idle
  }

  ghost predicate Move(k: Kind, p: Pc, d: Data, receiverFree: bool, p': Pc, d': Data) {
    match p
    case Idle => d' == d && Start(k, d, p')
    case Receiving(r) => d' == d && ReceiveMove(r, d, receiverFree, p')
    case Controlling(c) => d' == d && ControlMove(c, d, p')
    case Closing(c) => d' == d && CloseMove(c, d, p')
    case Finishing(f) => FinishMove(f, d, p', d')
    case Asking(q) => StdinMove(q, d, p', d')
    case Writing(w) => d' == d && d.input.Some? && WriteMove(w, d.input.value, p')
    case Ending(n, e) =>
      && d.input.Some? && d'.input.Some?
      && d' == d.(input := d'.input)
      && InputMove(n, e, d.input.value, p', d'.input.value)
  }

  ghost predicate Init(s: State) {
    && (forall t :: t in s.pc ==> s.pc[t] == Idle)
    && s.locks == Locks(None, {}, None, false, None)
    && s.data == Data(true, false, 0, None)
  }

  ghost predicate Step(k: Kind, s: State, s': State, t: Tid) {
    && t in s.pc && t in s'.pc
    && s'.pc == s.pc[t := s'.pc[t]]
    && var free := s.locks.receiver.None?;
    && Enabled(s.locks, ActionAt(s.pc[t], free))
    && s'.locks == Apply(s.locks, ActionAt(s.pc[t], free), t)
    && Move(k, s.pc[t], s.data, free, s'.pc[t], s'.data)
  }

  ghost predicate Next(k: Kind, s: State, s': State) {
    exists t :: Step(k, s, s', t)
  }

  /** An interleaving of any length, from a freshly opened session. */
  ghost predicate Run(k: Kind, trace: seq<State>) {
    && |trace| > 0
    && Init(trace[0])
    && forall i, j :: 0 <= i && j == i + 1 && j < |trace| ==> Next(k, trace[i], trace[j])
  }

  // What a position means: the locks it holds and the native call it is inside

  datatype Held = Held(receiver: bool, read: bool, announced: bool, write: bool, input: bool)

  function HeldAt(p: Pc): Held {
    match p
    case Idle => Held(false, false, false, false, false)
    case Receiving(r) => Held(!r.RecvTry?, r.RecvCheck? || r.RecvUnlockRead?, false, false, false)
    case Controlling(c) => Held(false, !c.ControlWantRead?, false, false, false)
    case Closing(c) => Held(false, !c.CloseWantRead? && !c.CloseWantReceiver?, false, false, false)
    case Finishing(f) =>
      Held(true, false, !f.FinishWantWrite? && !f.FinishDone?,
           !f.FinishWantWrite? && !f.FinishAnnounced? && !f.FinishDone?, false)
    case Asking(q) => Held(false, false, !q.StdinWantWrite?, !q.StdinWantWrite? && !q.StdinAnnounced?, false)
    case Writing(w) => Held(false, false, false, false, !w.WriteWantLock?)
    case Ending(n, e) => Held(n, false, n, n, !e.InputWantLock?)
  }

  /** Holding a native pointer it will call, inside such a call, or about to free the session handle. */
  predicate UsesSession(p: Pc) {
    match p
    case Receiving(r) => r == RecvUnlockRead(true) || r.RecvCalling? || r.RecvCancelling? || r.RecvAwait?
    case Controlling(c) => c.ControlCalling?
    case Closing(c) => c.CloseCancelling?
    case Finishing(f) => f.FinishFree?
    case Asking(q) => q.StdinCalling?
    case _ => false
  }

  /** Calls made through the `native` field itself, which must then not be nil. */
  predicate LoadsNative(p: Pc) {
    match p
    case Receiving(r) => r == RecvUnlockRead(true)
    case Controlling(c) => c.ControlCalling?
    case Closing(c) => c.CloseCancelling?
    case Asking(q) => q.StdinCalling?
    case _ => false
  }

  /** Inside a native call on the stdin handle, or about to free it. */
  predicate UsesInput(p: Pc) {
    match p
    case Writing(w) => w.WriteCalling?
    case Ending(_, e) => e.InputClosing? || e.InputFree?
    case _ => false
  }

  // Locks: the lock words say exactly what the positions say

  ghost predicate Agrees(l: Locks, t: Tid, h: Held) {
    && (h.receiver <==> l.receiver == Some(t))
    && (h.read <==> t in l.readers)
    && (h.announced <==> l.announced == Some(t))
    && (h.write <==> l.announced == Some(t) && l.writing)
    && (h.input <==> l.input == Some(t))
  }

  ghost predicate LockInv(s: State) {
    && (forall t :: t in s.pc ==> Agrees(s.locks, t, HeldAt(s.pc[t])))
    && (s.locks.receiver.Some? ==> s.locks.receiver.value in s.pc)
    && (s.locks.announced.Some? ==> s.locks.announced.value in s.pc)
    && (s.locks.input.Some? ==> s.locks.input.value in s.pc)
    && s.locks.readers <= s.pc.Keys
    && (s.locks.writing ==> s.locks.readers == {} && s.locks.announced.Some?)
  }

  function HeldAfter(h: Held, a: Action): Held {
    match a
    case Skip => h
    case LockReceiver => h.(receiver := true)
    case UnlockReceiver => h.(receiver := false)
    case ReadLock => h.(read := true)
    case ReadUnlock => h.(read := false)
    case Announce => h.(announced := true)
    case AwaitReaders => h.(write := true)
    case WriteUnlock => h.(announced := false, write := false)
    case LockInput => h.(input := true)
    case UnlockInput => h.(input := false)
  }

  /** A goroutine releases only what it holds. */
  predicate Releasable(h: Held, a: Action) {
    match a
    case UnlockReceiver => h.receiver
    case ReadUnlock => h.read
    case AwaitReaders => h.announced
    case WriteUnlock => h.announced
    case UnlockInput => h.input
    case _ => true
  }

  /** The lock action at `p` turns what `p` holds into what `p'` holds. */
  ghost predicate LocksFollow(p: Pc, free: bool, p': Pc) {
    && Releasable(HeldAt(p), ActionAt(p, free))
    && HeldAt(p') == HeldAfter(HeldAt(p), ActionAt(p, free))
  }

  lemma ReceiveLocks(r: RecvPc, d: Data, free: bool, p': Pc)
    requires ReceiveMove(r, d, free, p')
    ensures LocksFollow(Receiving(r), free, p')
  {
  }

  lemma FinishLocks(f: FinishPc, d: Data, free: bool, p': Pc, d': Data)
    requires FinishMove(f, d, p', d')
    ensures LocksFollow(Finishing(f), free, p')
  {
  }

  lemma StdinLocks(q: StdinPc, d: Data, free: bool, p': Pc, d': Data)
    requires StdinMove(q, d, p', d')
    ensures LocksFollow(Asking(q), free, p')
  {
  }

  lemma InputLocks(n: bool, e: InputPc, i: Input, free: bool, p': Pc, i': Input)
    requires InputMove(n, e, i, p', i')
    ensures LocksFollow(Ending(n, e), free, p')
  {
  }

  /** Every step's lock action turns what the old position holds into what the new one holds. */
  lemma MoveMatchesLocks(k: Kind, p: Pc, d: Data, free: bool, p': Pc, d': Data)
    requires Move(k, p, d, free, p', d')
    ensures LocksFollow(p, free, p')
  {
    match p
    case Idle =>
    case Receiving(r) => ReceiveLocks(r, d, free, p');
    case Controlling(c) =>
    case Closing(c) =>
    case Finishing(f) => FinishLocks(f, d, free, p', d');
    case Asking(q) => StdinLocks(q, d, free, p', d');
    case Writing(w) =>
    case Ending(n, e) => InputLocks(n, e, d.input.value, free, p', d'.input.value);
  }

  lemma ActionKeepsAgreement(l: Locks, a: Action, t: Tid, h: Held, u: Tid, hu: Held)
    requires Enabled(l, a) && Releasable(h, a)
    requires l.writing ==> l.announced.Some?
    requires Agrees(l, t, h) && Agrees(l, u, hu)
    ensures Agrees(Apply(l, a, t), u, if u == t then HeldAfter(h, a) else hu)
  {
  }

  lemma StepKeepsLocks(k: Kind, s: State, s': State, t: Tid)
    requires LockInv(s) && Step(k, s, s', t)
    ensures LockInv(s')
  {
    var free := s.locks.receiver.None?;
    var a := ActionAt(s.pc[t], free);
    MoveMatchesLocks(k, s.pc[t], s.data, free, s'.pc[t], s'.data);
    forall u | u in s'.pc ensures Agrees(s'.locks, u, HeldAt(s'.pc[u])) {
      ActionKeepsAgreement(s.locks, a, t, HeldAt(s.pc[t]), u, HeldAt(s.pc[u]));
    }
  }

  // The session handle: freed once, by the closer that then clears the field and sets the flag

  predicate Freeing(p: Pc) {
    p == Finishing(FinishClearNative) || p == Finishing(FinishMarkClosed)
  }

  /** No closer is between freeing the handle and setting the closed flag. */
  predicate Settled(d: Data) {
    d.frees == 0 || d.closed
  }

  /** What a position says about the session's fields. */
  predicate HandleOk(p: Pc, d: Data) {
    && (UsesSession(p) ==> d.frees == 0)
    && (LoadsNative(p) ==> d.native)
    && (p == Finishing(FinishClearNative) ==> d.frees == 1 && d.native && !d.closed)
    && (p == Finishing(FinishMarkClosed) ==> d.frees == 1 && !d.native && !d.closed)
    && (p == Finishing(FinishUnlockWrite) || p == Finishing(FinishDone) ==> d.closed)
    && (p == Closing(CloseUnlockRead(false)) ==> d.closed)
    && (p.Ending? && p.nested ==> d.frees == 0)
  }

  predicate HandleShape(d: Data) {
    && d.frees <= 1
    && (d.frees == 0 ==> d.native && !d.closed)
    && (d.closed ==> !d.native)
  }

  ghost predicate HandleInv(s: State) {
    && (forall t :: t in s.pc ==> HandleOk(s.pc[t], s.data))
    && HandleShape(s.data)
    && (!Settled(s.data) ==>
          s.locks.announced.Some? && s.locks.announced.value in s.pc && Freeing(s.pc[s.locks.announced.value]))
  }

  /** `q` holds none of the session locks that `p` holds exclusively. */
  predicate Apart(h: Held, q: Held) {
    && !(h.receiver && q.receiver)
    && !(h.write && (q.read || q.announced || q.write))
    && !(h.read && q.write)
    && !(h.input && q.input)
  }

  lemma HoldersAreApart(s: State, t: Tid, u: Tid)
    requires LockInv(s) && t in s.pc && u in s.pc && t != u
    ensures Apart(HeldAt(s.pc[t]), HeldAt(s.pc[u]))
  {
    assert Agrees(s.locks, t, HeldAt(s.pc[t])) && Agrees(s.locks, u, HeldAt(s.pc[u]));
  }

  /** Under the read or write lock the handle is settled, unless the holder itself is freeing it. */
  lemma SettledUnderLock(s: State, t: Tid)
    requires LockInv(s) && HandleInv(s) && t in s.pc
    ensures (HeldAt(s.pc[t]).read || HeldAt(s.pc[t]).write) && !Freeing(s.pc[t]) ==> Settled(s.data)
  {
    assert Agrees(s.locks, t, HeldAt(s.pc[t]));
    if !Settled(s.data) {
      var u := s.locks.announced.value;
      assert HeldAt(s.pc[u]).write;
      if u != t {
        HoldersAreApart(s, u, t);
      }
    }
  }

  lemma OwnHandle(k: Kind, p: Pc, d: Data, free: bool, p': Pc, d': Data)
    requires Move(k, p, d, free, p', d') && HandleShape(d) && HandleOk(p, d)
    requires (HeldAt(p).read || HeldAt(p).write) && !Freeing(p) ==> Settled(d)
    ensures HandleOk(p', d') && HandleShape(d')
    ensures !Settled(d') ==> Freeing(p') || (!Settled(d) && !Freeing(p))
  {
    match p
    case Receiving(r) => ReceiveHandle(r, d, free, p');
    case Closing(c) => CloseHandle(c, d, p');
    case Finishing(f) => FinishHandle(f, d, p', d');
    case _ => hide ReceiveMove, CloseMove, FinishMove;
  }

  lemma ReceiveHandle(r: RecvPc, d: Data, free: bool, p': Pc)
    requires ReceiveMove(r, d, free, p') && HandleShape(d) && HandleOk(Receiving(r), d)
    requires HeldAt(Receiving(r)).read || HeldAt(Receiving(r)).write ==> Settled(d)
    ensures HandleOk(p', d)
  {
  }

  lemma CloseHandle(c: ClosePc, d: Data, p': Pc)
    requires CloseMove(c, d, p') && HandleShape(d) && HandleOk(Closing(c), d)
    requires HeldAt(Closing(c)).read || HeldAt(Closing(c)).write ==> Settled(d)
    ensures HandleOk(p', d)
  {
  }

  lemma FinishHandle(f: FinishPc, d: Data, p': Pc, d': Data)
    requires FinishMove(f, d, p', d') && HandleShape(d) && HandleOk(Finishing(f), d)
    requires (HeldAt(Finishing(f)).read || HeldAt(Finishing(f)).write) && !Freeing(Finishing(f)) ==> Settled(d)
    ensures HandleOk(p', d') && HandleShape(d')
    ensures !Settled(d') ==> Freeing(p') || (!Settled(d) && !Freeing(Finishing(f)))
  {
  }

  lemma OtherHandle(k: Kind, p: Pc, d: Data, free: bool, p': Pc, d': Data, q: Pc)
    requires Move(k, p, d, free, p', d') && HandleOk(q, d) && Apart(HeldAt(p), HeldAt(q))
    ensures HandleOk(q, d')
  {
    match p
    case Finishing(f) =>
    case _ => assert d'.native == d.native && d'.closed == d.closed && d'.frees == d.frees;
  }

  lemma StepKeepsHandle(k: Kind, s: State, s': State, t: Tid)
    requires LockInv(s) && HandleInv(s) && Step(k, s, s', t)
    ensures HandleInv(s')
  {
    hide Move, HandleOk, HandleShape, ActionAt, Enabled, Apply;
    StepKeepsLocks(k, s, s', t);
    SettledUnderLock(s, t);
    var p, p', free := s.pc[t], s'.pc[t], s.locks.receiver.None?;
    OwnHandle(k, p, s.data, free, p', s'.data);
    forall u | u in s'.pc ensures HandleOk(s'.pc[u], s'.data) {
      if u != t {
        HoldersAreApart(s, t, u);
        OtherHandle(k, p, s.data, free, p', s'.data, s.pc[u]);
      }
    }
    if !Settled(s'.data) {
      var u := if Freeing(p') then t else s.locks.announced.value;
      assert Freeing(s'.pc[u]);
      assert Agrees(s'.locks, u, HeldAt(s'.pc[u]));
    }
  }

  // The stdin handle: freed once, by whichever Close of the writer comes first

  predicate FreeingInput(p: Pc) {
    p.Ending? && (p.end == InputClearNative || p.end == InputMarkClosed)
  }

  predicate InputSettled(d: Data) {
    d.input.Some? ==> d.input.value.frees == 0 || d.input.value.closed
  }

  /** What a position says about the stdin writer. */
  predicate InputOk(p: Pc, d: Data) {
    && (p.Writing? || p.Ending? ==> d.input.Some?)
    && (p == Asking(StdinCalling) ==> d.input.None?)
    && (UsesInput(p) ==> d.input.value.frees == 0 && d.input.value.native)
    && (p.Ending? && p.end == InputClearNative ==> d.input.value == Input(true, false, 1))
    && (p.Ending? && p.end == InputMarkClosed ==> d.input.value == Input(false, false, 1))
    && (p.Ending? && p.end == InputDone ==> d.input.value.closed)
    && (p == Finishing(FinishFree) || Freeing(p) ==> d.input.Some? ==> d.input.value.closed)
  }

  predicate InputShape(d: Data) {
    d.input.Some? ==>
      var i := d.input.value;
      && i.frees <= 1
      && (i.frees == 0 ==> i.native && !i.closed)
      && (i.closed ==> !i.native)
      && (d.closed ==> i.closed)
  }

  ghost predicate InputInv(s: State) {
    && (forall t :: t in s.pc ==> InputOk(s.pc[t], s.data))
    && InputShape(s.data)
    && (!InputSettled(s.data) ==>
          s.locks.input.Some? && s.locks.input.value in s.pc && FreeingInput(s.pc[s.locks.input.value]))
  }

  lemma SettledUnderInputLock(s: State, t: Tid)
    requires LockInv(s) && InputInv(s) && t in s.pc
    ensures HeldAt(s.pc[t]).input && !FreeingInput(s.pc[t]) ==> InputSettled(s.data)
  {
    assert Agrees(s.locks, t, HeldAt(s.pc[t]));
  }

  lemma EndInput(n: bool, e: InputPc, d: Data, p': Pc, d': Data)
    requires d.input.Some? && d'.input.Some? && d' == d.(input := d'.input)
    requires InputMove(n, e, d.input.value, p', d'.input.value)
    requires InputShape(d) && InputOk(Ending(n, e), d)
    requires HeldAt(Ending(n, e)).input && !FreeingInput(Ending(n, e)) ==> InputSettled(d)
    ensures InputOk(p', d') && InputShape(d')
    ensures !InputSettled(d') ==> FreeingInput(p') || (!InputSettled(d) && !FreeingInput(Ending(n, e)))
  {
  }

  lemma ReceiveStays(r: RecvPc, d: Data, free: bool, p': Pc)
    requires ReceiveMove(r, d, free, p')
    ensures p'.Receiving? || p'.Idle?
  {
  }

  lemma WriteInput(w: WritePc, d: Data, p': Pc)
    requires d.input.Some? && WriteMove(w, d.input.value, p') && InputShape(d)
    requires HeldAt(Writing(w)).input ==> InputSettled(d)
    ensures InputOk(p', d) && !FreeingInput(p')
  {
  }

  lemma AskInput(q: StdinPc, d: Data, p': Pc, d': Data)
    requires StdinMove(q, d, p', d') && InputShape(d) && InputOk(Asking(q), d)
    requires HandleShape(d) && HandleOk(Asking(q), d)
    ensures InputOk(p', d') && InputShape(d') && !FreeingInput(p')
    ensures !InputSettled(d') ==> !InputSettled(d)
  {
  }

  lemma FinishInput(f: FinishPc, d: Data, p': Pc, d': Data)
    requires FinishMove(f, d, p', d') && InputShape(d) && InputOk(Finishing(f), d)
    ensures InputOk(p', d') && InputShape(d') && d'.input == d.input
  {
  }

  lemma OwnInput(k: Kind, p: Pc, d: Data, free: bool, p': Pc, d': Data)
    requires Move(k, p, d, free, p', d') && InputShape(d) && InputOk(p, d)
    requires HandleShape(d) && HandleOk(p, d)
    requires HeldAt(p).input && !FreeingInput(p) ==> InputSettled(d)
    ensures InputOk(p', d') && InputShape(d')
    ensures !InputSettled(d') ==> FreeingInput(p') || (!InputSettled(d) && !FreeingInput(p))
  {
    hide InputMove, ReceiveMove, WriteMove, FinishMove, StdinMove, HandleOk;
    match p
    case Idle =>
    case Receiving(r) => ReceiveStays(r, d, free, p');
    case Controlling(c) =>
    case Closing(c) =>
    case Finishing(f) => FinishInput(f, d, p', d');
    case Asking(q) => AskInput(q, d, p', d');
    case Writing(w) => WriteInput(w, d, p');
    case Ending(n, e) => EndInput(n, e, d, p', d');
  }

  lemma OtherInput(k: Kind, p: Pc, d: Data, free: bool, p': Pc, d': Data, q: Pc)
    requires Move(k, p, d, free, p', d') && InputOk(p, d) && InputOk(q, d) && Apart(HeldAt(p), HeldAt(q))
    ensures InputOk(q, d')
  {
    match p
    case Asking(a) =>
    case Ending(n, e) => assert d.input.value.closed ==> d'.input.value.closed;
    case _ => assert d'.input == d.input;
  }

  lemma StepKeepsInput(k: Kind, s: State, s': State, t: Tid)
    requires LockInv(s) && HandleInv(s) && InputInv(s) && Step(k, s, s', t)
    ensures InputInv(s')
  {
    hide Move, HandleOk, HandleShape, InputOk, InputShape, ActionAt, Enabled, Apply;
    StepKeepsLocks(k, s, s', t);
    SettledUnderInputLock(s, t);
    var p, p', free := s.pc[t], s'.pc[t], s.locks.receiver.None?;
    OwnInput(k, p, s.data, free, p', s'.data);
    forall u | u in s'.pc ensures InputOk(s'.pc[u], s'.data) {
      if u != t {
        HoldersAreApart(s, t, u);
        OtherInput(k, p, s.data, free, p', s'.data, s.pc[u]);
      }
    }
    if !InputSettled(s'.data) {
      var u := if FreeingInput(p') then t else s.locks.input.value;
      assert FreeingInput(s'.pc[u]);
      assert Agrees(s'.locks, u, HeldAt(s'.pc[u]));
    }
  }

  // Runs

  ghost predicate Inv(s: State) {
    LockInv(s) && HandleInv(s) && InputInv(s)
  }

  lemma {:induction false} RunKeepsInv(k: Kind, trace: seq<State>, i: nat)
    requires Run(k, trace) && i < |trace|
    ensures Inv(trace[i])
  {
    if i > 0 {
      RunKeepsInv(k, trace, i - 1);
      assert Next(k, trace[i - 1], trace[i]);
      var t :| Step(k, trace[i - 1], trace[i], t);
      StepKeepsLocks(k, trace[i - 1], trace[i], t);
      StepKeepsHandle(k, trace[i - 1], trace[i], t);
      StepKeepsInput(k, trace[i - 1], trace[i], t);
    }
  }

  /**
   * In every interleaving, a goroutine inside a native call finds the handle it uses alive and
   * the pointer it loads set, and each handle has been freed at most once.
   */
  lemma NoUseAfterFree(k: Kind, trace: seq<State>, i: nat, t: Tid)
    requires Run(k, trace) && i < |trace| && t in trace[i].pc
    ensures UsesSession(trace[i].pc[t]) ==> trace[i].data.frees == 0
    ensures LoadsNative(trace[i].pc[t]) ==> trace[i].data.native
    ensures UsesInput(trace[i].pc[t]) ==>
              trace[i].data.input.Some? && trace[i].data.input.value.frees == 0 && trace[i].data.input.value.native
    ensures trace[i].data.frees <= 1
    ensures trace[i].data.input.Some? ==> trace[i].data.input.value.frees <= 1
  {
    RunKeepsInv(k, trace, i);
  }

  /** The stdin handle is used only while the session handle is alive: Close ends stdin first. */
  lemma StdinWithinSession(k: Kind, trace: seq<State>, i: nat, t: Tid)
    requires Run(k, trace) && i < |trace| && t in trace[i].pc && UsesInput(trace[i].pc[t])
    ensures trace[i].data.frees == 0 && trace[i].data.native && !trace[i].data.closed
  {
    var s := trace[i];
    RunKeepsInv(k, trace, i);
    assert InputOk(s.pc[t], s.data);
    assert forall u :: u in s.pc ==> InputOk(s.pc[u], s.data) && !Freeing(s.pc[u]);
  }

  lemma StepKeepsClosed(k: Kind, s: State, s': State)
    requires Next(k, s, s') && s.data.closed
    ensures s'.data.closed
  {
    var t :| Step(k, s, s', t);
    var p := s.pc[t];
    match p
    case Finishing(f) =>
    case _ =>
  }

  lemma {:induction false} RunKeepsClosed(k: Kind, trace: seq<State>, i: nat, j: nat)
    requires Run(k, trace) && i <= j < |trace| && trace[i].data.closed
    ensures trace[j].data.closed
  {
    if i < j {
      RunKeepsClosed(k, trace, i, j - 1);
      assert Next(k, trace[j - 1], trace[j]);
      StepKeepsClosed(k, trace[j - 1], trace[j]);
    }
  }

  /** Once some Close has returned after freeing, both handles are freed exactly once, for good. */
  lemma CloseIsFinal(k: Kind, trace: seq<State>, i: nat, j: nat, t: Tid)
    requires Run(k, trace) && i <= j < |trace| && t in trace[i].pc
    requires trace[i].pc[t] == Finishing(FinishDone) || trace[i].pc[t] == Closing(CloseUnlockRead(false))
    ensures trace[j].data.closed && trace[j].data.frees == 1 && !trace[j].data.native
    ensures trace[j].data.input.Some? ==> trace[j].data.input.value.closed && trace[j].data.input.value.frees == 1
  {
    RunKeepsInv(k, trace, i);
    RunKeepsInv(k, trace, j);
    RunKeepsClosed(k, trace, i, j);
  }

  // Waiting

  /** `t` is blocked on a lock that `u` has: as holder, as announced writer, or as reader inside. */
  ghost predicate WaitsFor(s: State, t: Tid, u: Tid) {
    && t in s.pc && u in s.pc
    && var a := ActionAt(s.pc[t], s.locks.receiver.None?);
    && !Enabled(s.locks, a)
    && match a
       case LockReceiver => s.locks.receiver == Some(u)
       case ReadLock => s.locks.announced == Some(u)
       case Announce => s.locks.announced == Some(u)
       case AwaitReaders => u in s.locks.readers
       case LockInput => s.locks.input == Some(u)
       case _ => false
  }

  /** The global lock order: receiver, then the session's two sides, then stdin, then not waiting. */
  function Rank(p: Pc): nat {
    match ActionAt(p, false)
    case LockReceiver => 0
    case ReadLock => 1
    case Announce => 1
    case AwaitReaders => 2
    case LockInput => 3
    case _ => 4
  }

  /** Whoever waits for a lock is earlier in the lock order than whoever has it. */
  lemma WaitingClimbs(s: State, t: Tid, u: Tid)
    requires LockInv(s) && WaitsFor(s, t, u)
    ensures Rank(s.pc[t]) < Rank(s.pc[u])
  {
    assert Agrees(s.locks, u, HeldAt(s.pc[u]));
  }

  /** A closed chain of goroutines, each waiting for the next, and the last for the first. */
  ghost predicate WaitCycle(s: State, ring: seq<Tid>) {
    && |ring| > 0
    && (forall i, j :: 0 <= i && j == i + 1 && j < |ring| ==> WaitsFor(s, ring[i], ring[j]))
    && WaitsFor(s, ring[|ring| - 1], ring[0])
  }

  lemma {:induction false} RankAlongChain(s: State, ring: seq<Tid>, i: nat)
    requires LockInv(s) && WaitCycle(s, ring) && i < |ring|
    ensures ring[0] in s.pc && ring[i] in s.pc && Rank(s.pc[ring[0]]) + i <= Rank(s.pc[ring[i]])
  {
    if i > 0 {
      RankAlongChain(s, ring, i - 1);
      assert WaitsFor(s, ring[i - 1], ring[i]);
      WaitingClimbs(s, ring[i - 1], ring[i]);
    }
  }

  /** No reachable state has goroutines waiting for each other in a circle, of any length. */
  lemma NoDeadlock(k: Kind, trace: seq<State>, i: nat, ring: seq<Tid>)
    requires Run(k, trace) && i < |trace|
    ensures !WaitCycle(trace[i], ring)
  {
    RunKeepsInv(k, trace, i);
    if WaitCycle(trace[i], ring) {
      RankAlongChain(trace[i], ring, |ring| - 1);
      WaitingClimbs(trace[i], ring[|ring| - 1], ring[0]);
    }
  }

  /** Some goroutine in the middle of a call can take a step. */
  ghost predicate CanMove(k: Kind, s: State) {
    exists u, s' :: Step(k, s, s', u) && s.pc[u] != Idle
  }

  /** Every position has a way on: native calls are taken to return. */
  lemma Successor(k: Kind, p: Pc, d: Data, free: bool) returns (p': Pc, d': Data)
    requires p != Idle && InputOk(p, d)
    ensures Move(k, p, d, free, p', d')
  {
    d' := d;
    match p
    case Receiving(r) =>
      p' := match r
        case RecvTry => if free then Receiving(RecvWantRead) else Idle
        case RecvWantRead => Receiving(RecvCheck)
        case RecvCheck => Receiving(RecvUnlockRead(!d.closed))
        case RecvUnlockRead(open) => Receiving(if open then RecvCalling else RecvDone)
        case RecvCalling => Receiving(RecvDone)
        case RecvCancelling(inFlight) => Receiving(RecvAwait(inFlight))
        case RecvAwait(_) => Receiving(RecvDone)
        case RecvDone => Idle;
    case Controlling(c) =>
      p' := match c
        case ControlWantRead => Controlling(ControlCheck)
        case ControlCheck => Controlling(if d.closed then ControlDone else ControlCalling)
        case ControlCalling => Controlling(ControlDone)
        case ControlDone => Idle;
    case Closing(c) =>
      p' := match c
        case CloseWantRead => Closing(CloseCheck)
        case CloseCheck => Closing(if d.closed then CloseUnlockRead(false) else CloseCancelling)
        case CloseCancelling => Closing(CloseUnlockRead(true))
        case CloseUnlockRead(proceed) => if proceed then Closing(CloseWantReceiver) else Idle
        case CloseWantReceiver => Finishing(FinishWantWrite);
    case Finishing(f) => p', d' := FinishSuccessor(f, d);
    case Asking(q) =>
      p' := match q
        case StdinWantWrite => Asking(StdinAnnounced)
        case StdinAnnounced => Asking(StdinCheck)
        case StdinCheck => Asking(if d.closed || !d.native || d.input.Some? then StdinDone else StdinCalling)
        case StdinCalling => Asking(StdinDone)
        case StdinDone => Idle;
    case Writing(w) =>
      p' := match w
        case WriteWantLock => Writing(WriteCheck)
        case WriteCheck => Writing(if d.input.value.closed then WriteDone else WriteCalling)
        case WriteCalling => Writing(WriteDone)
        case WriteDone => Idle;
    case Ending(n, e) =>
      var i;
      p', i := InputSuccessor(n, e, d.input.value);
      d' := d.(input := Some(i));
  }

  lemma FinishSuccessor(f: FinishPc, d: Data) returns (p': Pc, d': Data)
    ensures FinishMove(f, d, p', d')
  {
    d' := d;
    match f
    case FinishWantWrite => p' := Finishing(FinishAnnounced);
    case FinishAnnounced => p' := Finishing(FinishRecheck);
    case FinishRecheck =>
      p' := if d.closed then Finishing(FinishUnlockWrite)
            else if d.input.Some? then Ending(true, InputWantLock) else Finishing(FinishFree);
    case FinishFree => p', d' := Finishing(FinishClearNative), d.(frees := d.frees + 1);
    case FinishClearNative => p', d' := Finishing(FinishMarkClosed), d.(native := false);
    case FinishMarkClosed => p', d' := Finishing(FinishUnlockWrite), d.(closed := true);
    case FinishUnlockWrite => p' := Finishing(FinishDone);
    case FinishDone => p' := Idle;
  }

  lemma InputSuccessor(n: bool, e: InputPc, i: Input) returns (p': Pc, i': Input)
    ensures InputMove(n, e, i, p', i')
  {
    i' := i;
    match e
    case InputWantLock => p' := Ending(n, InputCheck);
    case InputCheck => p' := Ending(n, if i.closed then InputDone else InputClosing);
    case InputClosing => p' := Ending(n, InputFree);
    case InputFree => p', i' := Ending(n, InputClearNative), i.(frees := i.frees + 1);
    case InputClearNative => p', i' := Ending(n, InputMarkClosed), i.(native := false);
    case InputMarkClosed => p', i' := Ending(n, InputDone), i.(closed := true);
    case InputDone => p' := if n then Finishing(FinishFree) else Idle;
  }

  /** A goroutine whose lock lets it through has somewhere to go. */
  lemma EnabledMoves(k: Kind, s: State, u: Tid)
    requires InputInv(s) && u in s.pc && s.pc[u] != Idle
    requires Enabled(s.locks, ActionAt(s.pc[u], s.locks.receiver.None?))
    ensures CanMove(k, s)
  {
    hide Move, ActionAt, Enabled, Apply;
    var free := s.locks.receiver.None?;
    var p', d' := Successor(k, s.pc[u], s.data, free);
    var s' := State(s.pc[u := p'], Apply(s.locks, ActionAt(s.pc[u], free), u), d');
    assert Step(k, s, s', u);
  }

  /** A blocked goroutine waits for another one, which is in the middle of a call. */
  lemma BlockedWaits(s: State, t: Tid) returns (u: Tid)
    requires LockInv(s) && t in s.pc
    requires !Enabled(s.locks, ActionAt(s.pc[t], s.locks.receiver.None?))
    ensures WaitsFor(s, t, u) && s.pc[u] != Idle
  {
    match ActionAt(s.pc[t], s.locks.receiver.None?)
    case LockReceiver => u := s.locks.receiver.value;
    case ReadLock => u := s.locks.announced.value;
    case Announce => u := s.locks.announced.value;
    case AwaitReaders => u :| u in s.locks.readers;
    case LockInput => u := s.locks.input.value;
    assert Agrees(s.locks, u, HeldAt(s.pc[u]));
  }

  lemma {:induction false} SomeoneMoves(k: Kind, s: State, t: Tid)
    requires Inv(s) && t in s.pc && s.pc[t] != Idle
    ensures CanMove(k, s)
    decreases 4 - Rank(s.pc[t])
  {
    if Enabled(s.locks, ActionAt(s.pc[t], s.locks.receiver.None?)) {
      EnabledMoves(k, s, t);
    } else {
      var u := BlockedWaits(s, t);
      WaitingClimbs(s, t, u);
      SomeoneMoves(k, s, u);
    }
  }

  /** As long as some call is unfinished, in every reachable state some unfinished call can go on. */
  lemma Progress(k: Kind, trace: seq<State>, i: nat, t: Tid)
    requires Run(k, trace) && i < |trace| && t in trace[i].pc && trace[i].pc[t] != Idle
    ensures CanMove(k, trace[i])
  {
    RunKeepsInv(k, trace, i);
    SomeoneMoves(k, trace[i], t);
  }
}
