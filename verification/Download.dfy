/**
 * `FileDownload`: any number of goroutines call Read and Close on one download.
 *
 * Besides the locks and fields, the state keeps what the caller can observe: the bytes the
 * native reader produced, the bytes handed to callers, and the bytes given up (a chunk that
 * arrives after the context was cancelled, or one dropped by Close).
 */
module Download {
  import opened Common

  type Tid = nat

  /** What one native read returned. */
  datatype Arrival = Fault | Chunk(bytes: Bytes, eof: bool)

  datatype ReadPc =
    | ReadWantReader(room: nat)
    | ReadWantMutex(room: nat)
    | ReadCheck(room: nat)
    | ReadUnlockMutex(room: nat, open: bool)
    | ReadDecide(room: nat)
    | ReadCalling(room: nat)
    | ReadArrived(room: nat, arrival: Arrival)
    | ReadCancelling(arrived: bool)
    | ReadAwait(arrived: bool)
    | ReadCopy(room: nat)
    | ReadAtEof
    | ReadDone

  datatype ClosePc =
    | CloseWantMutex
    | CloseCheck
    | CloseCancelling
    | CloseUnlockMutex(first: bool)
    | CloseWantReader
    | CloseRelock
    | CloseFree
    | CloseClear
    | CloseReleaseMutex
    | CloseReleaseReader

  datatype Pc = Idle | Reading(read: ReadPc) | Closing(close: ClosePc)

  datatype Data = Data(
    native: bool,
    closed: bool,
    frees: nat,
    chunk: Bytes,
    eof: bool,
    contextDone: bool,
    produced: Bytes,
    delivered: Bytes,
    pending: Bytes,
    lost: Bytes)

  datatype Locks = Locks(reader: Option<Tid>, mutex: Option<Tid>)

  datatype State = State(pc: map<Tid, Pc>, locks: Locks, data: Data, closer: Option<Tid>)

  datatype Action = Skip | LockReader | UnlockReader | LockMutex | UnlockMutex

  predicate Enabled(l: Locks, a: Action) {
    match a
    case LockReader => l.reader.None?
    case LockMutex => l.mutex.None?
    case _ => true
  }

  function Apply(l: Locks, a: Action, t: Tid): Locks {
    match a
    case Skip => l
    case LockReader => l.(reader := Some(t))
    case UnlockReader => l.(reader := None)
    case LockMutex => l.(mutex := Some(t))
    case UnlockMutex => l.(mutex := None)
  }

  function ActionAt(p: Pc): Action {
    match p
    case Idle => Skip
    case Reading(r) =>
      if r.ReadWantReader? then LockReader
      else if r.ReadWantMutex? then LockMutex
      else if r.ReadUnlockMutex? then UnlockMutex
      else if r.ReadDone? || r.ReadAtEof? then UnlockReader
      else Skip
    case Closing(c) =>
      if c.CloseWantMutex? || c.CloseRelock? then LockMutex
      else if c.CloseUnlockMutex? || c.CloseReleaseMutex? then UnlockMutex
      else if c.CloseWantReader? then LockReader
      else if c.CloseReleaseReader? then UnlockReader
      else Skip
  }

  function Least(a: nat, b: nat): nat {
    if a < b then a else b
  }

  /** The native read returns; a chunk counts as produced whether or not anyone still wants it. */
  ghost predicate Arrives(d: Data, a: Arrival, kept: bool, d': Data) {
    match a
    case Fault => d' == d
    case Chunk(bytes, _) =>
      if kept then d' == d.(produced := d.produced + bytes, pending := bytes)
      else d' == d.(produced := d.produced + bytes, lost := d.lost + bytes)
  }

  ghost predicate ReadMove(r: ReadPc, d: Data, p': Pc, d': Data) {
    match r
    case ReadWantReader(room) => d' == d && p' == Reading(ReadWantMutex(room))
    case ReadWantMutex(room) => d' == d && p' == Reading(ReadCheck(room))
    case ReadCheck(room) => d' == d && p' == Reading(ReadUnlockMutex(room, !d.closed))
    case ReadUnlockMutex(room, open) => d' == d && p' == Reading(if open then ReadDecide(room) else ReadDone)
    case ReadDecide(room) =>
      && d' == d
      && p' == Reading(if room == 0 then ReadDone
                       else if d.chunk != [] || d.eof then ReadCopy(room)
                       else if d.contextDone then ReadDone
                       else ReadCalling(room))
    case ReadCalling(room) =>
      || (d.contextDone && d' == d && p' == Reading(ReadCancelling(false)))
      || (p'.Reading? && p'.read.ReadArrived? && p'.read.room == room && Arrives(d, p'.read.arrival, true, d'))
    case ReadArrived(room, a) =>
      || (d.contextDone && d' == d.(pending := [], lost := d.lost + d.pending) && p' == Reading(ReadCancelling(true)))
      || (a.Fault? && d' == d && p' == Reading(ReadDone))
      || (a.Chunk? && d' == d.(pending := [], chunk := a.bytes, eof := a.eof) && p' == Reading(ReadCopy(room)))
    case ReadCancelling(arrived) =>
      || (d' == d && p' == Reading(ReadAwait(arrived)))
      || (!arrived && p' == Reading(ReadCancelling(true)) && exists a :: Arrives(d, a, false, d'))
    case ReadAwait(arrived) =>
      && p' == Reading(ReadDone)
      && if arrived then d' == d else exists a :: Arrives(d, a, false, d')
    case ReadCopy(room) =>
      var n := Least(room, |d.chunk|);
      && d' == d.(delivered := d.delivered + d.chunk[..n], chunk := d.chunk[n..])
      && p' == Reading(if n == 0 && d.eof then ReadAtEof else ReadDone)
    case ReadAtEof => d' == d && p' == Idle
    case ReadDone => d' == d && p' == Idle
  }

  ghost predicate CloseMove(c: ClosePc, d: Data, p': Pc, d': Data) {
    match c
    case CloseWantMutex => d' == d && p' == Closing(CloseCheck)
    case CloseCheck =>
      if d.closed then d' == d && p' == Closing(CloseUnlockMutex(false))
      else d' == d.(closed := true) && p' == Closing(CloseCancelling)
    case CloseCancelling => d' == d && p' == Closing(CloseUnlockMutex(true))
    case CloseUnlockMutex(first) => d' == d && p' == if first then Closing(CloseWantReader) else Idle
    case CloseWantReader => d' == d && p' == Closing(CloseRelock)
    case CloseRelock => d' == d && p' == Closing(CloseFree)
    case CloseFree => d' == d.(frees := d.frees + 1) && p' == Closing(CloseClear)
    case CloseClear => d' == d.(native := false, chunk := [], lost := d.chunk + d.lost) && p' == Closing(CloseReleaseMutex)
    case CloseReleaseMutex => d' == d && p' == Closing(CloseReleaseReader)
    case CloseReleaseReader => d' == d && p' == Idle
  }

  ghost predicate Move(p: Pc, d: Data, p': Pc, d': Data) {
    match p
    case Idle => d' == d && (p' == Closing(CloseWantMutex) || (p'.Reading? && p'.read.ReadWantReader?))
    case Reading(r) => ReadMove(r, d, p', d')
    case Closing(c) => CloseMove(c, d, p', d')
  }

  ghost predicate Init(s: State) {
    && (forall t :: t in s.pc ==> s.pc[t] == Idle)
    && s.locks == Locks(None, None)
    && s.data == Data(true, false, 0, [], false, s.data.contextDone, [], [], [], [])
    && s.closer == None
  }

  ghost predicate Step(s: State, s': State, t: Tid) {
    && t in s.pc && t in s'.pc
    && s'.pc == s.pc[t := s'.pc[t]]
    && Enabled(s.locks, ActionAt(s.pc[t]))
    && s'.locks == Apply(s.locks, ActionAt(s.pc[t]), t)
    && Move(s.pc[t], s.data, s'.pc[t], s'.data)
    && s'.closer == if s'.data.closed && !s.data.closed then Some(t) else s.closer
  }

  ghost predicate Next(s: State, s': State) {
    s' == s.(data := s.data.(contextDone := true)) || exists t :: Step(s, s', t)
  }

  ghost predicate Run(trace: seq<State>) {
    && |trace| > 0
    && Init(trace[0])
    && forall i, j :: 0 <= i && j == i + 1 && j < |trace| ==> Next(trace[i], trace[j])
  }

  // Locks

  datatype Held = Held(reader: bool, mutex: bool)

  function HeldAt(p: Pc): Held {
    match p
    case Idle => Held(false, false)
    case Reading(r) => Held(!r.ReadWantReader?, r.ReadCheck? || r.ReadUnlockMutex?)
    case Closing(c) =>
      Held(c.CloseRelock? || c.CloseFree? || c.CloseClear? || c.CloseReleaseMutex? || c.CloseReleaseReader?,
           c.CloseCheck? || c.CloseCancelling? || c.CloseUnlockMutex? || c.CloseFree? || c.CloseClear? || c.CloseReleaseMutex?)
  }

  ghost predicate Agrees(l: Locks, t: Tid, h: Held) {
    (h.reader <==> l.reader == Some(t)) && (h.mutex <==> l.mutex == Some(t))
  }

  ghost predicate LockInv(s: State) {
    forall t :: t in s.pc ==> Agrees(s.locks, t, HeldAt(s.pc[t]))
  }

  function HeldAfter(h: Held, a: Action): Held {
    match a
    case Skip => h
    case LockReader => h.(reader := true)
    case UnlockReader => h.(reader := false)
    case LockMutex => h.(mutex := true)
    case UnlockMutex => h.(mutex := false)
  }

  predicate Releasable(h: Held, a: Action) {
    (a == UnlockReader ==> h.reader) && (a == UnlockMutex ==> h.mutex)
  }

  lemma MoveMatchesLocks(p: Pc, d: Data, p': Pc, d': Data)
    requires Move(p, d, p', d')
    ensures Releasable(HeldAt(p), ActionAt(p))
    ensures HeldAt(p') == HeldAfter(HeldAt(p), ActionAt(p))
  {
    match p
    case Idle =>
    case Reading(r) =>
    case Closing(c) =>
  }

  lemma StepKeepsLocks(s: State, s': State, t: Tid)
    requires LockInv(s) && Step(s, s', t)
    ensures LockInv(s')
  {
    hide Move, HeldAt, ActionAt;
    MoveMatchesLocks(s.pc[t], s.data, s'.pc[t], s'.data);
    forall u | u in s'.pc ensures Agrees(s'.locks, u, HeldAt(s'.pc[u])) {
      assert Agrees(s.locks, u, HeldAt(s.pc[u])) && Agrees(s.locks, t, HeldAt(s.pc[t]));
    }
  }

  // The handle

  /** Holding the native pointer for a call, inside a native call, or about to free the handle. */
  predicate Uses(p: Pc) {
    match p
    case Idle => false
    case Reading(r) =>
      || (r.ReadUnlockMutex? && r.open) || r.ReadDecide? || r.ReadCalling? || r.ReadArrived? || r.ReadCancelling?
      || r.ReadAwait? || r.ReadCopy?
    case Closing(c) => c.CloseCancelling? || c.CloseFree?
  }

  /** The closer that set the flag, up to and including its free. */
  predicate BeforeFree(p: Pc) {
    p.Closing? && (p.close.CloseCancelling? || p.close == CloseUnlockMutex(true) || p.close.CloseWantReader?
                   || p.close.CloseRelock? || p.close.CloseFree?)
  }

  predicate AfterFree(p: Pc) {
    p.Closing? && (p.close.CloseClear? || p.close.CloseReleaseMutex? || p.close.CloseReleaseReader?)
  }

  ghost predicate HandleOk(t: Tid, p: Pc, d: Data, closer: Option<Tid>) {
    && (Uses(p) ==> d.frees == 0 && d.native)
    && (BeforeFree(p) ==> closer == Some(t) && d.closed && d.frees == 0 && d.native)
    && (AfterFree(p) ==> closer == Some(t) && d.closed && d.frees == 1)
  }

  predicate HandleShape(d: Data, closer: Option<Tid>) {
    && d.frees <= 1
    && (!d.closed ==> d.frees == 0 && closer.None?)
    && (d.frees == 0 ==> d.native)
  }

  ghost predicate HandleInv(s: State) {
    (forall t :: t in s.pc ==> HandleOk(t, s.pc[t], s.data, s.closer)) && HandleShape(s.data, s.closer)
  }

  /** What a step may do to the handle's fields, and who may do it. */
  lemma MoveOnHandle(p: Pc, d: Data, p': Pc, d': Data)
    requires Move(p, d, p', d')
    ensures d'.closed != d.closed ==> p == Closing(CloseCheck) && d'.closed && p' == Closing(CloseCancelling)
    ensures d'.frees == if p == Closing(CloseFree) then d.frees + 1 else d.frees
    ensures d'.native != d.native ==> p == Closing(CloseClear)
    ensures Uses(p') ==> Uses(p) || BeforeFree(p) || !d.closed
    ensures BeforeFree(p') ==> BeforeFree(p) || (!d.closed && d'.closed)
    ensures AfterFree(p') ==> AfterFree(p) || p == Closing(CloseFree)
    ensures p == Closing(CloseFree) ==> p' == Closing(CloseClear)
  {
    match p
    case Idle =>
    case Reading(r) =>
    case Closing(c) =>
  }

  lemma StepKeepsHandle(s: State, s': State, t: Tid)
    requires LockInv(s) && HandleInv(s) && Step(s, s', t)
    ensures HandleInv(s')
  {
    hide Move, ActionAt, Enabled, Apply;
    MoveOnHandle(s.pc[t], s.data, s'.pc[t], s'.data);
    forall u | u in s'.pc ensures HandleOk(u, s'.pc[u], s'.data, s'.closer) {
      assert HandleOk(u, s.pc[u], s.data, s.closer) && HandleOk(t, s.pc[t], s.data, s.closer);
      assert Agrees(s.locks, u, HeldAt(s.pc[u])) && Agrees(s.locks, t, HeldAt(s.pc[t]));
    }
  }

  // The bytes

  /** What a position says about the bytes on their way. */
  predicate FlowOk(p: Pc, d: Data) {
    p.Reading? ==>
      match p.read
      case ReadCalling(room) => room > 0 && d.chunk == [] && !d.eof && d.pending == [] && d.lost == []
      case ReadArrived(room, a) =>
        room > 0 && d.chunk == [] && !d.eof && d.lost == [] && d.pending == if a.Chunk? then a.bytes else []
      case ReadCancelling(_) => d.chunk == [] && !d.eof && d.pending == [] && d.contextDone
      case ReadAwait(_) => d.chunk == [] && !d.eof && d.pending == [] && d.contextDone
      case ReadCopy(room) => room > 0 && d.pending == []
      case ReadAtEof => d.eof && d.pending == [] && d.delivered == d.produced
      case r => HeldAt(p).reader ==> d.pending == []
  }

  /** Nothing is lost before the context is cancelled or Close clears the download. */
  predicate FlowShape(d: Data) {
    && d.produced == d.delivered + d.chunk + d.pending + d.lost
    && (d.lost != [] ==> d.contextDone || !d.native)
    && (d.eof && d.native ==> d.lost == [])
  }

  predicate Receives(p: Pc) {
    p.Reading? && p.read.ReadArrived?
  }

  ghost predicate FlowInv(s: State) {
    && (forall t :: t in s.pc ==> FlowOk(s.pc[t], s.data))
    && FlowShape(s.data)
    && (s.data.pending != [] ==>
          s.locks.reader.Some? && s.locks.reader.value in s.pc && Receives(s.pc[s.locks.reader.value]))
  }

  predicate SameFlow(d: Data, d': Data) {
    && d'.chunk == d.chunk && d'.eof == d.eof && d'.produced == d.produced && d'.delivered == d.delivered
    && d'.pending == d.pending && d'.lost == d.lost && d'.contextDone == d.contextDone
  }

  /** Only the holder of the reader lock moves bytes. */
  lemma MoveOnFlow(p: Pc, d: Data, p': Pc, d': Data)
    requires Move(p, d, p', d')
    ensures !HeldAt(p).reader ==> SameFlow(d, d')
  {
    match p
    case Idle =>
    case Reading(r) =>
    case Closing(c) =>
  }

  lemma SplitMiddle(a: Bytes, b: Bytes, c: Bytes, n: nat)
    requires n <= |b|
    ensures a + b + [] + c == a + b[..n] + b[n..] + [] + c
  {
    assert b == b[..n] + b[n..];
  }

  lemma CopyKeepsFlow(room: nat, d: Data, p': Pc, d': Data)
    requires ReadMove(ReadCopy(room), d, p', d')
    requires FlowOk(Reading(ReadCopy(room)), d) && FlowShape(d) && d.native
    ensures FlowOk(p', d') && FlowShape(d') && d'.pending == []
  {
    var n := Least(room, |d.chunk|);
    SplitMiddle(d.delivered, d.chunk, d.lost, n);
    if p' == Reading(ReadAtEof) {
      assert d.delivered + d.chunk[..n] + d.chunk[n..] + [] + d.lost == d'.delivered;
    }
  }

  lemma ArrivalKeepsFlow(r: ReadPc, d: Data, p': Pc, d': Data)
    requires r.ReadCalling? || r.ReadArrived? || r.ReadCancelling? || r.ReadAwait?
    requires ReadMove(r, d, p', d')
    requires FlowOk(Reading(r), d) && FlowShape(d) && d.native
    ensures FlowOk(p', d') && FlowShape(d')
    ensures d'.pending == [] || Receives(p')
  {
    assert d.produced == d.delivered + d.pending + d.lost;
  }

  lemma DecideKeepsFlow(room: nat, d: Data, p': Pc)
    requires ReadMove(ReadDecide(room), d, p', d)
    requires d.pending == [] && FlowShape(d) && d.native
    ensures FlowOk(p', d)
  {
  }

  lemma ReadKeepsFlow(r: ReadPc, d: Data, p': Pc, d': Data)
    requires ReadMove(r, d, p', d')
    requires FlowOk(Reading(r), d) && FlowShape(d)
    requires Uses(Reading(r)) ==> d.native
    requires r.ReadWantReader? ==> d.pending == []
    ensures FlowOk(p', d') && FlowShape(d')
    ensures d'.pending == [] || Receives(p')
  {
    hide FlowShape;
    if r.ReadCopy? {
      CopyKeepsFlow(r.room, d, p', d');
    } else if r.ReadCalling? || r.ReadArrived? || r.ReadCancelling? || r.ReadAwait? {
      ArrivalKeepsFlow(r, d, p', d');
    } else if r.ReadDecide? {
      DecideKeepsFlow(r.room, d, p');
    }
  }

  lemma CloseKeepsFlow(c: ClosePc, d: Data, p': Pc, d': Data)
    requires CloseMove(c, d, p', d')
    requires FlowShape(d) && (HeldAt(Closing(c)).reader ==> d.pending == [])
    ensures FlowOk(p', d') && FlowShape(d') && d'.pending == d.pending
  {
    if c.CloseClear? {
      assert d'.produced == d'.delivered + d'.chunk + d'.pending + d'.lost;
    }
  }

  lemma OthersKeepFlow(s: State, s': State, t: Tid, u: Tid)
    requires LockInv(s) && FlowInv(s) && Step(s, s', t) && u in s.pc && u != t
    ensures FlowOk(s.pc[u], s'.data)
  {
    hide Move, ActionAt, Enabled, Apply;
    MoveOnFlow(s.pc[t], s.data, s'.pc[t], s'.data);
    assert Agrees(s.locks, u, HeldAt(s.pc[u])) && Agrees(s.locks, t, HeldAt(s.pc[t]));
  }

  lemma OwnFlow(s: State, s': State, t: Tid)
    requires LockInv(s) && HandleInv(s) && FlowInv(s) && Step(s, s', t)
    ensures FlowOk(s'.pc[t], s'.data) && FlowShape(s'.data)
    ensures HeldAt(s.pc[t]).reader ==> s'.data.pending == [] || Receives(s'.pc[t])
  {
    hide FlowShape, ReadMove, CloseMove, HandleShape;
    assert Agrees(s.locks, t, HeldAt(s.pc[t])) && HandleOk(t, s.pc[t], s.data, s.closer);
    match s.pc[t] {
      case Idle =>
      case Reading(r) => ReadKeepsFlow(r, s.data, s'.pc[t], s'.data);
      case Closing(c) => CloseKeepsFlow(c, s.data, s'.pc[t], s'.data);
    }
  }

  lemma StepKeepsFlow(s: State, s': State, t: Tid)
    requires LockInv(s) && HandleInv(s) && FlowInv(s) && Step(s, s', t)
    ensures FlowInv(s')
  {
    hide FlowOk, FlowShape, Move, HandleOk, HandleShape;
    StepKeepsLocks(s, s', t);
    OwnFlow(s, s', t);
    MoveOnFlow(s.pc[t], s.data, s'.pc[t], s'.data);
    assert Agrees(s.locks, t, HeldAt(s.pc[t])) && Agrees(s'.locks, t, HeldAt(s'.pc[t]));
    forall u | u in s'.pc ensures FlowOk(s'.pc[u], s'.data) {
      if u != t {
        OthersKeepFlow(s, s', t, u);
      }
    }
  }

  // Runs

  ghost predicate Inv(s: State) {
    LockInv(s) && HandleInv(s) && FlowInv(s)
  }

  lemma CancelKeepsInv(s: State)
    requires Inv(s)
    ensures Inv(s.(data := s.data.(contextDone := true)))
  {
  }

  lemma {:induction false} RunKeepsInv(trace: seq<State>, i: nat)
    requires Run(trace) && i < |trace|
    ensures Inv(trace[i])
  {
    hide Step;
    if i > 0 {
      RunKeepsInv(trace, i - 1);
      var s, s' := trace[i - 1], trace[i];
      assert Next(s, s');
      if s' == s.(data := s.data.(contextDone := true)) {
        CancelKeepsInv(s);
      } else {
        var t :| Step(s, s', t);
        StepKeepsLocks(s, s', t);
        StepKeepsHandle(s, s', t);
        StepKeepsFlow(s, s', t);
      }
    }
  }

  /** In every interleaving no native call is made on a freed handle, and the handle is freed at most once. */
  lemma NoUseAfterFree(trace: seq<State>, i: nat, t: Tid)
    requires Run(trace) && i < |trace| && t in trace[i].pc
    ensures Uses(trace[i].pc[t]) ==> trace[i].data.frees == 0 && trace[i].data.native
    ensures trace[i].data.frees <= 1
    ensures AfterFree(trace[i].pc[t]) ==> trace[i].data.frees == 1
  {
    RunKeepsInv(trace, i);
  }

  /**
   * Nothing goes missing unaccounted: what the native reader produced is, in this order, what callers
   * received, the retained chunk, a chunk just arriving and what was given up. Nothing is given up
   * before the context is cancelled or Close clears the download.
   */
  lemma BytesAreConserved(trace: seq<State>, i: nat)
    requires Run(trace) && i < |trace|
    ensures var d := trace[i].data;
            && d.produced == d.delivered + d.chunk + d.pending + d.lost
            && d.delivered <= d.produced
            && (!d.contextDone && d.native ==> d.lost == [] && d.produced == d.delivered + d.chunk + d.pending)
  {
    RunKeepsInv(trace, i);
  }

  // What is given up, and when

  /**
   * A step gives bytes up: a cancelled Read turns away the chunk it was handed, a chunk arrives that a
   * cancelled Read no longer wants, or Close clears a chunk nobody has read.
   */
  predicate GivesUp(p: Pc, d: Data, p': Pc, d': Data) {
    || (p.Reading? && p.read.ReadArrived? && p' == Reading(ReadCancelling(true)) && p.read.arrival.Chunk? && p.read.arrival.bytes != [])
    || (p.Reading? && (p.read == ReadCancelling(false) || p.read == ReadAwait(false)) && d'.produced != d.produced)
    || (p == Closing(CloseClear) && d.chunk != [])
  }

  ghost predicate Drops(s: State, s': State) {
    exists t :: Step(s, s', t) && GivesUp(s.pc[t], s.data, s'.pc[t], s'.data)
  }

  lemma MoveLoses(p: Pc, d: Data, p': Pc, d': Data)
    requires Move(p, d, p', d') && FlowOk(p, d)
    ensures d'.lost == [] <==> d.lost == [] && !GivesUp(p, d, p', d')
  {
    match p
    case Idle =>
    case Reading(r) =>
    case Closing(c) =>
  }

  lemma NextLoses(s: State, s': State)
    requires FlowInv(s) && Next(s, s')
    ensures s'.data.lost == [] <==> s.data.lost == [] && !Drops(s, s')
  {
    hide Move, GivesUp, FlowOk, FlowShape;
    forall t | Step(s, s', t) ensures s'.data.lost == [] <==> s.data.lost == [] && !GivesUp(s.pc[t], s.data, s'.pc[t], s'.data) {
      MoveLoses(s.pc[t], s.data, s'.pc[t], s'.data);
    }
  }

  /** Bytes are missing exactly when some step of the run gave some up. */
  lemma {:induction false} LossIff(trace: seq<State>, i: nat)
    requires Run(trace) && i < |trace|
    ensures trace[i].data.lost == [] <==> forall j, k :: 0 <= j && k == j + 1 && k <= i ==> !Drops(trace[j], trace[k])
  {
    hide Drops, Step;
    if i > 0 {
      LossIff(trace, i - 1);
      RunKeepsInv(trace, i - 1);
      assert Next(trace[i - 1], trace[i]);
      NextLoses(trace[i - 1], trace[i]);
    }
  }

  function OneReader(read: ReadPc, locks: Locks, d: Data): State {
    State(map[0 := Reading(read)], locks, d, None)
  }

  /** One goroutine reads; its chunk arrives, the context is cancelled, and the chunk is turned away. */
  function CancelledRead(): seq<State> {
    var initial := Data(true, false, 0, [], false, false, [], [], [], []);
    var arrived := initial.(produced := [7], pending := [7]);
    var cancelled := arrived.(contextDone := true);
    var free, reading, both := Locks(None, None), Locks(Some(0), None), Locks(Some(0), Some(0));
    [State(map[0 := Idle], free, initial, None),
     OneReader(ReadWantReader(1), free, initial),
     OneReader(ReadWantMutex(1), reading, initial),
     OneReader(ReadCheck(1), both, initial),
     OneReader(ReadUnlockMutex(1, true), both, initial),
     OneReader(ReadDecide(1), reading, initial),
     OneReader(ReadCalling(1), reading, initial),
     OneReader(ReadArrived(1, Chunk([7], false)), reading, arrived),
     OneReader(ReadArrived(1, Chunk([7], false)), reading, cancelled),
     OneReader(ReadCancelling(true), reading, cancelled.(pending := [], lost := [7]))]
  }

  lemma OneReaderStep(r: ReadPc, l: Locks, d: Data, r': ReadPc, l': Locks, d': Data)
    requires ReadMove(r, d, Reading(r'), d') && d'.closed == d.closed
    requires Enabled(l, ActionAt(Reading(r))) && l' == Apply(l, ActionAt(Reading(r)), 0)
    ensures Next(OneReader(r, l, d), OneReader(r', l', d'))
  {
    hide ReadMove, ActionAt, Enabled, Apply;
    var s, s' := OneReader(r, l, d), OneReader(r', l', d');
    assert s'.pc == s.pc[0 := Reading(r')];
    assert Step(s, s', 0);
  }

  lemma CancelledReadStarts(i: nat)
    requires i < 5
    ensures Next(CancelledRead()[i], CancelledRead()[i + 1])
  {
    var r := CancelledRead();
    if i == 0 {
      assert r[1].pc == r[0].pc[0 := Reading(ReadWantReader(1))];
      assert Step(r[0], r[1], 0);
    } else {
      hide Next;
      OneReaderStep(r[i].pc[0].read, r[i].locks, r[i].data, r[i + 1].pc[0].read, r[i + 1].locks, r[i + 1].data);
    }
  }

  lemma CancelledReadEnds(i: nat)
    requires 5 <= i < 9
    ensures Next(CancelledRead()[i], CancelledRead()[i + 1])
  {
    var r := CancelledRead();
    if i == 7 {
      assert r[8] == r[7].(data := r[7].data.(contextDone := true));
    } else {
      hide Next;
      OneReaderStep(r[i].pc[0].read, r[i].locks, r[i].data, r[i + 1].pc[0].read, r[i + 1].locks, r[i + 1].data);
    }
  }

  /** A run that loses a byte on a download that is neither closed nor freed. */
  lemma CancelledReadLoses()
    ensures Run(CancelledRead())
    ensures var d := CancelledRead()[9].data; d.native && !d.closed && d.lost == [7] && d.delivered == []
  {
    hide Next;
    var r := CancelledRead();
    forall i, j | 0 <= i && j == i + 1 && j < |r| ensures Next(r[i], r[j]) {
      if i < 5 {
        CancelledReadStarts(i);
      } else {
        CancelledReadEnds(i);
      }
    }
  }

  /** A Read that returns io.EOF has left nothing undelivered, and the native reader had reported the end. */
  lemma EofMeansAll(trace: seq<State>, i: nat, t: Tid)
    requires Run(trace) && i < |trace| && t in trace[i].pc && trace[i].pc[t] == Reading(ReadAtEof)
    ensures trace[i].data.delivered == trace[i].data.produced && trace[i].data.eof
  {
    RunKeepsInv(trace, i);
    assert FlowOk(trace[i].pc[t], trace[i].data);
  }

  // Waiting

  /** `t` is blocked on a lock that `u` holds. */
  ghost predicate WaitsFor(s: State, t: Tid, u: Tid) {
    && t in s.pc && u in s.pc
    && match ActionAt(s.pc[t])
       case LockReader => s.locks.reader == Some(u)
       case LockMutex => s.locks.mutex == Some(u)
       case _ => false
  }

  /** The lock order: the reader lock, then the mutex, then not waiting. */
  function Rank(p: Pc): nat {
    match ActionAt(p)
    case LockReader => 0
    case LockMutex => 1
    case _ => 2
  }

  lemma WaitingClimbs(s: State, t: Tid, u: Tid)
    requires LockInv(s) && WaitsFor(s, t, u)
    ensures Rank(s.pc[t]) < Rank(s.pc[u])
  {
    assert Agrees(s.locks, u, HeldAt(s.pc[u]));
  }

  ghost predicate WaitCycle(s: State, ring: seq<Tid>) {
    && |ring| > 0
    && (forall i, j :: 0 <= i && j == i + 1 && j < |ring| ==> WaitsFor(s, ring[i], ring[j]))
    && WaitsFor(s, ring[|ring| - 1], ring[0])
  }

  lemma {:induction false} RankAlongChain(s: State, ring: seq<Tid>, i: nat)
    requires LockInv(s) && WaitCycle(s, ring) && i < |ring|
    ensures ring[0] in s.pc && ring[i] in s.pc && Rank(s.pc[ring[0]]) + i <= Rank(s.pc[ring[i]])
  {
    hide Rank;
    if i > 0 {
      RankAlongChain(s, ring, i - 1);
      assert WaitsFor(s, ring[i - 1], ring[i]);
      WaitingClimbs(s, ring[i - 1], ring[i]);
    }
  }

  /** No reachable state has goroutines waiting for each other in a circle, of any length. */
  lemma NoDeadlock(trace: seq<State>, i: nat, ring: seq<Tid>)
    requires Run(trace) && i < |trace|
    ensures !WaitCycle(trace[i], ring)
  {
    hide Rank, WaitsFor;
    RunKeepsInv(trace, i);
    if WaitCycle(trace[i], ring) {
      RankAlongChain(trace[i], ring, |ring| - 1);
      WaitingClimbs(trace[i], ring[|ring| - 1], ring[0]);
    }
  }

  /** Some goroutine in the middle of a call can take a step. */
  ghost predicate CanMove(s: State) {
    exists u, s' :: Step(s, s', u) && s.pc[u] != Idle
  }

  /** Every position has a way on: native calls are taken to return. */
  lemma Successor(p: Pc, d: Data) returns (p': Pc, d': Data)
    requires p != Idle
    ensures Move(p, d, p', d')
  {
    if p.Reading? {
      p', d' := ReadSuccessor(p.read, d);
    } else {
      p', d' := CloseSuccessor(p.close, d);
    }
  }

  lemma ReadSuccessor(r: ReadPc, d: Data) returns (p': Pc, d': Data)
    ensures ReadMove(r, d, p', d')
  {
    d' := d;
    match r
    case ReadWantReader(room) => p' := Reading(ReadWantMutex(room));
    case ReadWantMutex(room) => p' := Reading(ReadCheck(room));
    case ReadCheck(room) => p' := Reading(ReadUnlockMutex(room, !d.closed));
    case ReadUnlockMutex(room, open) => p' := Reading(if open then ReadDecide(room) else ReadDone);
    case ReadDecide(room) =>
      p' := Reading(if room == 0 then ReadDone else if d.chunk != [] || d.eof then ReadCopy(room)
                    else if d.contextDone then ReadDone else ReadCalling(room));
    case ReadCalling(room) => p' := Reading(ReadArrived(room, Fault));
    case ReadArrived(room, a) =>
      if a.Fault? {
        p' := Reading(ReadDone);
      } else {
        p', d' := Reading(ReadCopy(room)), d.(pending := [], chunk := a.bytes, eof := a.eof);
      }
    case ReadCancelling(arrived) => p' := Reading(ReadAwait(arrived));
    case ReadAwait(arrived) =>
      p' := Reading(ReadDone);
      assert Arrives(d, Fault, false, d');
    case ReadCopy(room) =>
      var n := Least(room, |d.chunk|);
      p' := Reading(if n == 0 && d.eof then ReadAtEof else ReadDone);
      d' := d.(delivered := d.delivered + d.chunk[..n], chunk := d.chunk[n..]);
    case ReadAtEof => p' := Idle;
    case ReadDone => p' := Idle;
  }

  lemma CloseSuccessor(c: ClosePc, d: Data) returns (p': Pc, d': Data)
    ensures CloseMove(c, d, p', d')
  {
    d' := d;
    match c
    case CloseWantMutex => p' := Closing(CloseCheck);
    case CloseCheck =>
      if d.closed {
        p' := Closing(CloseUnlockMutex(false));
      } else {
        p', d' := Closing(CloseCancelling), d.(closed := true);
      }
    case CloseCancelling => p' := Closing(CloseUnlockMutex(true));
    case CloseUnlockMutex(first) => p' := if first then Closing(CloseWantReader) else Idle;
    case CloseWantReader => p' := Closing(CloseRelock);
    case CloseRelock => p' := Closing(CloseFree);
    case CloseFree => p', d' := Closing(CloseClear), d.(frees := d.frees + 1);
    case CloseClear =>
      p', d' := Closing(CloseReleaseMutex), d.(native := false, chunk := [], lost := d.chunk + d.lost);
    case CloseReleaseMutex => p' := Closing(CloseReleaseReader);
    case CloseReleaseReader => p' := Idle;
  }

  lemma EnabledMoves(s: State, u: Tid)
    requires u in s.pc && s.pc[u] != Idle && Enabled(s.locks, ActionAt(s.pc[u]))
    ensures CanMove(s)
  {
    hide Move, ActionAt, Enabled, Apply;
    var p', d' := Successor(s.pc[u], s.data);
    var closer := if d'.closed && !s.data.closed then Some(u) else s.closer;
    var s' := State(s.pc[u := p'], Apply(s.locks, ActionAt(s.pc[u]), u), d', closer);
    assert Step(s, s', u);
  }

  /** The locks are held by goroutines that exist. */
  ghost predicate Owned(s: State) {
    && (s.locks.reader.Some? ==> s.locks.reader.value in s.pc)
    && (s.locks.mutex.Some? ==> s.locks.mutex.value in s.pc)
  }

  lemma {:induction false} RunKeepsOwned(trace: seq<State>, i: nat)
    requires Run(trace) && i < |trace|
    ensures Owned(trace[i])
  {
    if i > 0 {
      hide Move, ActionAt, Enabled;
      RunKeepsOwned(trace, i - 1);
      assert Next(trace[i - 1], trace[i]);
    }
  }

  lemma {:induction false} SomeoneMoves(s: State, t: Tid)
    requires Inv(s) && Owned(s) && t in s.pc && s.pc[t] != Idle
    ensures CanMove(s)
    decreases 2 - Rank(s.pc[t])
  {
    hide CanMove, HandleInv, FlowInv;
    if Enabled(s.locks, ActionAt(s.pc[t])) {
      EnabledMoves(s, t);
    } else {
      var u := if ActionAt(s.pc[t]).LockReader? then s.locks.reader.value else s.locks.mutex.value;
      assert Agrees(s.locks, u, HeldAt(s.pc[u]));
      WaitingClimbs(s, t, u);
      SomeoneMoves(s, u);
    }
  }

  /** As long as some call is unfinished, in every reachable state some unfinished call can go on. */
  lemma Progress(trace: seq<State>, i: nat, t: Tid)
    requires Run(trace) && i < |trace| && t in trace[i].pc && trace[i].pc[t] != Idle
    ensures CanMove(trace[i])
  {
    hide CanMove, Inv, Owned;
    RunKeepsInv(trace, i);
    RunKeepsOwned(trace, i);
    SomeoneMoves(trace[i], t);
  }
}
