/**
 * `suppliedShell`: one supervisor and five workers over a completion channel, two child
 * contexts and a one-token write gate.
 *
 * The supervisor, the workers and the outside scope (which may cancel the parent context at
 * any time) take steps in any order. Native calls, reader calls and writer calls are intervals
 * entered and left in separate steps, and every read of a context is a step of its own.
 */
module Shell {
  import opened Common

  datatype Fault = Cancelled | Closed | Other(code: nat)

  const SHORT_WRITE := Other(0)

  datatype Worker = Native | Stdin | Controls | Stdout | Stderr

  const WORKERS: set<Worker> := {Native, Stdin, Controls, Stdout, Stderr}

  const CAPACITY := 5

  /** What a worker puts into the completion channel. Only the native worker carries data. */
  datatype Report = Report(from: Worker, data: Bytes, err: Option<Fault>)

  /** How one read from the supplied input ended. */
  datatype ReadEnd = More | AtEof | Broken(fault: Fault)

  datatype WorkerPc =
    | NativeCalling
    | Feeding(feed: FeedPc)
    | Steering(steer: SteerPc)
    | Draining(drain: DrainPc)
    | Sending(report: Report)
    | Reported(sent: Report)

  /** shellInput */
  datatype FeedPc =
    | FeedStart
    | FeedFactory
    | FeedLoop
    | FeedReading
    | FeedWriting(end: ReadEnd)
    | FeedWriteFailed(end: ReadEnd, fault: Fault)
    | FeedAfter(end: ReadEnd)
    | FeedClosingStdin
    | FeedExcuse(err: Option<Fault>)

  /** shellControls */
  datatype SteerPc = SteerWaiting | SteerCalling | SteerExcuse(err: Option<Fault>)

  /** shellOutput */
  datatype DrainPc =
    | DrainReading
    | DrainReadFailed(fault: Fault)
    | DrainWantGate(chunk: Bytes, eof: bool)
    | DrainWriting(chunk: Bytes, eof: bool)
    | DrainReturnGate(chunk: Bytes, eof: bool, n: int, err: Option<Fault>)
    | DrainJudge(chunk: Bytes, eof: bool, n: int, err: Option<Fault>)
    | DrainNext(eof: bool)

  /** Why an output worker stopped. */
  datatype End = Open | Eof | Wakeup | ContextDone | Failed

  /** One output stream: whether a writer is supplied, what was read from it and what the writer took. */
  datatype Stream = Stream(writer: bool, read: Bytes, written: Bytes, end: End)

  datatype Outcome = Failure(fault: Fault) | Success(data: Bytes)

  datatype SupervisorPc =
    | Select
    | NativeSucceeded(report: Report)
    | Judge(report: Report)
    | CancelToken
    | StopInput
    | StopOutput
    | CheckParent
    | DeferStopOutput(outcome: Outcome)
    | DeferStopInput(outcome: Outcome)
    | FreeAttachment(outcome: Outcome)
    | FreeToken(outcome: Outcome)
    | Returned(outcome: Outcome)

  /** The contexts, the cancellation token and the two native objects. */
  datatype Scope = Scope(
    parentDone: bool,
    inputDone: bool,
    outputDone: bool,
    tokenCancelled: bool,
    attachmentFreed: bool,
    tokenFreed: bool)

  /** The supervisor's variables; `turns` counts its passes through the select. */
  datatype Supervisor = Supervisor(
    pc: SupervisorPc,
    first: Option<Fault>,
    data: Bytes,
    armed: bool,
    remaining: int,
    consumed: set<Worker>,
    turns: nat)

  datatype State = State(
    sup: Supervisor,
    scope: Scope,
    queue: seq<Report>,
    gate: nat,
    pc: map<Worker, WorkerPc>,
    out: map<Worker, Stream>)

  ghost predicate Init(s: State) {
    && s.sup == Supervisor(Select, None, [], true, 5, {}, 0)
    && s.scope == Scope(s.scope.parentDone, s.scope.inputDone, s.scope.outputDone, false, false, false)
    && (s.scope.inputDone || s.scope.outputDone ==> s.scope.parentDone)
    && s.queue == [] && s.gate == 1
    && s.pc == map[Native := NativeCalling, Stdin := Feeding(FeedStart), Controls := Steering(SteerWaiting),
                   Stdout := Draining(DrainReading), Stderr := Draining(DrainReading)]
    && s.out.Keys == {Stdout, Stderr}
    && (forall w :: w in s.out ==> s.out[w] == Stream(s.out[w].writer, [], [], Open))
  }

  // Workers

  /** Native completion closes input and controls early; such errors are not this worker's to report. */
  function Excused(done: bool, err: Option<Fault>): Option<Fault> {
    if done || err == Some(Closed) || err == Some(Cancelled) then None else err
  }

  ghost predicate FeedMove(f: FeedPc, done: bool, p': WorkerPc) {
    match f
    case FeedStart => p' == if done then Sending(Report(Stdin, [], None)) else Feeding(FeedFactory)
    case FeedFactory => p' == Feeding(FeedClosingStdin) || p' == Feeding(FeedLoop)
    case FeedLoop => p' == if done then Sending(Report(Stdin, [], None)) else Feeding(FeedReading)
    case FeedReading => p'.Feeding? && (p'.feed.FeedWriting? || p'.feed.FeedAfter?)
    case FeedWriting(end) =>
      p'.Feeding? && (p'.feed == FeedAfter(end) || (p'.feed.FeedWriteFailed? && p'.feed.end == end))
    case FeedWriteFailed(end, fault) =>
      p' == if !done && end.Broken? then Sending(Report(Stdin, [], Some(end.fault)))
            else Feeding(FeedExcuse(Some(fault)))
    case FeedAfter(end) =>
      p' == if end.More? then Feeding(FeedLoop)
            else if done then Sending(Report(Stdin, [], None))
            else if end.AtEof? then Feeding(FeedClosingStdin)
            else Sending(Report(Stdin, [], Some(end.fault)))
    case FeedClosingStdin => p'.Feeding? && p'.feed.FeedExcuse?
    case FeedExcuse(err) => p' == Sending(Report(Stdin, [], Excused(done, err)))
  }

  ghost predicate SteerMove(c: SteerPc, done: bool, p': WorkerPc) {
    match c
    case SteerWaiting =>
      || (p'.Sending? && p'.report == Report(Controls, [], p'.report.err))
      || p' == Steering(SteerCalling)
    case SteerCalling =>
      p'.Steering? && (p'.steer.SteerWaiting? || p'.steer.SteerExcuse?)
    case SteerExcuse(err) => p' == Sending(Report(Controls, [], Excused(done, err)))
  }

  /** A worker that stops reports its error, if any, and the stream records why it stopped. */
  ghost predicate Stop(w: Worker, o: Stream, end: End, err: Option<Fault>, p': WorkerPc, o': Stream) {
    p' == Sending(Report(w, [], err)) && o' == o.(end := end)
  }

  /** What a writer that returned `n` has taken of the chunk. */
  function Taken(chunk: Bytes, n: int): Bytes {
    if 0 <= n <= |chunk| then chunk[..n] else []
  }

  /** The outcome of one native read: an error, a chunk for the writer, or nothing to write. */
  ghost predicate ReadMove(o: Stream, d': DrainPc, o': Stream) {
    match d'
    case DrainReadFailed(_) => o' == o
    case DrainWantGate(chunk, _) => o.writer && chunk != [] && o' == o.(read := o.read + chunk)
    case DrainNext(_) => o.read <= o'.read && o' == o.(read := o'.read) && (o.writer ==> o'.read == o.read)
    case _ => false
  }

  ghost predicate DrainMove(w: Worker, d: DrainPc, done: bool, g: nat, o: Stream, p': WorkerPc, g': nat, o': Stream) {
    match d
    case DrainReading => g' == g && p'.Draining? && ReadMove(o, p'.drain, o')
    case DrainReadFailed(fault) =>
      && g' == g
      && (if done then Stop(w, o, ContextDone, None, p', o')
          else if fault == Cancelled then Stop(w, o, Wakeup, None, p', o')
          else Stop(w, o, Failed, Some(fault), p', o'))
    case DrainWantGate(chunk, eof) =>
      || (done && g' == g && Stop(w, o, ContextDone, None, p', o'))
      || (g > 0 && g' == g - 1 && p' == Draining(DrainWriting(chunk, eof)) && o' == o)
    case DrainWriting(chunk, eof) =>
      && g' == g && p'.Draining? && p'.drain.DrainReturnGate?
      && p'.drain == DrainReturnGate(chunk, eof, p'.drain.n, p'.drain.err)
      && o' == o.(written := o.written + Taken(chunk, p'.drain.n))
    case DrainReturnGate(chunk, eof, n, err) =>
      g < 1 && g' == g + 1 && p' == Draining(DrainJudge(chunk, eof, n, err)) && o' == o
    case DrainJudge(chunk, eof, n, err) =>
      && g' == g
      && (if done then Stop(w, o, ContextDone, None, p', o')
          else if err.Some? then Stop(w, o, Failed, err, p', o')
          else if n != |chunk| then Stop(w, o, Failed, Some(SHORT_WRITE), p', o')
          else p' == Draining(DrainNext(eof)) && o' == o)
    case DrainNext(eof) =>
      && g' == g
      && (if eof then Stop(w, o, Eof, None, p', o') else p' == Draining(DrainReading) && o' == o)
  }

  ghost predicate WorkerStep(s: State, s': State, w: Worker) {
    && w in s.pc && w in s'.pc
    && s'.sup == s.sup && s'.scope == s.scope
    && s'.pc == s.pc[w := s'.pc[w]]
    && match s.pc[w]
       case NativeCalling =>
         && s' == s.(pc := s'.pc)
         && s'.pc[w].Sending? && s'.pc[w].report.from == Native
       case Feeding(f) => s' == s.(pc := s'.pc) && FeedMove(f, s.scope.inputDone, s'.pc[w])
       case Steering(c) => s' == s.(pc := s'.pc) && SteerMove(c, s.scope.inputDone, s'.pc[w])
       case Draining(d) =>
         && w in s.out && w in s'.out && s'.queue == s.queue
         && s'.out == s.out[w := s'.out[w]]
         && DrainMove(w, d, s.scope.outputDone, s.gate, s.out[w], s'.pc[w], s'.gate, s'.out[w])
       case Sending(r) =>
         |s.queue| < CAPACITY && s' == s.(queue := s.queue + [r], pc := s'.pc) && s'.pc[w] == Reported(r)
       case Reported(_) => false
  }

  // Supervisor

  /** One arm of the select, or the loop's exit. */
  ghost predicate SelectMove(u: Supervisor, v: Scope, q: seq<Report>, u': Supervisor, q': seq<Report>) {
    if u.remaining > 0 then
      || (u.armed && v.parentDone && q' == q
          && u' == u.(pc := CancelToken, armed := false, turns := u.turns + 1,
                      first := if u.first.None? then Some(Cancelled) else u.first))
      || (q != [] && q' == q[1..]
          && var r := q[0];
          u' == u.(pc := if r.from == Native && r.err.None? then NativeSucceeded(r) else Judge(r),
                   remaining := u.remaining - 1,
                   consumed := u.consumed + {r.from},
                   data := if r.from == Native then r.data else u.data,
                   turns := u.turns + 1))
    else
      q' == q && u' == u.(pc := if u.first.Some? then DeferStopOutput(Failure(u.first.value)) else CheckParent)
  }

  ghost predicate SupervisorStep(s: State, s': State) {
    && s'.pc == s.pc && s'.out == s.out && s'.gate == s.gate
    && var u, u', v, v' := s.sup, s'.sup, s.scope, s'.scope;
    match u.pc
    case Select => v' == v && SelectMove(u, v, s.queue, u', s'.queue)
    case NativeSucceeded(r) => s'.queue == s.queue && v' == v.(inputDone := true) && u' == u.(pc := Judge(r))
    case Judge(r) =>
      && s'.queue == s.queue && v' == v
      && u' == if r.err.Some? && u.first.None? then u.(pc := CancelToken, first := r.err) else u.(pc := Select)
    case CancelToken => s'.queue == s.queue && v' == v.(tokenCancelled := true) && u' == u.(pc := StopInput)
    case StopInput => s'.queue == s.queue && v' == v.(inputDone := true) && u' == u.(pc := StopOutput)
    case StopOutput => s'.queue == s.queue && v' == v.(outputDone := true) && u' == u.(pc := Select)
    case CheckParent =>
      && s'.queue == s.queue && v' == v
      && u' == u.(pc := DeferStopOutput(if v.parentDone then Failure(Cancelled) else Success(u.data)))
    case DeferStopOutput(o) => s'.queue == s.queue && v' == v.(outputDone := true) && u' == u.(pc := DeferStopInput(o))
    case DeferStopInput(o) => s'.queue == s.queue && v' == v.(inputDone := true) && u' == u.(pc := FreeAttachment(o))
    case FreeAttachment(o) => s'.queue == s.queue && v' == v.(attachmentFreed := true) && u' == u.(pc := FreeToken(o))
    case FreeToken(o) => s'.queue == s.queue && v' == v.(tokenFreed := true) && u' == u.(pc := Returned(o))
    case Returned(_) => false
  }

  /** The caller cancels the parent context, or that cancellation reaches a child context. */
  ghost predicate OutsideStep(s: State, s': State) {
    || s' == s.(scope := s.scope.(parentDone := true))
    || (s.scope.parentDone && s' == s.(scope := s.scope.(inputDone := true)))
    || (s.scope.parentDone && s' == s.(scope := s.scope.(outputDone := true)))
  }

  ghost predicate Next(s: State, s': State) {
    OutsideStep(s, s') || SupervisorStep(s, s') || exists w :: WorkerStep(s, s', w)
  }

  ghost predicate Run(trace: seq<State>) {
    && |trace| > 0
    && Init(trace[0])
    && forall i, j :: 0 <= i && j == i + 1 && j < |trace| ==> Next(trace[i], trace[j])
  }

  // Accounting: every worker reports once, and the supervisor consumes every report once

  ghost predicate Fits(w: Worker, p: WorkerPc) {
    match p
    case NativeCalling => w == Native
    case Feeding(_) => w == Stdin
    case Steering(_) => w == Controls
    case Draining(_) => w == Stdout || w == Stderr
    case Sending(r) => r.from == w
    case Reported(r) => r.from == w
  }

  function Senders(q: seq<Report>): seq<Worker> {
    seq(|q|, i requires 0 <= i < |q| => q[i].from)
  }

  function One(b: bool): nat {
    if b then 1 else 0
  }

  ghost predicate DistinctSenders(q: seq<Report>) {
    forall i, j :: 0 <= i < j < |q| ==> q[i].from != q[j].from
  }

  /** The channel holds reports of distinct workers, none consumed yet, each as it was sent. */
  ghost predicate QueueOk(q: seq<Report>, consumed: set<Worker>, pc: map<Worker, WorkerPc>) {
    && DistinctSenders(q)
    && (forall i :: 0 <= i < |q| ==> Waiting(q[i], consumed, pc))
    && (forall w :: w in consumed ==> w in pc && pc[w].Reported?)
  }

  ghost predicate Waiting(r: Report, consumed: set<Worker>, pc: map<Worker, WorkerPc>) {
    r.from !in consumed && r.from in pc && pc[r.from] == Reported(r)
  }

  /** A worker that has reported is consumed or still in the channel: no report is lost. */
  ghost predicate NoneLost(q: seq<Report>, consumed: set<Worker>, pc: map<Worker, WorkerPc>) {
    forall w :: w in pc && pc[w].Reported? ==> w in consumed || w in Senders(q)
  }

  ghost predicate CountOk(u: Supervisor) {
    && u.remaining == 5 - |u.consumed|
    && u.turns + u.remaining + One(u.armed) == 6
  }

  ghost predicate TypeOk(s: State) {
    && s.pc.Keys == WORKERS && s.out.Keys == {Stdout, Stderr}
    && (forall w :: w in s.pc ==> Fits(w, s.pc[w]))
  }

  ghost predicate AccountInv(s: State) {
    && TypeOk(s)
    && QueueOk(s.queue, s.sup.consumed, s.pc)
    && NoneLost(s.queue, s.sup.consumed, s.pc)
    && CountOk(s.sup)
  }

  lemma FeedFits(f: FeedPc, done: bool, p': WorkerPc)
    requires FeedMove(f, done, p')
    ensures Fits(Stdin, p') && !p'.Reported?
  {
  }

  lemma DrainFits(w: Worker, d: DrainPc, done: bool, g: nat, o: Stream, p': WorkerPc, g': nat, o': Stream)
    requires w == Stdout || w == Stderr
    requires DrainMove(w, d, done, g, o, p', g', o')
    ensures Fits(w, p') && !p'.Reported?
  {
  }

  lemma WorkerKeepsFit(s: State, s': State, w: Worker)
    requires w in s.pc && Fits(w, s.pc[w]) && WorkerStep(s, s', w)
    ensures Fits(w, s'.pc[w])
    ensures s'.pc[w].Reported? <==> s.pc[w].Sending?
    ensures !s.pc[w].Reported?
    ensures s.pc[w].Sending? ==> s.pc[w].report.from == w
  {
    hide FeedMove, DrainMove;
    match s.pc[w]
    case NativeCalling =>
    case Feeding(f) => FeedFits(f, s.scope.inputDone, s'.pc[w]);
    case Steering(c) =>
    case Draining(d) =>
      DrainFits(w, d, s.scope.outputDone, s.gate, s.out[w], s'.pc[w], s'.gate, s'.out[w]);
    case Sending(r) =>
  }

  lemma SendKeepsQueue(q: seq<Report>, consumed: set<Worker>, pc: map<Worker, WorkerPc>, w: Worker, p: WorkerPc)
    requires QueueOk(q, consumed, pc) && NoneLost(q, consumed, pc)
    requires w in pc && !pc[w].Reported?
    ensures !p.Reported? ==> QueueOk(q, consumed, pc[w := p]) && NoneLost(q, consumed, pc[w := p])
    ensures p.Reported? && p.sent.from == w ==>
              QueueOk(q + [p.sent], consumed, pc[w := p]) && NoneLost(q + [p.sent], consumed, pc[w := p])
  {
    var pc' := pc[w := p];
    forall i | 0 <= i < |q| ensures q[i].from != w && Waiting(q[i], consumed, pc') {
      assert Waiting(q[i], consumed, pc);
    }
    if p.Reported? && p.sent.from == w {
      assert Senders(q + [p.sent]) == Senders(q) + [w];
    }
  }

  lemma WorkerKeepsAccounts(s: State, s': State, w: Worker)
    requires AccountInv(s) && WorkerStep(s, s', w)
    ensures AccountInv(s')
  {
    hide FeedMove, SteerMove, DrainMove, Fits, QueueOk, NoneLost, CountOk;
    WorkerKeepsFit(s, s', w);
    SendKeepsQueue(s.queue, s.sup.consumed, s.pc, w, s'.pc[w]);
  }

  lemma TakeKeepsQueue(q: seq<Report>, consumed: set<Worker>, pc: map<Worker, WorkerPc>)
    requires QueueOk(q, consumed, pc) && NoneLost(q, consumed, pc) && q != []
    ensures q[0].from !in consumed
    ensures QueueOk(q[1..], consumed + {q[0].from}, pc) && NoneLost(q[1..], consumed + {q[0].from}, pc)
  {
    var rest, taken := q[1..], consumed + {q[0].from};
    assert Waiting(q[0], consumed, pc);
    forall i | 0 <= i < |rest| ensures Waiting(rest[i], taken, pc) {
      assert Waiting(q[i + 1], consumed, pc);
    }
    assert Senders(q) == [q[0].from] + Senders(rest);
  }

  /** Passing the select takes one report or disarms the cancellation, and counts either. */
  lemma SelectKeepsCount(u: Supervisor, v: Scope, q: seq<Report>, u': Supervisor, q': seq<Report>)
    requires CountOk(u) && SelectMove(u, v, q, u', q')
    requires q != [] ==> q[0].from !in u.consumed
    ensures CountOk(u')
    ensures (q' == q && u'.consumed == u.consumed) || (q != [] && q' == q[1..] && u'.consumed == u.consumed + {q[0].from})
  {
  }

  lemma SupervisorKeepsAccounts(s: State, s': State)
    requires AccountInv(s) && SupervisorStep(s, s')
    ensures AccountInv(s')
  {
    hide TypeOk, QueueOk, NoneLost, SelectMove;
    TypesStay(s, s');
    if s.queue != [] {
      TakeKeepsQueue(s.queue, s.sup.consumed, s.pc);
    }
    if s.sup.pc.Select? {
      hide CountOk;
      SelectKeepsCount(s.sup, s.scope, s.queue, s'.sup, s'.queue);
    }
  }

  lemma TypesStay(s: State, s': State)
    requires TypeOk(s) && s'.pc == s.pc && s'.out == s.out
    ensures TypeOk(s')
  {
  }

  /** A worker ready to report always finds room in the completion channel. */
  lemma SendNeverBlocks(s: State, w: Worker)
    requires AccountInv(s) && w in s.pc && s.pc[w].Sending?
    ensures |s.queue| < CAPACITY
  {
    hide Fits, NoneLost;
    var senders := Senders(s.queue);
    forall i | 0 <= i < |senders| ensures senders[i] in WORKERS - {w} {
      assert Waiting(s.queue[i], s.sup.consumed, s.pc);
    }
    DistinctCardinality(senders);
    CardinalityBound(ElementsOf(senders), WORKERS - {w});
    assert |WORKERS - {w}| == 4;
  }

  lemma CardinalityBound<T>(part: set<T>, whole: set<T>)
    requires part <= whole
    ensures |part| <= |whole|
  {
    assert |whole - part| == |whole| - |part|;
  }

  /** When nothing remains, every worker has been consumed and so is finished. */
  lemma NoneRemainingMeansAllDone(s: State)
    requires AccountInv(s) && s.sup.remaining <= 0
    ensures s.sup.consumed == WORKERS
    ensures forall w :: w in s.pc ==> s.pc[w].Reported?
  {
    hide Fits, NoneLost;
    assert |WORKERS| == 5;
    assert s.sup.consumed <= WORKERS;
    SubsetOfEqualSize(s.sup.consumed, WORKERS);
  }

  // The gate

  predicate HoldsGate(p: WorkerPc) {
    p.Draining? && (p.drain.DrainWriting? || p.drain.DrainReturnGate?)
  }

  /** The token is in the channel or with exactly one output worker. */
  ghost predicate GateInv(s: State) {
    && Stdout in s.pc && Stderr in s.pc
    && s.gate + One(HoldsGate(s.pc[Stdout])) + One(HoldsGate(s.pc[Stderr])) == 1
  }

  lemma DrainKeepsGate(w: Worker, d: DrainPc, done: bool, g: nat, o: Stream, p': WorkerPc, g': nat, o': Stream)
    requires DrainMove(w, d, done, g, o, p', g', o')
    ensures g + One(HoldsGate(Draining(d))) == g' + One(HoldsGate(p'))
  {
  }

  lemma WorkerKeepsGate(s: State, s': State, w: Worker)
    requires AccountInv(s) && GateInv(s) && WorkerStep(s, s', w)
    ensures GateInv(s')
  {
    hide FeedMove, SteerMove, DrainMove;
    WorkerKeepsFit(s, s', w);
    if s.pc[w].Draining? {
      DrainKeepsGate(w, s.pc[w].drain, s.scope.outputDone, s.gate, s.out[w], s'.pc[w], s'.gate, s'.out[w]);
    }
  }

  // The streams

  /** What an output worker's position says about its stream. */
  predicate StreamOk(p: WorkerPc, o: Stream, outputDone: bool) {
    && (o.end == ContextDone ==> outputDone)
    && match p
       case Draining(d) =>
         && o.end == Open
         && (o.writer ==>
               match d
               case DrainWantGate(chunk, _) => o.read == o.written + chunk
               case DrainWriting(chunk, _) => o.read == o.written + chunk
               case DrainReturnGate(chunk, _, n, _) => n == |chunk| ==> o.read == o.written
               case DrainJudge(chunk, _, n, _) => n == |chunk| ==> o.read == o.written
               case _ => o.read == o.written)
       case Sending(r) => StoppedOk(r, o)
       case Reported(r) => StoppedOk(r, o)
       case _ => true
  }

  predicate StoppedOk(r: Report, o: Stream) {
    && o.end != Open
    && (o.end == Failed <==> r.err.Some?)
    && ((o.end == Eof || o.end == Wakeup) && o.writer ==> o.read == o.written)
  }

  ghost predicate StreamInv(s: State) {
    forall w :: w in s.out ==> w in s.pc && StreamOk(s.pc[w], s.out[w], s.scope.outputDone)
  }

  lemma DrainKeepsStream(w: Worker, d: DrainPc, done: bool, g: nat, o: Stream, p': WorkerPc, g': nat, o': Stream)
    requires DrainMove(w, d, done, g, o, p', g', o')
    requires StreamOk(Draining(d), o, done)
    ensures StreamOk(p', o', done) && o'.writer == o.writer
  {
    if d.DrainWriting? && p'.Draining? && p'.drain.DrainReturnGate? && p'.drain.n == |d.chunk| {
      assert Taken(d.chunk, p'.drain.n) == d.chunk;
    }
  }

  lemma SentStays(r: Report, o: Stream, outputDone: bool)
    ensures StreamOk(Sending(r), o, outputDone) ==> StreamOk(Reported(r), o, outputDone)
  {
  }

  lemma OwnStream(s: State, s': State, w: Worker)
    requires w in s.out && w in s.pc && Fits(w, s.pc[w]) && (w == Stdout || w == Stderr) && WorkerStep(s, s', w)
    requires StreamOk(s.pc[w], s.out[w], s.scope.outputDone)
    ensures w in s'.out && StreamOk(s'.pc[w], s'.out[w], s'.scope.outputDone)
  {
    hide FeedMove, SteerMove, DrainMove, StreamOk;
    if s.pc[w].Draining? {
      DrainKeepsStream(w, s.pc[w].drain, s.scope.outputDone, s.gate, s.out[w], s'.pc[w], s'.gate, s'.out[w]);
    } else {
      SentStays(s.pc[w].report, s.out[w], s.scope.outputDone);
    }
  }

  /** A worker leaves the other workers and their streams alone. */
  lemma OthersStay(s: State, s': State, w: Worker, v: Worker)
    requires WorkerStep(s, s', w) && v in s.pc && v != w
    ensures v in s'.pc && s'.pc[v] == s.pc[v] && (v in s'.out <==> v in s.out) && (v in s.out ==> s'.out[v] == s.out[v])
    ensures s'.scope == s.scope
  {
    hide FeedMove, SteerMove, DrainMove;
  }

  lemma WorkerKeepsStreams(s: State, s': State, w: Worker)
    requires AccountInv(s) && StreamInv(s) && WorkerStep(s, s', w)
    ensures StreamInv(s')
  {
    hide QueueOk, NoneLost, CountOk, StreamOk;
    SameStreams(s, s', w);
    hide WorkerStep;
    forall v | v in s'.out ensures v in s'.pc && StreamOk(s'.pc[v], s'.out[v], s'.scope.outputDone) {
      if v == w {
        OwnStream(s, s', w);
      } else {
        OthersStay(s, s', w, v);
      }
    }
  }

  lemma SameStreams(s: State, s': State, w: Worker)
    requires WorkerStep(s, s', w)
    ensures s'.out.Keys == s.out.Keys && w in s'.pc
  {
    hide FeedMove, SteerMove, DrainMove;
  }

  // Cancellation

  predicate AfterLoop(p: SupervisorPc) {
    p.CheckParent? || Deferred(p)
  }

  predicate Deferred(p: SupervisorPc) {
    p.DeferStopOutput? || p.DeferStopInput? || p.FreeAttachment? || p.FreeToken? || p.Returned?
  }

  predicate AllCancelled(v: Scope) {
    v.tokenCancelled && v.inputDone && v.outputDone
  }

  ghost predicate CancelInv(u: Supervisor, v: Scope) {
    && (v.tokenFreed ==> u.pc.Returned?)
    && (v.attachmentFreed ==> u.pc.FreeToken? || u.pc.Returned?)
    && (AfterLoop(u.pc) ==> u.remaining <= 0)
    && (u.pc.CancelToken? || u.pc.StopInput? || u.pc.StopOutput? ==> u.first.Some?)
    && (u.pc.StopInput? ==> v.tokenCancelled)
    && (u.pc.StopOutput? ==> v.tokenCancelled && v.inputDone)
    && (u.first.Some? && !u.pc.CancelToken? && !u.pc.StopInput? && !u.pc.StopOutput? ==> AllCancelled(v))
    && (u.pc.CheckParent? ==> u.first.None?)
    && (v.outputDone ==> v.parentDone || u.first.Some? || Deferred(u.pc))
    && (Deferred(u.pc) && u.pc.outcome.Success? ==> u.first.None? && u.pc.outcome.data == u.data)
    && (Deferred(u.pc) && u.first.Some? ==> u.pc.outcome == Failure(u.first.value))
  }

  lemma SupervisorKeepsCancel(s: State, s': State)
    requires CancelInv(s.sup, s.scope) && SupervisorStep(s, s')
    ensures CancelInv(s'.sup, s'.scope)
  {
  }

  // Reports: an error the supervisor has consumed is recorded or about to be

  ghost predicate ReportInv(s: State) {
    && (s.sup.pc.Judge? || s.sup.pc.NativeSucceeded? ==>
          var r := s.sup.pc.report; r.from in s.sup.consumed && r.from in s.pc && s.pc[r.from] == Reported(r))
    && (s.sup.pc.NativeSucceeded? ==> s.sup.pc.report.err.None?)
    && (forall w :: w in s.sup.consumed && w in s.pc && s.pc[w].Reported? && s.pc[w].sent.err.Some? ==>
          s.sup.first.Some? || s.sup.pc == Judge(s.pc[w].sent))
    && (Native in s.sup.consumed && Native in s.pc && s.pc[Native].Reported? ==> s.sup.data == s.pc[Native].sent.data)
  }

  lemma SupervisorKeepsReports(s: State, s': State)
    requires AccountInv(s) && ReportInv(s) && SupervisorStep(s, s')
    ensures ReportInv(s')
  {
    hide TypeOk, NoneLost, QueueOk, CountOk;
    if s.sup.pc.Select? {
      if s.queue != [] {
        HeadWaits(s.queue, s.sup.consumed, s.pc);
      }
    } else {
      hide SelectMove;
    }
  }

  lemma HeadWaits(q: seq<Report>, consumed: set<Worker>, pc: map<Worker, WorkerPc>)
    requires QueueOk(q, consumed, pc) && q != []
    ensures Waiting(q[0], consumed, pc)
  {
  }

  lemma WorkerKeepsReports(s: State, s': State, w: Worker)
    requires AccountInv(s) && ReportInv(s) && WorkerStep(s, s', w)
    ensures ReportInv(s')
  {
    hide FeedMove, SteerMove, DrainMove, Fits, NoneLost;
    assert w !in s.sup.consumed;
  }

  // Success

  /** Every worker finished without an error, and both outputs drained to their end. */
  ghost predicate Drained(s: State) {
    && (forall w :: w in s.pc ==> s.pc[w].Reported? && s.pc[w].sent.err.None?)
    && (forall w :: w in s.out ==>
          && (s.out[w].end == Eof || s.out[w].end == Wakeup)
          && (s.out[w].writer ==> s.out[w].written == s.out[w].read))
  }

  ghost predicate SuccessInv(s: State) {
    Deferred(s.sup.pc) && s.sup.pc.outcome.Success? ==> Drained(s)
  }

  lemma LoopExitDrained(s: State)
    requires AccountInv(s) && StreamInv(s) && CancelInv(s.sup, s.scope) && ReportInv(s)
    requires s.sup.pc.CheckParent? && !s.scope.parentDone
    ensures Drained(s)
  {
    hide Fits;
    NoneRemainingMeansAllDone(s);
    forall w | w in s.out
      ensures (s.out[w].end == Eof || s.out[w].end == Wakeup) && (s.out[w].writer ==> s.out[w].written == s.out[w].read)
    {
      assert StreamOk(s.pc[w], s.out[w], s.scope.outputDone);
    }
  }

  ghost predicate Inv(s: State) {
    && AccountInv(s) && GateInv(s) && StreamInv(s)
    && CancelInv(s.sup, s.scope) && ReportInv(s) && SuccessInv(s)
  }

  lemma InitInv(s: State)
    requires Init(s)
    ensures Inv(s)
  {
  }

  lemma SupervisorKeepsInv(s: State, s': State)
    requires Inv(s) && SupervisorStep(s, s')
    ensures Inv(s')
  {
    hide AccountInv, CancelInv, ReportInv, StreamOk, SelectMove, Drained;
    SupervisorKeepsAccounts(s, s');
    SupervisorKeepsCancel(s, s');
    SupervisorKeepsReports(s, s');
    SupervisorKeepsStreams(s, s');
    SupervisorKeepsSuccess(s, s');
  }

  lemma SupervisorKeepsStreams(s: State, s': State)
    requires StreamInv(s) && SupervisorStep(s, s')
    ensures StreamInv(s')
  {
    hide SelectMove;
    assert s.scope.outputDone ==> s'.scope.outputDone;
  }

  lemma SupervisorKeepsSuccess(s: State, s': State)
    requires Inv(s) && SupervisorStep(s, s')
    ensures SuccessInv(s')
  {
    hide AccountInv, CancelInv, ReportInv, StreamInv;
    if s.sup.pc.CheckParent? && !s.scope.parentDone {
      LoopExitDrained(s);
    }
  }

  lemma OutsideKeepsInv(s: State, s': State)
    requires Inv(s) && OutsideStep(s, s')
    ensures Inv(s')
  {
    hide Fits, QueueOk, NoneLost, CountOk;
  }

  lemma WorkerKeepsInv(s: State, s': State, w: Worker)
    requires Inv(s) && WorkerStep(s, s', w)
    ensures Inv(s')
  {
    hide FeedMove, SteerMove, DrainMove, Fits, StreamOk;
    WorkerKeepsAccounts(s, s', w);
    WorkerKeepsGate(s, s', w);
    WorkerKeepsStreams(s, s', w);
    WorkerKeepsReports(s, s', w);
  }

  lemma NextKeepsInv(s: State, s': State)
    requires Inv(s) && Next(s, s')
    ensures Inv(s')
  {
    hide WorkerStep, SupervisorStep, OutsideStep, Inv;
    if OutsideStep(s, s') {
      OutsideKeepsInv(s, s');
    } else if SupervisorStep(s, s') {
      SupervisorKeepsInv(s, s');
    } else if w :| WorkerStep(s, s', w) {
      WorkerKeepsInv(s, s', w);
    }
  }

  // Runs

  lemma {:induction false} RunKeepsInv(trace: seq<State>, i: nat)
    requires Run(trace) && i < |trace|
    ensures Inv(trace[i])
  {
    if i == 0 {
      InitInv(trace[0]);
    } else {
      RunKeepsInv(trace, i - 1);
      assert Next(trace[i - 1], trace[i]);
      NextKeepsInv(trace[i - 1], trace[i]);
    }
  }

  predicate UsesAttachment(p: WorkerPc) {
    match p
    case NativeCalling => true
    case Feeding(f) => f.FeedWriting? || f.FeedClosingStdin?
    case Steering(c) => c.SteerCalling?
    case Draining(d) => d.DrainReading?
    case _ => false
  }

  /**
   * In every interleaving the attachment and the token are freed only after all five workers have
   * reported, so no worker is inside a native call on them; a worker ready to report never blocks.
   */
  lemma FreesAwaitWorkers(trace: seq<State>, i: nat, w: Worker)
    requires Run(trace) && i < |trace| && w in trace[i].pc
    ensures trace[i].scope.attachmentFreed || trace[i].scope.tokenFreed || trace[i].sup.pc.Returned? ==>
              trace[i].pc[w].Reported?
    ensures UsesAttachment(trace[i].pc[w]) ==> !trace[i].scope.attachmentFreed && !trace[i].scope.tokenFreed
    ensures trace[i].sup.pc.CancelToken? ==> !trace[i].scope.tokenFreed
    ensures trace[i].pc[w].Sending? ==> |trace[i].queue| < CAPACITY
  {
    var s := trace[i];
    RunKeepsInv(trace, i);
    if AfterLoop(s.sup.pc) {
      NoneRemainingMeansAllDone(s);
    }
    if s.pc[w].Sending? {
      SendNeverBlocks(s, w);
    }
  }

  /** The supervisor passes its select at most six times. */
  lemma SixTurns(trace: seq<State>, i: nat)
    requires Run(trace) && i < |trace|
    ensures trace[i].sup.turns <= 6
    ensures trace[i].sup.remaining + One(trace[i].sup.armed) == 6 - trace[i].sup.turns
  {
    hide Fits, StreamOk, CancelInv, ReportInv, GateInv, NoneLost;
    RunKeepsInv(trace, i);
    CardinalityBound(trace[i].sup.consumed, WORKERS);
    assert |WORKERS| == 5;
  }

  /** A supervisor that still waits has a report in its channel or a worker yet to report. */
  lemma SomethingToCome(trace: seq<State>, i: nat)
    requires Run(trace) && i < |trace| && trace[i].sup.remaining > 0 && trace[i].queue == []
    ensures exists w :: w in trace[i].pc && !trace[i].pc[w].Reported?
  {
    hide Fits, StreamOk, CancelInv, ReportInv, GateInv;
    var s := trace[i];
    RunKeepsInv(trace, i);
    assert |WORKERS| == 5;
    if forall w :: w in s.pc ==> s.pc[w].Reported? {
      CardinalityBound(WORKERS, s.sup.consumed);
    }
  }

  // Progress

  /** Once the native worker's report is dealt with, input and controls have been told to stop. */
  ghost predicate InputStopInv(s: State) {
    Native in s.sup.consumed ==>
      || s.scope.inputDone || s.sup.pc.NativeSucceeded? || s.sup.pc.CancelToken? || s.sup.pc.StopInput?
      || (s.sup.pc.Judge? && s.sup.pc.report.from == Native && s.sup.pc.report.err.Some?)
  }

  lemma SupervisorKeepsInputStop(s: State, s': State)
    requires CancelInv(s.sup, s.scope) && InputStopInv(s) && SupervisorStep(s, s')
    ensures InputStopInv(s')
  {
  }

  lemma NextKeepsInputStop(s: State, s': State)
    requires Inv(s) && InputStopInv(s) && Next(s, s')
    ensures InputStopInv(s')
  {
    hide AccountInv, GateInv, StreamInv, CancelInv, ReportInv, SuccessInv, SelectMove, FeedMove, SteerMove, DrainMove;
    if SupervisorStep(s, s') {
      SupervisorKeepsInputStop(s, s');
    }
  }

  lemma {:induction false} RunKeepsInputStop(trace: seq<State>, i: nat)
    requires Run(trace) && i < |trace|
    ensures InputStopInv(trace[i])
  {
    hide Inv, Next, InputStopInv;
    if i == 0 {
      NothingConsumed(trace[0]);
    } else {
      RunKeepsInputStop(trace, i - 1);
      RunKeepsInv(trace, i - 1);
      assert Next(trace[i - 1], trace[i]);
      NextKeepsInputStop(trace[i - 1], trace[i]);
    }
  }

  lemma NothingConsumed(s: State)
    requires Init(s)
    ensures InputStopInv(s)
  {
  }

  /** The controls worker waits for the caller: no control has come and nobody has told it to stop. */
  predicate AwaitsCaller(s: State, w: Worker)
    requires w in s.pc
  {
    s.pc[w] == Steering(SteerWaiting) && !s.scope.inputDone
  }

  /** The supervisor, or a worker that does not just wait for the caller, can take a step. */
  ghost predicate CanMove(s: State) {
    || (exists s' :: SupervisorStep(s, s'))
    || (exists w, s' :: WorkerStep(s, s', w) && !AwaitsCaller(s, w))
  }

  lemma SupervisorMoves(s: State)
    requires !s.sup.pc.Returned? && (s.sup.pc.Select? && s.sup.remaining > 0 ==> s.queue != [])
    ensures CanMove(s)
  {
    hide WorkerStep;
    var u, v := s.sup, s.scope;
    var s' := match u.pc
      case Select =>
        if u.remaining <= 0 then
          s.(sup := u.(pc := if u.first.Some? then DeferStopOutput(Failure(u.first.value)) else CheckParent))
        else
          var r := s.queue[0];
          s.(queue := s.queue[1..],
             sup := u.(pc := if r.from == Native && r.err.None? then NativeSucceeded(r) else Judge(r),
                       remaining := u.remaining - 1, consumed := u.consumed + {r.from},
                       data := if r.from == Native then r.data else u.data, turns := u.turns + 1))
      case NativeSucceeded(r) => s.(scope := v.(inputDone := true), sup := u.(pc := Judge(r)))
      case Judge(r) =>
        s.(sup := if r.err.Some? && u.first.None? then u.(pc := CancelToken, first := r.err) else u.(pc := Select))
      case CancelToken => s.(scope := v.(tokenCancelled := true), sup := u.(pc := StopInput))
      case StopInput => s.(scope := v.(inputDone := true), sup := u.(pc := StopOutput))
      case StopOutput => s.(scope := v.(outputDone := true), sup := u.(pc := Select))
      case CheckParent =>
        s.(sup := u.(pc := DeferStopOutput(if v.parentDone then Failure(Cancelled) else Success(u.data))))
      case DeferStopOutput(o) => s.(scope := v.(outputDone := true), sup := u.(pc := DeferStopInput(o)))
      case DeferStopInput(o) => s.(scope := v.(inputDone := true), sup := u.(pc := FreeAttachment(o)))
      case FreeAttachment(o) => s.(scope := v.(attachmentFreed := true), sup := u.(pc := FreeToken(o)))
      case FreeToken(o) => s.(scope := v.(tokenFreed := true), sup := u.(pc := Returned(o)));
    assert SupervisorStep(s, s');
  }

  lemma FeedSuccessor(f: FeedPc, done: bool) returns (p': WorkerPc)
    ensures FeedMove(f, done, p')
  {
    match f
    case FeedStart => p' := if done then Sending(Report(Stdin, [], None)) else Feeding(FeedFactory);
    case FeedFactory => p' := Feeding(FeedLoop);
    case FeedLoop => p' := if done then Sending(Report(Stdin, [], None)) else Feeding(FeedReading);
    case FeedReading => p' := Feeding(FeedAfter(More));
    case FeedWriting(end) => p' := Feeding(FeedAfter(end));
    case FeedWriteFailed(end, fault) =>
      p' := if !done && end.Broken? then Sending(Report(Stdin, [], Some(end.fault))) else Feeding(FeedExcuse(Some(fault)));
    case FeedAfter(end) =>
      p' := if end.More? then Feeding(FeedLoop) else if done then Sending(Report(Stdin, [], None))
            else if end.AtEof? then Feeding(FeedClosingStdin) else Sending(Report(Stdin, [], Some(end.fault)));
    case FeedClosingStdin => p' := Feeding(FeedExcuse(None));
    case FeedExcuse(err) => p' := Sending(Report(Stdin, [], Excused(done, err)));
  }

  lemma SteerSuccessor(c: SteerPc, done: bool) returns (p': WorkerPc)
    ensures SteerMove(c, done, p')
  {
    match c
    case SteerWaiting => p' := Sending(Report(Controls, [], None));
    case SteerCalling => p' := Steering(SteerWaiting);
    case SteerExcuse(err) => p' := Sending(Report(Controls, [], Excused(done, err)));
  }

  /** An output worker can go on unless it waits for the gate's token. */
  lemma DrainSuccessor(w: Worker, d: DrainPc, done: bool, g: nat, o: Stream) returns (p': WorkerPc, g': nat, o': Stream)
    requires d.DrainWantGate? ==> done || g > 0
    requires d.DrainReturnGate? ==> g < 1
    ensures DrainMove(w, d, done, g, o, p', g', o')
  {
    g', o' := g, o;
    match d
    case DrainReading => p' := Draining(DrainNext(true));
    case DrainReadFailed(fault) =>
      p' := Sending(Report(w, [], if done || fault == Cancelled then None else Some(fault)));
      o' := o.(end := if done then ContextDone else if fault == Cancelled then Wakeup else Failed);
    case DrainWantGate(chunk, eof) =>
      if done {
        p', o' := Sending(Report(w, [], None)), o.(end := ContextDone);
      } else {
        p', g' := Draining(DrainWriting(chunk, eof)), g - 1;
      }
    case DrainWriting(chunk, eof) =>
      p', o' := Draining(DrainReturnGate(chunk, eof, 0, None)), o.(written := o.written + Taken(chunk, 0));
    case DrainReturnGate(chunk, eof, n, err) => p', g' := Draining(DrainJudge(chunk, eof, n, err)), g + 1;
    case DrainJudge(chunk, eof, n, err) =>
      if !done && err.None? && n == |chunk| {
        p' := Draining(DrainNext(eof));
      } else {
        p' := Sending(Report(w, [], if done then None else if err.Some? then err else Some(SHORT_WRITE)));
        o' := o.(end := if done then ContextDone else Failed);
      }
    case DrainNext(eof) =>
      if eof {
        p', o' := Sending(Report(w, [], None)), o.(end := Eof);
      } else {
        p' := Draining(DrainReading);
      }
  }

  /** A worker that waits for neither the caller nor the gate can go on: calls are taken to return. */
  lemma WorkerMoves(s: State, w: Worker)
    requires AccountInv(s) && w in s.pc && !s.pc[w].Reported? && !AwaitsCaller(s, w)
    requires s.pc[w].Draining? && s.pc[w].drain.DrainWantGate? ==> s.scope.outputDone || s.gate > 0
    requires s.pc[w].Draining? && s.pc[w].drain.DrainReturnGate? ==> s.gate < 1
    ensures CanMove(s)
  {
    hide FeedMove, SteerMove, DrainMove, QueueOk, NoneLost, CountOk, SupervisorStep;
    assert Fits(w, s.pc[w]);
    match s.pc[w] {
      case NativeCalling =>
        var s' := s.(pc := s.pc[w := Sending(Report(Native, [], None))]);
        assert WorkerStep(s, s', w);
      case Feeding(f) =>
        var p' := FeedSuccessor(f, s.scope.inputDone);
        assert WorkerStep(s, s.(pc := s.pc[w := p']), w);
      case Steering(c) =>
        var p' := SteerSuccessor(c, s.scope.inputDone);
        assert WorkerStep(s, s.(pc := s.pc[w := p']), w);
      case Draining(d) =>
        var p', g', o' := DrainSuccessor(w, d, s.scope.outputDone, s.gate, s.out[w]);
        var s' := s.(pc := s.pc[w := p'], gate := g', out := s.out[w := o']);
        assert WorkerStep(s, s', w);
      case Sending(r) =>
        SendNeverBlocks(s, w);
        assert WorkerStep(s, s.(queue := s.queue + [r], pc := s.pc[w := Reported(r)]), w);
    }
  }

  /** An output worker that waits for the gate leaves the other one holding it. */
  lemma GateHolderMoves(s: State, w: Worker)
    requires AccountInv(s) && GateInv(s) && w in s.pc && s.pc[w].Draining? && s.pc[w].drain.DrainWantGate? && s.gate == 0
    ensures CanMove(s)
  {
    hide CanMove, QueueOk, NoneLost, CountOk;
    assert Fits(w, s.pc[w]);
    WorkerMoves(s, if w == Stdout then Stderr else Stdout);
  }

  /** In every reachable state before the supervisor returns, somebody other than the caller can take a step. */
  lemma Progress(trace: seq<State>, i: nat)
    requires Run(trace) && i < |trace| && !trace[i].sup.pc.Returned?
    ensures CanMove(trace[i])
  {
    hide CanMove, Run, QueueOk, CountOk, StreamInv, CancelInv, ReportInv, SuccessInv;
    var s := trace[i];
    RunKeepsInv(trace, i);
    RunKeepsInputStop(trace, i);
    if !(s.sup.pc.Select? && s.sup.remaining > 0 && s.queue == []) {
      SupervisorMoves(s);
    } else {
      SomethingToCome(trace, i);
      var w :| w in s.pc && !s.pc[w].Reported?;
      if AwaitsCaller(s, w) {
        assert Native !in s.sup.consumed && Native !in Senders(s.queue);
        assert Fits(Native, s.pc[Native]);
        WorkerMoves(s, Native);
      } else if s.pc[w].Draining? && s.pc[w].drain.DrainWantGate? && s.gate == 0 {
        GateHolderMoves(s, w);
      } else {
        assert Fits(w, s.pc[w]);
        WorkerMoves(s, w);
      }
    }
  }

  /** One token: never two writers at once, and giving the token back never blocks. */
  lemma OneWriter(trace: seq<State>, i: nat)
    requires Run(trace) && i < |trace|
    ensures Stdout in trace[i].pc && Stderr in trace[i].pc
    ensures trace[i].gate + One(HoldsGate(trace[i].pc[Stdout])) + One(HoldsGate(trace[i].pc[Stderr])) == 1
  {
    RunKeepsInv(trace, i);
  }

  lemma {:induction false} FirstErrorStays(trace: seq<State>, i: nat, j: nat)
    requires Run(trace) && i <= j < |trace| && trace[i].sup.first.Some?
    ensures trace[j].sup.first == trace[i].sup.first
  {
    if i < j {
      FirstErrorStays(trace, i, j - 1);
      assert Next(trace[j - 1], trace[j]);
    }
  }

  /**
   * A recorded first error never changes; whenever the supervisor is back at its select, or later,
   * token, input and output are all cancelled; and a failing return is that error.
   */
  lemma FirstErrorDecides(trace: seq<State>, i: nat, j: nat)
    requires Run(trace) && i <= j < |trace| && trace[i].sup.first.Some?
    ensures trace[j].sup.first == trace[i].sup.first
    ensures trace[j].sup.pc.Select? ==> AllCancelled(trace[j].scope)
    ensures trace[j].sup.pc.Returned? ==> trace[j].sup.pc.outcome == Failure(trace[i].sup.first.value)
  {
    FirstErrorStays(trace, i, j);
    RunKeepsInv(trace, j);
  }

  /**
   * A successful return carries the native data, no worker reported an error, and each output
   * worker stopped at end of file or on a native wakeup with everything it read written.
   */
  lemma SuccessMeansDrained(trace: seq<State>, i: nat)
    requires Run(trace) && i < |trace|
    requires trace[i].sup.pc.Returned? && trace[i].sup.pc.outcome.Success?
    ensures Drained(trace[i])
    ensures Native in trace[i].pc
    ensures trace[i].pc[Native] == Reported(Report(Native, trace[i].sup.pc.outcome.data, None))
    ensures Stdout in trace[i].out && Stderr in trace[i].out
  {
    RunKeepsInv(trace, i);
    NoneRemainingMeansAllDone(trace[i]);
  }
}
