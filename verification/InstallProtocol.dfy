/**
 * Publishing a runtime: any number of installers, each of which may fail or be killed at any point,
 * share one lock and one final directory. Each stages, validates and then renames.
 */
module InstallProtocol {
  import opened Common
  import opened RuntimeTree

  datatype Outcome = Installed | Failed

  /** Where an installer is; the stage is its own directory until the rename. */
  datatype Pc =
    | Opening
    | Holding
    | Fetching
    | Staging(stage: Root)
    | Ready(stage: Root)
    | Published
    | Finished(outcome: Outcome)
    | Killed

  datatype State = State(final: Root, lock: Option<nat>, pcs: seq<Pc>)

  /** What one installer does next; unpacking may leave anything in the stage. */
  datatype Move = Acquire | GiveUp | Inspect | Materialize | Unpack(stage: Root) | Check | Rename | Finish | Fail | Kill

  datatype Context = Context(w: Release, target: Target)

  predicate HoldsLock(p: Pc) {
    !p.Opening? && !p.Finished? && !p.Killed?
  }

  predicate Running(p: Pc) {
    !p.Finished? && !p.Killed?
  }

  ghost predicate Enabled(c: Context, s: State, i: nat, m: Move) {
    && i < |s.pcs|
    && match m
       case Acquire => s.pcs[i] == Opening && s.lock.None?
       case GiveUp => s.pcs[i] == Opening
       case Inspect => s.pcs[i] == Holding
       case Materialize => s.pcs[i] == Fetching
       case Unpack(_) => s.pcs[i].Staging?
       case Check => s.pcs[i].Staging?
       case Rename => s.pcs[i].Ready?
       case Finish => s.pcs[i] == Published
       case Fail => HoldsLock(s.pcs[i])
       case Kill => Running(s.pcs[i])
  }

  function Unlocked(s: State, i: nat): Option<nat> {
    if s.lock == Some(i) then None else s.lock
  }

  function Leave(s: State, i: nat, p: Pc): State
    requires i < |s.pcs|
  {
    State(s.final, Unlocked(s, i), s.pcs[i := p])
  }

  function Goto(s: State, i: nat, p: Pc): State
    requires i < |s.pcs|
  {
    s.(pcs := s.pcs[i := p])
  }

  ghost function After(c: Context, s: State, i: nat, m: Move): State
    requires Enabled(c, s, i, m)
  {
    match m
    case Acquire => Goto(s.(lock := Some(i)), i, Holding)
    case GiveUp => Goto(s, i, Finished(Failed))
    case Inspect =>
      if Valid(c.w, s.final, c.target) then Leave(s, i, Finished(Installed))
      else if s.final.Absent? then Goto(s, i, Fetching)
      else Leave(s, i, Finished(Failed))
    case Materialize => Goto(s, i, Staging(Tree(448, map[])))
    case Unpack(stage) => Goto(s, i, Staging(stage))
    case Check =>
      if Valid(c.w, s.pcs[i].stage, c.target) then Goto(s, i, Ready(s.pcs[i].stage)) else Leave(s, i, Finished(Failed))
    case Rename => Goto(s.(final := s.pcs[i].stage), i, Published)
    case Finish => Leave(s, i, Finished(Installed))
    case Fail => Leave(s, i, Finished(Failed))
    case Kill => Leave(s, i, Killed)
  }

  ghost predicate Step(c: Context, s: State, i: nat, m: Move, t: State) {
    Enabled(c, s, i, m) && t == After(c, s, i, m)
  }

  ghost predicate Next(c: Context, s: State, t: State) {
    exists i: nat, m :: Step(c, s, i, m, t)
  }

  ghost predicate Init(s: State) {
    s.lock.None? && forall i :: 0 <= i < |s.pcs| ==> s.pcs[i] == Opening
  }

  ghost predicate Run(c: Context, trace: seq<State>) {
    && |trace| > 0
    && Init(trace[0])
    && forall i, j :: 0 <= i && j == i + 1 && j < |trace| ==> Next(c, trace[i], trace[j])
  }

  // What every reachable state satisfies

  /** What an installer may rely on where it is. */
  ghost predicate PcOk(c: Context, final: Root, p: Pc) {
    && (p.Fetching? || p.Staging? || p.Ready? ==> final.Absent?)
    && (p.Ready? ==> Valid(c.w, p.stage, c.target))
    && (p.Published? || p == Finished(Installed) ==> Valid(c.w, final, c.target))
  }

  ghost predicate LockOk(s: State) {
    && (s.lock.Some? ==> s.lock.value < |s.pcs|)
    && forall i :: 0 <= i < |s.pcs| ==> (HoldsLock(s.pcs[i]) <==> s.lock == Some(i))
  }

  ghost predicate Inv(c: Context, s: State) {
    LockOk(s) && forall i :: 0 <= i < |s.pcs| ==> PcOk(c, s.final, s.pcs[i])
  }

  lemma StepKeepsLock(c: Context, s: State, i: nat, m: Move, t: State)
    requires LockOk(s) && Step(c, s, i, m, t)
    ensures LockOk(t)
  {
    hide Valid;
    forall k | 0 <= k < |t.pcs| ensures HoldsLock(t.pcs[k]) <==> t.lock == Some(k) {
      assert HoldsLock(s.pcs[k]) <==> s.lock == Some(k);
    }
  }

  /** The final directory changes only from absent to a validated tree. */
  lemma StepKeepsFinal(c: Context, s: State, i: nat, m: Move, t: State)
    requires Inv(c, s) && Step(c, s, i, m, t)
    ensures t.final == s.final || (s.final.Absent? && Valid(c.w, t.final, c.target))
  {
    hide Valid;
    assert PcOk(c, s.final, s.pcs[i]);
  }

  lemma StepKeepsPcs(c: Context, s: State, i: nat, m: Move, t: State, k: nat)
    requires Inv(c, s) && Step(c, s, i, m, t) && k < |t.pcs|
    ensures PcOk(c, t.final, t.pcs[k])
  {
    hide MatchesManifest, RequiredPresent, NodeExpected;
    assert PcOk(c, s.final, s.pcs[i]) && PcOk(c, s.final, s.pcs[k]);
    assert HoldsLock(s.pcs[k]) <==> s.lock == Some(k);
    assert HoldsLock(s.pcs[i]) <==> s.lock == Some(i);
  }

  lemma {:induction false} RunKeepsInv(c: Context, trace: seq<State>, i: nat)
    requires Run(c, trace) && i < |trace|
    ensures Inv(c, trace[i])
  {
    hide Step, PcOk;
    if i == 0 {
      forall k | 0 <= k < |trace[0].pcs| ensures PcOk(c, trace[0].final, trace[0].pcs[k]) {
        OpeningOk(c, trace[0].final);
      }
    } else {
      RunKeepsInv(c, trace, i - 1);
      var s, t := trace[i - 1], trace[i];
      assert Next(c, s, t);
      var k: nat, m :| Step(c, s, k, m, t);
      StepKeepsLock(c, s, k, m, t);
      forall l | 0 <= l < |t.pcs| ensures PcOk(c, t.final, t.pcs[l]) {
        StepKeepsPcs(c, s, k, m, t, l);
      }
    }
  }

  lemma OpeningOk(c: Context, final: Root)
    ensures PcOk(c, final, Opening)
  {
  }

  /** Over a whole run the final directory is what it was, or was absent and is now a validated tree. */
  lemma {:induction false} FinalRootSafe(c: Context, trace: seq<State>, i: nat, j: nat)
    requires Run(c, trace) && i <= j < |trace|
    ensures trace[j].final == trace[i].final || (trace[i].final.Absent? && Valid(c.w, trace[j].final, c.target))
  {
    hide Step, Valid, Inv;
    if i < j {
      FinalRootSafe(c, trace, i, j - 1);
      RunKeepsInv(c, trace, j - 1);
      assert Next(c, trace[j - 1], trace[j]);
      var k: nat, m :| Step(c, trace[j - 1], k, m, trace[j]);
      StepKeepsFinal(c, trace[j - 1], k, m, trace[j]);
      ValidIsPresent(c, trace[j - 1].final);
    }
  }

  lemma ValidIsPresent(c: Context, root: Root)
    ensures Valid(c.w, root, c.target) ==> !root.Absent?
  {
  }

  /** A directory that exists, valid or not, is never replaced. */
  lemma PresentStays(c: Context, trace: seq<State>, i: nat, j: nat)
    requires Run(c, trace) && i <= j < |trace| && !trace[i].final.Absent?
    ensures trace[j].final == trace[i].final
  {
    FinalRootSafe(c, trace, i, j);
  }

  /** Once any installer has reported success, the final directory is valid and stays as it is. */
  lemma InstalledStays(c: Context, trace: seq<State>, i: nat, j: nat, k: nat)
    requires Run(c, trace) && i <= j < |trace| && k < |trace[i].pcs| && trace[i].pcs[k] == Finished(Installed)
    ensures Valid(c.w, trace[j].final, c.target) && trace[j].final == trace[i].final
  {
    RunKeepsInv(c, trace, i);
    assert PcOk(c, trace[i].final, trace[i].pcs[k]);
    PresentStays(c, trace, i, j);
  }

  /** In no run are two installers past the lock at once. */
  lemma OneHolder(c: Context, trace: seq<State>, i: nat, k: nat, l: nat)
    requires Run(c, trace) && i < |trace| && k < |trace[i].pcs| && l < |trace[i].pcs|
    requires HoldsLock(trace[i].pcs[k]) && HoldsLock(trace[i].pcs[l])
    ensures k == l
  {
    RunKeepsInv(c, trace, i);
  }

  /** At most one rename happens in a run. */
  lemma OneRename(c: Context, trace: seq<State>, i: nat, j: nat)
    requires Run(c, trace) && i + 1 < |trace| && j + 1 < |trace|
    requires trace[i].final != trace[i + 1].final && trace[j].final != trace[j + 1].final
    ensures i == j
  {
    hide Run;
    if i < j {
      FinalRootSafe(c, trace, i, i + 1);
      ValidIsPresent(c, trace[i + 1].final);
      PresentStays(c, trace, i + 1, j);
      PresentStays(c, trace, j, j + 1);
    } else if j < i {
      OneRename(c, trace, j, i);
    }
  }

  // Nothing left behind blocks a later installer

  /** What an installer does when nothing goes wrong. */
  function Proceed(p: Pc): Move {
    match p
    case Opening => Acquire
    case Holding => Inspect
    case Fetching => Materialize
    case Staging(_) => Check
    case Ready(_) => Rename
    case Published => Finish
    case _ => Kill
  }

  /** How many such steps are left, at most, before the lock is given back. */
  function Left(p: Pc): nat {
    match p
    case Holding => 5
    case Fetching => 4
    case Staging(_) => 3
    case Ready(_) => 2
    case Published => 1
    case _ => 0
  }

  /** The lock is free for whoever waits, or its holder can go on and is then closer to giving it back. */
  lemma LockNeverStuck(c: Context, trace: seq<State>, i: nat, k: nat)
    requires Run(c, trace) && i < |trace| && k < |trace[i].pcs| && trace[i].pcs[k] == Opening
    ensures var s := trace[i];
            if s.lock.None? then Enabled(c, s, k, Acquire)
            else
              && s.lock.value < |s.pcs|
              && var h := s.lock.value;
              && Enabled(c, s, h, Proceed(s.pcs[h]))
              && Left(After(c, s, h, Proceed(s.pcs[h])).pcs[h]) < Left(s.pcs[h])
  {
    hide Valid;
    RunKeepsInv(c, trace, i);
    var s := trace[i];
    if s.lock.Some? {
      assert HoldsLock(s.pcs[s.lock.value]) <==> s.lock == Some(s.lock.value);
    }
  }

  function WithFinal(s: State, k: nat, final: Root, p: Pc, lock: Option<nat>): State
    requires k < |s.pcs|
  {
    State(final, lock, s.pcs[k := p])
  }

  /** The steps of one undisturbed installation. */
  ghost function Installation(s: State, k: nat, tree: Root): seq<State>
    requires k < |s.pcs|
  {
    [s,
     WithFinal(s, k, s.final, Holding, Some(k)),
     WithFinal(s, k, s.final, Fetching, Some(k)),
     WithFinal(s, k, s.final, Staging(Tree(448, map[])), Some(k)),
     WithFinal(s, k, s.final, Staging(tree), Some(k)),
     WithFinal(s, k, s.final, Ready(tree), Some(k)),
     WithFinal(s, k, tree, Published, Some(k)),
     WithFinal(s, k, tree, Finished(Installed), None)]
  }

  /** Whatever failed or was killed before, an installer that finds the lock free and no directory can install. */
  lemma CanStillInstall(c: Context, s: State, k: nat, tree: Root)
    requires k < |s.pcs| && s.pcs[k] == Opening && s.lock.None? && s.final.Absent?
    requires Valid(c.w, tree, c.target)
    ensures forall i :: 0 <= i < 7 ==> Next(c, Installation(s, k, tree)[i], Installation(s, k, tree)[i + 1])
  {
    hide MatchesManifest, RequiredPresent;
    var r := Installation(s, k, tree);
    assert Step(c, r[0], k, Acquire, r[1]);
    assert Step(c, r[1], k, Inspect, r[2]);
    assert Step(c, r[2], k, Materialize, r[3]);
    assert Step(c, r[3], k, Unpack(tree), r[4]);
    assert Step(c, r[4], k, Check, r[5]);
    assert Step(c, r[5], k, Rename, r[6]);
    assert Step(c, r[6], k, Finish, r[7]);
  }
}
