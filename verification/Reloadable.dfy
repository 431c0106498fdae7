/** The policy set in force on one replica, and the poller that keeps it in step with the policy log. */
module Reloadable {

  import opened Prelude

  /** A policy set is compiled from its source text or refused. */
  type Compiler<!P> = string -> Option<P>

  /** Revision `n` is the entry at `n - 1`; the newest is the last. */
  type Log = seq<string>

  /** What asking the store for its newest revision gives. */
  datatype Answer = Unreachable | Empty | Newest(sequence: nat, source: string)

  function NewestOf(log: Log): Answer {
    if log == [] then Empty else Newest(|log|, log[|log| - 1])
  }

  /** The set in force and the revision it is believed to come from; revision 0 is no revision of the log. */
  datatype Loaded<P> = Loaded(current: P, sequence: nat)

  /** One turn of the poller, undisturbed. */
  function Poll<P>(compile: Compiler<P>, loaded: Loaded<P>, answer: Answer): Loaded<P> {
    if !answer.Newest? || answer.sequence <= loaded.sequence then loaded
    else
      match compile(answer.source)
      case Some(next) => Loaded(next, answer.sequence)
      case None => loaded
  }

  class ReloadableAuthorizer<P> {
    var current: P
    var sequence: nat

    ghost function Contents(): Loaded<P>
      reads this
    {
      Loaded(current, sequence)
    }

    constructor (authorizer: P, sequence: nat)
      ensures Contents() == Loaded(authorizer, sequence)
    {
      current := authorizer;
      this.sequence := sequence;
    }

    method Snapshot() returns (authorizer: P)
      ensures authorizer == Contents().current
    {
      authorizer := current;
    }

    method LoadedSequence() returns (loaded: nat)
      ensures loaded == Contents().sequence
    {
      loaded := sequence;
    }

    method Swap(authorizer: P, newSequence: nat)
      modifies this
      ensures Contents() == Loaded(authorizer, newSequence)
    {
      current := authorizer;
      sequence := newSequence;
    }

    /** The body of the poll loop. */
    method PollOnce(compile: Compiler<P>, answer: Answer)
      modifies this
      ensures Contents() == Poll(compile, old(Contents()), answer)
    {
      if !answer.Newest? {
        return;
      }
      var loaded := LoadedSequence();
      if answer.sequence <= loaded {
        return;
      }
      var next := compile(answer.source);
      if next.Some? {
        Swap(next.value, answer.sequence);
      }
    }
  }

  // ---------------------------------------------------------------------------
  // Steps
  // ---------------------------------------------------------------------------

  /** One replica swaps from its poller and from every request that installs a policy set, each on its own. */
  datatype Writer = Poller | Request(id: nat)

  /**
   * Where a busy writer stands. The poller first reads the number of the newest revision, and looks later at what is
   * loaded. The two fields are written under separate locks, so `Half` is a state others can see.
   */
  datatype Stage<P> = Fetched(sequence: nat) | Ready(next: P, sequence: nat) | Half(next: P, sequence: nat)

  /** One replica among many over one log: its loaded set, its busy writers, and the log everyone appends to. */
  datatype Replica<P> = Replica(log: Log, loaded: Loaded<P>, busy: map<Writer, Stage<P>>)
  {
    predicate IsFetched(w: Writer) {
      w in busy && busy[w].Fetched?
    }

    predicate IsReady(w: Writer) {
      w in busy && busy[w].Ready?
    }

    predicate IsHalf(w: Writer) {
      w in busy && busy[w].Half?
    }

    function Busy(w: Writer, stage: Stage<P>): Replica<P> {
      this.(busy := busy[w := stage])
    }

    function Done(w: Writer): Replica<P> {
      this.(busy := busy - {w})
    }

    predicate OnlyPollerBusy() {
      busy.Keys <= {Poller}
    }
  }

  datatype Step =
    | Append(source: string)            // a revision somebody else appends
    | Install(id: nat, source: string)  // a revision a request appends here, to be swapped in next
    | Miss                              // the poller reaches no store, or an empty one
    | Fetch                             // the poller reads the newest revision
    | Begin                             // it finds that newer than what is loaded, and compiles it
    | GiveUp                            // or it does not
    | WriteSet(writer: Writer)
    | WriteSequence(writer: Writer)

  function Compiled<P>(compile: Compiler<P>, log: Log, sequence: nat): Option<P> {
    if 1 <= sequence <= |log| then compile(log[sequence - 1]) else None
  }

  /** Revision `sequence` is newer than what is loaded, and compiles. */
  predicate IsUsable<P>(compile: Compiler<P>, r: Replica<P>, sequence: nat) {
    r.loaded.sequence < sequence && Compiled(compile, r.log, sequence).Some?
  }

  /** Whether a step can be taken. */
  predicate Enabled<P>(compile: Compiler<P>, r: Replica<P>, step: Step) {
    match step
    case Append(_) => true
    case Install(id, source) => Request(id) !in r.busy && compile(source).Some?
    case Miss => Poller !in r.busy
    case Fetch => Poller !in r.busy && r.log != []
    case Begin => r.IsFetched(Poller) && IsUsable(compile, r, r.busy[Poller].sequence)
    case GiveUp => r.IsFetched(Poller) && !IsUsable(compile, r, r.busy[Poller].sequence)
    case WriteSet(w) => r.IsReady(w)
    case WriteSequence(w) => r.IsHalf(w)
  }

  function Take<P>(compile: Compiler<P>, r: Replica<P>, step: Step): Replica<P>
    requires Enabled(compile, r, step)
  {
    match step
    case Append(source) => r.(log := r.log + [source])
    case Install(id, source) =>
      r.(log := r.log + [source]).Busy(Request(id), Ready(compile(source).value, |r.log| + 1))
    case Miss => r
    case Fetch => r.Busy(Poller, Fetched(|r.log|))
    case Begin =>
      var n := r.busy[Poller].sequence;
      r.Busy(Poller, Ready(Compiled(compile, r.log, n).value, n))
    case GiveUp => r.Done(Poller)
    case WriteSet(w) =>
      var stage := r.busy[w];
      r.(loaded := r.loaded.(current := stage.next)).Busy(w, Half(stage.next, stage.sequence))
    case WriteSequence(w) =>
      r.(loaded := r.loaded.(sequence := r.busy[w].sequence)).Done(w)
  }

  /** A sequence of steps every one of which can be taken. */
  ghost predicate IsRun<P>(compile: Compiler<P>, states: seq<Replica<P>>, steps: seq<Step>) {
    && |states| == |steps| + 1
    && forall i :: 0 <= i < |steps| ==>
         Enabled(compile, states[i], steps[i]) && states[i + 1] == Take(compile, states[i], steps[i])
  }

  function TakeAll<P>(compile: Compiler<P>, r: Replica<P>, steps: seq<Step>): Option<Replica<P>>
    decreases |steps|
  {
    if steps == [] then Some(r)
    else if Enabled(compile, r, steps[0]) then TakeAll(compile, Take(compile, r, steps[0]), steps[1..])
    else None
  }

  // ---------------------------------------------------------------------------
  // What every run keeps
  // ---------------------------------------------------------------------------

  /** Revision `sequence` of the log compiles to `set`. */
  ghost predicate IsRevision<P>(compile: Compiler<P>, log: Log, sequence: nat, set_: P) {
    1 <= sequence <= |log| && compile(log[sequence - 1]) == Some(set_)
  }

  /** What a writer carries is a revision of the log with its own number. */
  ghost predicate StageIsSound<P>(compile: Compiler<P>, log: Log, stage: Stage<P>) {
    if stage.Fetched? then 1 <= stage.sequence <= |log| else IsRevision(compile, log, stage.sequence, stage.next)
  }

  ghost predicate IsSomeRevision<P>(compile: Compiler<P>, log: Log, set_: P) {
    exists n: nat :: n <= |log| && IsRevision(compile, log, n, set_)
  }

  /** Whatever overlaps, what is in force is one whole revision of the log. */
  ghost predicate Sound<P>(compile: Compiler<P>, r: Replica<P>) {
    && IsSomeRevision(compile, r.log, r.loaded.current) && 1 <= r.loaded.sequence <= |r.log|
    && forall w :: w in r.busy ==> StageIsSound(compile, r.log, r.busy[w])
  }

  lemma RevisionsStay<P>(compile: Compiler<P>, log: Log, more: Log, sequence: nat, set_: P)
    requires IsRevision(compile, log, sequence, set_)
    ensures IsRevision(compile, log + more, sequence, set_)
  {
  }

  lemma SomeRevisionStays<P>(compile: Compiler<P>, log: Log, more: Log, set_: P)
    requires IsSomeRevision(compile, log, set_)
    ensures IsSomeRevision(compile, log + more, set_)
  {
    var n: nat :| n <= |log| && IsRevision(compile, log, n, set_);
    RevisionsStay(compile, log, more, n, set_);
  }

  lemma StepKeepsSound<P>(compile: Compiler<P>, r: Replica<P>, step: Step)
    requires Sound(compile, r) && Enabled(compile, r, step)
    ensures Sound(compile, Take(compile, r, step))
    ensures r.log <= Take(compile, r, step).log
  {
    if step.Append? || step.Install? {
      SomeRevisionStays(compile, r.log, [step.source], r.loaded.current);
    } else if step.WriteSet? {
      var stage := r.busy[step.writer];
      assert IsRevision(compile, r.log, stage.sequence, stage.next);
    }
  }

  /** Every decision of every run is made by one whole policy set that some revision of the log compiles to. */
  lemma {:induction false} RunsStaySound<P>(compile: Compiler<P>, states: seq<Replica<P>>, steps: seq<Step>, k: nat)
    requires IsRun(compile, states, steps) && Sound(compile, states[0]) && k < |states|
    ensures Sound(compile, states[k])
  {
    if k > 0 {
      RunsStaySound(compile, states, steps, k - 1);
      StepKeepsSound(compile, states[k - 1], steps[k - 1]);
    }
  }

  // ---------------------------------------------------------------------------
  // When the set and its number agree
  // ---------------------------------------------------------------------------

  /** Nobody is between the two writes. */
  ghost predicate NoneHalf<P>(r: Replica<P>) {
    forall w :: w in r.busy ==> !r.IsHalf(w)
  }

  /** The set in force is the revision its number names. */
  ghost predicate Matches<P>(compile: Compiler<P>, r: Replica<P>) {
    IsRevision(compile, r.log, r.loaded.sequence, r.loaded.current)
  }

  /** The revision whose set a run was last to write; the one it started on if it wrote none. */
  function LastWritten<P>(states: seq<Replica<P>>, steps: seq<Step>, k: nat): nat
    requires k <= |steps| < |states|
    requires forall i :: 0 <= i < |steps| && steps[i].WriteSet? ==> steps[i].writer in states[i].busy
  {
    if k == 0 then states[0].loaded.sequence
    else if steps[k - 1].WriteSet? then states[k - 1].busy[steps[k - 1].writer].sequence
    else LastWritten(states, steps, k - 1)
  }

  lemma {:induction false} LastWrittenIsInForce<P>(compile: Compiler<P>, states: seq<Replica<P>>, steps: seq<Step>,
                                                   k: nat)
    requires IsRun(compile, states, steps) && Sound(compile, states[0]) && Matches(compile, states[0]) && k < |states|
    ensures IsRevision(compile, states[k].log, LastWritten(states, steps, k), states[k].loaded.current)
  {
    if k > 0 {
      LastWrittenIsInForce(compile, states, steps, k - 1);
      RunsStaySound(compile, states, steps, k - 1);
      StepKeepsSound(compile, states[k - 1], steps[k - 1]);
    }
  }

  /**
   * At every point of every run, however many swaps overlap, the set in force is the revision its number names exactly
   * when the revision whose set was written last and the one whose number was written last compile alike.
   */
  lemma MatchesIff<P>(compile: Compiler<P>, states: seq<Replica<P>>, steps: seq<Step>, k: nat)
    requires IsRun(compile, states, steps) && Sound(compile, states[0]) && Matches(compile, states[0]) && k < |states|
    ensures var log := states[k].log;
            Matches(compile, states[k]) <==>
            Compiled(compile, log, states[k].loaded.sequence) == Compiled(compile, log, LastWritten(states, steps, k))
  {
    LastWrittenIsInForce(compile, states, steps, k);
    RunsStaySound(compile, states, steps, k);
  }

  /** No writer writes the set while another is between its two writes. */
  ghost predicate Apart<P>(r: Replica<P>, step: Step) {
    step.WriteSet? ==> NoneHalf(r)
  }

  /** At most one writer is half way. Then the set in force is its set, and otherwise the one its number names. */
  ghost predicate Agrees<P>(compile: Compiler<P>, r: Replica<P>) {
    && (forall v, w :: v in r.busy && w in r.busy && r.IsHalf(v) && r.IsHalf(w) ==> v == w)
    && (forall w :: w in r.busy && r.IsHalf(w) ==> r.loaded.current == r.busy[w].next)
    && (NoneHalf(r) ==> Matches(compile, r))
  }

  lemma StepKeepsAgreement<P>(compile: Compiler<P>, r: Replica<P>, step: Step)
    requires Sound(compile, r) && Agrees(compile, r)
    requires Enabled(compile, r, step) && Apart(r, step)
    ensures Agrees(compile, Take(compile, r, step))
  {
    var r' := Take(compile, r, step);
    assert forall w :: w in r.busy && w in r'.busy && !(step.WriteSet? && step.writer == w) ==>
           r.IsHalf(w) == r'.IsHalf(w);
    if step.WriteSequence? {
      assert NoneHalf(r');
    } else if step.WriteSet? {
      assert r'.IsHalf(step.writer);
    } else {
      assert NoneHalf(r') ==> NoneHalf(r);
    }
  }

  /** While no two swaps overlap, the set in force is always the revision its number names. */
  lemma {:induction false} ApartRunsAgree<P>(compile: Compiler<P>, states: seq<Replica<P>>, steps: seq<Step>, k: nat)
    requires IsRun(compile, states, steps) && Sound(compile, states[0]) && Agrees(compile, states[0]) && k < |states|
    requires forall i :: 0 <= i < k ==> Apart(states[i], steps[i])
    ensures Agrees(compile, states[k]) && (NoneHalf(states[k]) ==> Matches(compile, states[k]))
  {
    if k > 0 {
      ApartRunsAgree(compile, states, steps, k - 1);
      RunsStaySound(compile, states, steps, k - 1);
      StepKeepsAgreement(compile, states[k - 1], steps[k - 1]);
    }
  }

  // ---------------------------------------------------------------------------
  // The poller alone
  // ---------------------------------------------------------------------------

  /** A step of a run in which only the poller writes. */
  predicate OnlyPoller(step: Step) {
    && !step.Install?
    && (step.WriteSet? ==> step.writer.Poller?) && (step.WriteSequence? ==> step.writer.Poller?)
  }

  /** What the poller is about to load is newer than what is loaded. */
  predicate Advancing<P>(r: Replica<P>) {
    r.OnlyPollerBusy() && (Poller in r.busy && !r.IsFetched(Poller) ==> r.loaded.sequence < r.busy[Poller].sequence)
  }

  lemma PollerStepAdvances<P>(compile: Compiler<P>, r: Replica<P>, step: Step)
    requires Advancing(r) && Enabled(compile, r, step) && OnlyPoller(step)
    ensures Advancing(Take(compile, r, step)) && Apart(r, step)
    ensures r.loaded.sequence <= Take(compile, r, step).loaded.sequence
  {
  }

  /** With the poller as the only writer no swaps overlap and the loaded number never goes back. */
  lemma {:induction false} PollerNeverGoesBack<P>(compile: Compiler<P>, states: seq<Replica<P>>, steps: seq<Step>,
                                                  i: nat, k: nat)
    requires IsRun(compile, states, steps) && Advancing(states[0]) && i <= k < |states|
    requires forall n :: 0 <= n < |steps| ==> OnlyPoller(steps[n])
    ensures Advancing(states[k]) && forall n :: 0 <= n < k ==> Apart(states[n], steps[n])
    ensures states[i].loaded.sequence <= states[k].loaded.sequence
  {
    if k > 0 {
      PollerNeverGoesBack(compile, states, steps, if i < k then i else k - 1, k - 1);
      PollerStepAdvances(compile, states[k - 1], steps[k - 1]);
    }
  }

  lemma TakeOne<P>(compile: Compiler<P>, r: Replica<P>, step: Step, rest: seq<Step>)
    requires Enabled(compile, r, step)
    ensures TakeAll(compile, r, [step] + rest) == TakeAll(compile, Take(compile, r, step), rest)
  {
    assert ([step] + rest)[1..] == rest;
  }

  /** With nothing to read, or no store to read it from, a turn is a miss and loads nothing. */
  lemma MissIsATurn<P>(compile: Compiler<P>, r: Replica<P>)
    requires Poller !in r.busy
    ensures Enabled(compile, r, Miss) && Take(compile, r, Miss) == r
    ensures Enabled(compile, r, Fetch) <==> NewestOf(r.log) != Empty
    ensures Poll(compile, r.loaded, Unreachable) == Poll(compile, r.loaded, Empty) == r.loaded
  {
  }

  /** The steps of the poller, undisturbed, amount to one turn of its loop. */
  lemma PollIsItsSteps<P>(compile: Compiler<P>, r: Replica<P>)
    requires Poller !in r.busy && r.log != []
    ensures var rest :=
              if IsUsable(compile, r, |r.log|) then [Begin, WriteSet(Poller), WriteSequence(Poller)] else [GiveUp];
            TakeAll(compile, r, [Fetch] + rest) == Some(r.(loaded := Poll(compile, r.loaded, NewestOf(r.log))))
  {
    var r1 := Take(compile, r, Fetch);
    if IsUsable(compile, r, |r.log|) {
      var r2 := Take(compile, r1, Begin);
      var r3 := Take(compile, r2, WriteSet(Poller));
      var r4 := Take(compile, r3, WriteSequence(Poller));
      assert r4.busy == r.busy;
      TakeOne(compile, r, Fetch, [Begin, WriteSet(Poller), WriteSequence(Poller)]);
      TakeOne(compile, r1, Begin, [WriteSet(Poller), WriteSequence(Poller)]);
      TakeOne(compile, r2, WriteSet(Poller), [WriteSequence(Poller)]);
      TakeOne(compile, r3, WriteSequence(Poller), []);
    } else {
      assert Take(compile, r1, GiveUp).busy == r.busy;
      TakeOne(compile, r, Fetch, [GiveUp]);
      TakeOne(compile, r1, GiveUp, []);
    }
  }

  // ---------------------------------------------------------------------------
  // Convergence
  // ---------------------------------------------------------------------------

  /** A step of the poller while nobody appends. */
  predicate IsPolling(step: Step) {
    OnlyPoller(step) && !step.Append?
  }

  ghost predicate IsPollingRun<P>(compile: Compiler<P>, states: seq<Replica<P>>, steps: seq<Step>) {
    && IsRun(compile, states, steps) && states[0].OnlyPollerBusy()
    && forall n :: 0 <= n < |steps| ==> IsPolling(steps[n])
  }

  lemma {:induction false} PollingKeepsLog<P>(compile: Compiler<P>, states: seq<Replica<P>>, steps: seq<Step>, k: nat)
    requires IsPollingRun(compile, states, steps) && k < |states|
    ensures states[k].OnlyPollerBusy() && states[k].log == states[0].log
    ensures forall n :: 0 <= n < k ==> Apart(states[n], steps[n])
  {
    if k > 0 {
      PollingKeepsLog(compile, states, steps, k - 1);
      assert Enabled(compile, states[k - 1], steps[k - 1]);
    }
  }

  /** The number of the newest revision is loaded, and the poller is about nothing else. */
  ghost predicate Settled<P>(r: Replica<P>, log: Log, target: Loaded<P>) {
    && r.log == log && r.OnlyPollerBusy() && r.loaded == target && target.sequence >= |log|
    && (Poller in r.busy ==> r.IsFetched(Poller) && r.busy[Poller].sequence <= |log|)
  }

  lemma StepKeepsSettled<P>(compile: Compiler<P>, r: Replica<P>, step: Step, log: Log, target: Loaded<P>)
    requires Settled(r, log, target) && Enabled(compile, r, step) && IsPolling(step)
    ensures Settled(Take(compile, r, step), log, target)
  {
  }

  /** Once the newest number is loaded, right or wrong, no run of the poller changes what is loaded. */
  lemma {:induction false} NewestNumberStays<P>(compile: Compiler<P>, states: seq<Replica<P>>, steps: seq<Step>,
                                                from: nat, k: nat)
    requires IsPollingRun(compile, states, steps) && from <= k < |states|
    requires Settled(states[from], states[0].log, states[from].loaded)
    ensures Settled(states[k], states[0].log, states[from].loaded)
  {
    if from < k {
      NewestNumberStays(compile, states, steps, from, k - 1);
      StepKeepsSettled(compile, states[k - 1], steps[k - 1], states[0].log, states[from].loaded);
    }
  }

  /** In a turn of the poller that will end on `target`. */
  ghost predicate Turning<P>(r: Replica<P>, log: Log, target: Loaded<P>) {
    && r.log == log && r.OnlyPollerBusy() && Poller in r.busy && r.busy[Poller].sequence == |log| == target.sequence
    && match r.busy[Poller]
       case Fetched(_) => r.loaded.sequence >= |log| ==> r.loaded == target
       case Ready(next, _) => next == target.current
       case Half(next, _) => next == target.current && r.loaded.current == target.current
  }

  /** The steps that end a turn. */
  predicate EndsTurn(step: Step) {
    step == GiveUp || step == WriteSequence(Poller)
  }

  lemma StepKeepsTurning<P>(compile: Compiler<P>, r: Replica<P>, step: Step, log: Log, target: Loaded<P>)
    requires Turning(r, log, target) && Enabled(compile, r, step) && IsPolling(step)
    requires Compiled(compile, log, |log|) == Some(target.current)
    ensures var r' := Take(compile, r, step);
            if EndsTurn(step) then Settled(r', log, target) else Turning(r', log, target)
  {
  }

  lemma {:induction false} TurnSettles<P>(compile: Compiler<P>, states: seq<Replica<P>>, steps: seq<Step>, from: nat,
                                          k: nat, log: Log, target: Loaded<P>)
    requires IsPollingRun(compile, states, steps) && from <= k < |states| && log == states[0].log
    requires Turning(states[from], log, target) && Compiled(compile, log, |log|) == Some(target.current)
    ensures Turning(states[k], log, target) || Settled(states[k], log, target)
    ensures k > from && EndsTurn(steps[k - 1]) ==> Settled(states[k], log, target)
  {
    if from < k {
      TurnSettles(compile, states, steps, from, k - 1, log, target);
      if Turning(states[k - 1], log, target) {
        StepKeepsTurning(compile, states[k - 1], steps[k - 1], log, target);
      } else {
        StepKeepsSettled(compile, states[k - 1], steps[k - 1], log, target);
      }
    }
  }

  /**
   * Convergence: once the log has stopped on a revision that compiles, a replica whose set agrees with its number and
   * which completes one turn of its poller, begun at `i` and ended at `j`, is on that revision and stays there. What it
   * ends on depends on the log alone, so all replicas end on the same.
   */
  lemma RunConverges<P>(compile: Compiler<P>, states: seq<Replica<P>>, steps: seq<Step>, i: nat, j: nat, k: nat)
    requires IsPollingRun(compile, states, steps) && Sound(compile, states[0]) && Agrees(compile, states[0])
    requires Compiled(compile, states[0].log, |states[0].log|).Some?
    requires i < j < k < |states| && steps[i] == Fetch && EndsTurn(steps[j])
    ensures var log := states[0].log;
            states[k].loaded == Loaded(Compiled(compile, log, |log|).value, |log|)
  {
    var log := states[0].log;
    var target := Loaded(Compiled(compile, log, |log|).value, |log|);
    PollingKeepsLog(compile, states, steps, i);
    RunsStaySound(compile, states, steps, i);
    ApartRunsAgree(compile, states, steps, i);
    assert NoneHalf(states[i]);
    assert Turning(states[i + 1], log, target);
    TurnSettles(compile, states, steps, i + 1, j + 1, log, target);
    NewestNumberStays(compile, states, steps, j + 1, k);
  }

  /** A turn that loads a revision converges whatever was loaded before, agreeing or not. */
  lemma LoadConverges<P>(compile: Compiler<P>, states: seq<Replica<P>>, steps: seq<Step>, i: nat, j: nat, k: nat)
    requires IsPollingRun(compile, states, steps) && i < j < k < |states|
    requires steps[i] == Begin && steps[j] == WriteSequence(Poller)
             && states[i].busy[Poller].sequence == |states[0].log|
    ensures var log := states[0].log;
            log != [] && Compiled(compile, log, |log|).Some?
            && states[k].loaded == Loaded(Compiled(compile, log, |log|).value, |log|)
  {
    var log := states[0].log;
    PollingKeepsLog(compile, states, steps, i);
    assert Enabled(compile, states[i], Begin);
    var target := Loaded(Compiled(compile, log, |log|).value, |log|);
    assert Turning(states[i + 1], log, target);
    TurnSettles(compile, states, steps, i + 1, j + 1, log, target);
    NewestNumberStays(compile, states, steps, j + 1, k);
  }

  /**
   * A replica whose set and number agree has nothing to load exactly when it is on the newest revision, if that
   * compiles.
   */
  lemma NothingToLoadIff<P>(compile: Compiler<P>, r: Replica<P>)
    requires Sound(compile, r) && Matches(compile, r) && Compiled(compile, r.log, |r.log|).Some?
    ensures !IsUsable(compile, r, |r.log|) <==> r.loaded == Loaded(Compiled(compile, r.log, |r.log|).value, |r.log|)
  {
  }

  /** While the newest revision does not compile, no run of the poller changes what is loaded. */
  lemma {:induction false} UnusableRevisionChangesNothing<P>(compile: Compiler<P>, states: seq<Replica<P>>,
                                                             steps: seq<Step>, k: nat)
    requires IsPollingRun(compile, states, steps) && states[0].busy == map[] && k < |states|
    requires var log := states[0].log; log != [] && compile(log[|log| - 1]).None?
    ensures states[k].loaded == states[0].loaded
    ensures Poller in states[k].busy ==> states[k].busy[Poller] == Fetched(|states[0].log|)
  {
    PollingKeepsLog(compile, states, steps, k);
    if k > 0 {
      UnusableRevisionChangesNothing(compile, states, steps, k - 1);
      PollingKeepsLog(compile, states, steps, k - 1);
      assert Enabled(compile, states[k - 1], steps[k - 1]);
    }
  }

  // ---------------------------------------------------------------------------
  // What overlapping swaps can do
  // ---------------------------------------------------------------------------

  /**
   * When `second` writes its set while `first` is half way, be they requests or the poller, the set and its number end
   * up agreeing exactly when `second` is also the last to write its number, or both carry the same set.
   */
  lemma OverlapAgreesIff<P>(compile: Compiler<P>, r: Replica<P>, first: Writer, second: Writer, last: Writer)
    requires Sound(compile, r) && r.IsHalf(first) && r.IsReady(second) && last in {first, second}
    ensures var other := if last == first then second else first;
            var s1 := Take(compile, r, WriteSet(second));
            && Enabled(compile, s1, WriteSequence(other))
            && var s2 := Take(compile, s1, WriteSequence(other));
               && Enabled(compile, s2, WriteSequence(last))
               && var end := Take(compile, s2, WriteSequence(last));
                  && end.busy == r.busy - {first, second}
                  && (Matches(compile, end) <==> last == second || r.busy[first].next == r.busy[second].next)
  {
    assert StageIsSound(compile, r.log, r.busy[first]) && StageIsSound(compile, r.log, r.busy[second]);
  }

  /** A compiler under which every source is its own policy set. */
  function Verbatim(source: string): Option<string> {
    Some(source)
  }

  function Start(): Replica<string> {
    Replica(["a"], Loaded("a", 1), map[])
  }

  lemma StartAgrees()
    ensures Sound(Verbatim, Start()) && Agrees(Verbatim, Start())
  {
    assert IsRevision(Verbatim, ["a"], 1, "a");
  }

  /**
   * Two requests whose swaps overlap leave revision 2 in force under number 3, with no poller about. From there no run
   * of the poller corrects it until somebody appends again.
   */
  lemma OverlappingSwapsStick(states: seq<Replica<string>>, steps: seq<Step>, k: nat, x: nat, y: nat)
    requires x != y && k < |states| && IsPollingRun(Verbatim, states, steps)
    requires TakeAll(Verbatim, Start(),
                     [Install(x, "b"), Install(y, "c"), WriteSet(Request(y)), WriteSet(Request(x)),
                      WriteSequence(Request(x)), WriteSequence(Request(y))]) == Some(states[0])
    ensures Sound(Verbatim, Start()) && Agrees(Verbatim, Start())
    ensures states[0] == Replica(["a", "b", "c"], Loaded("b", 3), map[]) && states[k].loaded == Loaded("b", 3)
    ensures !Matches(Verbatim, states[k])
  {
    StartAgrees();
    OverlapLeaves(x, y);
    PollingKeepsLog(Verbatim, states, steps, k);
    NewestNumberStays(Verbatim, states, steps, 0, k);
  }

  lemma OverlapLeaves(x: nat, y: nat)
    requires x != y
    ensures TakeAll(Verbatim, Start(),
                    [Install(x, "b"), Install(y, "c"), WriteSet(Request(y)), WriteSet(Request(x)),
                     WriteSequence(Request(x)), WriteSequence(Request(y))]) ==
            Some(Replica(["a", "b", "c"], Loaded("b", 3), map[]))
  {
    var s0 := Start();
    var s1 := Take(Verbatim, s0, Install(x, "b"));
    var s2 := Take(Verbatim, s1, Install(y, "c"));
    var s3 := Take(Verbatim, s2, WriteSet(Request(y)));
    var s4 := Take(Verbatim, s3, WriteSet(Request(x)));
    var s5 := Take(Verbatim, s4, WriteSequence(Request(x)));
    var s6 := Take(Verbatim, s5, WriteSequence(Request(y)));
    var t5, t4 := [WriteSequence(Request(y))], [WriteSequence(Request(x)), WriteSequence(Request(y))];
    var t3 := [WriteSet(Request(x))] + t4;
    var t2 := [WriteSet(Request(y))] + t3;
    var t1 := [Install(y, "c")] + t2;
    TakeOne(Verbatim, s0, Install(x, "b"), t1);
    TakeOne(Verbatim, s1, Install(y, "c"), t2);
    TakeOne(Verbatim, s2, WriteSet(Request(y)), t3);
    TakeOne(Verbatim, s3, WriteSet(Request(x)), t4);
    TakeOne(Verbatim, s4, WriteSequence(Request(x)), t5);
    TakeOne(Verbatim, s5, WriteSequence(Request(y)), []);
    assert s6.log == ["a", "b", "c"] && s6.busy == map[];
    assert [Install(x, "b")] + t1 ==
           [Install(x, "b"), Install(y, "c"), WriteSet(Request(y)), WriteSet(Request(x)),
            WriteSequence(Request(x)), WriteSequence(Request(y))];
  }

  /** A replica that has polled revision 3 while the request of revision 2 has yet to swap. */
  function Waiting(x: nat): Replica<string> {
    Replica(["a", "b", "c"], Loaded("c", 3), map[Request(x) := Ready("b", 2)])
  }

  lemma PolledFirst(x: nat)
    ensures TakeAll(Verbatim, Start(),
                    [Install(x, "b"), Append("c"), Fetch, Begin, WriteSet(Poller), WriteSequence(Poller)]) ==
            Some(Waiting(x))
  {
    var s0 := Start();
    var s1 := Take(Verbatim, s0, Install(x, "b"));
    var s2 := Take(Verbatim, s1, Append("c"));
    var s3 := Take(Verbatim, s2, Fetch);
    var s4 := Take(Verbatim, s3, Begin);
    var s5 := Take(Verbatim, s4, WriteSet(Poller));
    var t5, t4 := [WriteSequence(Poller)], [WriteSet(Poller), WriteSequence(Poller)];
    var t3 := [Begin] + t4;
    var t2 := [Fetch] + t3;
    TakeOne(Verbatim, s0, Install(x, "b"), [Append("c")] + t2);
    TakeOne(Verbatim, s1, Append("c"), t2);
    TakeOne(Verbatim, s2, Fetch, t3);
    TakeOne(Verbatim, s3, Begin, t4);
    TakeOne(Verbatim, s4, WriteSet(Poller), t5);
    TakeOne(Verbatim, s5, WriteSequence(Poller), []);
    assert Take(Verbatim, s5, WriteSequence(Poller)) == Waiting(x);
    assert [Install(x, "b")] + ([Append("c")] + t2) ==
           [Install(x, "b"), Append("c"), Fetch, Begin, WriteSet(Poller), WriteSequence(Poller)];
  }

  /** Even without overlap a request's swap may arrive late and put an older revision back in force for a while. */
  lemma LateInstallGoesBack(x: nat)
    ensures var polled := [Install(x, "b"), Append("c"), Fetch, Begin, WriteSet(Poller), WriteSequence(Poller)];
            var late := [WriteSet(Request(x)), WriteSequence(Request(x))];
            var before := TakeAll(Verbatim, Start(), polled);
            && before.Some? && before.value.loaded == Loaded("c", 3)
            && TakeAll(Verbatim, before.value, late) == Some(Replica(["a", "b", "c"], Loaded("b", 2), map[]))
  {
    PolledFirst(x);
    var s7 := Take(Verbatim, Waiting(x), WriteSet(Request(x)));
    TakeOne(Verbatim, Waiting(x), WriteSet(Request(x)), [WriteSequence(Request(x))]);
    TakeOne(Verbatim, s7, WriteSequence(Request(x)), []);
    assert Take(Verbatim, s7, WriteSequence(Request(x))).busy == map[];
  }
}
