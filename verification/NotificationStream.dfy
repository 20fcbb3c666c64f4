/**
 The reconnecting notification stream of useNotificationStream.ts as a state machine:
 mounts and unmounts, suspended token refreshes, stream errors and reconnect timers
 interleave freely. JavaScript runs each callback to its next await without interruption.
 */
module NotificationStream {
  import opened Wrappers

  /** What connect() finds in the token storage. */
  datatype Token =
    | Unusable   // missing, undecodable, or expiring with no refresh token
    | Expiring   // connect() awaits the refresh
    | Valid

  /**
   `streams` and `timers` are what the browser holds: open event sources and armed timers.
   The refs keep their last value, so they may name a closed stream or a fired timer.
   */
  datatype State = State(
    streams: set<nat>,
    streamRef: Option<nat>,
    timers: set<nat>,
    timerRef: Option<nat>,
    suspended: nat,
    mounts: nat,
    mounted: nat,
    nextId: nat)

  datatype Step =
    | Mount(token: Token)
    | Unmount
    | Resume(refreshed: bool)
    | Error(stream: nat)
    | Fire(timer: nat, nextToken: Token)

  /** A closed event source raises no error event. */
  predicate Enabled(s: State, step: Step) {
    match step
    case Mount(_) => true
    case Unmount => s.mounted > 0
    case Resume(_) => s.suspended > 0
    case Error(stream) => stream in s.streams
    case Fire(timer, _) => timer in s.timers
  }

  function RefSet(ref: Option<nat>): set<nat> {
    match ref
    case Some(id) => {id}
    case None => {}
  }

  /** The tail of connect(): close the current stream, open a new one. */
  function Open(s: State): State {
    s.(streams := s.streams - RefSet(s.streamRef) + {s.nextId}, streamRef := Some(s.nextId), nextId := s.nextId + 1)
  }

  function Connect(s: State, token: Token): State {
    match token
    case Unusable => s
    case Expiring => s.(suspended := s.suspended + 1)
    case Valid => Open(s)
  }

  function Next(s: State, step: Step): State
    requires Enabled(s, step)
  {
    match step
    case Mount(token) => Connect(s.(mounts := s.mounts + 1, mounted := s.mounted + 1), token)
    case Unmount =>
      s.(streams := s.streams - RefSet(s.streamRef), timers := s.timers - RefSet(s.timerRef), mounted := s.mounted - 1)
    case Resume(refreshed) =>
      var awake := s.(suspended := s.suspended - 1);
      if refreshed then Open(awake) else awake
    case Error(stream) =>
      s.(streams := s.streams - {stream}, streamRef := None,
         timers := s.timers - RefSet(s.timerRef) + {s.nextId}, timerRef := Some(s.nextId), nextId := s.nextId + 1)
    case Fire(timer, token) => Connect(s.(timers := s.timers - {timer}), token)
  }

  // ---------------------------------------------------------------- the hook

  class StreamHook {
    var streams: set<nat>
    var streamRef: Option<nat>
    var timers: set<nat>
    var timerRef: Option<nat>
    var suspended: nat
    var mounts: nat
    var mounted: nat
    var nextId: nat

    constructor ()
      ensures View() == State({}, None, {}, None, 0, 0, 0, 0)
    {
      streams, streamRef, timers, timerRef, suspended, mounts, mounted, nextId := {}, None, {}, None, 0, 0, 0, 0;
    }

    function View(): State
      reads this
    {
      State(streams, streamRef, timers, timerRef, suspended, mounts, mounted, nextId)
    }

    method OpenStream()
      modifies this
      ensures View() == Open(old(View()))
    {
      match streamRef {
        case Some(current) => streams := streams - {current};
        case None =>
      }
      streams := streams + {nextId};
      streamRef := Some(nextId);
      nextId := nextId + 1;
    }

    method RunConnect(token: Token)
      modifies this
      ensures View() == Connect(old(View()), token)
    {
      match token {
        case Unusable =>
        case Expiring => suspended := suspended + 1;
        case Valid => OpenStream();
      }
    }

    method OnMount(token: Token)
      modifies this
      ensures View() == Next(old(View()), Mount(token))
    {
      mounts, mounted := mounts + 1, mounted + 1;
      RunConnect(token);
    }

    /** The refresh settles; a rejection is caught and connect() returns. */
    method OnRefreshSettled(refreshed: bool)
      requires Enabled(View(), Resume(refreshed))
      modifies this
      ensures View() == Next(old(View()), Resume(refreshed))
    {
      suspended := suspended - 1;
      if refreshed {
        OpenStream();
      }
    }

    method OnError(stream: nat)
      requires Enabled(View(), Error(stream))
      modifies this
      ensures View() == Next(old(View()), Error(stream))
    {
      streams := streams - {stream};
      streamRef := None;
      match timerRef {
        case Some(pending) => timers := timers - {pending};
        case None =>
      }
      timers := timers + {nextId};
      timerRef := Some(nextId);
      nextId := nextId + 1;
    }

    method OnTimer(timer: nat, token: Token)
      requires Enabled(View(), Fire(timer, token))
      modifies this
      ensures View() == Next(old(View()), Fire(timer, token))
    {
      timers := timers - {timer};
      RunConnect(token);
    }

    /** The effect cleanup: it closes and clears, but leaves both refs set. */
    method OnUnmount()
      requires Enabled(View(), Unmount)
      modifies this
      ensures View() == Next(old(View()), Unmount)
    {
      match streamRef {
        case Some(current) => streams := streams - {current};
        case None =>
      }
      match timerRef {
        case Some(pending) => timers := timers - {pending};
        case None =>
      }
      mounted := mounted - 1;
    }
  }

  // ---------------------------------------------------------------- all interleavings

  ghost predicate Execution(states: seq<State>, steps: seq<Step>) {
    && |states| == |steps| + 1
    && states[0] == State({}, None, {}, None, 0, 0, 0, 0)
    && forall i :: 0 <= i < |steps| ==> Enabled(states[i], steps[i]) && states[i + 1] == Next(states[i], steps[i])
  }

  /**
   Any open stream is the one in the ref, any armed timer is the one in its ref, and every
   open stream, suspended connect and armed timer is owed to a mount of its own.
   */
  ghost predicate Disciplined(s: State) {
    && s.streams <= RefSet(s.streamRef) && s.timers <= RefSet(s.timerRef)
    && |s.streams| + s.suspended + |s.timers| <= s.mounts
  }

  lemma SubsetOfRef(ids: set<nat>, ref: Option<nat>)
    requires ids <= RefSet(ref)
    ensures ids == {} || (ref.Some? && ids == {ref.value})
    ensures ids - RefSet(ref) == {}
  {
    if id :| id in ids {
      assert ids == {ref.value};
    }
  }

  lemma OpenDisciplined(s: State)
    requires s.streams <= RefSet(s.streamRef) && s.timers <= RefSet(s.timerRef)
    requires s.suspended + |s.timers| < s.mounts
    ensures Disciplined(Open(s))
  {
    SubsetOfRef(s.streams, s.streamRef);
    assert Open(s).streams == {s.nextId};
  }

  lemma ConnectDisciplined(s: State, token: Token)
    requires Disciplined(s) && |s.streams| + s.suspended + |s.timers| < s.mounts
    ensures Disciplined(Connect(s, token))
  {
    if token.Valid? {
      OpenDisciplined(s);
    }
  }

  lemma ErrorDisciplined(s: State, stream: nat)
    requires Disciplined(s) && stream in s.streams
    ensures Disciplined(Next(s, Error(stream)))
  {
    var s' := Next(s, Error(stream));
    SubsetOfRef(s.streams, s.streamRef);
    SubsetOfRef(s.timers, s.timerRef);
    assert s'.streams == {} && s'.timers == {s.nextId};
  }

  lemma UnmountDisciplined(s: State)
    requires Disciplined(s) && s.mounted > 0
    ensures Disciplined(Next(s, Unmount)) && Next(s, Unmount).streams == {} && Next(s, Unmount).timers == {}
  {
    SubsetOfRef(s.streams, s.streamRef);
    SubsetOfRef(s.timers, s.timerRef);
  }

  lemma FireDisciplined(s: State, timer: nat, token: Token)
    requires Disciplined(s) && timer in s.timers
    ensures Disciplined(Next(s, Fire(timer, token)))
  {
    assert |s.timers - {timer}| == |s.timers| - 1;
    ConnectDisciplined(s.(timers := s.timers - {timer}), token);
  }

  lemma ResumeDisciplined(s: State, refreshed: bool)
    requires Disciplined(s) && s.suspended > 0
    ensures Disciplined(Next(s, Resume(refreshed)))
  {
    ConnectDisciplined(s.(suspended := s.suspended - 1), if refreshed then Valid else Unusable);
  }

  lemma StepDisciplined(s: State, step: Step)
    requires Disciplined(s) && Enabled(s, step)
    ensures Disciplined(Next(s, step))
  {
    match step
    case Mount(token) => ConnectDisciplined(s.(mounts := s.mounts + 1, mounted := s.mounted + 1), token);
    case Unmount => UnmountDisciplined(s);
    case Resume(refreshed) => ResumeDisciplined(s, refreshed);
    case Error(stream) => ErrorDisciplined(s, stream);
    case Fire(timer, token) => FireDisciplined(s, timer, token);
  }

  /** At most one stream is open, and nothing outnumbers the mounts, in every interleaving. */
  lemma {:induction false} AlwaysDisciplined(states: seq<State>, steps: seq<Step>, n: nat)
    requires Execution(states, steps) && n < |states|
    ensures Disciplined(states[n]) && |states[n].streams| <= 1 && |states[n].timers| <= 1
  {
    if n > 0 {
      AlwaysDisciplined(states, steps, n - 1);
      StepDisciplined(states[n - 1], steps[n - 1]);
    }
    SubsetOfRef(states[n].streams, states[n].streamRef);
    SubsetOfRef(states[n].timers, states[n].timerRef);
  }

  /** Nothing is open, armed or suspended. */
  ghost predicate Idle(s: State) {
    s.streams == {} && s.timers == {} && s.suspended == 0
  }

  /** An unmount with no connect suspended leaves the hook idle until the next mount. */
  lemma {:induction false} CleanUnmountStaysIdle(states: seq<State>, steps: seq<Step>, m: nat, n: nat)
    requires Execution(states, steps) && m < n < |states|
    requires steps[m] == Unmount && states[m].suspended == 0
    requires forall i :: m < i < n ==> !steps[i].Mount?
    ensures Idle(states[n])
    decreases n
  {
    if n == m + 1 {
      AlwaysDisciplined(states, steps, m);
      SubsetOfRef(states[m].streams, states[m].streamRef);
      SubsetOfRef(states[m].timers, states[m].timerRef);
    } else {
      CleanUnmountStaysIdle(states, steps, m, n - 1);
    }
  }

  /** A stream can appear after an unmount, with no new mount, exactly when a connect was suspended at the unmount. */
  lemma LeakIffSuspended(states: seq<State>, steps: seq<Step>, m: nat)
    requires Execution(states, steps) && m < |steps| && steps[m] == Unmount
    ensures (exists step: Step :: !step.Mount? && Enabled(states[m + 1], step)
                                  && Next(states[m + 1], step).streams != {}) <==>
            states[m].suspended > 0
  {
    var s := states[m + 1];
    if states[m].suspended > 0 {
      assert Enabled(s, Resume(true)) && s.nextId in Next(s, Resume(true)).streams;
    } else {
      CleanUnmountStaysIdle(states, steps, m, m + 1);
    }
  }

  // ---------------------------------------------------------------- what the history decides

  /** The step ends in a connect that finds a usable token. */
  predicate Connects(step: Step) {
    step == Mount(Valid) || step == Resume(true) || (step.Fire? && step.nextToken == Valid)
  }

  /** The step ends in a connect that starts to refresh an expiring token. */
  predicate StartsRefresh(step: Step) {
    step == Mount(Expiring) || (step.Fire? && step.nextToken == Expiring)
  }

  /** Some step before n is a `from` step, and no `until` step came after it. */
  ghost predicate Since(steps: seq<Step>, n: nat, from: Step -> bool, until: Step -> bool)
    requires n <= |steps|
  {
    exists m :: 0 <= m < n && from(steps[m]) && forall i :: m < i < n ==> !until(steps[i])
  }

  lemma SinceStep(steps: seq<Step>, n: nat, from: Step -> bool, until: Step -> bool)
    requires n < |steps|
    ensures Since(steps, n + 1, from, until) <==>
            from(steps[n]) || (Since(steps, n, from, until) && !until(steps[n]))
  {
    if Since(steps, n, from, until) && !until(steps[n]) {
      var m :| 0 <= m < n && from(steps[m]) && forall i :: m < i < n ==> !until(steps[i]);
      assert from(steps[m]) && forall i :: m < i < n + 1 ==> !until(steps[i]);
    }
  }

  function CountSteps(steps: seq<Step>, counted: Step -> bool): nat {
    if steps == [] then 0
    else CountSteps(steps[..|steps| - 1], counted) + if counted(steps[|steps| - 1]) then 1 else 0
  }

  lemma ConnectOutcome(s: State, token: Token)
    ensures Connect(s, token).streams != {} <==> token.Valid? || s.streams != {}
    ensures Connect(s, token).timers == s.timers
  {
    assert token.Valid? ==> s.nextId in Connect(s, token).streams;
  }

  /** When a stream is open after a step. */
  lemma StreamOutcome(s: State, step: Step)
    requires Disciplined(s) && Enabled(s, step)
    ensures Next(s, step).streams != {} <==>
            Connects(step) || (s.streams != {} && !step.Error? && !step.Unmount?)
  {
    match step
    case Mount(token) => ConnectOutcome(s.(mounts := s.mounts + 1, mounted := s.mounted + 1), token);
    case Unmount => SubsetOfRef(s.streams, s.streamRef);
    case Resume(refreshed) =>
      ConnectOutcome(s.(suspended := s.suspended - 1), if refreshed then Valid else Unusable);
    case Error(stream) =>
      SubsetOfRef(s.streams, s.streamRef);
      assert s.streams == {stream};
    case Fire(timer, token) => ConnectOutcome(s.(timers := s.timers - {timer}), token);
  }

  /** When a timer is armed after a step. */
  lemma TimerOutcome(s: State, step: Step)
    requires Disciplined(s) && Enabled(s, step)
    ensures Next(s, step).timers != {} <==>
            step.Error? || (s.timers != {} && !step.Fire? && !step.Unmount?)
  {
    SubsetOfRef(s.timers, s.timerRef);
    if step.Error? {
      assert s.nextId in Next(s, step).timers;
    } else if step.Fire? {
      assert s.timers == {step.timer};
    }
  }

  lemma SuspendedOutcome(s: State, step: Step)
    requires Enabled(s, step)
    ensures Next(s, step).suspended + (if step.Resume? then 1 else 0) ==
            s.suspended + (if StartsRefresh(step) then 1 else 0)
  {
  }

  /**
   What is open in any interleaving, from the steps alone: a stream iff a connect with a usable
   token came after the last stream error and unmount, a timer iff a stream error came after the
   last fired timer and unmount, and one suspended connect per refresh begun and not settled.
   */
  lemma {:induction false} HistoryDecides(states: seq<State>, steps: seq<Step>, n: nat)
    requires Execution(states, steps) && n < |states|
    ensures states[n].streams != {} <==>
            Since(steps, n, Connects, (step: Step) => step.Error? || step.Unmount?)
    ensures states[n].timers != {} <==>
            Since(steps, n, (step: Step) => step.Error?, (step: Step) => step.Fire? || step.Unmount?)
    ensures CountSteps(steps[..n], StartsRefresh) ==
            CountSteps(steps[..n], (step: Step) => step.Resume?) + states[n].suspended
  {
    if n > 0 {
      HistoryDecides(states, steps, n - 1);
      AlwaysDisciplined(states, steps, n - 1);
      StreamOutcome(states[n - 1], steps[n - 1]);
      TimerOutcome(states[n - 1], steps[n - 1]);
      SuspendedOutcome(states[n - 1], steps[n - 1]);
      SinceStep(steps, n - 1, Connects, (step: Step) => step.Error? || step.Unmount?);
      SinceStep(steps, n - 1, (step: Step) => step.Error?, (step: Step) => step.Fire? || step.Unmount?);
      assert steps[..n][..n - 1] == steps[..n - 1];
    }
  }

  /** A failed stream is replaced: its error arms one timer, and that timer's connect opens the one new stream. */
  lemma ErrorThenTimerReconnects(states: seq<State>, steps: seq<Step>, n: nat, stream: nat)
    requires Execution(states, steps) && n < |states| && stream in states[n].streams
    ensures var failed := Next(states[n], Error(stream));
            && failed.timerRef.Some? && failed.timers == {failed.timerRef.value} && failed.streams == {}
            && failed.suspended == states[n].suspended
            && var again := Next(failed, Fire(failed.timerRef.value, Valid));
               again.streams == RefSet(again.streamRef) != {} && again.timers == {} &&
               again.suspended == states[n].suspended
  {
    AlwaysDisciplined(states, steps, n);
    SubsetOfRef(states[n].streams, states[n].streamRef);
    SubsetOfRef(states[n].timers, states[n].timerRef);
  }
}
