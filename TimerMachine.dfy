/**
  The focus timer's state machine as values. A `TimerState` holds the timer
  component's state (`initialDuration`, `timer`, `isActive`, `isPaused`,
  `distractions`, `category`), its two refs (whether the one-second interval is
  scheduled, and the last app lifecycle status), whether it is mounted, the
  summary modal's state, and the session store as an append-only sequence.
  Each handler of the component is a function from state to state; `Step`
  applies one user press, interval firing or lifecycle notification with the
  guards the rendered controls impose, and `Run` applies a sequence of them.

  The interval callback is modelled as reading the CURRENT state. The
  component's callback in fact closes over the `handleFinish` of the render
  in which start was pressed, so an automatic finish there reads that render's
  `timer`, `category` and `distractions`; that capture is not reproduced.
 */
module TimerMachine {
  import opened JsNumber
  import opened SessionSummaryModal

  /** A fresh timer is set to 25 minutes. */
  const DefaultTime: int := 25 * 60
  /** The duration never goes below 5 minutes. */
  const MinDuration: int := 5 * 60
  /** The -5 and +5 buttons move the duration by this many minutes. */
  const AdjustStep: int := 5

  /** The activities the category picker offers; the first is preselected. */
  const Categories: seq<string> := ["Ders Çalışma", "Kodlama", "Proje", "Kitap Okuma"]
  const DefaultCategory: string := "Ders Çalışma"

  /** The host's lifecycle statuses, by the names the platform reports. */
  datatype AppStatus = Active | Background | Inactive | Unknown | Extension {
    function Name(): string {
      match this
      case Active => "active"
      case Background => "background"
      case Inactive => "inactive"
      case Unknown => "unknown"
      case Extension => "extension"
    }
  }

  /** Unanchored regular-expression match of a literal: needle occurs in hay. */
  predicate Contains(hay: string, needle: string)
    decreases |hay|
  {
    |needle| <= |hay| && (hay[..|needle|] == needle || Contains(hay[1..], needle))
  }

  /**
    The previous status matches /active/: as an unanchored pattern it also
    matches "inactive".
   */
  predicate WasForeground(prev: AppStatus): (b: bool)
    ensures b <==> prev == Active || prev == Inactive
  {
    ActivePatternStatuses(prev);
    Contains(prev.Name(), "active")
  }

  /** The next status matches /inactive|background/. */
  predicate GoesAway(next: AppStatus): (b: bool)
    ensures b <==> next == Inactive || next == Background
  {
    AwayPatternStatuses(next);
    Contains(next.Name(), "inactive") || Contains(next.Name(), "background")
  }

  /** A needle whose first character never occurs in hay does not occur in hay. */
  lemma {:induction false} FirstCharAbsent(hay: string, needle: string)
    requires |needle| > 0 && needle[0] !in hay
    ensures !Contains(hay, needle)
    decreases |hay|
  {
    if |needle| <= |hay| {
      assert hay[..|needle|][0] == hay[0];
      FirstCharAbsent(hay[1..], needle);
    }
  }

  /** When hay does not begin with the needle's first character, the search moves on to hay[1..]. */
  lemma ContainsShift(hay: string, needle: string)
    requires 0 < |needle| <= |hay| && hay[0] != needle[0]
    ensures Contains(hay, needle) == Contains(hay[1..], needle)
  {
  }

  /** /active/ matches "inactive" as well as "active", and nothing else. */
  lemma ActivePatternStatuses(a: AppStatus)
    ensures Contains(a.Name(), "active") <==> a == Active || a == Inactive
  {
    match a
    case Active =>
    case Inactive =>
      assert "inactive"[2..][..6] == "active";
      assert "inactive"[1..][1..] == "inactive"[2..];
    case Background =>
      var h := "background";
      FirstCharAbsent(h[2..], "active");
      assert h[1..][1..] == h[2..];
      assert h[1..][..6] != "active" by { assert h[1..][..6][2] != "active"[2]; }
      ContainsShift(h, "active");
    case Unknown =>
      FirstCharAbsent("unknown", "active");
    case Extension =>
      FirstCharAbsent("extension", "active");
  }

  /** /inactive|background/ matches exactly the two away statuses. */
  lemma AwayPatternStatuses(a: AppStatus)
    ensures Contains(a.Name(), "inactive") || Contains(a.Name(), "background") <==> a == Inactive || a == Background
  {
    match a
    case Inactive =>
    case Background =>
      assert "background"[..10] == "background";
    case Active =>
      FirstCharAbsent("active", "background");
    case Unknown =>
      FirstCharAbsent("unknown", "inactive");
      FirstCharAbsent("unknown", "background");
    case Extension =>
      FirstCharAbsent("extension", "background");
      ContainsShift("extension", "inactive");
      assert "extension"[1..][1..] == "extension"[2..];
      assert "extension"[1..][..8] != "inactive" by { assert "extension"[1..][..8][0] != "inactive"[0]; }
  }

  datatype TimerState = TimerState(
    initialDuration: int,         // configured session length, in seconds
    timer: int,                   // remaining seconds
    isActive: bool,               // a session is under way
    isPaused: bool,               // the session is paused
    distractions: int,            // pauses in this session
    category: string,             // activity label
    ticking: bool,                // the interval ref holds a scheduled interval
    appState: AppStatus,          // last lifecycle status seen
    mounted: bool,                // the component is mounted
    store: seq<SessionData>,      // the session records, oldest first
    lastSession: SessionData,     // the data shown by the summary modal
    modalVisible: bool)           // the summary modal is shown

  predicate Running(s: TimerState) {
    s.isActive && !s.isPaused
  }

  /** What every reachable state satisfies. */
  predicate Inv(s: TimerState) {
    && s.initialDuration >= MinDuration && s.initialDuration % MinDuration == 0
    && 0 <= s.timer <= s.initialDuration
    && (s.isPaused ==> s.isActive)
    && (s.isActive ==> s.timer >= 1)
    && (!s.isActive ==> s.timer == s.initialDuration && s.distractions == 0)
    && (s.isPaused ==> s.distractions >= 1)
    && s.distractions >= 0
    && (s.ticking ==> s.mounted)
    && (s.mounted ==> (s.ticking <==> Running(s)))
    && s.category in Categories
    && (s.modalVisible ==> !s.isActive && |s.store| > 0 && s.store[|s.store| - 1] == s.lastSession)
  }

  /** The record a finish made in state s stores. */
  function SessionOf(s: TimerState): (d: SessionData)
    ensures d.category == s.category && d.distractions == s.distractions
    ensures Inv(s) && s.isActive ==> 0 <= d.duration < s.initialDuration
    ensures Inv(s) && !s.isActive ==> d.duration == 0
  {
    SessionData(s.initialDuration - s.timer, s.category, s.distractions)
  }

  /** The state on mounting, given the current lifecycle status and the records already stored. */
  function Initial(app: AppStatus, store: seq<SessionData>): (r: TimerState)
    ensures Inv(r) && r.mounted && !r.isActive && !r.modalVisible
    ensures r.initialDuration == r.timer == DefaultTime && r.distractions == 0
    ensures r.category == DefaultCategory && r.appState == app && r.store == store
  {
    TimerState(DefaultTime, DefaultTime, false, false, 0, DefaultCategory, false, app, true,
               store, SessionData(0, "", 0), false)
  }

  /** stopInterval: clears the interval if one is scheduled. */
  function StopInterval(s: TimerState): (r: TimerState)
    ensures !r.ticking
    ensures r.(ticking := s.ticking) == s
  {
    s.(ticking := false)
  }

  lemma StopIntervalIdempotent(s: TimerState)
    ensures StopInterval(StopInterval(s)) == StopInterval(s)
  {
  }

  /** adjustTime: moves the duration by the given minutes, never below 5 minutes, and resets the countdown to it. */
  function AdjustTime(s: TimerState, minutes: int): (r: TimerState)
    requires Inv(s) && !s.isActive && minutes % AdjustStep == 0
    ensures Inv(r)
    ensures r.timer == r.initialDuration
    ensures r.initialDuration >= MinDuration && r.initialDuration >= s.initialDuration + minutes * 60
    ensures r.initialDuration == MinDuration || r.initialDuration == s.initialDuration + minutes * 60
    ensures r == s.(initialDuration := r.initialDuration, timer := r.timer)
  {
    var k := minutes / AdjustStep;
    assert minutes * 60 == k * MinDuration;
    var newDuration := if MinDuration >= s.initialDuration + minutes * 60 then MinDuration
                       else s.initialDuration + minutes * 60;
    s.(initialDuration := newDuration, timer := newDuration)
  }

  /** handleStart: (re)starts the countdown and schedules the interval. */
  function HandleStart(s: TimerState): (r: TimerState)
    requires Inv(s) && s.mounted && !s.modalVisible && !Running(s)
    ensures Inv(r) && Running(r) && r.ticking
    ensures r.timer == s.timer && r.distractions == s.distractions && r.store == s.store
    ensures r == s.(isActive := true, isPaused := false, ticking := true)
  {
    s.(isActive := true, isPaused := false, ticking := true)
  }

  /** handlePause: stops the interval, pauses, and counts one distraction. */
  function HandlePause(s: TimerState): (r: TimerState)
    requires Inv(s) && Running(s)
    ensures Inv(r) && r.isActive && r.isPaused && !r.ticking
    ensures r.distractions == s.distractions + 1
    ensures r == s.(isPaused := true, ticking := false, distractions := r.distractions)
  {
    var t := StopInterval(s);
    t.(isPaused := true, distractions := t.distractions + 1)
  }

  /** handleReset: abandons the session; nothing is recorded. */
  function HandleReset(s: TimerState): (r: TimerState)
    requires Inv(s) && s.isActive
    ensures Inv(r) && !r.isActive && !r.isPaused && !r.ticking
    ensures r.timer == r.initialDuration == s.initialDuration && r.distractions == 0
    ensures r.store == s.store && r.category == s.category
    ensures r == s.(isActive := false, isPaused := false, ticking := false, timer := r.timer, distractions := 0)
  {
    var t := StopInterval(s).(isActive := false, isPaused := false);
    t.(timer := s.initialDuration, distractions := 0)
  }

  /** handleFinish: records the time spent, shows the summary, and readies the next round. */
  function HandleFinish(s: TimerState): (r: TimerState)
    requires Inv(s) && s.isActive
    ensures Inv(r) && !r.isActive && !r.isPaused && !r.ticking
    ensures r.store == s.store + [r.lastSession] && r.modalVisible
    ensures r.lastSession == SessionData(s.initialDuration - s.timer, s.category, s.distractions)
    ensures 0 <= r.lastSession.duration < s.initialDuration
    ensures r.timer == r.initialDuration == s.initialDuration && r.distractions == 0
    ensures r.category == s.category && r.appState == s.appState && r.mounted == s.mounted
  {
    var t := StopInterval(s).(isActive := false, isPaused := false);
    var session := SessionOf(s);
    t.(store := t.store + [session], lastSession := session, modalVisible := true,
       timer := s.initialDuration, distractions := 0)
  }

  /**
    One firing of the interval: the countdown goes down by one second, and a
    firing with at most one second left finishes the session instead, leaving
    the countdown reset for the next round. This is the corrected firing: the
    component's updater also returns 0 after the reset (see TickBodyAsWritten).
   */
  function TickBody(s: TimerState): (r: TimerState)
    requires Inv(s) && s.ticking
    ensures Inv(r) && r.timer >= 0
    ensures s.timer > 1 ==> Running(r) && r.timer == s.timer - 1 && r.store == s.store
    ensures s.timer > 1 ==> r == s.(timer := r.timer)
    ensures s.timer <= 1 ==> !r.isActive && r.store == s.store + [SessionOf(s)]
    ensures s.timer <= 1 ==> r.timer == s.initialDuration && r.modalVisible
    ensures s.timer <= 1 ==> r == HandleFinish(s)
  {
    if s.timer <= 1 then HandleFinish(s) else s.(timer := s.timer - 1)
  }

  /**
    The firing read top to bottom: in the finish branch the updater calls
    handleFinish, which queues the reset of `timer` to `initialDuration`, and
    then returns 0. This is the outcome when React runs the updater at dispatch,
    so that the 0 lands after the reset; when the updater runs during the
    render instead, the reset lands last and the outcome is TickBody's.
   */
  function TickBodyAsWritten(s: TimerState): (r: TimerState)
    requires Inv(s) && s.ticking
    ensures s.timer > 1 ==> r == TickBody(s)
    ensures s.timer <= 1 ==> r == TickBody(s).(timer := 0)
  {
    if s.timer <= 1 then HandleFinish(s).(timer := 0) else s.(timer := s.timer - 1)
  }

  /**
    As written, a session that runs out leaves the idle timer at 0 instead of
    its duration, breaking Inv; a session started from there is finished by its
    first firing, one second later, and recorded at the full duration.
   */
  lemma AutoFinishLeavesIdleAtZero(s: TimerState)
    requires Inv(s) && s.ticking && s.timer <= 1
    ensures var r := TickBodyAsWritten(s);
            && !r.isActive && r.timer == 0 && r.initialDuration == s.initialDuration && !Inv(r)
            && var next := r.(modalVisible := false, isActive := true, ticking := true);
               next.timer <= 1 && SessionOf(next).duration == s.initialDuration
  {
  }

  /** The same, for one concrete state: a 25-minute session running with one second left. */
  lemma AutoFinishExample()
    ensures var s := TimerState(DefaultTime, 1, true, false, 0, DefaultCategory, true, Active, true,
                                [], SessionData(0, "", 0), false);
            && Inv(s) && TickBodyAsWritten(s).timer == 0 && TickBody(s).timer == DefaultTime
  {
  }

  /** The lifecycle listener: pauses a running session when the app leaves the foreground. */
  function OnAppStateChange(s: TimerState, next: AppStatus): (r: TimerState)
    requires Inv(s)
    ensures Inv(r) && r.appState == next && r.store == s.store
    ensures r.distractions == s.distractions + 1 <==> WasForeground(s.appState) && GoesAway(next) && Running(s)
    ensures r.distractions == s.distractions || r.distractions == s.distractions + 1
    ensures WasForeground(s.appState) && GoesAway(next) && Running(s) ==> r == HandlePause(s).(appState := next)
    ensures !(WasForeground(s.appState) && GoesAway(next) && Running(s)) ==> r == s.(appState := next)
  {
    var t := if WasForeground(s.appState) && GoesAway(next) && Running(s) then HandlePause(s) else s;
    t.(appState := next)
  }

  /** Picking a category chip. */
  function SelectCategory(s: TimerState, c: string): (r: TimerState)
    requires Inv(s) && !s.isActive && c in Categories
    ensures Inv(r) && r.category == c
    ensures r == s.(category := c)
  {
    s.(category := c)
  }

  /** Closing the summary modal. */
  function CloseModal(s: TimerState): (r: TimerState)
    requires Inv(s)
    ensures Inv(r) && !r.modalVisible
    ensures r == s.(modalVisible := false)
  {
    s.(modalVisible := false)
  }

  /** Unmounting: the interval is cleared and the lifecycle subscription removed. */
  function Unmount(s: TimerState): (r: TimerState)
    requires Inv(s)
    ensures Inv(r) && !r.ticking && !r.mounted
    ensures r == s.(ticking := false, mounted := false)
  {
    StopInterval(s).(mounted := false)
  }

  /** The touchable controls of the timer and of the summary modal. */
  datatype Button =
    | MinusFive | PlusFive | StartButton | CategoryChip(choice: string)
    | PauseButton | FinishButton | ContinueButton | ResetButton
    | CloseButton

  /**
    The controls on screen in state s: the modal covers the screen while it is
    shown; otherwise idle shows -5, start, +5 and the category chips, running
    shows pause and finish, and paused shows continue, finish and reset.
   */
  predicate Offered(s: TimerState, b: Button): (o: bool)
    ensures s.modalVisible ==> (o <==> b == CloseButton)
    ensures o && b.CategoryChip? ==> b.choice in Categories && !s.isActive
    ensures o && (b == PauseButton || b == FinishButton || b == ContinueButton || b == ResetButton) ==> s.isActive
  {
    if s.modalVisible then b == CloseButton
    else if !s.isActive then
      b == MinusFive || b == PlusFive || b == StartButton || (b.CategoryChip? && b.choice in Categories)
    else if !s.isPaused then b == PauseButton || b == FinishButton
    else b == ContinueButton || b == FinishButton || b == ResetButton
  }

  /** A press: runs the control's handler when the control is on screen, and does nothing otherwise. */
  function Press(s: TimerState, b: Button): (r: TimerState)
    requires Inv(s) && s.mounted
    ensures Inv(r)
    ensures !Offered(s, b) ==> r == s
  {
    if !Offered(s, b) then s
    else match b
      case MinusFive => AdjustTime(s, -AdjustStep)
      case PlusFive => AdjustTime(s, AdjustStep)
      case StartButton => HandleStart(s)
      case ContinueButton => HandleStart(s)
      case PauseButton => HandlePause(s)
      case FinishButton => HandleFinish(s)
      case ResetButton => HandleReset(s)
      case CategoryChip(c) => SelectCategory(s, c)
      case CloseButton => CloseModal(s)
  }

  /** What can happen to the timer. */
  datatype Event =
    | Pressed(button: Button)
    | Elapsed                        // one second passed
    | AppStateChanged(next: AppStatus)
    | Unmounted

  /** One event. Nothing reaches an unmounted timer, and a second passing fires the interval only when it is scheduled. */
  function Step(s: TimerState, e: Event): (r: TimerState)
    requires Inv(s)
    ensures Inv(r)
    ensures r.store == s.store || r.store == s.store + [r.lastSession]
    ensures !s.mounted ==> r == s
  {
    if !s.mounted then s
    else match e
      case Pressed(b) => Press(s, b)
      case Elapsed => if s.ticking then TickBody(s) else s
      case AppStateChanged(next) => OnAppStateChange(s, next)
      case Unmounted => Unmount(s)
  }

  /** A sequence of events, in order; every state it passes through satisfies Inv. */
  function Run(s: TimerState, es: seq<Event>): (r: TimerState)
    requires Inv(s)
    ensures Inv(r)
    ensures s.store <= r.store
    decreases |es|
  {
    if es == [] then s else Run(Step(s, es[0]), es[1..])
  }

  // ---------------------------------------------------------------------
  // Properties of single events

  /** The events that finish a session: the finish button, or the interval firing with one second left. */
  predicate Finishes(s: TimerState, e: Event) {
    s.mounted && ((e == Pressed(FinishButton) && s.isActive) || (e == Elapsed && s.ticking && s.timer <= 1))
  }

  /** The events that pause a session: the pause button, or the app leaving the foreground. */
  predicate Pauses(s: TimerState, e: Event) {
    s.mounted && Running(s) &&
    (e == Pressed(PauseButton) || (e.AppStateChanged? && WasForeground(s.appState) && GoesAway(e.next)))
  }

  /** Exactly one record per finish, and none for any other event (reset included). */
  lemma StepRecordsOnlyOnFinish(s: TimerState, e: Event)
    requires Inv(s)
    ensures Step(s, e).store == s.store + (if Finishes(s, e) then [SessionOf(s)] else [])
  {
  }

  /** Exactly one distraction per pause, and no other event adds one. */
  lemma StepCountsOneDistractionPerPause(s: TimerState, e: Event)
    requires Inv(s)
    ensures Pauses(s, e) ==> Step(s, e).distractions == s.distractions + 1
    ensures Step(s, e).distractions > s.distractions ==> Pauses(s, e)
  {
  }

  /** The category changes only from an idle timer, which stays idle. */
  lemma CategoryChangesOnlyWhileIdle(s: TimerState, e: Event)
    requires Inv(s)
    ensures Step(s, e).category != s.category ==> !s.isActive && !Step(s, e).isActive
  {
  }

  /** The duration changes only from an idle timer, and then the countdown restarts from it. */
  lemma DurationChangesOnlyWhileIdle(s: TimerState, e: Event)
    requires Inv(s)
    ensures Step(s, e).initialDuration != s.initialDuration ==>
              !s.isActive && !Step(s, e).isActive && Step(s, e).timer == Step(s, e).initialDuration
  {
  }

  /** Every way out of running (pause, finish, reset, unmount) leaves no interval scheduled. */
  lemma LeavingRunningStopsTick(s: TimerState, e: Event)
    requires Inv(s) && Running(s) && !Running(Step(s, e))
    ensures !Step(s, e).ticking
  {
  }

  /** The summary shown after a finish reads back the duration, category and count just recorded. */
  lemma FinishShowsSession(s: TimerState)
    requires Inv(s) && s.isActive
    ensures var r := HandleFinish(s);
            && r.modalVisible && r.store[|r.store| - 1] == r.lastSession
            && ParseTime(SummaryRows(r.lastSession)[0].1) == Some(s.initialDuration - s.timer)
            && SummaryRows(r.lastSession)[1].1 == s.category
            && ParseNat(SummaryRows(r.lastSession)[2].1) == Some(s.distractions)
  {
    var session := HandleFinish(s).lastSession;
    assert session == SessionData(s.initialDuration - s.timer, s.category, s.distractions);
    SummaryShowsSession(session);
  }

  /** Which handler each on-screen control can reach, by phase. */
  lemma ControlsByPhase(s: TimerState)
    requires Inv(s)
    ensures Offered(s, PauseButton) <==> Running(s)
    ensures Offered(s, FinishButton) <==> s.isActive
    ensures Offered(s, ResetButton) || Offered(s, ContinueButton) <==> s.isPaused
    ensures Offered(s, StartButton) || Offered(s, MinusFive) || Offered(s, PlusFive) <==> !s.isActive && !s.modalVisible
  {
  }

  // ---------------------------------------------------------------------
  // Properties of event sequences

  /** The events that deliver the given lifecycle statuses, in order. */
  function AppEvents(ns: seq<AppStatus>): (es: seq<Event>)
    ensures |es| == |ns|
  {
    if ns == [] then [] else [AppStateChanged(ns[0])] + AppEvents(ns[1..])
  }

  /** n seconds passing. */
  function Ticks(n: nat): (es: seq<Event>)
    ensures |es| == n
  {
    if n == 0 then [] else [Elapsed] + Ticks(n - 1)
  }

  /** Lifecycle notifications leave a timer that is not running exactly as it is, apart from appState. */
  lemma {:induction false} AppEventsWhileStopped(s: TimerState, ns: seq<AppStatus>)
    requires Inv(s) && !Running(s)
    ensures Run(s, AppEvents(ns)).distractions == s.distractions
    ensures !Running(Run(s, AppEvents(ns)))
    ensures Run(s, AppEvents(ns)).store == s.store
    decreases |ns|
  {
    if ns != [] {
      var es := AppEvents(ns);
      assert es[1..] == AppEvents(ns[1..]);
      AppEventsWhileStopped(Step(s, es[0]), ns[1..]);
    }
  }

  /** Any burst of lifecycle notifications pauses at most once: at most one distraction, and no record. */
  lemma {:induction false} AppEventsPauseAtMostOnce(s: TimerState, ns: seq<AppStatus>)
    requires Inv(s)
    ensures Run(s, AppEvents(ns)).distractions <= s.distractions + 1
    ensures Run(s, AppEvents(ns)).store == s.store
    decreases |ns|
  {
    if ns != [] {
      var es := AppEvents(ns);
      assert es[1..] == AppEvents(ns[1..]);
      var s1 := Step(s, es[0]);
      if !Running(s1) {
        AppEventsWhileStopped(s1, ns[1..]);
      } else {
        AppEventsPauseAtMostOnce(s1, ns[1..]);
      }
    }
  }

  /** A running session with t seconds left finishes on the t-th second, having counted down to 1. */
  lemma {:induction false} Countdown(s: TimerState, t: nat)
    requires Inv(s) && s.mounted && Running(s) && s.timer == t
    ensures Run(s, Ticks(t)) == HandleFinish(s.(timer := 1))
    decreases t
  {
    var s1 := Step(s, Elapsed);
    assert Ticks(t)[0] == Elapsed && Ticks(t)[1..] == Ticks(t - 1);
    if t > 1 {
      Countdown(s1, t - 1);
      assert s1.(timer := 1) == s.(timer := 1);
    } else {
      assert s.(timer := 1) == s;
      assert Ticks(t - 1) == [];
    }
  }

  /**
    Starting an idle timer and letting every second of the session pass records
    exactly one session and returns to idle with the countdown reset. Because
    the last firing finishes with one second still on the clock, the recorded
    duration is one second short of the configured length.
   */
  lemma UninterruptedSession(s: TimerState)
    requires Inv(s) && s.mounted && !s.isActive && !s.modalVisible
    ensures var r := Run(s, [Pressed(StartButton)] + Ticks(s.initialDuration));
            && r.store == s.store + [SessionData(s.initialDuration - 1, s.category, 0)]
            && !r.isActive && !r.ticking && r.modalVisible
            && r.timer == r.initialDuration == s.initialDuration && r.distractions == 0
  {
    var es := [Pressed(StartButton)] + Ticks(s.initialDuration);
    var s1 := Step(s, Pressed(StartButton));
    assert s1 == HandleStart(s);
    assert es[1..] == Ticks(s.initialDuration);
    Countdown(s1, s.initialDuration);
  }

  /** Every record a run adds is well formed: non-negative duration and count, a known category. */
  predicate WellFormed(d: SessionData) {
    d.duration >= 0 && d.distractions >= 0 && d.category in Categories
  }

  lemma {:induction false} RunAppendsWellFormed(s: TimerState, es: seq<Event>)
    requires Inv(s)
    ensures forall i :: |s.store| <= i < |Run(s, es).store| ==> WellFormed(Run(s, es).store[i])
    decreases |es|
  {
    if es != [] {
      var s1 := Step(s, es[0]);
      StepRecordsOnlyOnFinish(s, es[0]);
      RunAppendsWellFormed(s1, es[1..]);
    }
  }

  // ---------------------------------------------------------------------
  // The timer's own formatTime: "<minutes>:<seconds>", seconds padded to two digits

  /**
    For a non-negative count the text is the minutes, ":", then the seconds as
    exactly two digits: tens (0 below 10) then units.
   */
  function FormatClock(seconds: int): (t: string)
    ensures seconds >= 0 ==>
              t == NatToString(seconds / 60) + ":" + [DigitChar(seconds % 60 / 10), DigitChar(seconds % 60 % 10)]
  {
    var mins := FloorDiv(seconds, 60);
    var secs := Rem(seconds, 60);
    assert seconds >= 0 && secs >= 10 ==> NatToString(secs) == NatToString(secs / 10) + [DigitChar(secs % 10)];
    IntToString(mins) + ":" + (if secs < 10 then "0" else "") + IntToString(secs)
  }


  /** Reads "<digits>:<digit><digit>" back into a number of seconds. */
  function ParseClock(t: string): Option<nat> {
    var k := LeadingDigits(t);
    if k >= 1 && |t| == k + 3 && t[k] == ':' && IsDigit(t[k + 1]) && IsDigit(t[k + 2])
    then Some(DigitsValue(t[..k]) * 60 + DigitValue(t[k + 1]) * 10 + DigitValue(t[k + 2]))
    else None
  }


  /** The clock text loses nothing: minutes * 60 + seconds reads back to the input. */
  lemma ClockRoundTrip(seconds: nat)
    ensures ParseClock(FormatClock(seconds)) == Some(seconds)
  {
    var a := NatToString(seconds / 60);
    var secs := seconds % 60;
    var tail := [':', DigitChar(secs / 10), DigitChar(secs % 10)];
    var t := FormatClock(seconds);
    assert t == a + tail;
    LeadingDigitsOfConcat(a, tail);
    NatToStringRoundTrip(seconds / 60);
  }
}
