/**
  The timer component as an object whose handlers update its fields in place.
  The fields are the component's state and refs; `ticking` stands for the
  interval ref being non-null, and `store` for the session table that
  `handleFinish` inserts into. Every handler is proved to move the object
  from one state to the state the matching function of `TimerMachine`
  computes, and to keep the machine's invariant.
 */
module TimerButton {
  import opened SessionSummaryModal
  import TimerMachine

  class Timer {
    var initialDuration: int
    var timer: int
    var isActive: bool
    var isPaused: bool
    var distractions: int
    var category: string
    var ticking: bool
    var appState: TimerMachine.AppStatus
    var mounted: bool
    var store: seq<SessionData>
    var lastSession: SessionData
    var modalVisible: bool

    /** The fields, as one value. */
    function State(): TimerMachine.TimerState
      reads this
    {
      TimerMachine.TimerState(initialDuration, timer, isActive, isPaused, distractions, category,
                              ticking, appState, mounted, store, lastSession, modalVisible)
    }

    predicate Valid()
      reads this
    {
      TimerMachine.Inv(State())
    }

    /** Mounting, with the current lifecycle status and the records already stored. */
    constructor (app: TimerMachine.AppStatus, records: seq<SessionData>)
      ensures Valid() && State() == TimerMachine.Initial(app, records)
    {
      initialDuration, timer := TimerMachine.DefaultTime, TimerMachine.DefaultTime;
      isActive, isPaused := false, false;
      ticking := false;
      appState := app;
      category := TimerMachine.DefaultCategory;
      distractions := 0;
      modalVisible := false;
      lastSession := SessionData(0, "", 0);
      store := records;
      mounted := true;
    }

    method StopInterval()
      modifies this`ticking
      ensures !ticking
      ensures State() == TimerMachine.StopInterval(old(State()))
    {
      if ticking {
        ticking := false;
      }
    }

    method AdjustTime(minutes: int)
      requires Valid() && !isActive && minutes % TimerMachine.AdjustStep == 0
      modifies this
      ensures Valid() && State() == TimerMachine.AdjustTime(old(State()), minutes)
    {
      var newDuration := initialDuration + minutes * 60;
      if TimerMachine.MinDuration >= newDuration {
        newDuration := TimerMachine.MinDuration;
      }
      timer := newDuration;
      initialDuration := newDuration;
    }

    method HandleStart()
      requires Valid() && mounted && !modalVisible && !TimerMachine.Running(State())
      modifies this
      ensures Valid() && State() == TimerMachine.HandleStart(old(State()))
    {
      isActive := true;
      isPaused := false;
      ticking := true;
    }

    method HandlePause()
      requires Valid() && TimerMachine.Running(State())
      modifies this
      ensures Valid() && State() == TimerMachine.HandlePause(old(State()))
    {
      StopInterval();
      isPaused := true;
      distractions := distractions + 1;
    }

    method HandleReset()
      requires Valid() && isActive
      modifies this
      ensures Valid() && State() == TimerMachine.HandleReset(old(State()))
    {
      StopInterval();
      isActive := false;
      isPaused := false;
      timer := initialDuration;
      distractions := 0;
    }

    method HandleFinish()
      requires Valid() && isActive
      modifies this
      ensures Valid() && State() == TimerMachine.HandleFinish(old(State()))
    {
      StopInterval();
      isActive := false;
      isPaused := false;
      var duration := initialDuration - timer;
      var session := SessionData(duration, category, distractions);
      store := store + [session];
      lastSession := session;
      modalVisible := true;
      timer := initialDuration;
      distractions := 0;
    }

    /**
      The interval callback, as the corrected firing `TimerMachine.TickBody`:
      a finish leaves the countdown at the full duration. It reads the current
      fields; the component's callback reads the values of the render in which
      start was pressed.
     */
    method TickBody()
      requires Valid() && ticking
      modifies this
      ensures Valid() && State() == TimerMachine.TickBody(old(State()))
    {
      if timer <= 1 {
        HandleFinish();
      } else {
        timer := timer - 1;
      }
    }

    /** The lifecycle listener. */
    method OnAppStateChange(next: TimerMachine.AppStatus)
      requires Valid()
      modifies this
      ensures Valid() && State() == TimerMachine.OnAppStateChange(old(State()), next)
    {
      if TimerMachine.WasForeground(appState) && TimerMachine.GoesAway(next) {
        if isActive && !isPaused {
          HandlePause();
        }
      }
      appState := next;
    }

    method SelectCategory(c: string)
      requires Valid() && !isActive && c in TimerMachine.Categories
      modifies this
      ensures Valid() && State() == TimerMachine.SelectCategory(old(State()), c)
    {
      category := c;
    }

    method CloseModal()
      requires Valid()
      modifies this
      ensures Valid() && State() == TimerMachine.CloseModal(old(State()))
    {
      modalVisible := false;
    }

    method Unmount()
      requires Valid()
      modifies this
      ensures Valid() && State() == TimerMachine.Unmount(old(State()))
    {
      StopInterval();
      mounted := false;
    }

    /** A press on a control, which reaches its handler only while the control is on screen. */
    method Press(b: TimerMachine.Button)
      requires Valid() && mounted
      modifies this
      ensures Valid() && State() == TimerMachine.Press(old(State()), b)
    {
      if !TimerMachine.Offered(State(), b) {
        return;
      }
      match b
      case MinusFive => AdjustTime(-TimerMachine.AdjustStep);
      case PlusFive => AdjustTime(TimerMachine.AdjustStep);
      case StartButton => HandleStart();
      case ContinueButton => HandleStart();
      case PauseButton => HandlePause();
      case FinishButton => HandleFinish();
      case ResetButton => HandleReset();
      case CategoryChip(c) => SelectCategory(c);
      case CloseButton => CloseModal();
    }

    /** One event reaching the mounted component. */
    method Dispatch(e: TimerMachine.Event)
      requires Valid()
      modifies this
      ensures Valid() && State() == TimerMachine.Step(old(State()), e)
    {
      if !mounted {
        return;
      }
      match e
      case Pressed(b) => Press(b);
      case Elapsed =>
        if ticking {
          TickBody();
        }
      case AppStateChanged(next) => OnAppStateChange(next);
      case Unmounted => Unmount();
    }
  }
}
