/**
  The config watcher's debounce: reload runs 300 ms after the last relevant event -- the first time.
  The channel variable is cleared when a reload runs and set only when the timer is created, so no
  later event can trigger a reload again.
*/
module ConfigWatch {
  import opened Basics

  const DEBOUNCE := 300   // milliseconds

  /** A timer: armed until its deadline, then with a value in its channel until that is taken. */
  datatype Timer = Timer(deadline: nat, armed: bool, fired: bool)

  datatype State = State(
    now: nat,
    timer: Option<Timer>,
    listening: bool,             // reloadCh is not nil
    lastEvent: Option<nat>,      // time of the last relevant event handled
    reloads: seq<nat>)           // times at which reload was called

  const START := State(0, None, false, None, [])

  datatype Action =
    | Pass(ms: nat)
    | Expire           // the runtime puts the timer's value into its channel
    | Relevant         // a relevant event is handled
    | Irrelevant
    | TakeTick         // the select loop receives from reloadCh

  function ScheduleReload(s: State): State {
    match s.timer
    case None => s.(timer := Some(Timer(s.now + DEBOUNCE, true, false)), listening := true)
    case Some(_) => s.(timer := Some(Timer(s.now + DEBOUNCE, true, false)))
  }

  function Step(s: State, action: Action): State {
    match action
    case Pass(ms) => s.(now := s.now + ms)
    case Expire =>
      if s.timer.Some? && s.timer.value.armed && s.timer.value.deadline <= s.now
      then s.(timer := Some(Timer(s.timer.value.deadline, false, true)))
      else s
    case Relevant => ScheduleReload(s).(lastEvent := Some(s.now))
    case Irrelevant => s
    case TakeTick =>
      if s.listening && s.timer.Some? && s.timer.value.fired
      then s.(timer := Some(s.timer.value.(fired := false)), listening := false, reloads := s.reloads + [s.now])
      else s
  }

  function From(s: State, actions: seq<Action>): State
    decreases |actions|
  {
    if actions == [] then s else From(Step(s, actions[0]), actions[1..])
  }

  ghost predicate Inv(s: State) {
    && |s.reloads| <= 1
    && (s.listening ==> s.timer.Some? && s.reloads == [])
    && (if s.timer.Some? then s.listening || s.reloads != [] else s.reloads == [])
    && (s.timer.Some? && s.timer.value.armed ==> !s.timer.value.fired)
    && (s.timer.Some? <==> s.lastEvent.Some?)
    && (s.timer.Some? ==> s.timer.value.deadline == s.lastEvent.value + DEBOUNCE)
    && (s.timer.Some? && s.timer.value.fired ==> s.timer.value.deadline <= s.now)
    && (s.lastEvent.Some? ==> s.lastEvent.value <= s.now)
  }

  lemma {:induction false} RunKeepsInv(s: State, actions: seq<Action>)
    requires Inv(s)
    ensures Inv(From(s, actions)) && s.reloads <= From(s, actions).reloads
    decreases |actions|
  {
    if actions != [] {
      RunKeepsInv(Step(s, actions[0]), actions[1..]);
    }
  }

  /** A reload runs no earlier than 300 ms after the last relevant event handled before it. */
  lemma {:induction false} ReloadsWait(actions: seq<Action>)
    ensures var s := From(START, actions); var t := Step(s, TakeTick);
      t.reloads != s.reloads ==>
        s.lastEvent.Some? && t.reloads == s.reloads + [s.now] && s.lastEvent.value + 300 <= s.now
  {
    RunKeepsInv(START, actions);
  }

  predicate LeadsToReload(s: State, later: seq<Action>) {
    From(s, later).reloads != s.reloads
  }

  /** A reload can still happen exactly as long as none has: the second edit of the file is never picked up. */
  lemma {:induction false} ReloadsOnlyOnce(actions: seq<Action>)
    ensures var s := From(START, actions);
      && |s.reloads| <= 1
      && (s.reloads == [] <==> exists later :: LeadsToReload(s, later))
  {
    RunKeepsInv(START, actions);
    var s := From(START, actions);
    if s.reloads == [] {
      var later := [Relevant, Pass(DEBOUNCE), Expire, TakeTick];
      var s1 := Step(s, Relevant);
      var s2 := Step(s1, Pass(DEBOUNCE));
      var s3 := Step(s2, Expire);
      assert From(s3, [TakeTick]) == Step(s3, TakeTick);
      assert [Expire, TakeTick][1..] == [TakeTick] && later[2..] == [Expire, TakeTick];
      assert later[1..][1..] == later[2..];
      assert From(s, later) == From(s1, later[1..]) == From(s2, later[2..]) == From(s3, [TakeTick]);
      assert From(s, later).reloads == s.reloads + [s2.now];
      assert LeadsToReload(s, later);
    } else {
      forall later
        ensures !LeadsToReload(s, later)
      {
        RunKeepsInv(s, later);
      }
    }
  }

  class Debouncer {
    var now: nat
    var reloadTimer: Option<Timer>
    var reloadCh: bool
    var lastEvent: Option<nat>
    var reloads: seq<nat>

    ghost function View(): State
      reads this
    {
      State(now, reloadTimer, reloadCh, lastEvent, reloads)
    }

    constructor ()
      ensures View() == START
    {
      now, reloadTimer, reloadCh, lastEvent, reloads := 0, None, false, None, [];
    }

    method HandleEvent()
      requires Inv(View())
      modifies this
      ensures View() == Step(old(View()), Relevant)
    {
      lastEvent := Some(now);
      if reloadTimer.None? {
        reloadTimer := Some(Timer(now + DEBOUNCE, true, false));
        reloadCh := true;
        return;
      }
      var timer := reloadTimer.value;
      if !timer.armed {
        timer := timer.(fired := false);   // Stop came too late: drain the channel
      }
      reloadTimer := Some(timer.(deadline := now + DEBOUNCE, armed := true));
    }

    /** The branch of the select loop that receives from reloadCh; only enabled when it can receive. */
    method HandleTick()
      modifies this
      ensures View() == Step(old(View()), TakeTick)
    {
      if reloadCh && reloadTimer.Some? && reloadTimer.value.fired {
        reloadTimer := Some(reloadTimer.value.(fired := false));
        reloadCh := false;
        reloads := reloads + [now];
      }
    }
  }
}
