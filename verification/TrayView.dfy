/** The tray's view model as a fold over the client's events. */
module TrayView {
  import opened Basics
  import opened Framing
  import opened Protocol
  import opened TrayActor
  import opened TrayRuns
  import opened TrayEvents

  datatype ConnectionState =
    | NotConnected
    | ShowsDaemon
    | Mismatch(daemon: int, tray: int)

  datatype View = View(
    connectionState: ConnectionState,
    daemonStatus: string,
    processed: int,
    dryRun: bool,
    recentFiles: seq<RecentFile>,
    rules: seq<RuleInfo>,
    version: string)

  const BLANK := View(NotConnected, "Disconnected", 0, false, [], [], "")

  function Apply(v: View, event: Event): View {
    match event
    case Connected => v
    case Disconnected => View(NotConnected, "Disconnected", 0, false, [], [], v.version)
    case ProtocolMismatch(daemonVersion) => v.(connectionState := Mismatch(daemonVersion, SUPPORTED_VERSION))
    case NewState(s) => View(ShowsDaemon, s.status, s.processed, s.dryRun, s.recentFiles, s.rules, s.version)
  }

  function Show(events: seq<Event>): View {
    if events == [] then BLANK else Apply(Show(events[..|events| - 1]), events[|events| - 1])
  }

  predicate IsConnected(v: View) {
    v.connectionState.ShowsDaemon?
  }

  predicate ShowsExactly(v: View, s: AppState) {
    && v.daemonStatus == s.status && v.processed == s.processed && v.dryRun == s.dryRun
    && v.recentFiles == s.recentFiles && v.rules == s.rules && v.version == s.version
  }

  /**
    For any events at all: the view is connected exactly when the last event other than `Connected`
    is a snapshot, and then every field it shows is that snapshot's.
  */
  lemma {:induction false} ConnectedShowsLastSnapshot(events: seq<Event>)
    ensures IsConnected(Show(events)) <==>
      exists i :: 0 <= i < |events| && events[i].NewState? && forall j :: i < j < |events| ==> events[j].Connected?
    ensures forall i ::
      0 <= i < |events| && events[i].NewState? && (forall j :: i < j < |events| ==> events[j].Connected?) ==>
        ShowsExactly(Show(events), events[i].state)
    decreases |events|
  {
    if events != [] {
      var n := |events| - 1;
      var shorter, last := events[..n], events[n];
      ConnectedShowsLastSnapshot(shorter);
      assert forall i :: 0 <= i < n ==> shorter[i] == events[i];
      if last.Connected? {
        if IsConnected(Show(shorter)) {
          var i :| 0 <= i < n && shorter[i].NewState? && forall j :: i < j < n ==> shorter[j].Connected?;
          assert events[i].NewState? && forall j :: i < j < |events| ==> events[j].Connected?;
        }
        forall i | 0 <= i < |events| && events[i].NewState? && (forall j :: i < j < |events| ==> events[j].Connected?)
          ensures IsConnected(Show(shorter)) && ShowsExactly(Show(shorter), events[i].state)
        {
          assert shorter[i].NewState? && forall j :: i < j < n ==> shorter[j].Connected?;
        }
      } else if last.NewState? {
        assert forall j :: n < j < |events| ==> events[j].Connected?;
      }
    }
  }

  /** After a disconnect nothing of the last snapshot is shown any more but the daemon's version. */
  lemma {:induction false} DisconnectClears(events: seq<Event>, i: nat)
    requires i < |events| && events[i].Disconnected? && forall j :: i < j < |events| ==> events[j].Connected?
    ensures var v := Show(events);
      && v.connectionState == NotConnected && v.daemonStatus == "Disconnected" && v.processed == 0 && !v.dryRun
      && v.recentFiles == [] && v.rules == [] && v.version == Show(events[..i]).version
    decreases |events|
  {
    var shorter := events[..|events| - 1];
    if i < |shorter| {
      DisconnectClears(shorter, i);
      assert shorter[..i] == events[..i];
    } else {
      assert shorter == events[..i];
    }
  }

  /** Before the first snapshot nothing but a mismatch is shown. */
  lemma {:induction false} NothingBeforeSnapshot(events: seq<Event>)
    requires forall i :: 0 <= i < |events| ==> !events[i].NewState?
    ensures var v := Show(events);
      && !IsConnected(v) && v.daemonStatus == "Disconnected" && v.processed == 0 && !v.dryRun
      && v.recentFiles == [] && v.rules == [] && v.version == ""
      && ((forall i :: 0 <= i < |events| ==> !events[i].ProtocolMismatch?) ==> v.connectionState == NotConnected)
  {
    if events != [] {
      NothingBeforeSnapshot(events[..|events| - 1]);
    }
  }

  lemma {:induction false} SnapshotIsLast(events: seq<Event>)
    requires Judge(events) != Broken && IsConnected(Show(events))
    ensures |events| > 0 && events[|events| - 1].NewState? && Judge(events) == Up
    decreases |events|
  {
    var last := events[|events| - 1];
    if last.Connected? {
      SnapshotIsLast(events[..|events| - 1]);
      assert false;
    }
  }

  // ---- a view connected to a client that has given up ----

  /** Behind a refused hello and before any other the chunk holds a snapshot that is accepted. */
  predicate DeceivedBy(handshakeDone: bool, messages: seq<Message>, j: int) {
    && 0 <= j < |messages| && messages[j].Snapshot? && Greeted(handshakeDone, messages[..j])
    && (exists i :: 0 <= i < j && Refused(messages[i]))
    && (forall i :: j < i < |messages| ==> !Refused(messages[i]))
  }

  predicate Deceived(handshakeDone: bool, messages: seq<Message>) {
    exists j :: 0 <= j < |messages| && DeceivedBy(handshakeDone, messages, j)
  }

  /** The version of the last mismatch reported. */
  function LastMismatch(events: seq<Event>): Option<int> {
    if events == [] then None
    else if events[|events| - 1].ProtocolMismatch? then Some(events[|events| - 1].daemonVersion)
    else LastMismatch(events[..|events| - 1])
  }

  lemma {:induction false} AppendRefused(h: bool, shorter: seq<Message>, m: Message)
    requires Refused(m)
    ensures !Deceived(h, shorter + [m])
  {
    var all := shorter + [m];
    assert Refused(all[|shorter|]);
  }

  lemma {:induction false} AppendSnapshot(h: bool, shorter: seq<Message>, m: Message)
    requires m.Snapshot? && Greeted(h, shorter)
    ensures Deceived(h, shorter + [m]) <==> !NoRefusal(shorter)
  {
    var all := shorter + [m];
    assert all[..|shorter|] == shorter;
    if x :| x in shorter && Refused(x) {
      var i :| 0 <= i < |shorter| && shorter[i] == x;
      assert Refused(all[i]);
      assert DeceivedBy(h, all, |shorter|);
    }
    if j :| DeceivedBy(h, all, j) {
      var i :| 0 <= i < j && Refused(all[i]);
      assert shorter[i] in shorter;
    }
  }

  lemma {:induction false} AppendSilent(h: bool, shorter: seq<Message>, m: Message)
    requires !Refused(m) && !(m.Snapshot? && Greeted(h, shorter))
    ensures Deceived(h, shorter + [m]) <==> Deceived(h, shorter)
  {
    var all := shorter + [m];
    assert all[..|shorter|] == shorter;
    forall j
      ensures DeceivedBy(h, all, j) <==> DeceivedBy(h, shorter, j)
    {
      if 0 <= j < |shorter| {
        assert all[..j] == shorter[..j];
        assert forall i :: 0 <= i < |shorter| ==> all[i] == shorter[i];
      }
    }
  }

  predicate EndsConnected(events: seq<Event>) {
    events != [] && events[|events| - 1].Connected?
  }

  /** What is known of a connected client `a` that has worked through the messages and become `b`. */
  ghost predicate ViewVerdict(a: Actor, messages: seq<Message>, b: Actor) {
    && b.handshakeDone == Greeted(a.handshakeDone, messages)
    && (b.connection.Some? <==> NoRefusal(messages))
    && (b.connection.None? ==>
          LastMismatch(b.events).Some? && !EndsConnected(b.events)
          && Show(b.events).connectionState ==
               if Deceived(a.handshakeDone, messages) then ShowsDaemon
               else Mismatch(LastMismatch(b.events).value, SUPPORTED_VERSION))
  }

  lemma {:induction false} OneMoreMessage(a: Actor, shorter: seq<Message>, b: Actor, m: Message)
    requires ViewVerdict(a, shorter, b)
    ensures ViewVerdict(a, shorter + [m], ProcessMessage(b, m))
  {
    var h, all, c := a.handshakeDone, shorter + [m], ProcessMessage(b, m);
    assert forall x :: x in all <==> x in shorter || x == m;
    assert Greeted(h, all) <==> Greeted(h, shorter) || Accepted(m) by {
      assert forall i :: 0 <= i < |shorter| ==> all[i] == shorter[i];
      assert all[|shorter|] == m;
    }
    assert c.events != b.events ==> c.events[..|b.events|] == b.events;
    if Refused(m) {
      AppendRefused(h, shorter, m);
    } else if m.Snapshot? && Greeted(h, shorter) {
      AppendSnapshot(h, shorter, m);
    } else {
      AppendSilent(h, shorter, m);
    }
  }

  /**
    One chunk at a connected client that ends with the connection given up: the view says connected
    exactly if the chunk deceives it, and shows the last refused version otherwise.
  */
  lemma {:induction false} ViewAfterChunk(a: Actor, messages: seq<Message>)
    requires a.connection.Some?
    ensures ViewVerdict(a, messages, ProcessAll(a, messages))
  {
    if messages != [] {
      var n := |messages| - 1;
      var shorter := messages[..n];
      ViewAfterChunk(a, shorter);
      assert messages == shorter + [messages[n]];
      ProcessAllAppend(a, shorter, [messages[n]]);
      var b := ProcessAll(a, shorter);
      assert [messages[n]][1..] == [];
      var c := ProcessMessage(b, messages[n]);
      assert ProcessAll(b, [messages[n]]) == ProcessAll(c, []) == c;
      OneMoreMessage(a, shorter, b, messages[n]);
    }
  }

  // ---- whole runs ----

  /** The action makes the client process a chunk that deceives the view. */
  predicate DeceivingStep(decode: Decoder, w: World, action: Action) {
    var a := w.actor;
    && action.ReceiveCallback? && action.gen in a.receives && action.gen == a.generation && !a.stopped
    && action.data != [] && Deceived(a.handshakeDone, Completed(decode, a.pending, action.data))
  }

  predicate DeceivedRun(decode: Decoder, w: World, actions: seq<Action>)
    decreases |actions|
  {
    actions != [] &&
      (DeceivingStep(decode, w, actions[0]) || DeceivedRun(decode, Step(decode, w, actions[0]), actions[1..]))
  }

  lemma {:induction false} DeceivedIsNotQuiet(h: bool, messages: seq<Message>)
    requires Deceived(h, messages)
    ensures !Quiet(h, messages)
  {
    var j :| 0 <= j < |messages| && DeceivedBy(h, messages, j);
    var i :| 0 <= i < j && Refused(messages[i]);
    assert messages[j].Snapshot?;
  }

  lemma {:induction false} DeceivingIsLoud(decode: Decoder, w: World, action: Action)
    ensures DeceivingStep(decode, w, action) ==> !QuietStep(decode, w, action)
  {
    if DeceivingStep(decode, w, action) {
      DeceivedIsNotQuiet(w.actor.handshakeDone, Completed(decode, w.actor.pending, action.data));
    }
  }

  lemma {:induction false} LoudRefuses(h: bool, messages: seq<Message>)
    requires !Quiet(h, messages)
    ensures !NoRefusal(messages)
  {
    var i, j :| 0 <= i < j < |messages| && Refused(messages[i])
      && !(!Refused(messages[j]) && (messages[j].Snapshot? ==> !Greeted(h, messages[..j])));
    assert messages[i] in messages;
  }

  lemma {:induction false} NotDeceivedAgain(decode: Decoder, w: World, actions: seq<Action>)
    requires Inv(w) && Finished(w)
    ensures !DeceivedRun(decode, w, actions)
    decreases |actions|
  {
    if actions != [] {
      StepKeepsInv(decode, w, actions[0]);
      FinishedStays(decode, w, actions[..1]);
      assert From(decode, w, actions[..1]) == From(decode, Step(decode, w, actions[0]), actions[..1][1..]);
      NotDeceivedAgain(decode, Step(decode, w, actions[0]), actions[1..]);
    }
  }

  /** The chunk of this step is not quiet: it ends the client, and the view says what the chunk makes of it. */
  lemma {:induction false} LoudStep(decode: Decoder, w: World, action: Action)
    requires Inv(w) && GrammarInv(w) && !QuietStep(decode, w, action)
    ensures var v := Step(decode, w, action);
      && Inv(v) && Finished(v) && LastMismatch(v.actor.events).Some? && !EndsConnected(v.actor.events)
      && Show(v.actor.events).connectionState ==
           if DeceivingStep(decode, w, action) then ShowsDaemon
           else Mismatch(LastMismatch(v.actor.events).value, SUPPORTED_VERSION)
  {
    var a := w.actor;
    var r := a.(receives := a.receives - multiset{action.gen});
    var c := r.(pending := Rest(a.pending + action.data));
    var messages := Completed(decode, a.pending, action.data);
    StepKeepsInv(decode, w, action);
    StepGrammar(decode, w, action);
    ViewAfterChunk(c, messages);
    LoudRefuses(a.handshakeDone, messages);
  }

  lemma {:induction false} QuietEnd(events: seq<Event>, i: nat)
    requires Judge(events) != Broken && i < |events| && events[i].ProtocolMismatch?
    ensures Show(events).connectionState == Mismatch(events[i].daemonVersion, SUPPORTED_VERSION)
    ensures LastMismatch(events) == Some(events[i].daemonVersion)
  {
    MismatchKills(events, i);
  }

  lemma {:induction false} LastMismatchIsThere(events: seq<Event>) returns (i: int)
    requires LastMismatch(events).Some?
    ensures 0 <= i < |events| && events[i] == ProtocolMismatch(LastMismatch(events).value)
  {
    i := |events| - 1;
    if !events[i].ProtocolMismatch? {
      i := LastMismatchIsThere(events[..i]);
    }
  }

  lemma {:induction false} ViewOfRun(decode: Decoder, w: World, actions: seq<Action>)
    requires Inv(w) && GrammarInv(w)
    ensures var v := From(decode, w, actions); var view := Show(v.actor.events);
      && (IsConnected(view) && !v.actor.ready <==> DeceivedRun(decode, w, actions))
      && (IsConnected(view) ==> !EndsConnected(v.actor.events))
      && (LastMismatch(v.actor.events).Some? ==>
            view.connectionState ==
              if DeceivedRun(decode, w, actions) then ShowsDaemon
              else Mismatch(LastMismatch(v.actor.events).value, SUPPORTED_VERSION))
    decreases |actions|
  {
    if actions == [] {
      if IsConnected(Show(w.actor.events)) {
        SnapshotIsLast(w.actor.events);
      }
      if LastMismatch(w.actor.events).Some? {
        var i := LastMismatchIsThere(w.actor.events);
        QuietEnd(w.actor.events, i);
      }
    } else {
      var action := actions[0];
      var v := Step(decode, w, action);
      StepKeepsInv(decode, w, action);
      StepGrammar(decode, w, action);
      DeceivingIsLoud(decode, w, action);
      if QuietStep(decode, w, action) {
        ViewOfRun(decode, v, actions[1..]);
      } else {
        LoudStep(decode, w, action);
        FinishedStays(decode, v, actions[1..]);
        NotDeceivedAgain(decode, v, actions[1..]);
        RunKeepsInv(decode, v, actions[1..]);
      }
    }
  }

  /**
    In every run a connected view shows the last snapshot emitted, and means that the connection is
    ready -- exactly unless some chunk has deceived it: then the client has given up for good.
  */
  lemma {:induction false} ConnectedViewMeansReady(decode: Decoder, actions: seq<Action>)
    ensures var a := After(decode, actions).actor; var view := Show(a.events);
      && (IsConnected(view) && !a.ready <==> DeceivedRun(decode, NEW_WORLD, actions))
      && (IsConnected(view) ==>
            && |a.events| > 0 && a.events[|a.events| - 1].NewState?
            && ShowsExactly(view, a.events[|a.events| - 1].state))
  {
    var a := After(decode, actions).actor;
    ViewOfRun(decode, NEW_WORLD, actions);
    ConnectedShowsLastSnapshot(a.events);
  }

  /**
    Once a mismatch has been emitted, in any run: the view never changes again. It shows the last
    refused version, exactly unless a chunk has deceived it: then it says connected for good.
  */
  lemma {:induction false} MismatchIsAbsorbing(decode: Decoder, actions: seq<Action>, later: seq<Action>, i: nat)
    requires i < |After(decode, actions).actor.events| && After(decode, actions).actor.events[i].ProtocolMismatch?
    ensures var events := After(decode, actions).actor.events;
      && LastMismatch(events).Some?
      && Show(After(decode, actions + later).actor.events) == Show(events)
      && Show(events).connectionState ==
           if DeceivedRun(decode, NEW_WORLD, actions) then ShowsDaemon
           else Mismatch(LastMismatch(events).value, SUPPORTED_VERSION)
  {
    MismatchIsFinal(decode, actions, later, i);
    ViewOfRun(decode, NEW_WORLD, actions);
    MismatchIsFound(After(decode, actions).actor.events, i);
  }

  lemma {:induction false} MismatchIsFound(events: seq<Event>, i: nat)
    requires i < |events| && events[i].ProtocolMismatch?
    ensures LastMismatch(events).Some?
  {
    if !events[|events| - 1].ProtocolMismatch? {
      MismatchIsFound(events[..|events| - 1], i);
    }
  }

  class TrayViewModel {
    var connectionState: ConnectionState
    var daemonStatus: string
    var processed: int
    var dryRun: bool
    var recentFiles: seq<RecentFile>
    var rules: seq<RuleInfo>
    var version: string

    ghost function Value(): View
      reads this
    {
      View(connectionState, daemonStatus, processed, dryRun, recentFiles, rules, version)
    }

    constructor ()
      ensures Value() == BLANK
    {
      connectionState, daemonStatus, processed, dryRun := NotConnected, "Disconnected", 0, false;
      recentFiles, rules, version := [], [], "";
    }

    method Update(state: AppState)
      modifies this
      ensures Value() == Apply(old(Value()), NewState(state))
    {
      connectionState := ShowsDaemon;
      daemonStatus := state.status;
      processed := state.processed;
      dryRun := state.dryRun;
      recentFiles := state.recentFiles;
      rules := state.rules;
      version := state.version;
    }

    method SetDisconnected()
      modifies this
      ensures Value() == Apply(old(Value()), Disconnected)
    {
      connectionState := NotConnected;
      daemonStatus := "Disconnected";
      processed := 0;
      dryRun := false;
      recentFiles := [];
      rules := [];
    }

    method SetProtocolMismatch(daemon: int, tray: int)
      modifies this
      ensures Value() == old(Value()).(connectionState := Mismatch(daemon, tray))
      ensures tray == SUPPORTED_VERSION ==> Value() == Apply(old(Value()), ProtocolMismatch(daemon))
    {
      connectionState := Mismatch(daemon, tray);
    }

    /** The event loop of the application delegate, over the events received so far. */
    method Consume(events: seq<Event>)
      requires Value() == BLANK
      modifies this
      ensures Value() == Show(events)
    {
      for i := 0 to |events|
        invariant Value() == Show(events[..i])
      {
        assert events[..i + 1][..i] == events[..i];
        match events[i] {
          case Connected =>
          case Disconnected => SetDisconnected();
          case ProtocolMismatch(v) => SetProtocolMismatch(v, SUPPORTED_VERSION);
          case NewState(s) => Update(s);
        }
      }
      assert events[..|events|] == events;
    }
  }
}
