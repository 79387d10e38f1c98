/**
  What the tray makes of one connection's byte stream: the events depend on the bytes only, not on
  how the network cuts them into chunks, exactly when the stream as a whole is quiet.
*/
module TrayStream {
  import opened Basics
  import opened Framing
  import opened Protocol
  import opened TrayActor
  import opened TrayRuns
  import opened TrayEvents

  function Receives(gen: nat, chunks: seq<Bytes>): (actions: seq<Action>)
    ensures |actions| == |chunks|
  {
    if chunks == [] then [] else [ReceiveCallback(gen, chunks[0], false)] + Receives(gen, chunks[1..])
  }

  /** What may come between the receives of the ready connection `gen` without closing it. */
  predicate Harmless(gen: nat, action: Action) {
    match action
    case Stop => false
    case StateCallback(g, state) => g < gen || (g == gen && (state.Setup? || state.Preparing? || state.Ready?))
    case ReceiveCallback(g, _, _) => g < gen
    case _ => true
  }

  /** The actions receive the chunks on connection `gen`, in order, with harmless actions in between. */
  predicate Delivers(gen: nat, actions: seq<Action>, chunks: seq<Bytes>)
    decreases |actions|
  {
    if actions == [] then chunks == []
    else if Harmless(gen, actions[0]) then Delivers(gen, actions[1..], chunks)
    else
      chunks != [] && actions[0] == ReceiveCallback(gen, chunks[0], false) && Delivers(gen, actions[1..], chunks[1..])
  }

  lemma {:induction false} ReceivesDeliver(gen: nat, chunks: seq<Bytes>)
    ensures Delivers(gen, Receives(gen, chunks), chunks)
  {
    if chunks != [] {
      assert Receives(gen, chunks)[1..] == Receives(gen, chunks[1..]);
      ReceivesDeliver(gen, chunks[1..]);
    }
  }

  lemma {:induction false} HarmlessStep(decode: Decoder, w: World, action: Action)
    requires Inv(w) && GrammarInv(w) && w.actor.ready && Harmless(w.actor.generation, action)
    ensures var v := Step(decode, w, action);
      Inv(v) && GrammarInv(v) && v.actor == w.actor.(receives := v.actor.receives)
  {
    StepKeepsInv(decode, w, action);
    StepGrammar(decode, w, action);
  }

  lemma {:induction false} GreetedAppend(h: bool, m: seq<Message>, n: seq<Message>)
    ensures Greeted(h, m + n) <==> Greeted(Greeted(h, m), n)
  {
    if i :| 0 <= i < |m| && Accepted(m[i]) {
      assert Accepted((m + n)[i]);
    }
    if i :| 0 <= i < |n| && Accepted(n[i]) {
      assert Accepted((m + n)[|m| + i]);
    }
  }

  /** Both parts of a quiet stream are quiet, the second one as the first one leaves the handshake. */
  lemma {:induction false} QuietSplit(h: bool, m: seq<Message>, n: seq<Message>)
    requires Quiet(h, m + n)
    ensures Quiet(h, m)
    ensures Quiet(Greeted(h, m), n)
  {
    var all := m + n;
    forall i, j | 0 <= i < j < |m| && Refused(m[i])
      ensures !Refused(m[j]) && (m[j].Snapshot? ==> !Greeted(h, m[..j]))
    {
      assert Refused(all[i]) && all[j] == m[j] && all[..j] == m[..j];
    }
    forall i, j | 0 <= i < j < |n| && Refused(n[i])
      ensures !Refused(n[j]) && (n[j].Snapshot? ==> !Greeted(Greeted(h, m), n[..j]))
    {
      assert Refused(all[|m| + i]) && all[|m| + j] == n[j] && all[..|m| + j] == m + n[..j];
      GreetedAppend(h, m, n[..j]);
    }
  }

  lemma {:induction false} EmittedAppend(h: bool, m: seq<Message>, n: seq<Message>)
    ensures Emitted(h, m + n) ==
      Emitted(h, m) + if NoRefusal(m) then Emitted(Greeted(h, m), n) else []
    decreases |m|
  {
    if m == [] {
      assert m + n == n;
    } else {
      var tail := m[1..];
      assert m == [m[0]] + tail;
      assert (m + n)[1..] == tail + n;
      GreetedCons(h, m[0], tail);
      EmittedAppend(h || Accepted(m[0]), tail, n);
      NoRefusalCons(m[0], tail);
    }
  }

  /** The messages completed by a first chunk and those completed by the rest of the stream. */
  lemma {:induction false} CompletedAppend(decode: Decoder, pending: Bytes, first: Bytes, more: Bytes)
    ensures Completed(decode, pending, first + more) ==
      Completed(decode, pending, first) + Completed(decode, Rest(pending + first), more)
  {
    ConcatAssoc(pending, first, more);
    SplitAppend(pending + first, more);
    DecodedAppend(decode, Lines(pending + first), Lines(Rest(pending + first) + more));
  }

  /** One chunk, delivered to the receive the client is waiting for. */
  lemma {:induction false} FirstChunk(decode: Decoder, w: World, chunk: Bytes)
    requires Inv(w) && GrammarInv(w) && w.actor.ready
    requires Quiet(w.actor.handshakeDone, Completed(decode, w.actor.pending, chunk))
    ensures var v := Step(decode, w, ReceiveCallback(w.actor.generation, chunk, false));
      var messages := Completed(decode, w.actor.pending, chunk);
      && Inv(v) && GrammarInv(v)
      && v.actor.events == w.actor.events + Emitted(w.actor.handshakeDone, messages)
      && (if NoRefusal(messages) then
            v.actor.ready && v.actor.generation == w.actor.generation
            && v.actor.handshakeDone == Greeted(w.actor.handshakeDone, messages)
            && v.actor.pending == Rest(w.actor.pending + chunk)
          else v.actor.generation > w.actor.generation && Judge(v.actor.events) == Dead)
  {
    var a := w.actor;
    var g := a.generation;
    var r := a.(receives := a.receives - multiset{g});
    var s := r.(pending := Rest(r.pending + chunk));
    var messages := Completed(decode, a.pending, chunk);
    StepKeepsInv(decode, w, ReceiveCallback(g, chunk, false));
    StepGrammar(decode, w, ReceiveCallback(g, chunk, false));
    if chunk == [] {
      assert a.pending + chunk == a.pending;
      SplitIsUnique(a.pending, [], a.pending);
    } else {
      ProcessAllEffect(s, messages);
      LiveChunk(s, messages);
    }
  }

  /** A quiet stream cut after its first chunk: both parts are quiet and emit what the whole emits. */
  lemma {:induction false} CutStream(decode: Decoder, h: bool, pending: Bytes, first: Bytes, more: Bytes)
    requires Quiet(h, Completed(decode, pending, first + more))
    ensures var m, n := Completed(decode, pending, first), Completed(decode, Rest(pending + first), more);
      && Quiet(h, m) && Quiet(Greeted(h, m), n)
      && (NoRefusal(Completed(decode, pending, first + more)) <==> NoRefusal(m) && NoRefusal(n))
      && Emitted(h, Completed(decode, pending, first + more)) ==
           Emitted(h, m) + if NoRefusal(m) then Emitted(Greeted(h, m), n) else []
  {
    var m, n := Completed(decode, pending, first), Completed(decode, Rest(pending + first), more);
    CompletedAppend(decode, pending, first, more);
    QuietSplit(h, m, n);
    EmittedAppend(h, m, n);
  }

  /**
    A quiet stream emits what its messages call for, however it is cut and whatever harmless
    callbacks, wake-ups or starts come in between.
  */
  lemma {:induction false} QuietStream(decode: Decoder, w: World, actions: seq<Action>, chunks: seq<Bytes>)
    requires Inv(w) && GrammarInv(w) && w.actor.ready && Delivers(w.actor.generation, actions, chunks)
    requires Quiet(w.actor.handshakeDone, Completed(decode, w.actor.pending, Flatten(chunks)))
    ensures var b := From(decode, w, actions).actor;
      var messages := Completed(decode, w.actor.pending, Flatten(chunks));
      && b.events == w.actor.events + Emitted(w.actor.handshakeDone, messages)
      && (if NoRefusal(messages) then b.ready && b.generation == w.actor.generation else b.connection.None?)
    decreases |actions|
  {
    var a := w.actor;
    if actions == [] {
      assert a.pending + Flatten(chunks) == a.pending;
      SplitIsUnique(a.pending, [], a.pending);
    } else if Harmless(a.generation, actions[0]) {
      HarmlessStep(decode, w, actions[0]);
      QuietStream(decode, Step(decode, w, actions[0]), actions[1..], chunks);
    } else {
      var c, tail := chunks[0], chunks[1..];
      CutStream(decode, a.handshakeDone, a.pending, c, Flatten(tail));
      FirstChunk(decode, w, c);
      var v := Step(decode, w, actions[0]);
      var m, n := Completed(decode, a.pending, c), Completed(decode, Rest(a.pending + c), Flatten(tail));
      var head, last := Emitted(a.handshakeDone, m), Emitted(Greeted(a.handshakeDone, m), n);
      if NoRefusal(m) {
        QuietStream(decode, v, actions[1..], tail);
        ConcatAssoc(a.events, head, last);
      } else {
        assert head + [] == head;
        FinishedStays(decode, v, actions[1..]);
      }
    }
  }

  /** The same, the last receive reporting the end of the connection along with its chunk if `ended`. */
  predicate Serves(gen: nat, actions: seq<Action>, chunks: seq<Bytes>, ended: bool) {
    if !ended then Delivers(gen, actions, chunks)
    else actions != [] && var n := |actions| - 1;
      && actions[n].ReceiveCallback? && actions[n].ended && actions[n].gen == gen
      && Delivers(gen, actions[..n] + [actions[n].(ended := false)], chunks)
  }

  /** Reporting the end along with the last chunk adds a disconnect if the connection is still open after it. */
  lemma {:induction false} EndingStep(decode: Decoder, w: World, gen: nat, data: Bytes)
    requires Inv(w)
    ensures var open := Step(decode, w, ReceiveCallback(gen, data, false)).actor;
      var closed := Step(decode, w, ReceiveCallback(gen, data, true)).actor;
      && (open.ready && open.generation == gen ==> closed.events == open.events + [Disconnected])
      && (open.connection.None? ==> closed.events == open.events)
  {
    ProcessChunkEffect(w.actor.(receives := w.actor.receives - multiset{gen}), decode, data);
  }

  lemma {:induction false} LastAction(decode: Decoder, w: World, init: seq<Action>, last: Action)
    ensures From(decode, w, init + [last]) == Step(decode, From(decode, w, init), last)
  {
    RunAppend(decode, w, init, [last]);
    assert [last][1..] == [];
  }

  lemma {:induction false} EndedStream(decode: Decoder, w: World, init: seq<Action>, last: Bytes, chunks: seq<Bytes>)
    requires var g := w.actor.generation;
      Inv(w) && GrammarInv(w) && w.actor.ready && Delivers(g, init + [ReceiveCallback(g, last, false)], chunks)
    requires Quiet(w.actor.handshakeDone, Completed(decode, w.actor.pending, Flatten(chunks)))
    ensures var messages := Completed(decode, w.actor.pending, Flatten(chunks));
      From(decode, w, init + [ReceiveCallback(w.actor.generation, last, true)]).actor.events ==
        w.actor.events + Emitted(w.actor.handshakeDone, messages) + if NoRefusal(messages) then [Disconnected] else []
  {
    var g := w.actor.generation;
    QuietStream(decode, w, init + [ReceiveCallback(g, last, false)], chunks);
    LastAction(decode, w, init, ReceiveCallback(g, last, true));
    LastAction(decode, w, init, ReceiveCallback(g, last, false));
    RunKeepsInv(decode, w, init);
    EndingStep(decode, From(decode, w, init), g, last);
  }

  /** What a served quiet stream emits, with the disconnect its end adds if it was not refused. */
  lemma {:induction false} ServedStream(decode: Decoder, w: World, actions: seq<Action>, chunks: seq<Bytes>,
                                        ended: bool)
    requires Inv(w) && GrammarInv(w) && w.actor.ready && Serves(w.actor.generation, actions, chunks, ended)
    requires Quiet(w.actor.handshakeDone, Completed(decode, w.actor.pending, Flatten(chunks)))
    ensures var messages := Completed(decode, w.actor.pending, Flatten(chunks));
      From(decode, w, actions).actor.events ==
        w.actor.events + Emitted(w.actor.handshakeDone, messages)
        + if ended && NoRefusal(messages) then [Disconnected] else []
  {
    if ended {
      var n := |actions| - 1;
      assert actions == actions[..n] + [actions[n]];
      EndedStream(decode, w, actions[..n], actions[n].data, chunks);
    } else {
      QuietStream(decode, w, actions, chunks);
    }
  }

  lemma RunCons(decode: Decoder, w: World, gen: nat, c: Bytes, tail: seq<Bytes>)
    ensures From(decode, w, Receives(gen, [c] + tail)) ==
      From(decode, Step(decode, w, ReceiveCallback(gen, c, false)), Receives(gen, tail))
  {
    assert ([c] + tail)[1..] == tail;
    assert Receives(gen, [c] + tail)[1..] == Receives(gen, tail);
  }

  // ---- byte by byte ----

  function SingleBytes(data: Bytes): (chunks: seq<Bytes>)
    ensures |chunks| == |data|
  {
    if data == [] then [] else [[data[0]]] + SingleBytes(data[1..])
  }

  lemma {:induction false} SingleBytesFlatten(data: Bytes)
    ensures Flatten(SingleBytes(data)) == data
  {
    if data != [] {
      assert SingleBytes(data)[1..] == SingleBytes(data[1..]);
      SingleBytesFlatten(data[1..]);
      assert data == [data[0]] + data[1..];
    }
  }

  /** One byte completes at most one message. */
  lemma {:induction false} OneByteOneMessage(decode: Decoder, pending: Bytes, b: Byte)
    requires NewlineFree(pending)
    ensures |Completed(decode, pending, [b])| <= 1
  {
    if b == NEWLINE {
      assert pending + [b] == Frame([pending]) + [];
      SplitIsUnique(pending + [b], [pending], []);
      assert Decoded(decode, [pending][1..]) == [];
    } else {
      SplitIsUnique(pending + [b], [], pending + [b]);
    }
  }

  /** Received byte by byte every stream, quiet or not, emits what its messages call for. */
  lemma {:induction false} ByteByByte(decode: Decoder, w: World, data: Bytes)
    requires Inv(w) && GrammarInv(w) && w.actor.ready
    ensures From(decode, w, Receives(w.actor.generation, SingleBytes(data))).actor.events ==
      w.actor.events + Emitted(w.actor.handshakeDone, Completed(decode, w.actor.pending, data))
    decreases |data|
  {
    var a := w.actor;
    if data == [] {
      assert a.pending + data == a.pending;
      SplitIsUnique(a.pending, [], a.pending);
    } else {
      var c, tail := [data[0]], data[1..];
      assert data == c + tail;
      OneByteOneMessage(decode, a.pending, data[0]);
      FirstChunk(decode, w, c);
      RunCons(decode, w, a.generation, c, SingleBytes(tail));
      CompletedAppend(decode, a.pending, c, tail);
      var v := Step(decode, w, ReceiveCallback(a.generation, c, false));
      var m, n := Completed(decode, a.pending, c), Completed(decode, Rest(a.pending + c), tail);
      var head, last := Emitted(a.handshakeDone, m), Emitted(Greeted(a.handshakeDone, m), n);
      EmittedAppend(a.handshakeDone, m, n);
      if NoRefusal(m) {
        ByteByByte(decode, v, tail);
        ConcatAssoc(a.events, head, last);
      } else {
        assert head + [] == head;
        FinishedStays(decode, v, Receives(a.generation, SingleBytes(tail)));
      }
    }
  }

  // ---- exactly when the cut does not matter ----

  /** Every delivery of the data leads to these events. */
  ghost predicate AlwaysLeadsTo(decode: Decoder, w: World, data: Bytes, events: seq<Event>) {
    forall actions, chunks :: Delivers(w.actor.generation, actions, chunks) && Flatten(chunks) == data ==>
      From(decode, w, actions).actor.events == events
  }

  /** All deliveries of the data lead to the same events. */
  ghost predicate CutFree(decode: Decoder, w: World, data: Bytes) {
    exists events :: AlwaysLeadsTo(decode, w, data, events)
  }

  /**
    A client that is ready emits the same events for all deliveries of the bytes it receives if and
    only if the messages are quiet, and then the events the messages call for.
  */
  lemma {:induction false} ChunkingDoesNotMatter(decode: Decoder, actions: seq<Action>, data: Bytes)
    requires After(decode, actions).actor.ready && data != []
    ensures var w := After(decode, actions); var a := w.actor;
      var messages := Completed(decode, a.pending, data);
      && (Quiet(a.handshakeDone, messages) <==> CutFree(decode, w, data))
      && (Quiet(a.handshakeDone, messages) <==>
            AlwaysLeadsTo(decode, w, data, a.events + Emitted(a.handshakeDone, messages)))
  {
    var w := After(decode, actions);
    var a := w.actor;
    var expected := a.events + Emitted(a.handshakeDone, Completed(decode, a.pending, data));
    RunKeepsInv(decode, NEW_WORLD, actions);
    OpenMeansQuiet(decode, actions);
    if Quiet(a.handshakeDone, Completed(decode, a.pending, data)) {
      forall served, chunks | Delivers(a.generation, served, chunks) && Flatten(chunks) == data
        ensures From(decode, w, served).actor.events == expected
      {
        QuietStream(decode, w, served, chunks);
      }
      assert AlwaysLeadsTo(decode, w, data, expected);
    } else {
      assert Flatten([data]) == data + Flatten([]);
      ReceivesDeliver(a.generation, [data]);
      ReceivesDeliver(a.generation, SingleBytes(data));
      SingleBytesFlatten(data);
      OneChunkTellsAll(decode, w, data);
      ByteByByte(decode, w, data);
      forall events
        ensures !AlwaysLeadsTo(decode, w, data, events)
      {
      }
    }
  }

  /** Delivered as one chunk, a stream that is not quiet emits something else. */
  lemma {:induction false} OneChunkTellsAll(decode: Decoder, w: World, data: Bytes)
    requires Inv(w) && GrammarInv(w) && w.actor.ready && data != []
    requires !Quiet(w.actor.handshakeDone, Completed(decode, w.actor.pending, data))
    ensures From(decode, w, Receives(w.actor.generation, [data])).actor.events !=
      w.actor.events + Emitted(w.actor.handshakeDone, Completed(decode, w.actor.pending, data))
  {
    var a := w.actor;
    var r := a.(receives := a.receives - multiset{a.generation});
    RunCons(decode, w, a.generation, data, []);
    assert [data] + [] == [data];
    LiveChunk(r.(pending := Rest(r.pending + data)), Completed(decode, a.pending, data));
  }

  /** A stream with at most one hello, none once greeted, is quiet. */
  lemma {:induction false} OneHelloIsQuiet(h: bool, messages: seq<Message>)
    requires forall i, j :: 0 <= i < j < |messages| ==> !(messages[i].Hello? && messages[j].Hello?)
    requires h ==> forall m :: m in messages ==> !m.Hello?
    ensures Quiet(h, messages)
  {
    forall i, j | 0 <= i < j < |messages| && Refused(messages[i])
      ensures !Refused(messages[j]) && (messages[j].Snapshot? ==> !Greeted(h, messages[..j]))
    {
      assert messages[i] in messages;
      forall k | 0 <= k < j
        ensures !Accepted(messages[..j][k])
      {
        assert messages[..j][k] == messages[k];
      }
    }
  }
}
