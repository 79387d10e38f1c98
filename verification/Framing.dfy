/**
  Newline framing of the tray/daemon socket: the daemon appends one newline to every
  encoded message, the tray's LineBuffer cuts the byte stream back into lines.
*/
module Framing {
  import opened Basics

  newtype Byte = x: int | 0 <= x < 256
  type Bytes = seq<Byte>

  const NEWLINE: Byte := 10

  predicate NewlineFree(s: Bytes) {
    forall k :: 0 <= k < |s| ==> s[k] != NEWLINE
  }

  /** Index of the first newline, or the length when there is none. */
  function FirstNewline(s: Bytes): (i: nat)
    ensures i <= |s| && NewlineFree(s[..i])
    ensures i < |s| ==> s[i] == NEWLINE
  {
    if s == [] || s[0] == NEWLINE then 0 else 1 + FirstNewline(s[1..])
  }

  /** What the daemon puts on the wire for a list of encoded messages. */
  function Frame(messages: seq<Bytes>): Bytes {
    if messages == [] then [] else messages[0] + [NEWLINE] + Frame(messages[1..])
  }

  /** The complete lines of a stream, without their newlines. */
  function Lines(s: Bytes): seq<Bytes>
    decreases |s|
  {
    var i := FirstNewline(s);
    if i == |s| then [] else [s[..i]] + Lines(s[i + 1..])
  }

  /** The unterminated tail of a stream. */
  function Rest(s: Bytes): Bytes
    decreases |s|
  {
    var i := FirstNewline(s);
    if i == |s| then s else Rest(s[i + 1..])
  }

  /** Reference meaning of splitting: `lines` framed, then `rest`, give back the stream. */
  ghost predicate IsSplit(s: Bytes, lines: seq<Bytes>, rest: Bytes) {
    && s == Frame(lines) + rest
    && NewlineFree(rest)
    && forall line :: line in lines ==> NewlineFree(line)
  }

  lemma FrameCons(m: Bytes, ms: seq<Bytes>)
    ensures Frame([m] + ms) == m + [NEWLINE] + Frame(ms)
  {
    assert ([m] + ms)[1..] == ms;
  }

  /** Splitting is faithful: nothing of the stream is lost or invented. */
  lemma {:induction false} SplitIsFaithful(s: Bytes)
    ensures IsSplit(s, Lines(s), Rest(s))
    decreases |s|
  {
    var i := FirstNewline(s);
    if i == |s| {
      assert s[..i] == s;
    } else {
      var m, tail := s[..i], s[i + 1..];
      SplitIsFaithful(tail);
      FrameCons(m, Lines(tail));
      ConcatAssoc(m + [NEWLINE], Frame(Lines(tail)), Rest(tail));
      assert s == (m + [NEWLINE]) + tail;
    }
  }

  /** Splitting is determined: any faithful split is the one computed. */
  lemma {:induction false} SplitIsUnique(s: Bytes, lines: seq<Bytes>, rest: Bytes)
    requires IsSplit(s, lines, rest)
    ensures Lines(s) == lines && Rest(s) == rest
    decreases |lines|
  {
    if lines == [] {
      assert s == rest;
    } else {
      var i := |lines[0]|;
      var tail := Frame(lines[1..]) + rest;
      assert s == lines[0] + [NEWLINE] + tail;
      assert s[..i] == lines[0] && s[i] == NEWLINE && s[i + 1..] == tail;
      assert lines[0] in lines;
      assert FirstNewline(s) == i;
      assert forall line :: line in lines[1..] ==> line in lines;
      SplitIsUnique(tail, lines[1..], rest);
    }
  }

  lemma {:induction false} FrameAppend(a: seq<Bytes>, b: seq<Bytes>)
    ensures Frame(a + b) == Frame(a) + Frame(b)
  {
    if a == [] {
      assert a + b == b;
    } else {
      assert (a + b)[1..] == a[1..] + b;
      FrameAppend(a[1..], b);
    }
  }

  /** Splitting a stream in two steps gives the same lines and the same tail as splitting it at once. */
  lemma {:induction false} SplitAppend(a: Bytes, b: Bytes)
    ensures Lines(a + b) == Lines(a) + Lines(Rest(a) + b)
    ensures Rest(a + b) == Rest(Rest(a) + b)
  {
    var more := Rest(a) + b;
    SplitIsFaithful(a);
    SplitIsFaithful(more);
    FrameAppend(Lines(a), Lines(more));
    ConcatAssoc(Frame(Lines(a)), Rest(a), b);
    ConcatAssoc(Frame(Lines(a)), Frame(Lines(more)), Rest(more));
    SplitIsUnique(a + b, Lines(a) + Lines(more), Rest(more));
  }

  /** The value of a LineBuffer after feeding it chunk after chunk, and all lines it returned. */
  function Feed(pending: Bytes, chunks: seq<Bytes>): (r: (seq<Bytes>, Bytes))
    decreases |chunks|
  {
    if chunks == [] then ([], pending) else
      var (lines, rest) := Feed(Rest(pending + chunks[0]), chunks[1..]);
      (Lines(pending + chunks[0]) + lines, rest)
  }

  /** The chunk boundaries do not matter. */
  lemma {:induction false} FeedIgnoresChunking(pending: Bytes, chunks: seq<Bytes>)
    requires NewlineFree(pending)
    ensures Feed(pending, chunks) == (Lines(pending + Flatten(chunks)), Rest(pending + Flatten(chunks)))
    ensures NewlineFree(Feed(pending, chunks).1)
    decreases |chunks|
  {
    if chunks == [] {
      assert pending + Flatten(chunks) == pending;
      SplitIsUnique(pending, [], pending);
    } else {
      var first := pending + chunks[0];
      SplitIsFaithful(first);
      FeedIgnoresChunking(Rest(first), chunks[1..]);
      assert pending + Flatten(chunks) == first + Flatten(chunks[1..]);
      SplitAppend(first, Flatten(chunks[1..]));
    }
  }

  /** Framing round trip: whatever the chunking, exactly the framed messages come out. */
  lemma {:induction false} FramingRoundTrip(messages: seq<Bytes>, chunks: seq<Bytes>)
    requires forall m :: m in messages ==> NewlineFree(m)
    requires Flatten(chunks) == Frame(messages)
    ensures Feed([], chunks) == (messages, [])
  {
    var s := Frame(messages);
    FeedIgnoresChunking([], chunks);
    assert [] + Flatten(chunks) == s == s + [];
    SplitIsUnique(s, messages, []);
  }

  /** A prefix of a framed stream yields a prefix of the messages, in order and unaltered. */
  lemma {:induction false} TruncatedStream(messages: seq<Bytes>, received: Bytes)
    requires forall m :: m in messages ==> NewlineFree(m)
    requires received <= Frame(messages)
    ensures Lines(received) <= messages
  {
    var s := Frame(messages);
    var missing := s[|received|..];
    assert s == received + missing == s + [];
    SplitIsUnique(s, messages, []);
    SplitAppend(received, missing);
  }

  /** The tray's reassembly buffer. */
  class LineBuffer {
    var pending: Bytes

    constructor ()
      ensures pending == []
    {
      pending := [];
    }

    /** Adds received bytes and takes out every line they complete. */
    method Append(data: Bytes) returns (lines: seq<Bytes>)
      modifies this
      ensures lines == Lines(old(pending) + data)
      ensures pending == Rest(old(pending) + data)
    {
      pending := pending + data;
      ghost var whole := pending;
      lines := [];
      var i := FirstNewline(pending);
      while i < |pending|
        invariant i == FirstNewline(pending)
        invariant Lines(whole) == lines + Lines(pending)
        invariant Rest(whole) == Rest(pending)
        decreases |pending|
      {
        ConcatAssoc(lines, [pending[..i]], Lines(pending[i + 1..]));
        lines := lines + [pending[..i]];
        pending := pending[i + 1..];
        i := FirstNewline(pending);
      }
    }
  }
}
