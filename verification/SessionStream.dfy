/**
 The bytes of a conversation: what a session has written to the shell since it began are the bytes
 of the Data messages that its node handed over, in order, up to the moment it was closed.
 */
module SessionStream {
  import opened Bytes
  import opened EndpointSpec
  import opened KcpMachine
  import opened KcpPair
  import opened KeyOrder
  import opened Options
  import opened SessionTable
  import opened SessionTrace
  import opened Wire

  /** The bytes of one message, if it is Data. */
  function DataIn(message: Message): seq<seq<Byte>> {
    match DecodeSession(message)
    case Some(Data(bytes)) => [bytes]
    case _ => []
  }

  /** The bytes of the Data messages among these, one after the other. */
  function DataOf(messages: seq<Message>): seq<seq<Byte>> {
    if messages == [] then [] else DataOf(messages[..|messages| - 1]) + DataIn(messages[|messages| - 1])
  }

  lemma DataOfMore(messages: seq<Message>, message: Message)
    ensures DataOf(messages + [message]) == DataOf(messages) + DataIn(message)
  {
    assert (messages + [message])[..|messages|] == messages;
  }

  /** A message that a session sends carries its bytes, if it is Data, and otherwise none. */
  lemma SentData(sent: seq<Message>, m: SessionMessage)
    ensures DataOf(sent + [EncodeSession(m)]) == DataOf(sent) + if m.Data? then [m.bytes] else []
  {
    DataOfMore(sent, EncodeSession(m));
    SessionReadsBack(m);
  }

  /** Fewer messages have the data that come first. */
  lemma {:induction false} DataOfPrefix(messages: seq<Message>, more: seq<Message>)
    requires messages <= more
    ensures DataOf(messages) <= DataOf(more)
    decreases |more|
  {
    if messages == more {
    } else {
      DataOfPrefix(messages, more[..|more| - 1]);
    }
  }

  /** What an entry makes of the bytes written to `conv`: they begin with the session. */
  function NextWritten(w: seq<seq<Byte>>, conv: nat, e: Entry): seq<seq<Byte>> {
    if e.convId != conv then w
    else
      match e
      case Entered(_, _) => []
      case WriteSession(_, bytes) => w + [bytes]
      case _ => w
  }

  /** The bytes written to the shell since the latest session of `conv` began. */
  function Written(t: Trace, conv: nat): seq<seq<Byte>> {
    if t == [] then [] else NextWritten(Written(t[..|t| - 1], conv), conv, t[|t| - 1].entry)
  }

  lemma WrittenMore(t: Trace, conv: nat, x: Timed)
    ensures Written(t + [x], conv) == NextWritten(Written(t, conv), conv, x.entry)
  {
    assert (t + [x])[..|t|] == t;
  }

  // ------------------------------------------------------------------ what is told of a session

  /** What is told of the latest session of `conv`, from its entry on, besides its writes. */
  function NextStory(story: Trace, conv: nat, x: Timed): Trace {
    if x.entry.convId != conv || x.entry.WriteSession? then story
    else if x.entry.Entered? then [x]
    else story + [x]
  }

  function Story(t: Trace, conv: nat): Trace {
    if t == [] then [] else NextStory(Story(t[..|t| - 1], conv), conv, t[|t| - 1])
  }

  lemma StoryMore(t: Trace, conv: nat, x: Timed)
    ensures Story(t + [x], conv) == NextStory(Story(t, conv), conv, x)
  {
    assert (t + [x])[..|t|] == t;
  }

  /** The reason of the first Close among these messages, if there is one. */
  function ClosedBy(got: seq<Message>): Option<CloseReason> {
    if got == [] then None
    else
      match ClosedBy(got[..|got| - 1])
      case Some(reason) => Some(reason)
      case None =>
        match DecodeSession(got[|got| - 1])
        case Some(Close(reason)) => Some(reason)
        case _ => None
  }

  /** The messages before the first Close. */
  function BeforeClose(got: seq<Message>): seq<Message> {
    if got == [] || ClosedBy(got).None? then got else BeforeClose(got[..|got| - 1])
  }

  lemma ClosedByMore(got: seq<Message>, message: Message)
    ensures ClosedBy(got + [message]) ==
      if ClosedBy(got).Some? then ClosedBy(got)
      else match DecodeSession(message) case Some(Close(reason)) => Some(reason) case _ => None
    ensures BeforeClose(got + [message])
      == if ClosedBy(got + [message]).None? then got + [message] else BeforeClose(got)
  {
    assert (got + [message])[..|got|] == got;
  }

  predicate Opened(got: seq<Message>) { got != [] && DecodeSession(got[0]) == Some(Open) }

  /** When a closing session gives up: counted from the last thing told of it. */
  function GivesUp(c: Config, story: Trace): Option<nat>
    requires story != []
  {
    Some(story[|story| - 1].time + c.closeDeadlineMs)
  }

  /** A session that was opened here, or whose first message was Open; it has been told so. */
  predicate Visible(conv: nat, got: seq<Message>, story: Trace) {
    || (|story| == 1 && story[0].entry == Entered(conv, true))
    || (Opened(got) && |story| == 2 && story[0].entry == Entered(conv, false) && story[1].entry == OpenSession(conv))
  }

  /** Then this was told last. */
  predicate VisibleThen(conv: nat, got: seq<Message>, story: Trace, e: Entry) {
    story != [] && story[|story| - 1].entry == e && Visible(conv, got, story[..|story| - 1])
  }

  /**
   Where a session stands, and what has been told of it, when the messages `got` have been handled:
   a session that a peer entered waits for its first message, which has to be Open; a session is open
   until its first Close comes, and the reason of that is told; or until the shell closes it.
   */
  predicate Standing(
      c: Config, conv: nat, phase: Phase, closeDeadlineAt: Option<nat>, got: seq<Message>, story: Trace)
  {
    match phase
    case PendingRemote =>
      && got == [] && |story| == 1 && story[0].entry == Entered(conv, false)
      && closeDeadlineAt == GivesUp(c, story)
    case Active =>
      Visible(conv, got, story) && ClosedBy(got).None? && closeDeadlineAt.None?
    case ClosingRemote =>
      && ClosedBy(got).Some? && VisibleThen(conv, got, story, CloseSession(conv, ClosedBy(got).value))
      && closeDeadlineAt == GivesUp(c, story)
    case ClosingLocal =>
      VisibleThen(conv, got, story, CloseBegun(conv)) && closeDeadlineAt == GivesUp(c, story)
  }

  // ------------------------------------------------------------------ what has been written

  /** What was written when the messages `got` had been handled. */
  predicate Streaming(phase: Phase, written: seq<seq<Byte>>, got: seq<Message>) {
    match phase
    case PendingRemote => written == [] && DataOf(got) == []
    case Active => written == DataOf(got)
    case ClosingRemote => written == DataOf(BeforeClose(got))
    case ClosingLocal => written <= DataOf(got)
  }

  /** All of it, of one session: its writes and its story, and where they put it. */
  predicate Stands(
      c: Config, conv: nat, phase: Phase, closeDeadlineAt: Option<nat>, written: seq<seq<Byte>>, story: Trace,
      got: seq<Message>)
  {
    Streaming(phase, written, got) && Standing(c, conv, phase, closeDeadlineAt, got, story)
  }

  /** When the messages `got` of a session have been handled. */
  predicate StreamsWith(c: Config, tb: Table, conv: nat, got: seq<Message>)
    requires conv in tb.sessions
  {
    var s := tb.sessions[conv];
    Stands(c, conv, s.phase, s.closeDeadlineAt, Written(tb.trace, conv), Story(tb.trace, conv), got)
  }

  predicate StreamAt(c: Config, tb: Table, conv: nat) {
    conv in tb.sessions ==> StreamsWith(c, tb, conv, tb.sessions[conv].node.got)
  }

  /** Every session has written what it was handed over, and stands where that puts it. */
  ghost predicate Streams(c: Config, tb: Table) { forall conv :: StreamAt(c, tb, conv) }

  /** What a session has written is a beginning of the data it got, and all of it while it is open. */
  lemma WrittenOfGot(c: Config, tb: Table, conv: nat)
    requires conv in tb.sessions && StreamAt(c, tb, conv)
    ensures var s, written := tb.sessions[conv], Written(tb.trace, conv);
            && written <= DataOf(s.node.got) && (s.phase.Active? ==> written == DataOf(s.node.got))
            && (s.phase.ClosingRemote? ==> written == DataOf(BeforeClose(s.node.got)))
  {
    BeforeCloseIsFirst(tb.sessions[conv].node.got);
    DataOfPrefix(BeforeClose(tb.sessions[conv].node.got), tb.sessions[conv].node.got);
  }

  lemma {:induction false} BeforeCloseIsFirst(got: seq<Message>)
    ensures BeforeClose(got) <= got
  {
    if got == [] || ClosedBy(got).None? {
    } else {
      BeforeCloseIsFirst(got[..|got| - 1]);
    }
  }

  // ------------------------------------------------------------------ steps

  /** Between these traces nothing is told or written of `v`. */
  predicate Untold(t: Trace, t': Trace, v: nat) {
    Written(t', v) == Written(t, v) && Story(t', v) == Story(t, v)
  }

  /** Fewer sessions, and nothing told of those that are left. */
  lemma LessStreams(c: Config, tb: Table, tb': Table)
    requires Streams(c, tb)
    requires forall v :: v in tb'.sessions ==>
      v in tb.sessions && tb'.sessions[v] == tb.sessions[v] && Untold(tb.trace, tb'.trace, v)
    ensures Streams(c, tb')
  {
    forall v ensures StreamAt(c, tb', v) {
      assert StreamAt(c, tb, v);
    }
  }

  lemma OthersUntold(t: Trace, x: Timed, v: nat)
    requires v != x.entry.convId
    ensures Untold(t, t + [x], v)
  {
    WrittenMore(t, v, x);
    StoryMore(t, v, x);
  }

  lemma OthersUntoldTwice(t: Trace, x: Timed, y: Timed, v: nat)
    requires v != x.entry.convId && v != y.entry.convId
    ensures Untold(t, t + [x] + [y], v)
  {
    OthersUntold(t, x, v);
    OthersUntold(t + [x], y, v);
  }

  /** The session after something was told of it and nothing else was. */
  predicate ToldOf(tb: Table, tb': Table, conv: nat, x: Timed, phase: Phase, closeDeadlineAt: Option<nat>) {
    && tb'.trace == tb.trace + [x] && x.entry.convId == conv && conv in tb'.sessions
    && tb'.sessions[conv].phase == phase && tb'.sessions[conv].closeDeadlineAt == closeDeadlineAt
  }

  lemma ToldStreams(
      c: Config, tb: Table, tb': Table, conv: nat, x: Timed, phase: Phase, deadline: Option<nat>, got: seq<Message>)
    requires ToldOf(tb, tb', conv, x, phase, deadline)
    requires Stands(c, conv, phase, deadline, NextWritten(Written(tb.trace, conv), conv, x.entry),
                    NextStory(Story(tb.trace, conv), conv, x), got)
    ensures StreamsWith(c, tb', conv, got)
  {
    WrittenMore(tb.trace, conv, x);
    StoryMore(tb.trace, conv, x);
  }

  /** A session that keeps its phase and its deadline, and has got nothing more. */
  lemma PutStreams(c: Config, tb: Table, conv: nat, s: Session)
    requires Streams(c, tb) && conv in tb.sessions
    requires s.phase == tb.sessions[conv].phase && s.closeDeadlineAt == tb.sessions[conv].closeDeadlineAt
    requires s.node.got == tb.sessions[conv].node.got
    ensures Streams(c, tb.Put(conv, s))
  {
    forall v ensures StreamAt(c, tb.Put(conv, s), v) {
      assert StreamAt(c, tb, v);
    }
  }

  lemma FinishStreams(c: Config, tb: Table, now: nat, conv: nat)
    requires Streams(c, tb)
    ensures Streams(c, FinishClosed(tb, now, conv))
  {
    var tb' := FinishClosed(tb, now, conv);
    if tb' != tb {
      forall v | v in tb'.sessions
        ensures v in tb.sessions && tb'.sessions[v] == tb.sessions[v] && Untold(tb.trace, tb'.trace, v)
      {
        FinishUntold(tb, now, conv, v);
      }
      LessStreams(c, tb, tb');
    }
  }

  lemma FinishUntold(tb: Table, now: nat, conv: nat, v: nat)
    requires v != conv
    ensures Untold(tb.trace, FinishClosed(tb, now, conv).trace, v)
  {
    if conv in tb.sessions && Done(tb.sessions[conv], now) {
      var s := tb.sessions[conv];
      if s.phase.ClosingLocal? && s.pendingClose.Some? {
        OthersUntoldTwice(tb.trace, Timed(now, CloseSession(conv, s.pendingClose.value)), Timed(now, Left(conv, true)),
                          v);
      } else {
        OthersUntold(tb.trace, Timed(now, Left(conv, !s.phase.PendingRemote?)), v);
      }
    }
  }

  lemma SubmitsGetsNothing(s: Session, m: SessionMessage, t: Timing)
    requires s.node.kcp.params.Valid()
    ensures Submits(s, m, t).node.got == s.node.got
  {
    DeedWaits(s.node, Submitted(EncodeSession(m)));
    FlushedNowFollows(Do(s.node, Submitted(EncodeSession(m))), t);
  }

  lemma SendStreams(c: Config, tb: Table, now: nat, conv: nat, m: SessionMessage, t: Timing)
    requires conv in tb.sessions && tb.sessions[conv].node.kcp.params.Valid() && Streams(c, tb)
    ensures Streams(c, SendMessage(tb, now, conv, m, t))
  {
    SubmitsGetsNothing(tb.sessions[conv], m, t);
    PutStreams(c, tb, conv, Submits(tb.sessions[conv], m, t));
    FinishStreams(c, tb.Put(conv, Submits(tb.sessions[conv], m, t)), now, conv);
  }

  /** A new session has written nothing and got nothing. */
  lemma EnterStreams(c: Config, tb: Table, now: nat, conv: nat, s: Session, local: bool)
    requires Streams(c, tb) && s.node.got == []
    requires if local then s.phase.Active? && s.closeDeadlineAt.None?
             else s.phase.PendingRemote? && s.closeDeadlineAt == Some(now + c.closeDeadlineMs)
    ensures Streams(c, tb.Put(conv, s).Log(now, Entered(conv, local)))
  {
    var tb' := tb.Put(conv, s).Log(now, Entered(conv, local));
    forall v ensures StreamAt(c, tb', v) {
      var x := Timed(now, Entered(conv, local));
      if v == conv {
        WrittenMore(tb.trace, v, x);
        StoryMore(tb.trace, v, x);
      } else {
        OthersUntold(tb.trace, x, v);
        assert StreamAt(c, tb, v);
      }
    }
  }

  lemma OpenStreams(c: Config, tb: Table, now: nat, conv: nat, t: Timing)
    requires c.Valid() && conv < CONV_SPAN && Streams(c, tb)
    ensures Streams(c, OpenLocal(c, tb, now, conv, t))
  {
    var s := NewSession(c.ParamsFor(conv), Active);
    EnterStreams(c, tb, now, conv, s, true);
    SendStreams(c, tb.Put(conv, s).Log(now, Entered(conv, true)), now, conv, Open, t);
  }

  lemma QueueStreams(c: Config, tb: Table, now: nat, conv: nat, t: Timing)
    requires conv in tb.sessions ==> tb.sessions[conv].node.kcp.params.Valid()
    requires Streams(c, tb)
    ensures Streams(c, QueueClose(c, tb, now, conv, t))
  {
    if ClosesNow(c, tb, now, conv) {
      var s := tb.sessions[conv];
      PutStreams(c, tb, conv, s.(closeQueued := true));
      SendStreams(c, tb.Put(conv, s.(closeQueued := true)), now, conv, Close(s.pendingClose.value), t);
    }
  }

  /** From now on nothing more is written. */
  lemma BeginStreams(c: Config, tb: Table, now: nat, conv: nat, reason: CloseReason)
    requires conv in tb.sessions && tb.sessions[conv].phase.Active? && Streams(c, tb)
    ensures Streams(c, Begun(c, tb, now, conv, reason))
  {
    var x := Timed(now, CloseBegun(conv));
    var tb' := Begun(c, tb, now, conv, reason);
    forall v ensures StreamAt(c, tb', v) {
      assert StreamAt(c, tb, v);
      if v == conv {
        BegunStands(c, tb, now, conv, reason);
      } else {
        OthersUntold(tb.trace, x, v);
      }
    }
  }

  lemma BegunStands(c: Config, tb: Table, now: nat, conv: nat, reason: CloseReason)
    requires conv in tb.sessions && tb.sessions[conv].phase.Active? && StreamAt(c, tb, conv)
    ensures StreamAt(c, Begun(c, tb, now, conv, reason), conv)
  {
    var x, story := Timed(now, CloseBegun(conv)), Story(tb.trace, conv);
    assert (story + [x])[..|story|] == story;
    ToldStreams(c, tb, Begun(c, tb, now, conv, reason), conv, x, ClosingLocal, Some(now + c.closeDeadlineMs),
                tb.sessions[conv].node.got);
  }

  lemma CloseStreams(c: Config, tb: Table, now: nat, conv: nat, reason: CloseReason, t: Timing)
    requires conv in tb.sessions && tb.sessions[conv].phase.Active?
    requires tb.sessions[conv].node.kcp.params.Valid() && Streams(c, tb)
    ensures Streams(c, CloseLocal(c, tb, now, conv, reason, t))
  {
    BeginStreams(c, tb, now, conv, reason);
    QueueStreams(c, Begun(c, tb, now, conv, reason), now, conv, t);
  }

  lemma AdmitStreams(c: Config, tb: Table, now: nat, conv: nat, peerSeq: nat)
    requires Streams(c, tb)
    ensures Streams(c, Admitted(c, tb, now, conv, peerSeq))
  {
    if conv !in tb.sessions {
      EnterStreams(c, tb, now, conv,
        NewSession(c.ParamsFor(conv), PendingRemote).(peerSeq := Some(peerSeq),
                                                      closeDeadlineAt := Some(now + c.closeDeadlineMs)),
        false);
    }
  }

  // ------------------------------------------------------------------ messages

  /** Of what the session has got, these messages have been handled; all others are up to date. */
  ghost predicate StreamsUpTo(c: Config, tb: Table, conv: nat, got: seq<Message>) {
    && (conv in tb.sessions ==> StreamsWith(c, tb, conv, got))
    && forall v :: v != conv ==> StreamAt(c, tb, v)
  }

  lemma HandleOthers(c: Config, tb: Table, now: nat, conv: nat, m: SessionMessage, v: nat)
    requires v != conv && StreamAt(c, tb, v)
    ensures StreamAt(c, HandleMessage(c, tb, now, conv, m), v)
  {
    var tb' := HandleMessage(c, tb, now, conv, m);
    if tb'.trace != tb.trace { OthersUntold(tb.trace, tb'.trace[|tb.trace|], v); }
  }

  /** The first message is Open. */
  lemma OpenStands(
      c: Config, conv: nat, now: nat, deadline: Option<nat>, written: seq<seq<Byte>>, story: Trace,
      got: seq<Message>, message: Message)
    requires Stands(c, conv, PendingRemote, deadline, written, story, got) && DecodeSession(message) == Some(Open)
    ensures Stands(c, conv, Active, None, written, story + [Timed(now, OpenSession(conv))], got + [message])
  {
    DataOfMore(got, message);
    ClosedByMore(got, message);
  }

  lemma DataStands(
      c: Config, conv: nat, deadline: Option<nat>, written: seq<seq<Byte>>, story: Trace,
      got: seq<Message>, message: Message, bytes: seq<Byte>)
    requires Stands(c, conv, Active, deadline, written, story, got) && DecodeSession(message) == Some(Data(bytes))
    ensures Stands(c, conv, Active, deadline, written + [bytes], story, got + [message])
  {
    DataOfMore(got, message);
    ClosedByMore(got, message);
    StillVisible(conv, got, message, story);
  }

  lemma StillVisible(conv: nat, got: seq<Message>, message: Message, story: Trace)
    requires Visible(conv, got, story)
    ensures Visible(conv, got + [message], story)
  {
    assert got != [] ==> (got + [message])[0] == got[0];
  }

  /** The first Close tells its reason, and starts the deadline. */
  lemma CloseStands(
      c: Config, conv: nat, now: nat, deadline: Option<nat>, written: seq<seq<Byte>>, story: Trace,
      got: seq<Message>, message: Message, reason: CloseReason)
    requires Stands(c, conv, Active, deadline, written, story, got) && DecodeSession(message) == Some(Close(reason))
    ensures Stands(c, conv, ClosingRemote, Some(now + c.closeDeadlineMs), written,
                   story + [Timed(now, CloseSession(conv, reason))], got + [message])
  {
    ClosedByMore(got, message);
    StillVisible(conv, got, message, story);
    var x := Timed(now, CloseSession(conv, reason));
    assert (story + [x])[..|story|] == story;
  }

  /** What comes later changes nothing. */
  lemma LateStands(
      c: Config, conv: nat, phase: Phase, deadline: Option<nat>, written: seq<seq<Byte>>, story: Trace,
      got: seq<Message>, message: Message)
    requires Stands(c, conv, phase, deadline, written, story, got)
    requires phase.ClosingLocal? || phase.ClosingRemote? || (phase.Active? && DecodeSession(message) == Some(Open))
    ensures Stands(c, conv, phase, deadline, written, story, got + [message])
  {
    DataOfMore(got, message);
    ClosedByMore(got, message);
    if phase.Active? {
      StillVisible(conv, got, message, story);
    } else {
      StillVisible(conv, got, message, story[..|story| - 1]);
    }
  }

  lemma OpenHandled(c: Config, tb: Table, now: nat, conv: nat, got: seq<Message>, message: Message)
    requires conv in tb.sessions && tb.sessions[conv].phase.PendingRemote?
    requires DecodeSession(message) == Some(Open) && StreamsWith(c, tb, conv, got)
    ensures StreamsWith(c, HandleMessage(c, tb, now, conv, Open), conv, got + [message])
  {
    OpenStands(c, conv, now, tb.sessions[conv].closeDeadlineAt, Written(tb.trace, conv), Story(tb.trace, conv),
               got, message);
    ToldStreams(c, tb, HandleMessage(c, tb, now, conv, Open), conv, Timed(now, OpenSession(conv)), Active, None,
                got + [message]);
  }

  lemma DataHandled(
      c: Config, tb: Table, now: nat, conv: nat, got: seq<Message>, message: Message, bytes: seq<Byte>)
    requires conv in tb.sessions && tb.sessions[conv].phase.Active?
    requires DecodeSession(message) == Some(Data(bytes)) && StreamsWith(c, tb, conv, got)
    ensures StreamsWith(c, HandleMessage(c, tb, now, conv, Data(bytes)), conv, got + [message])
  {
    var deadline := tb.sessions[conv].closeDeadlineAt;
    DataStands(c, conv, deadline, Written(tb.trace, conv), Story(tb.trace, conv), got, message, bytes);
    ToldStreams(c, tb, HandleMessage(c, tb, now, conv, Data(bytes)), conv, Timed(now, WriteSession(conv, bytes)),
                Active, deadline, got + [message]);
  }

  lemma CloseHandled(
      c: Config, tb: Table, now: nat, conv: nat, got: seq<Message>, message: Message, reason: CloseReason)
    requires conv in tb.sessions && tb.sessions[conv].phase.Active?
    requires DecodeSession(message) == Some(Close(reason)) && StreamsWith(c, tb, conv, got)
    ensures StreamsWith(c, HandleMessage(c, tb, now, conv, Close(reason)), conv, got + [message])
  {
    CloseStands(c, conv, now, tb.sessions[conv].closeDeadlineAt, Written(tb.trace, conv), Story(tb.trace, conv),
                got, message, reason);
    ToldStreams(c, tb, HandleMessage(c, tb, now, conv, Close(reason)), conv,
                Timed(now, CloseSession(conv, reason)), ClosingRemote, Some(now + c.closeDeadlineMs), got + [message]);
  }

  lemma LateHandled(c: Config, tb: Table, now: nat, conv: nat, m: SessionMessage, got: seq<Message>, message: Message)
    requires conv in tb.sessions && DecodeSession(message) == Some(m) && StreamsWith(c, tb, conv, got)
    requires var phase := tb.sessions[conv].phase;
             phase.ClosingLocal? || phase.ClosingRemote? || (phase.Active? && m.Open?)
    ensures StreamsWith(c, HandleMessage(c, tb, now, conv, m), conv, got + [message])
  {
    var s := tb.sessions[conv];
    LateStands(c, conv, s.phase, s.closeDeadlineAt, Written(tb.trace, conv), Story(tb.trace, conv), got, message);
    assert HandleMessage(c, tb, now, conv, m) == tb;
  }

  /** What a message does to a session that stands where the messages before it put it. */
  lemma MessageStands(
      c: Config, tb: Table, now: nat, conv: nat, m: SessionMessage, got: seq<Message>, message: Message)
    requires conv in tb.sessions && conv in HandleMessage(c, tb, now, conv, m).sessions
    requires DecodeSession(message) == Some(m) && StreamsWith(c, tb, conv, got)
    ensures StreamsWith(c, HandleMessage(c, tb, now, conv, m), conv, got + [message])
  {
    var phase := tb.sessions[conv].phase;
    if phase.PendingRemote? {
      OpenHandled(c, tb, now, conv, got, message);
    } else if phase.Active? && m.Data? {
      DataHandled(c, tb, now, conv, got, message, m.bytes);
    } else if phase.Active? && m.Close? {
      CloseHandled(c, tb, now, conv, got, message, m.reason);
    } else {
      LateHandled(c, tb, now, conv, m, got, message);
    }
  }

  /** One message is handled: only an open session writes it, and only Data. */
  lemma HandleStreams(c: Config, tb: Table, now: nat, conv: nat, got: seq<Message>, message: Message)
    requires StreamsUpTo(c, tb, conv, got) && DecodeSession(message).Some?
    ensures StreamsUpTo(c, HandleMessage(c, tb, now, conv, DecodeSession(message).value), conv, got + [message])
  {
    var m := DecodeSession(message).value;
    if conv in tb.sessions && conv in HandleMessage(c, tb, now, conv, m).sessions {
      MessageStands(c, tb, now, conv, m, got, message);
    }
    forall v | v != conv ensures StreamAt(c, HandleMessage(c, tb, now, conv, m), v) {
      HandleOthers(c, tb, now, conv, m, v);
    }
  }

  lemma {:induction false} HandleAllStreams(
      c: Config, tb: Table, now: nat, conv: nat, got: seq<Message>, messages: seq<Message>, n: nat)
    requires n <= |messages| && Decodable(messages) && StreamsUpTo(c, tb, conv, got)
    ensures StreamsUpTo(c, HandleMessages(c, tb, now, conv, messages, n), conv, got + messages[..n])
  {
    if n == 0 {
      assert got + messages[..0] == got;
    } else {
      HandleAllStreams(c, tb, now, conv, got, messages, n - 1);
      HandleStreams(c, HandleMessages(c, tb, now, conv, messages, n - 1), now, conv, got + messages[..n - 1],
                    messages[n - 1]);
      assert got + messages[..n] == got + messages[..n - 1] + [messages[n - 1]];
    }
  }

  /** A packet has been read: none of its messages has been handled yet. */
  lemma ReachedStreams(
      c: Config, tb: Table, now: nat, conv: nat, peerSeq: nat, packet: seq<Segment>, t: Timing)
    requires c.Valid() && conv < CONV_SPAN && Streams(c, tb)
    requires conv in tb.sessions ==> tb.sessions[conv].node.kcp.params.Valid()
    ensures var open := Admitted(c, tb, now, conv, peerSeq);
            var s := Reached(c, tb, now, conv, peerSeq, packet, t);
            && StreamsUpTo(c, open.Put(conv, s), conv, open.sessions[conv].node.got)
            && s.node.got == open.sessions[conv].node.got + PacketMessages(c, tb, now, conv, peerSeq, packet, t)
  {
    var open := Admitted(c, tb, now, conv, peerSeq);
    AdmitStreams(c, tb, now, conv, peerSeq);
    assert StreamAt(c, open, conv);
    forall v | v != conv ensures StreamAt(c, open.Put(conv, Reached(c, tb, now, conv, peerSeq, packet, t)), v) {
      assert StreamAt(c, open, v);
    }
    ReceivingFollows(open.sessions[conv].node, packet, t);
  }

  /** Its messages are handled one by one. */
  lemma ReadStreams(
      c: Config, tb: Table, now: nat, conv: nat, peerSeq: nat, packet: seq<Segment>, t: Timing)
    requires c.Valid() && conv < CONV_SPAN && Streams(c, tb)
    requires conv in tb.sessions ==> tb.sessions[conv].node.kcp.params.Valid()
    requires Decodable(PacketMessages(c, tb, now, conv, peerSeq, packet, t))
    ensures var open := Admitted(c, tb, now, conv, peerSeq);
            var read := open.Put(conv, Reached(c, tb, now, conv, peerSeq, packet, t));
            var messages := PacketMessages(c, tb, now, conv, peerSeq, packet, t);
            Streams(c, HandleMessages(c, read, now, conv, messages, |messages|))
  {
    var open := Admitted(c, tb, now, conv, peerSeq);
    var s := Reached(c, tb, now, conv, peerSeq, packet, t);
    var messages := PacketMessages(c, tb, now, conv, peerSeq, packet, t);
    ReachedStreams(c, tb, now, conv, peerSeq, packet, t);
    HandledStreams(c, open.Put(conv, s), now, conv, open.sessions[conv].node.got, messages);
  }

  lemma HandledStreams(c: Config, tb: Table, now: nat, conv: nat, got: seq<Message>, messages: seq<Message>)
    requires conv in tb.sessions && tb.sessions[conv].node.got == got + messages
    requires Decodable(messages) && StreamsUpTo(c, tb, conv, got)
    ensures Streams(c, HandleMessages(c, tb, now, conv, messages, |messages|))
  {
    HandleAllStreams(c, tb, now, conv, got, messages, |messages|);
    assert messages[..|messages|] == messages;
    MessagesKeepNode(c, tb, now, conv, messages, |messages|);
    UpToDate(c, HandleMessages(c, tb, now, conv, messages, |messages|), conv, got + messages);
  }

  lemma UpToDate(c: Config, tb: Table, conv: nat, got: seq<Message>)
    requires StreamsUpTo(c, tb, conv, got) && (conv in tb.sessions ==> tb.sessions[conv].node.got == got)
    ensures Streams(c, tb)
  {
    forall v ensures StreamAt(c, tb, v) {
    }
  }

  lemma PacketStreams(
      c: Config, tb: Table, now: nat, conv: nat, peerSeq: nat, packet: seq<Segment>, t: Timing, tq: Timing)
    requires c.Valid() && conv < CONV_SPAN && Streams(c, tb)
    requires conv in tb.sessions ==> tb.sessions[conv].node.kcp.params.Valid()
    requires Decodable(PacketMessages(c, tb, now, conv, peerSeq, packet, t))
    ensures Streams(c, HandlePacket(c, tb, now, conv, peerSeq, packet, t, tq))
  {
    var open := Admitted(c, tb, now, conv, peerSeq);
    AdmitStreams(c, tb, now, conv, peerSeq);
    if conv !in tb.tombstones && Bound(open.sessions[conv], peerSeq) {
      ReadStreams(c, tb, now, conv, peerSeq, packet, t);
      var read := open.Put(conv, Reached(c, tb, now, conv, peerSeq, packet, t));
      var messages := PacketMessages(c, tb, now, conv, peerSeq, packet, t);
      var handled := HandleMessages(c, read, now, conv, messages, |messages|);
      ReceivingFollows(open.sessions[conv].node, packet, t);
      MessagesKeepNode(c, read, now, conv, messages, |messages|);
      QueueStreams(c, handled, now, conv, tq);
      FinishStreams(c, QueueClose(c, handled, now, conv, tq), now, conv);
    }
  }

  // ------------------------------------------------------------------ expiry and polls

  lemma EvictStreams(c: Config, tb: Table, now: nat, conv: nat)
    requires Streams(c, tb)
    ensures Streams(c, Evict(tb, now, conv))
  {
    var tb' := Evict(tb, now, conv);
    if conv in tb.sessions {
      forall v | v in tb'.sessions
        ensures v in tb.sessions && tb'.sessions[v] == tb.sessions[v] && Untold(tb.trace, tb'.trace, v)
      {
        EvictUntold(tb, now, conv, v);
      }
      LessStreams(c, tb, tb');
    }
  }

  lemma EvictUntold(tb: Table, now: nat, conv: nat, v: nat)
    requires v != conv
    ensures Untold(tb.trace, Evict(tb, now, conv).trace, v)
  {
    if conv in tb.sessions {
      var left := Timed(now, Left(conv, true));
      if tb.sessions[conv].phase.PendingRemote? {
        OthersUntold(tb.trace, left, v);
      } else {
        OthersUntoldTwice(tb.trace, Timed(now, CloseSession(conv, Reset)), left, v);
      }
    }
  }

  lemma {:induction false} EvictAllStreams(c: Config, tb: Table, now: nat, convs: seq<nat>, n: nat)
    requires n <= |convs| && Streams(c, tb)
    ensures Streams(c, EvictAll(tb, now, convs, n))
  {
    if n == 0 {
      assert EvictAll(tb, now, convs, n) == tb;
    } else {
      EvictAllStreams(c, tb, now, convs, n - 1);
      EvictStreams(c, EvictAll(tb, now, convs, n - 1), now, convs[n - 1]);
    }
  }

  lemma {:induction false} EvictPeersStreams(c: Config, tb: Table, now: nat, removed: seq<nat>, n: nat)
    requires n <= |removed| && Streams(c, tb)
    ensures Streams(c, EvictPeers(tb, now, removed, n))
  {
    if n == 0 {
      assert EvictPeers(tb, now, removed, n) == tb;
    } else {
      EvictPeersStreams(c, tb, now, removed, n - 1);
      var before := EvictPeers(tb, now, removed, n - 1);
      var convs := Ascending(PeerConvs(before, removed[n - 1]));
      EvictAllStreams(c, before, now, convs, |convs|);
    }
  }

  lemma VisitStreams(c: Config, tb: Table, now: nat, conv: nat, tq: Timing, tp: Timing)
    requires Streams(c, tb)
    ensures Streams(c, PollStep(c, tb, now, conv, tq, tp))
  {
    if conv in tb.sessions && tb.sessions[conv].node.kcp.params.Valid() {
      QueueStreams(c, tb, now, conv, tq);
      var queued := QueueClose(c, tb, now, conv, tq);
      if conv in queued.sessions && queued.sessions[conv].node.kcp.params.Valid() {
        var s := queued.sessions[conv];
        PolledFollows(s.node, tp);
        PutStreams(c, queued, conv, Runs(s, tp));
        FinishStreams(c, queued.Put(conv, Runs(s, tp)), now, conv);
      }
    }
  }

  lemma {:induction false} VisitsStream(
      c: Config, tb: Table, now: nat, convs: seq<nat>, n: nat, tq: nat -> Timing, tp: nat -> Timing)
    requires n <= |convs| && Streams(c, tb)
    ensures Streams(c, PollAll(c, tb, now, convs, n, tq, tp))
  {
    if n == 0 {
      assert PollAll(c, tb, now, convs, n, tq, tp) == tb;
    } else {
      VisitsStream(c, tb, now, convs, n - 1, tq, tp);
      VisitStreams(c, PollAll(c, tb, now, convs, n - 1, tq, tp), now, convs[n - 1], tq(convs[n - 1]), tp(convs[n - 1]));
    }
  }
}
