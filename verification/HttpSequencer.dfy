/** Ordering the HTTP hooks of each call against asynchronous replies
    (src/HttpSequencer.cpp): a stage and two slots per session, proved to be a queue
    with one request in flight. */
module HttpHooks {
  import opened Options

  type Tag = string

  /** The data of a hook; an undefined argument counts as no data. */
  datatype Arg = Undef | Data(json: string)

  datatype Hook = CallStarted | CallConnected | CallDisconnected

  datatype Stage =
    | StartedHookIsQueued
    | StartedHookReplyReceived
    | ConnectedHookIsQueued
    | ConnectedHookReplyReceived

  datatype Session = Session(stage: Stage, invalidated: bool, connectedData: Arg, disconnectedData: Arg)

  /** A request that was posted for a session, and whether its reply is awaited. */
  datatype Post = Post(tag: Tag, hook: Hook, data: Arg, awaited: bool)

  /** `ok`, `okConnected` and `okDisconnected` say whether the HTTP client takes a request. */
  datatype Event =
    | Hooked(tag: Tag, hook: Hook, data: Arg, ok: bool)
    | Answered(tag: Tag, okConnected: bool, okDisconnected: bool)
    | Cleaned(tag: Tag)

  // ---------- what one session does ----------

  /** A session after an event, and what was posted for it. */
  datatype Turn = Turn(session: Option<Session>, posts: seq<Post>)

  function Posted(tag: Tag, hook: Hook, data: Arg, ok: bool): seq<Post> {
    if ok then [Post(tag, hook, data, hook != CallDisconnected)] else []
  }

  function OnHook(session: Option<Session>, tag: Tag, hook: Hook, data: Arg, ok: bool): Turn {
    match hook
    case CallStarted =>
      Turn(if session.None? && ok then Some(Session(StartedHookIsQueued, false, Undef, Undef)) else session,
           Posted(tag, hook, data, ok))
    case CallConnected =>
      if session.None? then Turn(None, [])
      else if session.value.stage == StartedHookIsQueued then
        Turn(Some(session.value.(connectedData := data)), [])
      else if session.value.stage == StartedHookReplyReceived then
        Turn(Some(session.value.(stage := if ok then ConnectedHookIsQueued else ConnectedHookReplyReceived)),
             Posted(tag, hook, data, ok))
      else Turn(session, [])
    case CallDisconnected =>
      if session.None? then Turn(None, [])
      else if session.value.stage in {StartedHookIsQueued, ConnectedHookIsQueued} then
        Turn(Some(session.value.(disconnectedData := data)), [])
      else Turn(None, Posted(tag, hook, data, ok))
  }

  /** No request is in flight any more and none was connected with: finish or wait. */
  function Settle(s: Session, tag: Tag, received: Stage, okDisconnected: bool): Turn {
    if s.disconnectedData.Data? then Turn(None, Posted(tag, CallDisconnected, s.disconnectedData, okDisconnected))
    else if s.invalidated then Turn(None, [])
    else Turn(Some(s.(stage := received)), [])
  }

  function OnReply(session: Option<Session>, tag: Tag, okConnected: bool, okDisconnected: bool): Turn {
    if session.None? then Turn(None, [])
    else
      var s := session.value;
      match s.stage
      case StartedHookIsQueued =>
        if s.connectedData.Data? && okConnected then
          Turn(Some(s.(stage := ConnectedHookIsQueued)), Posted(tag, CallConnected, s.connectedData, true))
        else Settle(s.(connectedData := Undef), tag, StartedHookReplyReceived, okDisconnected)
      case ConnectedHookIsQueued => Settle(s, tag, ConnectedHookReplyReceived, okDisconnected)
      case _ => Turn(session, [])
  }

  function OnCleanup(session: Option<Session>): Turn {
    if session.None? then Turn(None, [])
    else if session.value.stage in {StartedHookIsQueued, ConnectedHookIsQueued} then
      Turn(Some(session.value.(invalidated := true)), [])
    else Turn(None, [])
  }

  function OnEvent(session: Option<Session>, e: Event): Turn {
    match e
    case Hooked(tag, hook, data, ok) => OnHook(session, tag, hook, data, ok)
    case Answered(tag, okConnected, okDisconnected) => OnReply(session, tag, okConnected, okDisconnected)
    case Cleaned(_) => OnCleanup(session)
  }

  // ---------- all sessions ----------

  datatype State = State(states: map<Tag, Session>, posts: seq<Post>)

  function Find(states: map<Tag, Session>, tag: Tag): Option<Session> {
    if tag in states then Some(states[tag]) else None
  }

  function Store(states: map<Tag, Session>, tag: Tag, session: Option<Session>): map<Tag, Session> {
    if session.Some? then states[tag := session.value] else states - {tag}
  }

  function Next(s: State, e: Event): State {
    var turn := OnEvent(Find(s.states, e.tag), e);
    State(Store(s.states, e.tag, turn.session), s.posts + turn.posts)
  }

  function Run(events: seq<Event>): State {
    if events == [] then State(map[], [])
    else Next(Run(events[..|events| - 1]), events[|events| - 1])
  }

  /** The sequencer itself: a map of sessions that is updated in place. */
  class HttpSequencer {
    var states: map<Tag, Session>
    var posts: seq<Post>

    ghost function View(): State
      reads this
    {
      State(states, posts)
    }

    constructor ()
      ensures View() == Run([])
    {
      states, posts := map[], [];
    }

    method PostHttpRequest(tag: Tag, hook: Hook, data: Arg, ok: bool) returns (posted: bool)
      requires hook != CallDisconnected
      modifies this`posts
      ensures posted == ok && posts == old(posts) + Posted(tag, hook, data, ok)
    {
      if ok {
        posts := posts + [Post(tag, hook, data, true)];
      }
      return ok;
    }

    method PostHttpRequestNoReply(tag: Tag, data: Arg, ok: bool)
      modifies this`posts
      ensures posts == old(posts) + Posted(tag, CallDisconnected, data, ok)
    {
      if ok {
        posts := posts + [Post(tag, CallDisconnected, data, false)];
      }
    }

    method ProcessHook(hook: Hook, tag: Tag, data: Arg, ok: bool)
      modifies this
      ensures View() == Next(old(View()), Hooked(tag, hook, data, ok))
    {
      match hook {
        case CallStarted =>
          var posted := PostHttpRequest(tag, hook, data, ok);
          if posted && tag !in states {
            states := states[tag := Session(StartedHookIsQueued, false, Undef, Undef)];
          }
        case CallConnected =>
          if tag !in states {
            return;
          }
          var s := states[tag];
          if s.stage == StartedHookIsQueued {
            states := states[tag := s.(connectedData := data)];
          } else if s.stage == StartedHookReplyReceived {
            var posted := PostHttpRequest(tag, hook, data, ok);
            states := states[tag := s.(stage := if posted then ConnectedHookIsQueued else ConnectedHookReplyReceived)];
          }
        case CallDisconnected =>
          if tag !in states {
            return;
          }
          var s := states[tag];
          if s.stage == StartedHookIsQueued || s.stage == ConnectedHookIsQueued {
            states := states[tag := s.(disconnectedData := data)];
          } else {
            PostHttpRequestNoReply(tag, data, ok);
            states := states - {tag};
          }
      }
    }

    method ProcessHttpReply(tag: Tag, okConnected: bool, okDisconnected: bool)
      modifies this
      ensures View() == Next(old(View()), Answered(tag, okConnected, okDisconnected))
    {
      if tag !in states {
        return;
      }
      var s := states[tag];
      match s.stage {
        case StartedHookIsQueued =>
          if s.connectedData != Undef {
            var posted := PostHttpRequest(tag, CallConnected, s.connectedData, okConnected);
            if posted {
              states := states[tag := s.(stage := ConnectedHookIsQueued)];
              return;
            }
            states := states[tag := states[tag].(connectedData := Undef)];
          }
          if s.disconnectedData != Undef {
            PostHttpRequestNoReply(tag, s.disconnectedData, okDisconnected);
            states := states - {tag};
            return;
          }
          if s.invalidated {
            states := states - {tag};
            return;
          }
          states := states[tag := states[tag].(stage := StartedHookReplyReceived)];
        case ConnectedHookIsQueued =>
          if s.disconnectedData != Undef {
            PostHttpRequestNoReply(tag, s.disconnectedData, okDisconnected);
            states := states - {tag};
            return;
          }
          if s.invalidated {
            states := states - {tag};
            return;
          }
          states := states[tag := s.(stage := ConnectedHookReplyReceived)];
        case _ =>
      }
    }

    method Cleanup(tag: Tag)
      modifies this
      ensures View() == Next(old(View()), Cleaned(tag))
    {
      if tag !in states {
        return;
      }
      match states[tag].stage {
        case StartedHookIsQueued =>
          states := states[tag := states[tag].(invalidated := true)];
        case ConnectedHookIsQueued =>
          states := states[tag := states[tag].(invalidated := true)];
        case _ =>
          states := states - {tag};
      }
    }
  }
}

/** The reference: each call has a queue of hooks, and at most one request in flight. */
module HookQueue {
  import opened Options
  import opened HttpHooks

  datatype Item = Item(hook: Hook, data: Arg)

  datatype Queue = Absent | Active(pending: seq<Item>, inFlight: bool, closing: bool)

  /** A call's queue and what was posted for it so far. */
  datatype Line = Line(queue: Queue, posts: seq<Post>)

  /** Nothing is in flight: post from the front until something is, or all is done.  A
      request the client refuses is dropped; the disconnect ends the queue. */
  function Drain(tag: Tag, pending: seq<Item>, closing: bool, posts: seq<Post>,
                 okConnected: bool, okDisconnected: bool): Line
  {
    if pending == [] then Line(if closing then Absent else Active([], false, false), posts)
    else
      var item := pending[0];
      if item.hook == CallDisconnected then
        Line(Absent, posts + Posted(tag, item.hook, item.data, okDisconnected))
      else if okConnected then
        Line(Active(pending[1..], true, closing), posts + Posted(tag, item.hook, item.data, true))
      else Drain(tag, pending[1..], closing, posts, okConnected, okDisconnected)
  }

  function QueueStep(l: Line, e: Event): Line {
    match e
    case Hooked(tag, hook, data, ok) =>
      if l.queue.Absent? then
        if hook == CallStarted && ok
        then Line(Active([], true, false), l.posts + Posted(tag, hook, data, true)) else l
      else if l.queue.inFlight then
        l.(queue := l.queue.(pending := l.queue.pending + [Item(hook, data)]))
      else Drain(tag, l.queue.pending + [Item(hook, data)], l.queue.closing, l.posts, ok, ok)
    case Answered(tag, okConnected, okDisconnected) =>
      if l.queue.Absent? || !l.queue.inFlight then l
      else Drain(tag, l.queue.pending, l.queue.closing, l.posts, okConnected, okDisconnected)
    case Cleaned(_) =>
      if l.queue.Absent? then l
      else if l.queue.inFlight then l.(queue := l.queue.(closing := true))
      else l.(queue := Absent)
  }

  /** The line of one call: events of other calls do not touch it. */
  function QueueRun(events: seq<Event>, tag: Tag): Line {
    if events == [] then Line(Absent, [])
    else
      var before := QueueRun(events[..|events| - 1], tag);
      var e := events[|events| - 1];
      if e.tag == tag then QueueStep(before, e) else before
  }

  // ---------- the order in which a call's hooks come ----------

  datatype Progress = Progress(last: Option<Hook>, cleaned: bool)

  function ProgressOf(events: seq<Event>, tag: Tag): Progress {
    if events == [] then Progress(None, false)
    else
      var before := ProgressOf(events[..|events| - 1], tag);
      var e := events[|events| - 1];
      if e.tag != tag then before
      else if e.Hooked? then before.(last := Some(e.hook))
      else if e.Cleaned? then before.(cleaned := true)
      else before
  }

  /** One CallStarted, before the leg is destroyed; then at most one CallConnected; then
      at most one CallDisconnected; each with data.  Replies may come at any time. */
  predicate InOrder(p: Progress, e: Event) {
    e.Hooked? ==>
      && e.data.Data?
      && match e.hook
         case CallStarted => p.last.None? && !p.cleaned
         case CallConnected => p.last == Some(CallStarted)
         case CallDisconnected => p.last in {Some(CallStarted), Some(CallConnected)}
  }

  ghost predicate WellOrdered(events: seq<Event>) {
    forall i :: 0 <= i < |events| ==> InOrder(ProgressOf(events[..i], events[i].tag), events[i])
  }

  lemma WellOrderedPrefix(events: seq<Event>)
    requires WellOrdered(events) && events != []
    ensures WellOrdered(events[..|events| - 1])
    ensures InOrder(ProgressOf(events[..|events| - 1], events[|events| - 1].tag), events[|events| - 1])
  {
    var init := events[..|events| - 1];
    forall i | 0 <= i < |init|
      ensures InOrder(ProgressOf(init[..i], init[i].tag), init[i])
    {
      assert init[..i] == events[..i];
    }
  }

  // ---------- refinement ----------

  /** The queue that a session's stage and slots stand for. */
  function Abstract(session: Option<Session>): Queue {
    if session.None? then Absent
    else
      var s := session.value;
      Active(
        (if s.stage == StartedHookIsQueued && s.connectedData.Data?
         then [Item(CallConnected, s.connectedData)] else [])
        + (if s.disconnectedData.Data? then [Item(CallDisconnected, s.disconnectedData)] else []),
        s.stage in {StartedHookIsQueued, ConnectedHookIsQueued},
        s.invalidated)
  }

  function PostsOf(posts: seq<Post>, tag: Tag): seq<Post> {
    if posts == [] then []
    else
      var last := posts[|posts| - 1];
      PostsOf(posts[..|posts| - 1], tag) + (if last.tag == tag then [last] else [])
  }

  /** What the order of hooks implies about a session. */
  ghost predicate Consistent(session: Option<Session>, p: Progress) {
    session.Some? ==>
      var s := session.value;
      && p.last.Some?
      && (p.last == Some(CallStarted) ==>
            && s.stage in {StartedHookIsQueued, StartedHookReplyReceived}
            && s.connectedData.Undef?)
      && (p.last != Some(CallDisconnected) ==> s.disconnectedData.Undef?)
      && (s.stage in {StartedHookReplyReceived, ConnectedHookReplyReceived} ==>
            && s.disconnectedData.Undef? && !s.invalidated && !p.cleaned)
      && (p.cleaned ==> s.invalidated)
  }

  lemma PostsOfStep(posts: seq<Post>, more: seq<Post>, tag: Tag)
    requires |more| <= 1
    ensures PostsOf(posts + more, tag)
         == PostsOf(posts, tag) + (if more != [] && more[0].tag == tag then more else [])
  {
    if more != [] {
      assert (posts + more)[..|posts|] == posts;
      assert more == [more[0]];
    } else {
      assert posts + more == posts;
    }
  }

  /** Draining what a session can hold: a connect, then a disconnect. */
  lemma DrainSession(s: Session, posts: seq<Post>, tag: Tag, okConnected: bool, okDisconnected: bool)
    ensures var queue := Abstract(Some(s));
            Drain(tag, queue.pending, queue.closing, posts, okConnected, okDisconnected)
            == if s.stage == StartedHookIsQueued && s.connectedData.Data? && okConnected then
                 Line(Abstract(Some(s.(stage := ConnectedHookIsQueued))),
                      posts + Posted(tag, CallConnected, s.connectedData, true))
               else if s.disconnectedData.Data? then
                 Line(Absent, posts + Posted(tag, CallDisconnected, s.disconnectedData, okDisconnected))
               else Line(if s.invalidated then Absent else Active([], false, false), posts)
  {
    var pending := Abstract(Some(s)).pending;
    if s.stage == StartedHookIsQueued && s.connectedData.Data? {
      assert pending[0] == Item(CallConnected, s.connectedData);
      assert pending[1..] == Abstract(Some(s.(stage := ConnectedHookIsQueued))).pending;
      if s.disconnectedData.Data? {
        assert pending[1..][0] == Item(CallDisconnected, s.disconnectedData);
      } else {
        assert pending[1..] == [];
      }
    } else if s.disconnectedData.Data? {
      assert pending[0] == Item(CallDisconnected, s.disconnectedData);
    } else {
      assert pending == [];
    }
  }

  lemma ReplyRefines(s: Session, posts: seq<Post>, tag: Tag, okConnected: bool, okDisconnected: bool)
    requires Abstract(Some(s)).inFlight
    ensures var turn := OnReply(Some(s), tag, okConnected, okDisconnected);
            var queue := Abstract(Some(s));
            Line(Abstract(turn.session), posts + turn.posts)
            == Drain(tag, queue.pending, queue.closing, posts, okConnected, okDisconnected)
  {
    DrainSession(s, posts, tag, okConnected, okDisconnected);
    assert posts + [] == posts;
    var session := OnReply(Some(s), tag, okConnected, okDisconnected).session;
    if session.Some? && !Abstract(session).inFlight {
      assert Abstract(session).pending == [];
    }
  }

  lemma HookRefines(s: Session, posts: seq<Post>, p: Progress, e: Event)
    requires e.Hooked? && Consistent(Some(s), p) && InOrder(p, e)
    ensures var turn := OnEvent(Some(s), e);
            Line(Abstract(turn.session), posts + turn.posts)
            == QueueStep(Line(Abstract(Some(s)), posts), e)
  {
    assert posts + [] == posts;
    var queue := Abstract(Some(s));
    var item := Item(e.hook, e.data);
    if queue.inFlight {
      assert Abstract(OnEvent(Some(s), e).session).pending == queue.pending + [item];
    } else {
      assert queue.pending + [item] == [item];
      assert [item][1..] == [];
      if e.hook == CallConnected && !e.ok {
        assert Drain(e.tag, [item], queue.closing, posts, e.ok, e.ok)
            == Drain(e.tag, [], queue.closing, posts, e.ok, e.ok);
      }
      var session := OnEvent(Some(s), e).session;
      if session.Some? {
        assert Abstract(session).pending == [];
      }
    }
  }

  /** One event on one session is one step of its queue. */
  lemma SessionRefines(session: Option<Session>, posts: seq<Post>, p: Progress, e: Event)
    requires Consistent(session, p) && InOrder(p, e)
    ensures var turn := OnEvent(session, e);
            && |turn.posts| <= 1 && (turn.posts != [] ==> turn.posts[0].tag == e.tag)
            && Line(Abstract(turn.session), posts + turn.posts)
               == QueueStep(Line(Abstract(session), posts), e)
  {
    assert posts + [] == posts;
    if session.Some? && e.Hooked? {
      HookRefines(session.value, posts, p, e);
    } else if session.Some? && e.Answered? && Abstract(session).inFlight {
      ReplyRefines(session.value, posts, e.tag, e.okConnected, e.okDisconnected);
    } else if session.None? && e.Hooked? {
      assert Abstract(Some(Session(StartedHookIsQueued, false, Undef, Undef))).pending == [];
    }
  }

  lemma SessionConsistent(session: Option<Session>, p: Progress, e: Event)
    requires Consistent(session, p) && InOrder(p, e)
    requires p.last.None? ==> session.None?
    ensures Consistent(OnEvent(session, e).session,
                       if e.Hooked? then p.(last := Some(e.hook))
                       else if e.Cleaned? then p.(cleaned := true) else p)
  {
  }

  /** For every interleaving of hooks, replies, failed posts and cleanups of any number of
      calls: each call's session is its queue, and the posts for it are exactly the queue's. */
  lemma {:induction false} SequencerIsQueue(events: seq<Event>, tag: Tag)
    requires WellOrdered(events)
    ensures Line(Abstract(Find(Run(events).states, tag)), PostsOf(Run(events).posts, tag))
         == QueueRun(events, tag)
    ensures Consistent(Find(Run(events).states, tag), ProgressOf(events, tag))
    ensures ProgressOf(events, tag).last.None? ==> Find(Run(events).states, tag).None?
  {
    if events != [] {
      var init, e := events[..|events| - 1], events[|events| - 1];
      WellOrderedPrefix(events);
      SequencerIsQueue(init, tag);
      var s := Run(init);
      if e.tag == tag {
        var p := ProgressOf(init, tag);
        SessionRefines(Find(s.states, tag), PostsOf(s.posts, tag), p, e);
        SessionConsistent(Find(s.states, tag), p, e);
      } else {
        SequencerIsQueue(init, e.tag);
        SessionRefines(Find(s.states, e.tag), PostsOf(s.posts, e.tag), ProgressOf(init, e.tag), e);
      }
      PostsOfStep(s.posts, OnEvent(Find(s.states, e.tag), e).posts, tag);
    }
  }

  // ---------- what the queue guarantees ----------

  /** How many of the posts are answered with a reply. */
  function Awaited(posts: seq<Post>): nat {
    if posts == [] then 0
    else Awaited(posts[..|posts| - 1]) + if posts[|posts| - 1].awaited then 1 else 0
  }

  function RepliesTo(events: seq<Event>, tag: Tag): nat {
    if events == [] then 0
    else
      var e := events[|events| - 1];
      RepliesTo(events[..|events| - 1], tag) + if e.Answered? && e.tag == tag then 1 else 0
  }

  /** A reply comes only to a post that awaits one and has none yet. */
  ghost predicate Answering(events: seq<Event>) {
    forall i :: 0 <= i < |events| && events[i].Answered? ==>
      Awaited(PostsOf(Run(events[..i]).posts, events[i].tag)) > RepliesTo(events[..i], events[i].tag)
  }

  function InFlight(l: Line): nat {
    if l.queue.Active? && l.queue.inFlight then 1 else 0
  }

  lemma AwaitedOne(posts: seq<Post>, post: Post)
    ensures Awaited(posts + [post]) == Awaited(posts) + if post.awaited then 1 else 0
  {
    assert (posts + [post])[..|posts|] == posts;
  }

  /** Draining ends in flight exactly when it has made one awaited post. */
  lemma {:induction false} DrainAwaits(tag: Tag, pending: seq<Item>, closing: bool, posts: seq<Post>, okC: bool, okD: bool)
    ensures var l := Drain(tag, pending, closing, posts, okC, okD);
            Awaited(l.posts) == Awaited(posts) + InFlight(l)
  {
    if pending != [] {
      var item := pending[0];
      AwaitedOne(posts, Post(tag, item.hook, item.data, item.hook != CallDisconnected));
      assert posts + [] == posts;
      if item.hook != CallDisconnected && !okC {
        DrainAwaits(tag, pending[1..], closing, posts, okC, okD);
      }
    }
  }

  lemma StepAwaits(l: Line, e: Event)
    requires e.Answered? ==> InFlight(l) == 1
    ensures Awaited(QueueStep(l, e).posts) + InFlight(l) + (if e.Answered? then -1 else 0)
         == Awaited(l.posts) + InFlight(QueueStep(l, e))
    ensures QueueStep(l, e).posts != l.posts && !e.Answered? ==> InFlight(l) == 0
  {
    match e
    case Hooked(tag, hook, data, ok) =>
      AwaitedOne(l.posts, Post(tag, hook, data, true));
      if l.queue.Active? {
        DrainAwaits(tag, l.queue.pending + [Item(hook, data)], l.queue.closing, l.posts, ok, ok);
      }
    case Answered(tag, okC, okD) => DrainAwaits(tag, l.queue.pending, l.queue.closing, l.posts, okC, okD);
    case Cleaned(_) =>
  }

  lemma AnsweringPrefix(events: seq<Event>)
    requires Answering(events) && events != []
    ensures Answering(events[..|events| - 1])
  {
    var init := events[..|events| - 1];
    forall i | 0 <= i < |init| && init[i].Answered?
      ensures Awaited(PostsOf(Run(init[..i]).posts, init[i].tag)) > RepliesTo(init[..i], init[i].tag)
    {
      assert init[..i] == events[..i] && init[i] == events[i];
    }
  }

  /** The queue is in flight exactly when one awaited post has no reply yet. */
  lemma {:induction false} Unanswered(events: seq<Event>, tag: Tag)
    requires WellOrdered(events) && Answering(events)
    ensures Awaited(QueueRun(events, tag).posts) == RepliesTo(events, tag) + InFlight(QueueRun(events, tag))
    ensures events != [] && events[|events| - 1].tag == tag && events[|events| - 1].Answered? ==>
              InFlight(QueueRun(events[..|events| - 1], tag)) == 1
  {
    if events != [] {
      var init, e := events[..|events| - 1], events[|events| - 1];
      WellOrderedPrefix(events);
      AnsweringPrefix(events);
      Unanswered(init, tag);
      if e.tag == tag {
        SequencerIsQueue(init, tag);
        assert e.Answered? ==> Awaited(PostsOf(Run(init).posts, tag)) > RepliesTo(init, tag);
        StepAwaits(QueueRun(init, tag), e);
      }
    }
  }

  /** At most one post for a call is without its reply, and there is one exactly while the
      session is in a queued stage. */
  lemma {:induction false} OneInFlight(events: seq<Event>, tag: Tag)
    requires WellOrdered(events) && Answering(events)
    ensures var s := Run(events);
            var queued := tag in s.states && s.states[tag].stage in {StartedHookIsQueued, ConnectedHookIsQueued};
            Awaited(PostsOf(s.posts, tag)) == RepliesTo(events, tag) + if queued then 1 else 0
  {
    Unanswered(events, tag);
    SequencerIsQueue(events, tag);
  }

  /** Whatever is posted for a call is posted when every earlier post has had its reply. */
  lemma {:induction false} PostedAfterReplies(events: seq<Event>, tag: Tag)
    requires WellOrdered(events) && Answering(events) && events != []
    ensures var before := PostsOf(Run(events[..|events| - 1]).posts, tag);
            PostsOf(Run(events).posts, tag) != before ==> Awaited(before) == RepliesTo(events, tag)
  {
    var init, e := events[..|events| - 1], events[|events| - 1];
    WellOrderedPrefix(events);
    AnsweringPrefix(events);
    Unanswered(events, tag);
    Unanswered(init, tag);
    SequencerIsQueue(events, tag);
    SequencerIsQueue(init, tag);
    if e.tag == tag {
      StepAwaits(QueueRun(init, tag), e);
    }
  }

  /** The hooks posted for a call, in order. */
  function HooksOf(posts: seq<Post>): seq<Hook> {
    seq(|posts|, i requires 0 <= i < |posts| => posts[i].hook)
  }

  function PendingHooks(items: seq<Item>): seq<Hook> {
    seq(|items|, i requires 0 <= i < |items| => items[i].hook)
  }

  /** What was posted for a call, followed by what is waiting. */
  function Trail(l: Line): seq<Hook> {
    HooksOf(l.posts) + (if l.queue.Absent? then [] else PendingHooks(l.queue.pending))
  }

  function Rank(hook: Hook): nat {
    match hook
    case CallStarted => 0
    case CallConnected => 1
    case CallDisconnected => 2
  }

  ghost predicate Increasing(hooks: seq<Hook>) {
    forall i, j :: 0 <= i < j < |hooks| ==> Rank(hooks[i]) < Rank(hooks[j])
  }

  /** The line against the hooks that came: each at most once, in call order, none later
      than the last; and when the queue may still be there. */
  ghost predicate LineInv(l: Line, p: Progress) {
    && Increasing(Trail(l))
    && (forall h :: h in Trail(l) ==> p.last.Some? && Rank(h) <= Rank(p.last.value))
    && (l.posts != [] ==> l.posts[0].hook == CallStarted)
    && (l.queue.Active? ==>
          && l.posts != []
          && (!l.queue.inFlight ==> l.queue.pending == [] && !l.queue.closing)
          && l.queue.closing == p.cleaned
          && (p.last == Some(CallDisconnected) ==> CallDisconnected in PendingHooks(l.queue.pending)))
  }

  /** At most Started, Connected, Disconnected, each at most once and in this order, and
      Started first if anything. */
  lemma {:induction false} PostsInCallOrder(events: seq<Event>, tag: Tag)
    requires WellOrdered(events)
    ensures LineInv(QueueRun(events, tag), ProgressOf(events, tag))
    ensures HooksOf(QueueRun(events, tag).posts)
            in {[], [CallStarted], [CallStarted, CallConnected], [CallStarted, CallDisconnected],
                [CallStarted, CallConnected, CallDisconnected]}
  {
    hide LineInv, QueueStep, InOrder, WellOrdered, HooksOf;
    if events == [] {
      LineStart();
    } else {
      var init, e := events[..|events| - 1], events[|events| - 1];
      WellOrderedPrefix(events);
      PostsInCallOrder(init, tag);
      if e.tag == tag {
        StepKeeps(QueueRun(init, tag), ProgressOf(init, tag), e);
      }
    }
    PostedForms(QueueRun(events, tag), ProgressOf(events, tag));
  }

  lemma LineStart()
    ensures LineInv(Line(Absent, []), Progress(None, false))
  {}

  lemma PostedForms(l: Line, p: Progress)
    requires LineInv(l, p)
    ensures HooksOf(l.posts)
            in {[], [CallStarted], [CallStarted, CallConnected], [CallStarted, CallDisconnected],
                [CallStarted, CallConnected, CallDisconnected]}
  {
    assert Trail(l)[..|l.posts|] == HooksOf(l.posts);
    FiveForms(HooksOf(l.posts));
  }

  lemma {:induction false} RankAtLeast(h: seq<Hook>, i: nat)
    requires Increasing(h) && i < |h|
    ensures Rank(h[i]) >= i
  {
    if i > 0 {
      RankAtLeast(h, i - 1);
    }
  }

  lemma DisconnectIsLast(h: seq<Hook>, i: nat)
    requires Increasing(h) && i < |h| && h[i] == CallDisconnected
    ensures i == |h| - 1
  {
    var next := if i + 1 < |h| then Rank(h[i + 1]) else 0;
  }

  lemma FiveForms(h: seq<Hook>)
    requires Increasing(h) && (h != [] ==> h[0] == CallStarted)
    ensures h in {[], [CallStarted], [CallStarted, CallConnected], [CallStarted, CallDisconnected],
                  [CallStarted, CallConnected, CallDisconnected]}
  {
    if |h| > 3 {
      RankAtLeast(h, 3);
    } else if |h| == 3 {
      assert h == [h[0], h[1], h[2]] && Rank(h[0]) < Rank(h[1]) < Rank(h[2]);
    } else if |h| == 2 {
      assert h == [h[0], h[1]] && Rank(h[0]) < Rank(h[1]);
    } else if |h| == 1 {
      assert h == [h[0]];
    }
  }

  lemma DropMiddle(a: seq<Hook>, x: Hook, b: seq<Hook>)
    requires Increasing(a + [x] + b)
    ensures Increasing(a + b)
  {
    forall i, j | 0 <= i < j < |a + b|
      ensures Rank((a + b)[i]) < Rank((a + b)[j])
    {
      var s := a + [x] + b;
      assert (a + b)[i] == s[if i < |a| then i else i + 1];
      assert (a + b)[j] == s[if j < |a| then j else j + 1];
    }
  }

  /** Draining moves hooks from waiting to posted, or drops them; it never reorders. */
  lemma {:induction false} DrainKeeps(tag: Tag, pending: seq<Item>, closing: bool, posts: seq<Post>, okC: bool, okD: bool)
    requires Increasing(HooksOf(posts) + PendingHooks(pending))
    ensures var l := Drain(tag, pending, closing, posts, okC, okD);
            && Increasing(Trail(l)) && posts <= l.posts
            && (forall h :: h in Trail(l) ==> h in HooksOf(posts) + PendingHooks(pending))
            && (l.queue.Active? ==>
                  && l.queue.closing == closing
                  && (!l.queue.inFlight ==> l.queue.pending == [] && !closing)
                  && (CallDisconnected in PendingHooks(pending) ==>
                        CallDisconnected in PendingHooks(l.queue.pending)))
  {
    if pending == [] {
      assert HooksOf(posts) + PendingHooks(pending) == HooksOf(posts);
      assert PendingHooks([]) == [];
    } else {
      var item, rest := pending[0], pending[1..];
      assert HooksOf(posts) + PendingHooks(pending) == HooksOf(posts) + [item.hook] + PendingHooks(rest);
      assert PendingHooks(pending) == [item.hook] + PendingHooks(rest);
      var posted := posts + Posted(tag, item.hook, item.data, true);
      assert HooksOf(posted) == HooksOf(posts) + [item.hook];
      DropMiddle(HooksOf(posts), item.hook, PendingHooks(rest));
      if item.hook == CallDisconnected {
        DisconnectIsLast(HooksOf(posts) + PendingHooks(pending), |posts|);
        assert PendingHooks(rest) == [];
        assert posts + [] == posts;
      } else if !okC {
        DrainKeeps(tag, rest, closing, posts, okC, okD);
      }
    }
  }

  lemma StepKeeps(l: Line, p: Progress, e: Event)
    requires LineInv(l, p) && InOrder(p, e)
    ensures LineInv(QueueStep(l, e),
                    if e.Hooked? then p.(last := Some(e.hook))
                    else if e.Cleaned? then p.(cleaned := true) else p)
  {
    match e
    case Hooked(tag, hook, data, ok) => HookKeeps(l, p, e);
    case Answered(tag, okC, okD) =>
      if l.queue.Active? && l.queue.inFlight {
        DrainKeeps(tag, l.queue.pending, l.queue.closing, l.posts, okC, okD);
      }
    case Cleaned(_) =>
      if l.queue.Active? && !l.queue.inFlight {
        assert Trail(l) == HooksOf(l.posts) == Trail(l.(queue := Absent));
      }
  }

  lemma TrailHead(l: Line)
    requires l.posts != []
    ensures l.posts[0].hook in Trail(l)
  {
    assert Trail(l)[0] == HooksOf(l.posts)[0];
  }

  lemma StartKeeps(l: Line, p: Progress, e: Event)
    requires LineInv(l, p) && InOrder(p, e) && e.Hooked? && l.queue.Absent?
    ensures LineInv(QueueStep(l, e), p.(last := Some(e.hook)))
  {
    if e.hook == CallStarted {
      if l.posts != [] {
        TrailHead(l);
      }
      assert HooksOf([Post(e.tag, e.hook, e.data, true)]) + PendingHooks([]) == [CallStarted];
    } else {
      assert Trail(l) == HooksOf(l.posts);
    }
  }

  lemma AppendKeeps(trail: seq<Hook>, last: Hook, hook: Hook)
    requires Increasing(trail) && Rank(last) < Rank(hook)
    requires forall h :: h in trail ==> Rank(h) <= Rank(last)
    ensures Increasing(trail + [hook])
    ensures forall h :: h in trail + [hook] ==> Rank(h) <= Rank(hook)
  {
    forall i, j | 0 <= i < j < |trail + [hook]|
      ensures Rank((trail + [hook])[i]) < Rank((trail + [hook])[j])
    {
      assert (trail + [hook])[i] in trail;
    }
  }

  lemma HookKeeps(l: Line, p: Progress, e: Event)
    requires LineInv(l, p) && InOrder(p, e) && e.Hooked?
    ensures LineInv(QueueStep(l, e), p.(last := Some(e.hook)))
  {
    if l.queue.Absent? {
      StartKeeps(l, p, e);
    } else {
      TrailHead(l);
      var pending := l.queue.pending + [Item(e.hook, e.data)];
      assert PendingHooks(pending) == PendingHooks(l.queue.pending) + [e.hook];
      assert HooksOf(l.posts) + PendingHooks(pending) == Trail(l) + [e.hook];
      AppendKeeps(Trail(l), p.last.value, e.hook);
      if !l.queue.inFlight {
        DrainKeeps(e.tag, pending, l.queue.closing, l.posts, e.ok, e.ok);
      }
    }
  }

  /** The last hook of a call came, or its leg was destroyed. */
  predicate Ended(p: Progress) {
    p.cleaned || p.last == Some(CallDisconnected)
  }

  /** A session that outlives its call waits for a reply. */
  lemma {:induction false} EndedIsQueued(events: seq<Event>, tag: Tag)
    requires WellOrdered(events) && Ended(ProgressOf(events, tag))
    requires tag in Run(events).states
    ensures Run(events).states[tag].stage in {StartedHookIsQueued, ConnectedHookIsQueued}
  {
    SequencerIsQueue(events, tag);
    PostsInCallOrder(events, tag);
  }

  /** Once a call has ended or its leg was destroyed, and every awaited post has had its reply, its session is
      gone. */
  lemma {:induction false} SessionGone(events: seq<Event>, tag: Tag)
    requires WellOrdered(events) && Answering(events) && Ended(ProgressOf(events, tag))
    requires Awaited(PostsOf(Run(events).posts, tag)) == RepliesTo(events, tag)
    ensures tag !in Run(events).states
  {
    OneInFlight(events, tag);
    if tag in Run(events).states {
      EndedIsQueued(events, tag);
    }
  }

  // ---------- nothing is lost ----------

  ghost predicate NoFailure(events: seq<Event>) {
    forall i :: 0 <= i < |events| ==>
      && (events[i].Hooked? ==> events[i].ok)
      && (events[i].Answered? ==> events[i].okConnected && events[i].okDisconnected)
  }

  function HookItems(events: seq<Event>, tag: Tag): seq<Item> {
    if events == [] then []
    else
      var e := events[|events| - 1];
      HookItems(events[..|events| - 1], tag)
      + (if e.Hooked? && e.tag == tag then [Item(e.hook, e.data)] else [])
  }

  function PostItems(posts: seq<Post>): seq<Item> {
    seq(|posts|, i requires 0 <= i < |posts| => Item(posts[i].hook, posts[i].data))
  }

  function Waiting(queue: Queue): seq<Item> {
    if queue.Absent? then [] else queue.pending
  }

  /** With no refused request, draining only moves items from waiting to posted, unless
      a disconnect ends the queue. */
  lemma {:induction false} DrainConserves(tag: Tag, pending: seq<Item>, closing: bool, posts: seq<Post>)
    requires forall i :: 0 <= i < |pending| && pending[i].hook == CallDisconnected ==> i == |pending| - 1
    ensures var l := Drain(tag, pending, closing, posts, true, true);
            PostItems(l.posts) + Waiting(l.queue) == PostItems(posts) + pending
  {
    if pending != [] {
      var posted := posts + Posted(tag, pending[0].hook, pending[0].data, true);
      assert PostItems(posted) == PostItems(posts) + [pending[0]];
      assert pending == [pending[0]] + pending[1..];
    }
  }

  /** The events up to the destruction of the call's leg. */
  function UntilCleaned(events: seq<Event>, tag: Tag): (r: seq<Event>)
    ensures r <= events
  {
    if events == [] then []
    else
      var init, e := events[..|events| - 1], events[|events| - 1];
      if ProgressOf(init, tag).cleaned then UntilCleaned(init, tag)
      else if e.Cleaned? && e.tag == tag then init
      else events
  }

  /** Posted or waiting, in order. */
  function Kept(l: Line): seq<Item> {
    PostItems(l.posts) + Waiting(l.queue)
  }

  /** Without refused requests every hook of a call is posted or waiting, once and in order, with its
      own data: all of them while the leg is there or the session outlives it, and in any case all
      that came before the leg was destroyed. */
  lemma {:induction false} NothingLost(events: seq<Event>, tag: Tag)
    requires WellOrdered(events) && NoFailure(events)
    ensures var l, p := QueueRun(events, tag), ProgressOf(events, tag);
            && HookItems(UntilCleaned(events, tag), tag) <= Kept(l) <= HookItems(events, tag)
            && (!p.cleaned || l.queue.Active? ==> Kept(l) == HookItems(events, tag))
            && (!p.cleaned && p.last in {Some(CallStarted), Some(CallConnected)} ==> l.queue.Active?)
            && (!p.cleaned ==> UntilCleaned(events, tag) == events)
  {
    hide Kept, InOrder, WellOrdered, QueueStep, LineInv, HooksOf;
    if events == [] {
      assert Kept(Line(Absent, [])) == [] by { NothingKept(); }
    } else {
      var init, e := events[..|events| - 1], events[|events| - 1];
      WellOrderedPrefix(events);
      NothingLost(init, tag);
      PostsInCallOrder(init, tag);
      var came := if e.tag == tag && e.Hooked? then [Item(e.hook, e.data)] else [];
      PrefixMore(Kept(QueueRun(init, tag)), HookItems(init, tag), came);
      PrefixMore(HookItems(UntilCleaned(init, tag), tag), HookItems(init, tag), came);
      if e.tag == tag {
        KeptStep(QueueRun(init, tag), ProgressOf(init, tag), e, HookItems(init, tag));
      }
    }
  }

  lemma PrefixMore(a: seq<Item>, b: seq<Item>, more: seq<Item>)
    requires a <= b
    ensures a <= b + more && b + [] == b
  {}

  lemma NothingKept()
    ensures Kept(Line(Absent, [])) == []
  {}

  /** A queue that is there keeps every hook that comes; one that is gone keeps what it had. */
  lemma KeptStep(l: Line, p: Progress, e: Event, items: seq<Item>)
    requires LineInv(l, p) && InOrder(p, e) && (e.Hooked? ==> e.ok)
    requires e.Answered? ==> e.okConnected && e.okDisconnected
    requires !p.cleaned || l.queue.Active? ==> Kept(l) == items
    requires !p.cleaned && p.last in {Some(CallStarted), Some(CallConnected)} ==> l.queue.Active?
    ensures var l', came := QueueStep(l, e), if e.Hooked? then [Item(e.hook, e.data)] else [];
            && (!p.cleaned || l.queue.Active? ==> Kept(l') == items + came)
            && (p.cleaned && l.queue.Absent? ==> l' == l)
            && (!p.cleaned && e.Hooked? && e.hook != CallDisconnected ==> l'.queue.Active?)
            && (!p.cleaned && e.Answered? && p.last in {Some(CallStarted), Some(CallConnected)} ==> l'.queue.Active?)
  {
    assert items + [] == items;
    match e
    case Hooked(tag, hook, data, _) => HookKept(l, p, e);
    case Answered(tag, _, _) =>
      if l.queue.Active? && l.queue.inFlight {
        ReplyConserves(l, p, tag);
      }
    case Cleaned(_) =>
      if l.queue.Active? && !l.queue.inFlight {
        assert PostItems(l.posts) + [] == PostItems(l.posts);
      }
  }

  lemma HookKept(l: Line, p: Progress, e: Event)
    requires LineInv(l, p) && InOrder(p, e) && e.Hooked? && e.ok
    requires !p.cleaned && p.last in {Some(CallStarted), Some(CallConnected)} ==> l.queue.Active?
    ensures !p.cleaned || l.queue.Active? ==> Kept(QueueStep(l, e)) == Kept(l) + [Item(e.hook, e.data)]
    ensures p.cleaned && l.queue.Absent? ==> QueueStep(l, e) == l
    ensures !p.cleaned && e.hook != CallDisconnected ==> QueueStep(l, e).queue.Active?
  {
    var item := Item(e.hook, e.data);
    if l.queue.Absent? {
      if e.hook == CallStarted {
        if l.posts != [] {
          TrailHead(l);
        }
        assert l.posts == [] && Kept(l) == [];
        assert PostItems([Post(e.tag, e.hook, e.data, true)]) + [] == [item];
      }
    } else {
      assert PostItems(l.posts) + (l.queue.pending + [item]) == Kept(l) + [item];
      if !l.queue.inFlight {
        assert l.queue.pending + [item] == [item];
        DrainConserves(e.tag, [item], l.queue.closing, l.posts);
      }
    }
  }

  lemma DisconnectEndsPending(l: Line, p: Progress)
    requires LineInv(l, p) && l.queue.Active?
    ensures forall i :: 0 <= i < |l.queue.pending| && l.queue.pending[i].hook == CallDisconnected ==>
              i == |l.queue.pending| - 1
  {
    forall i | 0 <= i < |l.queue.pending| && l.queue.pending[i].hook == CallDisconnected
      ensures i == |l.queue.pending| - 1
    {
      assert Trail(l)[|l.posts| + i] == CallDisconnected;
      DisconnectIsLast(Trail(l), |l.posts| + i);
    }
  }

  lemma ReplyConserves(l: Line, p: Progress, tag: Tag)
    requires LineInv(l, p) && l.queue.Active? && l.queue.inFlight
    ensures var l' := Drain(tag, l.queue.pending, l.queue.closing, l.posts, true, true);
            && PostItems(l'.posts) + Waiting(l'.queue) == PostItems(l.posts) + l.queue.pending
            && (!p.cleaned && p.last in {Some(CallStarted), Some(CallConnected)} ==> l'.queue.Active?)
  {
    DisconnectEndsPending(l, p);
    DrainConserves(tag, l.queue.pending, l.queue.closing, l.posts);
    if l.queue.pending != [] {
      assert Trail(l)[|l.posts|] == l.queue.pending[0].hook;
      assert l.queue.pending[0].hook in Trail(l);
    }
  }
}
