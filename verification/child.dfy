/** The child half of the parent/child handshake (class `ChildComponent`).
    Windows are abstract identifiers; the message transport is an ordered
    trace of effects into which every send is appended; a reply to an INIT, a
    failed INIT, an inbound message and the settling of a REDIRECT request are
    events the component is handed explicitly. */
module Child {
  import opened Util

  type Window = nat

  /** The protocol's message types. */
  datatype MsgType = INIT | PROPS | CLOSE | RESIZE | REDIRECT

  /** The display context the parent announces in its INIT reply; `Unset`
      before the handshake completes, or when the reply names no context. */
  datatype Context = Unset | Popup | Iframe

  /** Where a message goes: a named window, or the parent the transport picks
      for `sendToParent`. */
  datatype Target = To(win: Window) | ToParent

  datatype Payload = Empty | Dimensions(height: int, width: int) | Url(url: string)

  datatype Message = Message(target: Target, kind: MsgType, payload: Payload)

  /** The four one-shot callbacks. */
  datatype Hook = OnEnter | OnExit | OnClose | OnError

  /** Everything the component does that can be observed, in order. */
  datatype Effect =
    | Sent(msg: Message)
    | Listened(kind: MsgType, win: Window)
    | Entered
    | Exited
    | Closed
    | Errored(reason: string)
    | PropsChanged
    | WindowResized(width: int, height: int)
    | WindowFocused

  /** The reply to INIT: an optional relay frame name, the display context and
      the initial props. */
  datatype InitReply = InitReply(parentId: Option<string>, context: Context, props: Props)

  /** The fields of an inbound message's data that the handlers read. */
  datatype Data = Data(props: Props, width: int, height: int)

  /** The state of the one INIT round trip the component keeps in flight. */
  datatype Handshake = InFlight(win: Window) | Completed | Failed

  /** The handlers of the listener table, one per inbound message type. */
  datatype Handler = MergeProps | CloseSelf | ResizeSelf

  /** How a REDIRECT request settled at the transport. */
  datatype SendOutcome = Acknowledged | Rejected(reason: string)

  /** What a REDIRECT continuation does: the window it navigates (after a
      zero-delay deferral), and whether it throws instead. */
  datatype Settlement = Settlement(navigation: Option<Window>, threw: bool)

  datatype ConstructionError = NoParentWindow(tag: string)

  /** The one-shot callback an effect is the run of, if any. */
  function HookOf(e: Effect): Option<Hook> {
    match e
    case Entered => Some(OnEnter)
    case Exited => Some(OnExit)
    case Closed => Some(OnClose)
    case Errored(_) => Some(OnError)
    case _ => None
  }

  /** How many times callback `h` has run in trace `t`. */
  function HookCount(t: seq<Effect>, h: Hook): nat {
    if t == [] then 0
    else HookCount(t[..|t| - 1], h) + (if HookOf(t[|t| - 1]) == Some(h) then 1 else 0)
  }

  /** The listener registrations in trace `t`, in order. */
  function Registered(t: seq<Effect>): seq<Effect> {
    if t == [] then []
    else Registered(t[..|t| - 1]) + (if t[|t| - 1].Listened? then [t[|t| - 1]] else [])
  }

  /** Every props callback in `t` comes after a run of the entered callback. */
  predicate EnteredFirst(t: seq<Effect>) {
    if t == [] then true
    else EnteredFirst(t[..|t| - 1]) && (t[|t| - 1] == PropsChanged ==> HookCount(t[..|t| - 1], OnEnter) > 0)
  }

  /** Callback `h` has run exactly once in `t` if its latch is closed, and
      never otherwise. */
  predicate Latched(t: seq<Effect>, fired: set<Hook>, h: Hook) {
    HookCount(t, h) == if h in fired then 1 else 0
  }

  /** What appending one effect does to the counts, the registrations and
      the order of the entered and props callbacks. */
  lemma TraceAppend(t: seq<Effect>, e: Effect)
    ensures forall h :: HookCount(t + [e], h) == HookCount(t, h) + (if HookOf(e) == Some(h) then 1 else 0)
    ensures Registered(t + [e]) == Registered(t) + (if e.Listened? then [e] else [])
    ensures EnteredFirst(t + [e]) <==> EnteredFirst(t) && (e == PropsChanged ==> HookCount(t, OnEnter) > 0)
  {
    assert (t + [e])[..|t + [e]| - 1] == t;
  }

  /** The state of a child component that every operation preserves:
      - each one-shot callback has run exactly once if its latch is closed,
        and never otherwise;
      - the entered latch is closed exactly when the handshake completed, the
        error latch exactly when it failed;
      - while an INIT is in flight it went to the component window, and no
        context has been taken yet;
      - the listeners registered are one per handled type, all bound to the
        component window, if the handshake completed, and none otherwise;
      - the entered callback runs before every props callback. */
  ghost predicate Consistent(t: seq<Effect>, fired: set<Hook>, hs: Handshake, win: Window, context: Context) {
    && Latched(t, fired, OnEnter) && Latched(t, fired, OnExit)
    && Latched(t, fired, OnClose) && Latched(t, fired, OnError)
    && (OnEnter in fired <==> hs.Completed?)
    && (OnError in fired <==> hs.Failed?)
    && (hs.InFlight? ==> win == hs.win && context == Unset)
    && Registered(t) == (if hs.Completed? then ListenersOn(win) else [])
    && EnteredFirst(t)
  }

  /** A freshly constructed component: one INIT to the parent window. */
  lemma InitialConsistent(parent: Window)
    ensures Consistent([Sent(Message(To(parent), INIT, Empty))], {}, InFlight(parent), parent, Unset)
  {
    TraceAppend([], Sent(Message(To(parent), INIT, Empty)));
  }

  /** Recording a send, a window effect or a props callback (the latter only
      once the handshake completed) keeps the state consistent. */
  lemma RecordConsistent(t: seq<Effect>, fired: set<Hook>, hs: Handshake, win: Window, context: Context, e: Effect)
    requires Consistent(t, fired, hs, win, context)
    requires HookOf(e).None? && !e.Listened?
    requires e == PropsChanged ==> hs.Completed?
    ensures Consistent(t + [e], fired, hs, win, context)
  {
    TraceAppend(t, e);
  }

  /** Triggering the exit or close callback runs it only if its latch is
      still open, and closes the latch. */
  lemma LatchConsistent(t: seq<Effect>, fired: set<Hook>, hs: Handshake, win: Window, context: Context, e: Effect)
    requires Consistent(t, fired, hs, win, context)
    requires e == Exited || e == Closed
    ensures Consistent(if HookOf(e).value in fired then t else t + [e], fired + {HookOf(e).value}, hs, win, context)
  {
    var h := HookOf(e).value;
    if h in fired {
      assert fired + {h} == fired;
    } else {
      var latched := fired + {h};
      TraceAppend(t, e);
      assert Latched(t + [e], latched, OnEnter) && Latched(t + [e], latched, OnError);
      assert Latched(t + [e], latched, OnExit) && Latched(t + [e], latched, OnClose);
    }
  }

  /** A redirecting reply: the INIT now in flight goes to the relay frame,
      which becomes the component window. */
  lemma RedirectConsistent(t: seq<Effect>, fired: set<Hook>, win: Window, frame: Window)
    requires Consistent(t, fired, InFlight(win), win, Unset)
    ensures Consistent(t + [Sent(Message(To(frame), INIT, Empty))], fired, InFlight(frame), frame, Unset)
  {
    TraceAppend(t, Sent(Message(To(frame), INIT, Empty)));
  }

  /** The registrations of `listen` run no callback, add exactly the
      listeners on `win`, and keep the entered callback ahead of every props
      callback. */
  lemma ListenersAppended(t: seq<Effect>, win: Window)
    ensures forall h :: HookCount(t + ListenersOn(win), h) == HookCount(t, h)
    ensures Registered(t + ListenersOn(win)) == Registered(t) + ListenersOn(win)
    ensures EnteredFirst(t + ListenersOn(win)) == EnteredFirst(t)
  {
    var t1 := t + [Listened(PROPS, win)];
    var t2 := t1 + [Listened(CLOSE, win)];
    TraceAppend(t, Listened(PROPS, win));
    TraceAppend(t1, Listened(CLOSE, win));
    TraceAppend(t2, Listened(RESIZE, win));
    assert t2 + [Listened(RESIZE, win)] == t + ListenersOn(win);
  }

  /** A completing reply: listeners on the component window, then the entered
      callback, then the props callback. */
  lemma CompletionConsistent(t: seq<Effect>, fired: set<Hook>, win: Window, context: Context)
    requires Consistent(t, fired, InFlight(win), win, Unset)
    ensures Consistent(t + ListenersOn(win) + [Entered, PropsChanged], fired + {OnEnter}, Completed, win, context)
  {
    var t3 := t + ListenersOn(win);
    var t4 := t3 + [Entered];
    ListenersAppended(t, win);
    TraceAppend(t3, Entered);
    TraceAppend(t4, PropsChanged);
    assert t4 + [PropsChanged] == t + ListenersOn(win) + [Entered, PropsChanged];
  }

  /** A failed INIT: the error callback runs and the handshake is over. */
  lemma FailureConsistent(t: seq<Effect>, fired: set<Hook>, win: Window, reason: string)
    requires Consistent(t, fired, InFlight(win), win, Unset)
    ensures Consistent(t + [Errored(reason)], fired + {OnError}, Failed, win, Unset)
  {
    TraceAppend(t, Errored(reason));
  }

  /** At most once: whatever the trace of a consistent component, no one-shot
      callback appears in it twice. */
  lemma {:induction false} AtMostOnce(t: seq<Effect>, fired: set<Hook>, hs: Handshake, win: Window, context: Context, i: nat, j: nat)
    requires Consistent(t, fired, hs, win, context)
    requires i < j < |t| && HookOf(t[i]).Some?
    ensures HookOf(t[j]) != HookOf(t[i])
  {
    var h := HookOf(t[i]).value;
    if HookOf(t[j]) == Some(h) {
      CountTwo(t, h, i, j);
      assert Latched(t, fired, h) by {
        match h
        case OnEnter =>
        case OnExit =>
        case OnClose =>
        case OnError =>
      }
      assert false;
    }
  }

  /** Ordering: in a consistent trace every props callback is preceded by a
      run of the entered callback. */
  lemma {:induction false} EnteredBeforeProps(t: seq<Effect>, i: nat)
    requires EnteredFirst(t)
    requires i < |t| && t[i] == PropsChanged
    ensures Entered in t[..i]
  {
    var last := |t| - 1;
    if i == last {
      CountedRun(t[..last]);
    } else {
      EnteredBeforeProps(t[..last], i);
      assert t[..last][..i] == t[..i];
    }
  }

  /** No props callback runs before the handshake completes. */
  lemma NoPropsBeforeCompletion(t: seq<Effect>, fired: set<Hook>, hs: Handshake, win: Window, context: Context)
    requires Consistent(t, fired, hs, win, context) && !hs.Completed?
    ensures PropsChanged !in t
  {
    if PropsChanged in t {
      var i :| 0 <= i < |t| && t[i] == PropsChanged;
      EnteredBeforeProps(t, i);
      var j :| 0 <= j < i && t[..i][j] == Entered;
      CountOne(t, OnEnter, j);
      assert false;
    }
  }

  /** The binding invariant: in a consistent state, a registered listener
      is for a handled type and bound to the component window, and exists
      only once the handshake has completed. */
  lemma BoundListener(t: seq<Effect>, fired: set<Hook>, hs: Handshake, win: Window, context: Context, kind: MsgType, source: Window)
    requires Consistent(t, fired, hs, win, context)
    requires Listened(kind, source) in Registered(t)
    ensures hs.Completed? && source == win && Handled(kind)
  {
    ListenerRegistrations(win);
  }

  /** A callback counted in a trace has a run in it. */
  lemma {:induction false} CountedRun(t: seq<Effect>)
    requires HookCount(t, OnEnter) > 0
    ensures Entered in t
  {
    var last := |t| - 1;
    if t[last] != Entered {
      CountedRun(t[..last]);
    }
  }

  /** Two runs of a callback at distinct positions count at least twice. */
  lemma {:induction false} CountTwo(t: seq<Effect>, h: Hook, i: nat, j: nat)
    requires i < j < |t| && HookOf(t[i]) == Some(h) && HookOf(t[j]) == Some(h)
    ensures HookCount(t, h) >= 2
  {
    var last := |t| - 1;
    assert t[..|t| - 1] + [t[last]] == t;
    if j == last {
      CountOne(t[..last], h, i);
    } else {
      CountTwo(t[..last], h, i, j);
    }
  }

  /** A run of a callback in a trace counts at least once. */
  lemma {:induction false} CountOne(t: seq<Effect>, h: Hook, i: nat)
    requires i < |t| && HookOf(t[i]) == Some(h)
    ensures HookCount(t, h) >= 1
  {
    var last := |t| - 1;
    if i < last {
      CountOne(t[..last], h, i);
    }
  }

  /** The frame `parentId` names in the parent window's frame registry, when
      it is a non-empty name the registry knows. */
  function NamedFrame(parentId: Option<string>, parentFrames: map<string, Window>): (r: Option<Window>)
    ensures r.Some? <==> parentId.Some? && parentId.value != "" && parentId.value in parentFrames
    ensures r.Some? ==> r.value == parentFrames[parentId.value]
  {
    match parentId
    case Some(id) => if id != "" && id in parentFrames then Some(parentFrames[id]) else None
    case None => None
  }

  /** What the component does with a reply to the INIT it sent to `win`. */
  datatype InitStep = RedirectTo(frame: Window) | Complete

  /** The redirect rule: a reply naming a known frame of the parent window
      that differs from `win` restarts the handshake against that frame; a
      reply with no name, an empty name, an unknown name or a name for `win`
      itself completes the handshake. */
  function NextInitStep(win: Window, parentId: Option<string>, parentFrames: map<string, Window>): (s: InitStep)
    ensures parentId.None? || parentId == Some("") ==> s == Complete
    ensures parentId.Some? && parentId.value !in parentFrames ==> s == Complete
    ensures parentId.Some? && parentId.value in parentFrames && parentFrames[parentId.value] == win ==> s == Complete
    ensures parentId.Some? && parentId.value != "" && parentId.value in parentFrames && parentFrames[parentId.value] != win
            ==> s == RedirectTo(parentFrames[parentId.value])
  {
    var frame := NamedFrame(parentId, parentFrames);
    if frame.Some? && frame.value != win then RedirectTo(frame.value) else Complete
  }

  /** The listener table: a handler for PROPS, CLOSE and RESIZE, in that
      order, and for no other type. */
  function ParentListeners(): (table: seq<(MsgType, Handler)>)
    ensures forall i, j :: 0 <= i < j < |table| ==> table[i].0 != table[j].0
    ensures forall k :: HandlerFor(table, k).Some? <==> Handled(k)
    ensures HandlerFor(table, PROPS) == Some(MergeProps)
    ensures HandlerFor(table, CLOSE) == Some(CloseSelf)
    ensures HandlerFor(table, RESIZE) == Some(ResizeSelf)
  {
    [(PROPS, MergeProps), (CLOSE, CloseSelf), (RESIZE, ResizeSelf)]
  }

  /** The handler the table holds for `kind`, if any. */
  function HandlerFor(table: seq<(MsgType, Handler)>, kind: MsgType): Option<Handler> {
    if table == [] then None
    else if table[0].0 == kind then Some(table[0].1)
    else HandlerFor(table[1..], kind)
  }

  /** The types the listener table handles. */
  predicate Handled(kind: MsgType) {
    kind == PROPS || kind == CLOSE || kind == RESIZE
  }

  /** The registrations `listen` makes for a table, all bound to `win`. */
  function Registrations(table: seq<(MsgType, Handler)>, win: Window): seq<Effect> {
    if table == [] then []
    else Registrations(table[..|table| - 1], win) + [Listened(table[|table| - 1].0, win)]
  }

  /** One listener for each handled type, bound to `win`. */
  function ListenersOn(win: Window): seq<Effect> {
    [Listened(PROPS, win), Listened(CLOSE, win), Listened(RESIZE, win)]
  }

  /** `listen` registers PROPS, CLOSE and RESIZE, in that order, and each
      registration is for a type the table handles. */
  lemma ListenerRegistrations(win: Window)
    ensures Registrations(ParentListeners(), win) == ListenersOn(win)
    ensures forall k, w :: Listened(k, w) in ListenersOn(win) <==> Handled(k) && w == win
  {
    var table := ParentListeners();
    var first, firstTwo := table[..1], table[..2];
    assert first[..0] == [];
    assert Registrations(first, win) == [Listened(PROPS, win)];
    assert firstTwo[..1] == first;
    assert Registrations(firstTwo, win) == [Listened(PROPS, win), Listened(CLOSE, win)];
    assert table[..|table| - 1] == firstTwo;
  }

  /** The window the local fallback navigates: the opener if there is one,
      otherwise the enclosing window, otherwise none. In a browser every
      window has a parent (a top-level window is its own), so the last case
      does not arise there; it is kept so that the choice is total. */
  function RedirectTarget(opener: Option<Window>, parent: Option<Window>): (r: Option<Window>)
    ensures opener.Some? ==> r == opener
    ensures opener.None? ==> r == parent
  {
    if opener.Some? then opener else parent
  }

  /** The REDIRECT continuations as written: both are plain functions, so
      `this` is not the component inside them, and reading
      `this.component.tag` for the warning throws before `redirect()` is
      reached, whatever the outcome. */
  function RedirectContinuationAsWritten(outcome: SendOutcome, opener: Option<Window>, parent: Option<Window>): (s: Settlement)
    ensures s.threw && s.navigation.None?
  {
    Settlement(None, true)
  }

  /** The REDIRECT continuations as intended: whether the parent acknowledged
      without navigating or the request failed, the child falls back to
      navigating the opener, else the enclosing window. */
  function RedirectContinuation(outcome: SendOutcome, opener: Option<Window>, parent: Option<Window>): (s: Settlement)
    ensures !s.threw
    ensures s.navigation == RedirectTarget(opener, parent)
  {
    Settlement(RedirectTarget(opener, parent), false)
  }

  /** As written, a child with an opener never falls back to navigating it,
      though the intended continuation does. */
  lemma RedirectFallbackUnreached(opener: Window)
    ensures RedirectContinuationAsWritten(Acknowledged, Some(opener), None).navigation == None
    ensures RedirectContinuation(Acknowledged, Some(opener), None).navigation == Some(opener)
  {
  }

  class ChildComponent {
    const tag: string
    const parentWindow: Window
    var parentComponentWindow: Window
    var context: Context
    var props: Props
    var handshake: Handshake
    /** The one-shot callbacks whose latch has closed. */
    var fired: set<Hook>
    /** REDIRECT requests whose continuation has not run yet, by url. */
    var redirects: multiset<string>
    var trace: seq<Effect>

    ghost predicate Valid()
      reads this
    {
      Consistent(trace, fired, handshake, parentComponentWindow, context)
    }

    /** Construction once a parent window was found: props start empty, the
        parent window is also the component window, and one INIT goes to it. */
    constructor (tag: string, parent: Window)
      ensures Valid()
      ensures this.tag == tag && parentWindow == parent && parentComponentWindow == parent
      ensures props == map[] && context == Unset && fired == {} && redirects == multiset{}
      ensures handshake == InFlight(parent)
      ensures trace == [Sent(Message(To(parent), INIT, Empty))]
    {
      this.tag := tag;
      parentWindow := parent;
      parentComponentWindow := parent;
      context := Unset;
      props := map[];
      fired := {};
      redirects := multiset{};
      trace := [];
      handshake := InFlight(parent);
      new;
      Init(parent);
      InitialConsistent(parent);
    }

    /** Appends one effect to the trace. */
    method Record(e: Effect)
      modifies this`trace
      ensures trace == old(trace) + [e]
    {
      trace := trace + [e];
    }

    /** `init(win)`: send INIT to `win` and wait for its reply. */
    method Init(win: Window)
      modifies this`trace, this`handshake
      ensures handshake == InFlight(win)
      ensures trace == old(trace) + [Sent(Message(To(win), INIT, Empty))]
    {
      Record(Sent(Message(To(win), INIT, Empty)));
      handshake := InFlight(win);
    }

    /** A `once` wrapper: runs the callback of `e` unless its latch has
        already closed, and closes it. */
    method RunOnce(e: Effect)
      requires HookOf(e).Some?
      modifies this`trace, this`fired
      ensures fired == old(fired) + {HookOf(e).value}
      ensures trace == if HookOf(e).value in old(fired) then old(trace) else old(trace) + [e]
    {
      var h := HookOf(e).value;
      if h !in fired {
        Record(e);
        fired := fired + {h};
      }
    }

    /** `listen()`: register one listener per entry of the listener table,
        each bound to the current component window. */
    method Listen()
      modifies this`trace
      ensures trace == old(trace) + ListenersOn(parentComponentWindow)
    {
      var table := ParentListeners();
      var i := 0;
      while i < |table|
        invariant 0 <= i <= |table|
        invariant trace == old(trace) + Registrations(table[..i], parentComponentWindow)
      {
        assert table[..i + 1][..i] == table[..i];
        Record(Listened(table[i].0, parentComponentWindow));
        i := i + 1;
      }
      assert table[..i] == table;
      ListenerRegistrations(parentComponentWindow);
    }

    /** The reply to the INIT in flight, with the parent window's frame
        registry as it stands when the reply is handled. */
    method HandleInitReply(reply: InitReply, parentFrames: map<string, Window>)
      requires Valid() && handshake.InFlight?
      modifies this
      ensures Valid()
      ensures redirects == old(redirects)
      ensures match NextInitStep(old(handshake.win), reply.parentId, parentFrames)
        case RedirectTo(frame) =>
          && parentComponentWindow == frame
          && handshake == InFlight(frame)
          && trace == old(trace) + [Sent(Message(To(frame), INIT, Empty))]
          && props == old(props) && context == old(context) && fired == old(fired)
        case Complete =>
          && parentComponentWindow == old(handshake.win)
          && handshake == Completed
          && context == reply.context
          && props == Extend(old(props), reply.props)
          && fired == old(fired) + {OnEnter}
          && trace == old(trace) + ListenersOn(old(handshake.win)) + [Entered, PropsChanged]
    {
      var win := handshake.win;
      var frame := NamedFrame(reply.parentId, parentFrames);
      if frame.Some? {
        parentComponentWindow := frame.value;
        if win != parentComponentWindow {
          RedirectConsistent(trace, fired, win, frame.value);
          Init(parentComponentWindow);
          return;
        }
      }
      CompleteHandshake(reply);
    }

    /** The reply to the INIT sent to the component window completes the
        handshake: listen on that window, take the reply's context, merge its
        props, then run the entered callback and the props callback. */
    method CompleteHandshake(reply: InitReply)
      requires Valid() && handshake.InFlight?
      modifies this
      ensures Valid()
      ensures redirects == old(redirects)
      ensures parentComponentWindow == old(handshake.win)
      ensures handshake == Completed
      ensures context == reply.context
      ensures props == Extend(old(props), reply.props)
      ensures fired == old(fired) + {OnEnter}
      ensures trace == old(trace) + ListenersOn(old(handshake.win)) + [Entered, PropsChanged]
    {
      var win := handshake.win;
      ghost var before, latched := trace, fired;
      CompletionConsistent(before, latched, win, reply.context);
      Listen();
      context := reply.context;
      props := Extend(props, reply.props);
      handshake := Completed;
      assert OnEnter !in fired;
      RunOnce(Entered);
      trace := trace + [PropsChanged];
      assert fired == latched + {OnEnter};
      assert trace == before + ListenersOn(win) + [Entered, PropsChanged];
    }

    /** The INIT in flight failed: the error callback runs with the failure
        and nothing else happens. */
    method HandleInitFailure(reason: string)
      requires Valid() && handshake.InFlight?
      modifies this
      ensures Valid()
      ensures handshake == Failed
      ensures fired == old(fired) + {OnError}
      ensures trace == old(trace) + [Errored(reason)]
      ensures parentComponentWindow == old(parentComponentWindow) && context == old(context)
      ensures props == old(props) && redirects == old(redirects)
    {
      FailureConsistent(trace, fired, handshake.win, reason);
      RunOnce(Errored(reason));
      handshake := Failed;
    }

    /** An inbound message of type `kind` from `source`; the transport hands
        it over only when a listener for that type is bound to `source`. */
    method Receive(kind: MsgType, source: Window, data: Data)
      requires Valid() && Listened(kind, source) in Registered(trace)
      modifies this
      ensures Valid()
      ensures source == parentComponentWindow && handshake == Completed
      ensures old(props).Keys <= props.Keys
      ensures parentComponentWindow == old(parentComponentWindow) && context == old(context)
      ensures handshake == old(handshake) && redirects == old(redirects)
      ensures kind == PROPS ==>
        && props == Extend(old(props), data.props)
        && fired == old(fired)
        && trace == old(trace) + [PropsChanged]
      ensures kind == CLOSE ==>
        && props == old(props)
        && fired == old(fired) + {OnClose}
        && trace == (if OnClose in old(fired) then old(trace) else old(trace) + [Closed])
                    + [Sent(Message(ToParent, CLOSE, Empty))]
      ensures kind == RESIZE ==>
        && props == old(props)
        && fired == old(fired)
        && trace == old(trace) + [WindowResized(data.width, data.height)]
    {
      BoundListener(trace, fired, handshake, parentComponentWindow, context, kind, source);
      var handler := HandlerFor(ParentListeners(), kind);
      match handler {
        case Some(MergeProps) =>
          props := Extend(props, data.props);
          Append(PropsChanged);
        case Some(CloseSelf) =>
          Close();
        case Some(ResizeSelf) =>
          Append(WindowResized(data.width, data.height));
        case None =>
      }
    }

    /** Records an effect that is neither a callback run nor a listener
        registration. */
    method Append(e: Effect)
      requires Valid()
      requires HookOf(e).None? && !e.Listened?
      requires e == PropsChanged ==> handshake.Completed?
      modifies this`trace
      ensures Valid()
      ensures trace == old(trace) + [e]
    {
      RecordConsistent(trace, fired, handshake, parentComponentWindow, context, e);
      Record(e);
    }

    /** `close()`: the close callback, once, and then a CLOSE to the parent on
        every call. */
    method Close()
      requires Valid()
      modifies this`trace, this`fired
      ensures Valid()
      ensures fired == old(fired) + {OnClose}
      ensures trace == (if OnClose in old(fired) then old(trace) else old(trace) + [Closed])
                       + [Sent(Message(ToParent, CLOSE, Empty))]
      ensures parentComponentWindow == old(parentComponentWindow) && context == old(context)
      ensures props == old(props) && handshake == old(handshake) && redirects == old(redirects)
    {
      if OnClose in fired {
        assert fired + {OnClose} == fired;
      } else {
        LatchConsistent(trace, fired, handshake, parentComponentWindow, context, Closed);
      }
      RunOnce(Closed);
      Append(Sent(Message(ToParent, CLOSE, Empty)));
    }

    /** `onExit`: exposed to the host; runs the exit callback at most once. */
    method Exit()
      requires Valid()
      modifies this`trace, this`fired
      ensures Valid()
      ensures fired == old(fired) + {OnExit}
      ensures trace == if OnExit in old(fired) then old(trace) else old(trace) + [Exited]
      ensures parentComponentWindow == old(parentComponentWindow) && context == old(context)
      ensures props == old(props) && handshake == old(handshake) && redirects == old(redirects)
    {
      if OnExit in fired {
        assert fired + {OnExit} == fired;
      } else {
        LatchConsistent(trace, fired, handshake, parentComponentWindow, context, Exited);
      }
      RunOnce(Exited);
    }

    /** `focus()`: focus the child's own window. */
    method Focus()
      requires Valid()
      modifies this
      ensures Valid()
      ensures trace == old(trace) + [WindowFocused]
      ensures fired == old(fired) && parentComponentWindow == old(parentComponentWindow)
      ensures context == old(context) && props == old(props)
      ensures handshake == old(handshake) && redirects == old(redirects)
    {
      Append(WindowFocused);
    }

    /** `resize(height, width)`: a popup resizes its own window to
        (width, height) and sends nothing; an iframe asks its parent with one
        RESIZE and resizes nothing; with no context it does nothing. */
    method Resize(height: int, width: int)
      requires Valid()
      modifies this
      ensures Valid()
      ensures context == Popup ==> trace == old(trace) + [WindowResized(width, height)]
      ensures context == Iframe ==> trace == old(trace) + [Sent(Message(ToParent, RESIZE, Dimensions(height, width)))]
      ensures context == Unset ==> trace == old(trace)
      ensures fired == old(fired) && parentComponentWindow == old(parentComponentWindow)
      ensures context == old(context) && props == old(props)
      ensures handshake == old(handshake) && redirects == old(redirects)
    {
      if context == Popup {
        Append(WindowResized(width, height));
      } else if context == Iframe {
        Append(Sent(Message(ToParent, RESIZE, Dimensions(height, width))));
      }
    }

    /** `redirectParent(url)`: one REDIRECT carrying `url` to the parent; its
        continuation stays pending until the request settles. */
    method RedirectParent(url: string)
      requires Valid()
      modifies this
      ensures Valid()
      ensures trace == old(trace) + [Sent(Message(ToParent, REDIRECT, Url(url)))]
      ensures redirects == old(redirects) + multiset{url}
      ensures fired == old(fired) && parentComponentWindow == old(parentComponentWindow)
      ensures context == old(context) && props == old(props) && handshake == old(handshake)
    {
      Append(Sent(Message(ToParent, REDIRECT, Url(url))));
      redirects := redirects + multiset{url};
    }

    /** A pending REDIRECT for `url` settled with `outcome`, and its
        continuation runs as written: it throws before reaching the fallback,
        so the request is no longer pending, the promise `redirectParent`
        returned rejects, and nothing is navigated. */
    method RedirectSettled(url: string, outcome: SendOutcome, opener: Option<Window>, parent: Option<Window>)
      returns (threw: bool)
      requires Valid() && url in redirects
      modifies this`redirects
      ensures threw
      ensures redirects == old(redirects) - multiset{url}
      ensures Valid() && trace == old(trace)
    {
      var settlement := RedirectContinuationAsWritten(outcome, opener, parent);
      redirects := redirects - multiset{url};
      threw := settlement.threw;
    }
  }

  method NewChildComponent(tag: string, parent: Option<Window>) returns (r: Result<ChildComponent, ConstructionError>)
    ensures r.Failure? <==> parent.None?
    ensures r.Failure? ==> r.error == NoParentWindow(tag)
    ensures r.Success? ==>
      && fresh(r.value) && r.value.Valid()
      && r.value.parentWindow == parent.value && r.value.parentComponentWindow == parent.value
      && r.value.tag == tag && r.value.redirects == multiset{}
      && r.value.props == map[] && r.value.context == Unset && r.value.fired == {}
      && r.value.handshake == InFlight(parent.value)
      && r.value.trace == [Sent(Message(To(parent.value), INIT, Empty))]
  {
    if parent.None? {
      return Failure(NoParentWindow(tag));
    }
    var child := new ChildComponent(tag, parent.value);
    return Success(child);
  }
}
