/** Client walks through the child component, showing what its contracts let
    a caller conclude. */
module Scenarios {
  import opened Util
  import opened Child

  /** An iframe parent replies without a relay frame and with props {x: 1}:
      the listeners are bound to that window and the props are {x: 1}. */
  method IframeHandshake() {
    var child := new ChildComponent("widget", 1);
    child.HandleInitReply(InitReply(None, Iframe, map["x" := Num(1)]), map[]);
    assert child.props == map["x" := Num(1)];
    assert Registered(child.trace) == ListenersOn(1);
  }

  /** A later PROPS {y: 2} from the bound window is merged in over {x: 1}. */
  method PropsUpdate(child: ChildComponent)
    requires child.Valid() && child.handshake == Completed && child.parentComponentWindow == 1
    requires child.props == map["x" := Num(1)]
    modifies child
  {
    ListenerRegistrations(1);
    child.Receive(PROPS, 1, Data(map["y" := Num(2)], 0, 0));
    assert child.props == map["x" := Num(1), "y" := Num(2)];
  }

  /** In an iframe, a resize is one RESIZE to the parent. */
  method IframeResize(child: ChildComponent)
    requires child.Valid() && child.context == Iframe
    modifies child
  {
    ghost var before := child.trace;
    child.Resize(300, 200);
    assert child.trace == before + [Sent(Message(ToParent, RESIZE, Dimensions(300, 200)))];
  }

  /** Closing twice runs the close callback once and sends CLOSE twice. */
  method CloseTwice(child: ChildComponent)
    requires child.Valid() && OnClose !in child.fired
    modifies child
  {
    ghost var before := child.trace;
    child.Close();
    assert child.trace == before + [Closed, Sent(Message(ToParent, CLOSE, Empty))];
    assert OnClose in child.fired;
    ghost var once := child.trace;
    child.Close();
    assert child.trace == once + [Sent(Message(ToParent, CLOSE, Empty))];
  }

  /** The parent window names a relay frame; the INIT goes on to the relay,
      whose reply names itself, so the handshake completes there and the
      listeners are bound to the relay. */
  method RelayHandshake() {
    var child := new ChildComponent("widget", 1);
    var frames := map["relay" := 2];
    child.HandleInitReply(InitReply(Some("relay"), Popup, map[]), frames);
    assert child.handshake == InFlight(2) && child.parentComponentWindow == 2;

    child.HandleInitReply(InitReply(Some("relay"), Popup, map[]), frames);
    assert child.handshake == Completed && child.parentComponentWindow == 2;
    assert Registered(child.trace) == ListenersOn(2);
  }

  /** A failed INIT runs the error callback and leaves the component without
      context, so a resize does nothing. */
  method FailedHandshake() {
    var child := new ChildComponent("widget", 1);
    child.HandleInitFailure("timeout");
    assert child.trace == [Sent(Message(To(1), INIT, Empty)), Errored("timeout")];
    child.Resize(300, 200);
    assert child.trace == [Sent(Message(To(1), INIT, Empty)), Errored("timeout")];
  }

  /** A popup with an opener asks its parent to redirect; the parent
      acknowledges without navigating, and the continuation as written throws
      before the fallback, so the opener is never navigated. */
  method RedirectNotFollowed(child: ChildComponent)
    requires child.Valid()
    modifies child
  {
    ghost var before := child.trace;
    child.RedirectParent("https://example.com/next");
    var threw := child.RedirectSettled("https://example.com/next", Acknowledged, Some(7), None);
    assert threw && child.trace == before + [Sent(Message(ToParent, REDIRECT, Url("https://example.com/next")))];
  }
}
