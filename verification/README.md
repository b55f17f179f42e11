# zoid child component, modelled in Dafny

This project models `ChildComponent` from zoid (`src/component/child.js`). It
is the half of a cross-window component that runs inside the child window,
either an iframe or a popup. The child:

- sends INIT to its parent window;
- follows a relay frame if the reply names one;
- binds its listeners for PROPS, CLOSE and RESIZE to the window that
  completed the handshake;
- takes the announced context (popup or iframe) and merges the initial props;
- runs its one-shot callbacks: enter, exit, close and error.

It also offers `close`, `focus`, `resize` and `redirectParent`.

Windows are abstract identifiers (`Window = nat`). Everything the component
does is appended, in order, to one trace of effects:

- messages sent;
- listener registrations;
- callback runs;
- window resizes and focus.

The transport's replies come in as explicit events, each a method:

- the INIT reply (`HandleInitReply`);
- a failed INIT (`HandleInitFailure`);
- an inbound message from a bound window (`Receive`);
- the settling of a REDIRECT request (`RedirectSettled`).

Files:

- `util.dfy` (module `Util`) holds the option and result wrappers, the prop
  values, and `Extend`, the shallow overwrite-by-key merge.
- `child.dfy` (module `Child`) holds three parts:
  - the trace invariant and its transition lemmas;
  - the protocol functions: the redirect rule, the listener table, the
    redirect fallback;
  - the `ChildComponent` class, whose methods update its fields in place
    the way the JavaScript object does.
- `scenarios.dfy` (module `Scenarios`) holds client walks. They show what
  the contracts let a caller conclude: an iframe handshake, a props update,
  a relay handshake, a failed handshake, closing twice, and a redirect
  request that is not followed.

The class invariant `Valid()` is the value-level predicate
`Child.Consistent`, applied to the object's fields. It says:

- each one-shot callback has run exactly once if its latch is closed, and
  never otherwise;
- the enter latch is closed exactly when the handshake has completed, and
  the error latch exactly when it failed;
- while an INIT is in flight, it went to the component window;
- the registered listeners are exactly PROPS, CLOSE and RESIZE, all bound to
  the component window, once the handshake has completed, and there are none
  before that;
- every props callback comes after the enter callback.

The constructor, `HandleInitReply`, `CompleteHandshake`, `HandleInitFailure`,
`Receive`, `Close`, `Exit`, `Focus`, `Resize`, `RedirectParent` and
`RedirectSettled` keep `Valid()`. `Record`, `Init`, `RunOnce` and `Listen` are
steps inside them and do not promise it on their own.

Three behaviours of the code are worth stating plainly:

- A relay frame is looked up in `this.parentWindow.frames`, the frames of
  the original parent window, not in the frames of the window that replied
  (`src/component/child.js:35`).
- `close` sends CLOSE on every call; only the close callback is once-only
  (`src/component/child.js:91-94`).
- Listener bindings are added, never replaced (`src/component/child.js:84-88`).
  The model's `listen` runs once per completed handshake, so no duplicate
  arises here.

## Model

| member | source | states |
|---|---|---|
| Util.Extend | src/component/child.js:48 | The merged props have exactly the keys of both sides. Every key of the update takes the update's value. Every other key keeps its old value, so nothing is ever removed. |
| Util.ExtendAssociative | src/component/child.js:63 | Merging two updates one after the other equals merging their merge once. |
| Util.ExtendIdempotent | src/component/child.js:63 | Handling the same props update twice leaves the same props as handling it once. |
| Util.ExtendLaterValueWins | src/component/child.js:48 | `{a: 1}` followed by `{a: 2, b: 3}` gives `{a: 2, b: 3}`: the later value wins. |
| Child.NamedFrame | src/component/child.js:35-36 | A relay frame is found exactly when the reply names a non-empty parentId that the parent window's frame registry holds. The frame is that registry entry. |
| Child.NextInitStep | src/component/child.js:35-45 | Redirect rule. A missing name, an empty name, an unknown name, or a name resolving to the window just asked completes the handshake. A name resolving to another frame restarts INIT against that frame. |
| Child.ParentListeners | src/component/child.js:60-75 | The listener table has distinct types. It has a handler exactly for PROPS, CLOSE and RESIZE: merge props, close, and resize. |
| Child.ListenerRegistrations | src/component/child.js:82-88 | `listen` over the table registers PROPS, CLOSE and RESIZE in that order, all bound to the given window. A registration exists only for a handled type on that window. |
| Child.InitialConsistent | src/component/child.js:14-29 | A new component, whose trace is one INIT to the parent with all latches open, satisfies the invariant. |
| Child.RecordConsistent | src/component/child.js:62-64 | Recording a send, a window effect, or a props callback after completion keeps the invariant. |
| Child.LatchConsistent | src/component/child.js:15-16 | Triggering the exit or close callback keeps the invariant. The callback is recorded only if its latch was open, and the latch is then closed. |
| Child.RedirectConsistent | src/component/child.js:36-39 | Redirecting to a relay frame keeps the invariant, with the INIT now in flight to the frame. |
| Child.ListenersAppended | src/component/child.js:84-88 | The registrations of `listen` run no callback, add exactly the listeners on the window, and keep the enter-before-props order. |
| Child.CompletionConsistent | src/component/child.js:43-51 | Completing the handshake keeps the invariant. The effects are: listen, then the enter callback, then the props callback. The enter latch closes and no other latch changes. |
| Child.FailureConsistent | src/component/child.js:53 | A failed INIT runs the error callback and keeps the invariant, with the handshake failed. |
| Child.AtMostOnce | src/component/child.js:14-17 | In every consistent trace, no one-shot callback (enter, exit, close, error) appears twice. |
| Child.EnteredBeforeProps | src/component/child.js:50-51 | Every props callback in a consistent trace is preceded by a run of the enter callback. |
| Child.NoPropsBeforeCompletion | src/component/child.js:43-51 | Before the handshake completes, no props callback has run. |
| Child.BoundListener | src/component/child.js:85 | Binding invariant. Any registered listener is for a handled type, is bound to the component window, and exists only after the handshake completed. |
| Child.RedirectTarget | src/component/child.js:117-124 | The fallback navigates the opener if there is one, otherwise the enclosing window. The last case, no window at all, cannot arise in a browser, where every window has a parent. |
| Child.RedirectContinuationAsWritten | src/component/child.js:129-135 | As written, both continuations throw before the fallback runs, and nothing is navigated. |
| Child.RedirectContinuation | src/component/child.js:115-135 | As intended, both the acknowledged and the rejected outcomes fall back to navigating `RedirectTarget`, without throwing. |
| Child.RedirectFallbackUnreached | src/component/child.js:129-131 | A child with an opener is never navigated as written, but is by the intended continuation. |
| Child.ChildComponent.constructor | src/component/child.js:9-30 | Props start empty, the parent window is also the component window, all latches are open, no context, and the trace is exactly one INIT to the parent. Establishes `Valid()`. |
| Child.NewChildComponent | src/component/child.js:23-29 | Construction fails with `NoParentWindow(tag)` exactly when no parent window exists. Otherwise it gives a fresh valid component in the initial state. |
| Child.ChildComponent.RunOnce | src/component/child.js:14-17 | A once-wrapped callback runs only if its latch is open, and the latch is closed afterwards. |
| Child.ChildComponent.Init | src/component/child.js:32-33 | Sends one INIT to the window and makes that the round trip in flight. |
| Child.ChildComponent.Listen | src/component/child.js:77-89 | The loop over the table appends exactly `ListenersOn(component window)` to the trace. |
| Child.ChildComponent.HandleInitReply | src/component/child.js:33-53 | Follows `NextInitStep`. On a redirect, the frame becomes the component window and gets one INIT, and nothing else changes. On completion: listeners are bound to the window that replied, it becomes the component window, the context is the reply's, props are `Extend(old, reply.props)`, the enter latch closes, and the trace gains listeners, then enter, then props. Keeps `Valid()`. |
| Child.ChildComponent.CompleteHandshake | src/component/child.js:43-51 | The completing branch on its own: the same new state as above, from any in-flight valid state. |
| Child.ChildComponent.HandleInitFailure | src/component/child.js:53 | A failed INIT appends only the error callback. The handshake is failed, the error latch is closed, and nothing else changes. |
| Child.ChildComponent.Receive | src/component/child.js:60-75 | Only a message from the bound component window, after completion, is handled. PROPS merges by `Extend` and runs the props callback. CLOSE behaves as `Close`. RESIZE resizes the window to (width, height). Props keys are never lost, and the window, context and handshake are unchanged. |
| Child.ChildComponent.Close | src/component/child.js:91-94 | Runs the close callback only if its latch is open, then appends one CLOSE to the parent on every call. Nothing else changes. |
| Child.ChildComponent.Exit | src/component/child.js:15 | The exit callback runs at most once. Nothing else changes. |
| Child.ChildComponent.Focus | src/component/child.js:96-98 | Focuses the child's window. Nothing else changes. |
| Child.ChildComponent.Resize | src/component/child.js:100-113 | A popup resizes its own window to (width, height) and sends nothing. An iframe sends one RESIZE carrying (height, width) to its parent and resizes nothing. Without a context, nothing happens. No other field changes. |
| Child.ChildComponent.RedirectParent | src/component/child.js:127-128 | Sends one REDIRECT carrying the url to the parent, and leaves that request pending. |
| Child.ChildComponent.RedirectSettled | src/component/child.js:129-135 | Settling a pending REDIRECT, acknowledged or rejected, runs the continuation as written: it throws, the request is no longer pending, and nothing is navigated or otherwise recorded. |

## Left out

- `validate` (`src/component/child.js:56-58`) has an empty body and is not modelled.
- The `extend` helper in `src/util` is not part of this model. `Util.Extend` is a shallow overwrite-by-key copy, as it is used at `src/component/child.js:48` and `:63`.
- `getParentWindow` in `src/util` is not part of this model. The parent window it finds, or its absence, is a parameter of `NewChildComponent`.
- The post-robot transport is left out: timing, retries, origin checks, and the sender filter of `postRobot.on`. `Receive` takes the filter as its precondition. `sendToParent`'s choice of target is the abstract `ToParent`.
- Child.ChildComponent.Resize runs its body when it is called. The source defers it to a promise continuation, so a context set in between is not captured. The returned promise is not modelled.
- Child.ChildComponent.Close does not model the promise returned by `sendToParent`, or its failure.
- The zero-delay `setTimeout` in `redirect` (`src/component/child.js:118-124`) is not modelled; as written that code is never reached (see Findings), and `Child.RedirectContinuation` gives only the window it would navigate.
- Child.ChildComponent.HandleInitReply takes a well-formed reply. A reply without `data` would throw inside the continuation and reach the error callback; that path is not modelled apart from `HandleInitFailure`.
- User callbacks (`onEnter`, `onProps`, and the others) are opaque effects in the trace. A callback that throws is not modelled.
- The error `listen` throws when there is no component window (`src/component/child.js:78-80`) cannot arise: the component window is always set in the model.
- The `console.warn` diagnostics in `redirectParent` are not modelled, apart from the exception described under Findings.
- Numbers are unbounded integers, not IEEE doubles. Prop values are a small JSON-like datatype.
- Context values other than popup and iframe are treated as no context.
- The window APIs (`resizeTo`, `focus`, `location`) are recorded as effects and have no further semantics.

## Findings

| source | as written | input that shows it | evidently intended | confidence | as-written member | corrected member |
|---|---|---|---|---|---|---|
| src/component/child.js:129-135 | Both REDIRECT continuations are plain `function`s that read `this.component.tag`. `this` is not the component there, so the property read throws before `redirect()` is called. | `redirectParent(url)` in a popup with an opener, with the parent acknowledging without navigating. The opener is never navigated. | Arrow functions, or a bound `this`: warn, then navigate the opener, else the enclosing window. | medium, not executed | Child.RedirectContinuationAsWritten | Child.RedirectContinuation |
