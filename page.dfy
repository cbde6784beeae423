/** The global browser state that the drag shims of `viewport.ffi.mjs` and
    `node.ffi.mjs` change: the children of `document.head`, the window's
    `mousemove` listeners and its pending one-shot `mouseup` listeners, and a
    log of the calls the page makes into the callbacks handed to the shims.

    Elements and JavaScript functions are modelled by identity (a number);
    the two `mouseup` closures the shims install are the constructors of
    `MouseUpHandler`. */
module Page {
  import opened Support

  /** A DOM element, by identity. */
  type Element = nat

  /** A JavaScript function handed to a shim, by identity. */
  type Listener = nat

  datatype MouseEvent = MouseEvent(clientX: real, clientY: real)

  /** The one-shot `mouseup` closures the two shims register. */
  datatype MouseUpHandler =
      /** node.ffi.mjs: remove `style` from the head, stop forwarding moves
          to `onMove`, then call `onMouseUp`. */
    | EndDrag(style: Element, onMove: Listener, onMouseUp: Listener)
      /** viewport.ffi.mjs: stop forwarding moves to `onMove`. */
    | EndMove(onMove: Listener)

  /** One call into a callback. `MouseUpHandled` records what the callback
      finds in the head and the move-listener list when it is called. */
  datatype Call =
    | Moved(listener: Listener, event: MouseEvent)
    | MouseUpHandled(listener: Listener, head: seq<Element>, moveListeners: seq<Listener>)

  /** The parts of the page a handler can change or a callback can observe. */
  datatype PageView = PageView(head: seq<Element>, moveListeners: seq<Listener>, calls: seq<Call>)

  /** The calls one `mousemove` makes: every registered listener, in
      registration order, receives the event. */
  function Deliver(listeners: seq<Listener>, ev: MouseEvent): (cs: seq<Call>)
    ensures |cs| == |listeners|
    ensures forall i :: 0 <= i < |listeners| ==> cs[i] == Moved(listeners[i], ev)
  {
    if listeners == [] then [] else [Moved(listeners[0], ev)] + Deliver(listeners[1..], ev)
  }

  /** A listener receives a move event exactly when it is registered. */
  lemma DeliverReaches(listeners: seq<Listener>, ev: MouseEvent, l: Listener)
    ensures Moved(l, ev) in Deliver(listeners, ev) <==> l in listeners
  {
    var cs := Deliver(listeners, ev);
    if l in listeners {
      var i :| 0 <= i < |listeners| && listeners[i] == l;
      assert cs[i] == Moved(l, ev);
    }
    if Moved(l, ev) in cs {
      var i :| 0 <= i < |cs| && cs[i] == Moved(l, ev);
      assert listeners[i] == l;
    }
  }

  /** One `mouseup` handler run on the page. When the style element is no
      longer a child of the head, `removeChild` throws and the rest of the
      handler does not run. */
  function Fire(v: PageView, h: MouseUpHandler): (r: PageView)
    ensures h.EndMove? ==> r.head == v.head && r.calls == v.calls
    ensures h.EndMove? ==> r.moveListeners == Without(v.moveListeners, h.onMove)
    ensures h.EndDrag? && h.style !in v.head ==> r == v
    ensures h.EndDrag? && h.style in v.head ==>
              && r.head == Without(v.head, h.style)
              && r.moveListeners == Without(v.moveListeners, h.onMove)
              && |r.calls| == |v.calls| + 1 && r.calls[..|v.calls|] == v.calls
              // the callback runs last: it already sees the style and the listener gone
              && r.calls[|v.calls|] == MouseUpHandled(h.onMouseUp, r.head, r.moveListeners)
              && h.style !in r.calls[|v.calls|].head
              && h.onMove !in r.calls[|v.calls|].moveListeners
  {
    match h
    case EndDrag(style, onMove, onMouseUp) =>
      if style !in v.head then v
      else
        var head := Without(v.head, style);
        var moves := Without(v.moveListeners, onMove);
        PageView(head, moves, v.calls + [MouseUpHandled(onMouseUp, head, moves)])
    case EndMove(onMove) =>
      v.(moveListeners := Without(v.moveListeners, onMove))
  }

  /** The handlers `hs` run in registration order. */
  function FireAll(v: PageView, hs: seq<MouseUpHandler>): PageView
  {
    if hs == [] then v else Fire(FireAll(v, hs[..|hs| - 1]), hs[|hs| - 1])
  }

  /** The style elements the drag handlers among `hs` will remove. */
  function Styles(hs: seq<MouseUpHandler>): set<Element>
  {
    set k | 0 <= k < |hs| && hs[k].EndDrag? :: hs[k].style
  }

  /** The `handle_mouseup` callbacks of the drag handlers among `hs`, in order. */
  function Releases(hs: seq<MouseUpHandler>): seq<Listener>
  {
    if hs == [] then []
    else Releases(hs[..|hs| - 1]) + (if hs[|hs| - 1].EndDrag? then [hs[|hs| - 1].onMouseUp] else [])
  }

  /** The `handle_mouseup` callbacks called in `cs`, in order. */
  function Handled(cs: seq<Call>): seq<Listener>
  {
    if cs == [] then []
    else Handled(cs[..|cs| - 1]) + (if cs[|cs| - 1].MouseUpHandled? then [cs[|cs| - 1].listener] else [])
  }

  /** Every drag handler's style is a child of the head, and no two drag
      handlers share a style: what holds while drags are in progress. */
  ghost predicate StylesPending(head: seq<Element>, hs: seq<MouseUpHandler>)
  {
    && (forall k :: 0 <= k < |hs| && hs[k].EndDrag? ==> hs[k].style in head)
    && (forall j, k :: 0 <= j < k < |hs| && hs[j].EndDrag? && hs[k].EndDrag? ==> hs[j].style != hs[k].style)
  }

  /** Running the handlers takes out of the head exactly the drag handlers'
      style elements; every other child stays. */
  lemma {:induction false} FireAllHead(v: PageView, hs: seq<MouseUpHandler>, e: Element)
    ensures e in FireAll(v, hs).head <==> e in v.head && e !in Styles(hs)
  {
    if hs != [] {
      var front := hs[..|hs| - 1];
      FireAllHead(v, front, e);
      assert Styles(hs) == Styles(front) + (if hs[|hs| - 1].EndDrag? then {hs[|hs| - 1].style} else {}) by {
        forall x | x in Styles(hs) ensures x in Styles(front) || (hs[|hs| - 1].EndDrag? && x == hs[|hs| - 1].style) {
          var k :| 0 <= k < |hs| && hs[k].EndDrag? && hs[k].style == x;
          if k < |hs| - 1 { assert front[k] == hs[k]; }
        }
        forall x | x in Styles(front) ensures x in Styles(hs) {
          var k :| 0 <= k < |front| && front[k].EndDrag? && front[k].style == x;
          assert hs[k] == front[k];
        }
      }
    }
  }

  /** Running the handlers never makes the head or the move-listener list
      hold a duplicate. */
  lemma {:induction false} FireAllNoDups(v: PageView, hs: seq<MouseUpHandler>)
    requires NoDups(v.head) && NoDups(v.moveListeners)
    ensures NoDups(FireAll(v, hs).head) && NoDups(FireAll(v, hs).moveListeners)
  {
    if hs != [] {
      var w := FireAll(v, hs[..|hs| - 1]);
      FireAllNoDups(v, hs[..|hs| - 1]);
      var h := hs[|hs| - 1];
      match h
      case EndDrag(style, onMove, _) =>
        WithoutNoDups(w.head, style);
        WithoutNoDups(w.moveListeners, onMove);
      case EndMove(onMove) =>
        WithoutNoDups(w.moveListeners, onMove);
    }
  }

  /** While drags are pending, one `mouseup` calls each drag's
      `handle_mouseup` exactly once, in the order the drags started, and calls
      nothing else. */
  lemma {:induction false} FireAllReleases(v: PageView, hs: seq<MouseUpHandler>)
    requires StylesPending(v.head, hs)
    ensures Handled(FireAll(v, hs).calls) == Handled(v.calls) + Releases(hs)
    ensures |FireAll(v, hs).calls| == |v.calls| + |Releases(hs)|
  {
    if hs != [] {
      var front := hs[..|hs| - 1];
      var h := hs[|hs| - 1];
      assert StylesPending(v.head, front) by {
        forall k | 0 <= k < |front| ensures front[k] == hs[k] { }
      }
      FireAllReleases(v, front);
      var w := FireAll(v, front);
      if h.EndDrag? {
        FireAllHead(v, front, h.style);
        assert h.style !in Styles(front) by {
          forall k | 0 <= k < |front| && front[k].EndDrag? ensures front[k].style != h.style {
            assert front[k] == hs[k];
          }
        }
        var r := Fire(w, h);
        assert r.calls == w.calls + [r.calls[|w.calls|]];
      }
    }
  }

  /** A drag whose style was appended to the head and whose listener was
      added, released with nothing else pending, leaves the head and the
      listeners as they were before it started; its `handle_mouseup` is
      called once and sees them so. */
  lemma ReleaseUndoesDrag(v: PageView, style: Element, onMove: Listener, onMouseUp: Listener)
    requires style !in v.head && onMove !in v.moveListeners
    ensures FireAll(PageView(v.head + [style], v.moveListeners + [onMove], v.calls),
                    [EndDrag(style, onMove, onMouseUp)])
         == PageView(v.head, v.moveListeners, v.calls + [MouseUpHandled(onMouseUp, v.head, v.moveListeners)])
  {
    var hs := [EndDrag(style, onMove, onMouseUp)];
    assert hs[..0] == [];
    WithoutAppended(v.head, style);
    WithoutAppended(v.moveListeners, onMove);
  }

  /** The window and `document.head` as the shims see them. */
  class Window {
    /** The children of `document.head`, in document order. */
    var head: seq<Element>
    /** The identity the next `document.createElement` returns. */
    var nextElement: nat
    /** The window's `mousemove` listeners, in registration order. */
    var moveListeners: seq<Listener>
    /** The window's pending one-shot `mouseup` listeners, in registration order. */
    var upListeners: seq<MouseUpHandler>
    /** Every call made so far into the callbacks handed to the shims. */
    var calls: seq<Call>

    ghost predicate Valid()
      reads this
    {
      && NoDups(head)
      && (forall e :: e in head ==> e < nextElement)
      && NoDups(moveListeners)
    }

    function View(): PageView
      reads this
    {
      PageView(head, moveListeners, calls)
    }

    constructor (initialHead: seq<Element>, initialMoveListeners: seq<Listener>, firstFree: nat)
      requires NoDups(initialHead) && NoDups(initialMoveListeners)
      requires forall e :: e in initialHead ==> e < firstFree
      ensures Valid()
      ensures head == initialHead && moveListeners == initialMoveListeners
      ensures upListeners == [] && calls == []
    {
      head := initialHead;
      nextElement := firstFree;
      moveListeners := initialMoveListeners;
      upListeners := [];
      calls := [];
    }

    /** `document.createElement`: a new element, not yet in the document. */
    method CreateElement() returns (e: Element)
      requires Valid()
      modifies this`nextElement
      ensures Valid()
      ensures e == old(nextElement) && e !in head && nextElement == e + 1
    {
      e := nextElement;
      nextElement := nextElement + 1;
    }

    /** `document.head.appendChild(e)`: `e` becomes the last child, moved
        there if it already was a child. */
    method AppendChild(e: Element)
      requires Valid() && e < nextElement
      modifies this`head
      ensures Valid()
      ensures head == Without(old(head), e) + [e]
    {
      WithoutNoDups(head, e);
      head := Without(head, e) + [e];
    }

    /** `window.addEventListener("mousemove", l)`: a listener already
        registered is not registered twice. */
    method AddMoveListener(l: Listener)
      requires Valid()
      modifies this`moveListeners
      ensures Valid()
      ensures moveListeners == AppendNew(old(moveListeners), l)
    {
      moveListeners := AppendNew(moveListeners, l);
    }

    /** `window.addEventListener("mouseup", h, { once: true })`: every
        closure is a new function, so it is always added. */
    method AddMouseUpListener(h: MouseUpHandler)
      modifies this`upListeners
      ensures upListeners == old(upListeners) + [h]
    {
      upListeners := upListeners + [h];
    }

    /** The window receives a `mousemove`: each listener is called with the
        event, in registration order. */
    method MouseMove(ev: MouseEvent)
      modifies this`calls
      ensures calls == old(calls) + Deliver(moveListeners, ev)
    {
      calls := calls + Deliver(moveListeners, ev);
    }

    /** The window receives a `mouseup`: the one-shot listeners are removed
        and then run in registration order, so a later `mouseup` finds none. */
    method MouseUp()
      requires Valid()
      modifies this`head, this`moveListeners, this`upListeners, this`calls
      ensures Valid()
      ensures View() == FireAll(old(View()), old(upListeners))
      ensures upListeners == []
      ensures old(upListeners) == [] ==> View() == old(View())
    {
      var hs := upListeners;
      upListeners := [];
      ghost var v0 := View();
      for i := 0 to |hs|
        invariant View() == FireAll(v0, hs[..i])
        invariant upListeners == []
      {
        assert hs[..i + 1][..i] == hs[..i];
        match hs[i]
        case EndDrag(style, onMove, onMouseUp) =>
          if style in head {
            head := Without(head, style);
            moveListeners := Without(moveListeners, onMove);
            calls := calls + [MouseUpHandled(onMouseUp, head, moveListeners)];
          }
        case EndMove(onMove) =>
          moveListeners := Without(moveListeners, onMove);
      }
      assert hs[..|hs|] == hs;
      FireAllNoDups(v0, hs);
      forall e | e in head ensures e < nextElement {
        FireAllHead(v0, hs, e);
      }
    }
  }
}
