/** The shims of `node.ffi.mjs`: setting a CSS property on the host element
    of a node's shadow root, and starting a node drag, which disables text
    selection on the whole page and forwards window mouse moves to the node
    until the next `mouseup`. */
module Node {
  import opened Support
  import opened Page

  /** The inline style declarations of an element, by property name.
      Setting a property to the empty string removes its declaration. */
  function SetProperty(decls: map<string, string>, property: string, value: string): (r: map<string, string>)
    ensures value != "" ==> property in r && r[property] == value
    ensures value == "" ==> property !in r
    ensures forall p :: p in r && p != property ==> p in decls && r[p] == decls[p]
    ensures forall p :: p in decls && p != property ==> p in r
  {
    if value == "" then decls - {property} else decls[property := value]
  }

  /** An element hosting a shadow root; only its inline style is modelled. */
  class Host {
    var style: map<string, string>

    constructor (style: map<string, string>)
      ensures this.style == style
    {
      this.style := style;
    }
  }

  /** A node's shadow root; `host` is null once it has none. */
  class ShadowRoot {
    var host: Host?

    constructor (host: Host?)
      ensures this.host == host
    {
      this.host := host;
    }
  }

  /** `set_css_property`: without a host nothing changes; otherwise exactly
      `property` of the host's inline style is set. */
  method SetCssProperty(root: ShadowRoot, property: string, value: string)
    modifies root.host
    ensures root.host == old(root.host)
    ensures root.host != null ==> root.host.style == SetProperty(old(root.host.style), property, value)
  {
    var host := root.host;
    if host != null {
      host.style := SetProperty(host.style, property, value);
    }
  }

  /** `add_window_mousemove_listener` of `node.ffi.mjs`: a fresh style element
      disabling text selection is appended to `document.head`, `callback`
      becomes a `mousemove` listener, and a one-shot `mouseup` listener is
      registered that undoes both and then calls `handleMouseup`. */
  method AddWindowMousemoveListener(page: Window, callback: Listener, handleMouseup: Listener)
    requires page.Valid()
    modifies page`head, page`nextElement, page`moveListeners, page`upListeners
    ensures page.Valid()
    ensures page.head == old(page.head) + [old(page.nextElement)]
    ensures old(page.nextElement) !in old(page.head)
    ensures page.moveListeners == AppendNew(old(page.moveListeners), callback)
    ensures page.upListeners == old(page.upListeners) + [EndDrag(old(page.nextElement), callback, handleMouseup)]
    ensures page.calls == old(page.calls)
  {
    var style := page.CreateElement();
    page.AppendChild(style);
    WithoutAbsent(old(page.head), style);
    page.AddMoveListener(callback);
    page.AddMouseUpListener(EndDrag(style, callback, handleMouseup));
  }

  /** A whole drag with nothing else going on: start it, move the mouse,
      release it, release it again. Every move reaches `callback` and the
      listeners registered before; `handleMouseup` is called once, after the
      style and the listener are gone; the second `mouseup` changes nothing;
      the head and the listeners end as they began. */
  method DragAndRelease(page: Window, callback: Listener, handleMouseup: Listener, ev: MouseEvent)
    requires page.Valid() && page.upListeners == [] && callback !in page.moveListeners
    modifies page
    ensures page.Valid()
    ensures page.head == old(page.head) && page.moveListeners == old(page.moveListeners)
    ensures page.upListeners == []
    ensures Moved(callback, ev) in page.calls
    ensures page.calls == old(page.calls) + Deliver(old(page.moveListeners) + [callback], ev)
                          + [MouseUpHandled(handleMouseup, old(page.head), old(page.moveListeners))]
  {
    ghost var v := page.View();
    AddWindowMousemoveListener(page, callback, handleMouseup);
    page.MouseMove(ev);
    DeliverReaches(page.moveListeners, ev, callback);
    ghost var moved := page.calls;
    page.MouseUp();
    ReleaseUndoesDrag(PageView(v.head, v.moveListeners, moved), old(page.nextElement), callback, handleMouseup);
    page.MouseUp();
    assert Moved(callback, ev) in moved;
  }
}
