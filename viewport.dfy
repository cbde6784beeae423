/** The shims of `viewport.ffi.mjs`. The resize observer of a viewport turns
    each batch of resize entries for node elements into handle position
    updates: for every node with an id and every named `clique-handle` inside
    it, the centre of the handle's on-screen rectangle expressed in the
    viewport's own, unscaled coordinates. Arithmetic is over the reals. */
module Viewport {
  import opened Support
  import opened Page

  /** A rectangle as `getBoundingClientRect` reports it, in page pixels. */
  datatype Rect = Rect(left: real, top: real, width: real, height: real)

  /** The live viewport element as the callback measures it: its on-screen
      rectangle and its unscaled `clientWidth`/`clientHeight`. */
  datatype ViewportBox = ViewportBox(rect: Rect, clientWidth: nat, clientHeight: nat)

  /** A `clique-handle` inside an observed node: its `name` attribute (None
      when absent) and its on-screen rectangle. */
  datatype Handle = Handle(name: Option<string>, bounds: Rect)

  /** One resize entry: the target node's `id` attribute and the handles
      `querySelectorAll("clique-handle")` finds under it, in document order. */
  datatype Entry = Entry(id: Option<string>, handles: seq<Handle>)

  /** One update handed to the callback: node id, handle name, position. */
  datatype Update = Update(node: string, name: string, x: real, y: real)

  /** An attribute value JavaScript treats as true: present and not empty. */
  predicate Truthy(attr: Option<string>)
  {
    attr.Some? && attr.value != ""
  }

  /** On-screen pixels per unscaled pixel along one axis; a client size of 0
      is read as 1. */
  function Scale(onScreen: real, client: nat): (s: real)
    ensures client == 0 ==> s == onScreen
    ensures client != 0 ==> s * client as real == onScreen
    ensures onScreen != 0.0 ==> s != 0.0
  {
    var divisor := if client == 0 then 1 else client;
    onScreen / divisor as real
  }

  /** A viewport whose on-screen rectangle has an area, so that neither
      scale is zero. */
  predicate Measurable(vp: ViewportBox)
  {
    vp.rect.width != 0.0 && vp.rect.height != 0.0
  }

  /** The centre of `bounds` in the viewport's unscaled coordinates: scaled
      back to page pixels and shifted by the viewport's corner, it is the
      centre of `bounds` again. */
  function Position(vp: ViewportBox, bounds: Rect): (p: (real, real))
    requires Measurable(vp)
    ensures vp.rect.left + p.0 * Scale(vp.rect.width, vp.clientWidth) == bounds.left + bounds.width / 2.0
    ensures vp.rect.top + p.1 * Scale(vp.rect.height, vp.clientHeight) == bounds.top + bounds.height / 2.0
  {
    var scaleX := Scale(vp.rect.width, vp.clientWidth);
    var scaleY := Scale(vp.rect.height, vp.clientHeight);
    var cx := bounds.left + bounds.width / 2.0;
    var cy := bounds.top + bounds.height / 2.0;
    ((cx - vp.rect.left) / scaleX, (cy - vp.rect.top) / scaleY)
  }

  /** A viewport drawn at twice its unscaled size. */
  lemma PositionAtDoubleScale()
    ensures Position(ViewportBox(Rect(0.0, 0.0, 200.0, 100.0), 100, 50), Rect(50.0, 30.0, 20.0, 20.0)) == (30.0, 20.0)
  {
  }

  /** The update a named handle of node `node` contributes. */
  function UpdateFor(vp: ViewportBox, node: string, h: Handle): Update
    requires Measurable(vp) && Truthy(h.name)
  {
    var p := Position(vp, h.bounds);
    Update(node, h.name.value, p.0, p.1)
  }

  /** The updates for the handles `hs` of node `node`, in handle order;
      handles without a name contribute none. */
  function HandleUpdates(vp: ViewportBox, node: string, hs: seq<Handle>): (us: seq<Update>)
    requires Measurable(vp)
    ensures forall u :: u in us ==> u.node == node && u.name != ""
  {
    if hs == [] then []
    else
      var h := hs[|hs| - 1];
      HandleUpdates(vp, node, hs[..|hs| - 1]) + (if Truthy(h.name) then [UpdateFor(vp, node, h)] else [])
  }

  /** The updates for a batch of entries, in entry order; entries without
      an id contribute none. */
  function BatchUpdates(vp: ViewportBox, entries: seq<Entry>): (us: seq<Update>)
    requires Measurable(vp)
    ensures forall u :: u in us ==> u.node != "" && u.name != ""
  {
    if entries == [] then []
    else
      var e := entries[|entries| - 1];
      BatchUpdates(vp, entries[..|entries| - 1]) + (if Truthy(e.id) then HandleUpdates(vp, e.id.value, e.handles) else [])
  }

  /** The number of named handles under the entries that have an id. */
  function NamedHandleCount(entries: seq<Entry>): nat
  {
    if entries == [] then 0
    else (if Truthy(entries[0].id) then NamedCount(entries[0].handles) else 0) + NamedHandleCount(entries[1..])
  }

  function NamedCount(hs: seq<Handle>): nat
  {
    if hs == [] then 0 else (if Truthy(hs[0].name) then 1 else 0) + NamedCount(hs[1..])
  }

  /** Handles are reported in order: the updates of two runs of handles are
      those of the first run followed by those of the second. */
  lemma {:induction false} HandleUpdatesAppend(vp: ViewportBox, node: string, hs1: seq<Handle>, hs2: seq<Handle>)
    requires Measurable(vp)
    ensures HandleUpdates(vp, node, hs1 + hs2) == HandleUpdates(vp, node, hs1) + HandleUpdates(vp, node, hs2)
  {
    if hs2 != [] {
      var hs := hs1 + hs2;
      assert hs[..|hs| - 1] == hs1 + hs2[..|hs2| - 1];
      HandleUpdatesAppend(vp, node, hs1, hs2[..|hs2| - 1]);
    } else {
      assert hs1 + hs2 == hs1;
    }
  }

  /** Entries are reported in order: the updates of two runs of entries are
      those of the first run followed by those of the second. */
  lemma {:induction false} BatchUpdatesAppend(vp: ViewportBox, es1: seq<Entry>, es2: seq<Entry>)
    requires Measurable(vp)
    ensures BatchUpdates(vp, es1 + es2) == BatchUpdates(vp, es1) + BatchUpdates(vp, es2)
  {
    if es2 != [] {
      var es := es1 + es2;
      assert es[..|es| - 1] == es1 + es2[..|es2| - 1];
      BatchUpdatesAppend(vp, es1, es2[..|es2| - 1]);
    } else {
      assert es1 + es2 == es1;
    }
  }

  lemma {:induction false} HandleUpdatesCount(vp: ViewportBox, node: string, hs: seq<Handle>)
    requires Measurable(vp)
    ensures |HandleUpdates(vp, node, hs)| == NamedCount(hs)
  {
    if hs != [] {
      assert hs == [hs[0]] + hs[1..];
      HandleUpdatesAppend(vp, node, [hs[0]], hs[1..]);
      assert [hs[0]][..0] == [];
      HandleUpdatesCount(vp, node, hs[1..]);
    }
  }

  /** A batch yields one update per named handle under an entry with an id. */
  lemma {:induction false} BatchUpdatesCount(vp: ViewportBox, entries: seq<Entry>)
    requires Measurable(vp)
    ensures |BatchUpdates(vp, entries)| == NamedHandleCount(entries)
  {
    if entries != [] {
      assert entries == [entries[0]] + entries[1..];
      BatchUpdatesAppend(vp, [entries[0]], entries[1..]);
      assert [entries[0]][..0] == [];
      if Truthy(entries[0].id) {
        HandleUpdatesCount(vp, entries[0].id.value, entries[0].handles);
      }
      BatchUpdatesCount(vp, entries[1..]);
    }
  }

  /** Every named handle of every entry with an id is reported, at the
      position computed from the one viewport measurement of the batch. */
  lemma {:induction false} HandleIsReported(vp: ViewportBox, entries: seq<Entry>, i: nat, j: nat)
    requires Measurable(vp)
    requires i < |entries| && j < |entries[i].handles|
    requires Truthy(entries[i].id) && Truthy(entries[i].handles[j].name)
    ensures UpdateFor(vp, entries[i].id.value, entries[i].handles[j]) in BatchUpdates(vp, entries)
  {
    var e := entries[i];
    var u := UpdateFor(vp, e.id.value, e.handles[j]);
    assert u in HandleUpdates(vp, e.id.value, e.handles) by {
      assert e.handles == e.handles[..j] + [e.handles[j]] + e.handles[j + 1..];
      HandleUpdatesAppend(vp, e.id.value, e.handles[..j] + [e.handles[j]], e.handles[j + 1..]);
      HandleUpdatesAppend(vp, e.id.value, e.handles[..j], [e.handles[j]]);
      assert [e.handles[j]][..0] == [];
    }
    assert entries == entries[..i] + [e] + entries[i + 1..];
    BatchUpdatesAppend(vp, entries[..i] + [e], entries[i + 1..]);
    BatchUpdatesAppend(vp, entries[..i], [e]);
    assert [e][..0] == [];
  }

  /** Every reported update comes from a named handle of an entry with an
      id, at the position computed from the batch's viewport measurement. */
  lemma {:induction false} UpdateHasSource(vp: ViewportBox, entries: seq<Entry>, u: Update)
    requires Measurable(vp)
    requires u in BatchUpdates(vp, entries)
    ensures exists i, j :: 0 <= i < |entries| && 0 <= j < |entries[i].handles|
              && Truthy(entries[i].id) && Truthy(entries[i].handles[j].name)
              && u == UpdateFor(vp, entries[i].id.value, entries[i].handles[j])
  {
    var front := entries[..|entries| - 1];
    var e := entries[|entries| - 1];
    if u in BatchUpdates(vp, front) {
      UpdateHasSource(vp, front, u);
      var i, j :| 0 <= i < |front| && 0 <= j < |front[i].handles|
              && Truthy(front[i].id) && Truthy(front[i].handles[j].name)
              && u == UpdateFor(vp, front[i].id.value, front[i].handles[j]);
      assert entries[i] == front[i];
    } else {
      var j := HandleSource(vp, e.id.value, e.handles, u);
      assert entries[|entries| - 1] == e;
    }
  }

  /** The position in `hs` of the named handle an update of theirs comes from. */
  lemma {:induction false} HandleSource(vp: ViewportBox, node: string, hs: seq<Handle>, u: Update) returns (j: nat)
    requires Measurable(vp)
    requires u in HandleUpdates(vp, node, hs)
    ensures j < |hs| && Truthy(hs[j].name) && u == UpdateFor(vp, node, hs[j])
  {
    var front := hs[..|hs| - 1];
    if u in HandleUpdates(vp, node, front) {
      j := HandleSource(vp, node, front, u);
      assert hs[j] == front[j];
    } else {
      j := |hs| - 1;
    }
  }

  /** The body of the resize callback up to the call: measure the viewport
      once, then walk the entries and their handles, skipping unnamed
      handles and nodes without an id, and collect the updates. */
  method CollectUpdates(vp: ViewportBox, entries: seq<Entry>) returns (updates: seq<Update>)
    requires Measurable(vp)
    ensures updates == BatchUpdates(vp, entries)
  {
    var viewportRect := vp.rect;
    var scaleX := Scale(viewportRect.width, vp.clientWidth);
    var scaleY := Scale(viewportRect.height, vp.clientHeight);
    updates := [];
    for i := 0 to |entries|
      invariant updates == BatchUpdates(vp, entries[..i])
    {
      var entry := entries[i];
      var node := entry.id;
      assert entries[..i + 1][..i] == entries[..i];
      if Truthy(node) {
        for j := 0 to |entry.handles|
          invariant updates == BatchUpdates(vp, entries[..i]) + HandleUpdates(vp, node.value, entry.handles[..j])
        {
          var handle := entry.handles[j];
          var name := handle.name;
          assert entry.handles[..j + 1][..j] == entry.handles[..j];
          if Truthy(name) {
            var bounds := handle.bounds;
            var cx := bounds.left + bounds.width / 2.0;
            var cy := bounds.top + bounds.height / 2.0;
            var x := (cx - viewportRect.left) / scaleX;
            var y := (cy - viewportRect.top) / scaleY;
            updates := updates + [Update(node.value, name.value, x, y)];
          }
        }
        assert entry.handles[..|entry.handles|] == entry.handles;
      }
    }
    assert entries[..|entries|] == entries;
  }

  /** The resize observer `add_resize_observer` creates, with the callback
      it was given. */
  class Observer {
    /** The node elements `observe_node` registered, oldest first. It is a
        record only: which entries a batch holds is decided by the browser
        and is an input of `Notify`. */
    var targets: seq<Element>
    /** The argument of every call of the callback so far. */
    var delivered: seq<seq<Update>>

    /** Each node is observed at most once. */
    ghost predicate Valid()
      reads this
    {
      NoDups(targets)
    }

    constructor ()
      ensures Valid()
      ensures targets == [] && delivered == []
    {
      targets := [];
      delivered := [];
    }

    /** `observe_node`: observing a node again replaces its earlier
        observation. */
    method Observe(node: Element)
      requires Valid()
      modifies this`targets
      ensures Valid()
      ensures node in targets && targets[|targets| - 1] == node
      ensures forall n :: n in old(targets) ==> n in targets
      ensures targets == Without(old(targets), node) + [node]
    {
      WithoutNoDups(targets, node);
      targets := Without(targets, node) + [node];
    }

    /** One batch of resize entries. `viewport` is what dereferencing the
        weak reference to the viewport yields now: None once it has been
        collected, and then the callback is not called. Otherwise it is
        called exactly once, with the whole batch's updates, even when there
        are none. */
    method Notify(viewport: Option<ViewportBox>, entries: seq<Entry>)
      requires Valid()
      requires viewport.Some? ==> Measurable(viewport.value)
      modifies this`delivered
      ensures Valid()
      ensures viewport.None? ==> delivered == old(delivered)
      ensures viewport.Some? ==> delivered == old(delivered) + [BatchUpdates(viewport.value, entries)]
    {
      if viewport.None? {
        return;
      }
      var updates := CollectUpdates(viewport.value, entries);
      delivered := delivered + [updates];
    }
  }

  /** `add_window_mousemove_listener` of `viewport.ffi.mjs`: `callback`
      becomes a `mousemove` listener until the next `mouseup`, whose
      one-shot listener removes it. */
  method AddWindowMousemoveListener(page: Window, callback: Listener)
    requires page.Valid()
    modifies page`moveListeners, page`upListeners
    ensures page.Valid()
    ensures page.head == old(page.head) && page.calls == old(page.calls)
    ensures page.moveListeners == AppendNew(old(page.moveListeners), callback)
    ensures page.upListeners == old(page.upListeners) + [EndMove(callback)]
  {
    page.AddMoveListener(callback);
    page.AddMouseUpListener(EndMove(callback));
  }

  /** The first `mouseup` after `AddWindowMousemoveListener` removes the
      listener and calls nothing; a second one changes nothing. */
  method MoveUntilMouseUp(page: Window, callback: Listener)
    requires page.Valid() && page.upListeners == []
    modifies page
    ensures page.Valid()
    ensures callback !in page.moveListeners
    ensures page.moveListeners == Without(old(page.moveListeners), callback)
    ensures page.head == old(page.head) && page.calls == old(page.calls)
    ensures page.upListeners == []
  {
    AddWindowMousemoveListener(page, callback);
    page.MouseUp();
    assert [EndMove(callback)][..0] == [];
    if callback !in old(page.moveListeners) {
      WithoutAppended(old(page.moveListeners), callback);
      WithoutAbsent(old(page.moveListeners), callback);
    }
    page.MouseUp();
  }
}
