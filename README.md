# clique: viewport geometry, drag listeners and the mutable dictionary, in Dafny

This project models the JavaScript shims under the Gleam components of
clique, a node-graph editor widget. It covers three parts and proves
properties of each.

- **Handle positions** (`viewport.ffi.mjs`). A resize observer sees a batch
  of resize entries for node elements. It measures the viewport once. For
  every node with a non-empty `id` and every `clique-handle` under it with a
  non-empty `name`, it reports the centre of the handle's rectangle in the
  viewport's unscaled coordinates. It then calls its callback once with the
  whole list, even when the list is empty. It calls nothing when the weak
  reference to the viewport is dead. `observe_node` adds a node to the
  observer.
- **Drag listeners** (`node.ffi.mjs`, `viewport.ffi.mjs`). Starting a node
  drag appends a selection-disabling `<style>` to `document.head` and adds a
  window `mousemove` listener. It also registers a one-shot `mouseup`
  listener. That listener removes the style, then removes the move listener,
  then calls `handle_mouseup`. The viewport variant only adds the move
  listener and removes it on `mouseup`. `set_css_property` passes one
  property and value to the inline style of a shadow root's host, and does
  nothing when there is no host. The model treats that style as a flat map
  from property names to value strings.
- **Mutable dictionary** (`mutable_dict.ffi.mjs`). This is a JavaScript
  `Map` (ECMA-262, section 24.1, Map Objects) updated in place. Keys keep
  the order of their first insertion; setting an existing key keeps its
  place, and deleting a key forgets it, so a key inserted again goes last.
  `keys`, `values` and `to_list` are aligned views of it. `to_json` writes one object property per entry, in order.

Modules: `Support` (option type and sequence helpers), `Viewport`, `Page`
(class `Window`: the window's listener lists, `document.head`, and a log
of calls into the callbacks), `Node` and `MutableDict`. Arithmetic is over `real`. Elements
and JavaScript functions are modelled by identity (`nat`). The two
`mouseup` closures are the constructors of `Page.MouseUpHandler`. The drag
and resize code keeps no animation-frame batching, coalescing or move
throttling, and neither does the model: moves are forwarded directly. The
callback is called even with an empty list.

## Model

| member | source | states |
|---|---|---|
| `Viewport.Scale` | src/clique/viewport.ffi.mjs:13-14 | a client size of 0 is read as 1, so the scale is then the on-screen size; otherwise scale × client size = on-screen size; a non-zero on-screen size gives a non-zero scale |
| `Viewport.Position` | src/clique/viewport.ffi.mjs:28-32 | the result, multiplied back by the scales and shifted by the viewport's left/top, is the handle rectangle's centre |
| `Viewport.PositionAtDoubleScale` | src/clique/viewport.ffi.mjs:28-32 | viewport (0,0,200,100) with client size 100×50 and handle centre (60,40) gives (30,20) |
| `Viewport.HandleUpdates` | src/clique/viewport.ffi.mjs:22-35 | every update of a node carries that node's id and a non-empty handle name |
| `Viewport.BatchUpdates` | src/clique/viewport.ffi.mjs:16-36 | every emitted update has a non-empty node id and a non-empty handle name |
| `Viewport.HandleUpdatesAppend` | src/clique/viewport.ffi.mjs:22-35 | handle order is kept: the updates of two runs of handles are the first run's followed by the second's |
| `Viewport.BatchUpdatesAppend` | src/clique/viewport.ffi.mjs:16-36 | entry order is kept: the updates of two runs of entries are the first run's followed by the second's |
| `Viewport.HandleUpdatesCount` | src/clique/viewport.ffi.mjs:22-26 | one update per named handle of a node |
| `Viewport.BatchUpdatesCount` | src/clique/viewport.ffi.mjs:16-36 | the update count equals the number of named handles under entries that have an id |
| `Viewport.HandleIsReported` | src/clique/viewport.ffi.mjs:12-34 | every named handle of every entry with an id yields an update, positioned from the batch's single viewport measurement |
| `Viewport.UpdateHasSource` | src/clique/viewport.ffi.mjs:12-34 | every update comes from a named handle of an entry with an id, positioned from the batch's single viewport measurement |
| `Viewport.HandleSource` | src/clique/viewport.ffi.mjs:22-34 | an update of a node's handles comes from a named handle at a known index |
| `Viewport.CollectUpdates` | src/clique/viewport.ffi.mjs:12-36 | the nested loops that measure once, skip, and push build exactly the batch's updates |
| `Viewport.Observer.constructor` | src/clique/viewport.ffi.mjs:3-6 | a new observer observes nothing and has not called its callback |
| `Viewport.Observer.Observe` | src/clique/viewport.ffi.mjs:44-46 | the node becomes the last observed target, at most once; earlier targets stay |
| `Viewport.Observer.Notify` | src/clique/viewport.ffi.mjs:6-38 | with a dead viewport reference the callback is not called; otherwise it is called exactly once with the batch's updates, even when there are none |
| `Viewport.AddWindowMousemoveListener` | src/clique/viewport.ffi.mjs:48-55 | the callback becomes a move listener and one `mouseup` handler removing it is added; nothing else changes |
| `Viewport.MoveUntilMouseUp` | src/clique/viewport.ffi.mjs:48-54 | the first `mouseup` removes the listener and calls nothing; a second `mouseup` changes nothing |
| `Page.Deliver` | src/clique/node.ffi.mjs:23 | a move event reaches every registered move listener once, in registration order |
| `Page.DeliverReaches` | src/clique/node.ffi.mjs:23 | a listener receives a move event exactly when it is registered |
| `Page.Fire` | src/clique/node.ffi.mjs:26-30 | drag teardown removes the style, then the listener, then calls `handle_mouseup`, which already sees both gone; if `removeChild` throws, nothing happens |
| `Page.FireAllHead` | src/clique/node.ffi.mjs:27 | the `mouseup` handlers remove exactly their own style elements from the head; every other child stays |
| `Page.FireAllNoDups` | src/clique/node.ffi.mjs:26-28 | teardown never duplicates a head child or a listener |
| `Page.FireAllReleases` | src/clique/node.ffi.mjs:24-31 | with the drags' styles in the head, one `mouseup` calls each drag's `handle_mouseup` exactly once, in start order, and no other `handle_mouseup` |
| `Page.ReleaseUndoesDrag` | src/clique/node.ffi.mjs:10-30 | releasing a drag that nothing else interfered with returns the head and the listeners to their state before the drag |
| `Page.Window.CreateElement` | src/clique/node.ffi.mjs:10 | the new style element is not yet in the head |
| `Page.Window.AppendChild` | src/clique/node.ffi.mjs:21 | the element becomes the head's last child |
| `Page.Window.AddMoveListener` | src/clique/node.ffi.mjs:23 | the listener is registered once; others are kept |
| `Page.Window.AddMouseUpListener` | src/clique/node.ffi.mjs:24-32 | the one-shot handler is added after those already pending |
| `Page.Window.MouseMove` | src/clique/node.ffi.mjs:23 | every registered move listener is called with the event; nothing is dropped |
| `Page.Window.MouseUp` | src/clique/node.ffi.mjs:24-31 | the pending one-shot handlers run in order and are gone afterwards, so a later `mouseup` changes nothing |
| `Node.SetProperty` | src/clique/node.ffi.mjs:5 | the given property is set (removed for an empty value); every other property is unchanged |
| `Node.SetCssProperty` | src/clique/node.ffi.mjs:1-7 | without a host nothing changes; otherwise only the host's style changes, by `SetProperty` |
| `Node.AddWindowMousemoveListener` | src/clique/node.ffi.mjs:9-33 | exactly one fresh style element is appended to the head, the callback becomes a move listener, and one teardown handler is added |
| `Node.DragAndRelease` | src/clique/node.ffi.mjs:9-33 | start, move, release, release: the move reaches the callback; `handle_mouseup` runs once and sees the style and listener gone; the second release changes nothing; the head and listeners are restored |
| `MutableDict.EntriesOf` | src/clique/internal/mutable_dict.ffi.mjs:15 | entry i is key i with that key's value |
| `MutableDict.ValuesOf` | src/clique/internal/mutable_dict.ffi.mjs:13 | value i is the value of key i |
| `MutableDict.JsonOfKeys` | src/clique/internal/mutable_dict.ffi.mjs:17-24 | the object has exactly one property per converted key |
| `MutableDict.JsonOfLastWins` | src/clique/internal/mutable_dict.ffi.mjs:17-24 | a property holds the value of the last entry whose key converts to that name |
| `MutableDict.EntryKeys` | src/clique/internal/mutable_dict.ffi.mjs:17-20 | the converted keys of the entries are the converted keys of the dictionary |
| `MutableDict.Dict.Make` | src/clique/internal/mutable_dict.ffi.mjs:3 | a new dictionary is empty |
| `MutableDict.Dict.Get` | src/clique/internal/mutable_dict.ffi.mjs:7 | a value exactly for the keys present, that key's value |
| `MutableDict.Dict.HasKey` | src/clique/internal/mutable_dict.ffi.mjs:9 | true exactly when `get` finds a value |
| `MutableDict.Dict.Keys` | src/clique/internal/mutable_dict.ffi.mjs:11 | every present key exactly once |
| `MutableDict.Dict.Values` | src/clique/internal/mutable_dict.ffi.mjs:13 | as long as `keys`; value i is what `get` returns for key i |
| `MutableDict.Dict.ToList` | src/clique/internal/mutable_dict.ffi.mjs:15 | as long as `keys` and `values`; entry i is (key i, value i) |
| `MutableDict.Dict.ToJson` | src/clique/internal/mutable_dict.ffi.mjs:17-24 | the loop builds the object of the entries in order; its properties are the converted keys |
| `MutableDict.Dict.Insert` | src/clique/internal/mutable_dict.ffi.mjs:29-33 | returns the same dictionary; `get` of the key gives the value; other keys unchanged; a new key goes last and an existing key keeps its place |
| `MutableDict.Dict.Remove` | src/clique/internal/mutable_dict.ffi.mjs:35-39 | returns the same dictionary; the key is gone; other entries and their order unchanged; removing an absent key changes nothing |

## Left out

- `src/clique/internal/dom.ffi.mjs` and `demo/src/demo.ffi.mjs` are not part of this model. They are one-line DOM accessors and a demo measurement. Their results appear as inputs: entry ids, handle names and rectangles.
- Viewport.Observer.Notify: requires a live viewport to have a non-zero on-screen width and height. With a zero width or height the source divides by a zero scale and reports Infinity or NaN coordinates, which have no counterpart over the reals.
- Viewport.CollectUpdates: requires the same non-zero on-screen size, for the same reason.
- `add_resize_observer` throws a TypeError when the shadow root has no `#viewport` element, because `new WeakRef(null)` fails. The model assumes the element exists.
- When garbage collection kills the `WeakRef` is not modelled. Each batch takes the dereferenced viewport (or None) as an input.
- How the browser decides which resize entries to deliver, and when, is not modelled. This includes the initial notification after `observe`. Entries are an input sequence.
- The `console.log` calls at `viewport.ffi.mjs:19` and `:24` are not modelled. Neither is the `List.fromArray` conversion, which is taken as the identity on sequences.
- IEEE-754 rounding is not modelled: coordinates are exact reals.
- Callbacks are not re-entrant in the model. A callback that adds or removes listeners or head children while an event is being dispatched is not covered.
- The style element's CSS text (`user-select: none` on every element) is not modelled. The element is modelled by identity.
- When `removeChild` throws because the style element was removed by other code, the thrown exception is not modelled. The model shows only that the rest of the handler does not run.
- Node.SetProperty: treats the inline style as a flat map from names to raw strings, so it does not model these CSSOM behaviours:
  - an unsupported property name (`setProperty("foo", "1")`) sets nothing;
  - an unparsable value is rejected;
  - a shorthand (`margin`) expands into its longhands (`margin-top` … `margin-left`), which changes properties other than the one named;
  - the parsed and re-serialised value is stored, not the raw string;
  - non-custom property names are lower-cased;
  - the priority argument is not modelled.
- JavaScript `Map` key equality (SameValueZero: NaN equals NaN, -0 equals +0) is Dafny equality on the key type.
- MutableDict.Dict.Get: returns `Some(v)` for a stored `undefined` value, where JavaScript `get` gives the same `undefined` as for an absent key.
- MutableDict.Dict.ToJson: the result is an unordered map of property names. The object's own property order (integer-like names first) is not modelled. Neither is the special `__proto__` name, which on a plain object sets the prototype instead of adding a property.
