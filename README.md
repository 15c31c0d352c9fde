# Carbon custom elements: expandable tile, button, page-size select

A Dafny model of three web components of the Carbon custom-element library
and of the rules they follow:

- **Expandable tile** (`bx-expandable-tile`, `expandable_tile.dfy`). A click
  on the host proposes the negation of `expanded` and dispatches a
  cancelable, bubbling, composed "being changed" event carrying the proposal.
  Only when no listener cancels it is `expanded` written and a
  non-cancelable "changed" event dispatched, with the same detail. The tile
  is a class with its properties as fields and a trace of every event
  dispatched on it. Each trace entry also records the `expanded` value the
  listeners observe. This captures that the "changed" event goes out only
  after the write. Whether listeners cancel is a parameter: the listener
  oracle. A pure reference (`Click`, folded by `Clicks` over many clicks)
  specifies the method. Lemmas over any run of clicks show two things: the
  tile ends toggled iff an odd number of clicks were not vetoed, and the
  trace always respects the before/after protocol. `render` chooses the
  assistive text from `expanded`.
- **Button** (`bx-btn`, `button.dfy`). `render` computes a class list with
  `classnames` and renders a link when `href` is non-empty, else a native
  button whose `disabled` mirrors the property. `classnames` is modelled
  with JavaScript object-literal semantics: a key written twice keeps the
  place of its first occurrence and the value of its last. So the kind
  class is present exactly when `kind` is non-empty, except for a `kind` of
  `"disabled"` or `"sm"`. Those name the same key as a later modifier, whose
  flag then decides. No `BUTTON_KIND` tag collides, and for those kinds the
  classes come in the order base, kind, disabled, small. A `kind` of `"sm"`
  puts the small class where the kind class would be, ahead of the
  disabled class. The link's click
  listener prevents the default action and stops propagation when the
  button is disabled, and otherwise leaves the event alone.
- **Page-size select** (`bx-page-sizes-select`, `page_sizes_select.dfy`). The
  select id is a fixed prefix followed by the element id, or by the
  instance's generated unique id when the element id is empty. The label's
  `for` and the `<select>`'s `id` are both that id plus `_size`. The change
  handler first dispatches a non-cancelable event with the parsed value,
  while `value` still holds the old one. It then stores that same value,
  whatever the listeners do. The `slotchange` handler empties the
  `<select>` one first child at a time. It then appends a fresh deep copy
  of each slotted node, in order. The `<select>` is a node object whose
  child list the handler rebuilds in place.

`dom.dfy` holds the part of the DOM the components rely on. It has custom
events and the value `dispatchEvent` returns, a UI event with its
`preventDefault`/`stopPropagation` flags, and nodes with an ordered child
list (`firstChild`, `removeChild`, `appendChild`, `cloneNode(true)`).

The `prefix` of class and event names is the library's global setting. Its
value is not part of this model, so it is a parameter, and every property
is proved for all prefixes.

The button's `kind` is a plain string property with no validation in the
code. An attribute value outside `BUTTON_KIND` is kept as it is rather than
replaced by a default. The model follows the code there.

## Model

| member | source | states |
|---|---|---|
| `ExpandableTile.EventNamesDistinct` | src/components/tile/expandable-tile.ts:130-139 | the "being changed" and "changed" event names differ, for every prefix |
| `ExpandableTile.Click` | src/components/tile/expandable-tile.ts:33-52 | a click proposes the negation of `expanded`; the first event is the cancelable, bubbling, composed "being changed" event with that proposal, seen while `expanded` is unchanged; if canceled, nothing else happens and `expanded` stays; if not, `expanded` becomes the proposal and exactly one non-cancelable "changed" event with the same detail follows, seen after the write |
| `ExpandableTile.Tile.HandleClick` | src/components/tile/expandable-tile.ts:33-52 | the click listener appends to the trace exactly the events of `Click` and leaves `expanded` as `Click` says; nothing else changes |
| `ExpandableTile.Tile.DispatchEvent` | src/components/tile/expandable-tile.ts:47-50 | a dispatch records the event with the current `expanded`; it reports "not canceled" unless the event is cancelable and a listener cancels it |
| `ExpandableTile.ClicksParity` | src/components/tile/expandable-tile.ts:34-51 | after any run of clicks the tile is toggled iff an odd number were not vetoed; each click dispatched one event, plus one more if it committed |
| `ExpandableTile.TwoCommittedClicksRestore` | src/components/tile/expandable-tile.ts:34-48 | two consecutive uncanceled clicks restore the original `expanded` and dispatch four events |
| `ExpandableTile.ClicksRespectProtocol` | src/components/tile/expandable-tile.ts:35-51 | over any run of clicks, every "being changed" event is cancelable and proposes the negation of what it observes; every "changed" event is not cancelable, directly follows a "being changed" event with the same detail, and is seen after the write |
| `ExpandableTile.ClickTwice` | src/components/tile/expandable-tile.ts:33-52 | on a tile object, two uncanceled clicks restore `expanded` and append four events that respect the protocol |
| `ExpandableTile.Tile.constructor` | src/components/tile/expandable-tile.ts:57-76 | a new tile is collapsed with the regular color scheme, has no assistive texts, and has dispatched nothing |
| `ExpandableTile.Tile.Render` | src/components/tile/expandable-tile.ts:82-92 | the icon's alt, description and aria-label are the same text: the expanded assistive text when expanded, else the collapsed one |
| `ExpandableTile.ClickSwitchesAssistiveText` | src/components/tile/expandable-tile.ts:83-84 | a committed click switches the announced text to the other state's text; a vetoed click leaves the rendered view unchanged |
| `Button.TagsDistinct` | src/components/button/button.ts:11-36 | the five `BUTTON_KIND` tags are non-empty and pairwise distinct |
| `Button.ClassNamesMembership` | src/components/button/button.ts:84-88 | a key is in the class list's object part iff the value last written for it in the object literal is truthy |
| `Button.BuildMeaning` | src/components/button/button.ts:84-88 | an object literal built over existing entries keeps keys distinct; a key is truthy iff its last written value is, or, if never written, iff it was before |
| `Button.ButtonClassesRules` | src/components/button/button.ts:84-88 | for the class list `ButtonClasses` computes: the base class is first and appears once; the kind class is present iff `kind` is non-empty (a `kind` of "disabled" or "sm" defers to that modifier's flag); the disabled class iff `disabled`; the small class iff `small` |
| `Button.ButtonClassesOrder` | src/components/button/button.ts:84-88 | for kinds other than "disabled" and "sm" the list is base, kind, disabled, small, each when present; for "disabled" it is base, disabled, small; for "sm" the small class takes the kind key's place, giving base, small, disabled |
| `Button.ButtonClassesNoRepeat` | src/components/button/button.ts:84-88 | no class appears twice in the class list, for every kind and flags |
| `Button.KindTagClasses` | src/components/button/button.ts:84-88 | for every `BUTTON_KIND` tag the class list is base, kind class, then the disabled and small classes when set |
| `Button.ClassAttrStartsWithBase` | src/components/button/button.ts:84-91 | the rendered class attribute always begins with the base class |
| `Button.RenderView` | src/components/button/button.ts:89-95 | a link is rendered iff `href` is non-empty, and it carries that `href`; otherwise a native button whose `disabled` is the property; both carry the joined class list |
| `Button.Button.Render` | src/components/button/button.ts:82-96 | for the current fields: a link iff `href` is non-empty, carrying that `href` and the button role; otherwise a native button disabled iff the button is; the class attribute is the joined class list and begins with the base class |
| `Button.Button.constructor` | src/components/button/button.ts:57-76 | a new button is enabled, has no `href`, is of kind primary and is not small |
| `Button.Button.HandleClickLink` | src/components/button/button.ts:47-52 | on a disabled button the click is marked canceled (when cancelable) and its propagation stopped; on an enabled one both flags are unchanged |
| `Button.ClickDisabledLink` | src/components/button/button.ts:47-52 | a cancelable click on the link of a disabled button ends up both canceled and stopped |
| `PageSizesSelect.EventAfterChange` | src/components/pagination/page-sizes-select.ts:89-91 | the change event's name begins with the library prefix |
| `PageSizesSelect.EventAfterChangeNamespaced` | src/components/pagination/page-sizes-select.ts:89-91 | two prefixes give the same change-event name iff they are equal |
| `PageSizesSelect.SelectId` | src/components/pagination/page-sizes-select.ts:26-29 | the select id is the fixed prefix followed by the element id when it is non-empty, else by the unique id |
| `PageSizesSelect.SelectIdDistinguishes` | src/components/pagination/page-sizes-select.ts:19-29 | two elements with ids share a select id iff their ids are equal; two without ids iff their unique ids are equal |
| `PageSizesSelect.PageSizesSelect.Render` | src/components/pagination/page-sizes-select.ts:74-79 | the label's `for` and the select's `id` are the same string, the select id plus `_size`; label text and value are the properties |
| `PageSizesSelect.ToNumber` | src/components/pagination/page-sizes-select.ts:35 | a text of decimal digits reads as a non-negative integer; the empty text reads as 0 |
| `PageSizesSelect.DecimalTextRoundTrip` | src/components/pagination/page-sizes-select.ts:35 | a non-negative size written in decimal reads back as the same size |
| `PageSizesSelect.PageSizesSelect.DispatchEvent` | src/components/pagination/page-sizes-select.ts:36-44 | a dispatch records the event with the current `value`; it reports "not canceled" unless the event is cancelable and a listener cancels it |
| `PageSizesSelect.PageSizesSelect.HandleChange` | src/components/pagination/page-sizes-select.ts:34-46 | one non-cancelable, bubbling, composed event with the parsed value is dispatched while `value` is still old; then `value` becomes the parsed value, the one the event reported, whatever the listeners do |
| `PageSizesSelect.ChooseShownSize` | src/components/pagination/page-sizes-select.ts:34-46 | choosing the option written for size n stores n and reports n |
| `PageSizesSelect.PageSizesSelect.HandleSlotChange` | src/components/pagination/page-sizes-select.ts:52-60 | afterwards the select's children have the content of the slotted nodes, in order; each is a new node, so all previous children are gone and no slotted node is moved |
| `PageSizesSelect.PageSizesSelect.constructor` | src/components/pagination/page-sizes-select.ts:65-72 | a new instance has the label text `Items per page:`, no value, an empty select and no dispatched events |

## Left out

- `updated()` of the tile and the above-the-fold selector it uses are not modelled. They measure rendered geometry (bounding box, computed padding), which belongs to the layout engine.
- Templates, shadow-root creation with focus delegation, styles and the chevron icon are not modelled. Only the values `render` derives from the properties are.
- Attribute and property conversion, reflection and update batching are not modelled, and neither are the focus and host-listener mixins. They live in lit-element and in files that are not part of this model. Properties are plain fields, and the tile's click listener is a method called directly.
- Event propagation is not modelled. Listeners are one oracle per dispatch: whether they cancel. Listeners that change the component while it dispatches are not modelled.
- The unique id drawn with `Math.random()` is an input of the constructor.
- PageSizesSelect.ToNumber: computes `Number()` only for the empty text and decimal digit strings. Signs, fractions, exponents, hexadecimal, surrounding white space and `NaN` are kept as the unread text.
- PageSizesSelect.ToNumber: reads a digit string as the exact unbounded integer. JavaScript's `Number` gives a double, so it agrees only up to 2^53; above that it rounds (`"9007199254740993"` gives 9007199254740992), and past about 309 digits it gives `Infinity`. Double rounding is not modelled.
- `FORM_ELEMENT_COLOR_SCHEME` is declared in a file that is not part of this model. Only its regular member is named.
- Slotted nodes have immutable content. A node appended while it is a child of another parent is not detached from that parent, because parent pointers are not modelled; the handler appends only fresh copies, so it never does this.
- The `<select>` that `@query('select')` finds is taken to exist from construction on.
- The code-sandbox example that restyles a dropdown holds no logic and is not modelled.
