/** The expandable tile (`bx-expandable-tile`): a click toggles `expanded`
    through a two-phase event protocol. A cancelable "being changed" event
    carries the proposed value; only if no listener cancels it is the value
    committed and a non-cancelable "changed" event with the same detail
    dispatched. */
module ExpandableTile {
  import opened Dom

  /** `FORM_ELEMENT_COLOR_SCHEME`; only its `REGULAR` member is used by the tile. */
  datatype ColorScheme = Regular | OtherScheme(tag: string)

  /** The `detail` of both protocol events. */
  datatype ChangeDetail = ChangeDetail(expanded: bool)

  /** A dispatched protocol event with the `expanded` value its listeners observe. */
  type TileDispatch = Dispatched<ChangeDetail, bool>

  /** The name of the event fired before `expanded` changes upon a user gesture. */
  function EventBeforeChange(prefix: string): string
  {
    prefix + "-expandable-tile-beingchanged"
  }

  /** The name of the event fired after `expanded` changed upon a user gesture. */
  function EventChange(prefix: string): string
  {
    prefix + "-expandable-tile-changed"
  }

  /** Listeners can tell the two phases apart by name, whatever the prefix. */
  lemma EventNamesDistinct(prefix: string)
    ensures EventBeforeChange(prefix) != EventChange(prefix)
  {
  }

  /** The events one or more clicks dispatch, and the resulting `expanded`. */
  datatype Outcome = Outcome(dispatched: seq<TileDispatch>, expanded: bool)

  /** The reference for one click on a tile whose `expanded` is `expanded`;
      `canceled` is whether a listener cancels the "being changed" event. */
  function Click(prefix: string, expanded: bool, canceled: bool): (g: Outcome)
    // The click proposes the negation; the first event is the cancelable,
    // bubbling, composed "being changed" event, seen while nothing changed yet.
    ensures |g.dispatched| >= 1
    ensures g.dispatched[0].event.eventType == EventBeforeChange(prefix)
    ensures g.dispatched[0].event.detail.expanded == !expanded
    ensures g.dispatched[0].event.cancelable
    ensures g.dispatched[0].event.bubbles && g.dispatched[0].event.composed
    ensures g.dispatched[0].observed == expanded
    // Vetoed: nothing changes and no "changed" event follows.
    ensures canceled ==> g.expanded == expanded && |g.dispatched| == 1
    // Committed: the proposal is written, then exactly one "changed" event with
    // the same detail, not cancelable, whose listeners already see the new value.
    ensures !canceled ==> g.expanded == !expanded && |g.dispatched| == 2
    ensures !canceled ==> g.dispatched[1].event == g.dispatched[0].event.(eventType := EventChange(prefix), cancelable := false)
    ensures !canceled ==> g.dispatched[1].observed == g.expanded
  {
    var proposed := !expanded;
    var init := CustomEvent(EventBeforeChange(prefix), true, true, true, ChangeDetail(proposed));
    var before := Dispatched(init, expanded);
    if canceled then Outcome([before], expanded)
    else Outcome([before, Dispatched(init.(eventType := EventChange(prefix), cancelable := false), proposed)], proposed)
  }

  /** Successive clicks, `canceled[i]` being the listeners' answer to the i-th. */
  function Clicks(prefix: string, expanded: bool, canceled: seq<bool>): (g: Outcome)
    decreases |canceled|
  {
    if canceled == [] then Outcome([], expanded)
    else
      var first := Click(prefix, expanded, canceled[0]);
      var rest := Clicks(prefix, first.expanded, canceled[1..]);
      Outcome(first.dispatched + rest.dispatched, rest.expanded)
  }

  /** How many of the clicks were not vetoed. */
  function Committed(canceled: seq<bool>): nat
  {
    if canceled == [] then 0 else (if canceled[0] then 0 else 1) + Committed(canceled[1..])
  }

  /** Only committed clicks flip the tile: after any run of clicks the tile is
      toggled iff an odd number of them were not vetoed, and every click
      dispatched one event plus one more if it committed. */
  lemma {:induction false} ClicksParity(prefix: string, expanded: bool, canceled: seq<bool>)
    ensures Clicks(prefix, expanded, canceled).expanded == (if Committed(canceled) % 2 == 0 then expanded else !expanded)
    ensures |Clicks(prefix, expanded, canceled).dispatched| == |canceled| + Committed(canceled)
    decreases |canceled|
  {
    if canceled != [] {
      ClicksParity(prefix, Click(prefix, expanded, canceled[0]).expanded, canceled[1..]);
    }
  }

  /** Two consecutive clicks that nobody vetoes restore the original value. */
  lemma TwoCommittedClicksRestore(prefix: string, expanded: bool)
    ensures Clicks(prefix, expanded, [false, false]).expanded == expanded
    ensures |Clicks(prefix, expanded, [false, false]).dispatched| == 4
  {
  }

  /** The protocol as seen by a listener watching every dispatch on the tile:
      a "being changed" event is cancelable and proposes the negation of what
      it observes; a "changed" event is not cancelable, comes right after a
      "being changed" event with the same detail, and is dispatched only once
      the proposal has been written. */
  ghost predicate ProtocolRespected(prefix: string, ds: seq<TileDispatch>)
  {
    forall i :: 0 <= i < |ds| ==> RespectedAt(prefix, ds, i)
  }

  /** The protocol at the i-th dispatch. */
  ghost predicate RespectedAt(prefix: string, ds: seq<TileDispatch>, i: nat)
    requires i < |ds|
  {
    (ds[i].event.eventType == EventBeforeChange(prefix) ==>
       ds[i].event.cancelable && ds[i].event.detail.expanded == !ds[i].observed) &&
    (ds[i].event.eventType == EventChange(prefix) ==>
       !ds[i].event.cancelable && 0 < i &&
       ds[i - 1].event.eventType == EventBeforeChange(prefix) &&
       ds[i - 1].event.detail == ds[i].event.detail &&
       ds[i].observed == ds[i].event.detail.expanded)
  }

  /** However many clicks, and whatever the listeners answer, the dispatches
      start with a "being changed" event and respect the protocol. */
  lemma {:induction false} ClicksRespectProtocol(prefix: string, expanded: bool, canceled: seq<bool>)
    ensures ProtocolRespected(prefix, Clicks(prefix, expanded, canceled).dispatched)
    ensures canceled != [] ==> Clicks(prefix, expanded, canceled).dispatched[0].event.eventType == EventBeforeChange(prefix)
    decreases |canceled|
  {
    if canceled != [] {
      var first := Click(prefix, expanded, canceled[0]);
      var rest := Clicks(prefix, first.expanded, canceled[1..]);
      ClicksRespectProtocol(prefix, first.expanded, canceled[1..]);
      EventNamesDistinct(prefix);
      var ds := first.dispatched + rest.dispatched;
      var n := |first.dispatched|;
      assert Clicks(prefix, expanded, canceled).dispatched == ds;
      forall i | 0 <= i < |ds|
        ensures RespectedAt(prefix, ds, i)
      {
        if i >= n {
          assert ds[i] == rest.dispatched[i - n];
          assert RespectedAt(prefix, rest.dispatched, i - n);
          if i > n {
            assert ds[i - 1] == rest.dispatched[i - 1 - n];
          } else {
            assert canceled[1..] != [];
          }
        } else {
          assert ds[i] == first.dispatched[i];
          if i > 0 {
            assert ds[i - 1] == first.dispatched[i - 1];
          }
        }
      }
    }
  }

  /** What `render` hands to the chevron icon: the same assistive text as its
      `alt`, `description` and `aria-label`. */
  datatype View = View(iconAlt: Option<string>, iconDescription: Option<string>, iconAriaLabel: Option<string>)

  /** A tile instance: its properties and the events dispatched on it so far. */
  class Tile {
    const prefix: string
    var collapsedAssistiveText: Option<string>
    var colorScheme: ColorScheme
    var expandedAssistiveText: Option<string>
    var expanded: bool
    /** Every `dispatchEvent` on this tile, in order. */
    var trace: seq<TileDispatch>

    /** A new tile: collapsed, regular color scheme, no assistive texts set. */
    constructor (prefix: string)
      ensures this.prefix == prefix
      ensures !expanded && colorScheme == Regular
      ensures collapsedAssistiveText == None && expandedAssistiveText == None
      ensures trace == []
    {
      this.prefix := prefix;
      collapsedAssistiveText := None;
      colorScheme := Regular;
      expandedAssistiveText := None;
      expanded := false;
      trace := [];
    }

    /** `dispatchEvent` on the tile; `listenersCancel` is whether a listener calls `preventDefault`. */
    method DispatchEvent(e: CustomEvent<ChangeDetail>, listenersCancel: bool) returns (notCanceled: bool)
      modifies this`trace
      ensures trace == old(trace) + [Dispatched(e, expanded)]
      ensures notCanceled == NotCanceled(e, listenersCancel)
    {
      trace := trace + [Dispatched(e, expanded)];
      notCanceled := NotCanceled(e, listenersCancel);
    }

    /** The host `click` listener. `listenersCancel` is whether the listeners
        cancel the "being changed" event (the "changed" event cannot be canceled). */
    method HandleClick(listenersCancel: bool)
      modifies this`expanded, this`trace
      ensures expanded == Click(prefix, old(expanded), listenersCancel).expanded
      ensures trace == old(trace) + Click(prefix, old(expanded), listenersCancel).dispatched
    {
      var proposed := !expanded;
      var init := CustomEvent(EventBeforeChange(prefix), true, true, true, ChangeDetail(proposed));
      var beforeChangeEvent := init;
      var notCanceled := DispatchEvent(beforeChangeEvent, listenersCancel);
      if notCanceled {
        expanded := proposed;
        var afterChangeEvent := init.(eventType := EventChange(prefix), cancelable := false);
        var _ := DispatchEvent(afterChangeEvent, listenersCancel);
      }
    }

    /** The assistive text `render` announces for the current state. */
    function AssistiveText(): (r: Option<string>)
      reads this
    {
      if expanded then expandedAssistiveText else collapsedAssistiveText
    }

    /** `render`, restricted to what depends on the properties. */
    function Render(): (v: View)
      reads this
      ensures v.iconAlt == v.iconDescription == v.iconAriaLabel
      ensures expanded ==> v.iconAlt == expandedAssistiveText
      ensures !expanded ==> v.iconAlt == collapsedAssistiveText
    {
      var text := AssistiveText();
      View(text, text, text)
    }
  }

  /** A committed click switches the announced text to the other one; a vetoed
      click leaves it as it was. */
  method ClickSwitchesAssistiveText(t: Tile, listenersCancel: bool)
    modifies t`expanded, t`trace
    ensures listenersCancel ==> t.Render() == old(t.Render())
    ensures !listenersCancel && old(t.expanded) ==> t.Render().iconAlt == t.collapsedAssistiveText
    ensures !listenersCancel && !old(t.expanded) ==> t.Render().iconAlt == t.expandedAssistiveText
  {
    t.HandleClick(listenersCancel);
  }

  /** Two uncanceled clicks on a tile bring `expanded` back and dispatch four events. */
  method ClickTwice(t: Tile)
    modifies t`expanded, t`trace
    ensures t.expanded == old(t.expanded)
    ensures |t.trace| == |old(t.trace)| + 4
    ensures ProtocolRespected(t.prefix, t.trace[|old(t.trace)|..])
  {
    ghost var start := t.expanded;
    t.HandleClick(false);
    t.HandleClick(false);
    TwoCommittedClicksRestore(t.prefix, start);
    ClicksRespectProtocol(t.prefix, start, [false, false]);
    assert t.trace[|old(t.trace)|..] == Clicks(t.prefix, start, [false, false]).dispatched;
  }
}
