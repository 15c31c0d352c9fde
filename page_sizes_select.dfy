/** The page-size select of the pagination (`bx-page-sizes-select`): the id
    that ties its label to its `<select>`, the change handler that reports and
    stores the chosen size, and the mirroring of the slotted `<option>`s into
    the `<select>`. */
module PageSizesSelect {
  import opened Dom

  /** What every select id starts with. */
  const SelectIdPrefix: string := "__bx-ce-page-sizes-select_"

  /** The default of `labelText`. */
  const DefaultLabelText: string := "Items per page:"

  /** The name of the event fired after the page size is changed: the
      library prefix, then a fixed suffix. */
  function EventAfterChange(prefix: string): (name: string)
    ensures |prefix| < |name| && name[..|prefix|] == prefix
  {
    prefix + "-page-sizes-select-changed"
  }

  /** Each prefix has its own change event: two prefixes give the same event
      name only if they are equal. */
  lemma EventAfterChangeNamespaced(prefix1: string, prefix2: string)
    ensures EventAfterChange(prefix1) == EventAfterChange(prefix2) <==> prefix1 == prefix2
  {
  }

  /** `_selectId`: the fixed prefix followed by the element id if it is
      non-empty, else by the instance's generated unique id. */
  function SelectId(elementId: string, uniqueId: string): (r: string)
    ensures |SelectIdPrefix| <= |r| && r[..|SelectIdPrefix|] == SelectIdPrefix
    ensures elementId != "" ==> r[|SelectIdPrefix|..] == elementId
    ensures elementId == "" ==> r[|SelectIdPrefix|..] == uniqueId
  {
    SelectIdPrefix + (if elementId != "" then elementId else uniqueId)
  }

  /** Select ids tell instances apart: two elements with ids get the same
      select id only if their ids are equal, and two elements without ids only
      if their unique ids are equal. */
  lemma SelectIdDistinguishes(elementId1: string, uniqueId1: string, elementId2: string, uniqueId2: string)
    ensures elementId1 != "" && elementId2 != "" ==>
              (SelectId(elementId1, uniqueId1) == SelectId(elementId2, uniqueId2) <==> elementId1 == elementId2)
    ensures elementId1 == "" && elementId2 == "" ==>
              (SelectId(elementId1, uniqueId1) == SelectId(elementId2, uniqueId2) <==> uniqueId1 == uniqueId2)
  {
  }

  // ----- `Number(text)`, for the texts a page size is written as -----

  /** A JavaScript number as far as the model computes it: the value of a
      decimal digit string, or the text `Number` was given otherwise. */
  datatype JsNumber = Int(i: int) | Unmodelled(text: string)

  predicate IsDigit(c: char) { '0' <= c <= '9' }

  predicate AllDigits(s: string) { forall i :: 0 <= i < |s| ==> IsDigit(s[i]) }

  /** The value of a string of decimal digits (0 for the empty string). */
  function DigitsValue(s: string): nat
    requires AllDigits(s)
    decreases |s|
  {
    if s == [] then 0 else DigitsValue(s[..|s| - 1]) * 10 + (s[|s| - 1] as int - '0' as int)
  }

  /** `Number(text)` for the texts it computes: a string of decimal digits is
      read as the exact integer it denotes, the empty string as 0, and leading
      zeros are ignored, as JavaScript does. JavaScript's result is a double,
      so it agrees with this one up to 2^53; above that it rounds, and past
      about 309 digits it is `Infinity`. Any text that is not all decimal
      digits is not computed. */
  function ToNumber(text: string): (n: JsNumber)
    ensures n.Int? <==> AllDigits(text)
    ensures n.Int? ==> n.i >= 0
    ensures text == "" ==> n == Int(0)
  {
    if AllDigits(text) then Int(DigitsValue(text)) else Unmodelled(text)
  }

  /** `String(n)` for a non-negative integer: its decimal digits, no leading zero. */
  function DecimalText(n: nat): (s: string)
    ensures s != [] && AllDigits(s)
    ensures |s| > 1 ==> s[0] != '0'
    decreases n
  {
    var digit := ['0' + (n % 10) as char];
    if n < 10 then digit else DecimalText(n / 10) + digit
  }

  /** A page size written out by the `<select>` reads back as the same size. */
  lemma {:induction false} DecimalTextRoundTrip(n: nat)
    ensures ToNumber(DecimalText(n)) == Int(n)
    decreases n
  {
    var s := DecimalText(n);
    assert s[|s| - 1] as int - '0' as int == n % 10;
    if n >= 10 {
      DecimalTextRoundTrip(n / 10);
      assert s[..|s| - 1] == DecimalText(n / 10);
    } else {
      assert s[..|s| - 1] == [];
    }
    assert DigitsValue(s) == DigitsValue(s[..|s| - 1]) * 10 + n % 10;
  }

  /** The `detail` of the change event. */
  datatype SizeDetail = SizeDetail(value: JsNumber)

  /** A dispatched change event with the `value` its listeners observe. */
  type SizeDispatch = Dispatched<SizeDetail, Option<JsNumber>>

  /** What `render` produces, restricted to what depends on the properties. */
  datatype View = View(labelFor: string, labelText: string, selectId: string, selectValue: Option<JsNumber>)

  /** A page-size select instance. */
  class PageSizesSelect {
    const prefix: string
    /** The element's `id` attribute. */
    var id: string
    /** The id generated for the instance when it is created. */
    const uniqueId: string
    /** The `<select>` in the rendered view. */
    const selectNode: ParentNode
    var labelText: string
    var value: Option<JsNumber>
    /** Every `dispatchEvent` on this element, in order. */
    var trace: seq<SizeDispatch>

    ghost predicate Valid()
      reads this, selectNode
    {
      selectNode.Valid()
    }

    /** A new instance, given the unique id drawn for it. */
    constructor (prefix: string, id: string, uniqueId: string)
      ensures Valid() && fresh(selectNode)
      ensures this.prefix == prefix && this.id == id && this.uniqueId == uniqueId
      ensures labelText == DefaultLabelText && value == None && trace == []
      ensures selectNode.children == []
    {
      this.prefix := prefix;
      this.id := id;
      this.uniqueId := uniqueId;
      selectNode := new ParentNode();
      labelText := DefaultLabelText;
      value := None;
      trace := [];
    }

    function Render(): (v: View)
      reads this
      ensures v.labelFor == v.selectId
      ensures v.selectId == SelectId(id, uniqueId) + "_size"
      ensures v.labelText == labelText && v.selectValue == value
    {
      var selectId := SelectId(id, uniqueId);
      View(selectId + "_size", labelText, selectId + "_size", value)
    }

    /** `dispatchEvent` on the element; `listenersCancel` is whether a listener calls `preventDefault`. */
    method DispatchEvent(e: CustomEvent<SizeDetail>, listenersCancel: bool) returns (notCanceled: bool)
      modifies this`trace
      ensures trace == old(trace) + [Dispatched(e, value)]
      ensures notCanceled == NotCanceled(e, listenersCancel)
    {
      trace := trace + [Dispatched(e, value)];
      notCanceled := NotCanceled(e, listenersCancel);
    }

    /** The `<select>`'s `change` listener, `targetValue` being the select's
        value. The event goes out first, while `value` is still the old one;
        it cannot be canceled, so whatever the listeners do the new value is
        stored, and it is the one the event reported. */
    method HandleChange(targetValue: string, listenersCancel: bool)
      modifies this`value, this`trace
      ensures value == Some(ToNumber(targetValue))
      ensures trace == old(trace) + [Dispatched(CustomEvent(EventAfterChange(prefix), true, true, false, SizeDetail(ToNumber(targetValue))), old(value))]
      ensures trace[|trace| - 1].event.detail.value == value.value
    {
      var v := ToNumber(targetValue);
      var _ := DispatchEvent(CustomEvent(EventAfterChange(prefix), true, true, false, SizeDetail(v)), listenersCancel);
      value := Some(v);
    }

    /** The `slotchange` listener, `slotted` being the slot's assigned nodes:
        empties the `<select>`, then appends a deep copy of each assigned node
        in order. */
    method HandleSlotChange(slotted: seq<Node>)
      requires Valid()
      modifies selectNode
      ensures Valid()
      ensures DataOf(selectNode.children) == DataOf(slotted)
      ensures forall i :: 0 <= i < |selectNode.children| ==> fresh(selectNode.children[i])
    {
      while selectNode.FirstChild().Some?
        invariant selectNode.Valid()
        decreases |selectNode.children|
      {
        var first := selectNode.FirstChild().value;
        WithoutFirst(selectNode.children);
        selectNode.RemoveChild(first);
      }
      for i := 0 to |slotted|
        invariant selectNode.Valid()
        invariant |selectNode.children| == i
        invariant forall j :: 0 <= j < i ==> selectNode.children[j].data == slotted[j].data
        invariant forall j :: 0 <= j < i ==> fresh(selectNode.children[j])
      {
        var copy := slotted[i].CloneDeep();
        WithoutAbsent(selectNode.children, copy);
        selectNode.AppendChild(copy);
      }
    }
  }

  /** Choosing the size the `<select>` shows for a stored size stores that
      same size again, and reports it. */
  method ChooseShownSize(s: PageSizesSelect, n: nat, listenersCancel: bool)
    modifies s`value, s`trace
    ensures s.value == Some(Int(n))
    ensures |s.trace| == |old(s.trace)| + 1
    ensures s.trace[|s.trace| - 1].event.detail == SizeDetail(Int(n))
  {
    DecimalTextRoundTrip(n);
    s.HandleChange(DecimalText(n), listenersCancel);
  }
}
