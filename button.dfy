/** The button (`bx-btn`): its class list, the choice between a link and a
    native button, and the suppression of clicks on a disabled link. */
module Button {
  import opened Dom

  /** `BUTTON_KIND`. */
  datatype ButtonKind = Primary | Secondary | Tertiary | Danger | Ghost

  /** The string tag of each kind, as used in the `kind` attribute. */
  function Tag(k: ButtonKind): string
  {
    match k
    case Primary => "primary"
    case Secondary => "secondary"
    case Tertiary => "tertiary"
    case Danger => "danger"
    case Ghost => "ghost"
  }

  /** The five tags are non-empty and tell the kinds apart. */
  lemma TagsDistinct(a: ButtonKind, b: ButtonKind)
    ensures Tag(a) != ""
    ensures Tag(a) == Tag(b) <==> a == b
  {
  }

  // ----- `classnames`, as far as the button uses it -----

  /** An ordered object: its entries in key order. */
  type Object = seq<(string, bool)>

  /** The keys of an ordered object. */
  function Keys(o: Object): set<string>
    decreases |o|
  {
    if o == [] then {} else {o[0].0} + Keys(o[1..])
  }

  /** No key occurs twice. */
  predicate KeysDistinct(o: Object)
    decreases |o|
  {
    o == [] || (o[0].0 !in Keys(o[1..]) && KeysDistinct(o[1..]))
  }

  /** `o[k] = v` on an ordered object: an existing key keeps its place, a new
      key goes last. */
  function Put(o: Object, k: string, v: bool): Object
    decreases |o|
  {
    if o == [] then [(k, v)]
    else if o[0].0 == k then [(k, v)] + o[1..]
    else [o[0]] + Put(o[1..], k, v)
  }

  /** The object an object literal `{k1: v1, k2: v2, ...}` builds, starting
      from the entries `acc`: a key written twice keeps the place of its first
      occurrence and the value of its last. (The keys used here are never
      array-index-like, so JavaScript keeps insertion order.) */
  function Build(acc: Object, props: seq<(string, bool)>): Object
    decreases |props|
  {
    if props == [] then acc else Build(Put(acc, props[0].0, props[0].1), props[1..])
  }

  /** The keys whose values are truthy, in key order. */
  function TruthyKeys(o: Object): seq<string>
    decreases |o|
  {
    if o == [] then [] else (if o[0].1 then [o[0].0] else []) + TruthyKeys(o[1..])
  }

  /** `classnames(base, {k1: v1, ...})` as a list of classes: the base if it is
      non-empty, then the keys of the object whose values are truthy. */
  function ClassNames(base: string, props: seq<(string, bool)>): seq<string>
  {
    (if base != "" then [base] else []) + TruthyKeys(Build([], props))
  }

  /** The value written last for key `k` in an object literal, if any. */
  function LastValue(props: seq<(string, bool)>, k: string): Option<bool>
    decreases |props|
  {
    if props == [] then None
    else match LastValue(props[1..], k)
      case Some(v) => Some(v)
      case None => if props[0].0 == k then Some(props[0].1) else None
  }

  lemma {:induction false} TruthyKeysInKeys(o: Object, x: string)
    ensures x in TruthyKeys(o) ==> x in Keys(o)
    decreases |o|
  {
    if o != [] {
      TruthyKeysInKeys(o[1..], x);
    }
  }

  /** Writing a key adds it to the keys and keeps them distinct. */
  lemma {:induction false} PutKeys(o: Object, k: string, v: bool)
    ensures Keys(Put(o, k, v)) == Keys(o) + {k}
    ensures KeysDistinct(o) ==> KeysDistinct(Put(o, k, v))
    decreases |o|
  {
    if o != [] && o[0].0 != k {
      PutKeys(o[1..], k, v);
    }
  }

  /** After `o[k] = v`, key `k` is truthy iff `v`; other keys are as before. */
  lemma {:induction false} TruthyPut(o: Object, k: string, v: bool, x: string)
    requires KeysDistinct(o)
    ensures x in TruthyKeys(Put(o, k, v)) <==> (if x == k then v else x in TruthyKeys(o))
    decreases |o|
  {
    if o != [] {
      TruthyKeysInKeys(o[1..], o[0].0);
      if o[0].0 == k {
        assert Put(o, k, v) == [(k, v)] + o[1..];
        assert TruthyKeys(Put(o, k, v)) == (if v then [k] else []) + TruthyKeys(o[1..]);
      } else {
        TruthyPut(o[1..], k, v, x);
        assert TruthyKeys(Put(o, k, v)) == (if o[0].1 then [o[0].0] else []) + TruthyKeys(Put(o[1..], k, v));
      }
    }
  }

  /** A class is in the object part of an object literal built on `acc` exactly
      when the value last written for it is truthy, or, if the literal never
      writes it, when it already was truthy in `acc`. */
  lemma {:induction false} BuildMeaning(acc: Object, props: seq<(string, bool)>, x: string)
    requires KeysDistinct(acc)
    ensures KeysDistinct(Build(acc, props))
    ensures x in TruthyKeys(Build(acc, props)) <==>
              match LastValue(props, x)
              case Some(v) => v
              case None => x in TruthyKeys(acc)
    decreases |props|
  {
    if props != [] {
      var acc' := Put(acc, props[0].0, props[0].1);
      PutKeys(acc, props[0].0, props[0].1);
      TruthyPut(acc, props[0].0, props[0].1, x);
      BuildMeaning(acc', props[1..], x);
    }
  }

  /** `classnames` puts a class in its object part exactly when the last value
      written for that key is truthy. */
  lemma ClassNamesMembership(props: seq<(string, bool)>, x: string)
    ensures x in TruthyKeys(Build([], props)) <==> LastValue(props, x) == Some(true)
  {
    BuildMeaning([], props, x);
  }

  // ----- the button's own rules -----

  function BaseClass(prefix: string): string { prefix + "--btn" }
  function KindClass(prefix: string, kind: string): string { prefix + "--btn--" + kind }
  function DisabledClass(prefix: string): string { prefix + "--btn--disabled" }
  function SmallClass(prefix: string): string { prefix + "--btn--sm" }

  /** The classes `render` computes, in order. */
  function ButtonClasses(prefix: string, disabled: bool, kind: string, small: bool): seq<string>
  {
    ClassNames(BaseClass(prefix), [(KindClass(prefix, kind), kind != ""),
                                   (DisabledClass(prefix), disabled),
                                   (SmallClass(prefix), small)])
  }

  /** The base class always comes first and only once; the kind class is
      there exactly when `kind` is non-empty, except that a kind of
      "disabled" or "sm" names the same key as a later modifier, whose value
      then decides; the disabled and small classes are there exactly when
      their flags are set. */
  lemma ButtonClassesRules(prefix: string, disabled: bool, kind: string, small: bool)
    ensures ButtonClasses(prefix, disabled, kind, small)[0] == BaseClass(prefix)
    ensures BaseClass(prefix) !in ButtonClasses(prefix, disabled, kind, small)[1..]
    ensures KindClass(prefix, kind) in ButtonClasses(prefix, disabled, kind, small) <==>
              kind != "" && (kind == "disabled" ==> disabled) && (kind == "sm" ==> small)
    ensures DisabledClass(prefix) in ButtonClasses(prefix, disabled, kind, small) <==> disabled
    ensures SmallClass(prefix) in ButtonClasses(prefix, disabled, kind, small) <==> small
  {
    var kc, dc, sc := KindClass(prefix, kind), DisabledClass(prefix), SmallClass(prefix);
    var props := [(kc, kind != ""), (dc, disabled), (sc, small)];
    var base := BaseClass(prefix);
    var tail := TruthyKeys(Build([], props));
    assert ButtonClasses(prefix, disabled, kind, small) == [base] + tail;
    // Every key is longer than the base class, so none of them equals it.
    assert |kc| > |base| && |dc| > |base| && |sc| > |base|;
    SuffixDiffers(prefix, kind);
    assert dc != sc by {
      assert dc[|prefix| + 7] == 'd';
      assert sc[|prefix| + 7] == 's';
    }
    // The value written last for each key of interest.
    assert props[1..] == [(dc, disabled), (sc, small)];
    assert props[1..][1..] == [(sc, small)];
    assert LastValue([(sc, small)], sc) == Some(small);
    assert LastValue([(sc, small)], dc) == None;
    assert LastValue([(sc, small)], base) == None;
    assert LastValue(props[1..], base) == None;
    assert LastValue(props[1..], dc) == Some(disabled);
    assert LastValue([(sc, small)], kc) == (if kc == sc then Some(small) else None);
    assert LastValue(props[1..], kc) == (if kc == sc then Some(small) else if kc == dc then Some(disabled) else None);
    ClassNamesMembership(props, base);
    ClassNamesMembership(props, kc);
    ClassNamesMembership(props, dc);
    ClassNamesMembership(props, sc);
  }

  /** An object literal with three different keys lists its truthy keys in
      the order they were written. */
  lemma ThreeKeysInOrder(a: string, va: bool, b: string, vb: bool, c: string, vc: bool)
    requires a != b && a != c && b != c
    ensures TruthyKeys(Build([], [(a, va), (b, vb), (c, vc)])) ==
              (if va then [a] else []) + (if vb then [b] else []) + (if vc then [c] else [])
  {
    var props := [(a, va), (b, vb), (c, vc)];
    var ab := [(a, va), (b, vb)];
    assert props[1..] == [(b, vb), (c, vc)] && props[1..][1..] == [(c, vc)];
    assert Build([], props) == Build([(a, va)], props[1..]);
    assert [(a, va)][1..] == [] && ab[1..] == [(b, vb)] && [(b, vb)][1..] == [];
    assert Put([(a, va)], b, vb) == ab;
    assert Build([(a, va)], props[1..]) == Build(ab, [(c, vc)]);
    assert Put([(b, vb)], c, vc) == [(b, vb), (c, vc)];
    assert Put(ab, c, vc) == props;
    assert Build(ab, [(c, vc)]) == props;
    assert [(b, vb), (c, vc)][1..] == [(c, vc)] && [(c, vc)][1..] == [];
    assert TruthyKeys([(c, vc)]) == (if vc then [c] else []);
    assert TruthyKeys([(b, vb), (c, vc)]) == (if vb then [b] else []) + TruthyKeys([(c, vc)]);
  }

  /** When the second key repeats the first, the first key takes the second value. */
  lemma FirstKeyRewritten(a: string, va: bool, vb: bool, c: string, vc: bool)
    requires a != c
    ensures TruthyKeys(Build([], [(a, va), (a, vb), (c, vc)])) ==
              (if vb then [a] else []) + (if vc then [c] else [])
  {
    var props := [(a, va), (a, vb), (c, vc)];
    assert props[1..] == [(a, vb), (c, vc)] && props[1..][1..] == [(c, vc)];
    assert Build([], props) == Build([(a, va)], props[1..]);
    assert [(a, va)][1..] == [] && [(a, vb)][1..] == [];
    assert Put([(a, va)], a, vb) == [(a, vb)];
    assert Build([(a, va)], props[1..]) == Build([(a, vb)], [(c, vc)]);
    assert Put([(a, vb)], c, vc) == [(a, vb), (c, vc)];
    assert Build([(a, vb)], [(c, vc)]) == [(a, vb), (c, vc)];
    assert [(a, vb), (c, vc)][1..] == [(c, vc)] && [(c, vc)][1..] == [];
    assert TruthyKeys([(c, vc)]) == (if vc then [c] else []);
    assert TruthyKeys([(a, vb), (c, vc)]) == (if vb then [a] else []) + TruthyKeys([(c, vc)]);
  }

  /** When the third key repeats the first, it keeps the first key's place and
      takes the third value. */
  lemma FirstKeyRewrittenLast(a: string, va: bool, b: string, vb: bool, vc: bool)
    requires a != b
    ensures TruthyKeys(Build([], [(a, va), (b, vb), (a, vc)])) ==
              (if vc then [a] else []) + (if vb then [b] else [])
  {
    var props := [(a, va), (b, vb), (a, vc)];
    var ab := [(a, va), (b, vb)];
    assert props[1..] == [(b, vb), (a, vc)] && props[1..][1..] == [(a, vc)];
    assert Build([], props) == Build([(a, va)], props[1..]);
    assert [(a, va)][1..] == [] && ab[1..] == [(b, vb)] && [(b, vb)][1..] == [];
    assert Put([(a, va)], b, vb) == ab;
    assert Build([(a, va)], props[1..]) == Build(ab, [(a, vc)]);
    assert Put(ab, a, vc) == [(a, vc), (b, vb)];
    assert Build(ab, [(a, vc)]) == [(a, vc), (b, vb)];
    assert [(a, vc), (b, vb)][1..] == [(b, vb)];
    assert TruthyKeys([(b, vb)]) == (if vb then [b] else []);
    assert TruthyKeys([(a, vc), (b, vb)]) == (if vc then [a] else []) + TruthyKeys([(b, vb)]);
  }

  /** The order of the class list, for every kind: with a kind other than
      "disabled" and "sm" the modifiers follow in the order kind, disabled,
      small; with "disabled" the kind key is the disabled key; with "sm" the
      small class keeps the place of the kind key, so it comes before the
      disabled class. */
  lemma ButtonClassesOrder(prefix: string, disabled: bool, kind: string, small: bool)
    ensures kind != "disabled" && kind != "sm" ==>
              ButtonClasses(prefix, disabled, kind, small) ==
                [BaseClass(prefix)]
                + (if kind != "" then [KindClass(prefix, kind)] else [])
                + (if disabled then [DisabledClass(prefix)] else [])
                + (if small then [SmallClass(prefix)] else [])
    ensures kind == "disabled" ==>
              ButtonClasses(prefix, disabled, kind, small) ==
                [BaseClass(prefix)]
                + (if disabled then [DisabledClass(prefix)] else [])
                + (if small then [SmallClass(prefix)] else [])
    ensures kind == "sm" ==>
              ButtonClasses(prefix, disabled, kind, small) ==
                [BaseClass(prefix)]
                + (if small then [SmallClass(prefix)] else [])
                + (if disabled then [DisabledClass(prefix)] else [])
  {
    var kc, dc, sc := KindClass(prefix, kind), DisabledClass(prefix), SmallClass(prefix);
    SuffixDiffers(prefix, kind);
    assert dc != sc by {
      assert dc[|prefix| + 7] == 'd';
      assert sc[|prefix| + 7] == 's';
    }
    if kind == "disabled" {
      FirstKeyRewritten(dc, true, disabled, sc, small);
    } else if kind == "sm" {
      FirstKeyRewrittenLast(sc, true, dc, disabled, small);
    } else {
      ThreeKeysInOrder(kc, kind != "", dc, disabled, sc, small);
    }
  }

  /** No class appears twice in the class list. */
  lemma ButtonClassesNoRepeat(prefix: string, disabled: bool, kind: string, small: bool)
    ensures var r := ButtonClasses(prefix, disabled, kind, small);
            forall i, j :: 0 <= i < j < |r| ==> r[i] != r[j]
  {
    var base, kc, dc, sc := BaseClass(prefix), KindClass(prefix, kind), DisabledClass(prefix), SmallClass(prefix);
    ButtonClassesOrder(prefix, disabled, kind, small);
    SuffixDiffers(prefix, kind);
    assert |kc| > |base| && |dc| > |base| && |sc| > |base|;
    assert dc != sc by {
      assert dc[|prefix| + 7] == 'd';
      assert sc[|prefix| + 7] == 's';
    }
  }

  /** The kind class is the disabled (small) class only for the kind "disabled" ("sm"). */
  lemma SuffixDiffers(prefix: string, kind: string)
    ensures KindClass(prefix, kind) == DisabledClass(prefix) <==> kind == "disabled"
    ensures KindClass(prefix, kind) == SmallClass(prefix) <==> kind == "sm"
  {
    var p := prefix + "--btn--";
    assert KindClass(prefix, kind) == p + kind;
    assert DisabledClass(prefix) == p + "disabled";
    assert SmallClass(prefix) == p + "sm";
    if p + kind == p + "disabled" {
      assert kind == (p + kind)[|p|..];
    }
    if p + kind == p + "sm" {
      assert kind == (p + kind)[|p|..];
    }
  }

  /** Every `BUTTON_KIND` tag yields its kind class, in the plain order. */
  lemma KindTagClasses(prefix: string, k: ButtonKind, disabled: bool, small: bool)
    ensures ButtonClasses(prefix, disabled, Tag(k), small) ==
              [BaseClass(prefix), KindClass(prefix, Tag(k))]
              + (if disabled then [DisabledClass(prefix)] else [])
              + (if small then [SmallClass(prefix)] else [])
  {
    ButtonClassesOrder(prefix, disabled, Tag(k), small);
  }

  /** The classes joined by single spaces, as `classnames` returns them. */
  function Join(classes: seq<string>): string
    decreases |classes|
  {
    if classes == [] then ""
    else if |classes| == 1 then classes[0]
    else classes[0] + " " + Join(classes[1..])
  }

  /** What `render` produces: a link when `href` is set, else a native button. */
  datatype View =
    | Anchor(id: string, role: string, classAttr: string, href: string)
    | NativeButton(id: string, classAttr: string, disabled: bool)

  function RenderView(prefix: string, disabled: bool, href: string, kind: string, small: bool): (v: View)
    ensures v.Anchor? <==> href != ""
    ensures v.id == "button"
    ensures v.classAttr == Join(ButtonClasses(prefix, disabled, kind, small))
    ensures v.Anchor? ==> v.role == "button" && v.href == href
    ensures v.NativeButton? ==> v.disabled == disabled
  {
    var classes := Join(ButtonClasses(prefix, disabled, kind, small));
    if href != "" then Anchor("button", "button", classes, href)
    else NativeButton("button", classes, disabled)
  }

  /** The class attribute always starts with the base class. */
  lemma ClassAttrStartsWithBase(prefix: string, disabled: bool, kind: string, small: bool)
    ensures var attr := Join(ButtonClasses(prefix, disabled, kind, small));
            |BaseClass(prefix)| <= |attr| && attr[..|BaseClass(prefix)|] == BaseClass(prefix)
  {
  }

  /** A button instance. */
  class Button {
    const prefix: string
    var disabled: bool
    var href: string
    var kind: string
    var small: bool

    /** A new button: enabled, no link, primary, normal size. */
    constructor (prefix: string)
      ensures this.prefix == prefix
      ensures !disabled && href == "" && kind == Tag(Primary) && !small
    {
      this.prefix := prefix;
      disabled := false;
      href := "";
      kind := Tag(Primary);
      small := false;
    }

    /** `render`: a link exactly when `href` is set, else a native button
        that is disabled exactly when the button is; both carry the class
        list of the current properties. */
    function Render(): (v: View)
      reads this
      ensures v.Anchor? <==> href != ""
      ensures v.Anchor? ==> v.href == href && v.role == "button"
      ensures v.NativeButton? ==> v.disabled == disabled
      ensures v.classAttr == Join(ButtonClasses(prefix, disabled, kind, small))
      ensures Join(ButtonClasses(prefix, disabled, kind, small))[..|BaseClass(prefix)|] == BaseClass(prefix)
    {
      ClassAttrStartsWithBase(prefix, disabled, kind, small);
      RenderView(prefix, disabled, href, kind, small)
    }

    /** The link's `click` listener: a click on a disabled link neither
        follows the link nor reaches further listeners. */
    method HandleClickLink(event: UiEvent)
      modifies event
      ensures disabled ==> event.defaultPrevented == (old(event.defaultPrevented) || event.cancelable)
      ensures disabled ==> event.propagationStopped
      ensures !disabled ==> event.defaultPrevented == old(event.defaultPrevented)
      ensures !disabled ==> event.propagationStopped == old(event.propagationStopped)
    {
      if disabled {
        event.PreventDefault();
        event.StopPropagation();
      }
    }
  }

  /** A click on the link of a disabled button is canceled and stopped. */
  method ClickDisabledLink(prefix: string, href: string) returns (event: UiEvent)
    ensures event.defaultPrevented && event.propagationStopped
  {
    var button := new Button(prefix);
    button.href := href;
    button.disabled := true;
    event := new UiEvent(true);
    button.HandleClickLink(event);
  }
}
