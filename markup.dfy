/** The markup the component renders: `tag`, `makeTitleFromKey`,
    `renderUi`, `renderElement` and `renderSubElements`, as functions of the
    CSS library name, the configuration and the set of selected flat keys
    (the instance fields the methods read). */
module Markup {
  import opened Json
  import opened FlatKeys
  import opened UiState

  const DaisyUi: string := "daisyui"
  const Bootstrap: string := "bootstrap"

  /** The two CSS libraries the component has markup for. */
  predicate KnownLib(lib: string) {
    lib == DaisyUi || lib == Bootstrap
  }

  /** What a render method returns: `Undefined` when it falls off the end of
      its if-chain (a library name it has no branch for). */
  datatype Output = Undefined | Html(text: string)

  /** `undefined` renders as "" in `Array.prototype.join`. */
  function JoinText(o: Output): string {
    if o.Html? then o.text else ""
  }

  // =====================================================================
  // tag (main.js:11-16)

  /** One attribute, in the place its property has in the attribute object. */
  datatype Attr = Attr(name: string, value: string)

  /** `${key}="${value}"` */
  function AttrEntry(a: Attr): string {
    a.name + "=\"" + a.value + "\""
  }

  /** The attribute entries joined with single spaces; no attributes give "". */
  function AttrText(attrs: seq<Attr>): (r: string)
    ensures r == "" <==> attrs == []
    decreases |attrs|
  {
    if |attrs| == 0 then ""
    else if |attrs| == 1 then AttrEntry(attrs[0])
    else AttrEntry(attrs[0]) + " " + AttrText(attrs[1..])
  }

  /** `<name attrs>content</name>`, with a space after the name even when
      there are no attributes. */
  function Tag(name: string, attrs: seq<Attr>, content: string): string {
    "<" + name + " " + AttrText(attrs) + ">" + content + "</" + name + ">"
  }

  /** `t` occurs in `s` at position `i`. */
  predicate IsAt(t: string, s: string, i: int) {
    0 <= i && i + |t| <= |s| && s[i..i + |t|] == t
  }

  /** `t` occurs in `s`. */
  ghost predicate Infix(t: string, s: string) {
    exists i :: IsAt(t, s, i)
  }

  lemma InfixWithin(t: string, a: string, b: string, c: string)
    requires Infix(t, b)
    ensures Infix(t, a + b + c)
  {
    var i :| IsAt(t, b, i);
    var s := a + b + c;
    assert s[|a| + i..|a| + i + |t|] == b[i..i + |t|];
    assert IsAt(t, s, |a| + i);
  }

  /** Every attribute is written out in the attribute text. */
  lemma {:induction false} AttrTextHas(attrs: seq<Attr>, k: nat)
    requires k < |attrs|
    ensures Infix(AttrEntry(attrs[k]), AttrText(attrs))
    decreases |attrs|
  {
    var e := AttrEntry(attrs[k]);
    var s := AttrText(attrs);
    if k == 0 {
      var rest := if |attrs| == 1 then "" else " " + AttrText(attrs[1..]);
      assert s == e + rest;
      assert s[0..|e|] == e;
      assert IsAt(e, s, 0);
    } else {
      AttrTextHas(attrs[1..], k - 1);
      assert attrs[1..][k - 1] == attrs[k];
      InfixWithin(e, AttrEntry(attrs[0]) + " ", AttrText(attrs[1..]), "");
      assert AttrEntry(attrs[0]) + " " + AttrText(attrs[1..]) + "" == s;
    }
  }

  /** Every attribute of a tag is written out in it. */
  lemma TagHas(name: string, attrs: seq<Attr>, content: string, k: nat)
    requires k < |attrs|
    ensures Infix(AttrEntry(attrs[k]), Tag(name, attrs, content))
  {
    AttrTextHas(attrs, k);
    InfixWithin(AttrEntry(attrs[k]), "<" + name + " ", AttrText(attrs), ">" + content + "</" + name + ">");
    assert "<" + name + " " + AttrText(attrs) + (">" + content + "</" + name + ">")
      == Tag(name, attrs, content);
  }

  // =====================================================================
  // makeTitleFromKey (main.js:18-20)

  /** `toUpperCase` on one character, for the ASCII letters. */
  function UpperAscii(c: char): (r: char)
    ensures 'a' <= c <= 'z' ==> r as int == c as int - 32
    ensures !('a' <= c <= 'z') ==> r == c
  {
    if 'a' <= c <= 'z' then (c as int - 32) as char else c
  }

  /** The key with its first character upper-cased; "" stays "". */
  function MakeTitleFromKey(key: string): (r: string)
    ensures |r| == |key|
    ensures key != [] ==> r[0] == UpperAscii(key[0]) && r[1..] == key[1..]
  {
    if key == [] then [] else [UpperAscii(key[0])] + key[1..]
  }

  /** A title never starts with a lower-case ASCII letter, differs from its
      key at most in the first character, and a key that already starts with
      anything else is its own title. */
  lemma TitleStartsUpper(key: string)
    ensures var r := MakeTitleFromKey(key);
      && |r| == |key|
      && (r != [] ==> !('a' <= r[0] <= 'z') && r[1..] == key[1..])
      && (key != [] && !('a' <= key[0] <= 'z') ==> r == key)
  {
    if key != [] && !('a' <= key[0] <= 'z') {
      assert [key[0]] + key[1..] == key;
    }
  }

  // =====================================================================
  // Template-literal text of values and Object.keys of a group

  /** `${v}` */
  function Text(v: Value): string {
    match v
    case Str(s) => s
    case Bool(b) => if b then "true" else "false"
    case Null => "null"
    case Obj(_, _) => "[object Object]"
  }

  function Digit(d: nat): char
    requires d < 10
  {
    ('0' as int + d) as char
  }

  /** The decimal text of an index, as `Object.keys` of a string gives it. */
  function NatToString(n: nat): (r: string)
    ensures |r| >= 1 && NoSep(r)
    decreases n
  {
    if n < 10 then [Digit(n)] else NatToString(n / 10) + [Digit(n % 10)]
  }

  /** Reading decimal digits back. */
  function DecimalValue(s: string): int
    decreases |s|
  {
    if s == [] then 0 else 10 * DecimalValue(s[..|s| - 1]) + (s[|s| - 1] as int - '0' as int)
  }

  /** The index text reads back as the index. */
  lemma {:induction false} NatToStringRoundTrip(n: nat)
    ensures DecimalValue(NatToString(n)) == n
    decreases n
  {
    if n >= 10 {
      NatToStringRoundTrip(n / 10);
      var s := NatToString(n);
      assert s[..|s| - 1] == NatToString(n / 10);
    }
  }

  /** `Object.keys(sub)`: an object's own keys, the indices of a string, and
      nothing for a boolean. */
  function SubKeys(sub: Value): (r: seq<string>)
    ensures sub.Obj? ==> r == sub.keys
    ensures sub.Str? ==> |r| == |sub.s| && forall i :: 0 <= i < |r| ==> r[i] == NatToString(i)
    ensures sub.Bool? || sub.Null? ==> r == []
  {
    match sub
    case Obj(keys, _) => keys
    case Str(s) => seq(|s|, i requires 0 <= i < |s| => NatToString(i))
    case _ => []
  }

  /** `Object.keys` never lists the same key twice: distinct indices have
      distinct decimal texts. */
  lemma SubKeysDistinct(sub: Value)
    requires WellFormed(sub)
    ensures Distinct(SubKeys(sub))
  {
    if sub.Str? {
      var r := SubKeys(sub);
      forall i, j | 0 <= i < j < |r|
        ensures r[i] != r[j]
      {
        NatToStringRoundTrip(i);
        NatToStringRoundTrip(j);
      }
    }
  }

  /** `sub[elm]` for the `i`-th key of `Object.keys(sub)`. */
  function SubLabel(sub: Value, i: nat): Value
    requires WellFormed(sub) && i < |SubKeys(sub)|
  {
    match sub
    case Obj(keys, fields) => fields[keys[i]]
    case Str(s) => Str([s[i]])
    case _ => Null
  }

  // =====================================================================
  // renderSubElements (main.js:116-169)

  /** The attributes of the checkbox of sub-option `elm` of group `root`, in
      the order the library's attribute object has them. */
  function InputAttrs(lib: string, root: string, elm: string, sel: set<string>): seq<Attr>
    requires KnownLib(lib)
  {
    var name := Attr("name", NameOf(FlatKey(root, elm)));
    var checked := Attr("checked", if FlatKey(root, elm) in sel then "checked" else "");
    if lib == DaisyUi then
      [Attr("type", "checkbox"), Attr("class", "checkbox checkbox-success"), name, checked]
    else
      [Attr("type", "checkbox"), name, checked, Attr("class", "form-check-input")]
  }

  /** A sub-option's checkbox is a checkbox; its `name` is the flat key with
      the `Ui-` prefix, from which the change handler recovers exactly that
      flat key; and its `checked` attribute says "checked" exactly when the
      flat key is selected and "" exactly when it is not. */
  lemma CheckboxAttrs(lib: string, root: string, elm: string, sel: set<string>)
    requires KnownLib(lib)
    ensures var r := InputAttrs(lib, root, elm, sel);
      && Attr("type", "checkbox") in r
      && Attr("name", NameOf(FlatKey(root, elm))) in r
      && (forall a :: a in r && a.name == "name" ==> KeyFromName(a.value) == FlatKey(root, elm))
      && (Attr("checked", "checked") in r <==> FlatKey(root, elm) in sel)
      && (Attr("checked", "") in r <==> FlatKey(root, elm) !in sel)
  {
    var key := FlatKey(root, elm);
    NameRoundTrip(key);
    var name := Attr("name", NameOf(key));
    var checked := Attr("checked", if key in sel then "checked" else "");
    var r := InputAttrs(lib, root, elm, sel);
    assert r[0] == Attr("type", "checkbox");
    assert forall a :: a in r ==> a == r[0] || a == r[1] || a == r[2] || a == r[3];
    if lib == DaisyUi {
      assert r[2] == name && r[3] == checked && r[1].name == "class";
    } else {
      assert r[1] == name && r[2] == checked && r[3].name == "class";
    }
  }

  /** A checkbox's attributes depend on the selection only through its own
      flat key. */
  lemma InputAttrsLocal(lib: string, root: string, elm: string, s1: set<string>, s2: set<string>)
    requires KnownLib(lib)
    requires FlatKey(root, elm) in s1 <==> FlatKey(root, elm) in s2
    ensures InputAttrs(lib, root, elm, s1) == InputAttrs(lib, root, elm, s2)
  {
  }

  /** The markup of one sub-option: its checkbox, with attributes `input`,
      and its label text. */
  function SubOption(lib: string, input: seq<Attr>, caption: Value): string {
    var box := Tag("input", input, "");
    if lib == DaisyUi then
      Tag("div", [Attr("class", "form-control")],
        Tag("label", [Attr("class", "cursor-pointer label")],
          box + " " + Tag("span", [Attr("class", "label-text")], Text(caption))))
    else
      Tag("div", [Attr("class", "form-check")],
        Tag("label", [Attr("class", "form-check-label")],
          box + " " + Tag("span", [], Text(caption))))
  }

  /** The checkbox attributes of every sub-option, in `Object.keys` order. */
  function Checkboxes(lib: string, root: string, sub: Value, sel: set<string>): (r: seq<seq<Attr>>)
    requires KnownLib(lib)
    ensures |r| == |SubKeys(sub)|
    ensures forall i :: 0 <= i < |r| ==> r[i] == InputAttrs(lib, root, SubKeys(sub)[i], sel)
  {
    var ks := SubKeys(sub);
    seq(|ks|, i requires 0 <= i < |ks| => InputAttrs(lib, root, ks[i], sel))
  }

  /** The label value of every sub-option, in `Object.keys` order. */
  function Captions(sub: Value): (r: seq<Value>)
    requires WellFormed(sub)
    ensures |r| == |SubKeys(sub)|
    ensures forall i :: 0 <= i < |r| ==> r[i] == SubLabel(sub, i)
  {
    seq(|SubKeys(sub)|, i requires 0 <= i < |SubKeys(sub)| => SubLabel(sub, i))
  }

  /** The markup of every sub-option. */
  function Options(lib: string, boxes: seq<seq<Attr>>, captions: seq<Value>): (r: seq<string>)
    requires |boxes| == |captions|
    ensures |r| == |boxes|
    ensures forall i :: 0 <= i < |r| ==> r[i] == SubOption(lib, boxes[i], captions[i])
  {
    seq(|boxes|, i requires 0 <= i < |boxes| => SubOption(lib, boxes[i], captions[i]))
  }

  /** `parts.join("")` */
  function Concat(parts: seq<string>): string
    decreases |parts|
  {
    if parts == [] then "" else parts[0] + Concat(parts[1..])
  }

  /** `renderSubElements(root, sub)`. `Object.keys(null)` throws, so the
      group must not be null (the component only passes truthy groups). */
  function RenderSubElements(lib: string, root: string, sub: Value, sel: set<string>): (r: Output)
    requires WellFormed(sub) && !sub.Null?
    ensures r.Html? <==> KnownLib(lib)
  {
    if KnownLib(lib) then Html(Concat(Options(lib, Checkboxes(lib, root, sub, sel), Captions(sub))))
    else Undefined
  }

  /** Each rendered checkbox carries its own `checked` attribute: it reads
      "checked" exactly when the flat key of that sub-option is selected. */
  lemma CheckboxShowsSelection(lib: string, root: string, elm: string, caption: Value, sel: set<string>)
    requires KnownLib(lib)
    ensures FlatKey(root, elm) in sel ==>
      Infix("checked=\"checked\"", SubOption(lib, InputAttrs(lib, root, elm, sel), caption))
    ensures FlatKey(root, elm) !in sel ==>
      Infix("checked=\"\"", SubOption(lib, InputAttrs(lib, root, elm, sel), caption))
  {
    var attrs := InputAttrs(lib, root, elm, sel);
    var k := if lib == DaisyUi then 3 else 2;
    assert attrs[k] == Attr("checked", if FlatKey(root, elm) in sel then "checked" else "");
    assert AttrEntry(Attr("checked", "checked")) == "checked=\"checked\"";
    assert AttrEntry(Attr("checked", "")) == "checked=\"\"";
    TagHas("input", attrs, "", k);
    BoxInSubOption(lib, attrs, caption, AttrEntry(attrs[k]));
  }

  /** What occurs in the checkbox occurs in the sub-option's markup. */
  lemma BoxInSubOption(lib: string, input: seq<Attr>, caption: Value, t: string)
    requires Infix(t, Tag("input", input, ""))
    ensures Infix(t, SubOption(lib, input, caption))
  {
    var box := Tag("input", input, "");
    var span := if lib == DaisyUi then Tag("span", [Attr("class", "label-text")], Text(caption))
      else Tag("span", [], Text(caption));
    var labelAttrs := if lib == DaisyUi then [Attr("class", "cursor-pointer label")]
      else [Attr("class", "form-check-label")];
    var divAttrs := if lib == DaisyUi then [Attr("class", "form-control")]
      else [Attr("class", "form-check")];
    InfixWithin(t, [], box, " " + span);
    assert [] + box + (" " + span) == box + " " + span;
    TagContains("label", labelAttrs, box + " " + span, t);
    TagContains("div", divAttrs, Tag("label", labelAttrs, box + " " + span), t);
  }

  /** What occurs in the content occurs in the tag. */
  lemma TagContains(name: string, attrs: seq<Attr>, content: string, t: string)
    requires Infix(t, content)
    ensures Infix(t, Tag(name, attrs, content))
  {
    InfixWithin(t, "<" + name + " " + AttrText(attrs) + ">", content, "</" + name + ">");
    assert "<" + name + " " + AttrText(attrs) + ">" + content + ("</" + name + ">")
      == Tag(name, attrs, content);
  }

  /** The sub-options of a group depend on the selection only through the
      flat keys of that group's own sub-options. */
  lemma SubElementsLocal(lib: string, root: string, sub: Value, s1: set<string>, s2: set<string>)
    requires WellFormed(sub) && !sub.Null?
    requires forall i :: 0 <= i < |SubKeys(sub)| ==>
      (FlatKey(root, SubKeys(sub)[i]) in s1 <==> FlatKey(root, SubKeys(sub)[i]) in s2)
    ensures RenderSubElements(lib, root, sub, s1) == RenderSubElements(lib, root, sub, s2)
  {
    if KnownLib(lib) {
      var b1, b2 := Checkboxes(lib, root, sub, s1), Checkboxes(lib, root, sub, s2);
      forall i | 0 <= i < |b1| ensures b1[i] == b2[i] {
        InputAttrsLocal(lib, root, SubKeys(sub)[i], s1, s2);
      }
      assert b1 == b2;
    }
  }

  /** Every part occurs in the joined string. */
  lemma {:induction false} ConcatHas(parts: seq<string>, i: nat)
    requires i < |parts|
    ensures Infix(parts[i], Concat(parts))
    decreases |parts|
  {
    var rest := Concat(parts[1..]);
    if i == 0 {
      assert IsAt(parts[0], parts[0], 0);
      InfixWithin(parts[0], "", parts[0], rest);
      assert "" + parts[0] + rest == Concat(parts);
    } else {
      ConcatHas(parts[1..], i - 1);
      assert parts[1..][i - 1] == parts[i];
      InfixWithin(parts[i], parts[0], rest, "");
      assert parts[0] + rest + "" == Concat(parts);
    }
  }

  /** Every sub-option's markup occurs in the joined markup. */
  lemma OptionsHas(lib: string, boxes: seq<seq<Attr>>, captions: seq<Value>, i: nat)
    requires |boxes| == |captions| && i < |boxes|
    ensures Infix(SubOption(lib, boxes[i], captions[i]), Concat(Options(lib, boxes, captions)))
  {
    ConcatHas(Options(lib, boxes, captions), i);
  }

  /** The markup of a group holds, for its `i`-th sub-option, the checkbox of
      that sub-option's flat key with its label, in the selection it is
      rendered with (whose `checked` attribute `CheckboxShowsSelection`
      describes). */
  lemma SubElementsHoldOptions(lib: string, root: string, sub: Value, sel: set<string>, i: nat)
    requires KnownLib(lib) && WellFormed(sub) && !sub.Null? && i < |SubKeys(sub)|
    ensures Infix(SubOption(lib, InputAttrs(lib, root, SubKeys(sub)[i], sel), SubLabel(sub, i)),
                  RenderSubElements(lib, root, sub, sel).text)
  {
    OptionsHas(lib, Checkboxes(lib, root, sub, sel), Captions(sub), i);
  }

  /** After the change event of the checkbox of `root`-`elm`, that checkbox
      renders with `checked` "checked" exactly when the event checked it,
      and every checkbox of another flat key renders as before. */
  lemma RerenderAfterChange(lib: string, sel: Selection, root: string, elm: string, checked: bool,
                            root2: string, elm2: string)
    requires KnownLib(lib) && CanToggle(sel, FlatKey(root, elm))
    ensures KeyFromName(NameOf(FlatKey(root, elm))) == FlatKey(root, elm)
    ensures var after := Toggle(sel, KeyFromName(NameOf(FlatKey(root, elm))), checked);
      && (Attr("checked", "checked") in InputAttrs(lib, root, elm, after.selected) <==> checked)
      && (FlatKey(root2, elm2) != FlatKey(root, elm) ==>
            InputAttrs(lib, root2, elm2, after.selected) == InputAttrs(lib, root2, elm2, sel.selected))
  {
    NameRoundTrip(FlatKey(root, elm));
    var after := Toggle(sel, FlatKey(root, elm), checked);
    CheckboxAttrs(lib, root, elm, after.selected);
  }

  // =====================================================================
  // renderElement (main.js:46-114)

  /** `renderElement(key)`: a falsy or absent group renders "", whatever the
      library; a truthy one renders the library's collapsible panel holding
      the title and the group's sub-options. */
  function RenderElement(lib: string, config: Value, sel: set<string>, key: string): (r: Output)
    requires config.Obj? && WellFormed(config)
    ensures Missing(config, key) ==> r == Html("")
    ensures r.Html? <==> Missing(config, key) || KnownLib(lib)
  {
    if Missing(config, key) then Html("")
    else
      var sub := config.fields[key];
      var title := " " + MakeTitleFromKey(key);
      if lib == DaisyUi then
        Html(Tag("div", [Attr("class", "collapse collapse-plus border-base-300 bg-base-200 border")],
          Tag("div", [Attr("class", "collapse-title text-xl font-medium")], title)
          + Tag("div", [Attr("class", "collapse-content")], RenderSubElements(lib, key, sub, sel).text)))
      else if lib == Bootstrap then
        Html(Tag("div", [Attr("class", "accordion-item")],
          Tag("h2", [Attr("class", "accordion-header")],
            Tag("button", [Attr("class", "accordion-button collapsed"), Attr("type", "button"),
                           Attr("data-bs-toggle", "collapse"), Attr("data-bs-target", "#" + NameOf(key)),
                           Attr("aria-expanded", "false"), Attr("aria-controls", NameOf(key))],
              title))
          + Tag("div", [Attr("id", NameOf(key)), Attr("class", "accordion-collapse collapse"),
                        Attr("data-bs-parent", "#accordionExample")],
              Tag("div", [Attr("class", "accordion-body")], RenderSubElements(lib, key, sub, sel).text))))
      else Undefined
  }

  /** A group's markup depends on the configuration only through that
      group's own entry. */
  lemma ElementLocal(lib: string, c1: Value, c2: Value, sel: set<string>, key: string)
    requires c1.Obj? && WellFormed(c1) && c2.Obj? && WellFormed(c2)
    requires key in c1.fields <==> key in c2.fields
    requires key in c1.fields ==> c1.fields[key] == c2.fields[key]
    ensures RenderElement(lib, c1, sel, key) == RenderElement(lib, c2, sel, key)
  {
  }

  // =====================================================================
  // renderUi (main.js:27-44)

  /** The markup of the groups `ks`, joined with "". */
  function Elements(lib: string, config: Value, sel: set<string>, ks: seq<string>): string
    requires config.Obj? && WellFormed(config)
    decreases |ks|
  {
    if ks == [] then "" else JoinText(RenderElement(lib, config, sel, ks[0])) + Elements(lib, config, sel, ks[1..])
  }

  /** `renderUi()`: every group of the configuration in order, inside the
      library's container; `Undefined` for a library without markup. */
  function RenderUi(lib: string, config: Value, sel: set<string>): (r: Output)
    requires config.Obj? && WellFormed(config)
    ensures r.Html? <==> KnownLib(lib)
  {
    var elements := Elements(lib, config, sel, config.keys);
    if lib == DaisyUi then
      Html(Tag("div", [Attr("class", "ui-manager card bg-base-100 w-96 shadow-xl")],
        Tag("div", [Attr("class", "card-body")], elements)))
    else if lib == Bootstrap then
      Html(Tag("div", [Attr("class", "accordion p-4 m-3"), Attr("id", "accordionExample")], elements))
    else Undefined
  }

  /** Dropping a falsy group from the key list changes nothing. */
  lemma {:induction false} ElementsDrop(lib: string, config: Value, sel: set<string>, ks: seq<string>, k: string)
    requires config.Obj? && WellFormed(config) && Missing(config, k)
    ensures WellFormed(Remove(config, k))
    ensures Elements(lib, config, sel, ks) == Elements(lib, Remove(config, k), sel, Without(ks, k))
    decreases |ks|
  {
    var c2 := Remove(config, k);
    RemoveWellFormed(config, k);
    if ks != [] {
      ElementsDrop(lib, config, sel, ks[1..], k);
      if ks[0] != k {
        ElementLocal(lib, config, c2, sel, ks[0]);
        assert ([ks[0]] + Without(ks[1..], k))[1..] == Without(ks[1..], k);
      }
    }
  }

  /** A falsy group adds nothing to the rendered markup: the configuration
      without it renders the same. */
  lemma RenderUiSkipsFalsy(lib: string, config: Value, sel: set<string>, k: string)
    requires config.Obj? && WellFormed(config) && Missing(config, k)
    ensures WellFormed(Remove(config, k))
    ensures RenderUi(lib, config, sel) == RenderUi(lib, Remove(config, k), sel)
  {
    ElementsDrop(lib, config, sel, config.keys, k);
  }
}
