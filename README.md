# json-ui `UiManager`, modelled in Dafny

`UiManager` (main.js) takes a two-level JSON configuration, with groups of
sub-options and their labels. It has two jobs:

- It renders the configuration as collapsible panels of checkboxes, themed
  for daisyUI or Bootstrap.
- It records the user's choices in two places: `selectedKeys`, a set of
  flat keys of the form `group-suboption`, and `uiState`, a nested object.
  `getStateJson` returns a copy of `uiState` from which hyphenated keys have
  been "repaired" into nested objects.

The project has five modules.

- `Json` (json.dfy): the plain data the component handles.
  - A `Value` is a string, a boolean, `null` or an object. An object keeps
    its own-key order (what `Object.keys` and `for ... in` visit) next to a
    map of its properties.
  - JavaScript truthiness, `typeof v === "object"` (true for `null`) and
    `!o[k]` are written out.
  - Property assignment (`Put`) and `delete` (`Remove`) keep key order as
    JavaScript does.
  - A size measure (`Weight`) bounds the repair pass, whose recursion is not
    structural.
- `FlatKeys` (flat_keys.dfy): `split("-")` and `join("-")` on flat keys, the
  parent key and last segment of a key, and the `Ui-` name of a checkbox. It
  proves the round trips between them.
- `UiState` (ui_state.dfy): a function for each state operation.
  - The default traversal of `setDefaultUiState`.
  - The path write of `updateUiState`.
  - The change event on the pair (state, selection).
  - The two-loop repair of `getStateJson`.
  - A strict-mode TypeError, raised when a property is assigned on a truthy
    primitive, is the `Throws` outcome.
  - Lemmas state what these functions promise: defaults mirror a two-level
    configuration, a write reaches its path and leaves every diverging path
    alone, the last event wins, and repair moves one hyphenated key.
- `Manager` (manager.dfy): the class `UiManager`.
  - Its fields are the configuration, the CSS library, `uiState` and
    `selectedKeys`.
  - Each method has the source's for-in and index loops and updates the
    fields the source updates. Each is proved against the function of
    `UiState` above. The repair helpers `RepairTraverse`, `SplitKeys` and
    `MoveDown` return the repaired value instead of changing it in place,
    and `UpdateUiState` rebuilds the levels it passed through (`Plug`)
    instead of writing through an alias.
  - The change handler is the DOM-free method `OnChange`.
  - `getStateJson`'s inner `traverse` is the module-level method
    `RepairTraverse`, which works on a copy.
- `Markup` (markup.dfy): `tag`, `makeTitleFromKey`, `renderUi`,
  `renderElement` and `renderSubElements` as functions of the library name,
  the configuration and the selection.
  - The lemmas say:
    - a falsy group renders `""`;
    - each sub-option's checkbox is named after its flat key, and its
      `checked` attribute reads "checked" exactly when that flat key is
      selected;
    - a library other than `daisyui` or `bootstrap` yields `undefined`.

## Model

| member | source | states |
|---|---|---|
| Json.Put | main.js:202 | `o[k] = x`: afterwards `k` holds `x`; every other property is present exactly when it was before and keeps its value |
| Json.PutWellFormed | main.js:220-233 | assigning well-formed data to an object keeps its key order a duplicate-free list of exactly its properties, at every depth |
| Json.Remove | main.js:255 | `delete o[k]`: afterwards `k` is absent, while every other property is present exactly when it was before and keeps its value |
| Json.RemoveWellFormed | main.js:255 | a deletion keeps an object well formed |
| Json.WeightRemove | main.js:254-255 | deleting `p-l` removes exactly its key length plus one plus its value's weight, which is what makes the repair recursion terminate |
| FlatKeys.Split | main.js:197 | `split("-")` gives at least one segment and no segment contains `-` |
| FlatKeys.JoinSplit | main.js:224-226 | joining the segments of a split with `-` gives back the string |
| FlatKeys.SplitJoin | main.js:224-226 | splitting the `-`-join of hyphen-free segments gives back the segments |
| FlatKeys.SplitMany | main.js:223 | `newKey.includes("-")` holds exactly when its split has more than one segment (so the tests at lines 223 and 248 agree) |
| FlatKeys.ParentAndLast | main.js:247-250 | a key with `-` is its parent key, `-` and a hyphen-free last segment, and the parent is shorter: only the last segment is split off |
| FlatKeys.FlatKeyParts | main.js:125-127 | a flat key `${g}-${s}` of hyphen-free parts splits into exactly `[g, s]`, with parent `g` and last segment `s` |
| FlatKeys.NameRoundTrip | main.js:177 | `split("-").slice(1).join("-")` applied to `Ui-${key}` gives `key` back, for every key, even one that contains `-` |
| FlatKeys.SubOptionNameRoundTrip | main.js:149-150 | the handler recovers `${g}-${s}` from the checkbox name `Ui-${g}-${s}`, for any `g` and `s` |
| UiState.DefaultsLoopPrefix | main.js:217-236 | a for-in loop of the default traversal that finishes without throwing has finished every earlier turn without throwing |
| UiState.DefaultsSubOption | main.js:223-231 | a leaf `s` of group `g` is assigned into `uiState[g][s]`, inside the object the group's turn created |
| UiState.DefaultsGroup | main.js:217-231 | traversing an object group of hyphen-free leaves, after `uiState[g] = {}`, leaves `uiState[g]` holding that group's first `m` leaves in order |
| UiState.DefaultsTop | main.js:216-238 | the first `n` turns of the top-level loop build `uiState` holding the first `n` groups with their defaults, without throwing |
| UiState.DefaultsMirror | main.js:215-239 | for a configuration whose group names are non-empty and hyphen-free, whose sub-option names are hyphen-free, and whose sub-option values are neither objects nor `null`, the defaults never throw and equal the configuration: same groups in the same order, `uiState[g][s] == cfg[g][s]` for object groups, `uiState[g] == cfg[g]` for other groups, except that `null` becomes `{}`. An empty group name would lift its leaves to the top (main.js:218), and an object or `null` leaf would get a flat key of its own (main.js:220) |
| UiState.SetPathWellFormed | main.js:196-208 | writing well-formed data along a path keeps the state well formed |
| UiState.SetPathReaches | main.js:196-206 | after `updateUiState(k, v)`, following the `-`-segments of `k` from the state reaches `v` |
| UiState.SetPathFrame | main.js:199-206 | after `updateUiState(k, v)`, every path that parts ways with the segments of `k` reads exactly what it read before |
| UiState.SetPathWritable | main.js:199-205 | after a write, every level on the path is an object, so the same key can be written again without a TypeError |
| UiState.PlugSnoc | main.js:198-204 | descending one more level, then re-assigning the ancestors, is the same as assigning at that level first, as the reference walk does |
| UiState.DescendStep | main.js:199-205 | one turn of the descent loop creates `{}` at an absent or falsy level; the final assignment seen from the top still equals the whole path write |
| UiState.Toggle | main.js:178-184 | a change event keeps the key writable, so events can repeat |
| UiState.LastToggleWins | main.js:178-184 | after any non-empty sequence of change events on one key, the key is in `selectedKeys` exactly when the last event checked it, and its state path holds that same boolean |
| UiState.ToggleFrame | main.js:178-184 | an event on one key leaves another key's membership and state path unchanged when the two paths part ways |
| UiState.FlatKeysDiverge | main.js:125-127 | distinct flat keys with hyphen-free groups and sub-options have state paths that part ways, so `ToggleFrame` applies to them |
| UiState.RepairKeyMoves | main.js:247-255 | for a present key `p-l`: the move throws exactly when `obj[p]` is a truthy primitive; otherwise `obj[p][l]` gets the value, the other properties of an existing `obj[p]` stay, `p-l` is deleted and every other property is left alone |
| UiState.RepairKeyWeight | main.js:246-257 | one move keeps the object well formed and never makes it heavier |
| UiState.SplitLoop | main.js:246-257 | the first repair loop over the key snapshot yields a well-formed object no heavier than the one it started from |
| UiState.Repair | main.js:245-263 | a repair that does not throw yields well-formed data no heavier than its input, and an object exactly when the input is one |
| UiState.SplitLoopPrefix | main.js:246-257 | a first repair loop that finishes has finished every earlier turn |
| UiState.ChildrenLoopPrefix | main.js:258-262 | a second repair loop that finishes has finished every earlier turn |
| UiState.SplitLoopClean | main.js:246-257 | the first loop leaves an object without hyphenated keys unchanged |
| UiState.SplitLoopOne | main.js:246-257 | when every key of the snapshot but `k` is hyphen-free, the first loop's result is that of the single move of `k` if `k` is in the snapshot, and the object unchanged otherwise |
| UiState.RepairStrayKey | main.js:245-263 | in a state whose only hyphenated key is a stray `p-l` of hyphen-free parts, with clean values and `obj[p]` absent, falsy or an object, `getStateJson` moves the value to `[p][l]`, into `{}` or next to the siblings already under `p`, deletes `p-l`, and leaves every other property alone |
| UiState.RepairLoneStray | main.js:245-263 | `{"p-l": v}` repairs to `{p: {l: v}}` |
| UiState.ChildrenLoopClean | main.js:258-262 | the second loop leaves an object whose values need no repair unchanged |
| UiState.RepairClean | main.js:241-268 | when no key at any level contains `-`, the repaired copy equals the state |
| Manager.UiManager.constructor | main.js:1-9 | the manager keeps its configuration and library, starts with no selection, and its state is the default state of the configuration |
| Manager.UiManager.SetDefaultUiState | main.js:215-239 | the state becomes the default traversal of the configuration run on it, and stays well formed |
| Manager.UiManager.Traverse | main.js:216-237 | the for-in loop over `obj` below `currentKey` leaves the state equal to the traversal function, by the loop invariant that the first `i` turns are done |
| Manager.UiManager.Visit | main.js:218-235 | one turn: an object or `null` value gets `{}` under its flat key and is traversed; any other value is filed |
| Manager.UiManager.FileLeaf | main.js:223-234 | a non-object value goes under its flat key, or, where that key has `-`, into the object under its parent key, which is created when absent or falsy |
| Manager.UiManager.UpdateUiState | main.js:196-209 | the walk and the final assignment leave the state equal to the path write of `value` along the segments of `key`, and well formed |
| Manager.UiManager.GetUiState | main.js:211-213 | returns the state itself |
| Manager.UiManager.GetStateJson | main.js:241-268 | returns the repair of a copy of the state; the state is not modified |
| Manager.UiManager.OnChange | main.js:176-185 | the handler recovers the flat key from the name, then adds it to or removes it from `selectedKeys` and writes the same boolean at its path, exactly as one `Toggle` of the pair (state, selection) |
| Manager.RepairTraverse | main.js:245-263 | the in-place repair of `v` returns exactly `Repair(v)` |
| Manager.RepairEntry | main.js:258-262 | one turn of the second loop repairs an object-typed property in place and leaves any other property alone |
| Manager.SplitKeys | main.js:246-257 | the first for-in loop over the key snapshot gives exactly the first repair loop's result |
| Manager.MoveDown | main.js:247-256 | one turn of the first loop gives exactly `RepairKey`: skips a deleted key, otherwise moves `p-l` to `obj[p][l]` and deletes it |
| Markup.AttrText | main.js:12-14 | the joined attribute text is empty exactly when there are no attributes |
| Markup.TagHas | main.js:11-16 | every attribute `key="value"` occurs in the tag |
| Markup.TagContains | main.js:15 | whatever occurs in the content occurs in the tag |
| Markup.TitleStartsUpper | main.js:18-20 | a title never starts with a lower-case ASCII letter, keeps the key's length and every character after the first, and a key that does not start with a lower-case letter is its own title |
| Markup.SubKeysDistinct | main.js:123 | `Object.keys` of a group lists no key twice, for an object group and for the indices of a string group |
| Markup.NatToStringRoundTrip | main.js:123 | the index keys `Object.keys` gives for a string group read back as their indices |
| Markup.CheckboxAttrs | main.js:118-130 | a sub-option's checkbox has type checkbox and is named `Ui-${g}-${s}`; the handler recovers `${g}-${s}` from any of its names; `checked` is "checked" exactly when `${g}-${s}` is selected and "" exactly when it is not |
| Markup.InputAttrsLocal | main.js:147-154 | a checkbox's attributes depend on the selection only through its own flat key |
| Markup.ConcatHas | main.js:143 | each part occurs in the `join("")` of the parts |
| Markup.OptionsHas | main.js:167 | every sub-option's markup occurs in the joined markup of the group |
| Markup.RenderSubElements | main.js:116-169 | markup exactly for `daisyui` and `bootstrap`, `undefined` for any other library |
| Markup.SubElementsHoldOptions | main.js:123-167 | the group's markup holds, for each sub-option, the checkbox of that sub-option's flat key with its label |
| Markup.BoxInSubOption | main.js:131-141 | whatever occurs in a checkbox tag occurs in its sub-option's markup |
| Markup.CheckboxShowsSelection | main.js:126-141 | the rendered sub-option contains `checked="checked"` when its flat key is selected and `checked=""` when it is not |
| Markup.SubElementsLocal | main.js:144-168 | a group's sub-option markup depends on the selection only through the flat keys of its own sub-options |
| Markup.RerenderAfterChange | main.js:176-184 | after the change event of a checkbox, that checkbox's `checked` is "checked" exactly when the event checked it, and every other flat key's checkbox is as before |
| Markup.RenderElement | main.js:46-114 | a falsy or absent group renders `""` whatever the library; otherwise `undefined` exactly when the library is neither `daisyui` nor `bootstrap` |
| Markup.ElementLocal | main.js:46-114 | a group's markup depends on the configuration only through that group's own entry |
| Markup.RenderUi | main.js:27-44 | markup exactly for `daisyui` and `bootstrap`, `undefined` for any other library |
| Markup.ElementsDrop | main.js:28-30 | joining the groups' markup with a falsy group is the same as joining it without that group |
| Markup.RenderUiSkipsFalsy | main.js:27-49 | a falsy group adds nothing: the configuration without it renders the same markup |

## Left out

- The DOM is not part of this model:
  - `render()` and its `innerHTML` assignment (main.js:22-25);
  - the `querySelectorAll`/`addEventListener` wiring (main.js:171-176);
  - the `classList.toggle` click handler of the accordion titles (main.js:187-193);
  - `rootElement`, which is kept only for them.

  The change handler's body is the method `OnChange`, given the checkbox's name and its new checked state.
- `JSON.parse(JSON.stringify(...))` (main.js:208, main.js:243) is the identity on the plain data the state holds. The copy at line 243 shows up as `GetStateJson` not modifying the state.
- Numbers and arrays are not values of this model. Neither are `undefined` properties, inherited or special property names (`__proto__`, `toString`), or the integer-like keys that JavaScript lists before other keys. The keys of an object are visited in insertion order.
- MakeTitleFromKey: upper-cases ASCII letters only. Unicode case mapping in `toUpperCase` is left out.
- The strict-mode TypeError is excluded:
  - by the `Defaults(...).Ok?` precondition of the constructor and `SetDefaultUiState`;
  - by `Writable` for `UpdateUiState` and `OnChange`;
  - by `Repair(...).Ok?` for `GetStateJson`.

  The `UiState` functions do model when it happens, as `Throws`.
- `Object.keys(null)` throws in `renderSubElements`. Its precondition excludes `null`, which `renderElement` never passes.
- The configuration given to the constructor must be an object. A string configuration would be traversed by index, which is not modelled.
- The render functions take the CSS library, the configuration and `selectedKeys` as parameters instead of reading the instance's fields. They are not methods of `Manager.UiManager`.
- `renderElement` builds an `inputAttributes` object that nothing uses (main.js:51-60); the model leaves it out. The `class` string shown at main.js:56-59 therefore appears nowhere.
- The reference walk of `updateUiState` (`currentObj` aliasing a level inside `uiState`) is modelled on values. The method keeps the ancestors it passed and re-assigns them from the bottom up, which is what the in-place write amounts to because `uiState` is always a tree (main.js:208 re-copies it).
- CheckboxAttrs: states the value of the `checked` attribute. How a browser reads it is not modelled: HTML treats any present `checked` attribute, `checked=""` included, as checked.
- The repair does not remove every hyphen. Keys created during the first loop may not be visited, so `"a-b-c"` becomes `obj["a-b"]["c"]`, and no lemma claims that no hyphenated key remains.
- GetUiState: returns the state as a value. In main.js:211-213 it returns the live object, so a host that mutates the result changes the manager's state until the next `updateUiState` replaces it with a copy (main.js:208). That aliasing is not modelled.
- SubKeys: Dafny strings are sequences of Unicode scalar values, while JavaScript indexes a string by UTF-16 code units. For a string group with a character outside the Basic Multilingual Plane, `Object.keys` gives two indices for that character and the model gives one.
- The verbatim CSS class strings are copied from the source and treated as opaque constants. No lemma examines them.

## Behaviour of main.js worth knowing

- The repair makes one for-in pass per level, over the keys present when the pass starts (main.js:246-257). Keys created during the pass are not visited, so `a-b-c` becomes `obj["a-b"]["c"]`. The comment at main.js:242 gives the intended case, a single `-` (`netbanking-AXIS` to `netbanking[AXIS]`); a key with more than one `-` keeps the rest of its hyphens. `RepairKeyMoves`, `SplitLoopOne` and `Repair` state what the single pass does.
- An unknown library name falls off the end of the if-chains, so `renderUi` and `renderSubElements` return `undefined` (main.js:31-43, main.js:117-168). `Output.Undefined` is that result.
- The change handler splits the checkbox name on `-`, drops the first segment and joins the rest (main.js:177). `NameRoundTrip` proves that this recovers the key for every name of the form `Ui-${key}`.
