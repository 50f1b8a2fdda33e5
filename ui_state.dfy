/** The selection state of the component, as functions: how the default state
    is derived from the configuration (setDefaultUiState), how one flat key is
    written into it (updateUiState), how a change event updates it, and how
    getStateJson repairs a copy of it. The methods of `Manager.UiManager` are
    proved against these functions. */
module UiState {
  import opened Json
  import opened FlatKeys

  // =====================================================================
  // Paths

  /** Following the segments `path` down from `v`: `v[p0][p1]...`, or None
      where a property is absent or a primitive is reached. */
  function GetPath(v: Value, path: seq<string>): Option
    decreases |path|
  {
    if path == [] then Some(v)
    else if v.Obj? && path[0] in v.fields then GetPath(v.fields[path[0]], path[1..])
    else None
  }

  datatype Option = None | Some(value: Value)

  /** Two paths that part ways at some level. */
  predicate Diverge(q: seq<string>, p: seq<string>) {
    exists i :: 0 <= i < |q| && i < |p| && q[i] != p[i]
  }

  // =====================================================================
  // setDefaultUiState (main.js:215-239)

  /** The flat key of `key` below `currentKey`; an empty (falsy) `currentKey`
      adds no prefix. */
  function ChildKey(currentKey: string, key: string): string {
    if currentKey != "" then currentKey + [Sep] + key else key
  }

  /** One turn of the for-in body of the default traversal, for property `key`
      with value `v` of the object below `currentKey`. An object (or null)
      value gets a fresh `{}` under its flat key and is traversed; any other
      value is filed one level up, under its parent flat key. */
  function DefaultsVisit(st: Value, currentKey: string, key: string, v: Value): (r: Result<Value>)
    requires st.Obj? && WellFormed(v)
    ensures r.Ok? ==> r.value.Obj?
    decreases v, 2
  {
    var newKey := ChildKey(currentKey, key);
    if IsObjectType(v) then
      DefaultsTraverse(Put(st, newKey, EmptyObj), v, newKey)
    else FileValue(st, newKey, v)
  }

  /** Filing a non-object value under flat key `newKey`: a key with a
      separator puts it into the object under its parent key (created when
      absent or falsy; a truthy primitive there makes the assignment throw),
      any other key takes it directly. */
  function FileValue(st: Value, newKey: string, v: Value): (r: Result<Value>)
    requires st.Obj?
    ensures r.Ok? ==> r.value.Obj?
  {
    if Sep in newKey then
      var parentKey := ParentKey(newKey);
      var lastPart := LastSegment(newKey);
      var st1 := if Missing(st, parentKey) then Put(st, parentKey, EmptyObj) else st;
      var parent := st1.fields[parentKey];
      if parent.Obj? then Ok(Put(st1, parentKey, Put(parent, lastPart, v)))
      else Throws
    else
      Ok(Put(st, newKey, v))
  }

  /** `traverse(obj, currentKey)` run on state `st`; for-in over null visits
      nothing. */
  function DefaultsTraverse(st: Value, obj: Value, currentKey: string): (r: Result<Value>)
    requires st.Obj? && WellFormed(obj)
    ensures r.Ok? ==> r.value.Obj?
    decreases obj, 1
  {
    if obj.Obj? then DefaultsLoop(st, obj, currentKey, |obj.keys|) else Ok(st)
  }

  /** The state after the first `n` turns of the for-in loop over `obj`. */
  function DefaultsLoop(st: Value, obj: Value, currentKey: string, n: nat): (r: Result<Value>)
    requires st.Obj? && obj.Obj? && WellFormed(obj) && n <= |obj.keys|
    ensures r.Ok? ==> r.value.Obj?
    decreases obj, 0, n
  {
    if n == 0 then Ok(st)
    else
      match DefaultsLoop(st, obj, currentKey, n - 1)
      case Throws => Throws
      case Ok(st') =>
        var key := obj.keys[n - 1];
        DefaultsVisit(st', currentKey, key, obj.fields[key])
  }

  /** The default state derived from a configuration, starting from `{}`. */
  function Defaults(config: Value): Result<Value>
    requires WellFormed(config)
  {
    DefaultsTraverse(EmptyObj, config, "")
  }

  /** A loop that completes has completed every earlier turn. */
  lemma {:induction false} DefaultsLoopPrefix(st: Value, obj: Value, currentKey: string, m: nat, n: nat)
    requires st.Obj? && obj.Obj? && WellFormed(obj) && m <= n <= |obj.keys|
    requires DefaultsLoop(st, obj, currentKey, n).Ok?
    ensures DefaultsLoop(st, obj, currentKey, m).Ok?
    decreases n
  {
    if m < n {
      DefaultsLoopPrefix(st, obj, currentKey, m, n - 1);
    }
  }

  lemma DefaultsLoopStep(st: Value, obj: Value, currentKey: string, n: nat, prev: Value)
    requires st.Obj? && obj.Obj? && WellFormed(obj) && 0 < n <= |obj.keys|
    requires DefaultsLoop(st, obj, currentKey, n - 1) == Ok(prev)
    ensures prev.Obj? && WellFormed(obj.fields[obj.keys[n - 1]])
    ensures DefaultsLoop(st, obj, currentKey, n)
      == DefaultsVisit(prev, currentKey, obj.keys[n - 1], obj.fields[obj.keys[n - 1]])
  {
  }

  /** The configuration shape the component documents: non-empty,
      hyphen-free group names; each group an object of hyphen-free
      sub-option names with string or boolean labels, or a single value. */
  predicate TwoLevel(config: Value) {
    && config.Obj? && WellFormed(config)
    && forall g :: g in config.fields ==> g != "" && NoSep(g) && GroupShaped(config.fields[g])
  }

  predicate GroupShaped(v: Value) {
    v.Obj? ==> forall s :: s in v.fields ==> NoSep(s) && !IsObjectType(v.fields[s])
  }

  /** What the default state of a group is: the group itself, except that a
      null group becomes `{}` (typeof null is "object"). */
  function GroupDefault(v: Value): Value {
    if v.Null? then EmptyObj else v
  }

  /** The configuration with every group replaced by its default. */
  function Mirror(config: Value): Value
    requires config.Obj?
  {
    Obj(config.keys, map g | g in config.fields :: GroupDefault(config.fields[g]))
  }

  /** The first `m` sub-options of group `v`, assigned in order. */
  function SubPrefix(v: Value, m: nat): (r: Value)
    requires v.Obj? && KeysPresent(v) && m <= |v.keys|
    ensures r.Obj?
    decreases m
  {
    if m == 0 then EmptyObj else Put(SubPrefix(v, m - 1), v.keys[m - 1], v.fields[v.keys[m - 1]])
  }

  /** The first `n` groups of the configuration with their defaults, assigned
      in order. */
  function MirrorPrefix(config: Value, n: nat): (r: Value)
    requires config.Obj? && KeysPresent(config) && n <= |config.keys|
    ensures r.Obj?
    decreases n
  {
    if n == 0 then EmptyObj
    else
      var g := config.keys[n - 1];
      Put(MirrorPrefix(config, n - 1), g, GroupDefault(config.fields[g]))
  }

  /** The key at position `m` is not among the first `m` keys. */
  lemma DistinctPrefix(ks: seq<string>, m: nat)
    requires Distinct(ks) && m < |ks|
    ensures ks[m] !in ks[..m]
    ensures ks[..m + 1] == ks[..m] + [ks[m]]
  {
    var pre := ks[..m];
    forall i | 0 <= i < |pre| ensures pre[i] != ks[m] {
      assert pre[i] == ks[i];
    }
  }

  /** None of the first `n` keys occurs before its own position. */
  predicate Fresh(ks: seq<string>, n: nat)
    requires n <= |ks|
    decreases n
  {
    n == 0 || (ks[n - 1] !in ks[..n - 1] && Fresh(ks, n - 1))
  }

  lemma {:induction false} DistinctFresh(ks: seq<string>, n: nat)
    requires Distinct(ks) && n <= |ks|
    ensures Fresh(ks, n)
    decreases n
  {
    if n > 0 {
      DistinctPrefix(ks, n - 1);
      DistinctFresh(ks, n - 1);
    }
  }

  /** Property `t` of the first `m` sub-options: present exactly when `t` is
      among the first `m` keys, with its value in `v`. */
  lemma {:induction false} SubPrefixAt(v: Value, m: nat, t: string)
    requires v.Obj? && KeysPresent(v) && m <= |v.keys|
    ensures t in SubPrefix(v, m).fields <==> t in v.keys[..m]
    ensures t in SubPrefix(v, m).fields ==> SubPrefix(v, m).fields[t] == v.fields[t]
    decreases m
  {
    if m > 0 {
      SubPrefixAt(v, m - 1, t);
      assert v.keys[..m] == v.keys[..m - 1] + [v.keys[m - 1]];
    }
  }

  /** The first `m` sub-options keep their order. */
  lemma {:induction false} SubPrefixKeys(v: Value, m: nat)
    requires v.Obj? && KeysPresent(v) && m <= |v.keys|
    requires Fresh(v.keys, m)
    ensures SubPrefix(v, m).keys == v.keys[..m]
    decreases m
  {
    if m > 0 {
      SubPrefixKeys(v, m - 1);
      var a, k := SubPrefix(v, m - 1), v.keys[m - 1];
      SubPrefixAt(v, m - 1, k);
      assert k !in a.fields;
      assert v.keys[..m] == v.keys[..m - 1] + [k];
    }
  }

  /** Assigning all properties of a shaped object in order rebuilds it. */
  lemma SubPrefixAll(v: Value)
    requires v.Obj? && Shaped(v)
    ensures SubPrefix(v, |v.keys|) == v
  {
    DistinctFresh(v.keys, |v.keys|);
    SubPrefixKeys(v, |v.keys|);
    assert v.keys[..|v.keys|] == v.keys;
    SubPrefixFields(v);
  }

  lemma SubPrefixFields(v: Value)
    requires v.Obj? && Shaped(v)
    ensures SubPrefix(v, |v.keys|).fields == v.fields
  {
    var r := SubPrefix(v, |v.keys|);
    assert v.keys[..|v.keys|] == v.keys;
    forall t ensures (t in r.fields <==> t in v.fields) && (t in r.fields ==> r.fields[t] == v.fields[t]) {
      SubPrefixAt(v, |v.keys|, t);
    }
  }

  lemma {:induction false} MirrorPrefixAt(config: Value, n: nat, g: string)
    requires config.Obj? && KeysPresent(config) && n <= |config.keys|
    ensures g in MirrorPrefix(config, n).fields <==> g in config.keys[..n]
    ensures g in MirrorPrefix(config, n).fields ==>
      MirrorPrefix(config, n).fields[g] == GroupDefault(config.fields[g])
    decreases n
  {
    if n > 0 {
      MirrorPrefixAt(config, n - 1, g);
      assert config.keys[..n] == config.keys[..n - 1] + [config.keys[n - 1]];
    }
  }

  lemma {:induction false} MirrorPrefixKeys(config: Value, n: nat)
    requires config.Obj? && KeysPresent(config) && n <= |config.keys|
    requires Fresh(config.keys, n)
    ensures MirrorPrefix(config, n).keys == config.keys[..n]
    decreases n
  {
    if n > 0 {
      MirrorPrefixKeys(config, n - 1);
      var a, k := MirrorPrefix(config, n - 1), config.keys[n - 1];
      MirrorPrefixAt(config, n - 1, k);
      assert k !in a.fields;
      assert config.keys[..n] == config.keys[..n - 1] + [k];
    }
  }

  lemma MirrorPrefixAll(config: Value)
    requires config.Obj? && Shaped(config)
    ensures MirrorPrefix(config, |config.keys|) == Mirror(config)
  {
    DistinctFresh(config.keys, |config.keys|);
    MirrorPrefixKeys(config, |config.keys|);
    assert config.keys[..|config.keys|] == config.keys;
    MirrorPrefixFields(config);
  }

  lemma MirrorPrefixFields(config: Value)
    requires config.Obj? && Shaped(config)
    ensures MirrorPrefix(config, |config.keys|).fields == Mirror(config).fields
  {
    var r := MirrorPrefix(config, |config.keys|);
    assert config.keys[..|config.keys|] == config.keys;
    forall g ensures (g in r.fields <==> g in config.fields)
      && (g in r.fields ==> r.fields[g] == GroupDefault(config.fields[g]))
    {
      MirrorPrefixAt(config, |config.keys|, g);
    }
  }

  /** One sub-option of group `g` is filed under `g`. */
  lemma DefaultsSubOption(prev: Value, g: string, s: string, leaf: Value, sub: Value)
    requires prev.Obj? && g != "" && NoSep(g) && NoSep(s)
    requires WellFormed(leaf) && !IsObjectType(leaf)
    requires g in prev.fields && prev.fields[g] == sub && sub.Obj?
    ensures DefaultsVisit(prev, g, s, leaf) == Ok(Put(prev, g, Put(sub, s, leaf)))
  {
    FlatKeyParts(g, s);
    assert ChildKey(g, s) == FlatKey(g, s);
  }

  /** Filing the first `m` sub-options of an object group `g` builds the
      group's first `m` entries under `g` and touches nothing else. */
  lemma {:induction false} DefaultsGroup(st: Value, g: string, v: Value, m: nat)
    requires st.Obj? && g != "" && NoSep(g)
    requires v.Obj? && WellFormed(v) && GroupShaped(v) && m <= |v.keys|
    ensures DefaultsLoop(Put(st, g, EmptyObj), v, g, m) == Ok(Put(st, g, SubPrefix(v, m)))
    decreases m, 1
  {
    if m > 0 {
      DefaultsGroupStep(st, g, v, m);
    }
  }

  /** The turn for sub-option `m - 1` of group `g` adds it to the group. */
  lemma DefaultsGroupStep(st: Value, g: string, v: Value, m: nat)
    requires st.Obj? && g != "" && NoSep(g)
    requires v.Obj? && WellFormed(v) && GroupShaped(v) && 0 < m <= |v.keys|
    ensures DefaultsLoop(Put(st, g, EmptyObj), v, g, m) == Ok(Put(st, g, SubPrefix(v, m)))
    decreases m, 0
  {
    DefaultsGroup(st, g, v, m - 1);
    var sub := SubPrefix(v, m - 1);
    var prev := Put(st, g, sub);
    var s := v.keys[m - 1];
    var leaf := v.fields[s];
    DefaultsLoopStep(Put(st, g, EmptyObj), v, g, m, prev);
    DefaultsSubOption(prev, g, s, leaf, sub);
    PutPut(st, g, sub, Put(sub, s, leaf));
  }

  /** The first `n` turns of the top-level loop build the first `n` groups. */
  lemma {:induction false} DefaultsTop(config: Value, n: nat)
    requires TwoLevel(config) && n <= |config.keys|
    ensures DefaultsLoop(EmptyObj, config, "", n).Ok?
    ensures DefaultsLoop(EmptyObj, config, "", n).value == MirrorPrefix(config, n)
    decreases n, 1
  {
    if n > 0 {
      DefaultsTopStep(config, n);
    }
  }

  /** Turn `n` of the top-level loop adds group `n - 1` with its default. */
  lemma DefaultsTopStep(config: Value, n: nat)
    requires TwoLevel(config) && 0 < n <= |config.keys|
    ensures DefaultsLoop(EmptyObj, config, "", n).Ok?
    ensures DefaultsLoop(EmptyObj, config, "", n).value == MirrorPrefix(config, n)
    decreases n, 0
  {
    assert WellFormed(EmptyObj);
    DefaultsTop(config, n - 1);
    var prev := MirrorPrefix(config, n - 1);
    var g := config.keys[n - 1];
    var v := config.fields[g];
    DefaultsLoopStep(EmptyObj, config, "", n, prev);
    assert ChildKey("", g) == g;
    if v.Obj? {
      DefaultsGroup(prev, g, v, |v.keys|);
      SubPrefixAll(v);
    }
  }

  /** Defaults mirror the configuration: for a configuration of the
      documented two-level shape, the traversal never throws and the default
      state has the same groups in the same order, each object group holding
      exactly its sub-options and labels (`uiState[g][s] == cfg[g][s]`), each
      other group its own value, except that null becomes `{}`. */
  lemma DefaultsMirror(config: Value)
    requires TwoLevel(config)
    ensures Defaults(config) == Ok(Mirror(config))
  {
    DefaultsTop(config, |config.keys|);
    MirrorPrefixAll(config);
  }

  // =====================================================================
  // updateUiState (main.js:196-209)

  /** No existing level on the way to the last segment is a truthy primitive
      (where strict mode would throw): each is absent, falsy or an object. */
  predicate Writable(o: Value, parts: seq<string>)
    requires o.Obj?
    decreases |parts|
  {
    |parts| <= 1 || Missing(o, parts[0])
    || (o.fields[parts[0]].Obj? && Writable(o.fields[parts[0]], parts[1..]))
  }

  /** `o` after `updateUiState` assigned `v` along `parts`: each absent or
      falsy level on the way is replaced by `{}`. */
  function SetPath(o: Value, parts: seq<string>, v: Value): (r: Value)
    requires o.Obj? && |parts| >= 1 && Writable(o, parts)
    ensures r.Obj?
    decreases |parts|
  {
    if |parts| == 1 then Put(o, parts[0], v)
    else
      var child := if Missing(o, parts[0]) then EmptyObj else o.fields[parts[0]];
      Put(o, parts[0], SetPath(child, parts[1..], v))
  }

  /** Writing well-formed data keeps the state well formed. */
  lemma {:induction false} SetPathWellFormed(o: Value, parts: seq<string>, v: Value)
    requires o.Obj? && |parts| >= 1 && Writable(o, parts) && WellFormed(o) && WellFormed(v)
    ensures WellFormed(SetPath(o, parts, v))
    decreases |parts|
  {
    if |parts| == 1 {
      PutWellFormed(o, parts[0], v);
    } else {
      var child := if Missing(o, parts[0]) then EmptyObj else o.fields[parts[0]];
      assert WellFormed(EmptyObj);
      SetPathWellFormed(child, parts[1..], v);
      PutWellFormed(o, parts[0], SetPath(child, parts[1..], v));
    }
  }

  /** `updateUiState` sets the path: following the segments from the new
      state reaches the value written. */
  lemma {:induction false} SetPathReaches(o: Value, parts: seq<string>, v: Value)
    requires o.Obj? && |parts| >= 1 && Writable(o, parts)
    ensures GetPath(SetPath(o, parts, v), parts) == Some(v)
    decreases |parts|
  {
    if |parts| > 1 {
      var child := if Missing(o, parts[0]) then EmptyObj else o.fields[parts[0]];
      SetPathReaches(child, parts[1..], v);
    }
  }

  /** `updateUiState` changes nothing else: every path that parts ways with
      the written one reads the same before and after. */
  lemma {:induction false} SetPathFrame(o: Value, parts: seq<string>, v: Value, q: seq<string>)
    requires o.Obj? && |parts| >= 1 && Writable(o, parts)
    requires Diverge(q, parts)
    ensures GetPath(SetPath(o, parts, v), q) == GetPath(o, q)
    decreases |parts|
  {
    var i :| 0 <= i < |q| && i < |parts| && q[i] != parts[i];
    if q[0] != parts[0] {
    } else {
      assert i >= 1 && |parts| > 1;
      var child := if Missing(o, parts[0]) then EmptyObj else o.fields[parts[0]];
      assert q[1..][i - 1] != parts[1..][i - 1];
      SetPathFrame(child, parts[1..], v, q[1..]);
      assert q[1..] != [];
    }
  }

  /** After a write, the same path can be written again: every level on it is
      now an object. */
  lemma {:induction false} SetPathWritable(o: Value, parts: seq<string>, v: Value)
    requires o.Obj? && |parts| >= 1 && Writable(o, parts)
    ensures Writable(SetPath(o, parts, v), parts)
    decreases |parts|
  {
    if |parts| > 1 {
      var child := if Missing(o, parts[0]) then EmptyObj else o.fields[parts[0]];
      SetPathWritable(child, parts[1..], v);
    }
  }

  /** The ancestors `path` of a level, each re-assigned along `ps` with the
      level below, down to `inner`: how the nested assignment of
      updateUiState is seen from the top. */
  function Plug(path: seq<Value>, ps: seq<string>, inner: Value): Value
    requires |path| == |ps|
    requires forall i :: 0 <= i < |path| ==> path[i].Obj?
    decreases |path|
  {
    if path == [] then inner else Put(path[0], ps[0], Plug(path[1..], ps[1..], inner))
  }

  lemma {:induction false} PlugSnoc(path: seq<Value>, ps: seq<string>, c: Value, p: string, inner: Value)
    requires |path| == |ps| && c.Obj?
    requires forall i :: 0 <= i < |path| ==> path[i].Obj?
    ensures Plug(path + [c], ps + [p], inner) == Plug(path, ps, Put(c, p, inner))
    decreases |path|
  {
    if path == [] {
      assert ([c] + [])[1..] == [] && ([p] + [])[1..] == [];
    } else {
      assert (path + [c])[1..] == path[1..] + [c];
      assert (ps + [p])[1..] == ps[1..] + [p];
      PlugSnoc(path[1..], ps[1..], c, p, inner);
    }
  }

  /** One step of the walk down: after `currentObj[part]` is made an object
      when absent or falsy, the rest of the path is still writable below it,
      and plugging the level into its ancestors describes the same write. */
  lemma DescendStep(path: seq<Value>, walked: seq<string>, parts: seq<string>, i: nat, c: Value, v: Value)
    requires |path| == |walked| && i < |parts| - 1
    requires forall j :: 0 <= j < |path| ==> path[j].Obj?
    requires c.Obj? && Writable(c, parts[i..])
    ensures var c' := if Missing(c, parts[i]) then Put(c, parts[i], EmptyObj) else c;
      && c'.Obj? && c'.fields[parts[i]].Obj? && Writable(c'.fields[parts[i]], parts[i + 1..])
      && Plug(path + [c'], walked + [parts[i]], SetPath(c'.fields[parts[i]], parts[i + 1..], v))
        == Plug(path, walked, SetPath(c, parts[i..], v))
  {
    var part := parts[i];
    assert parts[i..] == [part] + parts[i + 1..];
    WalkLevel(c, part, parts[i + 1..], v);
    var c' := if Missing(c, part) then Put(c, part, EmptyObj) else c;
    PlugSnoc(path, walked, c', part, SetPath(c'.fields[part], parts[i + 1..], v));
  }

  /** One level of the walk: `currentObj[part]` is made `{}` when absent or
      falsy, and the write below it, assigned back, is the write from here. */
  lemma WalkLevel(c: Value, part: string, rest: seq<string>, v: Value)
    requires c.Obj? && |rest| >= 1 && Writable(c, [part] + rest)
    ensures var c' := if Missing(c, part) then Put(c, part, EmptyObj) else c;
      && c'.Obj? && c'.fields[part].Obj? && Writable(c'.fields[part], rest)
      && Put(c', part, SetPath(c'.fields[part], rest, v)) == SetPath(c, [part] + rest, v)
  {
    assert ([part] + rest)[0] == part && ([part] + rest)[1..] == rest;
    if Missing(c, part) {
      PutPut(c, part, EmptyObj, SetPath(EmptyObj, rest, v));
    }
  }

  // =====================================================================
  // The change handler (main.js:176-185) without the DOM

  /** The two pieces of state an event touches. */
  datatype Selection = Selection(state: Value, selected: set<string>)

  predicate CanToggle(sel: Selection, key: string) {
    sel.state.Obj? && Writable(sel.state, Split(key))
  }

  /** A change event on the checkbox of flat key `key`: a checked box adds the
      key to the selected set and writes `true`, an unchecked one removes it
      and writes `false`. */
  function Toggle(sel: Selection, key: string, checked: bool): (r: Selection)
    requires CanToggle(sel, key)
    ensures CanToggle(r, key)
  {
    SetPathWritable(sel.state, Split(key), Bool(checked));
    Selection(
      SetPath(sel.state, Split(key), Bool(checked)),
      if checked then sel.selected + {key} else sel.selected - {key})
  }

  /** A sequence of change events on one key, first event first. */
  function ToggleAll(sel: Selection, key: string, events: seq<bool>): (r: Selection)
    requires CanToggle(sel, key)
    ensures CanToggle(r, key)
    decreases |events|
  {
    if events == [] then sel
    else Toggle(ToggleAll(sel, key, events[..|events| - 1]), key, events[|events| - 1])
  }

  /** Last event wins: after any non-empty sequence of events on one key, the
      key is selected exactly when the last event checked it, and its state
      path holds that same boolean. */
  lemma LastToggleWins(sel: Selection, key: string, events: seq<bool>)
    requires CanToggle(sel, key) && |events| > 0
    ensures var r := ToggleAll(sel, key, events);
      && (key in r.selected <==> events[|events| - 1])
      && GetPath(r.state, Split(key)) == Some(Bool(events[|events| - 1]))
  {
    var before := ToggleAll(sel, key, events[..|events| - 1]);
    SetPathReaches(before.state, Split(key), Bool(events[|events| - 1]));
  }

  /** An event on one key leaves another key's selection and state alone
      when their paths part ways (two distinct two-segment keys do). */
  lemma ToggleFrame(sel: Selection, key: string, checked: bool, other: string)
    requires CanToggle(sel, key) && Diverge(Split(other), Split(key))
    ensures var r := Toggle(sel, key, checked);
      && (other in r.selected <==> other in sel.selected)
      && GetPath(r.state, Split(other)) == GetPath(sel.state, Split(other))
  {
    SetPathFrame(sel.state, Split(key), Bool(checked), Split(other));
    var i :| 0 <= i < |Split(other)| && i < |Split(key)| && Split(other)[i] != Split(key)[i];
  }

  /** Distinct flat keys of two hyphen-free segments part ways. */
  lemma FlatKeysDiverge(g1: string, s1: string, g2: string, s2: string)
    requires NoSep(g1) && NoSep(s1) && NoSep(g2) && NoSep(s2)
    requires FlatKey(g1, s1) != FlatKey(g2, s2)
    ensures Diverge(Split(FlatKey(g1, s1)), Split(FlatKey(g2, s2)))
  {
    FlatKeyParts(g1, s1);
    FlatKeyParts(g2, s2);
    if g1 != g2 {
      assert Split(FlatKey(g1, s1))[0] != Split(FlatKey(g2, s2))[0];
    } else {
      assert Split(FlatKey(g1, s1))[1] != Split(FlatKey(g2, s2))[1];
    }
  }

  // =====================================================================
  // getStateJson (main.js:241-268)

  /** One turn of the first for-in loop of the repair traversal, for `key`:
      a key of several segments moves its value to `obj[parent][last]`,
      creating `obj[parent]` when absent or falsy, and is deleted. A key
      deleted before its turn is skipped, as for-in does. */
  function RepairKey(obj: Value, key: string): (r: Result<Value>)
    requires obj.Obj?
    ensures r.Ok? ==> r.value.Obj?
  {
    if key !in obj.fields then Ok(obj)
    else if |Split(key)| > 1 then
      var lastPart := LastSegment(key);
      var newKey := ParentKey(key);
      var o1 := if Missing(obj, newKey) then Put(obj, newKey, EmptyObj) else obj;
      var target := o1.fields[newKey];
      if target.Obj? then Ok(Remove(Put(o1, newKey, Put(target, lastPart, o1.fields[key])), key))
      else Throws
    else Ok(obj)
  }

  /** Moving a value keeps the object well formed and never makes it
      heavier. */
  lemma RepairKeyWeight(obj: Value, key: string)
    requires obj.Obj? && WellFormed(obj) && RepairKey(obj, key).Ok?
    ensures WellFormed(RepairKey(obj, key).value)
    ensures Weight(RepairKey(obj, key).value) <= Weight(obj)
  {
    if key in obj.fields && |Split(key)| > 1 {
      SplitMany(key);
      ParentAndLast(key);
      var lastPart := LastSegment(key);
      var newKey := ParentKey(key);
      assert |key| == |newKey| + 1 + |lastPart|;
      assert WellFormed(EmptyObj);
      PutWellFormed(obj, newKey, EmptyObj);
      var o1 := if Missing(obj, newKey) then Put(obj, newKey, EmptyObj) else obj;
      WeightPut(obj, newKey, EmptyObj);
      var target := o1.fields[newKey];
      var x := o1.fields[key];
      assert x == obj.fields[key];
      var t2 := Put(target, lastPart, x);
      assert WellFormed(target) && WellFormed(x);
      PutWellFormed(target, lastPart, x);
      WeightPut(target, lastPart, x);
      assert Weight(t2) <= Weight(target) + |lastPart| + 1 + Weight(x);
      var o2 := Put(o1, newKey, t2);
      PutWellFormed(o1, newKey, t2);
      RemoveWellFormed(o2, key);
      WeightPut(o1, newKey, t2);
      assert Weight(o2) <= Weight(o1) - Weight(target) + Weight(t2);
      assert Shaped(o2) && key in o2.fields && o2.fields[key] == x;
      WeightRemove(o2, key);
      assert Weight(o1) <= Weight(obj) + |newKey| + 1;
    }
  }

  /** One hyphenated key `p-l`, split at its last hyphen: the move throws
      exactly when `obj[p]` is a truthy primitive; otherwise its value lands
      at `obj[p][l]`, the other properties of an existing object `obj[p]`
      stay, `p-l` is deleted and every other property is left alone. */
  lemma RepairKeyMoves(obj: Value, key: string)
    requires obj.Obj? && key in obj.fields && Sep in key
    ensures RepairKey(obj, key).Throws? <==>
      !Missing(obj, ParentKey(key)) && !obj.fields[ParentKey(key)].Obj?
    ensures RepairKey(obj, key).Ok? ==>
      var p, l, r := ParentKey(key), LastSegment(key), RepairKey(obj, key).value;
      && key !in r.fields && p in r.fields && r.fields[p].Obj?
      && l in r.fields[p].fields && r.fields[p].fields[l] == obj.fields[key]
      && (p in obj.fields && obj.fields[p].Obj? ==>
            forall m :: m != l && m in obj.fields[p].fields ==>
              m in r.fields[p].fields && r.fields[p].fields[m] == obj.fields[p].fields[m])
      && (forall m :: m != key && m != p ==> (m in r.fields <==> m in obj.fields))
      && (forall m :: m != key && m != p && m in obj.fields ==> r.fields[m] == obj.fields[m])
  {
    SplitMany(key);
    ParentAndLast(key);
  }

  /** The object after the first `n` turns of the first loop over the key
      snapshot `ks`. */
  function SplitLoop(obj: Value, ks: seq<string>, n: nat): (r: Result<Value>)
    requires obj.Obj? && WellFormed(obj) && n <= |ks|
    ensures r.Ok? ==> r.value.Obj? && WellFormed(r.value) && Weight(r.value) <= Weight(obj)
    decreases n
  {
    if n == 0 then Ok(obj)
    else
      match SplitLoop(obj, ks, n - 1)
      case Throws => Throws
      case Ok(o) =>
        var r := RepairKey(o, ks[n - 1]);
        if r.Ok? then RepairKeyWeight(o, ks[n - 1]); r else r
  }

  /** The repair traversal of getStateJson on `v`: first split the keys of
      the snapshot taken at the start, then traverse every object-typed
      property of what is left (null ones change nothing). The recursion
      runs on rebuilt objects, so it is bounded by `Weight`. */
  function Repair(v: Value): (r: Result<Value>)
    requires WellFormed(v)
    ensures r.Ok? ==> WellFormed(r.value) && Weight(r.value) <= Weight(v)
    ensures r.Ok? ==> (r.value.Obj? <==> v.Obj?)
    decreases Weight(v), 2
  {
    if !v.Obj? then Ok(v)
    else
      match SplitLoop(v, v.keys, |v.keys|)
      case Throws => Throws
      case Ok(o1) => ChildrenLoop(Weight(v), o1, o1.keys, |o1.keys|)
  }

  /** The object after the first `n` turns of the second loop over `ks`. */
  function ChildrenLoop(top: nat, obj: Value, ks: seq<string>, n: nat): (r: Result<Value>)
    requires obj.Obj? && WellFormed(obj) && Weight(obj) <= top && n <= |ks|
    ensures r.Ok? ==> r.value.Obj? && WellFormed(r.value) && Weight(r.value) <= Weight(obj)
    decreases top, 1, n
  {
    if n == 0 then Ok(obj)
    else
      match ChildrenLoop(top, obj, ks, n - 1)
      case Throws => Throws
      case Ok(o) => RepairChild(top, o, ks[n - 1])
  }

  /** One turn of the second loop, for `key`: an object-typed property is
      repaired in place (null ones change nothing). */
  function RepairChild(top: nat, o: Value, key: string): (r: Result<Value>)
    requires o.Obj? && WellFormed(o) && Weight(o) <= top
    ensures r.Ok? ==> r.value.Obj? && WellFormed(r.value) && Weight(r.value) <= Weight(o)
    decreases top, 0
  {
    if key in o.fields && IsObjectType(o.fields[key]) then
      ChildLighter(o, key);
      match Repair(o.fields[key])
      case Throws => Throws
      case Ok(c) => WeightPut(o, key, c); Ok(Put(o, key, c))
    else Ok(o)
  }

  /** One turn of the first loop, seen from the object the earlier turns
      left. */
  lemma SplitLoopStep(obj: Value, ks: seq<string>, n: nat, prev: Value)
    requires obj.Obj? && WellFormed(obj) && 0 < n <= |ks|
    requires SplitLoop(obj, ks, n - 1) == Ok(prev)
    ensures prev.Obj? && WellFormed(prev)
    ensures SplitLoop(obj, ks, n) == RepairKey(prev, ks[n - 1])
  {
  }

  /** One turn of the second loop, seen from the object the earlier turns
      left. */
  lemma ChildrenLoopStep(top: nat, obj: Value, ks: seq<string>, n: nat, prev: Value)
    requires obj.Obj? && WellFormed(obj) && Weight(obj) <= top && 0 < n <= |ks|
    requires ChildrenLoop(top, obj, ks, n - 1) == Ok(prev)
    ensures prev.Obj? && WellFormed(prev) && Weight(prev) <= top
    ensures ChildrenLoop(top, obj, ks, n) == RepairChild(top, prev, ks[n - 1])
  {
  }

  lemma {:induction false} SplitLoopPrefix(obj: Value, ks: seq<string>, m: nat, n: nat)
    requires obj.Obj? && WellFormed(obj) && m <= n <= |ks|
    requires SplitLoop(obj, ks, n).Ok?
    ensures SplitLoop(obj, ks, m).Ok?
    decreases n
  {
    if m < n {
      SplitLoopPrefix(obj, ks, m, n - 1);
    }
  }

  lemma {:induction false} ChildrenLoopPrefix(top: nat, obj: Value, ks: seq<string>, m: nat, n: nat)
    requires obj.Obj? && WellFormed(obj) && Weight(obj) <= top && m <= n <= |ks|
    requires ChildrenLoop(top, obj, ks, n).Ok?
    ensures ChildrenLoop(top, obj, ks, m).Ok?
    decreases n
  {
    if m < n {
      ChildrenLoopPrefix(top, obj, ks, m, n - 1);
    }
  }

  /** No key at any level contains the separator. */
  predicate Clean(v: Value)
    decreases v
  {
    v.Obj? ==> forall k :: k in v.fields ==> NoSep(k) && Clean(v.fields[k])
  }

  /** The first loop leaves an object without hyphenated keys as it is. */
  lemma {:induction false} SplitLoopClean(obj: Value, ks: seq<string>, n: nat)
    requires obj.Obj? && WellFormed(obj) && n <= |ks|
    requires forall i :: 0 <= i < |ks| && ks[i] in obj.fields ==> NoSep(ks[i])
    ensures SplitLoop(obj, ks, n) == Ok(obj)
    decreases n
  {
    if n > 0 {
      SplitLoopClean(obj, ks, n - 1);
      SplitMany(ks[n - 1]);
    }
  }

  /** The second loop leaves an object whose values are clean as it is. */
  lemma {:induction false} ChildrenLoopClean(top: nat, obj: Value, ks: seq<string>, n: nat)
    requires obj.Obj? && WellFormed(obj) && Weight(obj) <= top && n <= |ks|
    requires forall k :: k in obj.fields ==> Clean(obj.fields[k])
    ensures ChildrenLoop(top, obj, ks, n) == Ok(obj)
    decreases obj, 0, n
  {
    if n > 0 {
      ChildrenLoopClean(top, obj, ks, n - 1);
      var key := ks[n - 1];
      if key in obj.fields && IsObjectType(obj.fields[key]) {
        RepairClean(obj.fields[key]);
        PutSame(obj, key);
      }
    }
  }

  /** getStateJson of a state without hyphenated keys at any level returns a
      value equal to the state. */
  lemma {:induction false} RepairClean(v: Value)
    requires WellFormed(v) && Clean(v)
    ensures Repair(v) == Ok(v)
    decreases v, 1
  {
    if v.Obj? {
      SplitLoopClean(v, v.keys, |v.keys|);
      ChildrenLoopClean(Weight(v), v, v.keys, |v.keys|);
    }
  }

  /** A turn of the first loop changes nothing for a key that is gone or
      has no hyphen. */
  lemma RepairKeyIdle(o: Value, key: string)
    requires o.Obj? && (key !in o.fields || NoSep(key))
    ensures RepairKey(o, key) == Ok(o)
  {
    if key in o.fields {
      SplitNoSep(key);
    }
  }

  /** A key that is moved is gone afterwards. */
  lemma RepairKeyRemoves(o: Value, key: string)
    requires o.Obj? && key in o.fields && Sep in key && RepairKey(o, key).Ok?
    ensures key !in RepairKey(o, key).value.fields
  {
    SplitMany(key);
  }

  /** `k` is among the first `n` keys of `ks`. */
  predicate Seen(ks: seq<string>, n: nat, k: string)
    requires n <= |ks|
    decreases n
  {
    n > 0 && (ks[n - 1] == k || Seen(ks, n - 1, k))
  }

  lemma {:induction false} SeenIn(ks: seq<string>, n: nat, k: string)
    requires n <= |ks|
    ensures Seen(ks, n, k) <==> k in ks[..n]
    decreases n
  {
    if n > 0 {
      SeenIn(ks, n - 1, k);
      assert ks[..n] == ks[..n - 1] + [ks[n - 1]];
    }
  }

  /** When `k` is the only hyphenated key of the snapshot, the first loop
      moves that key and nothing else. */
  lemma {:induction false} SplitLoopOne(obj: Value, ks: seq<string>, n: nat, k: string)
    requires obj.Obj? && WellFormed(obj) && n <= |ks|
    requires k in obj.fields && Sep in k && RepairKey(obj, k).Ok?
    requires forall i :: 0 <= i < n ==> ks[i] == k || NoSep(ks[i])
    ensures SplitLoop(obj, ks, n) == if Seen(ks, n, k) then RepairKey(obj, k) else Ok(obj)
    decreases n, 1
  {
    if n > 0 {
      SplitLoopOneStep(obj, ks, n, k);
    }
  }

  lemma SplitLoopOneStep(obj: Value, ks: seq<string>, n: nat, k: string)
    requires obj.Obj? && WellFormed(obj) && 0 < n <= |ks|
    requires k in obj.fields && Sep in k && RepairKey(obj, k).Ok?
    requires forall i :: 0 <= i < n ==> ks[i] == k || NoSep(ks[i])
    ensures SplitLoop(obj, ks, n) == if Seen(ks, n, k) then RepairKey(obj, k) else Ok(obj)
    decreases n, 0
  {
    SplitLoopOne(obj, ks, n - 1, k);
    var key := ks[n - 1];
    var prev := if Seen(ks, n - 1, k) then RepairKey(obj, k).value else obj;
    SplitLoopStep(obj, ks, n, prev);
    if key != k {
      RepairKeyIdle(prev, key);
    } else if Seen(ks, n - 1, k) {
      RepairKeyRemoves(obj, k);
      RepairKeyIdle(prev, key);
    }
  }

  /** What the repair does once its first loop is done. */
  lemma RepairAfterSplit(v: Value, o1: Value)
    requires v.Obj? && WellFormed(v) && SplitLoop(v, v.keys, |v.keys|) == Ok(o1)
    ensures o1.Obj? && WellFormed(o1) && Weight(o1) <= Weight(v)
    ensures Repair(v) == ChildrenLoop(Weight(v), o1, o1.keys, |o1.keys|)
  {
  }

  /** The object getStateJson makes of an otherwise clean state with the
      one stray key `p-l`. */
  function StrayMoved(obj: Value, p: string, l: string): (r: Value)
    requires obj.Obj? && FlatKey(p, l) in obj.fields && (Missing(obj, p) || obj.fields[p].Obj?)
    ensures r.Obj?
  {
    var base := if Missing(obj, p) then EmptyObj else obj.fields[p];
    Remove(Put(obj, p, Put(base, l, obj.fields[FlatKey(p, l)])), FlatKey(p, l))
  }

  /** The move of the stray key is the one turn of the first loop. */
  lemma RepairKeyStray(obj: Value, p: string, l: string)
    requires obj.Obj? && NoSep(p) && NoSep(l) && FlatKey(p, l) in obj.fields
    requires Missing(obj, p) || obj.fields[p].Obj?
    ensures RepairKey(obj, FlatKey(p, l)) == Ok(StrayMoved(obj, p, l))
  {
    var k := FlatKey(p, l);
    FlatKeyParts(p, l);
    assert p != k by { assert |k| == |p| + 1 + |l|; }
    var base := if Missing(obj, p) then EmptyObj else obj.fields[p];
    if Missing(obj, p) {
      PutPut(obj, p, EmptyObj, Put(base, l, obj.fields[k]));
    }
  }

  /** The moved object is clean when everything else was. */
  lemma StrayMovedClean(obj: Value, p: string, l: string)
    requires obj.Obj? && NoSep(p) && NoSep(l) && FlatKey(p, l) in obj.fields
    requires Missing(obj, p) || obj.fields[p].Obj?
    requires forall m :: m in obj.fields ==> Clean(obj.fields[m])
    ensures forall m :: m in StrayMoved(obj, p, l).fields ==> Clean(StrayMoved(obj, p, l).fields[m])
  {
    var base := if Missing(obj, p) then EmptyObj else obj.fields[p];
    assert Clean(Put(base, l, obj.fields[FlatKey(p, l)]));
  }

  /** getStateJson of an otherwise clean state with the one stray key `p-l`
      is `StrayMoved`. */
  /** The first loop of the repair moves the one stray key `p-l` and
      leaves every other key alone. */
  lemma SplitLoopStray(obj: Value, p: string, l: string)
    requires obj.Obj? && WellFormed(obj) && NoSep(p) && NoSep(l) && FlatKey(p, l) in obj.fields
    requires forall m :: m in obj.fields && m != FlatKey(p, l) ==> NoSep(m)
    requires Missing(obj, p) || obj.fields[p].Obj?
    ensures SplitLoop(obj, obj.keys, |obj.keys|) == Ok(StrayMoved(obj, p, l))
  {
    var k := FlatKey(p, l);
    FlatKeyParts(p, l);
    RepairKeyStray(obj, p, l);
    WholeSlice(obj.keys);
    SeenIn(obj.keys, |obj.keys|, k);
    SplitLoopOne(obj, obj.keys, |obj.keys|, k);
  }

  lemma WholeSlice(ks: seq<string>)
    ensures ks[..|ks|] == ks
  {
  }

  /** When the first loop leaves only clean values, the second loop
      changes nothing more. */
  lemma RepairOfCleanSplit(v: Value, o1: Value)
    requires v.Obj? && WellFormed(v) && SplitLoop(v, v.keys, |v.keys|) == Ok(o1)
    requires o1.Obj? && forall m :: m in o1.fields ==> Clean(o1.fields[m])
    ensures Repair(v) == Ok(o1)
  {
    RepairAfterSplit(v, o1);
    ChildrenLoopClean(Weight(v), o1, o1.keys, |o1.keys|);
  }

  lemma RepairStray(obj: Value, p: string, l: string)
    requires obj.Obj? && WellFormed(obj) && NoSep(p) && NoSep(l) && FlatKey(p, l) in obj.fields
    requires forall m :: m in obj.fields && m != FlatKey(p, l) ==> NoSep(m)
    requires forall m :: m in obj.fields ==> Clean(obj.fields[m])
    requires Missing(obj, p) || obj.fields[p].Obj?
    ensures Repair(obj) == Ok(StrayMoved(obj, p, l))
  {
    SplitLoopStray(obj, p, l);
    StrayMovedClean(obj, p, l);
    RepairOfCleanSplit(obj, StrayMoved(obj, p, l));
  }

  /** Repair of one stray flat key `p-l` in an otherwise clean state:
      getStateJson returns the state with the value moved to `[p][l]`, in
      `{}` when `p` is absent or falsy and next to the existing siblings
      under `p` otherwise, and `p-l` deleted; nothing else changes. */
  lemma RepairStrayKey(obj: Value, p: string, l: string)
    requires obj.Obj? && WellFormed(obj) && NoSep(p) && NoSep(l) && FlatKey(p, l) in obj.fields
    requires forall m :: m in obj.fields && m != FlatKey(p, l) ==> NoSep(m)
    requires forall m :: m in obj.fields ==> Clean(obj.fields[m])
    requires Missing(obj, p) || obj.fields[p].Obj?
    ensures var k := FlatKey(p, l);
      var base := if Missing(obj, p) then EmptyObj else obj.fields[p];
      Repair(obj) == Ok(Remove(Put(obj, p, Put(base, l, obj.fields[k])), k))
  {
    RepairStray(obj, p, l);
  }

  /** A state holding only the flat key `p-l` comes back nested:
      `{"p-l": v}` becomes `{p: {l: v}}`. */
  lemma RepairLoneStray(p: string, l: string, v: Value)
    requires NoSep(p) && NoSep(l) && WellFormed(v) && Clean(v)
    ensures
      var k := FlatKey(p, l);
      Repair(Obj([k], map[k := v])) == Ok(Obj([p], map[p := Obj([l], map[l := v])]))
  {
    var k := FlatKey(p, l);
    LoneStrayMoved(p, l, v);
    RepairStray(Obj([k], map[k := v]), p, l);
  }

  lemma LoneStrayMoved(p: string, l: string, v: Value)
    requires NoSep(p) && NoSep(l) && WellFormed(v)
    ensures
      var k := FlatKey(p, l);
      var state := Obj([k], map[k := v]);
      && WellFormed(state) && Missing(state, p)
      && StrayMoved(state, p, l) == Obj([p], map[p := Obj([l], map[l := v])])
  {
    var k := FlatKey(p, l);
    var state := Obj([k], map[k := v]);
    FlatKeyParts(p, l);
    assert p != k by { assert |k| == |p| + 1 + |l|; }
    OneKeyWellFormed(k, v);
    OneKeyPut(l, v);
    ReplaceOnlyKey(state, k, p, Obj([l], map[l := v]));
  }

  lemma OneKeyWellFormed(k: string, v: Value)
    requires WellFormed(v)
    ensures WellFormed(Obj([k], map[k := v]))
  {
  }

  lemma OneKeyPut(k: string, v: Value)
    ensures Put(EmptyObj, k, v) == Obj([k], map[k := v])
  {
  }

  /** Adding `p` to an object whose only key is `k` and deleting `k`
      leaves `p` alone. */
  lemma ReplaceOnlyKey(o: Value, k: string, p: string, x: Value)
    requires o.Obj? && o.keys == [k] && o.fields.Keys == {k} && p != k
    ensures Remove(Put(o, p, x), k) == Obj([p], map[p := x])
  {
    var put := Put(o, p, x);
    assert put.keys == [k, p];
    var r := Remove(put, k);
    assert r.keys == [p] by {
      assert put.keys[1..] == [p];
      assert Without([p], k) == [p];
    }
    SingleEntry(r.fields, p, x);
  }

  lemma SingleEntry(m: map<string, Value>, p: string, x: Value)
    requires p in m && m[p] == x && forall q :: q in m ==> q == p
    ensures m == map[p := x]
  {
  }
}
