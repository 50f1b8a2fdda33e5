/** The `UiManager` class: the configuration and CSS library it is made with,
    the two pieces of state its operations update in place, and those
    operations, each proved against the functions of `UiState`. */
module Manager {
  import opened Json
  import opened FlatKeys
  import opened UiState

  class UiManager {
    /** The configuration: groups of sub-options with their labels. */
    const uiJsonObj: Value
    /** "daisyui" or "bootstrap"; any other name renders nothing. */
    const cssLib: string
    /** The nested selection state. */
    var uiState: Value
    /** The flat keys (`group-suboption`) of the checked checkboxes. */
    var selectedKeys: set<string>

    ghost predicate Valid()
      reads this
    {
      && uiJsonObj.Obj? && WellFormed(uiJsonObj)
      && uiState.Obj? && WellFormed(uiState)
    }

    /** A new manager starts from `{}` and no selection and fills the state
        with the defaults of its configuration. The configuration must be
        one whose default traversal does not throw. */
    constructor (uiJsonObj: Value, cssLib: string := "daisyui")
      requires uiJsonObj.Obj? && WellFormed(uiJsonObj) && Defaults(uiJsonObj).Ok?
      ensures Valid()
      ensures this.uiJsonObj == uiJsonObj && this.cssLib == cssLib
      ensures uiState == Defaults(uiJsonObj).value && selectedKeys == {}
    {
      this.uiJsonObj := uiJsonObj;
      this.cssLib := cssLib;
      uiState := EmptyObj;
      selectedKeys := {};
      new;
      SetDefaultUiState(uiJsonObj);
    }

    /** Runs the default traversal of `config` from the top, on the current
        state. */
    method SetDefaultUiState(config: Value)
      requires uiState.Obj? && WellFormed(uiState) && WellFormed(config)
      requires DefaultsTraverse(uiState, config, "").Ok?
      modifies this`uiState
      ensures Ok(uiState) == DefaultsTraverse(old(uiState), config, "")
      ensures WellFormed(uiState)
    {
      Traverse(config, "");
    }

    /** The traversal of `obj` below flat key `currentKey`: one for-in loop
        over the properties of `obj`. */
    method Traverse(obj: Value, currentKey: string)
      requires uiState.Obj? && WellFormed(uiState) && WellFormed(obj)
      requires DefaultsTraverse(uiState, obj, currentKey).Ok?
      modifies this`uiState
      ensures Ok(uiState) == DefaultsTraverse(old(uiState), obj, currentKey)
      ensures WellFormed(uiState)
      decreases obj, 1
    {
      if obj.Obj? {
        ghost var start := uiState;
        var keys := obj.keys;
        var i := 0;
        while i < |keys|
          invariant 0 <= i <= |keys|
          invariant uiState.Obj? && WellFormed(uiState)
          invariant DefaultsLoop(start, obj, currentKey, i) == Ok(uiState)
        {
          var key := keys[i];
          DefaultsLoopPrefix(start, obj, currentKey, i + 1, |keys|);
          DefaultsLoopStep(start, obj, currentKey, i + 1, uiState);
          Visit(currentKey, key, obj.fields[key]);
          i := i + 1;
        }
      }
    }

    /** The loop body for property `key` with value `value`: an object (or
        null) gets a fresh `{}` under its flat key and is traversed, any
        other value is filed. */
    method Visit(currentKey: string, key: string, value: Value)
      requires uiState.Obj? && WellFormed(uiState) && WellFormed(value)
      requires DefaultsVisit(uiState, currentKey, key, value).Ok?
      modifies this`uiState
      ensures Ok(uiState) == DefaultsVisit(old(uiState), currentKey, key, value)
      ensures WellFormed(uiState)
      decreases value, 2
    {
      var newKey := if currentKey != "" then currentKey + [Sep] + key else key;
      if IsObjectType(value) {
        assert WellFormed(EmptyObj);
        PutWellFormed(uiState, newKey, EmptyObj);
        uiState := Put(uiState, newKey, EmptyObj);
        Traverse(value, newKey);
      } else {
        FileLeaf(newKey, value);
      }
    }

    /** A non-object value of the traversal goes under its flat key; a key
        with a separator sends it into the object under its parent key. */
    method FileLeaf(newKey: string, value: Value)
      requires uiState.Obj? && WellFormed(uiState) && WellFormed(value)
      requires FileValue(uiState, newKey, value).Ok?
      modifies this`uiState
      ensures Ok(uiState) == FileValue(old(uiState), newKey, value)
      ensures WellFormed(uiState)
    {
      if Sep in newKey {
        var parts := Split(newKey);
        var lastPart := parts[|parts| - 1];
        var parentKey := Join(parts[..|parts| - 1]);
        if Missing(uiState, parentKey) {
          assert WellFormed(EmptyObj);
          PutWellFormed(uiState, parentKey, EmptyObj);
          uiState := Put(uiState, parentKey, EmptyObj);
        }
        var parent := uiState.fields[parentKey];
        PutWellFormed(parent, lastPart, value);
        PutWellFormed(uiState, parentKey, Put(parent, lastPart, value));
        uiState := Put(uiState, parentKey, Put(parent, lastPart, value));
      } else {
        PutWellFormed(uiState, newKey, value);
        uiState := Put(uiState, newKey, value);
      }
    }

    /** Writes `value` at the path the segments of `key` spell, creating `{}`
        for every absent or falsy level on the way. The walk keeps the
        ancestors it passed in `path`; the final assignment is seen from the
        top through all of them. */
    method UpdateUiState(key: string, value: Value)
      requires uiState.Obj? && WellFormed(uiState) && WellFormed(value)
      requires Writable(uiState, Split(key))
      modifies this`uiState
      ensures uiState == SetPath(old(uiState), Split(key), value)
      ensures WellFormed(uiState)
    {
      var parts := Split(key);
      var top := uiState;
      var path: seq<Value> := [];
      var walked: seq<string> := [];
      var currentObj := top;
      var i := 0;
      while i < |parts| - 1
        invariant 0 <= i <= |parts| - 1
        invariant |path| == |walked| && forall j :: 0 <= j < |path| ==> path[j].Obj?
        invariant currentObj.Obj? && Writable(currentObj, parts[i..])
        invariant Plug(path, walked, SetPath(currentObj, parts[i..], value)) == SetPath(top, parts, value)
      {
        var part := parts[i];
        DescendStep(path, walked, parts, i, currentObj, value);
        if Missing(currentObj, part) {
          currentObj := Put(currentObj, part, EmptyObj);
        }
        path := path + [currentObj];
        walked := walked + [part];
        currentObj := currentObj.fields[part];
        i := i + 1;
      }
      assert parts[i..] == [parts[i]];
      SetPathWellFormed(top, parts, value);
      uiState := Plug(path, walked, Put(currentObj, parts[i], value));
    }

    method GetUiState() returns (state: Value)
      ensures state == uiState
    {
      state := uiState;
    }

    /** A repaired copy of the state; the state itself is not changed. The
        JSON copy of plain data is the data itself. */
    method GetStateJson() returns (state: Value)
      requires WellFormed(uiState) && Repair(uiState).Ok?
      ensures Ok(state) == Repair(uiState)
    {
      state := uiState;
      state := RepairTraverse(state);
    }

    /** The change handler of the checkbox named `name`, once its checked
        state has become `checked`: the flat key is the name without its
        first segment; it joins or leaves the selection and its state path
        is written with the same boolean. */
    method OnChange(name: string, checked: bool)
      requires Valid() && CanToggle(Selection(uiState, selectedKeys), KeyFromName(name))
      modifies this`uiState, this`selectedKeys
      ensures Valid()
      ensures Selection(uiState, selectedKeys)
        == Toggle(old(Selection(uiState, selectedKeys)), KeyFromName(name), checked)
    {
      var key := Join(Split(name)[1..]);
      if checked {
        selectedKeys := selectedKeys + {key};
        UpdateUiState(key, Bool(true));
      } else {
        selectedKeys := selectedKeys - {key};
        UpdateUiState(key, Bool(false));
      }
    }
  }

  /** The repair traversal of getStateJson on `v`: a first for-in loop over
      a snapshot of the keys moves every hyphenated property one level down,
      a second one repairs every object-typed property of the result. */
  method RepairTraverse(v: Value) returns (r: Value)
    requires WellFormed(v) && Repair(v).Ok?
    ensures Ok(r) == Repair(v)
    decreases Weight(v), 2
  {
    if !v.Obj? {
      return v;
    }
    var split := SplitKeys(v);
    var keys := split.keys;
    r := split;
    var j := 0;
    while j < |keys|
      invariant 0 <= j <= |keys|
      invariant ChildrenLoop(Weight(v), split, keys, j) == Ok(r)
    {
      ChildrenLoopPrefix(Weight(v), split, keys, j + 1, |keys|);
      ChildrenLoopStep(Weight(v), split, keys, j + 1, r);
      r := RepairEntry(Weight(v), r, keys[j]);
      j := j + 1;
    }
  }

  /** The body of the second loop, for `key`: an object-typed property is
      repaired in place; `top` bounds the weight of the object being
      repaired. */
  method RepairEntry(ghost top: nat, obj: Value, key: string) returns (r: Value)
    requires obj.Obj? && WellFormed(obj) && Weight(obj) <= top
    requires RepairChild(top, obj, key).Ok?
    ensures Ok(r) == RepairChild(top, obj, key)
    decreases top, 1
  {
    r := obj;
    if key in obj.fields && IsObjectType(obj.fields[key]) {
      ChildLighter(obj, key);
      var child := RepairTraverse(obj.fields[key]);
      r := Put(obj, key, child);
    }
  }

  /** The first loop of the repair traversal, over the keys `v` has when it
      starts. */
  method SplitKeys(v: Value) returns (obj: Value)
    requires v.Obj? && WellFormed(v) && SplitLoop(v, v.keys, |v.keys|).Ok?
    ensures Ok(obj) == SplitLoop(v, v.keys, |v.keys|)
  {
    obj := v;
    var keys := v.keys;
    var i := 0;
    while i < |keys|
      invariant 0 <= i <= |keys|
      invariant SplitLoop(v, keys, i) == Ok(obj)
    {
      SplitLoopPrefix(v, keys, i + 1, |keys|);
      SplitLoopStep(v, keys, i + 1, obj);
      obj := MoveDown(obj, keys[i]);
      i := i + 1;
    }
  }

  /** The loop body for `key`: a key still present and of several segments
      moves its value to `obj[parent][last]` (creating `obj[parent]` when
      absent or falsy) and is deleted; a key deleted before its turn is
      skipped, as for-in does. */
  method MoveDown(obj: Value, key: string) returns (r: Value)
    requires obj.Obj? && RepairKey(obj, key).Ok?
    ensures Ok(r) == RepairKey(obj, key)
  {
    r := obj;
    if key in r.fields {
      var parts := Split(key);
      if |parts| > 1 {
        var lastPart := parts[|parts| - 1];
        var newKey := Join(parts[..|parts| - 1]);
        if Missing(r, newKey) {
          r := Put(r, newKey, EmptyObj);
        }
        r := Put(r, newKey, Put(r.fields[newKey], lastPart, r.fields[key]));
        r := Remove(r, key);
      }
    }
  }
}
