/** Plain JavaScript data as the component sees it: strings, booleans, null
    and objects whose own properties keep their insertion order. */
module Json {

  /** A JavaScript value of plain data. `keys` is the object's own-key order
      (what `Object.keys` and `for ... in` visit), `fields` its properties. */
  datatype Value =
    | Str(s: string)
    | Bool(b: bool)
    | Null
    | Obj(keys: seq<string>, fields: map<string, Value>)

  /** The outcome of code that may throw: `Throws` stands for the TypeError
      that strict mode raises when a property is assigned on a primitive. */
  datatype Result<T> = Ok(value: T) | Throws

  /** `{}` */
  const EmptyObj: Value := Obj([], map[])

  /** JavaScript truthiness: `""`, `false` and `null` are falsy, every object
      (even `{}`) is truthy. */
  predicate Truthy(v: Value) {
    match v
    case Str(s) => s != ""
    case Bool(b) => b
    case Null => false
    case Obj(_, _) => true
  }

  /** `typeof v === "object"`, which holds for `null` too. */
  predicate IsObjectType(v: Value) {
    v.Null? || v.Obj?
  }

  /** `!o[k]`: the property is absent (undefined) or falsy. */
  predicate Missing(o: Value, k: string)
    requires o.Obj?
  {
    k !in o.fields || !Truthy(o.fields[k])
  }

  predicate Distinct(ks: seq<string>) {
    forall i, j :: 0 <= i < j < |ks| ==> ks[i] != ks[j]
  }

  /** An object's key order lists each of its properties exactly once. */
  predicate Shaped(v: Value) {
    v.Obj? ==>
      && Distinct(v.keys)
      && (forall k :: k in v.fields ==> k in v.keys)
      && (forall i :: 0 <= i < |v.keys| ==> v.keys[i] in v.fields)
  }

  /** Every key in the key order names a property. */
  predicate KeysPresent(v: Value)
    requires v.Obj?
  {
    forall i :: 0 <= i < |v.keys| ==> v.keys[i] in v.fields
  }

  /** Every object inside `v` is shaped. */
  predicate WellFormed(v: Value)
    decreases v
  {
    Shaped(v) && (v.Obj? ==> forall k :: k in v.fields ==> WellFormed(v.fields[k]))
  }

  /** `o[k] = x`: an existing property keeps its place, a new one goes last. */
  function Put(o: Value, k: string, x: Value): (r: Value)
    requires o.Obj?
    ensures r.Obj? && k in r.fields && r.fields[k] == x
    ensures forall m :: m != k ==> (m in r.fields <==> m in o.fields)
    ensures forall m :: m != k && m in o.fields ==> r.fields[m] == o.fields[m]
  {
    Obj(if k in o.fields then o.keys else o.keys + [k], o.fields[k := x])
  }

  /** An assignment of well-formed data keeps an object well formed. */
  lemma PutWellFormed(o: Value, k: string, x: Value)
    requires o.Obj? && WellFormed(o) && WellFormed(x)
    ensures WellFormed(Put(o, k, x))
  {
  }

  /** The key order without `k`. */
  function Without(ks: seq<string>, k: string): (r: seq<string>)
    ensures forall m :: m in r <==> m in ks && m != k
    ensures Distinct(ks) ==> Distinct(r)
    decreases |ks|
  {
    if ks == [] then []
    else
      DistinctTail(ks);
      if ks[0] == k then Without(ks[1..], k)
      else [ks[0]] + Without(ks[1..], k)
  }

  lemma DistinctTail(ks: seq<string>)
    requires ks != []
    ensures Distinct(ks) ==> Distinct(ks[1..]) && ks[0] !in ks[1..]
  {
    if Distinct(ks) {
      forall i | 0 <= i < |ks[1..]| ensures ks[1..][i] != ks[0] { assert ks[1..][i] == ks[i + 1]; }
      forall i, j | 0 <= i < j < |ks[1..]| ensures ks[1..][i] != ks[1..][j] {
        assert ks[1..][i] == ks[i + 1] && ks[1..][j] == ks[j + 1];
      }
    }
  }

  /** `delete o[k]` */
  function Remove(o: Value, k: string): (r: Value)
    requires o.Obj?
    ensures r.Obj? && k !in r.fields
    ensures forall m :: m != k ==> (m in r.fields <==> m in o.fields)
    ensures forall m :: m != k && m in o.fields ==> r.fields[m] == o.fields[m]
  {
    Obj(Without(o.keys, k), o.fields - {k})
  }

  /** A deletion keeps an object well formed. */
  lemma RemoveWellFormed(o: Value, k: string)
    requires o.Obj? && WellFormed(o)
    ensures WellFormed(Remove(o, k))
  {
    var ks := Without(o.keys, k);
    assert forall i :: 0 <= i < |ks| ==> ks[i] in ks;
  }

  /** Assigning a property twice leaves the second value in the first place. */
  lemma PutPut(o: Value, k: string, x: Value, y: Value)
    requires o.Obj?
    ensures Put(Put(o, k, x), k, y) == Put(o, k, y)
  {
    assert Put(o, k, x).fields[k := y] == o.fields[k := y];
  }

  /** Assigning a property its own value changes nothing. */
  lemma PutSame(o: Value, k: string)
    requires o.Obj? && Shaped(o) && k in o.fields
    ensures Put(o, k, o.fields[k]) == o
  {
    assert o.fields[k := o.fields[k]] == o.fields;
  }

  // ---------------------------------------------------------------------
  // A size measure. The repair pass of the state store rebuilds objects, so
  // its recursion is not structural; what bounds it is that moving a value
  // from key "p-l" to p.l never makes this measure grow.

  /** The size of a value: each property counts its key length plus one plus
      the size of its value. */
  function Weight(v: Value): nat
    decreases v, 1
  {
    if v.Obj? then EntriesWeight(v, v.keys) else 0
  }

  /** The weight contributed by property `k` of object `v`. */
  function EntryWeight(v: Value, k: string): nat
    requires v.Obj?
    decreases v, 0, 0
  {
    if k in v.fields then |k| + 1 + Weight(v.fields[k]) else 0
  }

  function EntriesWeight(v: Value, ks: seq<string>): nat
    requires v.Obj?
    decreases v, 0, |ks|
  {
    if ks == [] then 0 else EntryWeight(v, ks[0]) + EntriesWeight(v, ks[1..])
  }

  /** The weight of a key list depends only on the properties it names. */
  lemma {:induction false} EntriesAgree(v: Value, w: Value, ks: seq<string>)
    requires v.Obj? && w.Obj?
    requires forall k :: k in ks ==> EntryWeight(v, k) == EntryWeight(w, k)
    ensures EntriesWeight(v, ks) == EntriesWeight(w, ks)
    decreases |ks|
  {
    if ks != [] {
      EntriesAgree(v, w, ks[1..]);
    }
  }

  lemma {:induction false} EntriesSnoc(v: Value, ks: seq<string>, k: string)
    requires v.Obj?
    ensures EntriesWeight(v, ks + [k]) == EntriesWeight(v, ks) + EntryWeight(v, k)
    decreases |ks|
  {
    if ks != [] {
      assert (ks + [k])[1..] == ks[1..] + [k];
      EntriesSnoc(v, ks[1..], k);
    } else {
      assert ([] + [k])[1..] == [];
    }
  }

  /** A key that occurs once in a list contributes its weight once. */
  lemma {:induction false} EntriesReplace(v: Value, w: Value, ks: seq<string>, k: string)
    requires v.Obj? && w.Obj? && Distinct(ks) && k in ks
    requires forall m :: m in ks && m != k ==> EntryWeight(v, m) == EntryWeight(w, m)
    ensures EntriesWeight(w, ks) + EntryWeight(v, k) == EntriesWeight(v, ks) + EntryWeight(w, k)
    decreases |ks|
  {
    if ks[0] == k {
      DistinctTail(ks);
      EntriesAgree(v, w, ks[1..]);
    } else {
      DistinctTail(ks);
      EntriesReplace(v, w, ks[1..], k);
    }
  }

  /** Dropping a key from the list drops its weight. */
  lemma {:induction false} EntriesWithout(v: Value, w: Value, ks: seq<string>, k: string)
    requires v.Obj? && w.Obj? && Distinct(ks) && k in ks
    requires forall m :: m in ks && m != k ==> EntryWeight(v, m) == EntryWeight(w, m)
    ensures EntriesWeight(w, Without(ks, k)) + EntryWeight(v, k) == EntriesWeight(v, ks)
    decreases |ks|
  {
    if ks[0] == k {
      DistinctTail(ks);
      WithoutAbsent(ks[1..], k);
      EntriesAgree(v, w, ks[1..]);
    } else {
      DistinctTail(ks);
      EntriesWithout(v, w, ks[1..], k);
      assert ([ks[0]] + Without(ks[1..], k))[1..] == Without(ks[1..], k);
    }
  }

  lemma {:induction false} WithoutAbsent(ks: seq<string>, k: string)
    requires k !in ks
    ensures Without(ks, k) == ks
    decreases |ks|
  {
    if ks != [] {
      WithoutAbsent(ks[1..], k);
      assert ks == [ks[0]] + ks[1..];
    }
  }

  /** A property weighs no more than the object that holds it, and strictly
      more than its value. */
  lemma {:induction false} EntryWithin(v: Value, ks: seq<string>, k: string)
    requires v.Obj? && k in ks
    ensures EntryWeight(v, k) <= EntriesWeight(v, ks)
    decreases |ks|
  {
    if ks[0] != k {
      EntryWithin(v, ks[1..], k);
    }
  }

  /** The value of a property is lighter than the object that holds it. */
  lemma ChildLighter(v: Value, k: string)
    requires v.Obj? && Shaped(v) && k in v.fields
    ensures Weight(v.fields[k]) < Weight(v)
  {
    EntryWithin(v, v.keys, k);
  }

  /** What an assignment does to the weight. */
  lemma WeightPut(o: Value, k: string, x: Value)
    requires o.Obj? && Shaped(o)
    ensures k !in o.fields ==> Weight(Put(o, k, x)) == Weight(o) + |k| + 1 + Weight(x)
    ensures k in o.fields ==> Weight(Put(o, k, x)) + Weight(o.fields[k]) == Weight(o) + Weight(x)
  {
    var r := Put(o, k, x);
    forall m | m != k ensures EntryWeight(o, m) == EntryWeight(r, m) { }
    if k !in o.fields {
      EntriesAgree(o, r, o.keys);
      EntriesSnoc(r, o.keys, k);
    } else {
      EntriesReplace(o, r, o.keys, k);
    }
  }

  /** What a deletion does to the weight. */
  lemma WeightRemove(o: Value, k: string)
    requires o.Obj? && Shaped(o) && k in o.fields
    ensures Weight(Remove(o, k)) + |k| + 1 + Weight(o.fields[k]) == Weight(o)
  {
    var r := Remove(o, k);
    forall m | m != k ensures EntryWeight(o, m) == EntryWeight(r, m) { }
    EntriesWithout(o, r, o.keys, k);
  }
}
