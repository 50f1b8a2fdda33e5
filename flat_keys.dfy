/** Flat keys: a path of option names written as one string joined by '-'
    (`group-suboption`), as JavaScript's `split("-")` and `join("-")` see it,
    and the `Ui-` prefix that names a rendered checkbox. */
module FlatKeys {

  /** The separator of flat keys. */
  const Sep: char := '-'

  /** The prefix of every checkbox name, without its separator. */
  const NamePrefix: string := "Ui"

  predicate NoSep(s: string) {
    Sep !in s
  }

  predicate AllNoSep(parts: seq<string>) {
    forall i :: 0 <= i < |parts| ==> NoSep(parts[i])
  }

  /** `s.split("-")`: never empty, and no segment contains the separator. */
  function Split(s: string): (parts: seq<string>)
    ensures |parts| >= 1
    ensures AllNoSep(parts)
    decreases |s|
  {
    if s == [] then [""]
    else
      var rest := Split(s[1..]);
      if s[0] == Sep then [""] + rest
      else [[s[0]] + rest[0]] + rest[1..]
  }

  /** `parts.join("-")`; the empty array joins to the empty string. */
  function Join(parts: seq<string>): string
    decreases |parts|
  {
    if |parts| == 0 then ""
    else if |parts| == 1 then parts[0]
    else parts[0] + [Sep] + Join(parts[1..])
  }

  /** The flat key of sub-option `s` of group `g` (`${g}-${s}`). */
  function FlatKey(g: string, s: string): string {
    g + [Sep] + s
  }

  /** The `name` a checkbox gets for a flat key (`Ui-${key}`). */
  function NameOf(key: string): string {
    NamePrefix + [Sep] + key
  }

  /** What the change handler recovers from a checkbox name:
      `name.split("-").slice(1).join("-")`. */
  function KeyFromName(name: string): string {
    Join(Split(name)[1..])
  }

  /** All segments but the last, joined again (`parts.pop(); parts.join("-")`). */
  function ParentKey(key: string): string {
    var parts := Split(key);
    Join(parts[..|parts| - 1])
  }

  /** The last segment (what `parts.pop()` returns). */
  function LastSegment(key: string): string {
    var parts := Split(key);
    parts[|parts| - 1]
  }

  /** Joining the segments of a split gives back the string. */
  lemma {:induction false} JoinSplit(s: string)
    ensures Join(Split(s)) == s
    decreases |s|
  {
    if s != [] {
      var rest := Split(s[1..]);
      JoinSplit(s[1..]);
      if s[0] == Sep {
        assert Split(s) == [""] + rest;
        assert Join(Split(s)) == "" + [Sep] + Join(rest);
      } else if |rest| == 1 {
        assert Split(s) == [[s[0]] + rest[0]];
      } else {
        var parts := Split(s);
        assert parts == [[s[0]] + rest[0]] + rest[1..];
        assert parts[1..] == rest[1..];
        assert Join(rest) == rest[0] + [Sep] + Join(rest[1..]);
        assert s == [s[0]] + s[1..];
      }
    }
  }

  /** A string without separator is its own single segment. */
  lemma {:induction false} SplitNoSep(s: string)
    requires NoSep(s)
    ensures Split(s) == [s]
    decreases |s|
  {
    if s != [] {
      assert NoSep(s[1..]) by { assert forall i :: 0 <= i < |s| - 1 ==> s[1..][i] == s[i + 1]; }
      SplitNoSep(s[1..]);
      assert s == [s[0]] + s[1..];
    }
  }

  /** How a split sees its first character. */
  lemma SplitCons(c: char, t: string)
    ensures Split([c] + t) ==
      if c == Sep then [""] + Split(t) else [[c] + Split(t)[0]] + Split(t)[1..]
  {
    assert ([c] + t)[0] == c && ([c] + t)[1..] == t;
  }

  /** Splitting at a separator splits both sides independently. */
  lemma {:induction false} SplitAround(a: string, b: string)
    ensures Split(a + [Sep] + b) == Split(a) + Split(b)
    decreases |a|
  {
    if a == [] {
      assert a + [Sep] + b == [Sep] + b;
      SplitCons(Sep, b);
    } else {
      var c, t := a[0], a[1..];
      assert a == [c] + t;
      assert a + [Sep] + b == [c] + (t + [Sep] + b);
      SplitAround(t, b);
      SplitCons(c, t + [Sep] + b);
      SplitCons(c, t);
      PrependSegments(c, c == Sep, Split(t), Split(b));
    }
  }

  /** How a leading character joins the first of the segments that follow
      (or starts an empty one, when it is the separator), regrouped. */
  lemma PrependSegments(c: char, isSep: bool, rt: seq<string>, rb: seq<string>)
    requires |rt| >= 1
    ensures (if isSep then [""] + (rt + rb) else [[c] + (rt + rb)[0]] + (rt + rb)[1..])
      == (if isSep then [""] + rt else [[c] + rt[0]] + rt[1..]) + rb
  {
    if !isSep {
      assert (rt + rb)[1..] == rt[1..] + rb;
    }
  }

  /** Splitting a join of separator-free segments gives back the segments. */
  lemma {:induction false} SplitJoin(parts: seq<string>)
    requires |parts| >= 1 && AllNoSep(parts)
    ensures Split(Join(parts)) == parts
    decreases |parts|
  {
    if |parts| == 1 {
      SplitNoSep(parts[0]);
    } else {
      SplitNoSep(parts[0]);
      SplitJoin(parts[1..]);
      SplitAround(parts[0], Join(parts[1..]));
      assert parts == [parts[0]] + parts[1..];
    }
  }

  /** A string splits into more than one segment exactly when it contains the
      separator (so `parts.length > 1` and `includes("-")` are one test). */
  lemma {:induction false} SplitMany(s: string)
    ensures |Split(s)| > 1 <==> Sep in s
    decreases |s|
  {
    if s != [] {
      SplitMany(s[1..]);
      assert s == [s[0]] + s[1..];
    }
  }

  /** Joining one more segment puts a separator before it. */
  lemma {:induction false} JoinSnoc(parts: seq<string>, last: string)
    requires |parts| >= 1
    ensures Join(parts + [last]) == Join(parts) + [Sep] + last
    decreases |parts|
  {
    if |parts| > 1 {
      JoinSnoc(parts[1..], last);
      assert (parts + [last])[1..] == parts[1..] + [last];
    }
  }

  /** A key with a separator is its parent key, the separator and a
      separator-free last segment; only the last segment is split off. */
  lemma ParentAndLast(key: string)
    requires Sep in key
    ensures key == ParentKey(key) + [Sep] + LastSegment(key)
    ensures NoSep(LastSegment(key))
    ensures |ParentKey(key)| < |key|
  {
    var parts := Split(key);
    SplitMany(key);
    JoinSplit(key);
    assert parts == parts[..|parts| - 1] + [parts[|parts| - 1]];
    JoinSnoc(parts[..|parts| - 1], parts[|parts| - 1]);
  }

  /** The parent and last segment of a two-segment flat key are its parts. */
  lemma FlatKeyParts(g: string, s: string)
    requires NoSep(g) && NoSep(s)
    ensures Split(FlatKey(g, s)) == [g, s]
    ensures ParentKey(FlatKey(g, s)) == g && LastSegment(FlatKey(g, s)) == s
    ensures Sep in FlatKey(g, s)
  {
    SplitJoin([g, s]);
    assert Join([g, s]) == FlatKey(g, s);
    assert FlatKey(g, s)[|g|] == Sep;
  }

  /** Name round trip: the handler recovers exactly the key a checkbox was
      named after, whatever the key contains, because the prefix has no '-'. */
  lemma NameRoundTrip(key: string)
    ensures KeyFromName(NameOf(key)) == key
  {
    SplitAround(NamePrefix, key);
    SplitNoSep(NamePrefix);
    assert Split(NameOf(key))[1..] == Split(key);
    JoinSplit(key);
  }

  /** The checkbox of sub-option `s` of group `g` is named `Ui-${g}-${s}`, and
      its change handler works on the flat key `${g}-${s}`. */
  lemma SubOptionNameRoundTrip(g: string, s: string)
    ensures KeyFromName(NamePrefix + [Sep] + g + [Sep] + s) == FlatKey(g, s)
  {
    assert NamePrefix + [Sep] + g + [Sep] + s == NameOf(FlatKey(g, s));
    NameRoundTrip(FlatKey(g, s));
  }
}
