/** Bounding the metadata of an audit event before it is written. */
module AuditBounds {
  const MAX_TEXT: nat := 2048
  const MAX_ITEMS: nat := 32

  /** What json can serialize.  A dictionary keeps its insertion order. */
  datatype Value =
    | Null
    | Bool(b: bool)
    | Num(n: int)
    | Str(s: string)
    | List(items: seq<Value>)
    | Dict(entries: seq<(string, Value)>)

  function Truncate(s: string): (t: string)
    ensures |t| <= MAX_TEXT
    ensures |s| <= MAX_TEXT ==> t == s
  {
    if |s| <= MAX_TEXT then s else s[..MAX_TEXT - 1] + ['\U{2026}']
  }

  function Take<T>(s: seq<T>, n: nat): seq<T> {
    if |s| <= n then s else s[..n]
  }

  ghost predicate DistinctKeys(d: seq<(string, Value)>) {
    forall i, j :: 0 <= i < j < |d| ==> d[i].0 != d[j].0
  }

  /** The position of a key, or the size when it is absent. */
  function Find(d: seq<(string, Value)>, key: string): (k: nat)
    ensures k <= |d|
    ensures k < |d| ==> d[k].0 == key
    ensures forall i :: 0 <= i < k ==> d[i].0 != key
  {
    if d == [] || d[0].0 == key then 0 else 1 + Find(d[1..], key)
  }

  /** Assignment to a dictionary key: an existing key keeps its place. */
  function Put(d: seq<(string, Value)>, entry: (string, Value)): (r: seq<(string, Value)>)
    ensures |d| <= |r| <= |d| + 1
    ensures forall i :: 0 <= i < |r| ==> r[i] == entry || (i < |d| && r[i] == d[i])
    ensures (forall i :: 0 <= i < |d| ==> d[i].0 != entry.0) ==> r == d + [entry]
  {
    var k := Find(d, entry.0);
    if k == |d| then d + [entry] else d[k := entry]
  }

  /** A dictionary comprehension: later pairs with the same key win. */
  function DictOf(pairs: seq<(string, Value)>): seq<(string, Value)> {
    if pairs == [] then [] else Put(DictOf(pairs[..|pairs| - 1]), pairs[|pairs| - 1])
  }

  /** `show` is Python's str() of a nested collection. */
  function Bounded(show: Value -> string, v: Value, depth: nat): Value
    decreases if depth < 2 then 2 - depth else 0
  {
    match v
    case Null => v
    case Bool(_) => v
    case Num(_) => v
    case Str(s) => Str(Truncate(s))
    case List(items) =>
      if depth >= 2 then Str(Truncate(show(v)))
      else
        var kept := Take(items, MAX_ITEMS);
        List(seq(|kept|, i requires 0 <= i < |kept| => Bounded(show, kept[i], depth + 1)))
    case Dict(entries) =>
      if depth >= 2 then Str(Truncate(show(v)))
      else
        var kept := Take(entries, MAX_ITEMS);
        Dict(DictOf(seq(|kept|, i requires 0 <= i < |kept| =>
                          (Truncate(kept[i].0), Bounded(show, kept[i].1, depth + 1)))))
  }

  /** At most two levels of collections, each of at most 32 items, and no text over the limit. */
  ghost predicate Within(v: Value, depth: nat)
    decreases if depth < 2 then 2 - depth else 0
  {
    match v
    case Null => true
    case Bool(_) => true
    case Num(_) => true
    case Str(s) => |s| <= MAX_TEXT
    case List(items) =>
      depth < 2 && |items| <= MAX_ITEMS && forall i :: 0 <= i < |items| ==> Within(items[i], depth + 1)
    case Dict(entries) =>
      && depth < 2 && |entries| <= MAX_ITEMS && DistinctKeys(entries)
      && forall i :: 0 <= i < |entries| ==> |entries[i].0| <= MAX_TEXT && Within(entries[i].1, depth + 1)
  }

  /** Every entry of a comprehension is one of its pairs. */
  lemma {:induction false} DictOfEntries(pairs: seq<(string, Value)>)
    ensures DistinctKeys(DictOf(pairs)) && |DictOf(pairs)| <= |pairs|
    ensures forall i :: 0 <= i < |DictOf(pairs)| ==> DictOf(pairs)[i] in pairs
  {
    if pairs != [] {
      var before := pairs[..|pairs| - 1];
      DictOfEntries(before);
      forall i | 0 <= i < |DictOf(pairs)| ensures DictOf(pairs)[i] in pairs {
        if i < |DictOf(before)| && DictOf(pairs)[i] == DictOf(before)[i] {
          assert DictOf(before)[i] in before;
        }
      }
    }
  }

  lemma {:induction false} DictOfDistinct(pairs: seq<(string, Value)>)
    requires DistinctKeys(pairs)
    ensures DictOf(pairs) == pairs
  {
    if pairs != [] {
      var before, last := pairs[..|pairs| - 1], pairs[|pairs| - 1];
      assert before + [last] == pairs;
      DictOfDistinct(before);
      assert forall i :: 0 <= i < |before| ==> before[i].0 != last.0;
    }
  }

  lemma TruncatedFits()
    ensures forall s :: |Truncate(s)| <= MAX_TEXT
  {
  }

  /** What is written is bounded in depth and in size, whatever the caller supplied. */
  lemma {:induction false} BoundedIsWithin(show: Value -> string, v: Value, depth: nat)
    ensures Within(Bounded(show, v, depth), depth)
    decreases if depth < 2 then 2 - depth else 0
  {
    hide DictOf, Truncate;
    TruncatedFits();
    if depth < 2 {
      match v
      case List(items) =>
        var kept := Take(items, MAX_ITEMS);
        forall i | 0 <= i < |kept| ensures Within(Bounded(show, kept[i], depth + 1), depth + 1) {
          BoundedIsWithin(show, kept[i], depth + 1);
        }
      case Dict(entries) =>
        var kept := Take(entries, MAX_ITEMS);
        var pairs := seq(|kept|, i requires 0 <= i < |kept| =>
                           (Truncate(kept[i].0), Bounded(show, kept[i].1, depth + 1)));
        DictOfEntries(pairs);
        forall p | p in pairs ensures |p.0| <= MAX_TEXT && Within(p.1, depth + 1) {
          var i :| 0 <= i < |pairs| && pairs[i] == p;
          BoundedIsWithin(show, kept[i].1, depth + 1);
        }
      case _ =>
    }
  }

  /** A bounded value passes through unchanged. */
  lemma {:induction false} WithinIsFixed(show: Value -> string, v: Value, depth: nat)
    requires Within(v, depth)
    ensures Bounded(show, v, depth) == v
    decreases if depth < 2 then 2 - depth else 0
  {
    match v
    case List(items) =>
      forall i | 0 <= i < |items| ensures Bounded(show, items[i], depth + 1) == items[i] {
        WithinIsFixed(show, items[i], depth + 1);
      }
      assert Bounded(show, v, depth).items == items;
    case Dict(entries) =>
      var pairs := seq(|entries|, i requires 0 <= i < |entries| =>
                         (Truncate(entries[i].0), Bounded(show, entries[i].1, depth + 1)));
      forall i | 0 <= i < |entries| ensures pairs[i] == entries[i] {
        WithinIsFixed(show, entries[i].1, depth + 1);
      }
      assert pairs == entries;
      DictOfDistinct(entries);
    case _ =>
  }

  /** Bounding twice is bounding once. */
  lemma BoundedIsIdempotent(show: Value -> string, v: Value, depth: nat)
    ensures Bounded(show, Bounded(show, v, depth), depth) == Bounded(show, v, depth)
  {
    BoundedIsWithin(show, v, depth);
    WithinIsFixed(show, Bounded(show, v, depth), depth);
  }

  // ----- What is kept -----------------------------------------------------------------------------------

  /** Long text keeps its first 2047 characters and ends in an ellipsis. */
  predicate AbridgesText(text: string, kept: string) {
    if |text| <= 2048 then kept == text
    else |kept| == 2048 && kept[..2047] == text[..2047] && kept[2047] == '\U{2026}'
  }

  /** Entry i is the last of these whose key is written as `key`. */
  ghost predicate LastWritten(entries: seq<(string, Value)>, key: string, i: nat) {
    && i < |entries| && AbridgesText(entries[i].0, key)
    && forall j :: i < j < |entries| ==> !AbridgesText(entries[j].0, key)
  }

  ghost predicate SomeWritten(entries: seq<(string, Value)>, key: string) {
    exists i :: 0 <= i < |entries| && AbridgesText(entries[i].0, key)
  }

  ghost predicate HasKeyFor(entries: seq<(string, Value)>, text: string) {
    exists k :: 0 <= k < |entries| && AbridgesText(text, entries[k].0)
  }

  /** `kept` is what is written of a value at this depth: scalars as they are, of each collection the first
      32 items, two levels deep, and below that the text of what str() makes of it. */
  ghost predicate Abridges(show: Value -> string, v: Value, kept: Value, depth: nat)
    decreases if depth < 2 then 2 - depth else 0
  {
    match v
    case Null => kept == v
    case Bool(_) => kept == v
    case Num(_) => kept == v
    case Str(s) => kept.Str? && AbridgesText(s, kept.s)
    case List(items) =>
      if depth >= 2 then kept.Str? && AbridgesText(show(v), kept.s)
      else
        && kept.List? && |kept.items| == (if |items| < 32 then |items| else 32)
        && forall i :: 0 <= i < |kept.items| ==> Abridges(show, items[i], kept.items[i], depth + 1)
    case Dict(entries) =>
      if depth >= 2 then kept.Str? && AbridgesText(show(v), kept.s)
      else
        var first := if |entries| <= 32 then entries else entries[..32];
        && kept.Dict? && DistinctKeys(kept.entries)
        && (forall i :: 0 <= i < |first| ==> HasKeyFor(kept.entries, first[i].0))
        && (forall k :: 0 <= k < |kept.entries| ==> SomeWritten(first, kept.entries[k].0))
        && (forall k, i :: 0 <= k < |kept.entries| && 0 <= i < |first| && LastWritten(first, kept.entries[k].0, i) ==>
              Abridges(show, first[i].1, kept.entries[k].1, depth + 1))
  }

  lemma TruncateAbridges(s: string, key: string)
    ensures AbridgesText(s, key) <==> key == Truncate(s)
  {
    var t := Truncate(s);
    if |s| > 2048 && AbridgesText(s, key) {
      assert key == key[..2047] + [key[2047]];
    }
  }

  lemma {:induction false} PutKeeps(d: seq<(string, Value)>, entry: (string, Value))
    ensures entry in Put(d, entry)
    ensures forall e :: e in d && e.0 != entry.0 ==> e in Put(d, entry)
  {
    var k, r := Find(d, entry.0), Put(d, entry);
    assert r[k] == entry;
    forall e | e in d && e.0 != entry.0 ensures e in r {
      var j :| 0 <= j < |d| && d[j] == e;
      assert r[j] == e;
    }
  }

  /** The last pair with a key is the one the comprehension keeps. */
  lemma {:induction false} DictOfKeepsLast(pairs: seq<(string, Value)>, i: nat)
    requires i < |pairs| && forall j :: i < j < |pairs| ==> pairs[j].0 != pairs[i].0
    ensures pairs[i] in DictOf(pairs)
  {
    var before, last := pairs[..|pairs| - 1], pairs[|pairs| - 1];
    PutKeeps(DictOf(before), last);
    if i < |before| {
      DictOfKeepsLast(before, i);
    }
  }

  lemma {:induction false} LastWithKey(pairs: seq<(string, Value)>, i: nat) returns (k: nat)
    requires i < |pairs|
    ensures i <= k < |pairs| && pairs[k].0 == pairs[i].0
    ensures forall j :: k < j < |pairs| ==> pairs[j].0 != pairs[k].0
    decreases |pairs|
  {
    if pairs[|pairs| - 1].0 == pairs[i].0 {
      k := |pairs| - 1;
    } else {
      k := LastWithKey(pairs[..|pairs| - 1], i);
    }
  }

  /** A comprehension over the written pairs of some entries keeps what it should. */
  lemma WrittenPairs(show: Value -> string, first: seq<(string, Value)>, pairs: seq<(string, Value)>, depth: nat)
    requires |pairs| == |first| && forall i :: 0 <= i < |first| ==>
               pairs[i].0 == Truncate(first[i].0) && Abridges(show, first[i].1, pairs[i].1, depth)
    ensures forall i :: 0 <= i < |first| ==> HasKeyFor(DictOf(pairs), first[i].0)
    ensures forall k :: 0 <= k < |DictOf(pairs)| ==> SomeWritten(first, DictOf(pairs)[k].0)
    ensures forall k, i :: 0 <= k < |DictOf(pairs)| && 0 <= i < |first| && LastWritten(first, DictOf(pairs)[k].0, i) ==>
              Abridges(show, first[i].1, DictOf(pairs)[k].1, depth)
  {
    hide Abridges, Truncate, DictOf, AbridgesText;
    var d := DictOf(pairs);
    DictOfEntries(pairs);
    forall i | 0 <= i < |first| ensures HasKeyFor(d, first[i].0) {
      var l := LastWithKey(pairs, i);
      DictOfKeepsLast(pairs, l);
      var k :| 0 <= k < |d| && d[k] == pairs[l];
      TruncateAbridges(first[i].0, d[k].0);
    }
    forall k | 0 <= k < |d| ensures SomeWritten(first, d[k].0) {
      var i :| 0 <= i < |pairs| && pairs[i] == d[k];
      TruncateAbridges(first[i].0, d[k].0);
    }
    forall k, i | 0 <= k < |d| && 0 <= i < |first| && LastWritten(first, d[k].0, i)
      ensures Abridges(show, first[i].1, d[k].1, depth)
    {
      LastIsKept(first, pairs, d, k, i);
    }
  }

  lemma LastIsKept(first: seq<(string, Value)>, pairs: seq<(string, Value)>, d: seq<(string, Value)>, k: nat, i: nat)
    requires |pairs| == |first| && forall j :: 0 <= j < |first| ==> pairs[j].0 == Truncate(first[j].0)
    requires d == DictOf(pairs) && k < |d| && i < |first| && LastWritten(first, d[k].0, i)
    ensures d[k] == pairs[i]
  {
    hide Truncate, DictOf, AbridgesText;
    DictOfEntries(pairs);
    TruncateAbridges(first[i].0, d[k].0);
    forall j | i < j < |pairs| ensures pairs[j].0 != pairs[i].0 {
      TruncateAbridges(first[j].0, d[k].0);
    }
    DictOfKeepsLast(pairs, i);
    var l :| 0 <= l < |d| && d[l] == pairs[i];
    assert l == k;
  }

  /** What is written of a value is exactly that: nothing within the bounds is lost or altered. */
  lemma {:induction false} BoundedAbridges(show: Value -> string, v: Value, depth: nat)
    ensures Abridges(show, v, Bounded(show, v, depth), depth)
    decreases if depth < 2 then 2 - depth else 0
  {
    hide Truncate, DictOf, DistinctKeys, SomeWritten, HasKeyFor, LastWritten, AbridgesText;
    match v
    case Null =>
    case Bool(_) =>
    case Num(_) =>
    case Str(s) => TruncateAbridges(s, Truncate(s));
    case List(items) =>
      if depth >= 2 {
        TruncateAbridges(show(v), Truncate(show(v)));
      } else {
        forall i | 0 <= i < |items| && i < 32
          ensures Abridges(show, items[i], Bounded(show, items[i], depth + 1), depth + 1)
        {
          BoundedAbridges(show, items[i], depth + 1);
        }
      }
    case Dict(entries) =>
      if depth >= 2 {
        TruncateAbridges(show(v), Truncate(show(v)));
      } else {
        var kept := Take(entries, MAX_ITEMS);
        var pairs := seq(|kept|, i requires 0 <= i < |kept| =>
                           (Truncate(kept[i].0), Bounded(show, kept[i].1, depth + 1)));
        forall i | 0 <= i < |kept| ensures Abridges(show, kept[i].1, pairs[i].1, depth + 1) {
          BoundedAbridges(show, kept[i].1, depth + 1);
        }
        DictOfEntries(pairs);
        WrittenPairs(show, kept, pairs, depth + 1);
        assert kept == if |entries| <= 32 then entries else entries[..32];
        assert Bounded(show, v, depth) == Dict(DictOf(pairs));
      }
  }

  // ----- Canonical form -----------------------------------------------------------------------------

  /** Code point order, which JSON keys are sorted by. */
  predicate Before(a: string, b: string) {
    a == [] || (b != [] && (a[0] < b[0] || (a[0] == b[0] && Before(a[1..], b[1..]))))
  }

  function Insert(entry: (string, Value), sorted: seq<(string, Value)>): seq<(string, Value)> {
    if sorted == [] || Before(entry.0, sorted[0].0) then [entry] + sorted
    else [sorted[0]] + Insert(entry, sorted[1..])
  }

  function SortByKey(entries: seq<(string, Value)>): seq<(string, Value)> {
    if entries == [] then [] else Insert(entries[0], SortByKey(entries[1..]))
  }

  /** The value as it comes back from JSON text that was written with sorted keys: every dictionary
      in it lists its keys in order. */
  function Canon(v: Value): Value {
    match v
    case List(items) => List(seq(|items|, i requires 0 <= i < |items| => Canon(items[i])))
    case Dict(entries) =>
      Dict(SortByKey(seq(|entries|, i requires 0 <= i < |entries| => (entries[i].0, Canon(entries[i].1)))))
    case _ => v
  }

  /** No dictionary in the value has a key twice, as Python's never have. */
  ghost predicate Proper(v: Value) {
    match v
    case List(items) => forall i :: 0 <= i < |items| ==> Proper(items[i])
    case Dict(entries) => DistinctKeys(entries) && forall i :: 0 <= i < |entries| ==> Proper(entries[i].1)
    case _ => true
  }

  lemma {:induction false} WithinIsProper(v: Value, depth: nat)
    requires Within(v, depth)
    ensures Proper(v)
    decreases if depth < 2 then 2 - depth else 0
  {
    match v
    case List(items) =>
      forall i | 0 <= i < |items| ensures Proper(items[i]) {
        WithinIsProper(items[i], depth + 1);
      }
    case Dict(entries) =>
      forall i | 0 <= i < |entries| ensures Proper(entries[i].1) {
        WithinIsProper(entries[i].1, depth + 1);
      }
    case _ =>
  }

  ghost predicate Ascending(entries: seq<(string, Value)>) {
    forall i, j :: 0 <= i < j < |entries| ==> Before(entries[i].0, entries[j].0)
  }

  lemma {:induction false} BeforeIsTotal(a: string, b: string)
    ensures Before(a, b) || Before(b, a)
  {
    if a != [] && b != [] && a[0] == b[0] {
      BeforeIsTotal(a[1..], b[1..]);
    }
  }

  lemma {:induction false} BeforeIsTransitive(a: string, b: string, c: string)
    requires Before(a, b) && Before(b, c)
    ensures Before(a, c)
  {
    if a != [] && b != [] && c != [] && a[0] == b[0] && b[0] == c[0] {
      BeforeIsTransitive(a[1..], b[1..], c[1..]);
    }
  }

  lemma {:induction false} InsertKeepsOrder(entry: (string, Value), sorted: seq<(string, Value)>)
    requires Ascending(sorted)
    ensures Ascending(Insert(entry, sorted)) && multiset(Insert(entry, sorted)) == multiset(sorted) + multiset{entry}
  {
    hide Before;
    var r := Insert(entry, sorted);
    if sorted == [] {
    } else if Before(entry.0, sorted[0].0) {
      forall j | 0 < j < |r| ensures Before(entry.0, r[j].0) {
        if j > 1 {
          assert r[j] == sorted[j - 1];
          BeforeIsTransitive(entry.0, sorted[0].0, sorted[j - 1].0);
        }
      }
      assert forall i :: 0 < i < |r| ==> r[i] == sorted[i - 1];
    } else {
      BeforeIsTotal(entry.0, sorted[0].0);
      InsertKeepsOrder(entry, sorted[1..]);
      var rest := Insert(entry, sorted[1..]);
      assert sorted == [sorted[0]] + sorted[1..];
      forall j | 0 < j < |r| ensures Before(sorted[0].0, r[j].0) {
        assert r[j] == rest[j - 1] && rest[j - 1] in multiset(rest);
        if rest[j - 1] != entry {
          assert rest[j - 1] in sorted[1..];
        }
      }
      assert forall i :: 0 < i < |r| ==> r[i] == rest[i - 1];
    }
  }

  /** The canonical form lists the same entries, in the order of their keys. */
  lemma {:induction false} SortedByKey(entries: seq<(string, Value)>)
    ensures Ascending(SortByKey(entries)) && multiset(SortByKey(entries)) == multiset(entries)
  {
    if entries != [] {
      SortedByKey(entries[1..]);
      InsertKeepsOrder(entries[0], SortByKey(entries[1..]));
      assert entries == [entries[0]] + entries[1..];
    }
  }

  lemma {:induction false} BeforeIsAntisymmetric(a: string, b: string)
    requires Before(a, b) && Before(b, a)
    ensures a == b
  {
    if a != [] {
      BeforeIsAntisymmetric(a[1..], b[1..]);
      assert a == [a[0]] + a[1..] && b == [b[0]] + b[1..];
    }
  }

  /** No two entries share a key, whatever their order. */
  ghost predicate KeysOnce(entries: multiset<(string, Value)>) {
    forall x, y :: x in entries && y in entries && x.0 == y.0 ==> x == y
  }

  /** The first entry comes before every entry there is. */
  lemma HeadIsFirst(a: seq<(string, Value)>, y: (string, Value))
    requires a != [] && Ascending(a) && y in a
    ensures y == a[0] || Before(a[0].0, y.0)
  {
    hide Before;
    var j :| 0 <= j < |a| && a[j] == y;
  }

  lemma SameHead(a: seq<(string, Value)>, b: seq<(string, Value)>)
    requires a != [] && b != [] && Ascending(a) && Ascending(b) && multiset(a) == multiset(b) && KeysOnce(multiset(a))
    ensures a[0] == b[0]
  {
    hide Before, Ascending;
    assert a[0] in multiset(b) && b[0] in multiset(a);
    HeadIsFirst(a, b[0]);
    HeadIsFirst(b, a[0]);
    if a[0] != b[0] {
      BeforeIsAntisymmetric(a[0].0, b[0].0);
    }
  }

  lemma TailOfOrdered(a: seq<(string, Value)>)
    requires a != [] && Ascending(a) && KeysOnce(multiset(a))
    ensures a == [a[0]] + a[1..] && multiset(a[1..]) == multiset(a) - multiset{a[0]}
    ensures Ascending(a[1..]) && KeysOnce(multiset(a[1..]))
  {
    hide Before;
    assert a == [a[0]] + a[1..];
  }

  /** There is one order by key of entries with distinct keys. */
  lemma {:induction false} OrderIsUnique(a: seq<(string, Value)>, b: seq<(string, Value)>)
    requires Ascending(a) && Ascending(b) && multiset(a) == multiset(b) && KeysOnce(multiset(a))
    ensures a == b
    decreases |a|
  {
    hide Before, Ascending, KeysOnce;
    assert |a| == |multiset(a)| == |multiset(b)| == |b|;
    if a != [] {
      SameHead(a, b);
      TailOfOrdered(a);
      TailOfOrdered(b);
      OrderIsUnique(a[1..], b[1..]);
    }
  }

  lemma DistinctKeysOnce(entries: seq<(string, Value)>)
    requires DistinctKeys(entries)
    ensures KeysOnce(multiset(entries))
  {
  }

  /** Two dictionaries with the same entries have the same canonical form, whatever the order in which
      their keys were inserted. */
  lemma CanonForgetsOrder(a: seq<(string, Value)>, b: seq<(string, Value)>)
    requires multiset(a) == multiset(b) && DistinctKeys(a)
    ensures SortByKey(a) == SortByKey(b)
  {
    SortedByKey(a);
    SortedByKey(b);
    DistinctKeysOnce(a);
    OrderIsUnique(SortByKey(a), SortByKey(b));
  }
}
