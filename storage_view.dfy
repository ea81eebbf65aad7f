/** The storage view the counters live in: the barrier's sub-view
    "counters/requests/" (vault/counters.go:32, 81, 101), reduced to the three
    calls the counter code makes, `List`, `Get` and `Put`. Keys are paths whose
    segments are separated by '/'; `List(prefix)` names the immediate children
    of `prefix`, a child that has children of its own keeping its trailing '/'.

    The view is a value. Its backend enumerates keys in the order they were
    first written (`order`), which need not be sorted, and any call may fail:
    the paths whose calls fail are given by `faults`. */
module StorageView {
  import opened Wrappers
  import opened Strings

  /** The bytes stored at a key: a JSON document that decodes to a record, or
      bytes that do not decode. */
  datatype Stored<T> = Encoded(record: T) | Garbled

  /** The paths at which the backend's List, Get and Put calls fail. */
  datatype Faults = Faults(list: set<string>, get: set<string>, put: set<string>)

  /** A backend on which no call fails. */
  function NoFaults(): Faults {
    Faults({}, {}, {})
  }

  datatype StorageError = ListFailed(prefix: string) | GetFailed(key: string) | PutFailed(key: string)

  /** A path segment as `List` returns it: no '/' except possibly a last one. */
  predicate IsSegment(s: string) {
    forall i | 0 <= i < |s| - 1 :: s[i] != '/'
  }

  /** The part of a relative path up to and including its first '/', or all of
      it when it has none. */
  function FirstSegment(s: string): (r: string)
    ensures IsSegment(r) && r <= s
    ensures r == s || (|r| > 0 && r[|r| - 1] == '/')
    ensures '/' !in s ==> r == s
  {
    if s == [] then []
    else if s[0] == '/' then ['/']
    else
      var rest := FirstSegment(s[1..]);
      assert s == [s[0]] + s[1..];
      [s[0]] + rest
  }

  /** One segment per key under `prefix`, in enumeration order, repeats included. */
  function Segments(keys: seq<string>, prefix: string): seq<string> {
    if keys == [] then []
    else (if prefix <= keys[0] then [FirstSegment(keys[0][|prefix|..])] else []) + Segments(keys[1..], prefix)
  }

  /** Drops repeated elements, keeping each first occurrence in place. */
  function Dedupe(s: seq<string>): (r: seq<string>)
    ensures Distinct(r)
    ensures forall x :: x in r <==> x in s
  {
    if s == [] then []
    else
      var d := Dedupe(s[..|s| - 1]);
      assert s == s[..|s| - 1] + [s[|s| - 1]];
      if s[|s| - 1] in d then d else d + [s[|s| - 1]]
  }

  /** What `List(prefix)` returns over the keys `keys`. */
  function Children(keys: seq<string>, prefix: string): seq<string> {
    Dedupe(Segments(keys, prefix))
  }

  datatype View<T> = View(entries: map<string, Stored<T>>, order: seq<string>, faults: Faults) {

    /** The enumeration order lists every stored key once. */
    ghost predicate Valid() {
      Distinct(order) && forall k :: k in entries <==> k in order
    }

    /** `view.List(ctx, prefix)`; an empty result stands for Go's nil slice. */
    function List(prefix: string): Result<seq<string>, StorageError> {
      if prefix in faults.list then Err(ListFailed(prefix)) else Ok(Children(order, prefix))
    }

    /** `view.Get(ctx, key)`: the stored bytes, or None when nothing is stored. */
    function Get(key: string): Result<Option<Stored<T>>, StorageError> {
      if key in faults.get then Err(GetFailed(key))
      else if key in entries then Ok(Some(entries[key]))
      else Ok(None)
    }

    /** `view.Put(ctx, entry)`: creates or replaces the whole value at `key`. */
    function Put(key: string, value: Stored<T>): Result<View<T>, StorageError> {
      if key in faults.put then Err(PutFailed(key))
      else Ok(View(entries[key := value], if key in entries then order else order + [key], faults))
    }
  }

  // ----- listing -----

  lemma {:induction false} SegmentSource(keys: seq<string>, prefix: string, c: string) returns (k: string)
    requires c in Segments(keys, prefix)
    ensures k in keys && prefix <= k && c == FirstSegment(k[|prefix|..])
  {
    if prefix <= keys[0] && c == FirstSegment(keys[0][|prefix|..]) {
      k := keys[0];
    } else {
      k := SegmentSource(keys[1..], prefix, c);
    }
  }

  lemma {:induction false} SegmentOfKey(keys: seq<string>, prefix: string, k: string)
    requires k in keys && prefix <= k
    ensures FirstSegment(k[|prefix|..]) in Segments(keys, prefix)
  {
    if keys[0] != k {
      SegmentOfKey(keys[1..], prefix, k);
    }
  }

  /** Every name that `List` returns comes from a stored key under the prefix. */
  lemma ChildSource(keys: seq<string>, prefix: string, c: string) returns (k: string)
    requires c in Children(keys, prefix)
    ensures k in keys && prefix <= k && c == FirstSegment(k[|prefix|..])
  {
    k := SegmentSource(keys, prefix, c);
  }

  /** Every stored key under the prefix shows up in the listing of the prefix. */
  lemma ChildOfKey(keys: seq<string>, prefix: string, k: string)
    requires k in keys && prefix <= k
    ensures FirstSegment(k[|prefix|..]) in Children(keys, prefix)
  {
    SegmentOfKey(keys, prefix, k);
  }

  /** A listed name is a single segment, and appending it to the prefix either
      names a stored key or ends in '/' (it is a directory). */
  lemma ChildShape(keys: seq<string>, prefix: string, c: string)
    requires c in Children(keys, prefix)
    ensures IsSegment(c)
    ensures prefix + c in keys || (|c| > 0 && c[|c| - 1] == '/')
  {
    var k := ChildSource(keys, prefix, c);
    assert prefix + k[|prefix|..] == k;
  }

  /** Taking the first segment keeps the order of paths, though not always
      strictly. */
  lemma {:induction false} FirstSegmentMonotone(s: string, t: string)
    requires Less(s, t)
    ensures LessEq(FirstSegment(s), FirstSegment(t))
  {
    if s != [] && s[0] == t[0] && s[0] != '/' {
      FirstSegmentMonotone(s[1..], t[1..]);
      LessCons(s[0], FirstSegment(s[1..]), FirstSegment(t[1..]));
    }
  }

  /** Two keys under a prefix compare as what follows the prefix does. */
  lemma LessUnderPrefix(prefix: string, a: string, b: string)
    requires prefix <= a && prefix <= b
    ensures Less(a, b) <==> Less(a[|prefix|..], b[|prefix|..])
  {
    assert a == prefix + a[|prefix|..] && b == prefix + b[|prefix|..];
    LessAppend(prefix, a[|prefix|..], prefix, b[|prefix|..]);
    LessIrreflexive(prefix);
  }

  /** Keys enumerated in ascending order give segments in ascending order. */
  lemma {:induction false} SegmentsSorted(keys: seq<string>, prefix: string)
    requires Sorted(keys)
    ensures Sorted(Segments(keys, prefix))
  {
    if keys != [] {
      var rest := Segments(keys[1..], prefix);
      SegmentsSorted(keys[1..], prefix);
      if prefix <= keys[0] {
        var head := FirstSegment(keys[0][|prefix|..]);
        forall c | c in rest
          ensures LessEq(head, c)
        {
          var k := SegmentSource(keys[1..], prefix, c);
          var j :| 0 <= j < |keys[1..]| && keys[1..][j] == k;
          assert LessEq(keys[0], keys[j + 1]);
          if keys[0] != k {
            LessUnderPrefix(prefix, keys[0], k);
            FirstSegmentMonotone(keys[0][|prefix|..], k[|prefix|..]);
          }
        }
        ConsSorted(head, rest);
      } else {
        assert Segments(keys, prefix) == [] + rest;
      }
    }
  }

  /** Dropping repeats from a sorted sequence keeps it sorted. */
  lemma {:induction false} DedupeSorted(s: seq<string>)
    requires Sorted(s)
    ensures Sorted(Dedupe(s))
  {
    if s != [] {
      var init := s[..|s| - 1];
      var last := s[|s| - 1];
      DedupeSorted(init);
      var d := Dedupe(init);
      forall y | y in d
        ensures LessEq(y, last)
      {
        var i :| 0 <= i < |init| && init[i] == y;
        assert s[i] == y;
      }
      SnocSorted(d, last);
    }
  }

  /** A backend that enumerates its keys in ascending order lists every
      directory in ascending order. */
  lemma ChildrenSorted(keys: seq<string>, prefix: string)
    requires Sorted(keys)
    ensures Sorted(Children(keys, prefix))
  {
    SegmentsSorted(keys, prefix);
    DedupeSorted(Segments(keys, prefix));
  }

  // ----- storing -----

  /** A Put changes what Get returns at its own key and nowhere else. */
  lemma PutThenGet<T>(v: View<T>, key: string, value: Stored<T>, k: string)
    requires v.Put(key, value).Ok?
    ensures v.Put(key, value).value.Get(k) == if k == key && k !in v.faults.get then Ok(Some(value)) else v.Get(k)
  {
  }

  lemma PutKeepsValid<T>(v: View<T>, key: string, value: Stored<T>)
    requires v.Valid() && v.Put(key, value).Ok?
    ensures v.Put(key, value).value.Valid()
  {
  }

  /** A second Put at a key leaves the view as if only the second had happened. */
  lemma PutOverwrites<T>(v: View<T>, key: string, first: Stored<T>, second: Stored<T>)
    requires v.Put(key, first).Ok?
    ensures v.Put(key, first).value.Put(key, second) == v.Put(key, second)
  {
    assert v.entries[key := first][key := second] == v.entries[key := second];
  }
}
