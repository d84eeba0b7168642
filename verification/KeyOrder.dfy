/** Key/value entries listed in increasing key order, and the map such a list denotes. */
module KeyOrder {
  import opened CStrings

  type Entry = (CString, CString)

  ghost predicate Sorted(s: seq<Entry>) {
    forall i, j | 0 <= i < j < |s| :: Less(s[i].0, s[j].0)
  }

  ghost predicate AllBelow(s: seq<Entry>, k: CString) {
    forall i | 0 <= i < |s| :: Less(s[i].0, k)
  }

  ghost predicate AllAbove(s: seq<Entry>, k: CString) {
    forall i | 0 <= i < |s| :: Less(k, s[i].0)
  }

  lemma ShiftNext(b: seq<Entry>, e: Entry, y: Entry, r: seq<Entry>)
    ensures (b + [e] + []) + [y] + r == b + [e] + ([y] + r)
  {
  }

  lemma MoveNext(b: seq<Entry>, y: Entry, x: seq<Entry>, a: seq<Entry>)
    ensures (b + [y]) + x + a == b + ([y] + (x + a))
  {
  }

  lemma JoinAround(b: seq<Entry>, l: seq<Entry>, r: seq<Entry>, a: seq<Entry>)
    ensures b + (l + r) + a == (b + l) + (r + a)
  {
  }

  ghost function ToMap(s: seq<Entry>): map<CString, CString> {
    if s == [] then map[] else ToMap(s[..|s| - 1])[s[|s| - 1].0 := s[|s| - 1].1]
  }

  /** A sorted list denotes the one map that sends each listed key to its value. */
  lemma {:induction false} ToMapExact(s: seq<Entry>)
    requires Sorted(s)
    ensures forall i | 0 <= i < |s| :: s[i].0 in ToMap(s) && ToMap(s)[s[i].0] == s[i].1
    ensures forall k | k in ToMap(s) :: exists i :: 0 <= i < |s| && s[i].0 == k
    ensures |ToMap(s)| == |s|
  {
    if s != [] {
      var r, e := s[..|s| - 1], s[|s| - 1];
      ToMapExact(r);
      forall i | 0 <= i < |r|
        ensures s[i].0 != e.0
      {
        assert Less(s[i].0, e.0);
        Trichotomy(s[i].0, e.0);
      }
      assert e.0 !in ToMap(r);
      forall i | 0 <= i < |s|
        ensures s[i].0 in ToMap(s) && ToMap(s)[s[i].0] == s[i].1
      {
        if i < |r| {
          assert s[i] == r[i];
        }
      }
      forall k | k in ToMap(s)
        ensures exists i :: 0 <= i < |s| && s[i].0 == k
      {
        if k == e.0 {
          assert s[|s| - 1].0 == k;
        } else {
          assert k in ToMap(r);
          var i :| 0 <= i < |r| && r[i].0 == k;
          assert s[i].0 == k;
        }
      }
    }
  }

  /** A key between the two halves of a sorted list is not in it ... */
  lemma Absent(b: seq<Entry>, a: seq<Entry>, k: CString)
    requires Sorted(b + a) && AllBelow(b, k) && AllAbove(a, k)
    ensures k !in ToMap(b + a)
  {
    var s := b + a;
    ToMapExact(s);
    forall i | 0 <= i < |s|
      ensures s[i].0 != k
    {
      Trichotomy(s[i].0, k);
      if i < |b| {
        assert s[i] == b[i];
      } else {
        assert s[i] == a[i - |b|];
      }
    }
  }

  lemma {:induction false} ToMapInsert(b: seq<Entry>, e: Entry, a: seq<Entry>)
    requires forall i | 0 <= i < |a| :: a[i].0 != e.0
    ensures ToMap(b + [e] + a) == ToMap(b + a)[e.0 := e.1]
    decreases |a|
  {
    if a == [] {
      assert b + [e] + a == b + [e] && b + a == b && (b + [e])[..|b|] == b;
    } else {
      var r, l := a[..|a| - 1], a[|a| - 1];
      ToMapInsert(b, e, r);
      assert (b + [e] + a)[..|b| + |a|] == b + [e] + r;
      assert (b + a)[..|b| + |r|] == b + r;
    }
  }

  /** ... and inserting it there keeps the list sorted and adds exactly that pair. */
  lemma InsertEntry(b: seq<Entry>, e: Entry, a: seq<Entry>)
    requires Sorted(b + a) && AllBelow(b, e.0) && AllAbove(a, e.0)
    ensures Sorted(b + [e] + a)
    ensures e.0 !in ToMap(b + a)
    ensures ToMap(b + [e] + a) == ToMap(b + a)[e.0 := e.1]
  {
    Absent(b, a, e.0);
    SortedInsert(b, e, a);
    forall i | 0 <= i < |a|
      ensures a[i].0 != e.0
    {
      Trichotomy(e.0, a[i].0);
    }
    ToMapInsert(b, e, a);
  }

  lemma SortedInsert(b: seq<Entry>, e: Entry, a: seq<Entry>)
    requires Sorted(b + a) && AllBelow(b, e.0) && AllAbove(a, e.0)
    ensures Sorted(b + [e] + a)
  {
    var s, s' := b + a, b + [e] + a;
    forall i, j | 0 <= i < j < |s'|
      ensures Less(s'[i].0, s'[j].0)
    {
      if i == |b| {
        assert s'[j] == a[j - |b| - 1];
      } else if j == |b| {
        assert s'[i] == b[i];
      } else {
        var i', j' := if i < |b| then i else i - 1, if j < |b| then j else j - 1;
        assert s'[i] == s[i'] && s'[j] == s[j'];
      }
    }
  }

  /** The parts of a sorted list around one entry: the entry is found, and removing it removes its pair. */
  lemma RemoveEntry(b: seq<Entry>, e: Entry, a: seq<Entry>)
    requires Sorted(b + [e] + a)
    ensures AllBelow(b, e.0) && AllAbove(a, e.0) && Sorted(b + a)
    ensures e.0 in ToMap(b + [e] + a) && ToMap(b + [e] + a)[e.0] == e.1
    ensures ToMap(b + a) == ToMap(b + [e] + a) - {e.0}
  {
    SortedRemove(b, e, a);
    InsertEntry(b, e, a);
  }

  lemma SortedRemove(b: seq<Entry>, e: Entry, a: seq<Entry>)
    requires Sorted(b + [e] + a)
    ensures AllBelow(b, e.0) && AllAbove(a, e.0) && Sorted(b + a)
  {
    var s, s' := b + a, b + [e] + a;
    assert s'[|b|] == e;
    forall i | 0 <= i < |b|
      ensures Less(b[i].0, e.0)
    {
      assert s'[i] == b[i];
    }
    forall i | 0 <= i < |a|
      ensures Less(e.0, a[i].0)
    {
      assert s'[|b| + 1 + i] == a[i];
    }
    forall i, j | 0 <= i < j < |s|
      ensures Less(s[i].0, s[j].0)
    {
      var i', j' := if i < |b| then i else i + 1, if j < |b| then j else j + 1;
      assert s[i] == s'[i'] && s[j] == s'[j'];
    }
  }

  /** Changing the value of one entry changes that pair only. */
  lemma UpdateEntry(b: seq<Entry>, e: Entry, v: CString, a: seq<Entry>)
    requires Sorted(b + [e] + a)
    ensures Sorted(b + [(e.0, v)] + a)
    ensures ToMap(b + [(e.0, v)] + a) == ToMap(b + [e] + a)[e.0 := v]
  {
    RemoveEntry(b, e, a);
    InsertEntry(b, (e.0, v), a);
    InsertEntry(b, e, a);
  }
}
