/** The two orderings `filterDoctors` may apply with the stable
    `Array.prototype.sort`: ascending fee (comparator `a.fee - b.fee`) and
    descending experience (comparator `b.experience - a.experience`). Both
    are "ascending by an integer key", the second with the key negated. The
    stable sort is modelled as an insertion sort. */
module DoctorSort {
  import opened Seqs
  import opened DoctorTypes

  /** The integer a comparator orders by: a comes before b when
      Key(a) < Key(b), and equal keys keep their order. */
  function Key(k: SortKey, d: Doctor): int {
    match k
    case Fees => d.fee
    case Experience => -d.experience
  }

  /** Non-decreasing by key. */
  predicate SortedBy(s: seq<Doctor>, k: SortKey) {
    forall i, j :: 0 <= i < j < |s| ==> Key(k, s[i]) <= Key(k, s[j])
  }

  /** The test "has key value v", used to observe the relative order of the
      doctors that tie on v. */
  function KeyIs(k: SortKey, v: int): Doctor -> bool {
    d => Key(k, d) == v
  }

  /** Inserts `x` before the first element whose key is not smaller, so that
      `x` precedes every element of `s` it ties with. */
  function Insert(x: Doctor, s: seq<Doctor>, k: SortKey): (r: seq<Doctor>)
    ensures multiset(r) == multiset(s) + multiset{x}
    decreases |s|
  {
    if |s| == 0 then [x]
    else if Key(k, x) <= Key(k, s[0]) then [x] + s
    else
      assert s == [s[0]] + s[1..];
      [s[0]] + Insert(x, s[1..], k)
  }

  /** Every key in the result of inserting `x` is bounded below by anything
      bounding `x` and all of `s`. */
  lemma InsertLowerBound(x: Doctor, s: seq<Doctor>, k: SortKey, b: int)
    requires b <= Key(k, x)
    requires forall i :: 0 <= i < |s| ==> b <= Key(k, s[i])
    ensures forall i :: 0 <= i < |Insert(x, s, k)| ==> b <= Key(k, Insert(x, s, k)[i])
  {
    var r := Insert(x, s, k);
    forall i | 0 <= i < |r|
      ensures b <= Key(k, r[i])
    {
      assert r[i] in multiset(r);
      if r[i] != x {
        assert r[i] in multiset(s);
        var j :| 0 <= j < |s| && s[j] == r[i];
      }
    }
  }

  /** Putting in front of a sorted list a key no larger than its first
      keeps it sorted. */
  lemma ConsSorted(x: Doctor, s: seq<Doctor>, k: SortKey)
    requires SortedBy(s, k)
    requires |s| == 0 || Key(k, x) <= Key(k, s[0])
    ensures SortedBy([x] + s, k)
  {
    var r := [x] + s;
    forall i, j | 0 <= i < j < |r|
      ensures Key(k, r[i]) <= Key(k, r[j])
    {
      assert r[j] == s[j - 1];
      if i > 0 {
        assert r[i] == s[i - 1];
      } else if j > 1 {
        assert Key(k, s[0]) <= Key(k, s[j - 1]);
      }
    }
  }

  /** Inserting into a sorted list keeps it sorted. */
  lemma {:induction false} InsertSorted(x: Doctor, s: seq<Doctor>, k: SortKey)
    requires SortedBy(s, k)
    ensures SortedBy(Insert(x, s, k), k)
    decreases |s|
  {
    if |s| > 0 && Key(k, x) > Key(k, s[0]) {
      var t := s[1..];
      assert SortedBy(t, k) by {
        forall i, j | 0 <= i < j < |t|
          ensures Key(k, t[i]) <= Key(k, t[j])
        {
          assert t[i] == s[i + 1] && t[j] == s[j + 1];
        }
      }
      var rest := Insert(x, t, k);
      InsertSorted(x, t, k);
      InsertLowerBound(x, t, k, Key(k, s[0]));
      assert Insert(x, s, k) == [s[0]] + rest;
      ConsSorted(s[0], rest, k);
    } else {
      ConsSorted(x, s, k);
      assert |s| > 0 ==> Insert(x, s, k) == [x] + s;
    }
  }

  /** `Array.prototype.sort` with a comparator consistent with `Key`. */
  function Sort(s: seq<Doctor>, k: SortKey): (r: seq<Doctor>)
    ensures multiset(r) == multiset(s)
    ensures SortedBy(r, k)
    decreases |s|
  {
    if |s| == 0 then []
    else
      assert s == [s[0]] + s[1..];
      var rest := Sort(s[1..], k);
      InsertSorted(s[0], rest, k);
      Insert(s[0], rest, k)
  }

  /** The doctors with a given key, in order, are the same after inserting
      `x` as when `x` is put in front. */
  lemma {:induction false} InsertStable(x: Doctor, s: seq<Doctor>, k: SortKey, v: int)
    ensures Filter(Insert(x, s, k), KeyIs(k, v)) == Filter([x] + s, KeyIs(k, v))
    decreases |s|
  {
    if |s| > 0 && Key(k, x) > Key(k, s[0]) {
      InsertStable(x, s[1..], k, v);
      InsertStableStep(x, s, k, v);
    } else {
      InsertFront(x, s, k);
    }
  }

  /** One step of `InsertStable`: when `x` passes the head of `s`, the two
      differ in key, so their order among the doctors with key `v` cannot
      change. */
  lemma InsertStableStep(x: Doctor, s: seq<Doctor>, k: SortKey, v: int)
    requires |s| > 0 && Key(k, x) > Key(k, s[0])
    requires Filter(Insert(x, s[1..], k), KeyIs(k, v)) == Filter([x] + s[1..], KeyIs(k, v))
    ensures Filter(Insert(x, s, k), KeyIs(k, v)) == Filter([x] + s, KeyIs(k, v))
  {
    var p := KeyIs(k, v);
    var s' := s[1..];
    var hx := if p(x) then [x] else [];
    var h0 := if p(s[0]) then [s[0]] else [];
    assert !(p(x) && p(s[0])) by {
      assert p(x) == (Key(k, x) == v) && p(s[0]) == (Key(k, s[0]) == v);
    }
    calc {
      Filter(Insert(x, s, k), p);
      Filter([s[0]] + Insert(x, s', k), p);
      { FilterCons(s[0], Insert(x, s', k), p); }
      h0 + Filter(Insert(x, s', k), p);
      h0 + Filter([x] + s', p);
      { FilterCons(x, s', p); }
      h0 + (hx + Filter(s', p));
      { SwapEmpty(h0, hx, Filter(s', p)); }
      hx + (h0 + Filter(s', p));
      { FilterCons(s[0], s', p); }
      hx + Filter([s[0]] + s', p);
      { HeadTail(s); }
      hx + Filter(s, p);
      { FilterCons(x, s, p); }
      Filter([x] + s, p);
    }
  }

  /** The sort is stable: among the doctors that tie on any key value, the
      order of the input is kept. */
  lemma {:induction false} SortStable(s: seq<Doctor>, k: SortKey, v: int)
    ensures Filter(Sort(s, k), KeyIs(k, v)) == Filter(s, KeyIs(k, v))
    decreases |s|
  {
    if |s| > 0 {
      var p := KeyIs(k, v);
      SortStable(s[1..], k, v);
      InsertStable(s[0], Sort(s[1..], k), k, v);
      FilterCons(s[0], Sort(s[1..], k), p);
      FilterCons(s[0], s[1..], p);
      assert s == [s[0]] + s[1..];
    }
  }

  /** Sorting an already sorted list changes nothing. */
  lemma {:induction false} SortSorted(s: seq<Doctor>, k: SortKey)
    requires SortedBy(s, k)
    ensures Sort(s, k) == s
    decreases |s|
  {
    if |s| > 0 {
      var t := s[1..];
      SortSorted(t, k);
      calc {
        Sort(s, k);
        Insert(s[0], Sort(t, k), k);
        Insert(s[0], t, k);
        { InsertFront(s[0], t, k); }
        [s[0]] + t;
        s;
      }
    }
  }

  lemma InsertFront(x: Doctor, t: seq<Doctor>, k: SortKey)
    requires |t| == 0 || Key(k, x) <= Key(k, t[0])
    ensures Insert(x, t, k) == [x] + t
  {
  }
}
