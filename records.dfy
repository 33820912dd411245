/**
 * The health-record list as the page keeps it: a sequence of
 * `{date, weight, fat, muscle}` records in insertion order, looked up by date.
 * This module holds the list operations the handlers run (`some`, `findIndex`,
 * `find`, `filter` and the import merge loop), each as a function that defines
 * it and, where the handler runs a loop, a method proved equal to it.
 */
module Records {
  import opened Wrappers
  import opened Decimal

  /** A date as the date input yields it, "YYYY-MM-DD"; "" when nothing is chosen. */
  type Date = string

  datatype Record = Record(date: Date, weight: Tenths, fat: Tenths, muscle: Tenths)

  /** `s.some(r => r.date === d)` */
  predicate HasDate(s: seq<Record>, d: Date)
  {
    exists i :: 0 <= i < |s| && s[i].date == d
  }

  /** No two records share a date. */
  predicate DatesUnique(s: seq<Record>)
  {
    forall i, j :: 0 <= i < j < |s| ==> s[i].date != s[j].date
  }

  /** `s.findIndex(r => r.date === d)`: the first index carrying `d`, or -1. */
  function IndexOf(s: seq<Record>, d: Date): (r: int)
    ensures -1 <= r < |s|
    ensures r >= 0 <==> HasDate(s, d)
    ensures r >= 0 ==> s[r].date == d && forall j :: 0 <= j < r ==> s[j].date != d
    decreases |s|
  {
    if s == [] then -1
    else if s[0].date == d then 0
    else
      var k := IndexOf(s[1..], d);
      assert forall j :: 1 <= j < |s| ==> s[j] == s[1..][j - 1];
      if k < 0 then -1 else k + 1
  }

  /** `s.find(r => r.date === d)`: the first record carrying `d`, if any. */
  function FirstWith(s: seq<Record>, d: Date): (r: Option<Record>)
  {
    var k := IndexOf(s, d);
    if k < 0 then None else Some(s[k])
  }

  /** `s.filter(r => r.date !== d)` */
  function Without(s: seq<Record>, d: Date): (r: seq<Record>)
    decreases |s|
  {
    if s == [] then []
    else (if s[0].date == d then [] else [s[0]]) + Without(s[1..], d)
  }

  /** The update handler's list change: the first record carrying `d`, if any, becomes `rec`. */
  function ReplaceFirst(s: seq<Record>, d: Date, rec: Record): (r: seq<Record>)
    ensures |r| == |s|
    ensures HasDate(s, d) ==> r[IndexOf(s, d)] == rec
    ensures forall j :: 0 <= j < |s| && j != IndexOf(s, d) ==> r[j] == s[j]
  {
    var k := IndexOf(s, d);
    if k < 0 then s else s[k := rec]
  }

  /**
   * The import merge: walk the imported records in order and append each one whose
   * date is not yet in the list built so far.
   */
  function Merge(cur: seq<Record>, imported: seq<Record>): (r: seq<Record>)
    decreases |imported|
  {
    if imported == [] then cur
    else
      var next := if HasDate(cur, imported[0].date) then cur else cur + [imported[0]];
      Merge(next, imported[1..])
  }

  /** `a` is `b` with some elements dropped and the rest kept in order. */
  predicate IsSubsequence<T(==)>(a: seq<T>, b: seq<T>)
    decreases |b|
  {
    a == [] || (b != [] && ((a[0] == b[0] && IsSubsequence(a[1..], b[1..])) || IsSubsequence(a, b[1..])))
  }

  // ---------------------------------------------------------------------------
  // The loops the handlers run

  /** `data.some(d => d.date === date)` */
  method ContainsDate(s: seq<Record>, d: Date) returns (found: bool)
    ensures found == HasDate(s, d)
  {
    found := false;
    var i := 0;
    while i < |s| && !found
      invariant 0 <= i <= |s|
      invariant found ==> HasDate(s, d)
      invariant !found ==> forall j :: 0 <= j < i ==> s[j].date != d
    {
      found := s[i].date == d;
      i := i + 1;
    }
  }

  /** `data.findIndex(d => d.date === selectedDate)` */
  method FindIndex(s: seq<Record>, d: Date) returns (idx: int)
    ensures idx == IndexOf(s, d)
  {
    var i := 0;
    while i < |s| && s[i].date != d
      invariant 0 <= i <= |s|
      invariant forall j :: 0 <= j < i ==> s[j].date != d
    {
      i := i + 1;
    }
    idx := if i < |s| then i else -1;
    var k := IndexOf(s, d);
    assert k >= 0 ==> s[k].date == d;
  }

  /** `data.filter(d => d.date !== selectedDate)` */
  method Filter(s: seq<Record>, d: Date) returns (kept: seq<Record>)
    ensures kept == Without(s, d)
  {
    kept := [];
    var i := 0;
    while i < |s|
      invariant 0 <= i <= |s|
      invariant kept + Without(s[i..], d) == Without(s, d)
    {
      assert s[i..][1..] == s[i + 1..];
      if s[i].date != d {
        kept := kept + [s[i]];
      }
      i := i + 1;
    }
    assert s[|s|..] == [];
  }

  /** `merged = [...cur]; imported.forEach(n => { if (!merged.some(..)) merged.push(n) })` */
  method MergeInto(cur: seq<Record>, imported: seq<Record>) returns (merged: seq<Record>)
    ensures merged == Merge(cur, imported)
  {
    merged := cur;
    var i := 0;
    while i < |imported|
      invariant 0 <= i <= |imported|
      invariant Merge(merged, imported[i..]) == Merge(cur, imported)
    {
      assert imported[i..][1..] == imported[i + 1..];
      var present := ContainsDate(merged, imported[i].date);
      if !present {
        merged := merged + [imported[i]];
      }
      i := i + 1;
    }
    assert imported[|imported|..] == [];
  }

  // ---------------------------------------------------------------------------
  // Properties of the list operations

  /** `find` and `some` agree: a first record exists exactly when the date is present. */
  lemma FirstWithSpec(s: seq<Record>, d: Date)
    ensures FirstWith(s, d).Some? <==> HasDate(s, d)
    ensures FirstWith(s, d).Some? ==> FirstWith(s, d).value in s && FirstWith(s, d).value.date == d
    ensures FirstWith(s, d).Some? ==>
      exists k :: 0 <= k < |s| && FirstWith(s, d).value == s[k] && s[k].date == d
        && forall j :: 0 <= j < k ==> s[j].date != d
  {
    if HasDate(s, d) {
      var k := IndexOf(s, d);
      assert FirstWith(s, d).value == s[k];
    }
  }

  /** Appending a record with a new date keeps the dates unique (the save handler's guard). */
  lemma AppendKeepsUnique(s: seq<Record>, rec: Record)
    requires DatesUnique(s) && !HasDate(s, rec.date)
    ensures DatesUnique(s + [rec]) && HasDate(s + [rec], rec.date)
  {
    assert (s + [rec])[|s|] == rec;
  }

  /** Filtering keeps exactly the records of other dates, with their multiplicities. */
  lemma {:induction false} WithoutCounts(s: seq<Record>, d: Date)
    ensures forall r :: multiset(Without(s, d))[r] == if r.date == d then 0 else multiset(s)[r]
    decreases |s|
  {
    if s != [] {
      WithoutCounts(s[1..], d);
      assert s == [s[0]] + s[1..];
    }
  }

  /** Filtering keeps the surviving records in their original order. */
  lemma {:induction false} WithoutKeepsOrder(s: seq<Record>, d: Date)
    ensures IsSubsequence(Without(s, d), s)
    decreases |s|
  {
    if s != [] {
      WithoutKeepsOrder(s[1..], d);
      if s[0].date != d {
        assert Without(s, d) == [s[0]] + Without(s[1..], d);
        assert Without(s, d)[1..] == Without(s[1..], d);
      } else {
        assert Without(s, d) == Without(s[1..], d);
      }
    }
  }

  /** After filtering no record carries the removed date, and unique dates stay unique. */
  lemma WithoutRemovesDate(s: seq<Record>, d: Date)
    ensures !HasDate(Without(s, d), d)
    ensures DatesUnique(s) ==> DatesUnique(Without(s, d))
  {
    WithoutCounts(s, d);
    var w := Without(s, d);
    forall i | 0 <= i < |w| ensures w[i].date != d && multiset(s)[w[i]] > 0 {
      assert w[i] in multiset(w);
    }
    if DatesUnique(s) {
      WithoutUnique(s, d);
    }
  }

  lemma {:induction false} WithoutUnique(s: seq<Record>, d: Date)
    requires DatesUnique(s)
    ensures DatesUnique(Without(s, d))
    ensures forall i :: 0 <= i < |Without(s, d)| ==> Without(s, d)[i] in s
    decreases |s|
  {
    if s != [] {
      WithoutUnique(s[1..], d);
      var t := Without(s[1..], d);
      forall i | 0 <= i < |t| ensures t[i].date != s[0].date {
        var j :| 0 <= j < |s[1..]| && s[1..][j] == t[i];
        assert s[j + 1] == t[i];
      }
    }
  }

  /** Replacing the first record of date `d` keeps uniqueness when the new date is `d` or is new. */
  lemma ReplaceFirstKeepsUnique(s: seq<Record>, d: Date, rec: Record)
    requires DatesUnique(s)
    requires rec.date == d || !HasDate(s, rec.date)
    ensures DatesUnique(ReplaceFirst(s, d, rec))
  {
    var k := IndexOf(s, d);
    if k >= 0 {
      var r := ReplaceFirst(s, d, rec);
      forall i, j | 0 <= i < j < |r| ensures r[i].date != r[j].date {
        if i != k && j != k {
          assert r[i] == s[i] && r[j] == s[j];
        }
      }
    }
  }

  /** The update handler does not re-check the new date: it can create a duplicate. */
  lemma ReplaceFirstMayDuplicate()
    ensures exists s: seq<Record>, d: Date, rec: Record ::
      DatesUnique(s) && !DatesUnique(ReplaceFirst(s, d, rec))
  {
    var a := Record("2024-01-01", 600, 250, 300);
    var b := Record("2024-01-02", 610, 240, 310);
    var s := [a, b];
    var rec := Record("2024-01-02", 605, 245, 305);
    assert IndexOf(s, a.date) == 0;
    assert ReplaceFirst(s, a.date, rec) == [rec, b];
    assert ReplaceFirst(s, a.date, rec)[0].date == ReplaceFirst(s, a.date, rec)[1].date;
    assert DatesUnique(s) && !DatesUnique(ReplaceFirst(s, a.date, rec));
  }

  /** The merge keeps the current records, unchanged and in order, as its prefix. */
  lemma {:induction false} MergeExtends(cur: seq<Record>, imported: seq<Record>)
    ensures |Merge(cur, imported)| >= |cur|
    ensures Merge(cur, imported)[..|cur|] == cur
    decreases |imported|
  {
    if imported != [] {
      var next := if HasDate(cur, imported[0].date) then cur else cur + [imported[0]];
      MergeExtends(next, imported[1..]);
      assert next[..|cur|] == cur;
    }
  }

  /** Every merged record comes from the current list or from the import. */
  lemma {:induction false} MergeSources(cur: seq<Record>, imported: seq<Record>)
    ensures forall r :: r in Merge(cur, imported) ==> r in cur || r in imported
    decreases |imported|
  {
    if imported != [] {
      var next := if HasDate(cur, imported[0].date) then cur else cur + [imported[0]];
      MergeSources(next, imported[1..]);
      forall r | r in next ensures r in cur || r in imported {
        assert imported[0] in imported;
      }
      forall r | r in imported[1..] ensures r in imported {
      }
    }
  }

  /** Merging unique dates gives unique dates: duplicates inside the import are dropped. */
  lemma {:induction false} MergeKeepsUnique(cur: seq<Record>, imported: seq<Record>)
    requires DatesUnique(cur)
    ensures DatesUnique(Merge(cur, imported))
    decreases |imported|
  {
    if imported != [] {
      var next := if HasDate(cur, imported[0].date) then cur else cur + [imported[0]];
      if !HasDate(cur, imported[0].date) {
        AppendKeepsUnique(cur, imported[0]);
      }
      MergeKeepsUnique(next, imported[1..]);
    }
  }

  /** What a lookup by date finds in a list that starts with `p`. */
  lemma FirstWithPrefix(p: seq<Record>, q: seq<Record>, d: Date)
    requires HasDate(p, d)
    ensures FirstWith(p + q, d) == FirstWith(p, d)
  {
    var k := IndexOf(p, d);
    var k' := IndexOf(p + q, d);
    assert (p + q)[k] == p[k];
  }

  /**
   * First wins: after the merge, the record found for a date is the current one when
   * the date was already present, otherwise the first imported record of that date.
   */
  lemma {:induction false} MergeFirstWins(cur: seq<Record>, imported: seq<Record>, d: Date)
    ensures FirstWith(Merge(cur, imported), d)
         == if HasDate(cur, d) then FirstWith(cur, d) else FirstWith(imported, d)
    decreases |imported|
  {
    var m := Merge(cur, imported);
    MergeExtends(cur, imported);
    if HasDate(cur, d) {
      assert m == cur + m[|cur|..];
      FirstWithPrefix(cur, m[|cur|..], d);
    } else if imported != [] {
      var x := imported[0];
      var next := if HasDate(cur, x.date) then cur else cur + [x];
      MergeFirstWins(next, imported[1..], d);
      assert forall j :: 1 <= j < |imported| ==> imported[j] == imported[1..][j - 1];
      if x.date == d {
        assert next == cur + [x] && next[|cur|] == x;
        assert HasDate(next, d);
        assert IndexOf(next, d) == |cur|;
        assert FirstWith(next, d) == Some(x);
      } else {
        assert !HasDate(next, d);
      }
    }
  }
}
