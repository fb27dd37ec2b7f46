/**
 * The two listings of the scan view.
 *
 * `showResultList` sorts the records by `Number(id)` and then by timestamp
 * and keeps, with `filter`/`findIndex`, the first record of each identifier:
 * one line per identifier, in ascending identifier order, carrying its
 * earliest timestamp.
 *
 * The startup listing sorts all records newest first by timestamp.
 */
module Listing {
  import opened Payload
  import opened Order
  import opened Items

  // ---------------------------------------------------------------------
  // Order on records
  // ---------------------------------------------------------------------

  /** The comparator handed to `sort` by `showResultList`. */
  function Compare(a: Item, b: Item): int
    requires WellFormed(a) && WellFormed(b)
  {
    var idCompare := DecimalValue(a.id) - DecimalValue(b.id);
    if idCompare != 0 then idCompare
    else if LexLess(a.timestamp, b.timestamp) then -1
    else if LexLess(b.timestamp, a.timestamp) then 1
    else 0
  }

  /** Strict order on records: by identifier string, then by timestamp string. */
  predicate ItemLess(a: Item, b: Item) {
    LexLess(a.id, b.id) || (a.id == b.id && LexLess(a.timestamp, b.timestamp))
  }

  lemma ItemLessIrreflexive(a: Item)
    ensures !ItemLess(a, a)
  {
    LexLessIrreflexive(a.id);
    LexLessIrreflexive(a.timestamp);
  }

  lemma ItemLessAsymmetric(a: Item, b: Item)
    ensures ItemLess(a, b) ==> !ItemLess(b, a)
  {
    LexLessIrreflexive(a.id);
    if LexLess(a.id, b.id) {
      LexLessAsymmetric(a.id, b.id);
    } else if a.id == b.id && LexLess(a.timestamp, b.timestamp) {
      LexLessAsymmetric(a.timestamp, b.timestamp);
    }
  }

  lemma ItemLessTransitive(a: Item, b: Item, c: Item)
    ensures ItemLess(a, b) && ItemLess(b, c) ==> ItemLess(a, c)
  {
    if LexLess(a.id, b.id) && LexLess(b.id, c.id) {
      LexLessTransitive(a.id, b.id, c.id);
    } else if a.id == b.id && b.id == c.id && LexLess(a.timestamp, b.timestamp) && LexLess(b.timestamp, c.timestamp) {
      LexLessTransitive(a.timestamp, b.timestamp, c.timestamp);
    }
  }

  lemma ItemLessTotal(a: Item, b: Item)
    ensures a == b || ItemLess(a, b) || ItemLess(b, a)
  {
    LexLessTotal(a.id, b.id);
    LexLessTotal(a.timestamp, b.timestamp);
  }

  /**
   * On well-formed records the source comparator agrees with `ItemLess`,
   * and it returns 0 only for identical records, so the sort has no ties
   * that stability would have to resolve.
   */
  lemma CompareSign(a: Item, b: Item)
    requires WellFormed(a) && WellFormed(b)
    ensures Compare(a, b) < 0 <==> ItemLess(a, b)
    ensures Compare(a, b) > 0 <==> ItemLess(b, a)
    ensures Compare(a, b) == 0 <==> a == b
  {
    IdentifierOrder(a.id, b.id);
    IdentifierOrder(b.id, a.id);
    LexLessTotal(a.timestamp, b.timestamp);
    LexLessIrreflexive(a.timestamp);
    if LexLess(a.timestamp, b.timestamp) {
      LexLessAsymmetric(a.timestamp, b.timestamp);
    }
    if LexLess(a.id, b.id) {
      LexLessAsymmetric(a.id, b.id);
    }
  }

  /** Ascending by `ItemLess` (no later record is smaller than an earlier one). */
  predicate Sorted(s: seq<Item>) {
    forall i, j {:trigger ItemLess(s[j], s[i])} :: 0 <= i < j < |s| ==> !ItemLess(s[j], s[i])
  }

  /** A record no larger than every element of a sorted sequence may be put in front of it. */
  lemma SortedCons(x: Item, s: seq<Item>)
    requires Sorted(s)
    requires forall k :: 0 <= k < |s| ==> !ItemLess(s[k], x)
    ensures Sorted([x] + s)
  {
    var r := [x] + s;
    forall i, j | 0 <= i < j < |r| ensures !ItemLess(r[j], r[i]) {
      assert r[j] == s[j - 1];
      if i > 0 { assert r[i] == s[i - 1]; }
    }
  }

  /** A record no larger than the head of a sorted sequence is no larger than any element. */
  lemma BelowHead(x: Item, s: seq<Item>)
    requires Sorted(s) && |s| > 0 && !ItemLess(s[0], x)
    ensures forall k :: 0 <= k < |s| ==> !ItemLess(s[k], x)
  {
    forall k | 0 <= k < |s| ensures !ItemLess(s[k], x) {
      ItemLessTotal(x, s[0]);
      ItemLessTransitive(s[k], x, s[0]);
      ItemLessIrreflexive(s[0]);
      if k > 0 {
        assert !ItemLess(s[k], s[0]);
      }
    }
  }

  // ---------------------------------------------------------------------
  // Sorting
  // ---------------------------------------------------------------------

  /** A record that does not exceed the head of a sorted sequence can be put in front of it. */
  lemma InsertFront(x: Item, s: seq<Item>)
    requires Sorted(s) && |s| > 0 && !ItemLess(s[0], x)
    ensures Sorted([x] + s)
  {
    BelowHead(x, s);
    SortedCons(x, s);
  }

  /** The head of a sorted sequence can be put in front of the insertion of a larger record into its tail. */
  lemma InsertBehind(x: Item, s: seq<Item>, rest: seq<Item>)
    requires Sorted(s) && |s| > 0 && ItemLess(s[0], x)
    requires Sorted(rest)
    requires forall k :: 0 <= k < |rest| ==> rest[k] == x || rest[k] in s[1..]
    ensures Sorted([s[0]] + rest)
  {
    ItemLessAsymmetric(s[0], x);
    forall k | 0 <= k < |rest| ensures !ItemLess(rest[k], s[0]) {
      if rest[k] != x {
        var j :| 0 <= j < |s[1..]| && s[1..][j] == rest[k];
        assert s[j + 1] == rest[k];
      }
    }
    SortedCons(s[0], rest);
  }

  /** Inserts `x`, which precedes every element of `s` in the input, in front of the first element it does not exceed. */
  function Insert(x: Item, s: seq<Item>): (r: seq<Item>)
    requires WellFormed(x) && AllWellFormed(s) && Sorted(s)
    ensures multiset(r) == multiset(s) + multiset{x}
    ensures forall k :: 0 <= k < |r| ==> r[k] == x || r[k] in s
    ensures AllWellFormed(r)
    ensures Sorted(r)
    decreases |s|
  {
    if |s| == 0 then
      [x]
    else if Compare(x, s[0]) <= 0 then
      CompareSign(x, s[0]);
      ItemLessAsymmetric(x, s[0]);
      InsertFront(x, s);
      [x] + s
    else
      CompareSign(x, s[0]);
      var rest := Insert(x, s[1..]);
      InsertBehind(x, s, rest);
      assert s == [s[0]] + s[1..];
      [s[0]] + rest
  }

  /** `[...items].sort(compare)`: an ascending permutation of the input. */
  function Sort(s: seq<Item>): (r: seq<Item>)
    requires AllWellFormed(s)
    ensures multiset(r) == multiset(s)
    ensures AllWellFormed(r)
    ensures Sorted(r)
    decreases |s|
  {
    if |s| == 0 then
      []
    else
      assert s == [s[0]] + s[1..];
      Insert(s[0], Sort(s[1..]))
  }

  /** A sorted sequence starts with its least element, which the other arrangement must also start with. */
  lemma SameHead(s: seq<Item>, t: seq<Item>)
    requires Sorted(s) && Sorted(t) && multiset(s) == multiset(t) && |s| > 0 && |t| > 0
    ensures s[0] == t[0]
  {
    assert s[0] in multiset(t);
    var k :| 0 <= k < |t| && t[k] == s[0];
    assert t[0] in multiset(s);
    var m :| 0 <= m < |s| && s[m] == t[0];
    ItemLessIrreflexive(t[0]);
    ItemLessIrreflexive(s[0]);
    if k > 0 {
      assert !ItemLess(t[k], t[0]);
    }
    if m > 0 {
      assert !ItemLess(s[m], s[0]);
    }
    ItemLessTotal(s[0], t[0]);
  }

  /** Removing equal heads leaves arrangements of the same records. */
  lemma SameTails(s: seq<Item>, t: seq<Item>)
    requires multiset(s) == multiset(t) && |s| > 0 && |t| > 0 && s[0] == t[0]
    ensures multiset(s[1..]) == multiset(t[1..])
  {
    assert s == [s[0]] + s[1..] && t == [t[0]] + t[1..];
    assert multiset(s) == multiset{s[0]} + multiset(s[1..]);
    assert multiset(t) == multiset{t[0]} + multiset(t[1..]);
    forall x ensures multiset(s[1..])[x] == multiset(t[1..])[x] {
      assert multiset(s)[x] == multiset{s[0]}[x] + multiset(s[1..])[x];
      assert multiset(t)[x] == multiset{t[0]}[x] + multiset(t[1..])[x];
    }
  }

  /**
   * Any two ascending arrangements of the same records are equal: because
   * the order is total on records, the output of the engine's sort is
   * determined by its input, whichever algorithm the engine uses.
   */
  lemma {:induction false} SortIsDetermined(s: seq<Item>, t: seq<Item>)
    requires Sorted(s) && Sorted(t) && multiset(s) == multiset(t)
    ensures s == t
    decreases |s|
  {
    assert |s| == |multiset(s)| == |t|;
    if |s| > 0 {
      SameHead(s, t);
      SameTails(s, t);
      SortIsDetermined(s[1..], t[1..]);
      assert s == [s[0]] + s[1..] && t == [t[0]] + t[1..];
    }
  }

  // ---------------------------------------------------------------------
  // First record per identifier
  // ---------------------------------------------------------------------

  /** `s.findIndex(t => t.id === id)`: the first position holding `id`, or -1. */
  function FindIndex(s: seq<Item>, id: string): (r: int)
    ensures -1 <= r < |s|
    ensures r >= 0 ==> s[r].id == id && forall j :: 0 <= j < r ==> s[j].id != id
    ensures r == -1 ==> forall j :: 0 <= j < |s| ==> s[j].id != id
    decreases |s|
  {
    if |s| == 0 then -1
    else if s[0].id == id then 0
    else
      var k := FindIndex(s[1..], id);
      if k == -1 then -1 else k + 1
  }

  /** Position `j` holds the first record of its identifier. */
  predicate IsFirst(s: seq<Item>, j: int)
    requires 0 <= j < |s|
  {
    forall m :: 0 <= m < j ==> s[m].id != s[j].id
  }

  /** The filter's test `index === self.findIndex(...)` holds exactly at first positions. */
  lemma FindIndexIsFirst(s: seq<Item>, j: int)
    requires 0 <= j < |s|
    ensures FindIndex(s, s[j].id) == j <==> IsFirst(s, j)
  {
  }

  /** `s.filter((item, index, self) => index === self.findIndex(...))`, over positions `i..`. */
  function KeepFirstFrom(s: seq<Item>, i: nat): (r: seq<Item>)
    requires i <= |s|
    ensures forall k :: 0 <= k < |r| ==> i <= FindIndex(s, r[k].id) && s[FindIndex(s, r[k].id)] == r[k]
    ensures forall a, b :: 0 <= a < b < |r| ==> r[a].id != r[b].id
    decreases |s| - i
  {
    if i == |s| then
      []
    else
      var rest := KeepFirstFrom(s, i + 1);
      FindIndexIsFirst(s, i);
      if FindIndex(s, s[i].id) == i then
        assert forall k :: 0 <= k < |rest| ==> rest[k].id != s[i].id;
        [s[i]] + rest
      else
        rest
  }

  /** The filter keeps every first position from `i` on. */
  lemma {:induction false} KeepFirstComplete(s: seq<Item>, i: nat, j: nat)
    requires i <= j < |s| && IsFirst(s, j)
    ensures s[j] in KeepFirstFrom(s, i)
    decreases j - i
  {
    FindIndexIsFirst(s, i);
    if i < j {
      KeepFirstComplete(s, i + 1, j);
    }
  }

  /** Identifiers strictly ascending in string order. */
  predicate AscendingIds(r: seq<Item>) {
    forall a, b :: 0 <= a < b < |r| ==> LexLess(r[a].id, r[b].id)
  }

  /** The first record of an identifier in a sorted sequence lies below every later first record. */
  lemma FirstBelowLaterFirst(s: seq<Item>, i: nat, j: nat)
    requires Sorted(s) && i < j < |s| && IsFirst(s, i) && IsFirst(s, j)
    ensures LexLess(s[i].id, s[j].id)
  {
    assert s[j].id != s[i].id;
    assert !ItemLess(s[j], s[i]);
    ItemLessTotal(s[i], s[j]);
  }

  /** A record below every identifier of an ascending sequence can be put in front of it. */
  lemma AscendingCons(x: Item, rest: seq<Item>)
    requires AscendingIds(rest)
    requires forall b :: 0 <= b < |rest| ==> LexLess(x.id, rest[b].id)
    ensures AscendingIds([x] + rest)
  {
    var r := [x] + rest;
    forall a, b | 0 <= a < b < |r| ensures LexLess(r[a].id, r[b].id) {
      assert r[b] == rest[b - 1];
      if a > 0 {
        assert r[a] == rest[a - 1];
      }
    }
  }

  /** A kept first position lies below everything the filter keeps after it. */
  lemma FirstBelowKept(s: seq<Item>, i: nat, rest: seq<Item>)
    requires Sorted(s) && i < |s| && IsFirst(s, i)
    requires rest == KeepFirstFrom(s, i + 1)
    ensures forall b :: 0 <= b < |rest| ==> LexLess(s[i].id, rest[b].id)
  {
    forall b | 0 <= b < |rest| ensures LexLess(s[i].id, rest[b].id) {
      var j := FindIndex(s, rest[b].id);
      FindIndexIsFirst(s, j);
      FirstBelowLaterFirst(s, i, j);
    }
  }

  /** The filter applied to a sorted sequence yields strictly ascending identifiers. */
  lemma {:induction false} KeepFirstAscending(s: seq<Item>, i: nat)
    requires i <= |s| && Sorted(s)
    ensures AscendingIds(KeepFirstFrom(s, i))
    decreases |s| - i
  {
    var r := KeepFirstFrom(s, i);
    if i == |s| {
      assert r == [];
    } else {
      var rest := KeepFirstFrom(s, i + 1);
      KeepFirstAscending(s, i + 1);
      KeepFirstStep(s, i);
      if IsFirst(s, i) {
        KeptInFront(s, i, rest);
        AscendingSame(r, [s[i]] + rest);
      } else {
        AscendingSame(r, rest);
      }
    }
  }

  /**
   * Restates `AscendingIds` across an equation between sequences; it only
   * keeps the solver from unfolding the predicate in the caller.
   */
  lemma AscendingSame(r: seq<Item>, t: seq<Item>)
    requires r == t && AscendingIds(t)
    ensures AscendingIds(r)
  {
  }

  /** A first position goes in front of the ascending records the filter keeps after it. */
  lemma KeptInFront(s: seq<Item>, i: nat, rest: seq<Item>)
    requires Sorted(s) && i < |s| && IsFirst(s, i)
    requires rest == KeepFirstFrom(s, i + 1) && AscendingIds(rest)
    ensures AscendingIds([s[i]] + rest)
  {
    FirstBelowKept(s, i, rest);
    AscendingCons(s[i], rest);
  }

  /** One step of the filter: position `i` is kept exactly when it is a first position. */
  lemma KeepFirstStep(s: seq<Item>, i: nat)
    requires i < |s|
    ensures KeepFirstFrom(s, i) ==
              (if IsFirst(s, i) then [s[i]] + KeepFirstFrom(s, i + 1) else KeepFirstFrom(s, i + 1))
  {
    FindIndexIsFirst(s, i);
  }

  /** In a sorted sequence the first record of an identifier has that identifier's earliest timestamp. */
  lemma FirstIsEarliest(s: seq<Item>, f: nat, j: nat)
    requires Sorted(s) && f < |s| && j < |s|
    requires IsFirst(s, f) && s[j].id == s[f].id
    ensures !LexLess(s[j].timestamp, s[f].timestamp)
  {
    if f < j {
      assert !ItemLess(s[j], s[f]);
    } else {
      assert f == j;
      LexLessIrreflexive(s[f].timestamp);
    }
  }

  /** Records with pairwise different identifiers have as many identifiers as records. */
  lemma {:induction false} DistinctIdsCount(r: seq<Item>)
    requires forall a, b :: 0 <= a < b < |r| ==> r[a].id != r[b].id
    ensures |Ids(r)| == |r|
    decreases |r|
  {
    if |r| == 0 {
      assert Ids(r) == {};
    } else {
      var init := r[..|r| - 1];
      var x := r[|r| - 1];
      assert init + [x] == r;
      DistinctIdsCount(init);
      IdsAppend(init, x);
      assert x.id !in Ids(init) by {
        forall k | 0 <= k < |init| ensures init[k].id != x.id {
          assert init[k] == r[k];
        }
      }
    }
  }

  /** A permutation has the same elements. */
  lemma SameElements(s: seq<Item>, t: seq<Item>)
    requires multiset(s) == multiset(t)
    ensures forall x :: x in s <==> x in t
  {
    forall x ensures x in s <==> x in t {
      assert x in s <==> x in multiset(s);
      assert x in t <==> x in multiset(t);
    }
  }

  /** The filter keeps at least one record of every identifier and invents none. */
  lemma KeepFirstIds(s: seq<Item>)
    ensures Ids(KeepFirstFrom(s, 0)) == Ids(s)
  {
    var r := KeepFirstFrom(s, 0);
    forall id | id in Ids(s) ensures id in Ids(r) {
      var f := FindIndex(s, id);
      FindIndexIsFirst(s, f);
      KeepFirstComplete(s, 0, f);
      var m :| 0 <= m < |r| && r[m] == s[f];
    }
    forall id | id in Ids(r) ensures id in Ids(s) {
      var k :| 0 <= k < |r| && r[k].id == id;
      var j := FindIndex(s, r[k].id);
      assert s[j].id == id;
    }
  }

  /** Applied to a sorted sequence, the filter keeps the earliest timestamp of each identifier. */
  lemma KeepFirstEarliest(s: seq<Item>)
    requires Sorted(s)
    ensures forall k, x :: 0 <= k < |KeepFirstFrom(s, 0)| && x in s && x.id == KeepFirstFrom(s, 0)[k].id ==>
              !LexLess(x.timestamp, KeepFirstFrom(s, 0)[k].timestamp)
  {
    var r := KeepFirstFrom(s, 0);
    forall k, x | 0 <= k < |r| && x in s && x.id == r[k].id
      ensures !LexLess(x.timestamp, r[k].timestamp)
    {
      var f := FindIndex(s, r[k].id);
      FindIndexIsFirst(s, f);
      var j :| 0 <= j < |s| && s[j] == x;
      FirstIsEarliest(s, f, j);
    }
  }

  /** A permutation has the same identifiers. */
  lemma SameIds(s: seq<Item>, t: seq<Item>)
    requires multiset(s) == multiset(t)
    ensures Ids(s) == Ids(t)
  {
    SameElements(s, t);
    forall id | id in Ids(t) ensures id in Ids(s) {
      var k :| 0 <= k < |t| && t[k].id == id;
      assert t[k] in t;
      var j :| 0 <= j < |s| && s[j] == t[k];
    }
    forall id | id in Ids(s) ensures id in Ids(t) {
      var k :| 0 <= k < |s| && s[k].id == id;
      assert s[k] in s;
      var j :| 0 <= j < |t| && t[j] == s[k];
    }
  }

  /** What the filter keeps from a sequence of well-formed records is well formed and drawn from it. */
  lemma KeepFirstDrawn(s: seq<Item>)
    requires AllWellFormed(s)
    ensures AllWellFormed(KeepFirstFrom(s, 0))
    ensures forall k :: 0 <= k < |KeepFirstFrom(s, 0)| ==> KeepFirstFrom(s, 0)[k] in s
  {
    var r := KeepFirstFrom(s, 0);
    forall k | 0 <= k < |r| ensures WellFormed(r[k]) && r[k] in s {
      var j := FindIndex(s, r[k].id);
      assert s[j] == r[k];
    }
  }

  /** Strictly ascending identifiers of well-formed records are strictly ascending numbers. */
  lemma AscendingNumbers(r: seq<Item>)
    requires AllWellFormed(r) && AscendingIds(r)
    ensures forall a, b :: 0 <= a < b < |r| ==> DecimalValue(r[a].id) < DecimalValue(r[b].id)
  {
    forall a, b | 0 <= a < b < |r| ensures DecimalValue(r[a].id) < DecimalValue(r[b].id) {
      IdentifierOrder(r[a].id, r[b].id);
    }
  }

  /** Strictly ascending identifiers are pairwise different. */
  lemma AscendingDistinct(r: seq<Item>)
    requires AscendingIds(r)
    ensures forall a, b :: 0 <= a < b < |r| ==> r[a].id != r[b].id
  {
    forall a, b | 0 <= a < b < |r| ensures r[a].id != r[b].id {
      LexLessIrreflexive(r[a].id);
    }
  }

  /**
   * `showResultList`: one record per distinct identifier, in ascending
   * numeric identifier order, each taken from the input and carrying the
   * earliest timestamp recorded for its identifier.
   */
  function ResultList(items: seq<Item>): (r: seq<Item>)
    requires AllWellFormed(items)
    ensures AllWellFormed(r)
    ensures AscendingIds(r)
    ensures forall k :: 0 <= k < |r| ==> r[k] in items
    ensures Ids(r) == Ids(items)
    ensures |r| == ItemNumber(items).unique
    ensures forall k, j :: 0 <= k < |r| && 0 <= j < |items| && items[j].id == r[k].id ==>
              !LexLess(items[j].timestamp, r[k].timestamp)
  {
    var sorted := Sort(items);
    var r := KeepFirstFrom(sorted, 0);
    SameElements(sorted, items);
    KeepFirstDrawn(sorted);
    KeepFirstAscending(sorted, 0);
    AscendingDistinct(r);
    KeepFirstIds(sorted);
    SameIds(sorted, items);
    DistinctIdsCount(r);
    KeepFirstEarliest(sorted);
    r
  }

  /** The listing is in ascending order of `Number(id)`, the order the comparator sorts by. */
  lemma ResultListNumeric(items: seq<Item>)
    requires AllWellFormed(items)
    ensures forall a, b :: 0 <= a < b < |ResultList(items)| ==>
              DecimalValue(ResultList(items)[a].id) < DecimalValue(ResultList(items)[b].id)
  {
    AscendingNumbers(ResultList(items));
  }

  // ---------------------------------------------------------------------
  // Startup listing, newest first
  // ---------------------------------------------------------------------

  /** Descending by timestamp: no later record has a strictly later timestamp. */
  predicate NewestFirst(s: seq<Item>) {
    forall i, j :: 0 <= i < j < |s| ==> !LexLess(s[i].timestamp, s[j].timestamp)
  }

  /**
   * Inserts `x` into a newest-first sequence for the comparator
   * `b.timestamp.localeCompare(a.timestamp)`, read as string order.
   */
  function InsertNewest(x: Item, s: seq<Item>): (r: seq<Item>)
    requires NewestFirst(s)
    ensures multiset(r) == multiset(s) + multiset{x}
    ensures forall k :: 0 <= k < |r| ==> r[k] == x || r[k] in s
    ensures NewestFirst(r)
    decreases |s|
  {
    if |s| == 0 then
      [x]
    else if !LexLess(x.timestamp, s[0].timestamp) then
      assert forall k :: 0 <= k < |s| ==> !LexLess(x.timestamp, s[k].timestamp) by {
        forall k | 0 <= k < |s| ensures !LexLess(x.timestamp, s[k].timestamp) {
          LexLessTotal(x.timestamp, s[0].timestamp);
          if LexLess(x.timestamp, s[k].timestamp) && k > 0 {
            if x.timestamp != s[0].timestamp {
              LexLessTransitive(s[0].timestamp, x.timestamp, s[k].timestamp);
            }
          }
        }
      }
      assert NewestFirst([x] + s) by {
        var r := [x] + s;
        forall i, j | 0 <= i < j < |r| ensures !LexLess(r[i].timestamp, r[j].timestamp) {
          assert r[j] == s[j - 1];
          if i > 0 { assert r[i] == s[i - 1]; }
        }
      }
      [x] + s
    else
      var rest := InsertNewest(x, s[1..]);
      LexLessAsymmetric(x.timestamp, s[0].timestamp);
      assert NewestFirst([s[0]] + rest) by {
        var r := [s[0]] + rest;
        forall i, j | 0 <= i < j < |r| ensures !LexLess(r[i].timestamp, r[j].timestamp) {
          assert r[j] == rest[j - 1];
          if i > 0 {
            assert r[i] == rest[i - 1];
          } else if rest[j - 1] != x {
            var m :| 0 <= m < |s[1..]| && s[1..][m] == rest[j - 1];
            assert s[m + 1] == rest[j - 1];
          }
        }
      }
      assert s == [s[0]] + s[1..];
      [s[0]] + rest
  }

  /** The records stamped `t`, in their order in `s`. */
  function WithTimestamp(s: seq<Item>, t: string): seq<Item>
    decreases |s|
  {
    if |s| == 0 then []
    else (if s[0].timestamp == t then [s[0]] else []) + WithTimestamp(s[1..], t)
  }

  /** Inserting `x` puts it in front of every record with the same timestamp. */
  lemma {:induction false} InsertNewestKeepsOrder(x: Item, s: seq<Item>, t: string)
    requires NewestFirst(s)
    ensures WithTimestamp(InsertNewest(x, s), t) ==
              (if x.timestamp == t then [x] + WithTimestamp(s, t) else WithTimestamp(s, t))
    decreases |s|
  {
    if |s| > 0 && LexLess(x.timestamp, s[0].timestamp) {
      var r := InsertNewest(x, s);
      assert r[1..] == InsertNewest(x, s[1..]);
      InsertNewestKeepsOrder(x, s[1..], t);
      if x.timestamp == t {
        LexLessIrreflexive(t);
      }
    }
  }

  /**
   * The startup listing: every stored record, newest first; records with
   * the same timestamp keep the order the store returned them in, as the
   * engine's sort is stable.
   */
  function RecentFirst(s: seq<Item>): (r: seq<Item>)
    ensures multiset(r) == multiset(s)
    ensures NewestFirst(r)
    ensures forall t :: WithTimestamp(r, t) == WithTimestamp(s, t)
    decreases |s|
  {
    if |s| == 0 then
      []
    else
      assert s == [s[0]] + s[1..];
      var rest := RecentFirst(s[1..]);
      assert forall t :: WithTimestamp(InsertNewest(s[0], rest), t) == WithTimestamp(s, t) by {
        forall t ensures WithTimestamp(InsertNewest(s[0], rest), t) == WithTimestamp(s, t) {
          InsertNewestKeepsOrder(s[0], rest, t);
        }
      }
      InsertNewest(s[0], rest)
  }

  /** The sample records of the listing example. */
  predicate IsExample(items: seq<Item>) {
    items == [Item("000002", "09:00"), Item("000001", "10:00"), Item("000001", "09:30")]
  }

  lemma {:induction false} ExampleIds(items: seq<Item>)
    requires IsExample(items)
    ensures AllWellFormed(items)
    ensures Ids(items) == {"000001", "000002"}
  {
    var none: seq<Item> := [];
    assert Ids(none) == {};
    IdsAppend(none, items[0]);
    assert none + [items[0]] == items[..1];
    IdsAppend(items[..1], items[1]);
    assert items[..1] + [items[1]] == items[..2];
    IdsAppend(items[..2], items[2]);
    assert items[..2] + [items[2]] == items;
  }

  /** A listing of the sample records has two entries, 000001 then 000002. */
  lemma ExampleOrder(items: seq<Item>, r: seq<Item>)
    requires IsExample(items)
    requires Ids(r) == Ids(items) && |r| == ItemNumber(items).unique && AscendingIds(r)
    ensures |r| == 2 && r[0].id == "000001" && r[1].id == "000002"
  {
    ExampleIds(items);
    assert r[0].id in Ids(r) && r[1].id in Ids(r);
    assert LexLess(r[0].id, r[1].id);
    assert !LexLess("000002", "000001");
    if r[0].id == r[1].id {
      LexLessIrreflexive(r[0].id);
    }
  }

  /** The only sample record of 000002. */
  lemma ExamplePick2(items: seq<Item>, x: Item)
    requires IsExample(items) && x in items && x.id == "000002"
    ensures x == Item("000002", "09:00")
  {
  }

  /** The sample record of 000001 with the earliest time. */
  lemma ExamplePick1(items: seq<Item>, x: Item)
    requires IsExample(items) && x in items && x.id == "000001"
    requires !LexLess(items[2].timestamp, x.timestamp)
    ensures x == Item("000001", "09:30")
  {
    assert LexLess("09:30", "10:00");
  }

  /** Builds a two-element display from its elements; only there to keep the example proof small. */
  lemma PairEquality(r: seq<Item>, a: Item, b: Item)
    requires |r| == 2 && r[0] == a && r[1] == b
    ensures r == [a, b]
  {
  }

  /**
   * Two scans of 000001 and one of 000002 list as 000001 with its earlier
   * time, then 000002.
   */
  lemma {:induction false} ResultListExample(items: seq<Item>)
    requires IsExample(items)
    ensures AllWellFormed(items)
    ensures ResultList(items) == [Item("000001", "09:30"), Item("000002", "09:00")]
  {
    ExampleIds(items);
    var r := ResultList(items);
    ExampleOrder(items, r);
    ExamplePick1(items, r[0]);
    ExamplePick2(items, r[1]);
    PairEquality(r, Item("000001", "09:30"), Item("000002", "09:00"));
  }
}
