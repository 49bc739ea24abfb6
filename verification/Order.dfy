/** The stored order of a show's episodes: publication text descending, undated rows last,
    then episode id descending. */
module Order {
  import opened Wrappers
  import opened Domain
  import opened Timestamps

  /** The sort columns of a show's rows. */
  type Stamps = map<EpisodeId, Option<Timestamp>>

  /** `a` sorts before (newer than) `b` on the publication column alone. */
  predicate StampBefore(a: Option<Timestamp>, b: Option<Timestamp>) {
    a.Some? && (b.None? || TextLess(Text(b.value), Text(a.value)))
  }

  predicate Before(m: Stamps, x: EpisodeId, y: EpisodeId)
    requires x in m && y in m
  {
    StampBefore(m[x], m[y]) || (m[x] == m[y] && TextLess(y, x))
  }

  lemma StampTrichotomy(a: Option<Timestamp>, b: Option<Timestamp>)
    ensures !(StampBefore(a, b) && StampBefore(b, a))
    ensures a == b <==> !StampBefore(a, b) && !StampBefore(b, a)
  {
    if a.Some? && b.Some? {
      TextLessTrichotomy(Text(a.value), Text(b.value));
      TextInjective(a.value, b.value);
    }
  }

  lemma StampTransitive(a: Option<Timestamp>, b: Option<Timestamp>, c: Option<Timestamp>)
    requires StampBefore(a, b) && StampBefore(b, c)
    ensures StampBefore(a, c)
  {
    if c.Some? { TextLessTransitive(Text(c.value), Text(b.value), Text(a.value)); }
  }

  /** The stored order is a strict total order on the rows of a show. */
  lemma BeforeIsStrictTotal(m: Stamps, x: EpisodeId, y: EpisodeId, z: EpisodeId)
    requires x in m && y in m && z in m
    ensures !(Before(m, x, y) && Before(m, y, x))
    ensures x == y <==> !Before(m, x, y) && !Before(m, y, x)
    ensures Before(m, x, y) && Before(m, y, z) ==> Before(m, x, z)
  {
    StampTrichotomy(m[x], m[y]);
    TextLessTrichotomy(x, y);
    if Before(m, x, y) && Before(m, y, z) {
      if StampBefore(m[x], m[y]) && StampBefore(m[y], m[z]) { StampTransitive(m[x], m[y], m[z]); }
      else if m[x] == m[y] && m[y] == m[z] { TextLessTransitive(z, y, x); }
    }
  }

  // ----- the sorted sequence -----

  ghost predicate IsNewest(m: Stamps, x: EpisodeId) {
    x in m && forall y :: y in m && y != x ==> Before(m, x, y)
  }

  lemma {:induction false} NewestExists(m: Stamps)
    requires m != map[]
    ensures exists x :: IsNewest(m, x)
  {
    var x :| x in m;
    var rest := m - {x};
    if rest == map[] {
      assert m.Keys == {x} + rest.Keys;
      assert IsNewest(m, x);
    } else {
      NewestExists(rest);
      var y :| IsNewest(rest, y);
      BeforeIsStrictTotal(m, x, y, y);
      if Before(m, x, y) {
        forall z | z in m && z != x ensures Before(m, x, z) {
          assert z in rest;
          if z != y {
            assert Before(rest, y, z);
            BeforeIsStrictTotal(m, x, y, z);
          }
        }
        assert IsNewest(m, x);
      } else {
        forall z | z in m && z != y ensures Before(m, y, z) {
          if z != x { assert z in rest && Before(rest, y, z); }
        }
        assert IsNewest(m, y);
      }
    }
  }

  /** All ids of `m`, newest first. */
  ghost function NewestFirst(m: Stamps): seq<EpisodeId>
    decreases |m|
  {
    if m == map[] then []
    else
      NewestExists(m);
      var x :| IsNewest(m, x);
      [x] + NewestFirst(m - {x})
  }

  ghost predicate Sorted(m: Stamps, ids: seq<EpisodeId>) {
    && (forall i :: 0 <= i < |ids| ==> ids[i] in m)
    && (forall i, j :: 0 <= i < j < |ids| ==> Before(m, ids[i], ids[j]))
  }

  lemma {:induction false} NewestFirstSorted(m: Stamps)
    ensures Sorted(m, NewestFirst(m))
    ensures forall x :: x in NewestFirst(m) <==> x in m
    decreases |m|
  {
    if m != map[] {
      NewestExists(m);
      var x :| IsNewest(m, x) && NewestFirst(m) == [x] + NewestFirst(m - {x});
      var rest := m - {x};
      NewestFirstSorted(rest);
      var ids := NewestFirst(m);
      forall i, j | 0 <= i < j < |ids| ensures Before(m, ids[i], ids[j]) {
        assert ids[j] in rest;
        if i > 0 { assert Before(rest, NewestFirst(rest)[i - 1], NewestFirst(rest)[j - 1]); }
      }
      forall y ensures y in ids <==> y in m {
        assert y in m <==> y == x || y in rest;
      }
    }
  }

  lemma SortedNonempty(m: Stamps, ids: seq<EpisodeId>)
    requires Sorted(m, ids)
    ensures ids != [] ==> m != map[]
  {
    if ids != [] { assert ids[0] in m; }
  }

  lemma FirstIsNewest(m: Stamps, ids: seq<EpisodeId>, x: EpisodeId)
    requires Sorted(m, ids) && IsNewest(m, x) && x in ids
    ensures ids[0] == x
  {
    var i :| 0 <= i < |ids| && ids[i] == x;
    if i > 0 {
      assert Before(m, ids[0], ids[i]);
      BeforeIsStrictTotal(m, ids[0], x, x);
    }
  }

  lemma RestIsSorted(m: Stamps, ids: seq<EpisodeId>)
    requires ids != [] && Sorted(m, ids) && forall x :: x in m ==> x in ids
    ensures Sorted(m - {ids[0]}, ids[1..]) && forall x :: x in m - {ids[0]} ==> x in ids[1..]
  {
    var rest := m - {ids[0]};
    forall j | 0 <= j < |ids| - 1 ensures ids[1..][j] in rest {
      assert Before(m, ids[0], ids[j + 1]);
      BeforeIsStrictTotal(m, ids[0], ids[j + 1], ids[0]);
    }
    forall i, j | 0 <= i < j < |ids| - 1 ensures Before(rest, ids[1..][i], ids[1..][j]) {
      assert Before(m, ids[i + 1], ids[j + 1]);
    }
    forall x | x in rest ensures x in ids[1..] {
      var i :| 0 <= i < |ids| && ids[i] == x;
      assert ids[1..][i - 1] == x;
    }
  }

  /** There is only one way to sort a show's rows, so insertion order cannot matter. */
  lemma {:induction false} SortedUnique(m: Stamps, ids: seq<EpisodeId>)
    requires Sorted(m, ids) && forall x :: x in m ==> x in ids
    ensures ids == NewestFirst(m)
    decreases |m|
  {
    if m == map[] {
      SortedNonempty(m, ids);
    } else {
      NewestExists(m);
      var x :| IsNewest(m, x) && NewestFirst(m) == [x] + NewestFirst(m - {x});
      FirstIsNewest(m, ids, x);
      RestIsSorted(m, ids);
      SortedUnique(m - {x}, ids[1..]);
      assert ids == [ids[0]] + ids[1..];
    }
  }

  lemma SortedDistinct(m: Stamps, ids: seq<EpisodeId>)
    requires Sorted(m, ids)
    ensures forall i, j :: 0 <= i < j < |ids| ==> ids[i] != ids[j]
  {
    forall i, j | 0 <= i < j < |ids| ensures ids[i] != ids[j] {
      BeforeIsStrictTotal(m, ids[i], ids[j], ids[i]);
    }
  }

  /** Insertion sort, standing in for the ORDER BY of the query. */
  method SortIds(m: Stamps) returns (ids: seq<EpisodeId>)
    ensures ids == NewestFirst(m)
  {
    ids := [];
    var rest := m.Keys;
    while rest != {}
      invariant rest <= m.Keys
      invariant Sorted(m, ids)
      invariant forall x :: x in ids <==> x in m.Keys - rest
      decreases rest
    {
      var x :| x in rest;
      ids := InsertId(m, ids, x);
      rest := rest - {x};
    }
    SortedUnique(m, ids);
  }

  method InsertId(m: Stamps, ids: seq<EpisodeId>, x: EpisodeId) returns (r: seq<EpisodeId>)
    requires Sorted(m, ids) && x in m && x !in ids
    ensures Sorted(m, r)
    ensures forall y :: y in r <==> y == x || y in ids
  {
    var i := 0;
    while i < |ids| && Before(m, ids[i], x)
      invariant 0 <= i <= |ids|
      invariant forall j :: 0 <= j < i ==> Before(m, ids[j], x)
    {
      i := i + 1;
    }
    r := ids[..i] + [x] + ids[i..];
    InsertKeepsSorted(m, ids, i, x);
  }

  lemma InsertKeepsSorted(m: Stamps, ids: seq<EpisodeId>, i: nat, x: EpisodeId)
    requires Sorted(m, ids) && x in m && x !in ids && i <= |ids|
    requires forall j :: 0 <= j < i ==> Before(m, ids[j], x)
    requires i < |ids| ==> !Before(m, ids[i], x)
    ensures Sorted(m, ids[..i] + [x] + ids[i..])
    ensures forall y :: y in ids[..i] + [x] + ids[i..] <==> y == x || y in ids
  {
    forall j | i <= j < |ids| ensures Before(m, x, ids[j]) {
      assert ids[i] in ids;
      BeforeIsStrictTotal(m, x, ids[i], ids[j]);
    }
    InsertBetween(m, ids[..i], x, ids[i..]);
    assert ids == ids[..i] + ids[i..];
  }

  lemma InsertBetween(m: Stamps, newer: seq<EpisodeId>, x: EpisodeId, older: seq<EpisodeId>)
    requires Sorted(m, newer + older) && x in m
    requires forall j :: 0 <= j < |newer| ==> newer[j] in m && Before(m, newer[j], x)
    requires forall j :: 0 <= j < |older| ==> older[j] in m && Before(m, x, older[j])
    ensures Sorted(m, newer + [x] + older)
  {
    var all, rest := newer + [x] + older, newer + older;
    var n := |newer|;
    forall i | 0 <= i < |all| ensures i != n ==> all[i] == rest[if i < n then i else i - 1] {}
    forall i, j | 0 <= i < j < |all| ensures Before(m, all[i], all[j]) {
      if i == n { assert all[j] == older[j - n - 1]; }
      else if j == n { assert all[i] == newer[i]; }
      else { assert Before(m, rest[if i < n then i else i - 1], rest[if j < n then j else j - 1]); }
    }
  }
}
