/** The provider's listing: parse what parses, newest first, cut to the requested length; and
    how its order relates to the stored order. */
module Difm {
  import opened Wrappers
  import opened Domain
  import opened Timestamps
  import opened Order
  import opened Episodes
  import opened World
  import opened Resync

  // ----- filter -----

  /** The entries that parsed, in order; an entry that did not is skipped. */
  function Parsed(entries: seq<Option<EpisodeMeta>>): seq<EpisodeMeta> {
    if entries == [] then []
    else
      var n := |entries| - 1;
      Parsed(entries[..n]) + if entries[n].Some? then [entries[n].value] else []
  }

  // ----- stable sort, newest first, undated last -----

  /** `a` was published later than `b`; an undated episode counts as oldest. */
  predicate Newer(a: Option<Timestamp>, b: Option<Timestamp>) {
    a.Some? && (b.None? || Nanos(a.value) > Nanos(b.value))
  }

  predicate SameTime(a: Option<Timestamp>, b: Option<Timestamp>) {
    !Newer(a, b) && !Newer(b, a)
  }

  ghost predicate Descending(s: seq<EpisodeMeta>) {
    forall i, j :: 0 <= i < j < |s| ==> !Newer(s[j].publishedAt, s[i].publishedAt)
  }

  /** The episodes published at `time`, in order. */
  function At(s: seq<EpisodeMeta>, time: Option<Timestamp>): seq<EpisodeMeta> {
    if s == [] then []
    else
      var n := |s| - 1;
      At(s[..n], time) + if SameTime(s[n].publishedAt, time) then [s[n]] else []
  }

  /** `r` is the stable sort of `s`: newest first, and simultaneous episodes in input order. */
  ghost predicate StablySorted(s: seq<EpisodeMeta>, r: seq<EpisodeMeta>) {
    Descending(r) && forall time :: At(r, time) == At(s, time)
  }

  lemma {:induction false} AtAppend(a: seq<EpisodeMeta>, b: seq<EpisodeMeta>, time: Option<Timestamp>)
    ensures At(a + b, time) == At(a, time) + At(b, time)
  {
    if b == [] {
      assert a + b == a;
    } else {
      var n := |b| - 1;
      assert (a + b)[..|a + b| - 1] == a + b[..n];
      AtAppend(a, b[..n], time);
    }
  }

  lemma {:induction false} AtMembers(s: seq<EpisodeMeta>, time: Option<Timestamp>, m: EpisodeMeta)
    ensures m in At(s, time) <==> m in s && SameTime(m.publishedAt, time)
  {
    if s != [] {
      AtMembers(s[..|s| - 1], time, m);
      assert s == s[..|s| - 1] + [s[|s| - 1]];
    }
  }

  lemma {:induction false} AtNothing(s: seq<EpisodeMeta>, time: Option<Timestamp>)
    requires forall i :: 0 <= i < |s| ==> !SameTime(s[i].publishedAt, time)
    ensures At(s, time) == []
  {
    if s != [] { AtNothing(s[..|s| - 1], time); }
  }

  lemma LastIsOldest(s: seq<EpisodeMeta>, m: EpisodeMeta)
    requires Descending(s) && m in s
    ensures !Newer(s[|s| - 1].publishedAt, m.publishedAt)
  {
    var i :| 0 <= i < |s| && s[i] == m;
  }

  lemma SameMember(r: seq<EpisodeMeta>, q: seq<EpisodeMeta>, m: EpisodeMeta)
    requires m in r && At(r, m.publishedAt) == At(q, m.publishedAt)
    ensures m in q
  {
    AtMembers(r, m.publishedAt, m);
    AtMembers(q, m.publishedAt, m);
  }

  lemma SameLast(r: seq<EpisodeMeta>, q: seq<EpisodeMeta>)
    requires Descending(r) && Descending(q) && r != [] && q != []
    requires var x := r[|r| - 1].publishedAt; At(r, x) == At(q, x)
    requires var y := q[|q| - 1].publishedAt; At(r, y) == At(q, y)
    ensures r[|r| - 1] == q[|q| - 1]
  {
    LastsAreSimultaneous(r, q);
    EndsAgree(r, q, r[|r| - 1].publishedAt);
  }

  lemma LastsAreSimultaneous(r: seq<EpisodeMeta>, q: seq<EpisodeMeta>)
    requires Descending(r) && Descending(q) && r != [] && q != []
    requires var x := r[|r| - 1].publishedAt; At(r, x) == At(q, x)
    requires var y := q[|q| - 1].publishedAt; At(r, y) == At(q, y)
    ensures SameTime(r[|r| - 1].publishedAt, q[|q| - 1].publishedAt)
  {
    var x, y := r[|r| - 1], q[|q| - 1];
    SameMember(r, q, x);
    LastIsOldest(q, x);
    SameMember(q, r, y);
    LastIsOldest(r, y);
  }

  lemma EndsAgree(r: seq<EpisodeMeta>, q: seq<EpisodeMeta>, time: Option<Timestamp>)
    requires r != [] && q != [] && At(r, time) == At(q, time)
    requires SameTime(r[|r| - 1].publishedAt, time) && SameTime(q[|q| - 1].publishedAt, time)
    ensures r[|r| - 1] == q[|q| - 1]
  {
    AtEndsWith(r, time);
    AtEndsWith(q, time);
    assert At(r, time)[|At(r, time)| - 1] == r[|r| - 1];
    assert At(q, time)[|At(q, time)| - 1] == q[|q| - 1];
  }

  lemma AtEndsWith(s: seq<EpisodeMeta>, time: Option<Timestamp>)
    requires s != [] && SameTime(s[|s| - 1].publishedAt, time)
    ensures At(s, time) == At(s[..|s| - 1], time) + [s[|s| - 1]]
  {
  }

  lemma AtWithoutLast(r: seq<EpisodeMeta>, q: seq<EpisodeMeta>, time: Option<Timestamp>)
    requires r != [] && q != [] && r[|r| - 1] == q[|q| - 1] && At(r, time) == At(q, time)
    ensures At(r[..|r| - 1], time) == At(q[..|q| - 1], time)
  {
    var r', q' := At(r[..|r| - 1], time), At(q[..|q| - 1], time);
    if SameTime(r[|r| - 1].publishedAt, time) {
      assert r' == At(r, time)[..|At(r, time)| - 1];
      assert q' == At(q, time)[..|At(q, time)| - 1];
    } else {
      assert r' + [] == r' && q' + [] == q';
    }
  }

  lemma NothingAnywhere(s: seq<EpisodeMeta>)
    requires forall time :: At(s, time) == []
    ensures s == []
  {
    if s != [] { AtMembers(s, s[0].publishedAt, s[0]); }
  }

  /** A list has only one stable sort. */
  lemma {:induction false} StableSortUnique(r: seq<EpisodeMeta>, q: seq<EpisodeMeta>)
    requires Descending(r) && Descending(q) && forall time :: At(r, time) == At(q, time)
    ensures r == q
  {
    if r == [] || q == [] {
      assert forall time :: At(r, time) == [] && At(q, time) == [];
      NothingAnywhere(r);
      NothingAnywhere(q);
    } else {
      SameLast(r, q);
      var r', q' := r[..|r| - 1], q[..|q| - 1];
      forall time ensures At(r', time) == At(q', time) { AtWithoutLast(r, q, time); }
      StableSortUnique(r', q');
      assert r == r' + [r[|r| - 1]] && q == q' + [q[|q| - 1]];
    }
  }

  /** Stable insertion sort, standing in for the standard library's stable sort. */
  method SortNewestFirst(s: seq<EpisodeMeta>) returns (r: seq<EpisodeMeta>)
    ensures StablySorted(s, r) && |r| == |s|
  {
    r := [];
    for k := 0 to |s|
      invariant StablySorted(s[..k], r) && |r| == k
    {
      assert s[..k + 1] == s[..k] + [s[k]];
      r := InsertStable(r, s[k], s[..k]);
    }
    assert s[..|s|] == s;
  }

  /** Behind every episode at least as new. */
  method InsertStable(r: seq<EpisodeMeta>, m: EpisodeMeta, ghost s: seq<EpisodeMeta>) returns (q: seq<EpisodeMeta>)
    requires StablySorted(s, r)
    ensures StablySorted(s + [m], q) && |q| == |r| + 1
  {
    var i := |r|;
    while i > 0 && Newer(m.publishedAt, r[i - 1].publishedAt)
      invariant 0 <= i <= |r|
      invariant forall j :: i <= j < |r| ==> Newer(m.publishedAt, r[j].publishedAt)
    {
      i := i - 1;
    }
    q := r[..i] + [m] + r[i..];
    InsertedAt(s, r, i, m);
    InsertedDescends(r, i, m, q);
  }

  lemma InsertedAt(s: seq<EpisodeMeta>, r: seq<EpisodeMeta>, i: nat, m: EpisodeMeta)
    requires i <= |r| && forall j :: i <= j < |r| ==> Newer(m.publishedAt, r[j].publishedAt)
    requires forall time :: At(r, time) == At(s, time)
    ensures forall time :: At(r[..i] + [m] + r[i..], time) == At(s + [m], time)
  {
    forall time ensures At(r[..i] + [m] + r[i..], time) == At(s + [m], time) {
      AtInserted(r, i, m, time);
      AtAppend(s, [m], time);
      AtAppend(r, [m], time);
      assert At(r, time) == At(s, time);
    }
  }

  lemma InsertedDescends(r: seq<EpisodeMeta>, i: nat, m: EpisodeMeta, q: seq<EpisodeMeta>)
    requires Descending(r) && i <= |r| && q == r[..i] + [m] + r[i..]
    requires i > 0 ==> !Newer(m.publishedAt, r[i - 1].publishedAt)
    requires forall j :: i <= j < |r| ==> Newer(m.publishedAt, r[j].publishedAt)
    ensures Descending(q)
  {
    forall j | 0 <= j < i ensures !Newer(m.publishedAt, r[j].publishedAt) {
      if j < i - 1 { assert !Newer(r[i - 1].publishedAt, r[j].publishedAt); }
    }
  }

  lemma AtInserted(r: seq<EpisodeMeta>, i: nat, m: EpisodeMeta, time: Option<Timestamp>)
    requires i <= |r| && forall j :: i <= j < |r| ==> Newer(m.publishedAt, r[j].publishedAt)
    ensures At(r[..i] + [m] + r[i..], time) == At(r + [m], time)
  {
    assert r[..i] + [m] + r[i..] == r[..i] + ([m] + r[i..]);
    assert r + [m] == r[..i] + (r[i..] + [m]);
    AtAppend(r[..i], [m] + r[i..], time);
    AtAppend(r[..i], r[i..] + [m], time);
    AtMoves(m, r[i..], time);
  }

  lemma AtMoves(m: EpisodeMeta, older: seq<EpisodeMeta>, time: Option<Timestamp>)
    requires forall j :: 0 <= j < |older| ==> Newer(m.publishedAt, older[j].publishedAt)
    ensures At([m] + older, time) == At(older + [m], time)
  {
    AtAppend([m], older, time);
    AtAppend(older, [m], time);
    if SameTime(m.publishedAt, time) { AtNothing(older, time); } else { AtNothing([m], time); }
  }

  /** The listing of a poll that found something: filter, sort, truncate. */
  method ListEpisodes(entries: seq<Option<EpisodeMeta>>, limit: Option<nat>) returns (listing: seq<EpisodeMeta>)
    ensures exists sorted :: StablySorted(Parsed(entries), sorted) && |sorted| == |Parsed(entries)| && listing <= sorted
    ensures |listing| == if limit.Some? && limit.value < |Parsed(entries)| then limit.value else |Parsed(entries)|
  {
    var parsed := [];
    for k := 0 to |entries|
      invariant parsed == Parsed(entries[..k])
    {
      assert entries[..k + 1][..k] == entries[..k];
      if entries[k].Some? { parsed := parsed + [entries[k].value]; }
    }
    assert entries[..|entries|] == entries;
    var sorted := SortNewestFirst(parsed);
    listing := Bounded(sorted, limit);
  }

  // ----- the provider's order and the stored order -----

  predicate WholeSecond(a: Option<Timestamp>) {
    a.Some? ==> a.value.nanos == 0
  }

  /** On whole seconds the provider's comparison by time and the database's by text agree. */
  lemma StampOrdersAgree(a: Option<Timestamp>, b: Option<Timestamp>)
    requires WholeSecond(a) && WholeSecond(b)
    ensures Newer(a, b) <==> StampBefore(a, b)
    ensures SameTime(a, b) <==> a == b
  {
    StampTrichotomy(a, b);
    if a.Some? && b.Some? { WholeSecondTextOrder(b.value, a.value); WholeSecondTextOrder(a.value, b.value); }
  }

  /** On any times they disagree exactly when both fall into one second and the text of the
      earlier fraction starts the text of the later one. */
  lemma StampOrdersDisagree(a: Option<Timestamp>, b: Option<Timestamp>)
    requires Newer(a, b)
    ensures StampBefore(a, b) <==>
              !(b.Some? && Seconds(a.value) == Seconds(b.value) && Fraction(b.value.nanos) <= Fraction(a.value.nanos))
  {
    if b.Some? { TextOrderExact(b.value, a.value); }
  }

  /** Simultaneous episodes are the same instant written the same way. */
  lemma SameTimeIsEqual(a: Option<Timestamp>, b: Option<Timestamp>)
    ensures SameTime(a, b) <==> a == b
  {
    if a.Some? && b.Some? && SameTime(a, b) { NanosInjective(a.value, b.value); }
  }

  /** Simultaneous and undated episodes are listed with descending ids. */
  ghost predicate TiesDescend(s: seq<EpisodeMeta>) {
    forall i, j :: 0 <= i < j < |s| && SameTime(s[i].publishedAt, s[j].publishedAt) ==> TextLess(s[j].id, s[i].id)
  }

  /** Both fall into one second, and the text of the earlier fraction starts that of the later one. */
  predicate Swapped(a: Option<Timestamp>, b: Option<Timestamp>) {
    a.Some? && b.Some? && Seconds(a.value) == Seconds(b.value) && Fraction(b.value.nanos) <= Fraction(a.value.nanos)
  }

  /** No two of the times are misordered as texts. */
  ghost predicate NoneSwapped(s: seq<EpisodeMeta>) {
    forall i, j :: 0 <= i < j < |s| && Newer(s[i].publishedAt, s[j].publishedAt) ==> !Swapped(s[i].publishedAt, s[j].publishedAt)
  }

  lemma WholeSecondsNotSwapped(s: seq<EpisodeMeta>)
    requires forall i :: 0 <= i < |s| ==> WholeSecond(s[i].publishedAt)
    ensures NoneSwapped(s)
  {
  }

  /** Two listed episodes, the first not older, sort as listed exactly when they are neither tied
      the wrong way round nor misordered as texts. */
  lemma PairInStoredOrder(m: Stamps, a: EpisodeMeta, b: EpisodeMeta)
    requires a.id in m && m[a.id] == a.publishedAt && b.id in m && m[b.id] == b.publishedAt
    requires !Newer(b.publishedAt, a.publishedAt)
    ensures Before(m, a.id, b.id) <==>
              if SameTime(a.publishedAt, b.publishedAt) then TextLess(b.id, a.id) else !Swapped(a.publishedAt, b.publishedAt)
  {
    SameTimeIsEqual(a.publishedAt, b.publishedAt);
    StampTrichotomy(a.publishedAt, b.publishedAt);
    if Newer(a.publishedAt, b.publishedAt) { StampOrdersDisagree(a.publishedAt, b.publishedAt); }
  }

  /** A newest-first listing, once recorded, is in stored order exactly when simultaneous episodes
      come with descending ids and no two times are misordered as texts. */
  lemma ListingInStoredOrder(t: Table, show: ShowSlug, listing: seq<EpisodeMeta>)
    requires Descending(listing) && Absorbed(t, show, listing)
    ensures Sorted(StampsOf(t, show), ListedIds(listing)) <==> TiesDescend(listing) && NoneSwapped(listing)
  {
    var m, ids := StampsOf(t, show), ListedIds(listing);
    forall i | 0 <= i < |ids| ensures ids[i] in m && m[ids[i]] == listing[i].publishedAt {
      assert AbsorbedRow(t, show, listing[i]);
    }
    forall i, j | 0 <= i < j < |ids|
      ensures Before(m, ids[i], ids[j]) <==>
                if SameTime(listing[i].publishedAt, listing[j].publishedAt) then TextLess(listing[j].id, listing[i].id)
                else !Swapped(listing[i].publishedAt, listing[j].publishedAt)
    {
      assert !Newer(listing[j].publishedAt, listing[i].publishedAt);
      PairInStoredOrder(m, listing[i], listing[j]);
    }
    SortedByPairs(m, listing);
  }

  lemma SortedByPairs(m: Stamps, listing: seq<EpisodeMeta>)
    requires Descending(listing) && forall i :: 0 <= i < |listing| ==> listing[i].id in m
    requires forall i, j :: 0 <= i < j < |listing| ==>
               (Before(m, ListedIds(listing)[i], ListedIds(listing)[j]) <==>
                  if SameTime(listing[i].publishedAt, listing[j].publishedAt) then TextLess(listing[j].id, listing[i].id)
                  else !Swapped(listing[i].publishedAt, listing[j].publishedAt))
    ensures Sorted(m, ListedIds(listing)) <==> TiesDescend(listing) && NoneSwapped(listing)
  {
    var ids := ListedIds(listing);
    if TiesDescend(listing) && NoneSwapped(listing) {
      forall i, j | 0 <= i < j < |ids| ensures Before(m, ids[i], ids[j]) {
        assert !Newer(listing[j].publishedAt, listing[i].publishedAt);
      }
    }
    if Sorted(m, ids) {
      forall i, j | 0 <= i < j < |ids|
        ensures SameTime(listing[i].publishedAt, listing[j].publishedAt) ==> TextLess(listing[j].id, listing[i].id)
        ensures Newer(listing[i].publishedAt, listing[j].publishedAt) ==> !Swapped(listing[i].publishedAt, listing[j].publishedAt)
      {
        assert Before(m, ids[i], ids[j]);
      }
    }
  }

  // ----- when a full listing is a prefix of the stored order -----

  /** No stored row outside `ids` sorts newer than one inside. */
  ghost predicate NothingNewerOutside(m: Stamps, ids: seq<EpisodeId>) {
    forall x, y :: x in ids && x in m && y in m && y !in ids ==> Before(m, x, y)
  }

  /** A window is a prefix of the stored order exactly when it is itself in stored order and no
      stored row outside it sorts newer than one inside. */
  lemma PrefixOfStoredOrder(t: Table, show: ShowSlug, ids: seq<EpisodeId>)
    ensures ids <= Ordered(t, show) <==> Sorted(StampsOf(t, show), ids) && NothingNewerOutside(StampsOf(t, show), ids)
  {
    var m, all := StampsOf(t, show), Ordered(t, show);
    OrderedRows(t, show);
    if ids <= all {
      forall x, y | x in ids && x in m && y in m && y !in ids ensures Before(m, x, y) {
        var i :| 0 <= i < |ids| && ids[i] == x;
        assert y in all;
        var j :| 0 <= j < |all| && all[j] == y;
        assert j >= |ids|;
      }
      assert Sorted(m, ids);
    }
    if Sorted(m, ids) && NothingNewerOutside(m, ids) { SortedFront(m, ids); }
  }

  lemma SortedFront(m: Stamps, ids: seq<EpisodeId>)
    requires Sorted(m, ids) && NothingNewerOutside(m, ids)
    ensures ids <= NewestFirst(m)
  {
    var rest := m - (set x | x in ids);
    NewestFirstSorted(rest);
    var older := NewestFirst(rest);
    var all := ids + older;
    forall i, j | 0 <= i < j < |all| ensures Before(m, all[i], all[j]) {
      if j < |ids| { assert Before(m, ids[i], ids[j]); }
      else {
        assert older[j - |ids|] in rest;
        if i >= |ids| { assert Before(rest, older[i - |ids|], older[j - |ids|]); }
        else { assert ids[i] in ids; }
      }
    }
    forall i | 0 <= i < |all| ensures all[i] in m {
      if i >= |ids| { assert older[i - |ids|] in rest; }
    }
    forall x | x in m ensures x in all {
      if x !in ids { assert x in rest; assert x in older; }
    }
    SortedUnique(m, all);
  }

  /** A newest-first listing, once recorded, is a prefix of the stored order exactly when simultaneous
      episodes come with descending ids, no two times are misordered as texts, and no stored row
      outside it sorts newer than one inside. */
  lemma FullListingExactly(t: Table, show: ShowSlug, listing: seq<EpisodeMeta>)
    requires Descending(listing) && Absorbed(t, show, listing)
    ensures ListedIds(listing) <= Ordered(t, show) <==>
              TiesDescend(listing) && NoneSwapped(listing) && NothingNewerOutside(StampsOf(t, show), ListedIds(listing))
  {
    ListingInStoredOrder(t, show, listing);
    PrefixOfStoredOrder(t, show, ListedIds(listing));
  }

  /** On whole seconds the ids of simultaneous episodes alone decide the listing's own order. */
  lemma FullListingIsPrefix(t: Table, show: ShowSlug, listing: seq<EpisodeMeta>)
    requires Descending(listing) && Absorbed(t, show, listing)
    requires forall i :: 0 <= i < |listing| ==> WholeSecond(listing[i].publishedAt)
    ensures ListedIds(listing) <= Ordered(t, show) <==>
              TiesDescend(listing) && NothingNewerOutside(StampsOf(t, show), ListedIds(listing))
  {
    WholeSecondsNotSwapped(listing);
    FullListingExactly(t, show, listing);
  }
}
