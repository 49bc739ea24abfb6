/** Retention planning: which episodes of a newest-first list a policy keeps. */
module Retention {
  import opened Wrappers
  import opened Domain

  datatype Policy = Policy(keepLast: Option<nat>, maxBytes: Option<nat>)

  datatype Candidate = Candidate(id: EpisodeId, bytes: nat)

  // ----- what a policy allows -----

  function Bytes(cs: seq<Candidate>): nat {
    if cs == [] then 0 else Bytes(cs[..|cs| - 1]) + cs[|cs| - 1].bytes
  }

  /** A set of episodes the policy tolerates: few enough, and small enough unless it is
      at most one episode. */
  predicate Feasible(policy: Policy, cs: seq<Candidate>) {
    && (policy.keepLast.Some? ==> |cs| <= policy.keepLast.value)
    && (policy.maxBytes.Some? ==> |cs| <= 1 || Bytes(cs) <= policy.maxBytes.value)
  }

  /** The entries of `s` that `mask` picks, in order. */
  function Select<T>(s: seq<T>, mask: seq<bool>): (r: seq<T>)
    requires |s| == |mask|
    ensures |r| <= |s|
  {
    if s == [] then []
    else
      var n := |s| - 1;
      Select(s[..n], mask[..n]) + if mask[n] then [s[n]] else []
  }

  lemma SelectLast<T>(s: seq<T>, mask: seq<bool>)
    requires |s| == |mask| && s != []
    ensures var n := |s| - 1;
            Select(s, mask) == if mask[n] then Select(s[..n], mask[..n]) + [s[n]] else Select(s[..n], mask[..n])
  {
  }

  function Not(mask: seq<bool>): (r: seq<bool>)
    ensures |r| == |mask| && forall i :: 0 <= i < |r| ==> r[i] == !mask[i]
  {
    seq(|mask|, i requires 0 <= i < |mask| => !mask[i])
  }

  /** Newest first, take every candidate that still leaves a feasible set. */
  function Choice(policy: Policy, cs: seq<Candidate>): (mask: seq<bool>)
    ensures |mask| == |cs|
  {
    if cs == [] then []
    else
      var n := |cs| - 1;
      var older := Choice(policy, cs[..n]);
      older + [Feasible(policy, Select(cs[..n], older) + [cs[n]])]
  }

  function Kept(policy: Policy, cs: seq<Candidate>): seq<Candidate> {
    Select(cs, Choice(policy, cs))
  }

  function Doomed(policy: Policy, cs: seq<Candidate>): seq<Candidate> {
    Select(cs, Not(Choice(policy, cs)))
  }

  function Ids(cs: seq<Candidate>): (r: seq<EpisodeId>)
    ensures |r| == |cs| && forall i :: 0 <= i < |r| ==> r[i] == cs[i].id
  {
    seq(|cs|, i requires 0 <= i < |cs| => cs[i].id)
  }

  function Reversed<T>(s: seq<T>): (r: seq<T>)
    ensures |r| == |s| && forall i :: 0 <= i < |s| ==> r[i] == s[|s| - 1 - i]
  {
    seq(|s|, i requires 0 <= i < |s| => s[|s| - 1 - i])
  }

  // ----- the planner -----

  lemma Unfold(policy: Policy, cs: seq<Candidate>, c: Candidate)
    ensures Feasible(policy, Kept(policy, cs) + [c]) ==>
              Kept(policy, cs + [c]) == Kept(policy, cs) + [c] && Doomed(policy, cs + [c]) == Doomed(policy, cs)
    ensures !Feasible(policy, Kept(policy, cs) + [c]) ==>
              Kept(policy, cs + [c]) == Kept(policy, cs) && Doomed(policy, cs + [c]) == Doomed(policy, cs) + [c]
  {
    var all := cs + [c];
    assert all[..|all| - 1] == cs;
    var mask := Choice(policy, all);
    assert mask[..|cs|] == Choice(policy, cs);
    assert Not(mask)[..|cs|] == Not(Choice(policy, cs));
  }

  lemma {:induction false} KeptFeasible(policy: Policy, cs: seq<Candidate>)
    ensures Feasible(policy, Kept(policy, cs))
  {
    if cs != [] {
      var n := |cs| - 1;
      assert cs == cs[..n] + [cs[n]];
      KeptFeasible(policy, cs[..n]);
      Unfold(policy, cs[..n], cs[n]);
    }
  }

  lemma BytesAppend(cs: seq<Candidate>, c: Candidate)
    ensures Bytes(cs + [c]) == Bytes(cs) + c.bytes
  {
    assert (cs + [c])[..|cs|] == cs;
  }

  /** The two limit tests of the walk reject exactly the infeasible extensions. */
  lemma LimitTests(policy: Policy, kept: seq<Candidate>, c: Candidate)
    requires Feasible(policy, kept)
    ensures var overCount := policy.keepLast.Some? && |kept| >= policy.keepLast.value;
            var overBytes := kept != [] && policy.maxBytes.Some? && Bytes(kept) + c.bytes > policy.maxBytes.value;
            !(overCount || overBytes) <==> Feasible(policy, kept + [c])
    ensures Bytes(kept + [c]) == Bytes(kept) + c.bytes
  {
    BytesAppend(kept, c);
    assert |kept + [c]| == |kept| + 1;
  }

  lemma IdsAppend(cs: seq<Candidate>, c: Candidate)
    ensures Ids(cs + [c]) == Ids(cs) + [c.id]
  {
  }

  /** One step of the walk: what taking or rejecting the next candidate does to the kept ids, the
      doomed ids and the byte total. */
  lemma WalkStep(policy: Policy, cs: seq<Candidate>, i: nat)
    requires i < |cs|
    ensures var k, d, c := Kept(policy, cs[..i]), Doomed(policy, cs[..i]), cs[i];
            var k', d' := Kept(policy, cs[..i + 1]), Doomed(policy, cs[..i + 1]);
            var overCount := policy.keepLast.Some? && |k| >= policy.keepLast.value;
            var overBytes := k != [] && policy.maxBytes.Some? && Bytes(k) + c.bytes > policy.maxBytes.value;
            if overCount || overBytes then Ids(k') == Ids(k) && Bytes(k') == Bytes(k) && Ids(d') == Ids(d) + [c.id]
            else Ids(k') == Ids(k) + [c.id] && Bytes(k') == Bytes(k) + c.bytes && Ids(d') == Ids(d)
  {
    var before, c := cs[..i], cs[i];
    assert cs[..i + 1] == before + [c];
    KeptFeasible(policy, before);
    Unfold(policy, before, c);
    LimitTests(policy, Kept(policy, before), c);
    IdsAppend(Kept(policy, before), c);
    IdsAppend(Doomed(policy, before), c);
  }

  /** The walk of the planner, newest to oldest, with a running byte total. */
  method Split(policy: Policy, newestFirst: seq<Candidate>)
    returns (kept: seq<EpisodeId>, doomed: seq<EpisodeId>)
    ensures kept == Ids(Kept(policy, newestFirst))
    ensures doomed == Reversed(Ids(Doomed(policy, newestFirst)))
  {
    var keptBytes: nat := 0;
    kept, doomed := [], [];
    for i := 0 to |newestFirst|
      invariant kept == Ids(Kept(policy, newestFirst[..i]))
      invariant doomed == Ids(Doomed(policy, newestFirst[..i]))
      invariant keptBytes == Bytes(Kept(policy, newestFirst[..i]))
    {
      var candidate := newestFirst[i];
      WalkStep(policy, newestFirst, i);
      var overCount := policy.keepLast.Some? && |kept| >= policy.keepLast.value;
      var overBytes := kept != [] && policy.maxBytes.Some? && keptBytes + candidate.bytes > policy.maxBytes.value;
      if overCount || overBytes {
        doomed := doomed + [candidate.id];
      } else {
        keptBytes := keptBytes + candidate.bytes;
        kept := kept + [candidate.id];
      }
    }
    assert newestFirst[..|newestFirst|] == newestFirst;
    doomed := Reversed(doomed);
  }

  /** The episodes to prune, oldest first. */
  method Plan(policy: Policy, newestFirst: seq<Candidate>) returns (doomed: seq<EpisodeId>)
    ensures doomed == Reversed(Ids(Doomed(policy, newestFirst)))
  {
    var _, d := Split(policy, newestFirst);
    doomed := d;
  }

  // ----- the kept set is the lexicographically first feasible one -----

  lemma {:induction false} SelectBytes(cs: seq<Candidate>, mask: seq<bool>)
    requires |cs| == |mask|
    ensures Bytes(Select(cs, mask)) <= Bytes(cs)
  {
    if cs != [] {
      var n := |cs| - 1;
      SelectBytes(cs[..n], mask[..n]);
      var rest := Select(cs[..n], mask[..n]);
      if mask[n] {
        assert (rest + [cs[n]])[..|rest|] == rest;
      } else {
        assert rest + [] == rest;
      }
    }
  }

  /** Leaving episodes out of a feasible set keeps it feasible. */
  lemma FeasibleSubset(policy: Policy, cs: seq<Candidate>, mask: seq<bool>)
    requires |cs| == |mask| && Feasible(policy, cs)
    ensures Feasible(policy, Select(cs, mask))
  {
    SelectBytes(cs, mask);
  }

  lemma FeasiblePrefix(policy: Policy, cs: seq<Candidate>, c: Candidate)
    requires Feasible(policy, cs + [c])
    ensures Feasible(policy, cs)
  {
    assert (cs + [c])[..|cs|] == cs;
  }

  /** `a` beats `b` when it picks, and `b` skips, the newest episode they disagree on. */
  ghost predicate Beats(a: seq<bool>, b: seq<bool>)
    requires |a| == |b|
  {
    exists i :: 0 <= i < |a| && a[..i] == b[..i] && a[i] && !b[i]
  }

  lemma BeatsLater(a: seq<bool>, b: seq<bool>, n: nat)
    requires |a| == |b| && n <= |a| && Beats(a[..n], b[..n])
    ensures Beats(a, b)
  {
    var i :| 0 <= i < n && a[..n][..i] == b[..n][..i] && a[..n][i] && !b[..n][i];
    assert a[..i] == a[..n][..i] && b[..i] == b[..n][..i];
  }

  /** A feasible choice stays feasible without the oldest candidate. */
  lemma FeasibleNewer(policy: Policy, cs: seq<Candidate>, mask: seq<bool>)
    requires cs != [] && |mask| == |cs| && Feasible(policy, Select(cs, mask))
    ensures var n := |cs| - 1;
            && Feasible(policy, Select(cs[..n], mask[..n]))
            && (mask[n] ==> Feasible(policy, Select(cs[..n], mask[..n]) + [cs[n]]))
  {
    var n := |cs| - 1;
    SelectLast(cs, mask);
    if mask[n] { FeasiblePrefix(policy, Select(cs[..n], mask[..n]), cs[n]); }
  }

  lemma ChoiceLast(policy: Policy, cs: seq<Candidate>)
    requires cs != []
    ensures var n := |cs| - 1;
            && Choice(policy, cs)[..n] == Choice(policy, cs[..n])
            && Choice(policy, cs)[n] == Feasible(policy, Kept(policy, cs[..n]) + [cs[n]])
  {
  }

  /** The planner's choice is feasible and beats every other feasible choice. */
  lemma {:induction false} LexicographicallyFirst(policy: Policy, cs: seq<Candidate>, other: seq<bool>)
    requires |other| == |cs|
    requires Feasible(policy, Select(cs, other))
    ensures Feasible(policy, Kept(policy, cs))
    ensures other == Choice(policy, cs) || Beats(Choice(policy, cs), other)
  {
    KeptFeasible(policy, cs);
    if cs != [] {
      var n := |cs| - 1;
      var best := Choice(policy, cs);
      FeasibleNewer(policy, cs, other);
      ChoiceLast(policy, cs);
      LexicographicallyFirst(policy, cs[..n], other[..n]);
      FirstDifference(best, other, n);
    }
  }

  lemma FirstDifference(best: seq<bool>, other: seq<bool>, n: nat)
    requires |best| == |other| == n + 1
    requires other[..n] == best[..n] || Beats(best[..n], other[..n])
    requires other[..n] == best[..n] && other[n] ==> best[n]
    ensures other == best || Beats(best, other)
  {
    if other[..n] != best[..n] {
      BeatsLater(best, other, n);
    } else if other[n] == best[n] {
      assert other == other[..n] + [other[n]] && best == best[..n] + [best[n]];
    }
  }

  lemma NotLast(mask: seq<bool>)
    requires mask != []
    ensures var n := |mask| - 1; Not(mask)[..n] == Not(mask[..n]) && Not(mask)[n] == !mask[n]
  {
  }

  lemma SelectBothLast<T>(s: seq<T>, mask: seq<bool>)
    requires |s| == |mask| && s != []
    ensures var n := |s| - 1;
            var picked, others := Select(s[..n], mask[..n]), Select(s[..n], Not(mask[..n]));
            && Select(s, mask) == (if mask[n] then picked + [s[n]] else picked)
            && Select(s, Not(mask)) == (if mask[n] then others else others + [s[n]])
  {
    NotLast(mask);
    SelectLast(s, mask);
    SelectLast(s, Not(mask));
  }

  lemma Deal<T>(picked: seq<T>, others: seq<T>, s: seq<T>, pick: bool, picked': seq<T>, others': seq<T>)
    requires s != [] && multiset(picked) + multiset(others) == multiset(s[..|s| - 1])
    requires picked' == if pick then picked + [s[|s| - 1]] else picked
    requires others' == if pick then others else others + [s[|s| - 1]]
    ensures multiset(picked') + multiset(others') == multiset(s)
  {
    assert s == s[..|s| - 1] + [s[|s| - 1]];
  }

  lemma {:induction false} SelectPartition<T>(s: seq<T>, mask: seq<bool>)
    requires |s| == |mask|
    ensures multiset(Select(s, mask)) + multiset(Select(s, Not(mask))) == multiset(s)
  {
    if s != [] {
      var n := |s| - 1;
      var picked, others := Select(s[..n], mask[..n]), Select(s[..n], Not(mask[..n]));
      SelectPartition(s[..n], mask[..n]);
      SelectBothLast(s, mask);
      Deal(picked, others, s, mask[n], Select(s, mask), Select(s, Not(mask)));
    }
  }

  /** The indices `mask` picks. */
  function Positions(mask: seq<bool>): seq<nat> {
    if mask == [] then []
    else
      var n := |mask| - 1;
      Positions(mask[..n]) + if mask[n] then [n] else []
  }

  /** Selecting keeps the input order: the picked entries sit at strictly rising positions. */
  lemma {:induction false} SelectKeepsOrder<T>(s: seq<T>, mask: seq<bool>)
    requires |s| == |mask|
    ensures var at := Positions(mask);
            && |at| == |Select(s, mask)|
            && (forall j :: 0 <= j < |at| ==> at[j] < |s| && mask[at[j]] && Select(s, mask)[j] == s[at[j]])
            && (forall j, k :: 0 <= j < k < |at| ==> at[j] < at[k])
  {
    if s != [] {
      var n := |s| - 1;
      SelectKeepsOrder(s[..n], mask[..n]);
    }
  }

  /** Kept and doomed split the input: nothing is lost, duplicated or reordered. */
  lemma {:induction false} SplitPartitions(policy: Policy, cs: seq<Candidate>)
    ensures multiset(Kept(policy, cs)) + multiset(Doomed(policy, cs)) == multiset(cs)
    ensures var kept, doomed := Positions(Choice(policy, cs)), Positions(Not(Choice(policy, cs)));
            && |kept| == |Kept(policy, cs)| && |doomed| == |Doomed(policy, cs)|
            && (forall j :: 0 <= j < |kept| ==> kept[j] < |cs| && Kept(policy, cs)[j] == cs[kept[j]])
            && (forall j :: 0 <= j < |doomed| ==> doomed[j] < |cs| && Doomed(policy, cs)[j] == cs[doomed[j]])
            && (forall j, k :: 0 <= j < k < |kept| ==> kept[j] < kept[k])
            && (forall j, k :: 0 <= j < k < |doomed| ==> doomed[j] < doomed[k])
  {
    SelectPartition(cs, Choice(policy, cs));
    SelectKeepsOrder(cs, Choice(policy, cs));
    SelectKeepsOrder(cs, Not(Choice(policy, cs)));
  }

  // ----- rejected candidates do not matter -----

  lemma {:induction false} SelectSelects<T>(s: seq<T>, mask: seq<bool>, i: nat)
    requires |s| == |mask| && i < |s| && mask[i]
    ensures s[i] in Select(s, mask)
  {
    var n := |s| - 1;
    if i < n { SelectSelects(s[..n], mask[..n], i); }
  }

  /** Removing any of the doomed candidates from the input leaves the kept ones as they were. */
  lemma {:induction false} DoomedAreIrrelevant(policy: Policy, cs: seq<Candidate>, mask: seq<bool>)
    requires |mask| == |cs|
    requires forall i :: 0 <= i < |cs| && Choice(policy, cs)[i] ==> mask[i]
    ensures Kept(policy, Select(cs, mask)) == Kept(policy, cs)
  {
    if cs != [] {
      var n := |cs| - 1;
      ChoiceLast(policy, cs);
      assert forall i :: 0 <= i < n && Choice(policy, cs[..n])[i] ==> Choice(policy, cs)[i];
      DoomedAreIrrelevant(policy, cs[..n], mask[..n]);
      SelectLast(cs, mask);
      Extend(policy, cs[..n], Select(cs[..n], mask[..n]), cs[n], mask[n], cs, Select(cs, mask));
    }
  }

  /** Two inputs that keep the same go on keeping the same, even when only one is given a
      candidate that is rejected anyway. */
  lemma Extend(
    policy: Policy, all: seq<Candidate>, some: seq<Candidate>, c: Candidate, picked: bool,
    all': seq<Candidate>, some': seq<Candidate>)
    requires Kept(policy, all) == Kept(policy, some)
    requires picked || !Feasible(policy, Kept(policy, all) + [c])
    requires all' == all + [c] && some' == if picked then some + [c] else some
    ensures Kept(policy, some') == Kept(policy, all')
  {
    Unfold(policy, all, c);
    Unfold(policy, some, c);
  }

  lemma {:induction false} SelectAll<T>(s: seq<T>, mask: seq<bool>)
    requires |s| == |mask|
    ensures (forall i :: 0 <= i < |s| ==> mask[i]) ==> Select(s, mask) == s
    ensures |Select(s, mask)| == |s| ==> forall i :: 0 <= i < |s| ==> mask[i]
  {
    if s != [] {
      var n := |s| - 1;
      SelectAll(s[..n], mask[..n]);
      if forall i :: 0 <= i < |s| ==> mask[i] {
        assert forall i :: 0 <= i < n ==> mask[..n][i];
        assert s == s[..n] + [s[n]];
      }
      if |Select(s, mask)| == |s| {
        forall i | 0 <= i < |s| ensures mask[i] {
          if i < n { assert mask[..n][i]; }
        }
      }
    }
  }

  lemma {:induction false} SelectNone<T>(s: seq<T>, mask: seq<bool>)
    requires |s| == |mask|
    requires forall i :: 0 <= i < |s| ==> !mask[i]
    ensures Select(s, mask) == []
  {
    if s != [] {
      var n := |s| - 1;
      SelectNone(s[..n], mask[..n]);
    }
  }

  /** Planning the survivors again dooms nothing. */
  lemma ReplanIsStable(policy: Policy, cs: seq<Candidate>)
    ensures Kept(policy, Kept(policy, cs)) == Kept(policy, cs)
    ensures Doomed(policy, Kept(policy, cs)) == []
  {
    DoomedAreIrrelevant(policy, cs, Choice(policy, cs));
    var k := Kept(policy, cs);
    SelectAll(k, Choice(policy, k));
    SelectNone(k, Not(Choice(policy, k)));
  }

  /** Older candidates never influence which newer ones are kept; what they add are older ones. */
  lemma {:induction false} KeptOfPrefix(policy: Policy, newer: seq<Candidate>, older: seq<Candidate>)
    ensures OlderAdded(Kept(policy, newer), Kept(policy, newer + older), older)
  {
    if older == [] {
      assert newer + older == newer;
    } else {
      var n := |older| - 1;
      KeptOfPrefix(policy, newer, older[..n]);
      assert newer + older == (newer + older[..n]) + [older[n]];
      Unfold(policy, newer + older[..n], older[n]);
      OlderAddedStep(Kept(policy, newer), Kept(policy, newer + older[..n]), older);
    }
  }

  /** `all` is `k` followed by some of `older`. */
  ghost predicate OlderAdded(k: seq<Candidate>, all: seq<Candidate>, older: seq<Candidate>) {
    k <= all && forall i :: |k| <= i < |all| ==> all[i] in older
  }

  lemma OlderAddedStep(k: seq<Candidate>, all: seq<Candidate>, older: seq<Candidate>)
    requires older != [] && OlderAdded(k, all, older[..|older| - 1])
    ensures OlderAdded(k, all, older) && OlderAdded(k, all + [older[|older| - 1]], older)
  {
    assert older == older[..|older| - 1] + [older[|older| - 1]];
  }

  // ----- widening the count -----

  function Take<T>(s: seq<T>, n: nat): seq<T> {
    if n <= |s| then s[..n] else s
  }

  /** Under any byte cap, `keep_last = n` keeps the first `n` of what is kept without it. */
  lemma {:induction false} CountTakesPrefix(n: nat, maxBytes: Option<nat>, cs: seq<Candidate>)
    ensures Kept(Policy(Some(n), maxBytes), cs) == Take(Kept(Policy(None, maxBytes), cs), n)
  {
    if cs != [] {
      var m := |cs| - 1;
      CountTakesPrefix(n, maxBytes, cs[..m]);
      assert cs == cs[..m] + [cs[m]];
      Unfold(Policy(Some(n), maxBytes), cs[..m], cs[m]);
      Unfold(Policy(None, maxBytes), cs[..m], cs[m]);
      CountStep(n, maxBytes, Kept(Policy(None, maxBytes), cs[..m]), cs[m]);
    }
  }

  lemma CountStep(n: nat, maxBytes: Option<nat>, k: seq<Candidate>, c: Candidate)
    ensures |k| >= n ==> !Feasible(Policy(Some(n), maxBytes), Take(k, n) + [c]) && Take(k + [c], n) == Take(k, n)
    ensures |k| < n ==> Take(k, n) == k && Take(k + [c], n) == k + [c]
    ensures |k| < n ==> (Feasible(Policy(Some(n), maxBytes), k + [c]) <==> Feasible(Policy(None, maxBytes), k + [c]))
  {
  }

  /** A larger count keeps everything the smaller one kept; what it adds is older. */
  lemma WideningCountOnlyAdds(n: nat, m: nat, maxBytes: Option<nat>, cs: seq<Candidate>)
    requires n <= m
    ensures Kept(Policy(Some(n), maxBytes), cs) <= Kept(Policy(Some(m), maxBytes), cs)
  {
    CountTakesPrefix(n, maxBytes, cs);
    CountTakesPrefix(m, maxBytes, cs);
  }

  /** Without a byte cap the kept episodes are simply the newest ones. */
  lemma {:induction false} CountOnlyKeepsNewest(n: nat, cs: seq<Candidate>)
    ensures Kept(Policy(Some(n), None), cs) == Take(cs, n)
  {
    CountTakesPrefix(n, None, cs);
    NoLimitKeepsAll(cs);
  }

  lemma {:induction false} NoLimitKeepsAll(cs: seq<Candidate>)
    ensures Kept(Policy(None, None), cs) == cs
  {
    if cs != [] {
      var m := |cs| - 1;
      NoLimitKeepsAll(cs[..m]);
      assert cs == cs[..m] + [cs[m]];
      Unfold(Policy(None, None), cs[..m], cs[m]);
    }
  }

  // ----- single candidates -----

  lemma {:induction false} ChoicePrefix(policy: Policy, cs: seq<Candidate>, m: nat)
    requires m <= |cs|
    ensures Choice(policy, cs)[..m] == Choice(policy, cs[..m])
  {
    if m == |cs| {
      assert cs[..m] == cs;
    } else {
      var n := |cs| - 1;
      ChoiceLast(policy, cs);
      ChoicePrefix(policy, cs[..n], m);
      assert cs[..n][..m] == cs[..m];
    }
  }

  lemma ChoiceAt(policy: Policy, cs: seq<Candidate>, i: nat)
    requires i < |cs|
    ensures Choice(policy, cs)[i] == Feasible(policy, Kept(policy, cs[..i]) + [cs[i]])
  {
    var upTo := cs[..i + 1];
    assert upTo[..i] == cs[..i];
    ChoicePrefix(policy, cs, i + 1);
    ChoiceLast(policy, upTo);
    assert Choice(policy, cs)[i] == Choice(policy, cs)[..i + 1][i];
  }

  lemma KeptFirst(policy: Policy, c: Candidate)
    requires policy.keepLast.Some? ==> policy.keepLast.value > 0
    ensures Kept(policy, [c]) == [c] && Bytes([c]) == c.bytes
  {
    Unfold(policy, [], c);
    BytesAppend([], c);
    assert [] + [c] == [c];
  }

  /** The newest candidate is kept by every policy that keeps anything. */
  lemma NewestKept(policy: Policy, cs: seq<Candidate>)
    requires cs != [] && (policy.keepLast.Some? ==> policy.keepLast.value > 0)
    ensures var k := Kept(policy, cs); k != [] && k[0] == cs[0]
  {
    KeptFirst(policy, cs[0]);
    KeptOfPrefix(policy, [cs[0]], cs[1..]);
    assert cs == [cs[0]] + cs[1..];
  }

  lemma {:induction false} WeightlessBytes(cs: seq<Candidate>)
    requires forall i :: 0 <= i < |cs| ==> cs[i].bytes == 0
    ensures Bytes(cs) == 0
  {
    if cs != [] { WeightlessBytes(cs[..|cs| - 1]); }
  }

  /** A list within the limits is kept whole. */
  lemma {:induction false} FeasibleKeepsAll(policy: Policy, cs: seq<Candidate>)
    requires Feasible(policy, cs)
    ensures Kept(policy, cs) == cs
  {
    if cs != [] {
      var n := |cs| - 1;
      assert cs == cs[..n] + [cs[n]];
      FeasiblePrefix(policy, cs[..n], cs[n]);
      FeasibleKeepsAll(policy, cs[..n]);
      Unfold(policy, cs[..n], cs[n]);
    }
  }

  lemma {:induction false} FirstIsPart(k: seq<Candidate>)
    requires k != []
    ensures k[0].bytes <= Bytes(k)
  {
    if |k| > 1 { FirstIsPart(k[..|k| - 1]); }
    else { assert k[..0] == []; }
  }

  lemma {:induction false} RejectedTail(policy: Policy, cs: seq<Candidate>, older: seq<Candidate>)
    requires forall c :: c in older ==> !Feasible(policy, Kept(policy, cs) + [c])
    ensures Kept(policy, cs + older) == Kept(policy, cs)
  {
    if older == [] {
      assert cs + older == cs;
    } else {
      var n := |older| - 1;
      assert older == older[..n] + [older[n]];
      RejectedTail(policy, cs, older[..n]);
      assert cs + older == (cs + older[..n]) + [older[n]];
      Unfold(policy, cs + older[..n], older[n]);
    }
  }
}
