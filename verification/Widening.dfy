/** When raising or removing the byte cap of a policy may drop an episode that was kept before. */
module Widening {
  import opened Wrappers
  import opened Retention

  /** Whatever `p` keeps of a list, `q` keeps too. */
  ghost predicate DropsNothing(p: Policy, q: Policy, cs: seq<Candidate>) {
    forall i :: 0 <= i < |cs| && Choice(p, cs)[i] ==> Choice(q, cs)[i]
  }

  lemma TryNext(cap: nat, older: seq<Candidate>, k: seq<Candidate>, c: Candidate)
    requires Kept(Policy(None, Some(cap)), older) == k
    ensures Feasible(Policy(None, Some(cap)), k + [c]) <==> k == [] || Bytes(k) + c.bytes <= cap
    ensures Kept(Policy(None, Some(cap)), older + [c]) == if k == [] || Bytes(k) + c.bytes <= cap then k + [c] else k
    ensures Bytes(k + [c]) == Bytes(k) + c.bytes
  {
    BytesAppend(k, c);
    assert |k + [c]| == |k| + 1;
    KeptFeasible(Policy(None, Some(cap)), older);
    Unfold(Policy(None, Some(cap)), older, c);
  }

  lemma TwoKept(cap: nat, older: seq<Candidate>, first: seq<Candidate>, b: Candidate, k: seq<Candidate>, sum: nat)
    requires |first| == 1 && older == first + [b] && k == Kept(Policy(None, Some(cap)), older) && sum == first[0].bytes + b.bytes
    ensures k == if sum <= cap then older else first
    ensures k != [] && Bytes(k) == if sum <= cap then sum else first[0].bytes
  {
    assert first == [] + [first[0]];
    KeptFirst(Policy(None, Some(cap)), first[0]);
    BytesAppend([], first[0]);
    TryNext(cap, first, first, b);
  }

  lemma ChosenNext(cap: nat, cs: seq<Candidate>, i: nat, older: seq<Candidate>, k: seq<Candidate>)
    requires i < |cs| && cs[..i] == older && Kept(Policy(None, Some(cap)), older) == k
    ensures Choice(Policy(None, Some(cap)), cs)[i] <==> k == [] || Bytes(k) + cs[i].bytes <= cap
  {
    ChoiceAt(Policy(None, Some(cap)), cs, i);
    TryNext(cap, older, k, cs[i]);
  }

  lemma FirstTwoChosen(cap: nat, cs: seq<Candidate>, a: Candidate, b: Candidate)
    requires |cs| >= 2 && cs[0] == a && cs[1] == b
    ensures Choice(Policy(None, Some(cap)), cs)[0]
    ensures Choice(Policy(None, Some(cap)), cs)[1] == (a.bytes + b.bytes <= cap)
  {
    KeptFirst(Policy(None, Some(cap)), a);
    ChosenNext(cap, cs, 0, [], []);
    assert cs[..1] == [a];
    ChosenNext(cap, cs, 1, [a], [a]);
    BytesAppend([], a);
    assert [] + [a] == [a];
  }

  lemma NextFits(cap: nat, cs: seq<Candidate>, i: nat, older: seq<Candidate>, k: seq<Candidate>, size: nat)
    requires i < |cs| && cs[..i] == older && Kept(Policy(None, Some(cap)), older) == k && k != [] && Bytes(k) == size
    ensures Choice(Policy(None, Some(cap)), cs)[i] == (size + cs[i].bytes <= cap)
  {
    ChosenNext(cap, cs, i, older, k);
  }

  lemma ThirdChosen(cap: nat, cs: seq<Candidate>, older: seq<Candidate>, first: seq<Candidate>, k: seq<Candidate>, sum: nat, size: nat)
    requires |cs| >= 3 && older == cs[..2] && first == cs[..1] && k == Kept(Policy(None, Some(cap)), older)
    requires sum == cs[0].bytes + cs[1].bytes && size == if sum <= cap then sum else cs[0].bytes
    ensures Choice(Policy(None, Some(cap)), cs)[2] == (size + cs[2].bytes <= cap)
  {
    assert older == first + [cs[1]];
    TwoKept(cap, older, first, cs[1], k, sum);
    NextFits(cap, cs, 2, older, k, size);
  }

  /** What a byte cap keeps of three candidates: the newest always, the others where they fit. */
  lemma ThreeChosen(cap: nat, a: Candidate, b: Candidate, c: Candidate)
    ensures var m := Choice(Policy(None, Some(cap)), [a, b, c]);
            && m[0] && m[1] == (a.bytes + b.bytes <= cap)
            && m[2] == ((if m[1] then a.bytes + b.bytes else a.bytes) + c.bytes <= cap)
  {
    var cs := [a, b, c];
    FirstTwoChosen(cap, cs, a, b);
    var sum := a.bytes + b.bytes;
    ThirdChosen(cap, cs, cs[..2], cs[..1], Kept(Policy(None, Some(cap)), cs[..2]), sum, if sum <= cap then sum else a.bytes);
  }

  /** Of three candidates a larger cap drops one exactly when the second newest fits only the
      larger cap and then leaves no room for the third, which fitted before. */
  lemma ThreeDropExactly(cap: nat, cap': nat, a: Candidate, b: Candidate, c: Candidate)
    requires cap <= cap'
    ensures !DropsNothing(Policy(None, Some(cap)), Policy(None, Some(cap')), [a, b, c])
            <==> a.bytes + c.bytes <= cap < a.bytes + b.bytes <= cap' < a.bytes + b.bytes + c.bytes
  {
    ThreeChosen(cap, a, b, c);
    ThreeChosen(cap', a, b, c);
    var m, m' := Choice(Policy(None, Some(cap)), [a, b, c]), Choice(Policy(None, Some(cap')), [a, b, c]);
    if DropsNothing(Policy(None, Some(cap)), Policy(None, Some(cap')), [a, b, c]) {
      assert m[2] ==> m'[2];
    }
  }

  /** Raising a cap may be done whatever the list: an empty cap without a count limit, or a count
      limit of at most one. */
  predicate SafeToRaise(keepLast: Option<nat>, cap: nat) {
    if keepLast.Some? then keepLast.value <= 1 else cap == 0
  }

  /** What an empty cap keeps besides the newest is without size and behind a newest without size. */
  lemma EmptyCapChoice(cs: seq<Candidate>, i: nat)
    requires 0 < i < |cs| && Choice(Policy(None, Some(0)), cs)[i]
    ensures cs[i].bytes == 0 && cs[0].bytes == 0
  {
    var p := Policy(None, Some(0));
    var k := Kept(p, cs[..i]);
    ChoiceAt(p, cs, i);
    NewestKept(p, cs[..i]);
    BytesAppend(k, cs[i]);
    assert |k + [cs[i]]| >= 2;
    FirstIsPart(k);
  }

  /** A candidate without size fits every cap behind a newest one that does. */
  lemma WeightlessFits(cap: nat, cs: seq<Candidate>, i: nat)
    requires i < |cs| && cs[i].bytes == 0 && (i > 0 ==> cs[0].bytes <= cap)
    ensures Choice(Policy(None, Some(cap)), cs)[i]
  {
    var p := Policy(None, Some(cap));
    var k := Kept(p, cs[..i]);
    ChoiceAt(p, cs, i);
    KeptFeasible(p, cs[..i]);
    BytesAppend(k, cs[i]);
    assert |k + [cs[i]]| == |k| + 1;
    if i > 0 && |k| <= 1 {
      NewestKept(p, cs[..i]);
      BytesAppend([], k[0]);
      assert k == [] + [k[0]];
    }
  }

  /** A count limit of at most one decides alone. */
  lemma {:induction false} CountOfOne(n: nat, cap: Option<nat>, cap': Option<nat>, cs: seq<Candidate>)
    requires n <= 1
    ensures Choice(Policy(Some(n), cap), cs) == Choice(Policy(Some(n), cap'), cs)
  {
    if cs != [] {
      CountOfOne(n, cap, cap', cs[..|cs| - 1]);
    }
  }

  lemma SafeRaiseDropsNothing(keepLast: Option<nat>, cap: nat, cap': nat, cs: seq<Candidate>)
    requires SafeToRaise(keepLast, cap)
    ensures DropsNothing(Policy(keepLast, Some(cap)), Policy(keepLast, Some(cap')), cs)
  {
    if keepLast.Some? {
      CountOfOne(keepLast.value, Some(cap), Some(cap'), cs);
    } else {
      forall i | 0 <= i < |cs| && Choice(Policy(None, Some(0)), cs)[i] ensures Choice(Policy(None, Some(cap')), cs)[i] {
        if i == 0 {
          ChoiceAt(Policy(None, Some(cap')), cs, 0);
          assert cs[..0] == [];
        } else {
          EmptyCapChoice(cs, i);
          WeightlessFits(cap', cs, i);
        }
      }
    }
  }

  /** For every other policy there is a list that loses its oldest candidate: without a count
      limit, one that just fits the smaller cap behind a middle one that just fits the larger;
      with one, a row of candidates without size in which the middle one takes the last place. */
  function LosingList(keepLast: Option<nat>, cap: nat, cap': nat): seq<Candidate>
    requires keepLast.Some? ==> keepLast.value > 0
  {
    if keepLast.None?
    then [Candidate("3", if cap > 0 then cap - 1 else 0), Candidate("2", if cap' > cap then cap' - cap + 1 else 0), Candidate("1", 1)]
    else seq(keepLast.value - 1, _ => Candidate("3", 0)) + [Candidate("2", cap + 1), Candidate("1", 0)]
  }

  lemma CountedListLoses(n: nat, cap: nat, cap': nat, q: Policy)
    requires n >= 2 && q.keepLast == Some(n) && (q.maxBytes.Some? ==> cap < q.maxBytes.value)
    ensures !DropsNothing(Policy(Some(n), Some(cap)), q, LosingList(Some(n), cap, cap'))
  {
    var p := Policy(Some(n), Some(cap));
    var cs := LosingList(Some(n), cap, cap');
    var light, b, c := cs[..n - 1], cs[n - 1], cs[n];
    assert cs[..n] == light + [b];
    WeightlessBytes(light);
    BytesAppend(light, b);
    BytesAppend(light, c);
    FeasibleKeepsAll(p, light);
    FeasibleKeepsAll(q, light + [b]);
    Unfold(p, light, b);
    ChoiceAt(p, cs, n);
    ChoiceAt(q, cs, n);
    assert Choice(p, cs)[n] && !Choice(q, cs)[n];
  }

  /** Under the larger cap that list loses what the smaller one kept. */
  lemma LosingListLoses(keepLast: Option<nat>, cap: nat, cap': nat)
    requires cap < cap' && !SafeToRaise(keepLast, cap)
    ensures !DropsNothing(Policy(keepLast, Some(cap)), Policy(keepLast, Some(cap')), LosingList(keepLast, cap, cap'))
  {
    if keepLast.Some? { CountedListLoses(keepLast.value, cap, cap', Policy(keepLast, Some(cap'))); }
    else {
      var cs := LosingList(keepLast, cap, cap');
      ThreeDropExactly(cap, cap', cs[0], cs[1], cs[2]);
      assert cs == [cs[0], cs[1], cs[2]];
    }
  }

  /** Raising the byte cap is safe for every list exactly when no count limit is set and the cap
      was empty, or the count limit is at most one. */
  lemma RaisingIsSafeExactly(keepLast: Option<nat>, cap: nat, cap': nat)
    requires cap < cap'
    ensures SafeToRaise(keepLast, cap)
            <==> forall cs :: DropsNothing(Policy(keepLast, Some(cap)), Policy(keepLast, Some(cap')), cs)
  {
    if SafeToRaise(keepLast, cap) {
      forall cs ensures DropsNothing(Policy(keepLast, Some(cap)), Policy(keepLast, Some(cap')), cs) {
        SafeRaiseDropsNothing(keepLast, cap, cap', cs);
      }
    } else {
      LosingListLoses(keepLast, cap, cap');
    }
  }

  // ----- removing the cap -----

  /** A cap may be removed whatever the list: without a count limit, or with one of at most one. */
  predicate SafeToRemove(keepLast: Option<nat>) {
    keepLast.Some? ==> keepLast.value <= 1
  }

  lemma NoLimitKeepsAll(cs: seq<Candidate>, i: nat)
    requires i < |cs|
    ensures Choice(Policy(None, None), cs)[i]
  {
    ChoiceAt(Policy(None, None), cs, i);
  }

  /** Removing the byte cap is safe for every list exactly when no count limit is set or it is at
      most one; with any other the room the cap left to an older episode goes to a newer one. */
  lemma RemovingIsSafeExactly(keepLast: Option<nat>, cap: nat)
    ensures SafeToRemove(keepLast) <==> forall cs :: DropsNothing(Policy(keepLast, Some(cap)), Policy(keepLast, None), cs)
  {
    if !SafeToRemove(keepLast) {
      CountedListLoses(keepLast.value, cap, cap + 1, Policy(keepLast, None));
    } else {
      forall cs ensures DropsNothing(Policy(keepLast, Some(cap)), Policy(keepLast, None), cs) {
        if keepLast.Some? { CountOfOne(keepLast.value, Some(cap), None, cs); }
        else { forall i | 0 <= i < |cs| ensures Choice(Policy(None, None), cs)[i] { NoLimitKeepsAll(cs, i); } }
      }
    }
  }
}
