/** Work for different shows does not interfere: what each show's work reads and writes, in the
    database and on disk, is its own part of the world. */
module Shows {
  import opened Domain
  import opened Episodes
  import opened Media
  import opened World
  import opened Agreement

  // ----- the part of a show -----

  /** `p` lies in the show's media directory. */
  ghost predicate InShow(p: Path, show: ShowSlug) {
    exists rest :: p == "media/" + (show + ("/" + rest))
  }

  lemma OwnPath(key: Key, p: Path)
    requires Owns(key, p)
    ensures InShow(p, key.show)
  {
    var ext :| '/' !in ext && p == PathText(key.show, Stem(key.id), ext);
    assert p == "media/" + (key.show + ("/" + (Stem(key.id) + ("." + ext))));
  }

  lemma OneShow(p: Path, a: ShowSlug, b: ShowSlug)
    requires InShow(p, a) && InShow(p, b)
    ensures a == b
  {
    var x :| p == "media/" + (a + ("/" + x));
    var y :| p == "media/" + (b + ("/" + y));
    assert p[6..] == a + ("/" + x) && p[6..] == b + ("/" + y);
    assert "/" == ['/'];
    CutAtFirst(a, x, b, y, '/');
  }

  ghost predicate SameRows(t: Table, t': Table, show: ShowSlug) {
    forall key: Key :: key.show == show ==> (key in t <==> key in t') && (key in t ==> t[key] == t'[key])
  }

  ghost predicate SameAt(f: Files, f': Files, p: Path) {
    (p in f <==> p in f') && (p in f ==> f[p] == f'[p])
  }

  ghost predicate SameFiles(f: Files, f': Files, show: ShowSlug) {
    forall p: Path :: InShow(p, show) ==> SameAt(f, f', p)
  }

  /** The two worlds look alike to work for `show`. */
  ghost predicate SamePart(w: World, w': World, show: ShowSlug) {
    SameRows(w.table, w'.table, show) && SameFiles(w.files, w'.files, show)
  }

  /** The two worlds differ in the part of `show` only. */
  ghost predicate OnlyPart(w: World, w': World, show: ShowSlug) {
    && (forall other :: other != show ==> SameRows(w.table, w'.table, other))
    && forall p: Path :: !InShow(p, show) ==> SameAt(w.files, w'.files, p)
  }

  /** Every path a row records lies in the row's own place. */
  ghost predicate Tidy(t: Table) {
    forall key: Key :: RowPlaced(t, key)
  }

  lemma OthersSpared(w: World, w': World, show: ShowSlug, other: ShowSlug)
    requires OnlyPart(w, w', show) && other != show
    ensures SamePart(w, w', other)
  {
    forall p: Path | InShow(p, other) ensures SameAt(w.files, w'.files, p) {
      if InShow(p, show) { OneShow(p, show, other); }
    }
  }

  lemma PartsCompose(w: World, w': World, w'': World, show: ShowSlug)
    requires SamePart(w, w', show) && SamePart(w', w'', show)
    ensures SamePart(w, w'', show)
  {
    forall p: Path | InShow(p, show) ensures SameAt(w.files, w''.files, p) {
      assert SameAt(w.files, w'.files, p) && SameAt(w'.files, w''.files, p);
    }
  }

  lemma SameEverywhere(f: Files, f': Files)
    requires forall p: Path :: SameAt(f, f', p)
    ensures f == f'
  {
    assert f.Keys == f'.Keys by { forall p: Path ensures p in f <==> p in f' { assert SameAt(f, f', p); } }
    forall p | p in f ensures f[p] == f'[p] { assert SameAt(f, f', p); }
  }

  /** A world is its parts and the files in no show's directory. */
  lemma WorldIsItsParts(w: World, w': World)
    requires forall show :: SamePart(w, w', show)
    requires forall p: Path :: (forall show :: !InShow(p, show)) ==> SameAt(w.files, w'.files, p)
    ensures w == w'
  {
    forall key: Key ensures (key in w.table <==> key in w'.table) && (key in w.table ==> w.table[key] == w'.table[key]) {
      assert SamePart(w, w', key.show);
    }
    forall p: Path ensures SameAt(w.files, w'.files, p) {
      if show :| InShow(p, show) { assert SamePart(w, w', show); }
    }
    SameEverywhere(w.files, w'.files);
    assert w.table == w'.table;
  }

  // ----- work for many shows, step by step -----

  /** One step of a show's work: from where it stands and the world it finds to where it stands and
      the world it leaves. */
  type Program<!P, !E> = (ShowSlug, P, World, E) -> (P, World)

  /** The world, and where the work for each show stands. */
  datatype System<!P> = System(world: World, at: ShowSlug -> P)

  datatype Turn<E> = Turn(show: ShowSlug, e: E)

  ghost function Move<P, E>(step: Program<P, E>, s: System<P>, turn: Turn<E>): System<P> {
    var (p, w) := step(turn.show, s.at(turn.show), s.world, turn.e);
    System(w, show => if show == turn.show then p else s.at(show))
  }

  ghost function Go<P, E>(step: Program<P, E>, s: System<P>, turns: seq<Turn<E>>): System<P> {
    if turns == [] then s else Move(step, Go(step, s, turns[..|turns| - 1]), turns[|turns| - 1])
  }

  /** What holds of where a show's work stands. */
  type Fitness<!P> = (ShowSlug, P) -> bool

  ghost predicate AllFit<P>(fits: Fitness<P>, s: System<P>) {
    Tidy(s.world.table) && forall show :: fits(show, s.at(show))
  }

  ghost predicate StaysInside<P, E>(step: Program<P, E>, fits: Fitness<P>, show: ShowSlug, p: P, w: World, e: E) {
    Tidy(w.table) && fits(show, p) ==>
      var (p', w') := step(show, p, w, e); fits(show, p') && Tidy(w'.table) && OnlyPart(w, w', show)
  }

  ghost predicate SeesInside<P, E>(step: Program<P, E>, fits: Fitness<P>, show: ShowSlug, p: P, w: World, w': World, e: E) {
    Tidy(w.table) && Tidy(w'.table) && fits(show, p) && SamePart(w, w', show) ==>
      step(show, p, w, e).0 == step(show, p, w', e).0 && SamePart(step(show, p, w, e).1, step(show, p, w', e).1, show)
  }

  /** Each step of a show's work reads and writes the part of that show only. */
  ghost predicate Local<P(!new), E(!new)>(step: Program<P, E>, fits: Fitness<P>) {
    && (forall show, p, w, e :: StaysInside(step, fits, show, p, w, e))
    && (forall show, p, w, w', e :: SeesInside(step, fits, show, p, w, w', e))
  }

  /** The turns of one show. */
  function Of<E>(turns: seq<Turn<E>>, show: ShowSlug): seq<Turn<E>> {
    if turns == [] then []
    else
      var n := |turns| - 1;
      Of(turns[..n], show) + if turns[n].show == show then [turns[n]] else []
  }

  lemma {:induction false} GoFits<P(!new), E(!new)>(step: Program<P, E>, fits: Fitness<P>, s: System<P>, turns: seq<Turn<E>>)
    requires Local(step, fits) && AllFit(fits, s)
    ensures AllFit(fits, Go(step, s, turns))
  {
    if turns != [] {
      var n := |turns| - 1;
      var before := Go(step, s, turns[..n]);
      GoFits(step, fits, s, turns[..n]);
      assert StaysInside(step, fits, turns[n].show, before.at(turns[n].show), before.world, turns[n].e);
    }
  }

  lemma OwnMove<P(!new), E(!new)>(step: Program<P, E>, fits: Fitness<P>, x: System<P>, y: System<P>, turn: Turn<E>)
    requires Local(step, fits) && AllFit(fits, x) && AllFit(fits, y)
    requires SamePart(x.world, y.world, turn.show) && x.at(turn.show) == y.at(turn.show)
    ensures var x', y' := Move(step, x, turn), Move(step, y, turn);
            SamePart(x'.world, y'.world, turn.show) && x'.at(turn.show) == y'.at(turn.show)
  {
    assert SeesInside(step, fits, turn.show, x.at(turn.show), x.world, y.world, turn.e);
  }

  lemma OtherMove<P(!new), E(!new)>(step: Program<P, E>, fits: Fitness<P>, x: System<P>, y: System<P>, turn: Turn<E>, show: ShowSlug)
    requires Local(step, fits) && AllFit(fits, x) && turn.show != show
    requires SamePart(y.world, x.world, show) && x.at(show) == y.at(show)
    ensures var x' := Move(step, x, turn); SamePart(y.world, x'.world, show) && x'.at(show) == y.at(show)
  {
    assert StaysInside(step, fits, turn.show, x.at(turn.show), x.world, turn.e);
    OthersSpared(x.world, Move(step, x, turn).world, turn.show, show);
    PartsCompose(y.world, x.world, Move(step, x, turn).world, show);
  }

  lemma {:induction false} OfOne<E>(turns: seq<Turn<E>>, show: ShowSlug)
    ensures forall i :: 0 <= i < |Of(turns, show)| ==> Of(turns, show)[i].show == show
  {
    if turns != [] { OfOne(turns[..|turns| - 1], show); }
  }

  lemma OfLast<E>(turns: seq<Turn<E>>, show: ShowSlug)
    requires turns != []
    ensures var n := |turns| - 1;
            Of(turns, show) == if turns[n].show == show then Of(turns[..n], show) + [turns[n]] else Of(turns[..n], show)
  {
  }

  lemma GoAppend<P, E>(step: Program<P, E>, s: System<P>, turns: seq<Turn<E>>, turn: Turn<E>)
    ensures Go(step, s, turns + [turn]) == Move(step, Go(step, s, turns), turn)
  {
    assert (turns + [turn])[..|turns|] == turns;
  }

  /** However the work for many shows is interleaved, each show's work, and its part of the world,
      stand where the show's own turns alone would have brought them. */
  lemma {:induction false} EachShowAlone<P(!new), E(!new)>(step: Program<P, E>, fits: Fitness<P>, s: System<P>, turns: seq<Turn<E>>, show: ShowSlug)
    requires Local(step, fits) && AllFit(fits, s)
    ensures var x, y := Go(step, s, turns), Go(step, s, Of(turns, show));
            SamePart(y.world, x.world, show) && x.at(show) == y.at(show)
  {
    if turns != [] {
      var n := |turns| - 1;
      var x, y := Go(step, s, turns[..n]), Go(step, s, Of(turns[..n], show));
      EachShowAlone(step, fits, s, turns[..n], show);
      GoFits(step, fits, s, turns[..n]);
      GoFits(step, fits, s, Of(turns[..n], show));
      OfLast(turns, show);
      if turns[n].show == show {
        GoAppend(step, s, Of(turns[..n], show), turns[n]);
        OwnMove(step, fits, y, x, turns[n]);
      } else {
        OtherMove(step, fits, x, y, turns[n], show);
      }
    }
  }

  lemma {:induction false} NobodysFilesStay<P(!new), E(!new)>(step: Program<P, E>, fits: Fitness<P>, s: System<P>, turns: seq<Turn<E>>, p: Path)
    requires Local(step, fits) && AllFit(fits, s) && forall show :: !InShow(p, show)
    ensures SameAt(s.world.files, Go(step, s, turns).world.files, p)
  {
    if turns != [] {
      var n := |turns| - 1;
      var before := Go(step, s, turns[..n]);
      NobodysFilesStay(step, fits, s, turns[..n], p);
      GoFits(step, fits, s, turns[..n]);
      assert StaysInside(step, fits, turns[n].show, before.at(turns[n].show), before.world, turns[n].e);
    }
  }

  /** So two interleavings in which each show takes the same turns in the same order leave the same
      world. */
  lemma InterleavingIsIrrelevant<P(!new), E(!new)>(step: Program<P, E>, fits: Fitness<P>, s: System<P>, x: seq<Turn<E>>, y: seq<Turn<E>>)
    requires Local(step, fits) && AllFit(fits, s) && forall show :: Of(x, show) == Of(y, show)
    ensures Go(step, s, x).world == Go(step, s, y).world
    ensures forall show :: Go(step, s, x).at(show) == Go(step, s, y).at(show)
  {
    var a, b := Go(step, s, x).world, Go(step, s, y).world;
    forall show ensures SamePart(a, b, show) ensures Go(step, s, x).at(show) == Go(step, s, y).at(show) {
      EachShowAlone(step, fits, s, x, show);
      EachShowAlone(step, fits, s, y, show);
      var own := Go(step, s, Of(x, show)).world;
      assert Of(x, show) == Of(y, show);
      PartsCompose(a, own, b, show);
    }
    forall p: Path | forall show :: !InShow(p, show) ensures SameAt(a.files, b.files, p) {
      NobodysFilesStay(step, fits, s, x, p);
      NobodysFilesStay(step, fits, s, y, p);
    }
    WorldIsItsParts(a, b);
  }

  /** `e` takes the work for `show` further, by the two measures. */
  ghost predicate Advances<P, E>(
    step: Program<P, E>, s: System<P>, turns: seq<Turn<E>>, show: ShowSlug, e: E, parts: P -> nat, part: P -> nat)
  {
    var p, p' := Go(step, s, turns).at(show), Go(step, s, turns + [Turn(show, e)]).at(show);
    parts(p') < parts(p) || (parts(p') == parts(p) && part(p') < part(p))
  }

  /** Work that can always be taken further can be brought to its end. */
  lemma {:induction false} CanFinish<P(!new), E(!new)>(
    step: Program<P, E>, s: System<P>, turns: seq<Turn<E>>, show: ShowSlug, over: P -> bool, parts: P -> nat, part: P -> nat)
    returns (longer: seq<Turn<E>>)
    requires forall x: seq<Turn<E>> :: !over(Go(step, s, x).at(show)) ==> exists e :: Advances(step, s, x, show, e, parts, part)
    ensures turns <= longer && over(Go(step, s, longer).at(show))
    ensures forall i :: |turns| <= i < |longer| ==> longer[i].show == show
    decreases parts(Go(step, s, turns).at(show)), part(Go(step, s, turns).at(show))
  {
    if over(Go(step, s, turns).at(show)) {
      longer := turns;
    } else {
      var e :| Advances(step, s, turns, show, e, parts, part);
      longer := CanFinish(step, s, turns + [Turn(show, e)], show, over, parts, part);
    }
  }
}
