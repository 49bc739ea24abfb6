/** Syncs of some shows beside verifies of others: still each as if alone. */
module Mixed {
  import opened Domain
  import opened Episodes
  import opened Download
  import opened World
  import opened Agreement
  import opened Shows
  import opened Syncing
  import opened Boundaries
  import opened Checkups

  /** What is done for one show, and where it stands. */
  datatype Task = Sync(job: Job) | Verify(fix: bool, up: Upstream)

  datatype Place = Syncs(stage: Stage) | Verifies(look: Look)

  datatype Move = OfSync(e: Event) | OfVerify(peek: Peek)

  ghost function TaskStep(hash: Bytes -> Hash, task: Task, show: ShowSlug, p: Place, w: World, m: Move): (Place, World) {
    if task.Sync? && p.Syncs? && m.OfSync? then
      var (stage, w') := SyncStep(hash, task.job, show, p.stage, w, m.e);
      (Syncs(stage), w')
    else if task.Verify? && p.Verifies? && m.OfVerify? then
      var (look, w') := LookStep(hash, task.fix, task.up, show, p.look, w, m.peek);
      (Verifies(look), w')
    else (p, w)
  }

  ghost function Tasks(hash: Bytes -> Hash, tasks: ShowSlug -> Task): Program<Place, Move> {
    (show: ShowSlug, p: Place, w: World, m: Move) => TaskStep(hash, tasks(show), show, p, w, m)
  }

  ghost function TidyPlace(): Fitness<Place> {
    (show: ShowSlug, p: Place) => p.Verifies? && p.look.Reading? ==> Tidy(p.look.records)
  }

  lemma TaskStays(hash: Bytes -> Hash, task: Task, show: ShowSlug, p: Place, w: World, m: Move)
    requires Tidy(w.table) && TidyPlace()(show, p)
    ensures var (p', w') := TaskStep(hash, task, show, p, w, m); TidyPlace()(show, p') && Stays(w, w', show)
  {
    NothingMoves(w, show);
    if task.Sync? && p.Syncs? && m.OfSync? {
      StepStays(hash, task.job, show, p.stage, w, m.e);
    } else if task.Verify? && p.Verifies? && m.OfVerify? {
      LookStays(hash, task.fix, task.up, show, p.look, w, m.peek);
    }
  }

  lemma TaskSees(hash: Bytes -> Hash, task: Task, show: ShowSlug, p: Place, w: World, w': World, m: Move)
    requires TidyPlace()(show, p) && SamePart(w, w', show)
    ensures TaskStep(hash, task, show, p, w, m).0 == TaskStep(hash, task, show, p, w', m).0
    ensures SamePart(TaskStep(hash, task, show, p, w, m).1, TaskStep(hash, task, show, p, w', m).1, show)
  {
    if task.Sync? && p.Syncs? && m.OfSync? {
      StepSees(hash, task.job, show, p.stage, w, w', m.e);
    } else if task.Verify? && p.Verifies? && m.OfVerify? {
      LookSees(hash, task.fix, task.up, show, p.look, w, w', m.peek);
    }
  }

  lemma TasksAreLocal(hash: Bytes -> Hash, tasks: ShowSlug -> Task)
    ensures Local(Tasks(hash, tasks), TidyPlace())
  {
    var step, fits := Tasks(hash, tasks), TidyPlace();
    forall show: ShowSlug, p: Place, w: World, m: Move ensures StaysInside(step, fits, show, p, w, m) {
      if Tidy(w.table) && fits(show, p) { TaskStays(hash, tasks(show), show, p, w, m); }
    }
    forall show: ShowSlug, p: Place, w: World, w': World, m: Move ensures SeesInside(step, fits, show, p, w, w', m) {
      if fits(show, p) && SamePart(w, w', show) { TaskSees(hash, tasks(show), show, p, w, w', m); }
    }
  }

  // ----- each as if alone -----

  ghost function Outset(tasks: ShowSlug -> Task, w0: World): System<Place> {
    System(w0, show => if tasks(show).Sync? then Syncs(Waiting) else Verifies(Unread))
  }

  ghost function Worked(hash: Bytes -> Hash, tasks: ShowSlug -> Task, w0: World, turns: seq<Turn<Move>>): System<Place> {
    Go(Tasks(hash, tasks), Outset(tasks, w0), turns)
  }

  /** Where a task that found `w0` has brought the world. */
  ghost predicate TaskStands(hash: Bytes -> Hash, task: Task, show: ShowSlug, w0: World, p: Place, w: World) {
    match task
    case Sync(job) => p.Syncs? && Standing(hash, job, show, w0, p.stage, w)
    case Verify(fix, up) => p.Verifies? && LookStands(hash, fix, up, show, w0, p.look, w)
  }

  ghost predicate TaskOrderly(task: Task, show: ShowSlug, w0: World) {
    StemsApart(w0.table) && (task.Sync? ==> Orderly(task.job, show, w0))
  }

  lemma TaskStepStands(hash: Bytes -> Hash, task: Task, show: ShowSlug, w0: World, p: Place, w: World, m: Move)
    requires TaskOrderly(task, show, w0) && TaskStands(hash, task, show, w0, p, w)
    ensures var (p', w') := TaskStep(hash, task, show, p, w, m); TaskStands(hash, task, show, w0, p', w')
  {
    if task.Sync? && m.OfSync? {
      StepStanding(hash, task.job, show, w0, p.stage, w, m.e);
    } else if task.Verify? && m.OfVerify? {
      LookStepStands(hash, task.fix, task.up, show, w0, p.look, w, m.peek);
    }
  }

  lemma {:induction false} TaskAlone(hash: Bytes -> Hash, tasks: ShowSlug -> Task, w0: World, turns: seq<Turn<Move>>, show: ShowSlug)
    requires TaskOrderly(tasks(show), show, w0) && forall i :: 0 <= i < |turns| ==> turns[i].show == show
    ensures var s := Worked(hash, tasks, w0, turns); TaskStands(hash, tasks(show), show, w0, s.at(show), s.world)
  {
    if turns != [] {
      var n := |turns| - 1;
      var s := Worked(hash, tasks, w0, turns[..n]);
      TaskAlone(hash, tasks, w0, turns[..n], show);
      TaskStepStands(hash, tasks(show), show, w0, s.at(show), s.world, turns[n].e);
    }
  }

  ghost predicate SyncAsAlone(hash: Bytes -> Hash, job: Job, show: ShowSlug, w0: World, p: Stage, w: World) {
    p.Over? ==> SamePart(Synced(hash, w0, show, job.policy, job.limit, job.up), w, show)
  }

  ghost predicate VerifyAsAlone(hash: Bytes -> Hash, fix: bool, up: Upstream, show: ShowSlug, w0: World, p: Look, w: World) {
    Finished(p) ==>
      && SamePart(Verified(hash, w0, show, CachedInOrder(w0.table, show), fix, up), w, show)
      && multiset(p.report) == multiset(Problems(hash, w0, show, CachedInOrder(w0.table, show), fix, up))
  }

  /** The part of the world, and the report, that a task leaves when it is over. */
  ghost predicate AsAlone(hash: Bytes -> Hash, task: Task, show: ShowSlug, w0: World, p: Place, w: World) {
    match task
    case Sync(job) => p.Syncs? && SyncAsAlone(hash, job, show, w0, p.stage, w)
    case Verify(fix, up) => p.Verifies? && VerifyAsAlone(hash, fix, up, show, w0, p.look, w)
  }

  lemma EachTaskStands(hash: Bytes -> Hash, tasks: ShowSlug -> Task, w0: World, turns: seq<Turn<Move>>, show: ShowSlug)
    returns (alone: World)
    requires Tidy(w0.table) && TaskOrderly(tasks(show), show, w0)
    ensures var s := Worked(hash, tasks, w0, turns);
            SamePart(alone, s.world, show) && TaskStands(hash, tasks(show), show, w0, s.at(show), alone)
  {
    TasksAreLocal(hash, tasks);
    EachShowAlone(Tasks(hash, tasks), TidyPlace(), Outset(tasks, w0), turns, show);
    OfOne(turns, show);
    TaskAlone(hash, tasks, w0, Of(turns, show), show);
    alone := Worked(hash, tasks, w0, Of(turns, show)).world;
  }

  lemma LookAsAlone(hash: Bytes -> Hash, fix: bool, up: Upstream, show: ShowSlug, w0: World, p: Look, alone: World, w: World)
    requires Tidy(w0.table) && StemsApart(w0.table)
    requires LookStands(hash, fix, up, show, w0, p, alone) && SamePart(alone, w, show)
    ensures VerifyAsAlone(hash, fix, up, show, w0, p, w)
  {
    if Finished(p) { FinishedAlone(hash, fix, up, show, w0, p, alone); }
  }

  lemma StageAsAlone(hash: Bytes -> Hash, job: Job, show: ShowSlug, w0: World, p: Stage, alone: World, w: World)
    requires Standing(hash, job, show, w0, p, alone) && SamePart(alone, w, show)
    ensures SyncAsAlone(hash, job, show, w0, p, w)
  {
  }

  lemma StandsAsAlone(hash: Bytes -> Hash, task: Task, show: ShowSlug, w0: World, p: Place, alone: World, w: World)
    requires Tidy(w0.table) && StemsApart(w0.table)
    requires TaskStands(hash, task, show, w0, p, alone) && SamePart(alone, w, show)
    ensures AsAlone(hash, task, show, w0, p, w)
  {
    match task
    case Sync(job) => StageAsAlone(hash, job, show, w0, p.stage, alone, w);
    case Verify(fix, up) => LookAsAlone(hash, fix, up, show, w0, p.look, alone, w);
  }

  /** However syncs and verifies of different shows interleave, step by step, each that is over has
      left its show's rows, files and report as it would have left them alone. */
  lemma EveryTaskAsAlone(hash: Bytes -> Hash, tasks: ShowSlug -> Task, w0: World, turns: seq<Turn<Move>>, show: ShowSlug)
    requires Tidy(w0.table) && TaskOrderly(tasks(show), show, w0)
    ensures var s := Worked(hash, tasks, w0, turns); AsAlone(hash, tasks(show), show, w0, s.at(show), s.world)
  {
    var s, task := Worked(hash, tasks, w0, turns), tasks(show);
    var alone := EachTaskStands(hash, tasks, w0, turns, show);
    StandsAsAlone(hash, task, show, w0, s.at(show), alone, s.world);
  }
}
