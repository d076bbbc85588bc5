/**
 CREATE MODEL: each job first checks whether the model exists, then runs its training query,
 then registers the model under the write lock.  Any number of jobs interleave at these points.
 */
module CreateModelJobs {
  import opened CatalogModel
  import opened CatalogRepository

  datatype Request = Request(meta: ModelMeta, replace: bool, ifNotExists: bool, labelsFound: bool)

  datatype Operation = CreateOp | ReplaceOp | SkipOp
  datatype JobError = DatasetMissing | ModelExists | InvalidQuery
  datatype JobState = Waiting | Checked(op: Operation) | Reported(op: Operation) | Raised(error: JobError)
  datatype Job = Job(request: Request, state: JobState)

  type Models = map<ObjectRef, ModelMeta>

  datatype World = World(datasets: set<DatasetRef>, models: Models, jobs: map<nat, Job>)

  /** What the existence check makes of a request. */
  function Preflight(datasets: set<DatasetRef>, models: Models, r: Request): JobState {
    if r.meta.ref.Dataset() !in datasets then Raised(DatasetMissing)
    else if r.meta.ref !in models then Checked(CreateOp)
    else if r.replace then Checked(ReplaceOp)
    else if r.ifNotExists then Reported(SkipOp)
    else Raised(ModelExists)
  }

  /** Registration: an update only if replacing was resolved and the model is still there, else a create. */
  function Register(datasets: set<DatasetRef>, models: Models, r: Request, op: Operation): Change<Models> {
    if op == ReplaceOp && r.meta.ref in models then ApplyChild(models, datasets, Update(r.meta))
    else ApplyChild(models, datasets, Create(r.meta))
  }

  /** Registration on the live catalog. */
  method RegisterModel(catalog: MemoryCatalogRepository, r: Request, op: Operation) returns (o: CatalogModel.Outcome)
    modifies catalog`models
    ensures Change(catalog.models, o) == Register(catalog.datasets.Keys, old(catalog.models), r, op)
  {
    if op == ReplaceOp && r.meta.ref in catalog.models {
      o := catalog.UpdateModel(r.meta);
    } else {
      o := catalog.CreateModel(r.meta);
    }
  }

  function Ending(op: Operation, o: CatalogModel.Outcome): JobState {
    match o
    case Done => Reported(op)
    case AlreadyExists => Raised(ModelExists)
    case _ => Raised(DatasetMissing)
  }

  datatype Event =
    | Check(job: nat)
    | QueryFails(job: nat)
    | Commit(job: nat)
    | DropModel(ref: ObjectRef)
    | DropDataset(dataset: DatasetRef)      // with everything in it
    | AddDataset(dataset: DatasetRef)

  predicate OfJob(e: Event) { e.Check? || e.QueryFails? || e.Commit? }
  predicate Drops(e: Event) { e.DropModel? || e.DropDataset? }

  function SetState(w: World, j: nat, s: JobState): World
    requires j in w.jobs
  {
    w.(jobs := w.jobs[j := w.jobs[j].(state := s)])
  }

  /** An event that does not fit the job's state is ignored. */
  function Do(w: World, e: Event): World {
    if e.DropModel? then w.(models := w.models - {e.ref})
    else if e.DropDataset? then w.(datasets := w.datasets - {e.dataset}, models := Outside(w.models, ObjectDataset, e.dataset))
    else if e.AddDataset? then w.(datasets := w.datasets + {e.dataset})
    else if e.job !in w.jobs then w
    else
      var job := w.jobs[e.job];
      match e
      case Check(j) => if job.state.Waiting? then SetState(w, j, Preflight(w.datasets, w.models, job.request)) else w
      case QueryFails(j) => if job.state.Checked? then SetState(w, j, Raised(InvalidQuery)) else w
      case Commit(j) =>
        if !job.state.Checked? then w
        else if !job.request.labelsFound then SetState(w, j, Raised(InvalidQuery))
        else
          var r := Register(w.datasets, w.models, job.request, job.state.op);
          SetState(w, j, Ending(job.state.op, r.outcome)).(models := r.value)
  }

  function Run(w: World, events: seq<Event>): World
    decreases |events|
  {
    if events == [] then w else Run(Do(w, events[0]), events[1..])
  }

  ghost predicate NoDrops(events: seq<Event>) { forall e :: e in events ==> !Drops(e) }

  // ---- What each step answers ----

  /** Only job `j` moved, to state `s`. */
  ghost predicate OnlyJob(w: World, w': World, j: nat, s: JobState) {
    && j in w.jobs && w'.jobs == w.jobs[j := Job(w.jobs[j].request, s)] && w'.datasets == w.datasets
  }

  /** The check: a missing dataset is an error; an absent model is to be created; a present one is replaced if asked, else skipped if allowed, else a conflict. */
  lemma CheckAnswers(w: World, j: nat)
    requires j in w.jobs && w.jobs[j].state.Waiting?
    ensures var r, w' := w.jobs[j].request, Do(w, Check(j));
            var s, there := w'.jobs[j].state, r.meta.ref in w.models;
            && OnlyJob(w, w', j, s) && w'.models == w.models
            && (r.meta.ref.Dataset() !in w.datasets ==> s == Raised(DatasetMissing))
            && (r.meta.ref.Dataset() in w.datasets ==>
                  && (s == Checked(CreateOp) <==> !there)
                  && (s == Checked(ReplaceOp) <==> there && r.replace)
                  && (s == Reported(SkipOp) <==> there && r.ifNotExists && !r.replace)
                  && (s == Raised(ModelExists) <==> there && !r.ifNotExists && !r.replace))
  {
  }

  /** The registration: missing label columns are an error; a present model is overwritten if the job resolved to replace, else a conflict; an absent one is stored if its dataset is there. */
  lemma CommitAnswers(w: World, j: nat)
    requires j in w.jobs && w.jobs[j].state.Checked?
    ensures var r, op, w' := w.jobs[j].request, w.jobs[j].state.op, Do(w, Commit(j));
            var s, k := w'.jobs[j].state, r.meta.ref;
            && OnlyJob(w, w', j, s)
            && w'.models == (if s == Reported(op) then w.models[k := r.meta] else w.models)
            && (s == Raised(InvalidQuery) <==> !r.labelsFound)
            && (r.labelsFound && k in w.models ==> s == if op == ReplaceOp then Reported(op) else Raised(ModelExists))
            && (r.labelsFound && k !in w.models ==> s == if k.Dataset() in w.datasets then Reported(op) else Raised(DatasetMissing))
  {
  }

  /** A training query that fails, and events that do not fit the job's state. */
  lemma OtherwiseAnswers(w: World, j: nat)
    requires j in w.jobs
    ensures w.jobs[j].state.Checked? ==> OnlyJob(w, Do(w, QueryFails(j)), j, Raised(InvalidQuery)) && Do(w, QueryFails(j)).models == w.models
    ensures !w.jobs[j].state.Checked? ==> Do(w, QueryFails(j)) == w == Do(w, Commit(j))
    ensures !w.jobs[j].state.Waiting? ==> Do(w, Check(j)) == w
  {
  }

  // ---- What every interleaving keeps ----

  /** A checked job has its dataset; one that resolved to replace asked for it and sees the model; one that reported leaves it there. */
  ghost predicate Consistent(w: World) {
    forall j :: j in w.jobs ==>
      var r, s := w.jobs[j].request, w.jobs[j].state;
      && (s == Checked(ReplaceOp) ==> r.replace && r.meta.ref in w.models)
      && (s.Checked? ==> s.op != SkipOp && r.meta.ref.Dataset() in w.datasets)
      && (s.Reported? ==> r.meta.ref in w.models)
  }

  ghost predicate AllWaiting(w: World) { forall j :: j in w.jobs ==> w.jobs[j].state.Waiting? }

  lemma ConsistentStep(w: World, e: Event)
    requires Consistent(w) && !Drops(e)
    ensures Consistent(Do(w, e)) && w.models.Keys <= Do(w, e).models.Keys
    ensures w.datasets <= Do(w, e).datasets && Do(w, e).jobs.Keys == w.jobs.Keys
    ensures forall j :: j in w.jobs ==> Do(w, e).jobs[j].request == w.jobs[j].request
  {
  }

  /** Two jobs for one model do not both report having created it. */
  ghost predicate OneCreator(w: World) {
    forall i, j :: i in w.jobs && j in w.jobs && i != j && w.jobs[i].request.meta.ref == w.jobs[j].request.meta.ref ==>
      !(w.jobs[i].state == Reported(CreateOp) && w.jobs[j].state == Reported(CreateOp))
  }

  lemma OneCreatorStep(w: World, e: Event)
    requires Consistent(w) && OneCreator(w) && !Drops(e)
    ensures OneCreator(Do(w, e))
  {
  }

  ghost predicate Creates(w: World, j: nat, k: ObjectRef) {
    j in w.jobs && w.jobs[j].state == Reported(CreateOp) && w.jobs[j].request.meta.ref == k
  }

  /** Since `models`, every new model was created by a job that reports so, and only new ones were. */
  ghost predicate Accounted(models: Models, w: World) {
    && models.Keys <= w.models.Keys
    && (forall k :: k in w.models && k !in models ==> exists j :: Creates(w, j, k))
    && (forall j, k :: Creates(w, j, k) ==> k !in models)
  }

  /** A job that has reported CREATE goes on reporting it, and starts to only when the model is absent. */
  lemma CreatesStays(w: World, e: Event, j: nat, k: ObjectRef)
    requires Consistent(w)
    ensures Creates(w, j, k) ==> Creates(Do(w, e), j, k)
    ensures Creates(Do(w, e), j, k) ==> Creates(w, j, k) || k !in w.models
  {
  }

  lemma AccountedStep(models: Models, w: World, e: Event)
    requires Consistent(w) && Accounted(models, w) && !Drops(e)
    ensures Accounted(models, Do(w, e))
  {
    var w' := Do(w, e);
    ConsistentStep(w, e);
    forall k | k in w'.models && k !in models
      ensures exists j :: Creates(w', j, k)
    {
      if k in w.models {
        var j :| Creates(w, j, k);
        CreatesStays(w, e, j, k);
      } else {
        assert Creates(w', e.job, k);
      }
    }
    forall j, k | Creates(w', j, k)
      ensures k !in models
    {
      CreatesStays(w, e, j, k);
    }
  }

  lemma {:induction false} AccountedOverRuns(models: Models, w: World, events: seq<Event>)
    requires Consistent(w) && OneCreator(w) && Accounted(models, w) && NoDrops(events)
    ensures var end := Run(w, events); Consistent(end) && OneCreator(end) && Accounted(models, end)
    decreases |events|
  {
    if events != [] {
      assert events[0] in events;
      ConsistentStep(w, events[0]);
      OneCreatorStep(w, events[0]);
      AccountedStep(models, w, events[0]);
      AccountedOverRuns(models, Do(w, events[0]), events[1..]);
    }
  }

  /**
   However the jobs interleave, without deletions: at most one of them reports CREATE for a model,
   none does if the model was there from the start, and a job reports REPLACE or SKIP only for a
   model that was there from the start or that another job reports having created.
   */
  lemma AtMostOneCreate(w: World, events: seq<Event>, j: nat)
    requires AllWaiting(w) && NoDrops(events)
    requires j in Run(w, events).jobs && Run(w, events).jobs[j].state.Reported?
    ensures var end := Run(w, events);
            var k := end.jobs[j].request.meta.ref;
            && k in end.models
            && OneCreator(end)
            && (end.jobs[j].state == Reported(CreateOp) ==> k !in w.models)
            && (end.jobs[j].state != Reported(CreateOp) ==> k in w.models || exists i :: i != j && Creates(end, i, k))
  {
    AccountedOverRuns(w.models, w, events);
    var end := Run(w, events);
    var k := end.jobs[j].request.meta.ref;
    assert Creates(end, j, k) <==> end.jobs[j].state == Reported(CreateOp);
  }

  /** A job that loses gets an error and leaves the registered models alone. */
  lemma LosersChangeNothing(w: World, e: Event)
    requires OfJob(e) && e.job in w.jobs && Do(w, e).jobs[e.job].state.Raised?
    ensures Do(w, e).models == w.models
  {
  }

  // ---- Reports, with models and datasets dropped at any time ----

  /** Every model has its dataset; checked jobs did not resolve to skip, and those that resolved to replace asked for it. */
  ghost predicate Ready(w: World) {
    && (forall k :: k in w.models ==> k.Dataset() in w.datasets)
    && (forall j :: j in w.jobs && w.jobs[j].state.Checked? ==>
          w.jobs[j].state.op != SkipOp && (w.jobs[j].state.op == ReplaceOp ==> w.jobs[j].request.replace))
  }

  lemma ReadyStep(w: World, e: Event)
    requires Ready(w)
    ensures Ready(Do(w, e))
  {
  }

  /** Holds in every reachable state, whatever is dropped. */
  lemma {:induction false} ReadyOverRuns(w: World, events: seq<Event>)
    requires Ready(w)
    ensures Ready(Run(w, events))
    decreases |events|
  {
    if events != [] {
      ReadyStep(w, events[0]);
      ReadyOverRuns(Do(w, events[0]), events[1..]);
    }
  }

  datatype Entry = Ran(request: Request, op: Operation) | Other(event: Event)

  /** What event `e` makes a job report, if anything. */
  function ReportOf(w: World, e: Event): seq<Entry> {
    if !OfJob(e) || e.job !in w.jobs || w.jobs[e.job].state.Reported? then []
    else
      var s := Do(w, e).jobs[e.job].state;
      if s.Reported? then [Ran(w.jobs[e.job].request, s.op)] else []
  }

  /** A job that resolved to replace is about to register a model that is no longer there, in a dataset that is. */
  predicate Lies(w: World, e: Event) {
    && e.Commit? && e.job in w.jobs
    && w.jobs[e.job].state == Checked(ReplaceOp) && w.jobs[e.job].request.labelsFound
    && var k := w.jobs[e.job].request.meta.ref; k !in w.models && k.Dataset() in w.datasets
  }

  /**
   A report is true when it says CREATE exactly of a model that is absent at that moment.  It is, if and only
   if the job is not one that resolved to replace a model that has gone since.
   */
  lemma ReportTrueExactly(w: World, e: Event)
    requires Ready(w) && ReportOf(w, e) != []
    ensures var rep := ReportOf(w, e)[0];
            (rep.op == CreateOp <==> rep.request.meta.ref !in w.models) <==> !Lies(w, e)
  {
  }

  /** The failing case is a real one: drop the model between check and registration. */
  lemma DropMakesReplaceFalse(w: World, j: nat)
    requires j in w.jobs && w.jobs[j].state == Checked(ReplaceOp) && w.jobs[j].request.labelsFound
    requires w.jobs[j].request.meta.ref.Dataset() in w.datasets
    ensures var ref := w.jobs[j].request.meta.ref;
            var dropped := Do(w, DropModel(ref));
            Lies(dropped, Commit(j)) && ReportOf(dropped, Commit(j)) == [Ran(w.jobs[j].request, ReplaceOp)]
  {
  }

  /** A checked job fails with "already exists" exactly when its model appeared after the check, whatever clause it carries. */
  lemma LosesRaceExactly(w: World, j: nat)
    requires Ready(w) && j in w.jobs && w.jobs[j].state.Checked? && w.jobs[j].request.labelsFound
    ensures Do(w, Commit(j)).jobs[j].state == Raised(ModelExists)
            <==> w.jobs[j].state.op == CreateOp && w.jobs[j].request.meta.ref in w.models
  {
  }

  /** So OR REPLACE and IF NOT EXISTS, which promise not to, can both raise it: two jobs for one new model, checks before registrations. */
  lemma ClausesDoNotHelp(w: World, i: nat, j: nat)
    requires i != j && i in w.jobs && j in w.jobs && w.jobs[i].state.Waiting? && w.jobs[j].state.Waiting?
    requires w.jobs[i].request.labelsFound && w.jobs[j].request.labelsFound && w.jobs[i].request.meta.ref == w.jobs[j].request.meta.ref
    requires w.jobs[j].request.replace || w.jobs[j].request.ifNotExists
    requires w.jobs[j].request.meta.ref.Dataset() in w.datasets && w.jobs[j].request.meta.ref !in w.models
    ensures var end := Do(Do(Do(Do(w, Check(i)), Check(j)), Commit(i)), Commit(j));
            end.jobs[i].state == Reported(CreateOp) && end.jobs[j].state == Raised(ModelExists)
  {
  }

  // ---- Serializability ----

  datatype Serial = Reports(op: Operation, models: Models) | Errs

  /** The same request, checked and registered with nothing in between. */
  function Alone(datasets: set<DatasetRef>, models: Models, r: Request): Serial {
    match Preflight(datasets, models, r)
    case Reported(op) => Reports(op, models)
    case Checked(op) =>
      var c := Register(datasets, models, r, op);
      if r.labelsFound && c.outcome == Done then Reports(op, c.value) else Errs
    case _ => Errs
  }

  function LogOf(w: World, e: Event): seq<Entry> { if OfJob(e) then ReportOf(w, e) else [Other(e)] }

  /** The reports of a run and what happened beside the jobs, in order. */
  function Log(w: World, events: seq<Event>): seq<Entry>
    decreases |events|
  {
    if events == [] then [] else LogOf(w, events[0]) + Log(Do(w, events[0]), events[1..])
  }

  /** Running the logged requests and the other events one after another, each request alone, yields the same reports and ends in `end`. */
  ghost predicate Explains(datasets: set<DatasetRef>, models: Models, log: seq<Entry>, end: Models)
    decreases |log|
  {
    if log == [] then models == end
    else
      match log[0]
      case Other(e) =>
        var w := Do(World(datasets, models, map[]), e);
        Explains(w.datasets, w.models, log[1..], end)
      case Ran(r, op) =>
        var s := Alone(datasets, models, r);
        s.Reports? && s.op == op && Explains(datasets, s.models, log[1..], end)
  }

  ghost predicate TruthfulRun(w: World, events: seq<Event>)
    decreases |events|
  {
    events != [] ==> !Lies(w, events[0]) && TruthfulRun(Do(w, events[0]), events[1..])
  }

  lemma StepSerial(w: World, e: Event)
    requires Ready(w) && OfJob(e)
    ensures Do(w, e).datasets == w.datasets
    ensures var rs := ReportOf(w, e);
            if rs == [] then !Lies(w, e) && Do(w, e).models == w.models
            else
              var s := Alone(w.datasets, w.models, rs[0].request);
              if Lies(w, e) then s.Reports? && s.op != rs[0].op else s == Reports(rs[0].op, Do(w, e).models)
  {
  }

  lemma OtherStep(w: World, e: Event)
    requires !OfJob(e)
    ensures var v := Do(World(w.datasets, w.models, map[]), e); v.datasets == Do(w, e).datasets && v.models == Do(w, e).models
  {
  }

  lemma LogStep(w: World, events: seq<Event>)
    requires events != []
    ensures var l, rest := LogOf(w, events[0]), Log(Do(w, events[0]), events[1..]);
            |l| <= 1 && (l == [] ==> Log(w, events) == rest) && (l != [] ==> Log(w, events) != [] && Log(w, events)[0] == l[0] && Log(w, events)[1..] == rest)
  {
    var l, rest := LogOf(w, events[0]), Log(Do(w, events[0]), events[1..]);
    assert l == [] ==> l + rest == rest;
    assert |l| == 1 ==> (l + rest)[1..] == rest;
  }

  /**
   Serializability, drops included: the jobs that report and the drops, taken in that order with each job run
   without interruption, give the same reports and the same models, if and only if no job lies.
   */
  lemma {:induction false} SerializableExactly(w: World, events: seq<Event>)
    requires Ready(w)
    ensures Explains(w.datasets, w.models, Log(w, events), Run(w, events).models) <==> TruthfulRun(w, events)
    decreases |events|
  {
    if events != [] {
      ReadyStep(w, events[0]);
      LogStep(w, events);
      if OfJob(events[0]) { StepSerial(w, events[0]); } else { OtherStep(w, events[0]); }
      SerializableExactly(Do(w, events[0]), events[1..]);
    }
  }

  /** Without drops no job lies, so every interleaving is serializable. */
  lemma {:induction false} Serializable(w: World, events: seq<Event>)
    requires Consistent(w) && Ready(w) && NoDrops(events)
    ensures TruthfulRun(w, events) && Explains(w.datasets, w.models, Log(w, events), Run(w, events).models)
    decreases |events|
  {
    if events != [] {
      assert events[0] in events;
      ConsistentStep(w, events[0]);
      ReadyStep(w, events[0]);
      Serializable(Do(w, events[0]), events[1..]);
    }
    SerializableExactly(w, events);
  }
}
