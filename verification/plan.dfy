/**
  The scaffold as a list of filesystem steps run in order. The first step
  that throws stops the run, and the world is left as the steps before it
  made it: the tool never undoes anything.
*/
module Plan {
  import opened Wrappers
  import opened Decimal
  import opened Names
  import opened EnvFile
  import opened FileSystem

  /** Why an attempt stops. */
  datatype Failure =
    | NameFailure(error: NameError)   // `validateService` or a template throws
    | FileFailure(fault: FsError)     // an `fs` call or `makeFolder` throws
    | InstallFailure                  // `npm install` fails

  /** The rewrite a derived file goes through on its way from the pipeline folder. */
  datatype Edit =
    | Verbatim                        // `copyFiles`
    | CommitCounter(port: Port)       // `updateLastPort`
    | ServiceEnv(port: Port)          // `createEnvForNewService`
    | ServiceDockerfile(port: Port)   // `createDockerFileForNewService`

  function ApplyEdit(e: Edit, text: string): string
  {
    match e
    case Verbatim => text
    case CommitCounter(port) => UpdateLastPort(text, port)
    case ServiceEnv(port) => CreateEnv(text, port)
    case ServiceDockerfile(port) => CreateDockerfile(text, port)
  }

  /** Each edit is the rewrite its name says. */
  lemma EditMeaning(text: string, port: Port)
    ensures ApplyEdit(Verbatim, text) == text
    ensures ApplyEdit(CommitCounter(port), text) == UpdateLastPort(text, port)
    ensures ApplyEdit(ServiceEnv(port), text) == CreateEnv(text, port)
    ensures ApplyEdit(ServiceDockerfile(port), text) == CreateDockerfile(text, port)
  {
  }

  /** One filesystem effect of the scaffold. */
  datatype Step =
    | Mkdir(dir: Path)                                   // `makeFolder`
    | Write(path: Path, text: Result<string, NameError>) // `writeFileSync` of a text that may fail to build
    | Derive(source: Path, target: Path, edit: Edit)     // read `source`, write its edit to `target`
    | Append(path: Path, addition: string)               // `appendFileSync`
    | Register(name: string)                             // `addServer`

  /** The file paths a step may change. */
  predicate Touches(s: Step, q: Path)
  {
    match s
    case Write(p, _) => q == p
    case Derive(_, t, _) => q == t
    case Append(p, _) => q == p
    case _ => false
  }

  function FileStep(r: Result<World, FsError>): (r': Result<World, Failure>)
    ensures r'.Ok? <==> r.Ok?
    ensures r.Ok? ==> r'.value == r.value
    ensures r.Err? ==> r' == Err(FileFailure(r.error))
  {
    match r
    case Ok(w) => Ok(w)
    case Err(e) => Err(FileFailure(e))
  }

  /** Performs one step; a template is built before its file is opened, as the argument is evaluated first. */
  function Apply(w: World, s: Step): (r: Result<World, Failure>)
    ensures r.Ok? ==> Grows(w, r.value)
    ensures r.Ok? && !s.Register? ==> r.value.registry == w.registry
    ensures s.Mkdir? ==> (r.Ok? <==> MakeFolder(w, s.dir).Ok?)
  {
    match s
    case Mkdir(d) => FileStep(MakeFolder(w, d))
    case Write(p, text) =>
      (match text
       case Err(e) => Err(NameFailure(e))
       case Ok(t) => FileStep(WriteFile(w, p, t)))
    case Derive(source, target, e) =>
      (match ReadFile(w, source)
       case Err(f) => Err(FileFailure(f))
       case Ok(t) => FileStep(WriteFile(w, target, ApplyEdit(e, t))))
    case Append(p, t) => FileStep(AppendFile(w, p, t))
    case Register(n) => FileStep(AddServer(w, n))
  }

  /** A step changes no file it does not touch. */
  lemma ApplyFrame(w: World, s: Step, q: Path)
    requires Apply(w, s).Ok? && !Touches(s, q)
    ensures SameAt(w, Apply(w, s).value, q)
  {
  }

  /** The world so far, and the failure that stopped the run, if any. */
  datatype Progress = Progress(world: World, failure: Option<Failure>)

  /** Runs the steps in order; the first failure stops the run with the world as it was. */
  function Run(p: Progress, steps: seq<Step>): (r: Progress)
    ensures Grows(p.world, r.world)
    ensures p.failure.Some? ==> r == p
    ensures r.failure.None? ==> p.failure.None?
    decreases |steps|
  {
    if p.failure.Some? || |steps| == 0 then p
    else
      match Apply(p.world, steps[0])
      case Ok(w) => Run(Progress(w, None), steps[1..])
      case Err(f) => Progress(p.world, Some(f))
  }

  function Start(w: World): Progress
  {
    Progress(w, None)
  }

  // ---------------------------------------------------------------------
  // Running a plan piece by piece
  // ---------------------------------------------------------------------

  /** Running `a + b` is running `a`, then `b` from where `a` left off. */
  lemma {:induction false} RunAppend(p: Progress, a: seq<Step>, b: seq<Step>)
    ensures Run(p, a + b) == Run(Run(p, a), b)
    decreases |a|
  {
    if p.failure.None? && |a| > 0 {
      assert (a + b)[0] == a[0];
      assert (a + b)[1..] == a[1..] + b;
      match Apply(p.world, a[0])
      case Ok(w) => RunAppend(Progress(w, None), a[1..], b);
      case Err(f) =>
    } else if p.failure.None? {
      assert a + b == b;
    }
  }

  /** A run that finishes finished each of its prefixes. */
  lemma PrefixSucceeded(p: Progress, a: seq<Step>, b: seq<Step>)
    requires Run(p, a + b).failure.None?
    ensures Run(p, a).failure.None?
  {
    RunAppend(p, a, b);
  }

  /** Running a single step. */
  lemma SingleStep(p: Progress, s: Step)
    requires p.failure.None?
    ensures Run(p, [s]) == match Apply(p.world, s)
                           case Ok(w) => Progress(w, None)
                           case Err(f) => Progress(p.world, Some(f))
  {
    assert [s][0] == s && [s][1..] == [];
  }

  /** A lone write step that succeeds had its text built and wrote it. */
  lemma WriteRun(p: Progress, path: Path, text: Result<string, NameError>)
    requires p.failure.None? && Run(p, [Write(path, text)]).failure.None?
    ensures var r := Run(p, [Write(path, text)]).world;
            text.Ok? && path in r.files && r.files[path] == text.value
  {
    var s := Write(path, text);
    assert [s][0] == s && [s][1..] == [];
  }

  /** A lone derive step that succeeds read its source and wrote the edited text to its target. */
  lemma DeriveRun(p: Progress, source: Path, target: Path, e: Edit)
    requires p.failure.None? && Run(p, [Derive(source, target, e)]).failure.None?
    ensures var r := Run(p, [Derive(source, target, e)]).world;
            && source in p.world.files && target in r.files
            && r.files[target] == ApplyEdit(e, p.world.files[source])
  {
    var s := Derive(source, target, e);
    assert [s][0] == s && [s][1..] == [];
  }

  /** A lone step leaves alone a file it does not touch. */
  lemma StepFrame(p: Progress, s: Step, q: Path)
    requires !Touches(s, q)
    ensures SameAt(p.world, Run(p, [s]).world, q)
  {
    if p.failure.None? {
      assert [s][0] == s && [s][1..] == [];
      if Apply(p.world, s).Ok? {
        ApplyFrame(p.world, s, q);
      }
    }
  }

  /**
    Two derive steps that succeed: each target holds its edit of its
    source, read before the first write when the first target is not the
    second source.
  */
  lemma TwoDerives(p: Progress, source1: Path, target1: Path, e1: Edit, source2: Path, target2: Path, e2: Edit)
    requires target1 != source2 && target1 != target2
    requires Run(p, [Derive(source1, target1, e1), Derive(source2, target2, e2)]).failure.None?
    ensures var r := Run(p, [Derive(source1, target1, e1), Derive(source2, target2, e2)]).world;
            && source1 in p.world.files && source2 in p.world.files
            && target1 in r.files && r.files[target1] == ApplyEdit(e1, p.world.files[source1])
            && target2 in r.files && r.files[target2] == ApplyEdit(e2, p.world.files[source2])
  {
    var s1, s2 := Derive(source1, target1, e1), Derive(source2, target2, e2);
    assert [s1, s2] == [s1] + [s2];
    RunAppend(p, [s1], [s2]);
    var p1 := Run(p, [s1]);
    DeriveRun(p, source1, target1, e1);
    DeriveRun(p1, source2, target2, e2);
    StepFrame(p, s1, source2);
    StepFrame(p1, s2, target1);
  }

  /** A file no step touches is the same after the run. */
  lemma {:induction false} RunFrame(p: Progress, steps: seq<Step>, q: Path)
    requires forall i :: 0 <= i < |steps| ==> !Touches(steps[i], q)
    ensures SameAt(p.world, Run(p, steps).world, q)
    decreases |steps|
  {
    if p.failure.None? && |steps| > 0 {
      match Apply(p.world, steps[0])
      case Ok(w) =>
        ApplyFrame(p.world, steps[0], q);
        RunFrame(Progress(w, None), steps[1..], q);
      case Err(f) =>
    }
  }

  /** A finished run got through its first step and went on from the world that step left. */
  lemma RunFirst(p: Progress, steps: seq<Step>)
    requires p.failure.None? && |steps| > 0 && Run(p, steps).failure.None?
    ensures Apply(p.world, steps[0]).Ok?
    ensures Run(p, steps) == Run(Progress(Apply(p.world, steps[0]).value, None), steps[1..])
  {
  }

  /** In a finished run, a file only the first step touches holds what that step left. */
  lemma FirstStepLasts(p: Progress, steps: seq<Step>, q: Path)
    requires p.failure.None? && |steps| > 0 && Run(p, steps).failure.None?
    requires forall j :: 1 <= j < |steps| ==> !Touches(steps[j], q)
    ensures Apply(p.world, steps[0]).Ok?
    ensures SameAt(Apply(p.world, steps[0]).value, Run(p, steps).world, q)
  {
    RunFirst(p, steps);
    forall j | 0 <= j < |steps[1..]| ensures !Touches(steps[1..][j], q) {
      assert steps[1..][j] == steps[j + 1];
    }
    RunFrame(Progress(Apply(p.world, steps[0]).value, None), steps[1..], q);
  }

  /** An append and then a registration, both succeeding. */
  lemma AppendThenRegister(p: Progress, path: Path, text: string, name: string)
    requires p.failure.None? && Run(p, [Append(path, text), Register(name)]).failure.None?
    ensures var r := Run(p, [Append(path, text), Register(name)]).world;
            var before := if path in p.world.files then p.world.files[path] else "";
            && p.world.registry.Some? && r.registry == Some(p.world.registry.value + [name])
            && path in r.files && r.files[path] == before + text
  {
    var s1, s2 := Append(path, text), Register(name);
    assert [s1, s2] == [s1] + [s2];
    RunAppend(p, [s1], [s2]);
    var p1 := Run(p, [s1]);
    SingleStep(p, s1);
    SingleStep(p1, s2);
    ReadAfterAppend(p.world, path, text);
    var list := p1.world.registry.value;
    assert (list + [name])[..|list|] == list;
  }

  /** A list of writes to pairwise different paths. */
  predicate DistinctWrites(steps: seq<Step>)
  {
    && (forall j :: 0 <= j < |steps| ==> steps[j].Write?)
    && (forall j, k :: 0 <= j < k < |steps| ==> steps[j].path != steps[k].path)
  }

  /** In a finished run of writes to different paths, every file holds the text written to it. */
  lemma {:induction false} WritesRun(p: Progress, steps: seq<Step>, i: nat)
    requires DistinctWrites(steps) && i < |steps|
    requires Run(p, steps).failure.None?
    ensures var r := Run(p, steps).world;
            && steps[i].text.Ok? && steps[i].path in r.files && r.files[steps[i].path] == steps[i].text.value
    decreases |steps|
  {
    RunFirst(p, steps);
    if i == 0 {
      forall j | 1 <= j < |steps| ensures !Touches(steps[j], steps[0].path) {
      }
      FirstStepLasts(p, steps, steps[0].path);
    } else {
      assert DistinctWrites(steps[1..]) by {
        forall j, k | 0 <= j < k < |steps[1..]| ensures steps[1..][j].path != steps[1..][k].path {
          assert steps[1..][j] == steps[j + 1] && steps[1..][k] == steps[k + 1];
        }
      }
      WritesRun(Progress(Apply(p.world, steps[0]).value, None), steps[1..], i - 1);
    }
  }

  /** A lone step other than `Register` leaves the registry alone. */
  lemma StepKeepsRegistry(p: Progress, s: Step)
    requires !s.Register?
    ensures Run(p, [s]).world.registry == p.world.registry
  {
    if p.failure.None? {
      SingleStep(p, s);
    }
  }

  /** Without a `Register` step the registry is the same after the run. */
  lemma {:induction false} RunKeepsRegistry(p: Progress, steps: seq<Step>)
    requires forall i :: 0 <= i < |steps| ==> !steps[i].Register?
    ensures Run(p, steps).world.registry == p.world.registry
    decreases |steps|
  {
    if p.failure.None? && |steps| > 0 {
      match Apply(p.world, steps[0])
      case Ok(w) => RunKeepsRegistry(Progress(w, None), steps[1..]);
      case Err(f) =>
    }
  }

  /**
    A file that a run changes was changed after every step of `pre`, none of
    which touches it, had succeeded.
  */
  lemma ChangeNeedsPrefix(p: Progress, pre: seq<Step>, rest: seq<Step>, q: Path)
    requires forall i :: 0 <= i < |pre| ==> !Touches(pre[i], q)
    requires !SameAt(p.world, Run(p, pre + rest).world, q)
    ensures Run(p, pre).failure.None?
  {
    RunAppend(p, pre, rest);
    RunFrame(p, pre, q);
  }

  /** Likewise for the registry, when `pre` holds no `Register` step. */
  lemma RegistryChangeNeedsPrefix(p: Progress, pre: seq<Step>, rest: seq<Step>)
    requires forall i :: 0 <= i < |pre| ==> !pre[i].Register?
    requires Run(p, pre + rest).world.registry != p.world.registry
    ensures Run(p, pre).failure.None?
  {
    RunAppend(p, pre, rest);
    RunKeepsRegistry(p, pre);
  }

  /**
    In a run that finishes, a file holds what the last step touching it
    wrote there.
  */
  lemma LastTouch(p: Progress, pre: seq<Step>, s: Step, post: seq<Step>, q: Path)
    requires Run(p, pre + [s] + post).failure.None?
    requires forall i :: 0 <= i < |post| ==> !Touches(post[i], q)
    ensures Run(p, pre).failure.None? && Apply(Run(p, pre).world, s).Ok?
    ensures SameAt(Apply(Run(p, pre).world, s).value, Run(p, pre + [s] + post).world, q)
  {
    RunAppend(p, pre + [s], post);
    RunAppend(p, pre, [s]);
    var mid := Run(p, pre + [s]);
    assert mid.failure.None?;
    assert [s][1..] == [];
    RunFrame(mid, post, q);
  }

  /**
    No rollback: a run that fails stops at some step `k`; the world is then
    exactly the one the first `k` steps left, and step `k` is what failed.
  */
  lemma {:induction false} FailurePoint(p: Progress, steps: seq<Step>) returns (k: nat)
    requires p.failure.None? && Run(p, steps).failure.Some?
    ensures k < |steps|
    ensures Run(p, steps[..k]).failure.None?
    ensures Run(p, steps).world == Run(p, steps[..k]).world
    ensures Apply(Run(p, steps[..k]).world, steps[k]) == Err(Run(p, steps).failure.value)
    decreases |steps|
  {
    match Apply(p.world, steps[0])
    case Err(f) =>
      k := 0;
      assert steps[..0] == [];
    case Ok(w) =>
      var p' := Progress(w, None);
      var j := FailurePoint(p', steps[1..]);
      k := j + 1;
      assert steps[..k] == [steps[0]] + steps[1..][..j];
      assert steps[..k][0] == steps[0] && steps[..k][1..] == steps[1..][..j];
      assert steps[1..][j] == steps[k];
  }
}
