/**
  The two `app` orchestrators. Each screens the typed name, works out the
  port, and then runs a fixed plan of filesystem steps:

  - the services variant reads the port from the pipeline's `.env` file,
    writes `package.json` from the manifest, copies `tsconfig.json`, and
    finally appends a gateway stanza and registers the service;
  - the pipeline variant takes the port from the `LAST_PORT` value the
    process loaded at start-up and copies `package.json` and
    `tsconfig.json`.

  Paths are relative to the folder holding the services, in which the
  pipeline lives at `pipeline/` and the gateway at `gateway/`.
*/
module Scaffold {
  import opened Wrappers
  import opened Text
  import opened Decimal
  import opened Names
  import opened EnvFile
  import opened Templates
  import opened FileSystem
  import opened Plan

  // ---------------------------------------------------------------------
  // Paths
  // ---------------------------------------------------------------------

  function ServiceDir(name: string): Path { [name] }

  function SrcDir(name: string): Path { [name, "src"] }

  function ServiceFile(name: string, file: string): Path { [name, file] }

  function SourceFile(name: string, file: string): Path { [name, "src", file] }

  function PipelineFile(file: string): Path { ["pipeline", file] }

  const PipelineDir: Path := ["pipeline"]

  const GatewayDir: Path := ["gateway"]

  /** The gateway's `src/app.ts`, which `addGateway` appends to. */
  const GatewayApp: Path := ["gateway", "src", "app.ts"]

  /** The pipeline's `.env`, which holds the `LAST_PORT` counter. */
  function CounterFile(): Path { PipelineFile(".env") }

  // ---------------------------------------------------------------------
  // The plans
  // ---------------------------------------------------------------------

  /** `filesListForCreate`, in order. */
  const CreateSuffixes: seq<string> :=
    [".controller.ts", ".service.ts", ".model.ts", ".interface.ts", ".enum.ts", ".middleware.ts", ".dto.ts", ".router.ts"]

  /** `filesListForCopy` of the services variant, which writes `package.json` itself. */
  const ServicesCopies: seq<string> := ["tsconfig.json"]

  /** `filesListForCopy` of the pipeline variant. */
  const PipelineCopies: seq<string> := ["package.json", "tsconfig.json"]

  /** `makeFolder(servicePath)` then `makeFolder(srcPath)`. */
  function Folders(name: string): seq<Step>
  {
    [Mkdir(ServiceDir(name)), Mkdir(SrcDir(name))]
  }

  /** Writing `src/app.ts` from the app template. */
  function WriteApp(name: string, port: Port): Step
  {
    Write(SourceFile(name, "app.ts"), AppTemplate(name, port))
  }

  /** `updateLastPort`: the pipeline's `.env` rewritten in place. */
  function Commit(port: Port): Step
  {
    Derive(CounterFile(), CounterFile(), CommitCounter(port))
  }

  /** `createEnvForNewService` and `createDockerFileForNewService`, both read from the pipeline folder. */
  function Derived(name: string, port: Port): seq<Step>
  {
    [ Derive(CounterFile(), ServiceFile(name, ".env"), ServiceEnv(port)),
      Derive(PipelineFile("Dockerfile"), ServiceFile(name, "Dockerfile"), ServiceDockerfile(port)) ]
  }

  /** `copyFiles(files, pipelinePath, servicePath)`: each file copied in order. */
  function CopyFiles(files: seq<string>, name: string): (r: seq<Step>)
    ensures |r| == |files|
    ensures forall i :: 0 <= i < |files| ==> r[i] == Derive(PipelineFile(files[i]), ServiceFile(name, files[i]), Verbatim)
  {
    if |files| == 0 then []
    else [Derive(PipelineFile(files[0]), ServiceFile(name, files[0]), Verbatim)] + CopyFiles(files[1..], name)
  }

  /** `createFiles(suffixes, name, srcPath)`: one write per suffix, in order. */
  function CreateFiles(suffixes: seq<string>, name: string): (r: seq<Step>)
    ensures |r| == |suffixes|
    ensures forall i :: 0 <= i < |suffixes| ==>
              r[i] == Write(SourceFile(name, name + suffixes[i]), GetBoilerplate(suffixes[i], name))
  {
    if |suffixes| == 0 then []
    else [Write(SourceFile(name, name + suffixes[0]), GetBoilerplate(suffixes[0], name))] + CreateFiles(suffixes[1..], name)
  }

  /** The order both variants share: folders, `app.ts`, the counter commit, then `rest`. */
  function Shaped(name: string, port: Port, rest: seq<Step>): seq<Step>
  {
    Folders(name) + [WriteApp(name, port)] + [Commit(port)] + rest
  }

  /** `createPackageForNewService`: the manifest's JSON text written as `package.json`. */
  function PackageStep(name: string, manifest: string): Step
  {
    Write(ServiceFile(name, "package.json"), Ok(manifest))
  }

  /** `addGateway` then `addServer`. */
  function Announce(name: string, stanza: string): seq<Step>
  {
    [Append(GatewayApp, stanza), Register(name)]
  }

  /** After the commit: the derived files, the variant's `middle` steps, `createFiles`, the variant's `tail`. */
  function Rest(name: string, port: Port, middle: seq<Step>, tail: seq<Step>): seq<Step>
  {
    Derived(name, port) + middle + CreateFiles(CreateSuffixes, name) + tail
  }

  /** The services variant's own steps before `createFiles`: `package.json`, then the copies. */
  function ServicesMiddle(name: string, manifest: string): seq<Step>
  {
    [PackageStep(name, manifest)] + CopyFiles(ServicesCopies, name)
  }

  /** What the services variant does after the commit. */
  function ServicesRest(name: string, port: Port, manifest: string, stanza: string): seq<Step>
  {
    Rest(name, port, ServicesMiddle(name, manifest), Announce(name, stanza))
  }

  /** What the pipeline variant does after the commit. */
  function PipelineRest(name: string, port: Port): seq<Step>
  {
    Rest(name, port, CopyFiles(PipelineCopies, name), [])
  }

  // ---------------------------------------------------------------------
  // The orchestrators
  // ---------------------------------------------------------------------

  /** How an attempt ends: `exitApp()` on `:q` or a reserved name, success, or a caught error. */
  datatype Outcome = Quit | Reserved | Created | Failed(failure: Failure)

  datatype Attempt = Attempt(world: World, outcome: Outcome)

  /**
    The checks before any work: `:q` quits and `pipeline` is refused, both
    on the text as typed; only then is the name validated and lower-cased.
  */
  function Admit(input: string): (r: Result<string, Outcome>)
    ensures r.Ok? <==> input != ":q" && input != "pipeline" && ValidateService(input).Ok?
    ensures r.Ok? ==> r.value == ValidateService(input).value
    ensures r == Err(Quit) <==> input == ":q"
    ensures r == Err(Reserved) <==> input == "pipeline"
  {
    if input == ":q" then Err(Quit)
    else if input == "pipeline" then Err(Reserved)
    else
      match ValidateService(input)
      case Err(e) => Err(Failed(NameFailure(e)))
      case Ok(name) => Ok(name)
  }

  /** After the plan: `npm install`, whose outcome is given, decides success. */
  function Finish(p: Progress, installs: bool): (r: Attempt)
    ensures r.world == p.world
    ensures r.outcome == Created <==> p.failure.None? && installs
    ensures r.outcome.Failed? <==> !(p.failure.None? && installs)
  {
    if p.failure.Some? then Attempt(p.world, Failed(p.failure.value))
    else if installs then Attempt(p.world, Created)
    else Attempt(p.world, Failed(InstallFailure))
  }

  /**
    One attempt of the services variant. The gateway stanza
    (`gatewayBoilerplate`) and the JSON text of a manifest are given as
    functions; `installs` is the outcome of `npm install`.
  */
  function ServicesApp(w: World, input: string, gateway: (string, Port) -> string,
                       render: Manifest -> string, installs: bool): (r: Attempt)
    ensures Admit(input).Err? ==> r.world == w && r.outcome == Admit(input).error
    ensures r.outcome == Created ==> Admit(input).Ok? && CounterFile() in w.files
  {
    match Admit(input)
    case Err(o) => Attempt(w, o)
    case Ok(name) =>
      match ReadFile(w, CounterFile())
      case Err(f) => Attempt(w, Failed(FileFailure(f)))
      case Ok(env) =>
        var port := GetNewPort(env);
        var manifest := render(PackageManifest(input));
        Finish(Run(Start(w), Shaped(name, port, ServicesRest(name, port, manifest, gateway(name, port)))), installs)
  }

  /** The port the pipeline variant uses: `parseInt(process.env.LAST_PORT) + 1` on the start-up value. */
  function SnapshotPort(snapshot: Option<string>): (r: Port)
    ensures snapshot.None? ==> r == NaN
    ensures snapshot.Some? && |snapshot.value| > 0 && AllDigits(snapshot.value) ==> r == Num(ValueIn(snapshot.value, 10) + 1)
  {
    Next(ParseEnv(snapshot))
  }

  /** One attempt of the pipeline variant; `snapshot` is `LAST_PORT` as loaded when the process started. */
  function PipelineApp(w: World, input: string, snapshot: Option<string>, installs: bool): (r: Attempt)
    ensures Admit(input).Err? ==> r.world == w && r.outcome == Admit(input).error
  {
    match Admit(input)
    case Err(o) => Attempt(w, o)
    case Ok(name) =>
      var port := SnapshotPort(snapshot);
      Finish(Run(Start(w), Shaped(name, port, PipelineRest(name, port))), installs)
  }

  // ---------------------------------------------------------------------
  // The shared shape
  // ---------------------------------------------------------------------

  /** No step of `steps` touches the file at `q`. */
  predicate Untouched(steps: seq<Step>, q: Path)
  {
    forall i :: 0 <= i < |steps| ==> !Touches(steps[i], q)
  }

  lemma UntouchedAppend(a: seq<Step>, b: seq<Step>, q: Path)
    requires Untouched(a, q) && Untouched(b, q)
    ensures Untouched(a + b, q)
  {
    forall i | 0 <= i < |a + b| ensures !Touches((a + b)[i], q) {
      if i >= |a| {
        assert (a + b)[i] == b[i - |a|];
      }
    }
  }

  /** The shared shape runs in four stages: folders, `app.ts`, the commit, the rest. */
  lemma ShapedStages(p: Progress, name: string, port: Port, rest: seq<Step>)
    ensures Run(p, Shaped(name, port, rest))
         == Run(Run(Run(Run(p, Folders(name)), [WriteApp(name, port)]), [Commit(port)]), rest)
  {
    RunAppend(p, Folders(name) + [WriteApp(name, port)] + [Commit(port)], rest);
    RunAppend(p, Folders(name) + [WriteApp(name, port)], [Commit(port)]);
    RunAppend(p, Folders(name), [WriteApp(name, port)]);
  }

  /** Running the two folder steps: both folders appear, or the world is left as it was. */
  lemma FoldersRun(w: World, name: string)
    ensures var f := Run(Start(w), Folders(name));
            && (f.failure.None? ==> ServiceDir(name) in f.world.dirs && SrcDir(name) in f.world.dirs)
            && (f.failure.None? ==> !Exists(w, ServiceDir(name)))
            && (f.failure.Some? ==> f.world.files == w.files && f.world.registry == w.registry)
            && (Exists(w, ServiceDir(name)) ==> f == Progress(w, Some(FileFailure(AlreadyExists(ServiceDir(name))))))
  {
    var fs := Folders(name);
    assert fs[0] == Mkdir(ServiceDir(name)) && fs[1..] == [Mkdir(SrcDir(name))];
    match MakeFolder(w, ServiceDir(name))
    case Err(e) =>
    case Ok(w1) =>
      SingleStep(Progress(w1, None), Mkdir(SrcDir(name)));
  }

  /** The folder steps write no file. */
  lemma FoldersFrame(p: Progress, name: string, q: Path)
    ensures SameAt(p.world, Run(p, Folders(name)).world, q)
  {
    var d1, d2 := Mkdir(ServiceDir(name)), Mkdir(SrcDir(name));
    TwoSteps(p, d1, d2);
    StepFrame(p, d1, q);
    StepFrame(Run(p, [d1]), d2, q);
  }

  /** A service folder that exists stops the plan at its first step, before any change. */
  lemma ExistingServiceStopsFirst(w: World, name: string, port: Port, rest: seq<Step>)
    requires Exists(w, ServiceDir(name))
    ensures Run(Start(w), Shaped(name, port, rest)) == Progress(w, Some(FileFailure(AlreadyExists(ServiceDir(name)))))
  {
    ShapedStages(Start(w), name, port, rest);
    FoldersRun(w, name);
  }

  /**
    Nothing is written before both folders exist: a run that changes any
    file, or the registry, has created the service folder and its `src`.
  */
  lemma ChangesNeedFolders(w: World, name: string, port: Port, rest: seq<Step>, q: Path)
    requires var r := Run(Start(w), Shaped(name, port, rest)).world;
             !SameAt(w, r, q) || r.registry != w.registry
    ensures var r := Run(Start(w), Shaped(name, port, rest)).world;
            ServiceDir(name) in r.dirs && SrcDir(name) in r.dirs
  {
    ShapedStages(Start(w), name, port, rest);
    FoldersRun(w, name);
  }

  /**
    The counter file changes only by the commit: when `rest` leaves it
    alone, after the run it is either as it was or the old text with the
    run's port committed.
  */
  lemma CounterOnlyCommitted(w: World, name: string, port: Port, rest: seq<Step>)
    requires Untouched(rest, CounterFile())
    ensures var r := Run(Start(w), Shaped(name, port, rest)).world;
            || SameAt(w, r, CounterFile())
            || (CounterFile() in w.files && CounterFile() in r.files
                && r.files[CounterFile()] == UpdateLastPort(w.files[CounterFile()], port))
  {
    var c := CounterFile();
    ShapedStages(Start(w), name, port, rest);
    var f := Run(Start(w), Folders(name));
    var a := Run(f, [WriteApp(name, port)]);
    var m := Run(a, [Commit(port)]);
    FoldersFrame(Start(w), name, c);
    StepFrame(f, WriteApp(name, port), c);
    CommitRun(a, port);
    RunFrame(m, rest, c);
  }

  /** The commit step alone: the counter file is left as it was or gets the port committed. */
  lemma CommitRun(a: Progress, port: Port)
    ensures var m := Run(a, [Commit(port)]).world;
            var c := CounterFile();
            || SameAt(a.world, m, c)
            || (c in a.world.files && c in m.files && m.files[c] == UpdateLastPort(a.world.files[c], port))
  {
    if a.failure.None? {
      SingleStep(a, Commit(port));
    }
  }

  /** `Rest` leaves a file alone that none of its parts touches. */
  lemma RestUntouched(name: string, port: Port, middle: seq<Step>, tail: seq<Step>, q: Path)
    requires Untouched(Derived(name, port), q) && Untouched(middle, q)
    requires Untouched(CreateFiles(CreateSuffixes, name), q) && Untouched(tail, q)
    ensures Untouched(Rest(name, port, middle, tail), q)
  {
    UntouchedAppend(Derived(name, port), middle, q);
    UntouchedAppend(Derived(name, port) + middle, CreateFiles(CreateSuffixes, name), q);
    UntouchedAppend(Derived(name, port) + middle + CreateFiles(CreateSuffixes, name), tail, q);
  }

  /** Nothing after the commit touches the counter file, unless the service is named `pipeline`. */
  lemma RestLeavesCounter(name: string, port: Port, manifest: string, stanza: string)
    requires name != "pipeline"
    ensures Untouched(ServicesRest(name, port, manifest, stanza), CounterFile())
    ensures Untouched(PipelineRest(name, port), CounterFile())
  {
    var c := CounterFile();
    var package, copies := [PackageStep(name, manifest)], CopyFiles(ServicesCopies, name);
    assert Untouched(package, c);
    assert Untouched(copies, c);
    UntouchedAppend(package, copies, c);
    assert Untouched(CopyFiles(PipelineCopies, name), c);
    assert Untouched(Announce(name, stanza), c);
    assert Untouched(CreateFiles(CreateSuffixes, name), c);
    RestUntouched(name, port, package + copies, Announce(name, stanza), c);
    RestUntouched(name, port, CopyFiles(PipelineCopies, name), [], c);
  }

  // ---------------------------------------------------------------------
  // The orchestrators' guarantees
  // ---------------------------------------------------------------------

  /**
    A service whose folder exists is refused by the first `makeFolder`,
    before anything is written: no file changes and the counter is not
    advanced.
  */
  lemma ServicesExistingService(w: World, input: string, gateway: (string, Port) -> string,
                                render: Manifest -> string, installs: bool)
    requires Admit(input).Ok? && Exists(w, ServiceDir(Admit(input).value))
    ensures var r := ServicesApp(w, input, gateway, render, installs);
            && r.world == w
            && (CounterFile() in w.files ==> r.outcome == Failed(FileFailure(AlreadyExists(ServiceDir(Admit(input).value)))))
  {
    var name := Admit(input).value;
    if CounterFile() in w.files {
      var port := GetNewPort(w.files[CounterFile()]);
      ExistingServiceStopsFirst(w, name, port, ServicesRest(name, port, render(PackageManifest(input)), gateway(name, port)));
    }
  }

  /** The same guard in the pipeline variant. */
  lemma PipelineExistingService(w: World, input: string, snapshot: Option<string>, installs: bool)
    requires Admit(input).Ok? && Exists(w, ServiceDir(Admit(input).value))
    ensures PipelineApp(w, input, snapshot, installs)
         == Attempt(w, Failed(FileFailure(AlreadyExists(ServiceDir(Admit(input).value)))))
  {
    var name := Admit(input).value;
    var port := SnapshotPort(snapshot);
    ExistingServiceStopsFirst(w, name, port, PipelineRest(name, port));
  }

  /**
    `Pipeline` typed with a capital passes the reserved-name check, which
    compares the text as typed, and is lower-cased into the pipeline's own
    folder name; the folder guard then refuses it.
  */
  lemma CapitalisedPipeline(w: World, snapshot: Option<string>, gateway: (string, Port) -> string,
                            render: Manifest -> string, installs: bool)
    requires PipelineDir in w.dirs
    ensures Admit("Pipeline") == Ok("pipeline")
    ensures PipelineApp(w, "Pipeline", snapshot, installs) == Attempt(w, Failed(FileFailure(AlreadyExists(PipelineDir))))
    ensures CounterFile() in w.files ==>
              ServicesApp(w, "Pipeline", gateway, render, installs) == Attempt(w, Failed(FileFailure(AlreadyExists(PipelineDir))))
  {
    var lower := Lower("Pipeline");
    assert lower == "pipeline";
    assert ValidateService("Pipeline") == Ok("pipeline");
    PipelineExistingService(w, "Pipeline", snapshot, installs);
    ServicesExistingService(w, "Pipeline", gateway, render, installs);
  }

  /**
    Nothing is written before both folders exist, in the services variant:
    an attempt that changes any file or the registry has created the
    service folder and its `src`.
  */
  lemma ServicesWritesFollowFolders(w: World, input: string, gateway: (string, Port) -> string,
                                    render: Manifest -> string, installs: bool)
    ensures var r := ServicesApp(w, input, gateway, render, installs).world;
            forall q :: !SameAt(w, r, q) ==>
              Admit(input).Ok? && ServiceDir(Admit(input).value) in r.dirs && SrcDir(Admit(input).value) in r.dirs
    ensures var r := ServicesApp(w, input, gateway, render, installs).world;
            r.registry != w.registry ==>
              Admit(input).Ok? && ServiceDir(Admit(input).value) in r.dirs && SrcDir(Admit(input).value) in r.dirs
  {
    var r := ServicesApp(w, input, gateway, render, installs).world;
    if Admit(input).Ok? && CounterFile() in w.files {
      var name := Admit(input).value;
      var port := GetNewPort(w.files[CounterFile()]);
      var rest := ServicesRest(name, port, render(PackageManifest(input)), gateway(name, port));
      forall q | !SameAt(w, r, q) ensures ServiceDir(name) in r.dirs && SrcDir(name) in r.dirs {
        ChangesNeedFolders(w, name, port, rest, q);
      }
      if r.registry != w.registry {
        ChangesNeedFolders(w, name, port, rest, []);
      }
    }
  }

  /** The same ordering in the pipeline variant. */
  lemma PipelineWritesFollowFolders(w: World, input: string, snapshot: Option<string>, installs: bool)
    ensures var r := PipelineApp(w, input, snapshot, installs).world;
            forall q :: !SameAt(w, r, q) ==>
              Admit(input).Ok? && ServiceDir(Admit(input).value) in r.dirs && SrcDir(Admit(input).value) in r.dirs
  {
    var r := PipelineApp(w, input, snapshot, installs).world;
    if Admit(input).Ok? {
      var name := Admit(input).value;
      var port := SnapshotPort(snapshot);
      forall q | !SameAt(w, r, q) ensures ServiceDir(name) in r.dirs && SrcDir(name) in r.dirs {
        ChangesNeedFolders(w, name, port, PipelineRest(name, port), q);
      }
    }
  }

  /**
    In the services variant the counter file ends either as it was or with
    the port read from it committed back.
  */
  lemma ServicesCounter(w: World, input: string, gateway: (string, Port) -> string,
                        render: Manifest -> string, installs: bool)
    requires PipelineDir in w.dirs
    ensures var r := ServicesApp(w, input, gateway, render, installs).world;
            var c := CounterFile();
            || SameAt(w, r, c)
            || (c in w.files && c in r.files && r.files[c] == UpdateLastPort(w.files[c], GetNewPort(w.files[c])))
  {
    if Admit(input).Ok? && CounterFile() in w.files {
      var name := Admit(input).value;
      var port := GetNewPort(w.files[CounterFile()]);
      var manifest, stanza := render(PackageManifest(input)), gateway(name, port);
      if name == "pipeline" {
        ExistingServiceStopsFirst(w, name, port, ServicesRest(name, port, manifest, stanza));
      } else {
        RestLeavesCounter(name, port, manifest, stanza);
        CounterOnlyCommitted(w, name, port, ServicesRest(name, port, manifest, stanza));
      }
    }
  }

  /** In the pipeline variant the counter file ends either as it was or with the start-up port committed. */
  lemma PipelineCounter(w: World, input: string, snapshot: Option<string>, installs: bool)
    requires PipelineDir in w.dirs
    ensures var r := PipelineApp(w, input, snapshot, installs).world;
            var c := CounterFile();
            || SameAt(w, r, c)
            || (c in w.files && c in r.files && r.files[c] == UpdateLastPort(w.files[c], SnapshotPort(snapshot)))
  {
    if Admit(input).Ok? {
      var name := Admit(input).value;
      var port := SnapshotPort(snapshot);
      if name == "pipeline" {
        ExistingServiceStopsFirst(w, name, port, PipelineRest(name, port));
      } else {
        RestLeavesCounter(name, port, "", "");
        CounterOnlyCommitted(w, name, port, PipelineRest(name, port));
      }
    }
  }

  /**
    A retry of the services variant after a commit reads the next port: if
    the counter read `k + 1` and the first attempt committed it, the
    second attempt gets `k + 2`.
  */
  lemma ServicesRetryTakesNextPort(w: World, input: string, gateway: (string, Port) -> string,
                                   render: Manifest -> string, installs: bool, k: nat)
    requires PipelineDir in w.dirs && CounterFile() in w.files
    requires CounterOnCounterLine(w.files[CounterFile()]) && GetNewPort(w.files[CounterFile()]) == Num(k + 1)
    ensures var r := ServicesApp(w, input, gateway, render, installs).world;
            !SameAt(w, r, CounterFile()) ==> GetNewPort(r.files[CounterFile()]) == Num(k + 2)
  {
    ServicesCounter(w, input, gateway, render, installs);
    CounterRoundTrip(w.files[CounterFile()], k + 1);
  }

  /**
    A retry of the pipeline variant reuses the start-up port: once an
    attempt has committed port `n`, a second attempt commits `n` again, so
    the counter does not move and both attempts use the same port.
  */
  lemma PipelineRetryReusesPort(w: World, first: string, second: string, snapshot: Option<string>,
                                installs: bool, installs': bool, n: nat)
    requires PipelineDir in w.dirs && CounterFile() in w.files
    requires CounterOnCounterLine(w.files[CounterFile()]) && SnapshotPort(snapshot) == Num(n)
    ensures var r1 := PipelineApp(w, first, snapshot, installs).world;
            var r2 := PipelineApp(r1, second, snapshot, installs').world;
            !SameAt(w, r1, CounterFile()) ==>
              && GetNewPort(r1.files[CounterFile()]) == Num(n + 1)
              && GetNewPort(r2.files[CounterFile()]) == Num(n + 1)
  {
    var c := CounterFile();
    var r1 := PipelineApp(w, first, snapshot, installs).world;
    PipelineCounter(w, first, snapshot, installs);
    if !SameAt(w, r1, c) {
      CounterRoundTrip(w.files[c], n);
      PipelineCounter(r1, second, snapshot, installs');
      CounterRoundTrip(r1.files[c], n);
    }
  }

  // ---------------------------------------------------------------------
  // What a finished plan leaves behind
  // ---------------------------------------------------------------------

  /** Two steps run one after the other. */
  lemma TwoSteps(p: Progress, s1: Step, s2: Step)
    ensures Run(p, [s1, s2]) == Run(Run(p, [s1]), [s2])
  {
    assert [s1, s2] == [s1] + [s2];
    RunAppend(p, [s1], [s2]);
  }

  /** `Rest` runs in four stages. */
  lemma RestStages(m: Progress, name: string, port: Port, middle: seq<Step>, tail: seq<Step>)
    ensures Run(m, Rest(name, port, middle, tail))
         == Run(Run(Run(Run(m, Derived(name, port)), middle), CreateFiles(CreateSuffixes, name)), tail)
  {
    var d, c := Derived(name, port), CreateFiles(CreateSuffixes, name);
    RunAppend(m, d + middle + c, tail);
    RunAppend(m, d + middle, c);
    RunAppend(m, d, middle);
  }

  /** Up to the commit, only `app.ts` and the counter file are written. */
  lemma PrologueFrame(w: World, name: string, port: Port, q: Path)
    requires q != SourceFile(name, "app.ts") && q != CounterFile()
    ensures var f := Run(Start(w), Folders(name));
            var a := Run(f, [WriteApp(name, port)]);
            SameAt(w, Run(a, [Commit(port)]).world, q)
  {
    var f := Run(Start(w), Folders(name));
    FoldersFrame(Start(w), name, q);
    StepFrame(f, WriteApp(name, port), q);
    StepFrame(Run(f, [WriteApp(name, port)]), Commit(port), q);
  }

  /** A file of the pipeline folder other than `.env` is read, never written, up to the commit. */
  lemma PipelineFileKept(w: World, name: string, port: Port, file: string)
    requires file != ".env"
    ensures var f := Run(Start(w), Folders(name));
            var a := Run(f, [WriteApp(name, port)]);
            SameAt(w, Run(a, [Commit(port)]).world, PipelineFile(file))
  {
    assert PipelineFile(file) != SourceFile(name, "app.ts") && PipelineFile(file)[1] != CounterFile()[1];
    PrologueFrame(w, name, port, PipelineFile(file));
  }

  /**
    Up to the commit, in a run that gets that far: both folders are new,
    `app.ts` holds the app template for the port, and the counter holds the
    port committed into the old text.
  */
  lemma PrologueOutputs(w: World, name: string, port: Port)
    requires Run(Run(Run(Start(w), Folders(name)), [WriteApp(name, port)]), [Commit(port)]).failure.None?
    ensures var m := Run(Run(Run(Start(w), Folders(name)), [WriteApp(name, port)]), [Commit(port)]).world;
            var app, c := SourceFile(name, "app.ts"), CounterFile();
            && !Exists(w, ServiceDir(name)) && ServiceDir(name) in m.dirs && SrcDir(name) in m.dirs
            && AppTemplate(name, port).Ok? && app in m.files && m.files[app] == AppTemplate(name, port).value
            && c in w.files && c in m.files && m.files[c] == UpdateLastPort(w.files[c], port)
  {
    var c := CounterFile();
    FoldersRun(w, name);
    FoldersFrame(Start(w), name, c);
    AppThenCommit(Run(Start(w), Folders(name)), name, port);
  }

  /** Writing `app.ts` and then committing the counter, from the world the folder steps left. */
  lemma AppThenCommit(f: Progress, name: string, port: Port)
    requires f.failure.None? && Run(Run(f, [WriteApp(name, port)]), [Commit(port)]).failure.None?
    ensures var m := Run(Run(f, [WriteApp(name, port)]), [Commit(port)]).world;
            var app, c := SourceFile(name, "app.ts"), CounterFile();
            && AppTemplate(name, port).Ok? && app in m.files && m.files[app] == AppTemplate(name, port).value
            && c in f.world.files && c in m.files && m.files[c] == UpdateLastPort(f.world.files[c], port)
  {
    var app, c := SourceFile(name, "app.ts"), CounterFile();
    var a := Run(f, [WriteApp(name, port)]);
    AppWritten(f, name, port);
    CommitWritten(a, name, port);
  }

  /** Writing `app.ts`: the template is built and written, and the counter file is left alone. */
  lemma AppWritten(f: Progress, name: string, port: Port)
    requires f.failure.None? && Run(f, [WriteApp(name, port)]).failure.None?
    ensures var a := Run(f, [WriteApp(name, port)]).world;
            var app := SourceFile(name, "app.ts");
            && AppTemplate(name, port).Ok? && app in a.files && a.files[app] == AppTemplate(name, port).value
            && SameAt(f.world, a, CounterFile())
  {
    var app, c := SourceFile(name, "app.ts"), CounterFile();
    assert !Touches(WriteApp(name, port), c) by { assert |app| != |c|; }
    WriteRun(f, app, AppTemplate(name, port));
    StepFrame(f, WriteApp(name, port), c);
  }

  /** Committing the counter: the port is written into it, and `app.ts` is left alone. */
  lemma CommitWritten(a: Progress, name: string, port: Port)
    requires a.failure.None? && Run(a, [Commit(port)]).failure.None?
    ensures var m := Run(a, [Commit(port)]).world;
            var c := CounterFile();
            && c in a.world.files && c in m.files && m.files[c] == UpdateLastPort(a.world.files[c], port)
            && SameAt(a.world, m, SourceFile(name, "app.ts"))
  {
    var app, c := SourceFile(name, "app.ts"), CounterFile();
    assert !Touches(Commit(port), app) by { assert |app| != |c|; }
    DeriveRun(a, c, c, CommitCounter(port));
    StepFrame(a, Commit(port), app);
    EditMeaning(a.world.files[c], port);
  }

  /** `createEnvForNewService` and `createDockerFileForNewService`, in a run that gets through them. */
  lemma DerivedOutputs(m: Progress, name: string, port: Port)
    requires Run(m, Derived(name, port)).failure.None?
    ensures CounterFile() in m.world.files && PipelineFile("Dockerfile") in m.world.files
    ensures var d := Run(m, Derived(name, port)).world;
            var env, docker := ServiceFile(name, ".env"), ServiceFile(name, "Dockerfile");
            && env in d.files && d.files[env] == CreateEnv(m.world.files[CounterFile()], port)
            && docker in d.files && d.files[docker] == CreateDockerfile(m.world.files[PipelineFile("Dockerfile")], port)
  {
    var c, dock := CounterFile(), PipelineFile("Dockerfile");
    var env, docker := ServiceFile(name, ".env"), ServiceFile(name, "Dockerfile");
    assert Derived(name, port) == [Derive(c, env, ServiceEnv(port)), Derive(dock, docker, ServiceDockerfile(port))];
    assert env != dock && env != docker by { assert env[1] != dock[1] && env[1] != docker[1]; }
    TwoDerives(m, c, env, ServiceEnv(port), dock, docker, ServiceDockerfile(port));
    EditMeaning(m.world.files[c], port);
    EditMeaning(m.world.files[dock], port);
  }

  /** The derived-file steps write only the service's `.env` and `Dockerfile`. */
  lemma DerivedFrame(m: Progress, name: string, port: Port, q: Path)
    requires q != ServiceFile(name, ".env") && q != ServiceFile(name, "Dockerfile")
    ensures SameAt(m.world, Run(m, Derived(name, port)).world, q)
  {
    var s1 := Derive(CounterFile(), ServiceFile(name, ".env"), ServiceEnv(port));
    var s2 := Derive(PipelineFile("Dockerfile"), ServiceFile(name, "Dockerfile"), ServiceDockerfile(port));
    assert Derived(name, port) == [s1, s2];
    TwoSteps(m, s1, s2);
    StepFrame(m, s1, q);
    StepFrame(Run(m, [s1]), s2, q);
  }

  /** Every suffix is at least seven characters long, longer than `app.ts`. */
  lemma SuffixesLong()
    ensures forall i :: 0 <= i < |CreateSuffixes| ==> |CreateSuffixes[i]| >= 7
  {
  }

  /** `createFiles` writes only `<name>/src/<name><suffix>` files. */
  lemma CreatesMiss(suffixes: seq<string>, name: string, q: Path)
    requires forall i :: 0 <= i < |suffixes| ==> |suffixes[i]| >= 7
    requires |q| != 3 || q[0] != name || q[1] != "src" || |q[2]| < |name| + 7
    ensures Untouched(CreateFiles(suffixes, name), q)
  {
    var r := CreateFiles(suffixes, name);
    forall i | 0 <= i < |r| ensures !Touches(r[i], q) {
      assert |name + suffixes[i]| == |name| + |suffixes[i]|;
    }
  }

  /** A file that the middle steps, `createFiles` and the tail all leave alone. */
  lemma ThroughRest(d: Progress, name: string, middle: seq<Step>, tail: seq<Step>, q: Path)
    requires Untouched(middle, q) && Untouched(tail, q)
    requires |q| != 3 || q[0] != name || q[1] != "src" || |q[2]| < |name| + 7
    ensures SameAt(d.world, Run(Run(Run(d, middle), CreateFiles(CreateSuffixes, name)), tail).world, q)
  {
    var x := Run(d, middle);
    var t := Run(x, CreateFiles(CreateSuffixes, name));
    SuffixesLong();
    CreatesMiss(CreateSuffixes, name, q);
    RunFrame(d, middle, q);
    RunFrame(x, CreateFiles(CreateSuffixes, name), q);
    RunFrame(t, tail, q);
  }

  /** The variant's steps after the derived files leave `app.ts`, the counter and the derived files alone. */
  predicate KeepsEarlyOutputs(steps: seq<Step>, name: string)
  {
    && Untouched(steps, SourceFile(name, "app.ts"))
    && Untouched(steps, CounterFile())
    && Untouched(steps, ServiceFile(name, ".env"))
    && Untouched(steps, ServiceFile(name, "Dockerfile"))
  }

  /**
    Up to the derived files, in a run that gets that far: `app.ts` from the
    template, the counter with the port committed, and the service's `.env`
    and `Dockerfile` derived from the pipeline's.
  */
  lemma EarlyOutputs(w: World, name: string, port: Port)
    requires PipelineDir in w.dirs
    requires Run(Run(Run(Run(Start(w), Folders(name)), [WriteApp(name, port)]), [Commit(port)]), Derived(name, port)).failure.None?
    ensures var d := Run(Run(Run(Run(Start(w), Folders(name)), [WriteApp(name, port)]), [Commit(port)]), Derived(name, port)).world;
            var app, c, dock := SourceFile(name, "app.ts"), CounterFile(), PipelineFile("Dockerfile");
            var env, docker := ServiceFile(name, ".env"), ServiceFile(name, "Dockerfile");
            && name != "pipeline" && ServiceDir(name) in d.dirs && SrcDir(name) in d.dirs
            && AppTemplate(name, port).Ok? && app in d.files && d.files[app] == AppTemplate(name, port).value
            && c in w.files && c in d.files && d.files[c] == UpdateLastPort(w.files[c], port)
            && env in d.files && d.files[env] == CreateEnv(UpdateLastPort(w.files[c], port), port)
            && dock in w.files && docker in d.files && d.files[docker] == CreateDockerfile(w.files[dock], port)
  {
    var app, c := SourceFile(name, "app.ts"), CounterFile();
    var m := Run(Run(Run(Start(w), Folders(name)), [WriteApp(name, port)]), [Commit(port)]);
    var d := Run(m, Derived(name, port));
    PrologueOutputs(w, name, port);
    PipelineFileKept(w, name, port, "Dockerfile");
    DerivedOutputs(m, name, port);
    var env, docker := ServiceFile(name, ".env"), ServiceFile(name, "Dockerfile");
    assert app != env && app != docker by { assert |app| == 3 && |env| == 2 && |docker| == 2; }
    assert c != env && c != docker by { assert c[0] != env[0] && c[0] != docker[0]; }
    DerivedFrame(m, name, port, app);
    DerivedFrame(m, name, port, c);
  }

  /**
    The files both variants write before their own steps, as a finished
    run leaves them: `app.ts` from the template with the port, the counter
    with the port committed, the service's `.env` derived from the
    committed counter file, and its `Dockerfile` from the pipeline's.
  */
  predicate EarlyFiles(w: World, r: World, name: string, port: Port)
  {
    var app, c, dock := SourceFile(name, "app.ts"), CounterFile(), PipelineFile("Dockerfile");
    var env, docker := ServiceFile(name, ".env"), ServiceFile(name, "Dockerfile");
    && name != "pipeline" && ServiceDir(name) in r.dirs && SrcDir(name) in r.dirs
    && AppTemplate(name, port).Ok? && app in r.files && r.files[app] == AppTemplate(name, port).value
    && c in w.files && c in r.files && r.files[c] == UpdateLastPort(w.files[c], port)
    && env in r.files && r.files[env] == CreateEnv(UpdateLastPort(w.files[c], port), port)
    && dock in w.files && docker in r.files && r.files[docker] == CreateDockerfile(w.files[dock], port)
  }

  /**
    What a finished plan leaves in the files written before the variant's
    own steps: `app.ts` from the template with the port, the counter with
    the port committed, the service's `.env` derived from the committed
    counter file, and its `Dockerfile` from the pipeline's.
  */
  lemma FinishedOutputs(w: World, name: string, port: Port, middle: seq<Step>, tail: seq<Step>)
    requires PipelineDir in w.dirs
    requires KeepsEarlyOutputs(middle, name) && KeepsEarlyOutputs(tail, name)
    requires Run(Start(w), Shaped(name, port, Rest(name, port, middle, tail))).failure.None?
    ensures EarlyFiles(w, Run(Start(w), Shaped(name, port, Rest(name, port, middle, tail))).world, name, port)
  {
    var app, c, dock := SourceFile(name, "app.ts"), CounterFile(), PipelineFile("Dockerfile");
    var env, docker := ServiceFile(name, ".env"), ServiceFile(name, "Dockerfile");
    var f := Run(Start(w), Folders(name));
    var a := Run(f, [WriteApp(name, port)]);
    var m := Run(a, [Commit(port)]);
    var d := Run(m, Derived(name, port));
    ShapedStages(Start(w), name, port, Rest(name, port, middle, tail));
    RestStages(m, name, port, middle, tail);
    EarlyOutputs(w, name, port);
    ThroughRest(d, name, middle, tail, app);
    ThroughRest(d, name, middle, tail, c);
    ThroughRest(d, name, middle, tail, env);
    ThroughRest(d, name, middle, tail, docker);
  }

  /** No name is listed twice. */
  predicate Distinct(names: seq<string>)
  {
    forall j, k :: 0 <= j < k < |names| ==> names[j] != names[k]
  }

  /** The `createFiles` suffixes are pairwise different. */
  lemma SuffixesDistinct()
    ensures Distinct(CreateSuffixes)
  {
  }

  /** Different suffixes give different file paths. */
  lemma CreatesDistinct(suffixes: seq<string>, name: string)
    requires Distinct(suffixes)
    ensures DistinctWrites(CreateFiles(suffixes, name))
  {
    var r := CreateFiles(suffixes, name);
    forall j, k | 0 <= j < k < |r| ensures r[j].path != r[k].path {
      assert (name + suffixes[j])[|name|..] == suffixes[j];
      assert (name + suffixes[k])[|name|..] == suffixes[k];
    }
  }

  /** In a finished `createFiles`, each suffix's file holds its boilerplate. */
  lemma CreatesRun(x: Progress, name: string)
    requires Run(x, CreateFiles(CreateSuffixes, name)).failure.None?
    ensures var t := Run(x, CreateFiles(CreateSuffixes, name)).world;
            forall i :: 0 <= i < |CreateSuffixes| ==>
              var file := SourceFile(name, name + CreateSuffixes[i]);
              GetBoilerplate(CreateSuffixes[i], name).Ok? && file in t.files
              && t.files[file] == GetBoilerplate(CreateSuffixes[i], name).value
  {
    var steps := CreateFiles(CreateSuffixes, name);
    SuffixesDistinct();
    CreatesDistinct(CreateSuffixes, name);
    forall i | 0 <= i < |CreateSuffixes|
      ensures var file := SourceFile(name, name + CreateSuffixes[i]);
              var t := Run(x, steps).world;
              GetBoilerplate(CreateSuffixes[i], name).Ok? && file in t.files
              && t.files[file] == GetBoilerplate(CreateSuffixes[i], name).value
    {
      WritesRun(x, steps, i);
    }
  }

  /**
    In a finished `copyFiles`, each service file is a copy of the pipeline's
    file of the same name as it was when the copying began.
  */
  lemma {:induction false} CopiesRun(x: Progress, files: seq<string>, name: string, i: nat)
    requires name != "pipeline" && i < |files|
    requires Distinct(files)
    requires Run(x, CopyFiles(files, name)).failure.None?
    ensures PipelineFile(files[i]) in x.world.files
    ensures var r := Run(x, CopyFiles(files, name)).world;
            ServiceFile(name, files[i]) in r.files && r.files[ServiceFile(name, files[i])] == x.world.files[PipelineFile(files[i])]
    decreases |files|
  {
    var steps := CopyFiles(files, name);
    assert steps[1..] == CopyFiles(files[1..], name);
    RunFirst(x, steps);
    if i == 0 {
      FirstStepLasts(x, steps, ServiceFile(name, files[0]));
    } else {
      assert Distinct(files[1..]) by {
        forall j, k | 0 <= j < k < |files[1..]| ensures files[1..][j] != files[1..][k] {
          assert files[1..][j] == files[j + 1] && files[1..][k] == files[k + 1];
        }
      }
      CopiesRun(Progress(Apply(x.world, steps[0]).value, None), files[1..], name, i - 1);
      ApplyFrame(x.world, steps[0], PipelineFile(files[i]));
    }
  }

  /** The pipeline's file `file` as it was, copied into the service folder. */
  predicate Copied(w: World, r: World, name: string, file: string)
  {
    && PipelineFile(file) in w.files && ServiceFile(name, file) in r.files
    && r.files[ServiceFile(name, file)] == w.files[PipelineFile(file)]
  }

  /** Every `createFiles` suffix's file holds its boilerplate. */
  predicate BoilerplateWritten(r: World, name: string)
  {
    forall i :: 0 <= i < |CreateSuffixes| ==>
      var file := SourceFile(name, name + CreateSuffixes[i]);
      GetBoilerplate(CreateSuffixes[i], name).Ok? && file in r.files
      && r.files[file] == GetBoilerplate(CreateSuffixes[i], name).value
  }

  /** Copies of files other than `.env` and `Dockerfile` leave the shared outputs alone. */
  lemma CopiesKeep(files: seq<string>, name: string)
    requires forall i :: 0 <= i < |files| ==> files[i] != ".env" && files[i] != "Dockerfile"
    ensures KeepsEarlyOutputs(CopyFiles(files, name), name)
  {
  }

  /**
    Both copy lists name different files, none of them `.env`, `Dockerfile`
    or, in the services variant, `package.json`; so the copies leave the
    shared outputs alone.
  */
  lemma CopyListsFit(name: string)
    ensures Distinct(PipelineCopies) && Distinct(ServicesCopies)
    ensures forall i :: 0 <= i < |ServicesCopies| ==> ServicesCopies[i] != "package.json"
    ensures KeepsEarlyOutputs(CopyFiles(PipelineCopies, name), name)
    ensures KeepsEarlyOutputs(CopyFiles(ServicesCopies, name), name)
  {
    CopiesKeep(PipelineCopies, name);
    CopiesKeep(ServicesCopies, name);
  }

  /** A pipeline file other than `.env` is as it was in the world the derived files were written to. */
  lemma PipelineFileKeptToDerived(w: World, name: string, port: Port, file: string)
    requires name != "pipeline" && file != ".env"
    ensures var m := Run(Run(Run(Start(w), Folders(name)), [WriteApp(name, port)]), [Commit(port)]);
            SameAt(w, Run(m, Derived(name, port)).world, PipelineFile(file))
  {
    var m := Run(Run(Run(Start(w), Folders(name)), [WriteApp(name, port)]), [Commit(port)]);
    PipelineFileKept(w, name, port, file);
    DerivedFrame(m, name, port, PipelineFile(file));
  }

  /**
    A copy made from a pipeline file that was still as in `w` survives the
    rest of a finished run when the tail does not touch it.
  */
  lemma CopySurvives(w: World, d: Progress, name: string, files: seq<string>, tail: seq<Step>, i: nat)
    requires name != "pipeline" && i < |files|
    requires Distinct(files)
    requires SameAt(w, d.world, PipelineFile(files[i]))
    requires Untouched(tail, ServiceFile(name, files[i]))
    requires Run(Run(Run(d, CopyFiles(files, name)), CreateFiles(CreateSuffixes, name)), tail).failure.None?
    ensures Copied(w, Run(Run(Run(d, CopyFiles(files, name)), CreateFiles(CreateSuffixes, name)), tail).world, name, files[i])
  {
    var q := ServiceFile(name, files[i]);
    var x := Run(d, CopyFiles(files, name));
    var t := Run(x, CreateFiles(CreateSuffixes, name));
    CopiesRun(d, files, name, i);
    SuffixesLong();
    CreatesMiss(CreateSuffixes, name, q);
    RunFrame(x, CreateFiles(CreateSuffixes, name), q);
    RunFrame(t, tail, q);
  }

  /** The boilerplate files survive a tail that touches none of them. */
  lemma BoilerplateSurvives(x: Progress, name: string, tail: seq<Step>)
    requires forall i :: 0 <= i < |CreateSuffixes| ==> Untouched(tail, SourceFile(name, name + CreateSuffixes[i]))
    requires Run(Run(x, CreateFiles(CreateSuffixes, name)), tail).failure.None?
    ensures BoilerplateWritten(Run(Run(x, CreateFiles(CreateSuffixes, name)), tail).world, name)
  {
    var t := Run(x, CreateFiles(CreateSuffixes, name));
    CreatesRun(x, name);
    forall i | 0 <= i < |CreateSuffixes| ensures SameAt(t.world, Run(t, tail).world, SourceFile(name, name + CreateSuffixes[i])) {
      RunFrame(t, tail, SourceFile(name, name + CreateSuffixes[i]));
    }
  }

  /**
    A pipeline-variant attempt that succeeds leaves the service scaffolded:
    the shared files as planned, `package.json` and `tsconfig.json` copied
    from the pipeline, and each `createFiles` file holding its boilerplate.
  */
  lemma PipelineCreated(w: World, input: string, snapshot: Option<string>, installs: bool)
    requires PipelineDir in w.dirs
    requires PipelineApp(w, input, snapshot, installs).outcome == Created
    ensures Admit(input).Ok?
    ensures var r, name, port := PipelineApp(w, input, snapshot, installs).world, Admit(input).value, SnapshotPort(snapshot);
            && EarlyFiles(w, r, name, port)
            && Copied(w, r, name, "package.json") && Copied(w, r, name, "tsconfig.json")
            && BoilerplateWritten(r, name)
            && Wired(r, name)
  {
    var name, port := Admit(input).value, SnapshotPort(snapshot);
    var files := PipelineCopies;
    var middle, creates := CopyFiles(files, name), CreateFiles(CreateSuffixes, name);
    var m := Run(Run(Run(Start(w), Folders(name)), [WriteApp(name, port)]), [Commit(port)]);
    var d := Run(m, Derived(name, port));
    var x := Run(d, middle);
    var t := Run(x, creates);
    ShapedStages(Start(w), name, port, PipelineRest(name, port));
    RestStages(m, name, port, middle, []);
    assert Run(t, []) == t;
    CopyListsFit(name);
    FinishedOutputs(w, name, port, middle, []);
    PipelineFileKeptToDerived(w, name, port, files[0]);
    PipelineFileKeptToDerived(w, name, port, files[1]);
    CopySurvives(w, d, name, files, [], 0);
    CopySurvives(w, d, name, files, [], 1);
    BoilerplateSurvives(x, name, []);
    ServiceWired(PipelineApp(w, input, snapshot, installs).world, name, port);
  }

  /** `addGateway` then `addServer`, in a run that gets through both. */
  lemma AnnounceRun(t: Progress, name: string, stanza: string)
    requires t.failure.None? && Run(t, Announce(name, stanza)).failure.None?
    ensures var r := Run(t, Announce(name, stanza)).world;
            var before := if GatewayApp in t.world.files then t.world.files[GatewayApp] else "";
            && t.world.registry.Some? && r.registry == Some(t.world.registry.value + [name])
            && GatewayApp in r.files && r.files[GatewayApp] == before + stanza
  {
    AppendThenRegister(t, GatewayApp, stanza, name);
  }

  /** The steps of `announce` touch only the gateway's `app.ts`. */
  lemma AnnounceTouches(name: string, stanza: string, q: Path)
    requires q != GatewayApp
    ensures Untouched(Announce(name, stanza), q)
  {
  }

  /** After the commit and up to `addGateway`, nothing touches the gateway's `app.ts`. */
  lemma GatewayKept(m: Progress, name: string, port: Port, middle: seq<Step>)
    requires Untouched(middle, GatewayApp)
    ensures var x := Run(Run(m, Derived(name, port)), middle);
            SameAt(m.world, Run(x, CreateFiles(CreateSuffixes, name)).world, GatewayApp)
  {
    var d := Run(m, Derived(name, port));
    DerivedFrame(m, name, port, GatewayApp);
    RunFrame(d, middle, GatewayApp);
    SuffixesLong();
    CreatesMiss(CreateSuffixes, name, GatewayApp);
    RunFrame(Run(d, middle), CreateFiles(CreateSuffixes, name), GatewayApp);
  }

  /** Up to the commit the registry is left alone. */
  lemma PrologueKeepsRegistry(w: World, name: string, port: Port)
    ensures Run(Run(Run(Start(w), Folders(name)), [WriteApp(name, port)]), [Commit(port)]).world.registry == w.registry
  {
    var f := Run(Start(w), Folders(name));
    var a := Run(f, [WriteApp(name, port)]);
    TwoSteps(Start(w), Mkdir(ServiceDir(name)), Mkdir(SrcDir(name)));
    StepKeepsRegistry(Start(w), Mkdir(ServiceDir(name)));
    StepKeepsRegistry(Run(Start(w), [Mkdir(ServiceDir(name))]), Mkdir(SrcDir(name)));
    StepKeepsRegistry(f, WriteApp(name, port));
    StepKeepsRegistry(a, Commit(port));
  }

  /** From the commit to the end of `createFiles` the registry is left alone, when `middle` registers nothing. */
  lemma RestKeepsRegistry(m: Progress, name: string, port: Port, middle: seq<Step>)
    requires forall i :: 0 <= i < |middle| ==> !middle[i].Register?
    ensures Run(Run(Run(m, Derived(name, port)), middle), CreateFiles(CreateSuffixes, name)).world.registry == m.world.registry
  {
    var d := Run(m, Derived(name, port));
    var s1 := Derive(CounterFile(), ServiceFile(name, ".env"), ServiceEnv(port));
    var s2 := Derive(PipelineFile("Dockerfile"), ServiceFile(name, "Dockerfile"), ServiceDockerfile(port));
    assert Derived(name, port) == [s1, s2];
    TwoSteps(m, s1, s2);
    StepKeepsRegistry(m, s1);
    StepKeepsRegistry(Run(m, [s1]), s2);
    RunKeepsRegistry(d, middle);
    RunKeepsRegistry(Run(d, middle), CreateFiles(CreateSuffixes, name));
  }

  /** `createFiles` and a tail that leave a file alone. */
  lemma AfterMiddle(x: Progress, name: string, tail: seq<Step>, q: Path)
    requires Untouched(tail, q)
    requires |q| != 3 || q[0] != name || q[1] != "src" || |q[2]| < |name| + 7
    ensures SameAt(x.world, Run(Run(x, CreateFiles(CreateSuffixes, name)), tail).world, q)
  {
    SuffixesLong();
    CreatesMiss(CreateSuffixes, name, q);
    RunFrame(x, CreateFiles(CreateSuffixes, name), q);
    RunFrame(Run(x, CreateFiles(CreateSuffixes, name)), tail, q);
  }

  /** After the services variant's own steps, `package.json` holds the manifest text. */
  lemma PackageWritten(d: Progress, name: string, manifest: string)
    requires Run(d, ServicesMiddle(name, manifest)).failure.None?
    ensures var x := Run(d, ServicesMiddle(name, manifest)).world;
            ServiceFile(name, "package.json") in x.files && x.files[ServiceFile(name, "package.json")] == manifest
  {
    var package, copies := PackageStep(name, manifest), CopyFiles(ServicesCopies, name);
    var q := ServiceFile(name, "package.json");
    RunAppend(d, [package], copies);
    WriteRun(d, q, Ok(manifest));
    CopyListsFit(name);
    RunFrame(Run(d, [package]), copies, q);
  }

  /** In a finished services run, `tsconfig.json` is the pipeline's as it was in `w`. */
  lemma TsconfigCopied(w: World, d: Progress, name: string, manifest: string, stanza: string)
    requires name != "pipeline" && SameAt(w, d.world, PipelineFile("tsconfig.json"))
    requires Run(Run(Run(d, ServicesMiddle(name, manifest)), CreateFiles(CreateSuffixes, name)), Announce(name, stanza)).failure.None?
    ensures Copied(w, Run(Run(Run(d, ServicesMiddle(name, manifest)), CreateFiles(CreateSuffixes, name)), Announce(name, stanza)).world,
                   name, "tsconfig.json")
  {
    var package, copies := PackageStep(name, manifest), CopyFiles(ServicesCopies, name);
    var d1 := Run(d, [package]);
    RunAppend(d, [package], copies);
    StepFrame(d, package, PipelineFile("tsconfig.json"));
    CopyListsFit(name);
    AnnounceTouches(name, stanza, ServiceFile(name, "tsconfig.json"));
    CopySurvives(w, d1, name, ServicesCopies, Announce(name, stanza), 0);
  }

  /**
    A run that finishes created a service folder that was not there, so
    the service cannot be named after the pipeline or the gateway when
    their folders exist.
  */
  lemma FinishedNames(w: World, name: string, port: Port, rest: seq<Step>)
    requires PipelineDir in w.dirs && GatewayDir in w.dirs
    requires Run(Start(w), Shaped(name, port, rest)).failure.None?
    ensures !Exists(w, ServiceDir(name)) && name != "pipeline" && name != "gateway"
  {
    ShapedStages(Start(w), name, port, rest);
    FoldersRun(w, name);
  }

  /** What the services variant's steps after the commit leave alone. */
  lemma ServicesStepsKeep(name: string, manifest: string, stanza: string)
    requires name != "gateway"
    ensures KeepsEarlyOutputs(ServicesMiddle(name, manifest), name) && KeepsEarlyOutputs(Announce(name, stanza), name)
    ensures Untouched(ServicesMiddle(name, manifest), GatewayApp)
    ensures forall i :: 0 <= i < |ServicesMiddle(name, manifest)| ==> !ServicesMiddle(name, manifest)[i].Register?
    ensures forall i :: 0 <= i < |CreateSuffixes| ==> Untouched(Announce(name, stanza), SourceFile(name, name + CreateSuffixes[i]))
  {
    var middle := ServicesMiddle(name, manifest);
    assert middle == [PackageStep(name, manifest), Derive(PipelineFile("tsconfig.json"), ServiceFile(name, "tsconfig.json"), Verbatim)];
    assert SourceFile(name, "app.ts") != GatewayApp by { assert SourceFile(name, "app.ts")[0] != GatewayApp[0]; }
    SuffixesLong();
    forall i | 0 <= i < |CreateSuffixes| ensures Untouched(Announce(name, stanza), SourceFile(name, name + CreateSuffixes[i])) {
      var q := SourceFile(name, name + CreateSuffixes[i]);
      assert q != GatewayApp by { assert |q[2]| != |GatewayApp[2]|; }
      AnnounceTouches(name, stanza, q);
    }
  }

  /** The files a finished services run leaves, other than the gateway's. */
  lemma ServicesFinishedFiles(w: World, name: string, port: Port, manifest: string, stanza: string)
    requires PipelineDir in w.dirs && GatewayDir in w.dirs
    requires Run(Start(w), Shaped(name, port, ServicesRest(name, port, manifest, stanza))).failure.None?
    ensures var r := Run(Start(w), Shaped(name, port, ServicesRest(name, port, manifest, stanza))).world;
            && EarlyFiles(w, r, name, port)
            && ServiceFile(name, "package.json") in r.files && r.files[ServiceFile(name, "package.json")] == manifest
            && Copied(w, r, name, "tsconfig.json")
            && BoilerplateWritten(r, name)
  {
    var middle, tail := ServicesMiddle(name, manifest), Announce(name, stanza);
    var m := Run(Run(Run(Start(w), Folders(name)), [WriteApp(name, port)]), [Commit(port)]);
    var d := Run(m, Derived(name, port));
    var x := Run(d, middle);
    FinishedNames(w, name, port, ServicesRest(name, port, manifest, stanza));
    ShapedStages(Start(w), name, port, ServicesRest(name, port, manifest, stanza));
    RestStages(m, name, port, middle, tail);
    ServicesStepsKeep(name, manifest, stanza);
    FinishedOutputs(w, name, port, middle, tail);
    PackageWritten(d, name, manifest);
    AnnounceTouches(name, stanza, ServiceFile(name, "package.json"));
    AfterMiddle(x, name, tail, ServiceFile(name, "package.json"));
    PipelineFileKeptToDerived(w, name, port, "tsconfig.json");
    TsconfigCopied(w, d, name, manifest, stanza);
    BoilerplateSurvives(x, name, tail);
  }

  /** The gateway's `app.ts` and the registry after a finished services run. */
  lemma ServicesFinishedAnnounce(w: World, name: string, port: Port, manifest: string, stanza: string)
    requires PipelineDir in w.dirs && GatewayDir in w.dirs
    requires Run(Start(w), Shaped(name, port, ServicesRest(name, port, manifest, stanza))).failure.None?
    ensures var r := Run(Start(w), Shaped(name, port, ServicesRest(name, port, manifest, stanza))).world;
            var before := if GatewayApp in w.files then w.files[GatewayApp] else "";
            && GatewayApp in r.files && r.files[GatewayApp] == before + stanza
            && w.registry.Some? && r.registry == Some(w.registry.value + [name])
  {
    var middle, tail := ServicesMiddle(name, manifest), Announce(name, stanza);
    var m := Run(Run(Run(Start(w), Folders(name)), [WriteApp(name, port)]), [Commit(port)]);
    var t := Run(Run(Run(m, Derived(name, port)), middle), CreateFiles(CreateSuffixes, name));
    FinishedNames(w, name, port, ServicesRest(name, port, manifest, stanza));
    ShapedStages(Start(w), name, port, ServicesRest(name, port, manifest, stanza));
    RestStages(m, name, port, middle, tail);
    ServicesStepsKeep(name, manifest, stanza);
    assert SourceFile(name, "app.ts") != GatewayApp by { assert SourceFile(name, "app.ts")[0] != GatewayApp[0]; }
    PrologueFrame(w, name, port, GatewayApp);
    GatewayKept(m, name, port, middle);
    PrologueKeepsRegistry(w, name, port);
    RestKeepsRegistry(m, name, port, middle);
    AnnounceRun(t, name, stanza);
  }

  /** The router file that `createFiles` wrote holds the router template. */
  lemma RouterWritten(r: World, name: string)
    requires BoilerplateWritten(r, name)
    ensures var router := SourceFile(name, RouterModule(name) + ".ts");
            && RouterTemplate(name).Ok? && router in r.files && r.files[router] == RouterTemplate(name).value
  {
    var sfx := CreateSuffixes[7];
    assert sfx == ".router.ts";
    assert GetBoilerplate(sfx, name) == RouterTemplate(name);
    assert RouterModule(name) + ".ts" == name + sfx;
  }

  /** The interface file that `createFiles` wrote holds the interface template. */
  lemma InterfaceWritten(r: World, name: string)
    requires BoilerplateWritten(r, name)
    ensures var iface := SourceFile(name, InterfaceModule(name) + ".ts");
            && InterfaceTemplate(name).Ok? && iface in r.files && r.files[iface] == InterfaceTemplate(name).value
  {
    var sfx := CreateSuffixes[3];
    assert sfx == ".interface.ts";
    assert GetBoilerplate(sfx, name) == InterfaceTemplate(name);
    assert InterfaceModule(name) + ".ts" == name + sfx;
  }

  /** The model file that `createFiles` wrote holds the model template. */
  lemma ModelWritten(r: World, name: string)
    requires BoilerplateWritten(r, name)
    ensures var model := SourceFile(name, name + ".model.ts");
            && ModelTemplate(name).Ok? && model in r.files && r.files[model] == ModelTemplate(name).value
  {
    var sfx := CreateSuffixes[2];
    assert sfx == ".model.ts";
    assert GetBoilerplate(sfx, name) == ModelTemplate(name);
  }

  /** `app.ts` imports and mounts the router that the router file declares and exports. */
  lemma RouterWired(r: World, name: string, port: Port)
    requires var app := SourceFile(name, "app.ts");
             AppTemplate(name, port).Ok? && app in r.files && r.files[app] == AppTemplate(name, port).value
    requires var router := SourceFile(name, RouterModule(name) + ".ts");
             RouterTemplate(name).Ok? && router in r.files && r.files[router] == RouterTemplate(name).value
    ensures PascalCase(name).Ok?
    ensures var p, app := PascalCase(name).value, SourceFile(name, "app.ts");
            var router := SourceFile(name, RouterModule(name) + ".ts");
            && Occurs(RouterImport(name, p), r.files[app]) && Occurs(RouterMount(name, p), r.files[app])
            && Occurs(RouterDeclaration(p), r.files[router]) && Occurs(RouterExport(p), r.files[router])
  {
    PascalCaseDefinedIff(name);
    RouterWiring(name, port);
  }

  /** The model imports the interface that the interface file declares. */
  lemma ModelWired(r: World, name: string)
    requires var iface := SourceFile(name, InterfaceModule(name) + ".ts");
             InterfaceTemplate(name).Ok? && iface in r.files && r.files[iface] == InterfaceTemplate(name).value
    requires var model := SourceFile(name, name + ".model.ts");
             ModelTemplate(name).Ok? && model in r.files && r.files[model] == ModelTemplate(name).value
    ensures PascalCase(name).Ok?
    ensures var p := PascalCase(name).value;
            var iface, model := SourceFile(name, InterfaceModule(name) + ".ts"), SourceFile(name, name + ".model.ts");
            && Occurs(InterfaceDeclaration(p), r.files[iface])
            && Occurs(InterfaceImport(name, p), r.files[model]) && Occurs(SchemaOf(p), r.files[model])
  {
    assert InterfaceTemplate(name).Ok?;
    PascalCaseDefinedIff(name);
    ModelWiring(name);
  }

  /**
    The service's modules fit together: `app.ts` imports its router from
    `./<name>.router` and mounts it, and the file that import resolves to
    declares and exports that router; the model imports its interface from
    `./<name>.interface`, whose file declares it, and types its schema
    with it.
  */
  ghost predicate Wired(r: World, name: string)
  {
    var app, router := SourceFile(name, "app.ts"), SourceFile(name, RouterModule(name) + ".ts");
    var iface, model := SourceFile(name, InterfaceModule(name) + ".ts"), SourceFile(name, name + ".model.ts");
    && PascalCase(name).Ok?
    && app in r.files && router in r.files && iface in r.files && model in r.files
    && var p := PascalCase(name).value;
       && Occurs(RouterImport(name, p), r.files[app]) && Occurs(RouterMount(name, p), r.files[app])
       && Occurs(RouterDeclaration(p), r.files[router]) && Occurs(RouterExport(p), r.files[router])
       && Occurs(InterfaceDeclaration(p), r.files[iface])
       && Occurs(InterfaceImport(name, p), r.files[model]) && Occurs(SchemaOf(p), r.files[model])
  }

  /** `app.ts` from the template together with the `createFiles` boilerplate gives a wired service. */
  lemma ServiceWired(r: World, name: string, port: Port)
    requires var app := SourceFile(name, "app.ts");
             AppTemplate(name, port).Ok? && app in r.files && r.files[app] == AppTemplate(name, port).value
    requires BoilerplateWritten(r, name)
    ensures Wired(r, name)
  {
    RouterWritten(r, name);
    InterfaceWritten(r, name);
    ModelWritten(r, name);
    RouterWired(r, name, port);
    ModelWired(r, name);
  }

  /**
    A services-variant attempt that succeeds: the shared files as planned,
    `package.json` holding the manifest built from the name as typed,
    `tsconfig.json` copied from the pipeline, each `createFiles` file with
    its boilerplate, the gateway stanza appended to the gateway's `app.ts`,
    and the service's name added at the end of the registry.
  */
  lemma ServicesCreated(w: World, input: string, gateway: (string, Port) -> string,
                        render: Manifest -> string, installs: bool)
    requires PipelineDir in w.dirs && GatewayDir in w.dirs
    requires ServicesApp(w, input, gateway, render, installs).outcome == Created
    ensures Admit(input).Ok? && CounterFile() in w.files
    ensures var r, name := ServicesApp(w, input, gateway, render, installs).world, Admit(input).value;
            var port := GetNewPort(w.files[CounterFile()]);
            var before := if GatewayApp in w.files then w.files[GatewayApp] else "";
            && EarlyFiles(w, r, name, port)
            && ServiceFile(name, "package.json") in r.files
            && r.files[ServiceFile(name, "package.json")] == render(PackageManifest(input))
            && Copied(w, r, name, "tsconfig.json")
            && BoilerplateWritten(r, name)
            && GatewayApp in r.files && r.files[GatewayApp] == before + gateway(name, port)
            && w.registry.Some? && r.registry == Some(w.registry.value + [name])
            && Wired(r, name)
  {
    var name := Admit(input).value;
    var port := GetNewPort(w.files[CounterFile()]);
    var manifest, stanza := render(PackageManifest(input)), gateway(name, port);
    var r := ServicesApp(w, input, gateway, render, installs).world;
    ServicesFinishedFiles(w, name, port, manifest, stanza);
    ServicesFinishedAnnounce(w, name, port, manifest, stanza);
    ServiceWired(r, name, port);
  }

  // ---------------------------------------------------------------------
  // Nothing else changes
  // ---------------------------------------------------------------------

  /**
    The files a plan may write, besides the gateway's `app.ts`: the
    service's `app.ts`, the counter, the service's `.env`, `Dockerfile`,
    `package.json` and `tsconfig.json`, and the eight `createFiles` files.
  */
  predicate Target(name: string, q: Path)
  {
    || q == SourceFile(name, "app.ts") || q == CounterFile()
    || q == ServiceFile(name, ".env") || q == ServiceFile(name, "Dockerfile")
    || q == ServiceFile(name, "package.json") || q == ServiceFile(name, "tsconfig.json")
    || (exists i :: 0 <= i < |CreateSuffixes| && q == SourceFile(name, name + CreateSuffixes[i]))
  }

  /** The variants' own steps before `createFiles` touch only `package.json` and `tsconfig.json`. */
  lemma MiddlesTouch(name: string, manifest: string, q: Path)
    requires q != ServiceFile(name, "package.json") && q != ServiceFile(name, "tsconfig.json")
    ensures Untouched(ServicesMiddle(name, manifest), q)
    ensures Untouched(CopyFiles(PipelineCopies, name), q)
  {
    assert ServicesMiddle(name, manifest)
        == [PackageStep(name, manifest), Derive(PipelineFile("tsconfig.json"), ServiceFile(name, "tsconfig.json"), Verbatim)];
  }

  /** A plan leaves alone every file outside its targets that the variant's own steps leave alone. */
  lemma PlanWritesOnly(w: World, name: string, port: Port, middle: seq<Step>, tail: seq<Step>, q: Path)
    requires !Target(name, q) && Untouched(middle, q) && Untouched(tail, q)
    ensures SameAt(w, Run(Start(w), Shaped(name, port, Rest(name, port, middle, tail))).world, q)
  {
    var m := Run(Run(Run(Start(w), Folders(name)), [WriteApp(name, port)]), [Commit(port)]);
    var d := Run(m, Derived(name, port));
    ShapedStages(Start(w), name, port, Rest(name, port, middle, tail));
    RestStages(m, name, port, middle, tail);
    PrologueFrame(w, name, port, q);
    DerivedFrame(m, name, port, q);
    LaterStagesFrame(d, name, middle, tail, q);
  }

  /** The steps after the derived files leave alone a file none of them touches. */
  lemma LaterStagesFrame(d: Progress, name: string, middle: seq<Step>, tail: seq<Step>, q: Path)
    requires !Target(name, q) && Untouched(middle, q) && Untouched(tail, q)
    ensures SameAt(d.world, Run(Run(Run(d, middle), CreateFiles(CreateSuffixes, name)), tail).world, q)
  {
    var x := Run(d, middle);
    var creates := CreateFiles(CreateSuffixes, name);
    RunFrame(d, middle, q);
    assert Untouched(creates, q);
    RunFrame(x, creates, q);
    RunFrame(Run(x, creates), tail, q);
  }

  /**
    The services variant writes nothing but its targets and the gateway's
    `app.ts`: every other file is as it was, whatever the outcome.
  */
  lemma ServicesWritesOnly(w: World, input: string, gateway: (string, Port) -> string,
                           render: Manifest -> string, installs: bool, q: Path)
    ensures var r := ServicesApp(w, input, gateway, render, installs).world;
            SameAt(w, r, q) || (Admit(input).Ok? && (Target(Admit(input).value, q) || q == GatewayApp))
  {
    if Admit(input).Ok? && CounterFile() in w.files {
      var name := Admit(input).value;
      var port := GetNewPort(w.files[CounterFile()]);
      var manifest, stanza := render(PackageManifest(input)), gateway(name, port);
      if !Target(name, q) && q != GatewayApp {
        MiddlesTouch(name, manifest, q);
        AnnounceTouches(name, stanza, q);
        PlanWritesOnly(w, name, port, ServicesMiddle(name, manifest), Announce(name, stanza), q);
      }
    }
  }

  /** The pipeline variant writes nothing but its targets: every other file is as it was, whatever the outcome. */
  lemma PipelineWritesOnly(w: World, input: string, snapshot: Option<string>, installs: bool, q: Path)
    ensures var r := PipelineApp(w, input, snapshot, installs).world;
            SameAt(w, r, q) || (Admit(input).Ok? && Target(Admit(input).value, q))
  {
    if Admit(input).Ok? {
      var name, port := Admit(input).value, SnapshotPort(snapshot);
      if !Target(name, q) {
        MiddlesTouch(name, "", q);
        PlanWritesOnly(w, name, port, CopyFiles(PipelineCopies, name), [], q);
      }
    }
  }

  /** A plan whose own steps register nothing leaves the registry alone. */
  lemma PlanKeepsRegistry(w: World, name: string, port: Port, middle: seq<Step>)
    requires forall i :: 0 <= i < |middle| ==> !middle[i].Register?
    ensures Run(Start(w), Shaped(name, port, Rest(name, port, middle, []))).world.registry == w.registry
  {
    var m := Run(Run(Run(Start(w), Folders(name)), [WriteApp(name, port)]), [Commit(port)]);
    var t := Run(Run(Run(m, Derived(name, port)), middle), CreateFiles(CreateSuffixes, name));
    ShapedStages(Start(w), name, port, Rest(name, port, middle, []));
    RestStages(m, name, port, middle, []);
    assert Run(t, []) == t;
    PrologueKeepsRegistry(w, name, port);
    RestKeepsRegistry(m, name, port, middle);
  }

  /** The pipeline variant never changes the registry. */
  lemma PipelineKeepsRegistry(w: World, input: string, snapshot: Option<string>, installs: bool)
    ensures PipelineApp(w, input, snapshot, installs).world.registry == w.registry
  {
    if Admit(input).Ok? {
      var middle := CopyFiles(PipelineCopies, Admit(input).value);
      assert forall i :: 0 <= i < |middle| ==> middle[i].Derive?;
      PlanKeepsRegistry(w, Admit(input).value, SnapshotPort(snapshot), middle);
    }
  }
}
