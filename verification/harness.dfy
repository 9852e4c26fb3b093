/**
 * One subtest body: the ppc64le skip rule, then accept, which resolves the
 * artifact path, sets the two environment overrides, has the packaging
 * library parse, select, validate and build the package, and runs the
 * docker verification.
 *
 * The packaging library, the file system and docker are outside the model.
 * What they answer is a parameter (`World`): the absolute path of the tmp
 * directory and the set of calls that return an error. Each call accept
 * makes is recorded as an `Effect`, in order; a call that returns an error
 * ends the subtest as failed at that call (require.NoError).
 */
module Harness {
  import opened Naming
  import opened Params
  import opened Docker
  import opened Matrix

  /** The fixture directory the config path is joined to (the Join drops the leading "./"). */
  const FixtureDir := "testdata/acceptance"

  /** The working directory docker runs in. */
  const ExecDir := "./testdata/acceptance"

  const SemverVar := "SEMVER"
  const Semver := "v1.0.0-0.1.b1+git.abcdefgh"
  const BuildArchVar := "BUILD_ARCH"

  /** The architecture NO_TEST_PPC64LE switches off, and the reason a skipped subtest gives. */
  const SkippableArch := "ppc64le"
  const SkipReason := "ppc64le arch not supported in pipeline"

  /** A call of accept whose error fails the subtest, in the order accept makes them. */
  datatype Step =
    | ResolveTmp      // filepath.Abs of the tmp directory
    | MakeTmp         // os.MkdirAll
    | ParseConfig     // nfpm.ParseFile
    | SelectFormat    // config.Get(format)
    | ValidateInfo    // nfpm.Validate
    | LookupPackager  // nfpm.Get(format)
    | CreateTarget    // os.Create
    | WritePackage    // pkg.Package
    | RunDocker       // cmd.Run

  function Rank(s: Step): nat
  {
    match s
    case ResolveTmp => 0
    case MakeTmp => 1
    case ParseConfig => 2
    case SelectFormat => 3
    case ValidateInfo => 4
    case LookupPackager => 5
    case CreateTarget => 6
    case WritePackage => 7
    case RunDocker => 8
  }

  /** What the outside world answers accept. */
  datatype World = World(absTmp: string, failing: set<Step>)

  /** A call accept makes, with the values it passes. */
  datatype Effect =
    | MkdirAll(path: string)
    | Setenv(key: string, value: string)
    | Parse(path: string)
    | Get(format: string)
    | Validate(format: string)
    | Packager(format: string)
    | Create(path: string)
    | Package(path: string)
    | Exec(dir: string, args: seq<string>)

  /** The one result each subtest reports. */
  datatype Outcome = Pass | Fail(at: Step) | Skip(reason: string)

  /** The skip rule of both tests: a ppc64le subtest when NO_TEST_PPC64LE is "true". */
  predicate Skipped(arch: string, toggle: string)
    ensures Skipped(arch, toggle) ==> arch == SkippableArch
    ensures arch == SkippableArch ==> (Skipped(arch, toggle) <==> toggle == "true")
  {
    arch == SkippableArch && toggle == "true"
  }

  /**
   * The call that fails first, in the order accept makes its calls; None when
   * none fails.
   */
  function FirstFailure(failing: set<Step>): (r: Option<Step>)
    ensures r.None? <==> failing == {}
    ensures r.Some? ==> r.value in failing && forall s :: s in failing ==> Rank(r.value) <= Rank(s)
  {
    if ResolveTmp in failing then Some(ResolveTmp)
    else if MakeTmp in failing then Some(MakeTmp)
    else if ParseConfig in failing then Some(ParseConfig)
    else if SelectFormat in failing then Some(SelectFormat)
    else if ValidateInfo in failing then Some(ValidateInfo)
    else if LookupPackager in failing then Some(LookupPackager)
    else if CreateTarget in failing then Some(CreateTarget)
    else if WritePackage in failing then Some(WritePackage)
    else if RunDocker in failing then Some(RunDocker)
    else NoStepFails(failing); None
  }

  lemma NoStepFails(failing: set<Step>)
    requires ResolveTmp !in failing && MakeTmp !in failing && ParseConfig !in failing
    requires SelectFormat !in failing && ValidateInfo !in failing && LookupPackager !in failing
    requires CreateTarget !in failing && WritePackage !in failing && RunDocker !in failing
    ensures failing == {}
  {
    forall s: Step ensures s !in failing {
      match s
      case ResolveTmp =>
      case MakeTmp =>
      case ParseConfig =>
      case SelectFormat =>
      case ValidateInfo =>
      case LookupPackager =>
      case CreateTarget =>
      case WritePackage =>
      case RunDocker =>
    }
  }

  ghost predicate Ran(trace: seq<Effect>)
  {
    exists e :: e in trace && e.Exec?
  }

  /** Some effect before position `j` set environment variable `key` to `value`. */
  ghost predicate SetBefore(trace: seq<Effect>, j: int, key: string, value: string)
  {
    exists i :: 0 <= i < j && i < |trace| && trace[i] == Setenv(key, value)
  }

  /** What every call accept makes for parameters `p` passes. */
  ghost predicate CallsAgree(p: AcceptParms, world: World, trace: seq<Effect>)
  {
    // docker runs with the vector for this artifact, arch and stage
    && (forall e :: e in trace && e.Exec? ==>
          && e.dir == ExecDir
          && IsBuildCommand(e.args, p.docker, Artifact(p))
          && ReadBuild(e.args) == Some(Requested(p.docker, Artifact(p))))
    // the overrides are in place before the config is parsed
    && (forall j :: 0 <= j < |trace| && trace[j].Parse? ==>
          && trace[j].path == Join(FixtureDir, p.conf)
          && SetBefore(trace, j, SemverVar, Semver)
          && SetBefore(trace, j, BuildArchVar, p.docker.arch))
    && (forall e :: e in trace && e.Setenv? && e.key == BuildArchVar ==> e.value == p.docker.arch)
    // the package is created and written under the tmp directory, before docker runs
    && (forall e :: e in trace && (e.Create? || e.Package?) ==> e.path == Join(world.absTmp, Artifact(p)))
    && (forall j :: 0 <= j < |trace| && trace[j].Exec? ==> exists i :: 0 <= i < j && trace[i].Package?)
  }

  /** Every call before docker, in order, then one docker run. */
  ghost predicate RanAfterSetup(p: AcceptParms, world: World, trace: seq<Effect>)
  {
    && |trace| > 0
    && trace[..|trace| - 1] == CallsThrough(p, world, WritePackage)
    && trace[|trace| - 1].Exec?
  }

  /** What accept does for parameters `p` when the world answers `world`. */
  ghost predicate AcceptSpec(p: AcceptParms, world: World, outcome: Outcome, trace: seq<Effect>)
  {
    // one outcome, decided by the first call that fails
    && outcome == (match FirstFailure(world.failing) case None => Pass case Some(s) => Fail(s))
    // exactly the calls up to and including the failing one, or all of them and docker
    && (match FirstFailure(world.failing)
        case Some(s) => if s == RunDocker then RanAfterSetup(p, world, trace) else trace == CallsThrough(p, world, s)
        case None => RanAfterSetup(p, world, trace))
    // docker runs exactly when every earlier call succeeded
    && (Ran(trace) <==> FirstFailure(world.failing) in {None, Some(RunDocker)})
    && CallsAgree(p, world, trace)
  }

  /** The call of accept that makes an effect; the two overrides belong to parsing. */
  function Issuer(e: Effect): Step
  {
    match e
    case MkdirAll(_) => MakeTmp
    case Setenv(_, _) => ParseConfig
    case Parse(_) => ParseConfig
    case Get(_) => SelectFormat
    case Validate(_) => ValidateInfo
    case Packager(_) => LookupPackager
    case Create(_) => CreateTarget
    case Package(_) => WritePackage
    case Exec(_, _) => RunDocker
  }

  /** The call made just before `s`. */
  function Prev(s: Step): (r: Step)
    requires s != ResolveTmp
    ensures Rank(r) + 1 == Rank(s)
  {
    match s
    case MakeTmp => ResolveTmp
    case ParseConfig => MakeTmp
    case SelectFormat => ParseConfig
    case ValidateInfo => SelectFormat
    case LookupPackager => ValidateInfo
    case CreateTarget => LookupPackager
    case WritePackage => CreateTarget
    case RunDocker => WritePackage
  }

  /** The effects of call `s` itself, in order: at least one, all issued by `s`. */
  function Own(p: AcceptParms, world: World, s: Step): (r: seq<Effect>)
    requires s != ResolveTmp && s != RunDocker
    ensures r != [] && forall i :: 0 <= i < |r| ==> Issuer(r[i]) == s
  {
    var target := Join(world.absTmp, Artifact(p));
    match s
    case MakeTmp => [MkdirAll(world.absTmp)]
    case ParseConfig => [Setenv(SemverVar, Semver), Setenv(BuildArchVar, p.docker.arch), Parse(Join(FixtureDir, p.conf))]
    case SelectFormat => [Get(p.format)]
    case ValidateInfo => [Validate(p.format)]
    case LookupPackager => [Packager(p.format)]
    case CreateTarget => [Create(target)]
    case WritePackage => [Package(target)]
  }

  /**
   * The calls accept has made when call `s` returns, in order: each call
   * extends the calls of the one before it by its own.
   */
  function CallsThrough(p: AcceptParms, world: World, s: Step): seq<Effect>
    requires s != RunDocker
    decreases Rank(s)
  {
    if s == ResolveTmp then [] else CallsThrough(p, world, Prev(s)) + Own(p, world, s)
  }

  /** The calls before `s` followed by the effects of `s` are the calls through `s`. */
  lemma CallsThroughNext(p: AcceptParms, world: World, s: Step, t: seq<Effect>, own: seq<Effect>)
    requires s != ResolveTmp && s != RunDocker
    requires t == CallsThrough(p, world, Prev(s)) && own == Own(p, world, s)
    ensures t + own == CallsThrough(p, world, s)
  {
  }

  /** accept: build the package for `p` and verify it in docker. */
  method Accept(p: AcceptParms, world: World) returns (outcome: Outcome, trace: seq<Effect>)
    ensures AcceptSpec(p, world, outcome, trace)
  {
    var configFile := Join(FixtureDir, p.conf);
    trace := [];
    assert trace == CallsThrough(p, world, ResolveTmp);
    if ResolveTmp in world.failing {
      StopsAt(p, world, ResolveTmp);
      return Fail(ResolveTmp), trace;
    }
    var tmp := world.absTmp;
    var packageName := PackageName(p.name, p.format);
    var target := Join(tmp, packageName);

    CallsThroughNext(p, world, MakeTmp, trace, [MkdirAll(tmp)]);
    trace := trace + [MkdirAll(tmp)];
    if MakeTmp in world.failing {
      StopsAt(p, world, MakeTmp);
      return Fail(MakeTmp), trace;
    }

    CallsThroughNext(p, world, ParseConfig, trace, [Setenv(SemverVar, Semver), Setenv(BuildArchVar, p.docker.arch), Parse(configFile)]);
    trace := trace + [Setenv(SemverVar, Semver), Setenv(BuildArchVar, p.docker.arch), Parse(configFile)];
    if ParseConfig in world.failing {
      StopsAt(p, world, ParseConfig);
      return Fail(ParseConfig), trace;
    }

    CallsThroughNext(p, world, SelectFormat, trace, [Get(p.format)]);
    trace := trace + [Get(p.format)];
    if SelectFormat in world.failing {
      StopsAt(p, world, SelectFormat);
      return Fail(SelectFormat), trace;
    }
    CallsThroughNext(p, world, ValidateInfo, trace, [Validate(p.format)]);
    trace := trace + [Validate(p.format)];
    if ValidateInfo in world.failing {
      StopsAt(p, world, ValidateInfo);
      return Fail(ValidateInfo), trace;
    }

    CallsThroughNext(p, world, LookupPackager, trace, [Packager(p.format)]);
    trace := trace + [Packager(p.format)];
    if LookupPackager in world.failing {
      StopsAt(p, world, LookupPackager);
      return Fail(LookupPackager), trace;
    }

    var cmdArgs := BuildCommand(p.docker, packageName);

    CallsThroughNext(p, world, CreateTarget, trace, [Create(target)]);
    trace := trace + [Create(target)];
    if CreateTarget in world.failing {
      StopsAt(p, world, CreateTarget);
      return Fail(CreateTarget), trace;
    }
    CallsThroughNext(p, world, WritePackage, trace, [Package(target)]);
    trace := trace + [Package(target)];
    if WritePackage in world.failing {
      StopsAt(p, world, WritePackage);
      return Fail(WritePackage), trace;
    }

    trace := trace + [Exec(ExecDir, cmdArgs)];
    DockerRunAgrees(p, world, cmdArgs);
    if RunDocker in world.failing {
      return Fail(RunDocker), trace;
    }
    outcome := Pass;
  }

  /** A subtest that stops at failing call `s` does what accept promises. */
  lemma StopsAt(p: AcceptParms, world: World, s: Step)
    requires s != RunDocker
    requires FirstFailure(world.failing) == Some(s)
    ensures AcceptSpec(p, world, Fail(s), CallsThrough(p, world, s))
  {
    CallsThroughAgree(p, world, s);
  }

  /** A call appended to a trace that agrees with `p` keeps it agreeing, provided the call itself does. */
  lemma AppendAgrees(p: AcceptParms, world: World, t: seq<Effect>, e: Effect)
    requires CallsAgree(p, world, t) && !Ran(t)
    requires !e.Exec?
    requires e.Parse? ==> (&& e.path == Join(FixtureDir, p.conf)
                           && SetBefore(t, |t|, SemverVar, Semver)
                           && SetBefore(t, |t|, BuildArchVar, p.docker.arch))
    requires e.Setenv? && e.key == BuildArchVar ==> e.value == p.docker.arch
    requires e.Create? || e.Package? ==> e.path == Join(world.absTmp, Artifact(p))
    ensures CallsAgree(p, world, t + [e]) && !Ran(t + [e])
  {
    var u := t + [e];
    forall j | 0 <= j < |u| && u[j].Parse?
      ensures SetBefore(u, j, SemverVar, Semver) && SetBefore(u, j, BuildArchVar, p.docker.arch)
    {
      var i :| 0 <= i < j && i < |t| && t[i] == Setenv(SemverVar, Semver);
      assert u[i] == t[i];
      var i' :| 0 <= i' < j && i' < |t| && t[i'] == Setenv(BuildArchVar, p.docker.arch);
      assert u[i'] == t[i'];
    }
  }

  /** Setting both overrides and then parsing keeps a trace agreeing with `p`. */
  lemma OverridesThenParse(p: AcceptParms, world: World, t0: seq<Effect>)
    requires CallsAgree(p, world, t0) && !Ran(t0)
    ensures var t := t0 + [Setenv(SemverVar, Semver), Setenv(BuildArchVar, p.docker.arch),
                           Parse(Join(FixtureDir, p.conf))];
            CallsAgree(p, world, t) && !Ran(t)
  {
    var t1 := t0 + [Setenv(SemverVar, Semver)];
    var t2 := t1 + [Setenv(BuildArchVar, p.docker.arch)];
    AppendAgrees(p, world, t0, Setenv(SemverVar, Semver));
    AppendAgrees(p, world, t1, Setenv(BuildArchVar, p.docker.arch));
    assert t2[|t2| - 2] == Setenv(SemverVar, Semver);
    assert t2[|t2| - 1] == Setenv(BuildArchVar, p.docker.arch);
    AppendAgrees(p, world, t2, Parse(Join(FixtureDir, p.conf)));
    assert t2 + [Parse(Join(FixtureDir, p.conf))]
           == t0 + [Setenv(SemverVar, Semver), Setenv(BuildArchVar, p.docker.arch), Parse(Join(FixtureDir, p.conf))];
  }

  /** The calls accept has made up to any call before docker agree with `p`, and none runs docker. */
  lemma {:induction false} CallsThroughAgree(p: AcceptParms, world: World, s: Step)
    requires s != RunDocker
    ensures CallsAgree(p, world, CallsThrough(p, world, s)) && !Ran(CallsThrough(p, world, s))
    decreases Rank(s)
  {
    var target := Join(world.absTmp, Artifact(p));
    match s
    case ResolveTmp =>
    case MakeTmp =>
      AppendAgrees(p, world, [], MkdirAll(world.absTmp));
    case ParseConfig =>
      CallsThroughAgree(p, world, MakeTmp);
      OverridesThenParse(p, world, CallsThrough(p, world, MakeTmp));
    case SelectFormat =>
      CallsThroughAgree(p, world, ParseConfig);
      AppendAgrees(p, world, CallsThrough(p, world, ParseConfig), Get(p.format));
    case ValidateInfo =>
      CallsThroughAgree(p, world, SelectFormat);
      AppendAgrees(p, world, CallsThrough(p, world, SelectFormat), Validate(p.format));
    case LookupPackager =>
      CallsThroughAgree(p, world, ValidateInfo);
      AppendAgrees(p, world, CallsThrough(p, world, ValidateInfo), Packager(p.format));
    case CreateTarget =>
      CallsThroughAgree(p, world, LookupPackager);
      AppendAgrees(p, world, CallsThrough(p, world, LookupPackager), Create(target));
    case WritePackage =>
      CallsThroughAgree(p, world, CreateTarget);
      AppendAgrees(p, world, CallsThrough(p, world, CreateTarget), Package(target));
  }

  /** Running docker after a written package, with the vector for `p`, keeps a trace agreeing with `p`. */
  lemma AppendExec(p: AcceptParms, world: World, t: seq<Effect>, args: seq<string>)
    requires CallsAgree(p, world, t)
    requires t != [] && t[|t| - 1].Package?
    requires IsBuildCommand(args, p.docker, Artifact(p))
    requires ReadBuild(args) == Some(Requested(p.docker, Artifact(p)))
    ensures CallsAgree(p, world, t + [Exec(ExecDir, args)]) && Ran(t + [Exec(ExecDir, args)])
  {
    var u := t + [Exec(ExecDir, args)];
    assert u[|t|] in u;
    forall j | 0 <= j < |u| && u[j].Exec? ensures exists i :: 0 <= i < j && u[i].Package? {
      if j < |t| {
        var i :| 0 <= i < j && t[i].Package?;
        assert u[i] == t[i];
      } else {
        assert u[|t| - 1] == t[|t| - 1];
      }
    }
    forall j | 0 <= j < |u| && u[j].Parse?
      ensures SetBefore(u, j, SemverVar, Semver) && SetBefore(u, j, BuildArchVar, p.docker.arch)
    {
      var i :| 0 <= i < j && i < |t| && t[i] == Setenv(SemverVar, Semver);
      assert u[i] == t[i];
      var i' :| 0 <= i' < j && i' < |t| && t[i'] == Setenv(BuildArchVar, p.docker.arch);
      assert u[i'] == t[i'];
    }
  }

  /** Call `s` extends the calls before it by at least one effect, all its own. */
  lemma CallsThroughExtends(p: AcceptParms, world: World, s: Step)
    requires s != ResolveTmp && s != RunDocker
    ensures var c := CallsThrough(p, world, s); var b := CallsThrough(p, world, Prev(s));
      && |b| < |c| && c[..|b|] == b
      && forall i :: |b| <= i < |c| ==> Issuer(c[i]) == s
  {
    var c := CallsThrough(p, world, s);
    var b := CallsThrough(p, world, Prev(s));
    var own := Own(p, world, s);
    assert c == b + own;
    forall i | |b| <= i < |c| ensures Issuer(c[i]) == s {
      assert c[i] == own[i - |b|];
    }
  }

  /**
   * The effects of `trace` come call by call in accept's order, skipping
   * none: the first from the first call, each next one from the same call
   * or the one after it.
   */
  ghost predicate InOrder(trace: seq<Effect>)
  {
    && (|trace| > 0 ==> Rank(Issuer(trace[0])) == 1)
    && forall i :: 0 <= i < |trace| - 1 ==>
         Rank(Issuer(trace[i])) <= Rank(Issuer(trace[i + 1])) <= Rank(Issuer(trace[i])) + 1
  }

  /** Effects of the call right after the last one keep the order. */
  lemma InOrderExtends(b: seq<Effect>, c: seq<Effect>, s: Step)
    requires InOrder(b) && |b| < |c| && c[..|b|] == b
    requires forall i :: |b| <= i < |c| ==> Issuer(c[i]) == s
    requires if b == [] then Rank(s) == 1 else Rank(Issuer(b[|b| - 1])) + 1 == Rank(s)
    ensures InOrder(c) && Issuer(c[|c| - 1]) == s
  {
    forall i | 0 <= i < |c| - 1
      ensures Rank(Issuer(c[i])) <= Rank(Issuer(c[i + 1])) <= Rank(Issuer(c[i])) + 1
    {
      if i < |b| - 1 {
        assert c[i] == b[i] && c[i + 1] == b[i + 1];
      } else if i == |b| - 1 {
        assert c[i] == b[i];
      }
    }
    if b == [] {
      assert Issuer(c[0]) == s;
    } else {
      assert c[0] == b[0];
    }
  }

  /** A prefix of an ordered trace is ordered. */
  lemma InOrderPrefix(trace: seq<Effect>, n: nat)
    requires InOrder(trace) && n <= |trace|
    ensures InOrder(trace[..n])
  {
    var b := trace[..n];
    forall i | 0 <= i < |b| - 1
      ensures Rank(Issuer(b[i])) <= Rank(Issuer(b[i + 1])) <= Rank(Issuer(b[i])) + 1
    {
      assert b[i] == trace[i] && b[i + 1] == trace[i + 1];
    }
    if n > 0 {
      assert b[0] == trace[0];
    }
  }

  /** In an ordered trace no effect comes from a call after the last effect's. */
  lemma {:induction false} InOrderBound(trace: seq<Effect>)
    requires InOrder(trace) && trace != []
    ensures forall i :: 0 <= i < |trace| ==> Rank(Issuer(trace[i])) <= Rank(Issuer(trace[|trace| - 1]))
    decreases |trace|
  {
    var n := |trace| - 1;
    if n > 0 {
      var b := trace[..n];
      InOrderPrefix(trace, n);
      InOrderBound(b);
      assert b[n - 1] == trace[n - 1];
      forall i | 0 <= i < |trace| ensures Rank(Issuer(trace[i])) <= Rank(Issuer(trace[n])) {
        if i < n {
          assert trace[i] == b[i];
        }
      }
    }
  }

  /** In an ordered trace every call from the first through the last effect's makes an effect. */
  lemma {:induction false} InOrderCovers(trace: seq<Effect>)
    requires InOrder(trace) && trace != []
    ensures forall t :: 1 <= Rank(t) <= Rank(Issuer(trace[|trace| - 1])) ==>
              exists i :: 0 <= i < |trace| && Issuer(trace[i]) == t
    decreases |trace|
  {
    var n := |trace| - 1;
    var last := Issuer(trace[n]);
    if n == 0 {
      forall t | 1 <= Rank(t) <= Rank(last) ensures exists i :: 0 <= i < |trace| && Issuer(trace[i]) == t {
        RankInjective(t, last);
      }
    } else {
      var b := trace[..n];
      InOrderPrefix(trace, n);
      InOrderCovers(b);
      var prev := Issuer(b[n - 1]);
      assert b[n - 1] == trace[n - 1];
      forall t | 1 <= Rank(t) <= Rank(last) ensures exists i :: 0 <= i < |trace| && Issuer(trace[i]) == t {
        if Rank(t) <= Rank(prev) {
          var i :| 0 <= i < |b| && Issuer(b[i]) == t;
          assert trace[i] == b[i];
        } else {
          RankInjective(t, last);
        }
      }
    }
  }

  /** Distinct calls have distinct ranks. */
  lemma RankInjective(s: Step, t: Step)
    requires Rank(s) == Rank(t)
    ensures s == t
  {
  }

  /**
   * The calls accept has made up to call `s` are in order, skipping none,
   * and the last one is `s`.
   */
  lemma {:induction false} CallsThroughInOrder(p: AcceptParms, world: World, s: Step)
    requires s != RunDocker
    ensures InOrder(CallsThrough(p, world, s))
    ensures s != ResolveTmp ==> var c := CallsThrough(p, world, s); c != [] && Issuer(c[|c| - 1]) == s
    decreases Rank(s)
  {
    if s == ResolveTmp {
      assert CallsThrough(p, world, s) == [];
    } else {
      var b := CallsThrough(p, world, Prev(s));
      CallsThroughInOrder(p, world, Prev(s));
      CallsThroughExtends(p, world, s);
      InOrderExtends(b, CallsThrough(p, world, s), s);
    }
  }

  /**
   * accept makes its calls in order, skipping none, and ends with the one
   * that fails, or with docker when nothing fails; with InOrderBound and
   * InOrderCovers, no call after that one is made and every call before it is.
   */
  lemma AcceptCallsInOrder(p: AcceptParms, world: World, outcome: Outcome, trace: seq<Effect>)
    requires AcceptSpec(p, world, outcome, trace)
    ensures InOrder(trace)
    ensures outcome.Fail? && outcome.at != ResolveTmp ==> trace != [] && Issuer(trace[|trace| - 1]) == outcome.at
    ensures outcome == Fail(ResolveTmp) ==> trace == []
    ensures outcome.Pass? ==> trace != [] && Issuer(trace[|trace| - 1]) == RunDocker
  {
    match FirstFailure(world.failing)
    case Some(s) =>
      if s != RunDocker {
        CallsThroughInOrder(p, world, s);
      } else {
        DockerLast(p, world, trace);
      }
    case None =>
      DockerLast(p, world, trace);
  }

  /**
   * An effect of the call right after `s`, following the calls through `s`,
   * keeps the order, and no earlier effect comes from a call after `s`.
   */
  lemma CallAfter(p: AcceptParms, world: World, s: Step, trace: seq<Effect>)
    requires s != ResolveTmp && s != RunDocker
    requires |trace| > 0 && trace[..|trace| - 1] == CallsThrough(p, world, s)
    requires Rank(Issuer(trace[|trace| - 1])) == Rank(s) + 1
    ensures InOrder(trace)
    ensures forall i :: 0 <= i < |trace| - 1 ==> Rank(Issuer(trace[i])) <= Rank(s)
  {
    CallsThroughInOrder(p, world, s);
    OrderedAfter(trace[..|trace| - 1], trace);
  }

  /** An effect of the call right after the last one extends an ordered trace. */
  lemma OrderedAfter(c: seq<Effect>, trace: seq<Effect>)
    requires InOrder(c) && c != [] && |trace| > 0 && trace[..|trace| - 1] == c
    requires Rank(Issuer(trace[|trace| - 1])) == Rank(Issuer(c[|c| - 1])) + 1
    ensures InOrder(trace)
    ensures forall i :: 0 <= i < |trace| - 1 ==> Rank(Issuer(trace[i])) <= Rank(Issuer(c[|c| - 1]))
  {
    InOrderExtends(c, trace, Issuer(trace[|trace| - 1]));
    InOrderBound(c);
    forall i | 0 <= i < |trace| - 1 ensures Rank(Issuer(trace[i])) <= Rank(Issuer(c[|c| - 1])) {
      assert trace[i] == c[i];
    }
  }

  /** A run through docker makes its calls in order, docker last and only there. */
  lemma DockerLast(p: AcceptParms, world: World, trace: seq<Effect>)
    requires RanAfterSetup(p, world, trace)
    ensures InOrder(trace) && Issuer(trace[|trace| - 1]) == RunDocker
    ensures forall i :: 0 <= i < |trace| - 1 ==> Issuer(trace[i]) != RunDocker
  {
    CallAfter(p, world, WritePackage, trace);
  }

  /** The whole call sequence, docker included, agrees with `p`. */
  lemma DockerRunAgrees(p: AcceptParms, world: World, args: seq<string>)
    requires IsBuildCommand(args, p.docker, Artifact(p))
    requires ReadBuild(args) == Some(Requested(p.docker, Artifact(p)))
    ensures CallsAgree(p, world, CallsThrough(p, world, WritePackage) + [Exec(ExecDir, args)])
    ensures Ran(CallsThrough(p, world, WritePackage) + [Exec(ExecDir, args)])
    ensures RanAfterSetup(p, world, CallsThrough(p, world, WritePackage) + [Exec(ExecDir, args)])
  {
    var t := CallsThrough(p, world, WritePackage);
    assert (t + [Exec(ExecDir, args)])[..|t|] == t;
    CallsThroughAgree(p, world, WritePackage);
    assert t[|t| - 1].Package?;
    AppendExec(p, world, t, args);
  }

  /**
   * A subtest body of TestCore or TestCompression: skipped, with no effect at
   * all, exactly under the skip rule; otherwise whatever accept does.
   */
  method RunSubtest(s: Subtest, toggle: string, world: World) returns (outcome: Outcome, trace: seq<Effect>)
    ensures outcome.Skip? <==> Skipped(s.arch, toggle)
    ensures outcome.Skip? ==> outcome.reason == SkipReason && trace == []
    ensures !outcome.Skip? ==> AcceptSpec(s.parms, world, outcome, trace)
  {
    if Skipped(s.arch, toggle) {
      return Skip(SkipReason), [];
    }
    outcome, trace := Accept(s.parms, world);
  }

  /**
   * The package docker is pointed at is the file accept wrote: in any trace
   * whose calls agree with `p` (every trace accept makes), the first build
   * arg of a docker run names the created file's own name under the
   * context's tmp directory.
   */
  lemma ShippedIsWritten(p: AcceptParms, world: World, trace: seq<Effect>, i: nat, j: nat)
    requires CallsAgree(p, world, trace)
    requires '/' !in Artifact(p)
    requires i < |trace| && trace[i].Create? && j < |trace| && trace[j].Exec?
    ensures ReadBuild(trace[j].args).Some?
    ensures ReadBuild(trace[j].args).value.buildArgs[0] == PackageArg(BaseName(trace[i].path))
  {
    assert trace[i] in trace && trace[j] in trace;
    BaseNameOfJoin(world.absTmp, Artifact(p));
  }

  /** Packaging and verification use one arch: docker's platform is linux/ plus BUILD_ARCH. */
  lemma PlatformIsBuildArch(p: AcceptParms, world: World, trace: seq<Effect>)
    requires CallsAgree(p, world, trace)
    ensures forall e, e' :: e in trace && e.Setenv? && e.key == BuildArchVar && e' in trace && e'.Exec? ==>
              ReadBuild(e'.args) == Some(Requested(p.docker, Artifact(p)))
              && Requested(p.docker, Artifact(p)).platform == Some(Platform(e.value))
  {
  }

  /**
   * The subtests of both tests skip on the arch they build for, and a
   * TestCore subtest verifies in its scenario's stage with no extra build
   * arg, a TestCompression subtest in the compression stage with its algorithm.
   */
  lemma SubtestParms(s: Subtest)
    requires InCoreMatrix(s) || InCompressionMatrix(s)
    ensures s.parms.docker.arch == s.arch && s.parms.format == s.format
    ensures InCoreMatrix(s) ==> s.parms.docker.target == s.leaf && s.parms.docker.buildArgs == []
    ensures InCompressionMatrix(s) ==>
              s.parms.docker.target == CompressionTarget && s.parms.docker.buildArgs == ["compression=" + s.leaf]
  {
  }

  /** The case min/deb/amd64 verifies min_amd64.deb on linux/amd64 in stage min. */
  lemma MinDebAmd64()
    ensures var p := CoreSubtest("min", "deb", "amd64").parms;
            Artifact(p) == "min_amd64.deb"
            && p.conf == "core.min.yaml"
            && Requested(p.docker, Artifact(p))
               == BuildView(true, true, Some("linux/amd64"), Some("deb.dockerfile"), Some("min"),
                            ["package=tmp/min_amd64.deb"], ".")
  {
    var p := CoreSubtest("min", "deb", "amd64").parms;
    MinDebAmd64Files();
    MinDebAmd64Docker();
    assert [PackageArg(Artifact(p))] + p.docker.buildArgs == ["package=tmp/min_amd64.deb"];
  }

  /** The file names of the case min/deb/amd64. */
  lemma MinDebAmd64Files()
    ensures Artifact(CoreParms("min", "deb", "amd64")) == "min_amd64.deb"
    ensures CoreParms("min", "deb", "amd64").conf == "core.min.yaml"
  {
    var p := CoreParms("min", "deb", "amd64");
    assert p.name == "min_amd64";
    assert Artifact(p) == PackageName("min_amd64", "deb");
  }

  /** The docker values of the case min/deb/amd64. */
  lemma MinDebAmd64Docker()
    ensures PackageArg("min_amd64.deb") == "package=tmp/min_amd64.deb"
    ensures Platform("amd64") == "linux/amd64"
    ensures Dockerfile("deb") == "deb.dockerfile"
  {
  }
}
