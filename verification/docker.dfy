/**
 * The argument vector accept hands to `docker`, and how `docker build`
 * reads such a vector back: which flags it sees, the build args in order,
 * and the build context.
 */
module Docker {
  import opened Naming
  import opened Params

  datatype Option<T> = None | Some(value: T)

  /** The artifact directory, relative to the docker build context. */
  const TmpDir := "tmp"

  /** The flag in front of every build arg. */
  const BuildArgFlag := "--build-arg"

  /** The first build arg: the artifact's path relative to the build context. */
  function PackageArg(packageName: string): string
  {
    "package=" + Join(TmpDir, packageName)
  }

  /** Each value behind its own build-arg flag, in order. */
  function BuildArgPairs(values: seq<string>): seq<string>
  {
    if values == [] then [] else [BuildArgFlag, values[0]] + BuildArgPairs(values[1..])
  }

  /**
   * The shape of the vector accept builds: the fixed options with the
   * platform, dockerfile, stage and package, then one flag/value pair per
   * extra build arg in order, then the build context ".".
   */
  ghost predicate IsBuildCommand(args: seq<string>, docker: DockerParams, packageName: string)
  {
    && |args| == 12 + 2 * |docker.buildArgs|
    && args[..3] == ["build", "--rm", "--force-rm"]
    && args[3..11] == ["--platform", Platform(docker.arch), "-f", docker.file,
                       "--target", docker.target, BuildArgFlag, PackageArg(packageName)]
    && (forall i :: 0 <= i < |docker.buildArgs| ==>
          args[11 + 2 * i] == BuildArgFlag && args[12 + 2 * i] == docker.buildArgs[i])
    && args[|args| - 1] == "."
  }

  // ---------------------------------------------------------------------------
  // How `docker build` reads a vector (the options accept uses)

  /** What a `docker build` invocation asks for. */
  datatype BuildView = BuildView(
    rm: bool,
    forceRm: bool,
    platform: Option<string>,
    dockerfile: Option<string>,
    target: Option<string>,
    buildArgs: seq<string>,
    context: string)

  const NoOptions := BuildView(false, false, None, None, None, [], "")

  function IsFlag(token: string): bool
  {
    |token| > 0 && token[0] == '-'
  }

  /** The request a vector makes, or None when it is not a well-formed `build` call. */
  function ReadBuild(args: seq<string>): Option<BuildView>
  {
    if |args| > 0 && args[0] == "build" then ReadOptions(args[1..], NoOptions) else None
  }

  /**
   * Options until the last token, which is the build context. Flags that take
   * a value consume the next token; later build args come after earlier ones.
   */
  function ReadOptions(args: seq<string>, view: BuildView): Option<BuildView>
    decreases |args|
  {
    if |args| == 0 then None
    else if |args| == 1 then (if IsFlag(args[0]) then None else Some(view.(context := args[0])))
    else if args[0] == "--rm" then ReadOptions(args[1..], view.(rm := true))
    else if args[0] == "--force-rm" then ReadOptions(args[1..], view.(forceRm := true))
    else if args[0] == "--platform" then ReadOptions(args[2..], view.(platform := Some(args[1])))
    else if args[0] == "-f" then ReadOptions(args[2..], view.(dockerfile := Some(args[1])))
    else if args[0] == "--target" then ReadOptions(args[2..], view.(target := Some(args[1])))
    else if args[0] == BuildArgFlag then ReadOptions(args[2..], view.(buildArgs := view.buildArgs + [args[1]]))
    else None
  }

  /** The request docker reads from the vector accept builds for these parameters. */
  function Requested(docker: DockerParams, packageName: string): BuildView
  {
    BuildView(true, true, Some(Platform(docker.arch)), Some(docker.file), Some(docker.target),
              [PackageArg(packageName)] + docker.buildArgs, ".")
  }

  // ---------------------------------------------------------------------------
  // The vector

  /**
   * The `cmdArgs` of accept: the fixed options, one build arg per extra
   * argument (appended in a loop), and the context ".". Docker reads back
   * exactly the platform, dockerfile, stage and build args it was given.
   */
  method BuildCommand(docker: DockerParams, packageName: string) returns (cmdArgs: seq<string>)
    ensures IsBuildCommand(cmdArgs, docker, packageName)
    ensures ReadBuild(cmdArgs) == Some(Requested(docker, packageName))
  {
    cmdArgs := [
      "build", "--rm", "--force-rm",
      "--platform", Platform(docker.arch),
      "-f", docker.file,
      "--target", docker.target,
      BuildArgFlag, PackageArg(packageName)];
    ghost var fixed := cmdArgs;
    var i := 0;
    while i < |docker.buildArgs|
      invariant 0 <= i <= |docker.buildArgs|
      invariant cmdArgs == fixed + BuildArgPairs(docker.buildArgs[..i])
    {
      cmdArgs := cmdArgs + [BuildArgFlag, docker.buildArgs[i]];
      BuildArgPairsSnoc(docker.buildArgs[..i], docker.buildArgs[i]);
      assert docker.buildArgs[..i + 1] == docker.buildArgs[..i] + [docker.buildArgs[i]];
      i := i + 1;
    }
    cmdArgs := cmdArgs + ["."];
    assert docker.buildArgs[..i] == docker.buildArgs;
    BuildCommandShape(docker, packageName);
    ReadBuildCommand(Platform(docker.arch), docker.file, docker.target,
                     PackageArg(packageName), docker.buildArgs);
  }

  /** The fixed options, the build-arg pairs and the context make a vector of accept's shape. */
  lemma BuildCommandShape(docker: DockerParams, packageName: string)
    ensures IsBuildCommand(["build", "--rm", "--force-rm", "--platform", Platform(docker.arch),
                            "-f", docker.file, "--target", docker.target, BuildArgFlag, PackageArg(packageName)]
                           + BuildArgPairs(docker.buildArgs) + ["."], docker, packageName)
  {
    var fixed := ["build", "--rm", "--force-rm", "--platform", Platform(docker.arch),
                  "-f", docker.file, "--target", docker.target, BuildArgFlag, PackageArg(packageName)];
    var pairs := BuildArgPairs(docker.buildArgs);
    var args := fixed + pairs + ["."];
    BuildArgPairsAt(docker.buildArgs);
    assert args[..3] == fixed[..3];
    assert args[3..11] == fixed[3..11];
    forall i | 0 <= i < |docker.buildArgs|
      ensures args[11 + 2 * i] == BuildArgFlag && args[12 + 2 * i] == docker.buildArgs[i]
    {
      assert args[11 + 2 * i] == pairs[2 * i];
      assert args[12 + 2 * i] == pairs[2 * i + 1];
    }
  }

  // ---------------------------------------------------------------------------
  // Lemmas

  lemma {:induction false} BuildArgPairsSnoc(values: seq<string>, v: string)
    ensures BuildArgPairs(values + [v]) == BuildArgPairs(values) + [BuildArgFlag, v]
  {
    if values != [] {
      assert (values + [v])[1..] == values[1..] + [v];
      BuildArgPairsSnoc(values[1..], v);
    }
  }

  /** Value `i` stands right after the `i`-th flag. */
  lemma {:induction false} BuildArgPairsAt(values: seq<string>)
    ensures |BuildArgPairs(values)| == 2 * |values|
    ensures forall i :: 0 <= i < |values| ==>
              BuildArgPairs(values)[2 * i] == BuildArgFlag && BuildArgPairs(values)[2 * i + 1] == values[i]
  {
    if values != [] {
      BuildArgPairsAt(values[1..]);
      var r := BuildArgPairs(values);
      forall i | 0 <= i < |values|
        ensures r[2 * i] == BuildArgFlag && r[2 * i + 1] == values[i]
      {
        if i > 0 {
          assert r[2 * i] == BuildArgPairs(values[1..])[2 * (i - 1)];
          assert r[2 * i + 1] == BuildArgPairs(values[1..])[2 * (i - 1) + 1];
        }
      }
    }
  }

  lemma ReadBuildArg(value: string, rest: seq<string>, view: BuildView)
    ensures ReadOptions([BuildArgFlag, value] + rest, view)
            == ReadOptions(rest, view.(buildArgs := view.buildArgs + [value]))
  {
    assert ([BuildArgFlag, value] + rest)[2..] == rest;
  }

  /** Docker reads the build-arg pairs as those values, appended in order. */
  lemma {:induction false} ReadBuildArgPairs(values: seq<string>, rest: seq<string>, view: BuildView)
    ensures ReadOptions(BuildArgPairs(values) + rest, view)
            == ReadOptions(rest, view.(buildArgs := view.buildArgs + values))
  {
    if values == [] {
      assert BuildArgPairs(values) + rest == rest;
      assert view.buildArgs + values == view.buildArgs;
      assert view.(buildArgs := view.buildArgs) == view;
    } else {
      var tail := BuildArgPairs(values[1..]) + rest;
      assert BuildArgPairs(values) + rest == [BuildArgFlag, values[0]] + tail;
      var next := view.(buildArgs := view.buildArgs + [values[0]]);
      assert next.(buildArgs := next.buildArgs + values[1..]) == view.(buildArgs := view.buildArgs + values) by {
        assert values == [values[0]] + values[1..];
      }
      calc {
        ReadOptions(BuildArgPairs(values) + rest, view);
        ReadOptions([BuildArgFlag, values[0]] + tail, view);
        { ReadBuildArg(values[0], tail, view); }
        ReadOptions(tail, next);
        { ReadBuildArgPairs(values[1..], rest, next); }
        ReadOptions(rest, view.(buildArgs := view.buildArgs + values));
      }
    }
  }

  lemma ReadRemoveFlags(rest: seq<string>, view: BuildView)
    ensures ReadOptions(["--rm", "--force-rm"] + rest, view)
            == ReadOptions(rest, view.(rm := true, forceRm := true))
  {
    var args := ["--rm", "--force-rm"] + rest;
    assert args[1..] == ["--force-rm"] + rest && args[1..][1..] == rest;
  }

  lemma ReadPlatform(platform: string, rest: seq<string>, view: BuildView)
    ensures ReadOptions(["--platform", platform] + rest, view)
            == ReadOptions(rest, view.(platform := Some(platform)))
  {
    assert (["--platform", platform] + rest)[2..] == rest;
  }

  lemma ReadDockerfile(file: string, rest: seq<string>, view: BuildView)
    ensures ReadOptions(["-f", file] + rest, view) == ReadOptions(rest, view.(dockerfile := Some(file)))
  {
    assert (["-f", file] + rest)[2..] == rest;
  }

  lemma ReadTarget(target: string, rest: seq<string>, view: BuildView)
    ensures ReadOptions(["--target", target] + rest, view) == ReadOptions(rest, view.(target := Some(target)))
  {
    assert (["--target", target] + rest)[2..] == rest;
  }

  /** A vector of accept's shape, regrouped option by option. */
  lemma VectorParts(platform: string, file: string, target: string, package: string, extras: seq<string>)
    ensures ["build", "--rm", "--force-rm", "--platform", platform, "-f", file,
             "--target", target, BuildArgFlag, package] + BuildArgPairs(extras) + ["."]
            == ["build"] + (["--rm", "--force-rm"] + (["--platform", platform] + (["-f", file] +
               (["--target", target] + (BuildArgPairs([package] + extras) + ["."])))))
  {
    assert ([package] + extras)[1..] == extras;
    assert BuildArgPairs([package] + extras) == [BuildArgFlag, package] + BuildArgPairs(extras);
  }

  /** Docker reads a vector of accept's shape as the request it spells out. */
  lemma ReadBuildCommand(platform: string, file: string, target: string, package: string,
                         extras: seq<string>)
    ensures ReadBuild(["build", "--rm", "--force-rm", "--platform", platform, "-f", file,
                       "--target", target, BuildArgFlag, package] + BuildArgPairs(extras) + ["."])
            == Some(BuildView(true, true, Some(platform), Some(file), Some(target), [package] + extras, "."))
  {
    var args := ["build", "--rm", "--force-rm", "--platform", platform, "-f", file,
                 "--target", target, BuildArgFlag, package] + BuildArgPairs(extras) + ["."];
    var t6 := BuildArgPairs([package] + extras) + ["."];
    var t5 := ["--target", target] + t6;
    var t4 := ["-f", file] + t5;
    var t3 := ["--platform", platform] + t4;
    var t1 := ["--rm", "--force-rm"] + t3;
    VectorParts(platform, file, target, package, extras);
    var v2 := NoOptions.(rm := true, forceRm := true);
    var v3 := v2.(platform := Some(platform));
    var v4 := v3.(dockerfile := Some(file));
    var v5 := v4.(target := Some(target));
    var v6 := v5.(buildArgs := v5.buildArgs + ([package] + extras));
    assert v6 == BuildView(true, true, Some(platform), Some(file), Some(target), [package] + extras, "");
    calc {
      ReadBuild(args);
      { assert args[1..] == t1; }
      ReadOptions(t1, NoOptions);
      { ReadRemoveFlags(t3, NoOptions); }
      ReadOptions(t3, v2);
      { ReadPlatform(platform, t4, v2); }
      ReadOptions(t4, v3);
      { ReadDockerfile(file, t5, v3); }
      ReadOptions(t5, v4);
      { ReadTarget(target, t6, v4); }
      ReadOptions(t6, v5);
      { ReadBuildArgPairs([package] + extras, ["."], v5); }
      ReadOptions(["."], v6);
      Some(v6.(context := "."));
    }
  }
}
