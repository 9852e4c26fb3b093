# nfpm acceptance harness — a Dafny model

nfpm builds Linux packages (apk, deb, rpm) from a YAML config. Its
acceptance tests (`acceptance_test.go`) check every build by running it in
docker. Each package is built for a scenario, a format and an architecture,
and a dockerfile stage installs and inspects it on that architecture's
platform.

This project models the deterministic part of those tests:

- the test matrix. `formatArchs` gives each format its architectures. TestCore
  runs ten scenarios over every format and each of that format's
  architectures. TestCompression runs the three rpm architectures with three
  compression algorithms. Each subtest is registered under
  `format/arch/leaf`.
- the skip rule. A ppc64le subtest is skipped when `NO_TEST_PPC64LE` is
  `"true"`.
- the parameter records `acceptParms` and `dockerParams` that each subtest
  passes to `accept`.
- `accept` itself. It resolves the artifact path and sets `SEMVER` and
  `BUILD_ARCH`. It then has nfpm parse, select, validate and build the
  package. Last, it runs `docker build` with an argument vector built from the
  parameters.

The modules follow that structure:

- `Naming` (naming.dfy) holds the Sprintf and Join strings, and the lemmas
  showing they can be split back into their parts.
- `Params` (params.dfy) holds the two records and how each test fills them.
- `Matrix` (matrix.dfy) holds TestCore and TestCompression. They are methods
  with the source's nested loops, proved against functions that list the rows.
- `Docker` (docker.dfy) holds the `cmdArgs` loop. Its partner is a reader of
  `docker build` vectors, which recovers the platform, dockerfile, stage,
  build args and context from a vector.
- `Harness` (harness.dfy) holds `accept` and one subtest body.

`accept` is modelled as a method that returns its outcome and the trace of
the calls it makes. What the outside world answers is a parameter (`World`):

- the absolute tmp directory;
- the set of calls that return an error.

`require.NoError` ends the subtest at the first failing call.

Go does not fix the order of a map range, and TestCore ranges over
`formatArchs` once for each scenario, so each scenario may see the formats
in a different order. TestCore therefore takes one order per scenario as a
parameter, `orders`: for each scenario, a listing of the keys in which each
appears once. Every property about which subtests it registers, how many,
and under which names holds for every such choice of orders.

The calls accept makes are ranked in source order. A trace is in order
(`InOrder`) when its first effect comes from the first call and each next
effect comes from the same call or the one after it. An ordered trace skips
no call (`InOrderCovers`) and ends with the latest call it reaches
(`InOrderBound`).

## Model

| member | source | states |
|---|---|---|
| Naming.SubtestId | acceptance_test.go:46 | definition of the `%s/%s/%s` subtest name (also line 103): the part before the first '/' is the format and the part after the last '/' is the leaf, when those hold no '/' |
| Naming.PackageName | acceptance_test.go:190 | definition of `params.Name + "." + params.Format` |
| Naming.SubtestIdInjective | acceptance_test.go:46 | a `%s/%s/%s` subtest name determines its format, arch and leaf when format and arch hold no '/' (both directions) |
| Naming.BaseNameOfJoin | acceptance_test.go:191 | the target path joined from the tmp directory and the package name ends in exactly that package name |
| Params.CoreParms | acceptance_test.go:51-60 | definition of TestCore's `acceptParms` literal: name `%s_%s` of scenario and arch, conf `core.%s.yaml`, the format, and `%s.dockerfile` with the scenario as stage, the arch and no extra build args |
| Params.CompressionParms | acceptance_test.go:107-116 | definition of TestCompression's `acceptParms` literal: name `%s_compression_rpm`, conf `rpm.%s.compression.yaml`, format rpm, `rpm.dockerfile` with stage `compression`, the arch and the one build arg `compression=%s` |
| Params.CoreArtifactInjective | acceptance_test.go:51-60 | within one format, two TestCore artifacts `name_arch.format` coincide exactly when scenario and arch coincide (archs contain no '_') |
| Params.CompressionArtifactByAlgorithm | acceptance_test.go:107-116 | a TestCompression artifact `alg_compression_rpm.rpm` coincides with another exactly when the algorithms do; the arch plays no part |
| Params.CompressionBuildArg | acceptance_test.go:115 | a TestCompression subtest passes exactly one extra build arg, the key `compression=` followed by its algorithm |
| Matrix.NamesTable | acceptance_test.go:28-39 | the ten scenarios are pairwise distinct and contain no '/' |
| Matrix.FormatKeys | acceptance_test.go:21-25 | `formatArchs` has exactly the keys apk, deb and rpm |
| Matrix.NoSeparator | acceptance_test.go:21-25 | no format and none of its archs contains '/', and no arch contains '_' |
| Matrix.ArchsDistinct | acceptance_test.go:21-25 | no format lists an arch twice |
| Matrix.CompressTable | acceptance_test.go:98 | the three algorithms are pairwise distinct and contain no '/' |
| Matrix.TestCore | acceptance_test.go:40-46 | for every map-range order of every scenario's own range, the three loops register the rows in loop order: 100 subtests, exactly the scenario × format × arch-of-that-format matrix, under pairwise distinct names |
| Matrix.ScenarioSubtests | acceptance_test.go:42-46 | the two inner loops for one scenario register that scenario's subtest for each format in range order and each of that format's archs, as many as those formats have archs |
| Matrix.TestCompression | acceptance_test.go:96-103 | the two loops register one subtest per rpm arch and algorithm in loop order: 9 subtests, exactly that matrix, under pairwise distinct names |
| Matrix.ArchCountPermutation | acceptance_test.go:42 | the number of subtests a scenario gets depends only on which formats the range visits, not on their order |
| Matrix.ArchCountOfRange | acceptance_test.go:21-25 | any range over `formatArchs` visits 4 + 3 + 3 = 10 format/arch pairs |
| Matrix.CoreMatrixFacts | acceptance_test.go:40-60 | whatever order each scenario's range takes, the rows TestCore registers number 100, are exactly its matrix, and have pairwise distinct names |
| Matrix.CompressionMatrixFacts | acceptance_test.go:99-116 | the rows TestCompression registers number 9, are exactly its matrix, and have pairwise distinct names |
| Docker.BuildCommand | acceptance_test.go:208-218 | `cmdArgs` holds `build --rm --force-rm`, the platform, dockerfile, stage and package build arg, then one `--build-arg` pair per extra arg in order, then `.`; docker reads back exactly that platform, dockerfile, stage, package-then-extras build args and context |
| Docker.PackageArg | acceptance_test.go:213 | definition of the first build arg, `package=` followed by `tmp` joined with the package name |
| Docker.BuildArgPairsAt | acceptance_test.go:215-217 | the appended pairs are twice as many as the extra args, each value right after its own `--build-arg` flag |
| Docker.ReadBuildArgPairs | acceptance_test.go:215-217 | docker reads the appended pairs as the extra args, appended after those it has already read, in order |
| Docker.ReadBuildCommand | acceptance_test.go:208-218 | a vector of accept's shape is read as a `build` with `--rm`, `--force-rm`, its platform, dockerfile, stage, build args in order and context `.` |
| Harness.FirstFailure | acceptance_test.go:188-231 | the call that ends a subtest is a failing call and comes no later than any other failing call; no call ends it exactly when none fails |
| Harness.Accept | acceptance_test.go:186-232 | the outcome is the first failing call, or Pass when none fails. The calls made are exactly those up to and including the failing one, or all of them followed by docker when none of them fails; no call follows a failing one. Docker runs exactly when every call before it succeeded. The config path is the fixture directory joined with `Conf`. SEMVER and BUILD_ARCH (the docker arch) are set before parsing. The package is created and written at the tmp directory joined with `Name.Format`, before docker runs. Docker runs in the fixture directory with the vector for these parameters |
| Harness.CallsThrough | acceptance_test.go:186-223 | definition of the calls accept has made when a given call returns: those of the call before it, then its own effects (`os.MkdirAll`; the two `os.Setenv` and `nfpm.ParseFile`; `config.Get`; `nfpm.Validate`; `nfpm.Get`; `os.Create`; `pkg.Package`) |
| Harness.CallsThroughInOrder | acceptance_test.go:186-223 | the calls made up to any call come in source order, skip none, and end with that call's own effects |
| Harness.InOrderBound | acceptance_test.go:188-231 | in an ordered trace no effect comes from a call later than the last effect's |
| Harness.InOrderCovers | acceptance_test.go:188-231 | in an ordered trace every call from `os.MkdirAll` through the last effect's call makes an effect |
| Harness.DockerLast | acceptance_test.go:218-231 | once every call has succeeded, docker runs after all of them, last and only once |
| Harness.AcceptCallsInOrder | acceptance_test.go:188-231 | accept's trace is ordered and ends with the failing call, or with docker when nothing fails; resolving the tmp directory failing leaves it empty. With InOrderBound and InOrderCovers: no call after the failing one is made, and every call before it is |
| Harness.Skipped | acceptance_test.go:48 | definition of the skip test both tests use (line 104 in TestCompression): only a ppc64le subtest is ever skipped, and it is skipped exactly when NO_TEST_PPC64LE is "true" |
| Harness.RunSubtest | acceptance_test.go:46-61 | a subtest is skipped, with its reason and no call made, exactly when its arch is ppc64le and NO_TEST_PPC64LE is "true"; otherwise it is what accept does |
| Harness.ShippedIsWritten | acceptance_test.go:190-220 | the first build arg docker reads is `package=tmp/` followed by the base name of the file accept created |
| Harness.PlatformIsBuildArch | acceptance_test.go:197-210 | the platform docker verifies on is `linux/` followed by the BUILD_ARCH value the package was built under |
| Harness.SubtestParms | acceptance_test.go:51-60 | every subtest of both tests passes its own arch and format to accept; a TestCore subtest verifies in its scenario's stage with no extra build arg, a TestCompression subtest in stage `compression` with `compression=<alg>` |
| Harness.MinDebAmd64 | acceptance_test.go:51-60 | the case min/deb/amd64 builds `min_amd64.deb` from `core.min.yaml` and verifies it with deb.dockerfile, stage min, on linux/amd64, with build arg `package=tmp/min_amd64.deb` |

## Left out

- The order of Go's map range is not fixed by the model. Each scenario's range takes its order from the parameter `orders` of TestCore, and the properties hold for every choice of orders.
- Environment variables are not a process-wide state here. Reading `NO_TEST_PPC64LE` is the parameter `toggle`. Setting `SEMVER` and `BUILD_ARCH` is recorded as an effect, and the source ignores its error, so the model does too.
- `t.Parallel` is not modelled. Concurrently running TestCore subtests each set the global `BUILD_ARCH` before parsing, so one subtest's value can be overwritten by another's before its config is read. The model runs each subtest on its own.
- nfpm's ParseFile, Get, Validate, packager lookup and Package are code outside this model, as are `filepath.Abs`, `os.MkdirAll`, `os.Create` and running docker. Their results are the `World` parameter: the absolute tmp path and which calls return an error.
- What the package contains, and `info.Target` and `WithDefaults`, belong to the packaging library and are not part of this model.
- `filepath.Join` is modelled as `dir + "/" + name` for a clean directory and a clean relative name. That covers every call here: the fixture directory `./testdata/acceptance/` cleans to `testdata/acceptance`.
- The docker reader is a small model of how `docker build` reads the options accept uses. It is not docker's full command-line grammar.
- Logging is not modelled: `t.Log` of the target and the command, and the `testWriter` that forwards docker's output to the test log.
- The commented-out tests (TestConfigNoReplace, TestRPMRelease, TestDebRules, TestDebTriggers, TestDebBreaks) are not modelled, since they do not run.
- The `-run` flag of `go test` matches a subtest name level by level, splitting it at each `/`. That matching is not modelled: the name is kept as the one string `t.Run` receives, and no subtest is nested in another.
