/**
 * The parameter records a subtest hands to `accept` (acceptParms with its
 * nested dockerParams), and how TestCore and TestCompression derive them from
 * the loop variables of the matrix.
 */
module Params {
  import opened Naming

  /** Which dockerfile, build stage and platform verify an artifact, and any extra build args. */
  datatype DockerParams = DockerParams(file: string, target: string, arch: string, buildArgs: seq<string>)

  /** Artifact base name, config fixture, package format and the docker verification. */
  datatype AcceptParms = AcceptParms(name: string, conf: string, format: string, docker: DockerParams)

  /** The one format TestCompression covers. */
  const CompressionFormat := "rpm"

  /** The build stage every TestCompression subtest verifies with. */
  const CompressionTarget := "compression"

  /** The dockerfile of a format, "%s.dockerfile". */
  function Dockerfile(format: string): string
  {
    format + ".dockerfile"
  }

  /** The artifact file name of a parameter record. */
  function Artifact(p: AcceptParms): string
  {
    PackageName(p.name, p.format)
  }

  /** What a TestCore subtest for scenario `name`, `format` and `arch` passes to accept. */
  function CoreParms(name: string, format: string, arch: string): AcceptParms
  {
    AcceptParms(
      name + "_" + arch,
      "core." + name + ".yaml",
      format,
      DockerParams(Dockerfile(format), name, arch, []))
  }

  /** What a TestCompression subtest for algorithm `alg` and `arch` passes to accept. */
  function CompressionParms(alg: string, arch: string): AcceptParms
  {
    AcceptParms(
      alg + "_compression_rpm",
      "rpm." + alg + ".compression.yaml",
      CompressionFormat,
      DockerParams(Dockerfile(CompressionFormat), CompressionTarget, arch, ["compression=" + alg]))
  }

  /**
   * Within one format, two TestCore subtests write the same artifact exactly
   * when they have the same scenario and arch (no arch contains '_').
   */
  lemma CoreArtifactInjective(format: string, name: string, arch: string, name': string, arch': string)
    requires '_' !in arch && '_' !in arch'
    ensures Artifact(CoreParms(name, format, arch)) == Artifact(CoreParms(name', format, arch'))
            <==> name == name' && arch == arch'
  {
    var n, n' := CoreParms(name, format, arch).name, CoreParms(name', format, arch').name;
    if Artifact(CoreParms(name, format, arch)) == Artifact(CoreParms(name', format, arch')) {
      assert n == (n + "." + format)[..|n|];
      assert n' == (n' + "." + format)[..|n'|];
    }
    SplitLast('_', name, arch, name', arch');
  }

  /**
   * A TestCompression artifact depends on the algorithm alone: the archs of
   * one algorithm share it, and different algorithms never do.
   */
  lemma CompressionArtifactByAlgorithm(alg: string, arch: string, alg': string, arch': string)
    ensures Artifact(CompressionParms(alg, arch)) == Artifact(CompressionParms(alg', arch'))
            <==> alg == alg'
  {
    var a, a' := Artifact(CompressionParms(alg, arch)), Artifact(CompressionParms(alg', arch'));
    if a == a' {
      assert alg == a[..|alg|];
      assert alg' == a'[..|alg'|];
    }
  }

  /**
   * The compression algorithm reaches docker as the value of the one extra
   * build arg, behind the "compression=" key.
   */
  lemma CompressionBuildArg(alg: string, arch: string)
    ensures var args := CompressionParms(alg, arch).docker.buildArgs;
            |args| == 1 && args[0][..12] == "compression=" && args[0][12..] == alg
  {
    var arg := "compression=" + alg;
    assert arg[12..] == alg;
  }
}
