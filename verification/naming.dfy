/**
 * The strings the acceptance harness derives with fmt.Sprintf and
 * filepath.Join, and the facts that make them unambiguous: a string glued
 * from parts around a separator that the parts do not contain can be split
 * back into those parts.
 */
module Naming {

  /** filepath.Join of a clean directory and a clean relative name. */
  function Join(dir: string, name: string): string
  {
    dir + "/" + name
  }

  /** The `--platform` value of a docker build for an architecture, "linux/%s". */
  function Platform(arch: string): string
  {
    "linux/" + arch
  }

  /**
   * The name a subtest is registered under with t.Run, "%s/%s/%s": its first
   * segment is the format and its last the leaf, when those hold no slash.
   */
  function SubtestId(format: string, arch: string, leaf: string): (r: string)
    ensures '/' !in format ==> BeforeFirst('/', r) == format
    ensures '/' !in leaf ==> AfterLast('/', r) == leaf
  {
    var r := format + "/" + arch + "/" + leaf;
    assert '/' !in format ==> BeforeFirst('/', r) == format by {
      if '/' !in format {
        assert r == format + ['/'] + (arch + "/" + leaf);
        BeforeFirstOf('/', format, arch + "/" + leaf);
      }
    }
    assert '/' !in leaf ==> AfterLast('/', r) == leaf by {
      if '/' !in leaf {
        assert r == (format + "/" + arch) + ['/'] + leaf;
        AfterLastOf('/', format + "/" + arch, leaf);
      }
    }
    r
  }

  /** The artifact file name accept builds, `Name + "." + Format`. */
  function PackageName(name: string, format: string): string
  {
    name + "." + format
  }

  /** The part of `s` before its first `sep`; all of `s` when `sep` does not occur. */
  function BeforeFirst(sep: char, s: string): (r: string)
    ensures sep !in r
    ensures |r| <= |s| && r == s[..|r|]
  {
    if s == [] || s[0] == sep then [] else [s[0]] + BeforeFirst(sep, s[1..])
  }

  /** The part of `s` after its last `sep`; all of `s` when `sep` does not occur. */
  function AfterLast(sep: char, s: string): (r: string)
    ensures sep !in r
    ensures |r| <= |s| && r == s[|s| - |r|..]
  {
    if s == [] || s[|s| - 1] == sep then [] else AfterLast(sep, s[..|s| - 1]) + [s[|s| - 1]]
  }

  /** The last element of a slash-separated path. */
  function BaseName(path: string): string
  {
    AfterLast('/', path)
  }

  lemma {:induction false} BeforeFirstOf(sep: char, a: string, b: string)
    requires sep !in a
    ensures BeforeFirst(sep, a + [sep] + b) == a
  {
    if a != [] {
      assert (a + [sep] + b)[1..] == a[1..] + [sep] + b;
      BeforeFirstOf(sep, a[1..], b);
    }
  }

  lemma {:induction false} AfterLastOf(sep: char, a: string, b: string)
    requires sep !in b
    ensures AfterLast(sep, a + [sep] + b) == b
  {
    if b != [] {
      var s := a + [sep] + b;
      assert s[..|s| - 1] == a + [sep] + b[..|b| - 1];
      AfterLastOf(sep, a, b[..|b| - 1]);
    }
  }

  /** Gluing two parts around a separator the first part lacks is injective. */
  lemma SplitFirst(sep: char, a: string, b: string, a': string, b': string)
    requires sep !in a && sep !in a'
    ensures a + [sep] + b == a' + [sep] + b' <==> a == a' && b == b'
  {
    if a + [sep] + b == a' + [sep] + b' {
      BeforeFirstOf(sep, a, b);
      BeforeFirstOf(sep, a', b');
      assert b == (a + [sep] + b)[|a| + 1..];
      assert b' == (a' + [sep] + b')[|a'| + 1..];
    }
  }

  /** Gluing two parts around a separator the second part lacks is injective. */
  lemma SplitLast(sep: char, a: string, b: string, a': string, b': string)
    requires sep !in b && sep !in b'
    ensures a + [sep] + b == a' + [sep] + b' <==> a == a' && b == b'
  {
    if a + [sep] + b == a' + [sep] + b' {
      AfterLastOf(sep, a, b);
      AfterLastOf(sep, a', b');
      assert a == (a + [sep] + b)[..|a|];
      assert a' == (a' + [sep] + b')[..|a'|];
    }
  }

  /** A subtest name determines its three components when format and arch hold no slash. */
  lemma SubtestIdInjective(format: string, arch: string, leaf: string,
                           format': string, arch': string, leaf': string)
    requires '/' !in format && '/' !in arch && '/' !in format' && '/' !in arch'
    ensures SubtestId(format, arch, leaf) == SubtestId(format', arch', leaf')
            <==> format == format' && arch == arch' && leaf == leaf'
  {
    assert SubtestId(format, arch, leaf) == format + ['/'] + (arch + ['/'] + leaf);
    assert SubtestId(format', arch', leaf') == format' + ['/'] + (arch' + ['/'] + leaf');
    SplitFirst('/', format, arch + ['/'] + leaf, format', arch' + ['/'] + leaf');
    SplitFirst('/', arch, leaf, arch', leaf');
  }

  /** The artifact path under any directory ends in the artifact's own name. */
  lemma BaseNameOfJoin(dir: string, name: string)
    requires '/' !in name
    ensures BaseName(Join(dir, name)) == name
  {
    AfterLastOf('/', dir, name);
  }
}
