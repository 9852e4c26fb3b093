/**
 * The test matrix: which subtests TestCore and TestCompression register,
 * under which names, and with which parameters.
 *
 * TestCore ranges over the scenario list, then over the `formatArchs` map,
 * then over that format's architectures. Go leaves the order of a map range
 * unspecified and may pick a new one each time the range runs, and the range
 * runs once per scenario, so TestCore takes one order per scenario as
 * `orders`: each a duplicate-free listing of the map's keys. What it
 * registers is stated as a set (and a count), which does not depend on
 * `orders`.
 */
module Matrix {
  import opened Naming
  import opened Params

  /** The scenarios TestCore runs, in the order it runs them. */
  const TestNames: seq<string> :=
    ["min", "simple", "no-glob", "complex", "env-var-version",
     "overrides", "meta", "withchangelog", "symlink", "signed"]

  /** The architectures each package format is verified on, by format. */
  const FormatArchs: map<string, seq<string>> := map[
    "apk" := ["amd64", "arm64", "386", "ppc64le"],
    "deb" := ["amd64", "arm64", "ppc64le"],
    "rpm" := ["amd64", "arm64", "ppc64le"]]

  /** The formats of FormatArchs, listed in one fixed order. */
  const Formats: seq<string> := ["apk", "deb", "rpm"]

  /** The compression algorithms TestCompression runs, in order. */
  const CompressFormats: seq<string> := ["gzip", "xz", "lzma"]

  /**
   * One registered subtest: the three parts of its name and the parameters
   * its body passes to accept. The last part is the scenario for TestCore
   * and the compression algorithm for TestCompression.
   */
  datatype Subtest = Subtest(format: string, arch: string, leaf: string, parms: AcceptParms)

  /** The name the subtest is registered under. */
  function Id(s: Subtest): string
  {
    SubtestId(s.format, s.arch, s.leaf)
  }

  /** A Go map lookup: a missing format has no architectures. */
  function Archs(format: string): seq<string>
  {
    if format in FormatArchs then FormatArchs[format] else []
  }

  /** The subtest TestCore registers for one scenario, format and arch. */
  function CoreSubtest(name: string, format: string, arch: string): Subtest
  {
    Subtest(format, arch, name, CoreParms(name, format, arch))
  }

  /** The subtest TestCompression registers for one algorithm and arch. */
  function CompressionSubtest(alg: string, arch: string): Subtest
  {
    Subtest(CompressionFormat, arch, alg, CompressionParms(alg, arch))
  }

  ghost predicate Distinct<T>(s: seq<T>)
  {
    forall i, j :: 0 <= i < j < |s| ==> s[i] != s[j]
  }

  /** `order` is one possible order of a range over FormatArchs: each key exactly once. */
  ghost predicate RangeOrder(order: seq<string>)
  {
    Distinct(order) && forall f :: f in order <==> f in FormatArchs
  }

  /** Each run of the range over FormatArchs takes a possible order of its own. */
  ghost predicate RangeOrders(orders: seq<seq<string>>)
  {
    forall k :: 0 <= k < |orders| ==> RangeOrder(orders[k])
  }

  // ---------------------------------------------------------------------------
  // TestCore, as a specification

  /** The innermost loop: one subtest per arch, in the order of `archs`. */
  function ArchRow(name: string, format: string, archs: seq<string>): (r: seq<Subtest>)
    ensures |r| == |archs|
  {
    seq(|archs|, k requires 0 <= k < |archs| => CoreSubtest(name, format, archs[k]))
  }

  /** The middle loop for one scenario: the arch rows of the formats in `order`. */
  function FormatRows(name: string, order: seq<string>): seq<Subtest>
  {
    if order == [] then []
    else
      var f := order[|order| - 1];
      FormatRows(name, order[..|order| - 1]) + ArchRow(name, f, Archs(f))
  }

  /**
   * All three loops: the format rows of each scenario in `names`, the
   * scenario `names[k]` ranging over the formats in the order `orders[k]`.
   */
  function CoreRows(names: seq<string>, orders: seq<seq<string>>): seq<Subtest>
    requires |orders| == |names|
  {
    if names == [] then []
    else CoreRows(names[..|names| - 1], orders[..|orders| - 1])
         + FormatRows(names[|names| - 1], orders[|orders| - 1])
  }

  /** How many archs the formats in `order` have together. */
  function ArchCount(order: seq<string>): nat
  {
    if order == [] then 0 else ArchCount(order[..|order| - 1]) + |Archs(order[|order| - 1])|
  }

  /** `s` is the subtest of one of `names`, one of the formats and one of its archs. */
  ghost predicate InCoreRows(s: Subtest, names: seq<string>)
  {
    && s.leaf in names
    && s.format in FormatArchs
    && s.arch in Archs(s.format)
    && s == CoreSubtest(s.leaf, s.format, s.arch)
  }

  /** `s` is a subtest of TestCore: scenario, format and one of that format's archs. */
  ghost predicate InCoreMatrix(s: Subtest)
  {
    && s.leaf in TestNames
    && s.format in FormatArchs
    && s.arch in FormatArchs[s.format]
    && s == CoreSubtest(s.leaf, s.format, s.arch)
  }

  // ---------------------------------------------------------------------------
  // TestCompression, as a specification

  /** The inner loop for one arch: one subtest per algorithm, in order. */
  function AlgRow(arch: string, algs: seq<string>): (r: seq<Subtest>)
    ensures |r| == |algs|
  {
    seq(|algs|, c requires 0 <= c < |algs| => CompressionSubtest(algs[c], arch))
  }

  /** Both loops: the algorithm rows of each arch in `archs`. */
  function CompressionRows(archs: seq<string>): seq<Subtest>
  {
    if archs == [] then []
    else CompressionRows(archs[..|archs| - 1]) + AlgRow(archs[|archs| - 1], CompressFormats)
  }

  /** `s` is a subtest of TestCompression: an rpm arch and one of the algorithms. */
  ghost predicate InCompressionMatrix(s: Subtest)
  {
    && s.arch in Archs(CompressionFormat)
    && s.leaf in CompressFormats
    && s == CompressionSubtest(s.leaf, s.arch)
  }

  // ---------------------------------------------------------------------------
  // The loops themselves

  /**
   * TestCore: registers one subtest per scenario, format and arch of that
   * format. There are 100 of them whatever order each run of the map range
   * takes, and no two share a name.
   */
  method TestCore(orders: seq<seq<string>>) returns (subtests: seq<Subtest>)
    requires |orders| == |TestNames| && RangeOrders(orders)
    ensures subtests == CoreRows(TestNames, orders)
    ensures |subtests| == 100
    ensures forall s: Subtest :: s in subtests <==> InCoreMatrix(s)
    ensures forall i, j :: 0 <= i < j < |subtests| ==> Id(subtests[i]) != Id(subtests[j])
  {
    var testNames := TestNames;
    subtests := [];
    var i := 0;
    while i < |testNames|
      invariant 0 <= i <= |testNames|
      invariant subtests == CoreRows(testNames[..i], orders[..i])
    {
      assert RangeOrder(orders[i]);
      var rows := ScenarioSubtests(testNames[i], orders[i]);
      subtests := subtests + rows;
      CoreRowsSnoc(testNames, orders, i);
      i := i + 1;
    }
    assert testNames[..i] == testNames && orders[..i] == orders;
    CoreMatrixFacts(orders);
  }

  /**
   * The two inner loops of TestCore for one scenario: over the formats in
   * map-range order, then over each format's archs.
   */
  method ScenarioSubtests(name: string, order: seq<string>) returns (subtests: seq<Subtest>)
    requires forall f :: f in order ==> f in FormatArchs
    ensures subtests == FormatRows(name, order)
    ensures |subtests| == ArchCount(order)
  {
    subtests := [];
    var j := 0;
    while j < |order|
      invariant 0 <= j <= |order|
      invariant subtests == FormatRows(name, order[..j])
    {
      var format := order[j];
      var archs := FormatArchs[format];
      ghost var before := subtests;
      var k := 0;
      while k < |archs|
        invariant 0 <= k <= |archs|
        invariant subtests == before + ArchRow(name, format, archs[..k])
      {
        subtests := subtests + [CoreSubtest(name, format, archs[k])];
        ArchRowSnoc(name, format, archs, k);
        k := k + 1;
      }
      assert archs[..k] == archs == Archs(format);
      assert order[..j + 1][..j] == order[..j];
      j := j + 1;
    }
    assert order[..j] == order;
    FormatRowsLength(name, order);
  }

  /**
   * TestCompression: registers one subtest per rpm arch and compression
   * algorithm, nine in all, no two sharing a name.
   */
  method TestCompression() returns (subtests: seq<Subtest>)
    ensures subtests == CompressionRows(Archs(CompressionFormat))
    ensures |subtests| == 9
    ensures forall s: Subtest :: s in subtests <==> InCompressionMatrix(s)
    ensures forall i, j :: 0 <= i < j < |subtests| ==> Id(subtests[i]) != Id(subtests[j])
  {
    var format := CompressionFormat;
    var archs := Archs(format);
    subtests := [];
    var i := 0;
    while i < |archs|
      invariant 0 <= i <= |archs|
      invariant subtests == CompressionRows(archs[..i])
    {
      var arch := archs[i];
      var c := 0;
      while c < |CompressFormats|
        invariant 0 <= c <= |CompressFormats|
        invariant subtests == CompressionRows(archs[..i]) + AlgRow(arch, CompressFormats[..c])
      {
        subtests := subtests + [CompressionSubtest(CompressFormats[c], arch)];
        AlgRowSnoc(arch, CompressFormats, c);
        c := c + 1;
      }
      assert CompressFormats[..c] == CompressFormats;
      assert archs[..i + 1][..i] == archs[..i];
      i := i + 1;
    }
    assert archs[..i] == archs;
    CompressionMatrixFacts();
  }

  // ---------------------------------------------------------------------------
  // Lemmas

  /** The scenario table: no duplicates, no '/'. */
  lemma NamesTable()
    ensures Distinct(TestNames)
    ensures forall n :: n in TestNames ==> '/' !in n
  {
  }

  /** `Formats` lists the keys of FormatArchs, each once. */
  lemma FormatKeys()
    ensures Distinct(Formats)
    ensures forall f :: f in Formats <==> f in FormatArchs
  {
  }

  /** No format and none of its archs contains '/', and no arch contains '_'. */
  lemma NoSeparator(format: string, arch: string)
    requires arch in Archs(format)
    ensures '/' !in format && '/' !in arch && '_' !in arch
  {
  }

  /** No format lists an arch twice. */
  lemma ArchsDistinct()
    ensures forall f :: Distinct(Archs(f))
  {
  }

  /** The algorithm table: no duplicates, no '/'. */
  lemma CompressTable()
    ensures Distinct(CompressFormats)
    ensures forall g :: g in CompressFormats ==> '/' !in g
  {
  }

  lemma CoreRowsSnoc(names: seq<string>, orders: seq<seq<string>>, i: nat)
    requires |orders| == |names| && i < |names|
    ensures CoreRows(names[..i + 1], orders[..i + 1])
            == CoreRows(names[..i], orders[..i]) + FormatRows(names[i], orders[i])
  {
    assert names[..i + 1][..i] == names[..i];
    assert orders[..i + 1][..i] == orders[..i];
  }

  /** The orders of the first scenarios are possible orders too. */
  lemma RangeOrdersPrefix(orders: seq<seq<string>>, n: nat)
    requires n <= |orders| && RangeOrders(orders)
    ensures RangeOrders(orders[..n])
  {
    forall k | 0 <= k < n ensures RangeOrder(orders[..n][k]) {
      assert orders[..n][k] == orders[k];
    }
  }

  lemma ArchRowSnoc(name: string, format: string, archs: seq<string>, k: nat)
    requires k < |archs|
    ensures ArchRow(name, format, archs[..k + 1])
            == ArchRow(name, format, archs[..k]) + [CoreSubtest(name, format, archs[k])]
  {
  }

  lemma AlgRowSnoc(arch: string, algs: seq<string>, c: nat)
    requires c < |algs|
    ensures AlgRow(arch, algs[..c + 1]) == AlgRow(arch, algs[..c]) + [CompressionSubtest(algs[c], arch)]
  {
  }

  lemma DistinctConcat<T>(a: seq<T>, b: seq<T>)
    requires Distinct(a) && Distinct(b)
    requires forall x :: x in a ==> x !in b
    ensures Distinct(a + b)
  {
    forall i, j | 0 <= i < j < |a + b| ensures (a + b)[i] != (a + b)[j] {
      if j >= |a| && i < |a| {
        assert (a + b)[i] in a;
        assert (a + b)[j] in b;
      }
    }
  }

  lemma ArchRowMembers(name: string, format: string, archs: seq<string>)
    ensures forall s: Subtest :: s in ArchRow(name, format, archs)
                        <==> s.arch in archs && s == CoreSubtest(name, format, s.arch)
  {
    forall s: Subtest | s.arch in archs && s == CoreSubtest(name, format, s.arch)
      ensures s in ArchRow(name, format, archs)
    {
      var k :| 0 <= k < |archs| && archs[k] == s.arch;
      assert ArchRow(name, format, archs)[k] == s;
    }
  }

  lemma {:induction false} FormatRowsMembers(name: string, order: seq<string>)
    ensures forall s: Subtest :: s in FormatRows(name, order)
                        <==> && s.leaf == name && s.format in order && s.arch in Archs(s.format)
                             && s == CoreSubtest(name, s.format, s.arch)
  {
    if order != [] {
      var f := order[|order| - 1];
      FormatRowsMembers(name, order[..|order| - 1]);
      ArchRowMembers(name, f, Archs(f));
      assert order == order[..|order| - 1] + [f];
    }
  }

  lemma {:induction false} CoreRowsMembers(names: seq<string>, orders: seq<seq<string>>)
    requires |orders| == |names| && RangeOrders(orders)
    ensures forall s: Subtest :: s in CoreRows(names, orders) <==> InCoreRows(s, names)
  {
    if names != [] {
      var n, order := names[|names| - 1], orders[|orders| - 1];
      RangeOrdersPrefix(orders, |orders| - 1);
      CoreRowsMembers(names[..|names| - 1], orders[..|orders| - 1]);
      FormatRowsMembers(n, order);
      assert RangeOrder(order);
      assert names == names[..|names| - 1] + [n];
    }
  }

  /** Every scenario gets ten subtests, whatever order its range takes. */
  lemma {:induction false} CoreRowsLength(names: seq<string>, orders: seq<seq<string>>)
    requires |orders| == |names| && RangeOrders(orders)
    ensures |CoreRows(names, orders)| == 10 * |names|
  {
    if names != [] {
      RangeOrdersPrefix(orders, |orders| - 1);
      CoreRowsLength(names[..|names| - 1], orders[..|orders| - 1]);
      FormatRowsLength(names[|names| - 1], orders[|orders| - 1]);
      ArchCountOfRange(orders[|orders| - 1]);
    }
  }

  lemma {:induction false} FormatRowsLength(name: string, order: seq<string>)
    ensures |FormatRows(name, order)| == ArchCount(order)
  {
    if order != [] {
      FormatRowsLength(name, order[..|order| - 1]);
    }
  }

  lemma {:induction false} FormatRowsDistinct(name: string, order: seq<string>)
    requires Distinct(order)
    requires forall f :: f in order ==> Distinct(Archs(f))
    ensures Distinct(FormatRows(name, order))
  {
    if order != [] {
      var init, f := order[..|order| - 1], order[|order| - 1];
      FormatRowsDistinct(name, init);
      FormatRowsMembers(name, init);
      ArchRowMembers(name, f, Archs(f));
      assert f !in init by {
        forall k | 0 <= k < |init| ensures init[k] != f {
          assert init[k] == order[k];
        }
      }
      var row := ArchRow(name, f, Archs(f));
      assert Distinct(row) by {
        forall i, j | 0 <= i < j < |row| ensures row[i] != row[j] {
          assert row[i].arch == Archs(f)[i];
        }
      }
      DistinctConcat(FormatRows(name, init), row);
    }
  }

  lemma {:induction false} CoreRowsDistinct(names: seq<string>, orders: seq<seq<string>>)
    requires |orders| == |names| && RangeOrders(orders)
    requires Distinct(names)
    ensures Distinct(CoreRows(names, orders))
  {
    if names != [] {
      var init, n, order := names[..|names| - 1], names[|names| - 1], orders[|orders| - 1];
      RangeOrdersPrefix(orders, |orders| - 1);
      assert Distinct(init);
      CoreRowsDistinct(init, orders[..|orders| - 1]);
      CoreRowsMembers(init, orders[..|orders| - 1]);
      FormatRowsMembers(n, order);
      assert RangeOrder(order);
      ArchsDistinct();
      FormatRowsDistinct(n, order);
      assert n !in init by {
        forall k | 0 <= k < |init| ensures init[k] != n {
          assert init[k] == names[k];
        }
      }
      DistinctConcat(CoreRows(init, orders[..|orders| - 1]), FormatRows(n, order));
    }
  }

  lemma {:induction false} ArchCountConcat(a: seq<string>, b: seq<string>)
    ensures ArchCount(a + b) == ArchCount(a) + ArchCount(b)
  {
    if b != [] {
      assert (a + b)[..|a + b| - 1] == a + b[..|b| - 1];
      assert (a + b)[|a + b| - 1] == b[|b| - 1];
      ArchCountConcat(a, b[..|b| - 1]);
    } else {
      assert a + b == a;
    }
  }

  /** Taking one format out of a listing takes its archs out of the count. */
  lemma ArchCountRemove(t: seq<string>, k: nat)
    requires k < |t|
    ensures ArchCount(t) == ArchCount(t[..k] + t[k + 1..]) + |Archs(t[k])|
  {
    assert t == t[..k] + [t[k]] + t[k + 1..];
    ArchCountConcat(t[..k] + [t[k]], t[k + 1..]);
    ArchCountConcat(t[..k], [t[k]]);
    ArchCountConcat(t[..k], t[k + 1..]);
    assert ArchCount([t[k]]) == |Archs(t[k])| by {
      assert [t[k]][..0] == [];
    }
  }

  /** The arch count of a listing of formats depends only on which formats it lists. */
  lemma {:induction false} ArchCountPermutation(s: seq<string>, t: seq<string>)
    requires multiset(s) == multiset(t)
    ensures ArchCount(s) == ArchCount(t)
    decreases |s|
  {
    if s == [] {
      assert |t| == |multiset(t)| == 0;
    } else {
      var init, x := s[..|s| - 1], s[|s| - 1];
      assert x in multiset(t) by {
        assert s == init + [x];
      }
      var k :| 0 <= k < |t| && t[k] == x;
      var rest := t[..k] + t[k + 1..];
      assert multiset(init) + multiset{x} == multiset(rest) + multiset{x} by {
        assert s == init + [x];
        assert t == t[..k] + [x] + t[k + 1..];
      }
      MultisetCancel(multiset(init), multiset(rest), x);
      ArchCountPermutation(init, rest);
      ArchCountRemove(t, k);
    }
  }

  lemma MultisetCancel(a: multiset<string>, b: multiset<string>, x: string)
    requires a + multiset{x} == b + multiset{x}
    ensures a == b
  {
    forall y ensures a[y] == b[y] {
      assert (a + multiset{x})[y] == (b + multiset{x})[y];
    }
  }

  lemma {:induction false} DistinctMultiplicity(s: seq<string>)
    requires Distinct(s)
    ensures forall x :: multiset(s)[x] == if x in s then 1 else 0
  {
    if s != [] {
      var init, x := s[..|s| - 1], s[|s| - 1];
      assert s == init + [x];
      DistinctMultiplicity(init);
      assert x !in init by {
        forall k | 0 <= k < |init| ensures init[k] != x {
          assert init[k] == s[k];
        }
      }
    }
  }

  /** A range order lists the same formats as `Formats`, each once. */
  lemma SameKeys(order: seq<string>)
    requires RangeOrder(order)
    ensures multiset(order) == multiset(Formats)
  {
    FormatKeys();
    DistinctMultiplicity(order);
    DistinctMultiplicity(Formats);
    assert forall x :: multiset(order)[x] == multiset(Formats)[x];
  }

  /** Whatever order the map range takes, the formats have ten archs together. */
  lemma ArchCountOfRange(order: seq<string>)
    requires RangeOrder(order)
    ensures ArchCount(order) == 10
  {
    SameKeys(order);
    ArchCountPermutation(order, Formats);
    assert Formats[..2][..1] == Formats[..1] && Formats[..1][..0] == [];
    assert ArchCount(Formats[..1]) == 4;
    assert ArchCount(Formats[..2]) == 7;
  }

  /** Subtests of distinct scenarios, formats and archs have distinct names. */
  lemma CoreRowsIds(names: seq<string>, orders: seq<seq<string>>)
    requires |orders| == |names| && RangeOrders(orders)
    requires Distinct(names)
    ensures var r := CoreRows(names, orders);
            forall i, j :: 0 <= i < j < |r| ==> Id(r[i]) != Id(r[j])
  {
    var r := CoreRows(names, orders);
    CoreRowsMembers(names, orders);
    CoreRowsDistinct(names, orders);
    forall i, j | 0 <= i < j < |r| ensures Id(r[i]) != Id(r[j]) {
      assert r[i] in r && r[j] in r;
      NoSeparator(r[i].format, r[i].arch);
      NoSeparator(r[j].format, r[j].arch);
      SubtestIdInjective(r[i].format, r[i].arch, r[i].leaf, r[j].format, r[j].arch, r[j].leaf);
    }
  }

  /**
   * What TestCore registers, whatever order each scenario's range takes:
   * 100 subtests, the whole matrix, under pairwise distinct names.
   */
  lemma CoreMatrixFacts(orders: seq<seq<string>>)
    requires |orders| == |TestNames| && RangeOrders(orders)
    ensures |CoreRows(TestNames, orders)| == 100
    ensures forall s: Subtest :: s in CoreRows(TestNames, orders) <==> InCoreMatrix(s)
    ensures var r := CoreRows(TestNames, orders);
            forall i, j :: 0 <= i < j < |r| ==> Id(r[i]) != Id(r[j])
  {
    NamesTable();
    CoreRowsLength(TestNames, orders);
    CoreRowsMembers(TestNames, orders);
    CoreRowsIds(TestNames, orders);
  }

  lemma AlgRowMembers(arch: string, algs: seq<string>)
    ensures forall s: Subtest :: s in AlgRow(arch, algs)
                        <==> s.leaf in algs && s.arch == arch && s == CompressionSubtest(s.leaf, arch)
  {
    forall s: Subtest | s.leaf in algs && s.arch == arch && s == CompressionSubtest(s.leaf, arch)
      ensures s in AlgRow(arch, algs)
    {
      var c :| 0 <= c < |algs| && algs[c] == s.leaf;
      assert AlgRow(arch, algs)[c] == s;
    }
  }

  lemma {:induction false} CompressionRowsFacts(archs: seq<string>)
    requires Distinct(archs) && Distinct(CompressFormats)
    ensures |CompressionRows(archs)| == |archs| * |CompressFormats|
    ensures forall s: Subtest :: s in CompressionRows(archs)
                        <==> s.arch in archs && s.leaf in CompressFormats
                             && s == CompressionSubtest(s.leaf, s.arch)
    ensures Distinct(CompressionRows(archs))
  {
    if archs != [] {
      var init, a := archs[..|archs| - 1], archs[|archs| - 1];
      assert archs == init + [a];
      CompressionRowsFacts(init);
      AlgRowMembers(a, CompressFormats);
      var row := AlgRow(a, CompressFormats);
      assert Distinct(row) by {
        forall i, j | 0 <= i < j < |row| ensures row[i] != row[j] {
          assert row[i].leaf == CompressFormats[i];
        }
      }
      assert a !in init by {
        forall k | 0 <= k < |init| ensures init[k] != a {
          assert init[k] == archs[k];
        }
      }
      DistinctConcat(CompressionRows(init), row);
    }
  }

  /** What TestCompression registers: 9 subtests, the whole matrix, under pairwise distinct names. */
  lemma CompressionMatrixFacts()
    ensures |CompressionRows(Archs(CompressionFormat))| == 9
    ensures forall s: Subtest :: s in CompressionRows(Archs(CompressionFormat)) <==> InCompressionMatrix(s)
    ensures var r := CompressionRows(Archs(CompressionFormat));
            forall i, j :: 0 <= i < j < |r| ==> Id(r[i]) != Id(r[j])
  {
    ArchsDistinct();
    CompressTable();
    var archs := Archs(CompressionFormat);
    assert |archs| == 3;
    CompressionRowsFacts(archs);
    var r := CompressionRows(archs);
    forall i, j | 0 <= i < j < |r| ensures Id(r[i]) != Id(r[j]) {
      assert r[i] in r && r[j] in r;
      NoSeparator(r[i].format, r[i].arch);
      NoSeparator(r[j].format, r[j].arch);
      SubtestIdInjective(r[i].format, r[i].arch, r[i].leaf, r[j].format, r[j].arch, r[j].leaf);
    }
  }
}
