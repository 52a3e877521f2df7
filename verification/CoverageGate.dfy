/** Changed-line coverage: per-file sets, totals over the files, and the percentage gate (in exact arithmetic). */
module CoverageGate {
  import opened Text
  import opened Sequences
  import Sorting

  datatype Evidence = Evidence(executed: set<nat>, missing: set<nat>)

  datatype FileCoverage = FileCoverage(path: string, executable: set<nat>, covered: set<nat>, missed: set<nat>)

  datatype Policy = Policy(minimum: real, allowNone: bool)

  datatype Error = AbsentFromEvidence | Inconsistent

  datatype Result = Ok(files: seq<FileCoverage>) | Err(error: Error)

  type Changed = map<string, set<nat>>

  type Coverage = map<string, Evidence>

  function Judge(path: string, lines: set<nat>, e: Evidence): FileCoverage {
    var executable := lines * (e.executed + e.missing);
    FileCoverage(path, executable, executable * e.executed, executable * e.missing)
  }

  function EvaluatePaths(paths: seq<string>, changed: Changed, coverage: Coverage): Result
    requires forall p | p in paths :: p in changed
  {
    if paths == [] then Ok([])
    else if paths[0] !in coverage then Err(AbsentFromEvidence)
    else
      var file := Judge(paths[0], changed[paths[0]], coverage[paths[0]]);
      if file.covered + file.missed != file.executable then Err(Inconsistent)
      else Behind([file], EvaluatePaths(paths[1..], changed, coverage))
  }

  /** `order` is some order of the keys. */
  predicate Orders(order: seq<string>, changed: Changed) {
    Distinct(order) && Elements(order) == changed.Keys
  }

  function Elements(s: seq<string>): set<string> {
    set x | x in s
  }

  function SortedPaths(order: seq<string>): seq<string> {
    Sorting.Sort(order, Sorting.StringLeq)
  }

  lemma SortedPathsAreKeys(order: seq<string>, changed: Changed)
    requires Orders(order, changed)
    ensures forall p :: p in SortedPaths(order) <==> p in changed
  {
    Sorting.SortKeepsElements(order, Sorting.StringLeq);
    forall p ensures p in SortedPaths(order) <==> p in changed {
      assert p in SortedPaths(order) <==> p in multiset(SortedPaths(order));
      assert p in order <==> p in multiset(order);
      assert p in order <==> p in Elements(order);
    }
  }

  /** The evaluation of the remaining paths, behind the files found so far. */
  function Behind(files: seq<FileCoverage>, rest: Result): Result {
    if rest.Err? then rest else Ok(files + rest.files)
  }

  lemma BehindOne(files: seq<FileCoverage>, file: FileCoverage, rest: Result)
    ensures Behind(files, Behind([file], rest)) == Behind(files + [file], rest)
  {
    if rest.Ok? {
      assert files + ([file] + rest.files) == files + [file] + rest.files;
    }
  }

  method Evaluate(order: seq<string>, changed: Changed, coverage: Coverage) returns (r: Result)
    requires Orders(order, changed)
    ensures forall p | p in SortedPaths(order) :: p in changed
    ensures r == EvaluatePaths(SortedPaths(order), changed, coverage)
  {
    SortedPathsAreKeys(order, changed);
    var paths := SortedPaths(order);
    var files := [];
    for k := 0 to |paths|
      invariant EvaluatePaths(paths, changed, coverage) == Behind(files, EvaluatePaths(paths[k..], changed, coverage))
    {
      var path := paths[k];
      assert paths[k..][0] == path && paths[k..][1..] == paths[k + 1..];
      if path !in coverage {
        return Err(AbsentFromEvidence);
      }
      var file := Judge(path, changed[path], coverage[path]);
      if file.covered + file.missed != file.executable {
        return Err(Inconsistent);
      }
      BehindOne(files, file, EvaluatePaths(paths[k + 1..], changed, coverage));
      files := files + [file];
    }
    assert files + [] == files;
    return Ok(files);
  }

  // ---------------------------------------------------------------- totals and gate

  function Executable(files: seq<FileCoverage>): nat {
    if files == [] then 0 else |files[0].executable| + Executable(files[1..])
  }

  function Covered(files: seq<FileCoverage>): nat {
    if files == [] then 0 else |files[0].covered| + Covered(files[1..])
  }

  function Missed(files: seq<FileCoverage>): nat {
    if files == [] then 0 else |files[0].missed| + Missed(files[1..])
  }

  function Percent(files: seq<FileCoverage>): Option<real> {
    if Executable(files) == 0 then None
    else Some(Covered(files) as real / Executable(files) as real * 100.0)
  }

  predicate Passed(files: seq<FileCoverage>, policy: Policy) {
    match Percent(files)
    case None => policy.allowNone
    case Some(percent) => percent >= policy.minimum
  }

  /** What loading a policy guarantees. */
  predicate Loaded(policy: Policy) {
    85.0 <= policy.minimum <= 100.0
  }

  // ---------------------------------------------------------------- the evaluation

  /** The inconsistency error cannot happen: evaluation fails exactly when a changed file has no evidence. */
  lemma {:induction false} EvaluateDecides(paths: seq<string>, changed: Changed, coverage: Coverage)
    requires forall p | p in paths :: p in changed
    ensures EvaluatePaths(paths, changed, coverage) != Err(Inconsistent)
    ensures EvaluatePaths(paths, changed, coverage).Ok? <==> forall p | p in paths :: p in coverage
    ensures EvaluatePaths(paths, changed, coverage).Ok? ==>
              var files := EvaluatePaths(paths, changed, coverage).files;
              && |files| == |paths|
              && forall i | 0 <= i < |paths| ::
                   paths[i] in coverage && files[i] == Judge(paths[i], changed[paths[i]], coverage[paths[i]])
  {
    if paths != [] {
      assert paths == [paths[0]] + paths[1..];
      EvaluateDecides(paths[1..], changed, coverage);
      if paths[0] in coverage {
        var file := Judge(paths[0], changed[paths[0]], coverage[paths[0]]);
        assert file.covered + file.missed == file.executable;
      }
    }
  }

  /** Line by line: executable, covered and missed lines are changed lines with the evidence their set is named for. */
  ghost predicate SaysEvidence(f: FileCoverage, lines: set<nat>, e: Evidence) {
    && (forall n :: n in f.executable <==> n in lines && (n in e.executed || n in e.missing))
    && (forall n :: n in f.covered <==> n in lines && n in e.executed)
    && (forall n :: n in f.missed <==> n in lines && n in e.missing)
  }

  /** One file for each path in turn. */
  ghost predicate FilesFor(files: seq<FileCoverage>, paths: seq<string>, changed: Changed, coverage: Coverage) {
    && |files| == |paths|
    && forall i | 0 <= i < |files| ::
         && files[i].path == paths[i] && paths[i] in changed && paths[i] in coverage
         && SaysEvidence(files[i], changed[paths[i]], coverage[paths[i]])
  }

  lemma JudgeSaysEvidence(path: string, lines: set<nat>, e: Evidence)
    ensures SaysEvidence(Judge(path, lines, e), lines, e) && Judge(path, lines, e).path == path
  {
  }

  lemma EvaluatesEach(paths: seq<string>, changed: Changed, coverage: Coverage)
    requires forall p | p in paths :: p in changed
    requires EvaluatePaths(paths, changed, coverage).Ok?
    ensures FilesFor(EvaluatePaths(paths, changed, coverage).files, paths, changed, coverage)
  {
    var files := EvaluatePaths(paths, changed, coverage).files;
    EvaluateDecides(paths, changed, coverage);
    forall i | 0 <= i < |files|
      ensures files[i].path == paths[i] && paths[i] in changed && paths[i] in coverage
      ensures SaysEvidence(files[i], changed[paths[i]], coverage[paths[i]])
    {
      assert paths[i] in paths;
      JudgeSaysEvidence(paths[i], changed[paths[i]], coverage[paths[i]]);
    }
  }

  /**
   * The evaluated files are the changed ones, one for each in ascending order of their paths, and each says of
   * every line what the changes and the evidence say.
   */
  lemma FilesSayEvidence(order: seq<string>, changed: Changed, coverage: Coverage)
    requires Orders(order, changed) && forall p | p in SortedPaths(order) :: p in changed
    requires EvaluatePaths(SortedPaths(order), changed, coverage).Ok?
    ensures FilesFor(EvaluatePaths(SortedPaths(order), changed, coverage).files, SortedPaths(order), changed, coverage)
    ensures forall p :: p in changed <==> p in SortedPaths(order)
    ensures forall i, j | 0 <= i < j < |SortedPaths(order)| ::
              SortedPaths(order)[i] != SortedPaths(order)[j] &&
              Sorting.StringLeq(SortedPaths(order)[i], SortedPaths(order)[j])
  {
    EvaluatesEach(SortedPaths(order), changed, coverage);
    SortedPathsAreKeys(order, changed);
    SortedAscend(order);
  }

  lemma SortedAscend(order: seq<string>)
    requires Distinct(order)
    ensures |SortedPaths(order)| == |order|
    ensures forall i, j | 0 <= i < j < |order| ::
              SortedPaths(order)[i] != SortedPaths(order)[j] &&
              Sorting.StringLeq(SortedPaths(order)[i], SortedPaths(order)[j])
  {
    Sorting.StringOrder();
    Sorting.SortOrders(order, Sorting.StringLeq);
    Sorting.SortKeepsElements(order, Sorting.StringLeq);
    assert |multiset(SortedPaths(order))| == |multiset(order)|;
    DistinctForgetsOrder(order, SortedPaths(order));
  }

  /** The gate without division. */
  lemma PassedMeans(files: seq<FileCoverage>, policy: Policy)
    ensures Passed(files, policy) <==>
              if Executable(files) == 0 then policy.allowNone
              else 100.0 * Covered(files) as real >= policy.minimum * Executable(files) as real
  {
    if Executable(files) > 0 {
      ScaleRatio(Covered(files) as real, Executable(files) as real, policy.minimum);
    }
  }

  lemma ScaleRatio(c: real, e: real, m: real)
    requires e > 0.0
    ensures c / e * 100.0 >= m <==> 100.0 * c >= m * e
  {
    var q := c / e;
    var gap := q * 100.0 - m;
    assert q * e == c;
    assert gap * e == 100.0 * c - m * e;
    if gap >= 0.0 {
      assert gap * e >= 0.0;
    } else {
      NegativeFactor(gap, e);
    }
  }

  lemma NegativeFactor(x: real, y: real)
    requires x < 0.0 && y > 0.0
    ensures x * y < 0.0
  {
  }

  /** The dictionary's order does not matter. */
  lemma OrderIrrelevant(a: seq<string>, b: seq<string>, changed: Changed)
    requires Orders(a, changed) && Orders(b, changed)
    ensures SortedPaths(a) == SortedPaths(b)
  {
    DistinctByCount(a);
    DistinctByCount(b);
    forall p ensures multiset(a)[p] == multiset(b)[p] {
      assert p in a <==> p in Elements(a);
      assert p in b <==> p in Elements(b);
      assert p in a <==> p in b;
      assert p in a <==> p in multiset(a);
      assert p in b <==> p in multiset(b);
    }
    Sorting.StringOrder();
    Sorting.SortForgetsOrder(a, b, Sorting.StringLeq);
  }

  lemma UnionSize(a: set<nat>, b: set<nat>)
    ensures |a + b| == |a| + |b| - |a * b|
  {
  }

  /** No changed line of the file is reported both executed and missing. */
  predicate Exclusive(f: FileCoverage) {
    f.covered * f.missed == {}
  }

  predicate Judged(f: FileCoverage) {
    f.covered + f.missed == f.executable
  }

  /**
   * Covered and missed lines add up to the changed executable lines exactly when no file reports a changed
   * line twice; otherwise they add up to more.
   */
  lemma {:induction false} CountsPartition(files: seq<FileCoverage>)
    requires forall i | 0 <= i < |files| :: Judged(files[i])
    ensures Covered(files) + Missed(files) >= Executable(files)
    ensures Covered(files) + Missed(files) == Executable(files) <==> forall i | 0 <= i < |files| :: Exclusive(files[i])
    ensures Covered(files) <= Executable(files)
  {
    if files != [] {
      var f, rest := files[0], files[1..];
      assert forall i | 0 <= i < |rest| :: rest[i] == files[i + 1];
      CountsPartition(rest);
      UnionSize(f.covered, f.missed);
      assert f.covered <= f.executable;
      SubsetSize(f.covered, f.executable);
      assert |f.covered * f.missed| == 0 <==> Exclusive(f);
      assert files == [f] + rest;
    }
  }

  lemma {:induction false} SubsetSize(a: set<nat>, b: set<nat>)
    requires a <= b
    ensures |a| <= |b|
  {
    assert b == a + (b - a);
    UnionSize(a, b - a);
  }

  /** The percentage is a percentage, with or without duplicate evidence. */
  lemma PercentInRange(files: seq<FileCoverage>)
    requires forall i | 0 <= i < |files| :: Judged(files[i])
    ensures Percent(files).Some? ==> 0.0 <= Percent(files).value <= 100.0
  {
    CountsPartition(files);
    if Executable(files) > 0 {
      RatioAtMostOne(Covered(files) as real, Executable(files) as real);
    }
  }

  lemma RatioAtMostOne(c: real, e: real)
    requires 0.0 <= c <= e && e > 0.0
    ensures 0.0 <= c / e <= 1.0
  {
  }

  // ---------------------------------------------------------------- monotonicity

  /** Nothing covered is lost and no uncovered line is new. */
  predicate NoWorse(before: FileCoverage, after: FileCoverage) {
    before.covered <= after.covered && after.executable - after.covered <= before.executable - before.covered
  }

  lemma {:induction false} TotalsNoWorse(before: seq<FileCoverage>, after: seq<FileCoverage>)
    requires |before| == |after|
    requires forall i | 0 <= i < |before| :: Judged(before[i]) && Judged(after[i]) && NoWorse(before[i], after[i])
    ensures Covered(before) <= Covered(after)
    ensures Executable(after) - Covered(after) <= Executable(before) - Covered(before)
  {
    if before != [] {
      var b, a := before[0], after[0];
      assert forall i | 0 <= i < |before[1..]| :: before[1..][i] == before[i + 1] && after[1..][i] == after[i + 1];
      TotalsNoWorse(before[1..], after[1..]);
      SubsetSize(b.covered, a.covered);
      SubsetSize(a.executable - a.covered, b.executable - b.covered);
      UncoveredSize(a);
      UncoveredSize(b);
    }
  }

  lemma UncoveredSize(f: FileCoverage)
    requires Judged(f)
    ensures |f.executable - f.covered| == |f.executable| - |f.covered|
  {
    assert f.executable == f.covered + (f.executable - f.covered);
    UnionSize(f.covered, f.executable - f.covered);
  }

  /** With c covered and u uncovered lines, more covered and fewer uncovered lines keep the share above the floor. */
  lemma ShareGrows(c: real, e: real, c': real, e': real, m: real)
    requires 0.0 <= c <= c' && e > 0.0 && e' > 0.0 && 0.0 <= e' - c' <= e - c
    requires c / e * 100.0 >= m
    ensures c' / e' * 100.0 >= m
  {
    var u, u' := e - c, e' - c';
    assert c * u' <= c' * u by {
      MulMono(c, c', u', u);
    }
    assert c * e' <= c' * e by {
      assert c * e' == c * c' + c * u';
      assert c' * e == c' * c + c' * u;
    }
    CrossMultiply(c, e, c', e');
  }

  lemma MulMono(a: real, b: real, x: real, y: real)
    requires 0.0 <= a <= b && 0.0 <= x <= y
    ensures a * x <= b * y
  {
    assert a * x <= b * x;
    assert b * x <= b * y;
  }

  lemma CrossMultiply(a: real, b: real, c: real, d: real)
    requires b > 0.0 && d > 0.0 && a * d <= c * b
    ensures a / b <= c / d
  {
    var gap, bd := c / d - a / b, b * d;
    assert a / b * bd == a * d by {
      assert a / b * (b * d) == a / b * b * d;
    }
    assert c / d * bd == c * b by {
      assert c / d * (b * d) == c / d * d * b;
    }
    assert gap * bd >= 0.0;
    SignOfFactor(gap, bd);
  }

  lemma SignOfFactor(x: real, y: real)
    requires y > 0.0 && x * y >= 0.0
    ensures x >= 0.0
  {
  }

  /** The gate on the totals alone. */
  lemma TotalsMonotone(c: nat, e: nat, c': nat, e': nat, policy: Policy)
    requires Loaded(policy) && c <= c' <= e' && c <= e && e' - c' <= e - c && e' > 0
    requires e > 0 ==> c as real / e as real * 100.0 >= policy.minimum
    ensures c' as real / e' as real * 100.0 >= policy.minimum
  {
    if e > 0 {
      ShareGrows(c as real, e as real, c' as real, e' as real, policy.minimum);
    } else {
      assert c' == e';
    }
  }

  /** With nothing covered, a pass means there was nothing to cover. */
  lemma NothingCovered(files: seq<FileCoverage>, policy: Policy)
    requires Loaded(policy) && Covered(files) == 0
    ensures Passed(files, policy) <==> Executable(files) == 0 && policy.allowNone
  {
    if Executable(files) > 0 {
      var e := Executable(files) as real;
      assert 0.0 / e == 0.0;
      assert Percent(files) == Some(0.0);
    }
  }

  /** Covering missed lines, dropping them, or adding covered ones never turns a pass into a failure. */
  lemma PassIsMonotone(before: seq<FileCoverage>, after: seq<FileCoverage>, policy: Policy)
    requires Loaded(policy) && |before| == |after|
    requires forall i | 0 <= i < |before| :: Judged(before[i]) && Judged(after[i]) && NoWorse(before[i], after[i])
    requires Passed(before, policy)
    ensures Passed(after, policy)
  {
    TotalsNoWorse(before, after);
    CountsPartition(before);
    CountsPartition(after);
    if Executable(after) > 0 {
      TotalsMonotone(Covered(before), Executable(before), Covered(after), Executable(after), policy);
    } else {
      NothingCovered(before, policy);
    }
  }

  /** In terms of the evidence: one missed line that a test now executes. */
  lemma CoveringALineHelps(paths: seq<string>, changed: Changed, coverage: Coverage, path: string, line: nat,
                           policy: Policy)
    requires Loaded(policy) && forall p | p in paths :: p in changed && p in coverage
    requires path in coverage && line in coverage[path].missing
    requires EvaluatePaths(paths, changed, coverage).Ok? &&
               Passed(EvaluatePaths(paths, changed, coverage).files, policy)
    ensures var e := coverage[path];
            var better := coverage[path := Evidence(e.executed + {line}, e.missing - {line})];
            var r := EvaluatePaths(paths, changed, better);
            r.Ok? && Passed(r.files, policy)
  {
    var e := coverage[path];
    var better := coverage[path := Evidence(e.executed + {line}, e.missing - {line})];
    EvaluateDecides(paths, changed, coverage);
    EvaluateDecides(paths, changed, better);
    var before, after := EvaluatePaths(paths, changed, coverage).files, EvaluatePaths(paths, changed, better).files;
    forall i | 0 <= i < |before| ensures Judged(before[i]) && Judged(after[i]) && NoWorse(before[i], after[i]) {
      assert paths[i] in paths;
      assert e.executed + {line} + (e.missing - {line}) == e.executed + e.missing;
    }
    PassIsMonotone(before, after, policy);
  }

  /** One more changed line, executed by a test. */
  lemma AddingACoveredLineHelps(paths: seq<string>, changed: Changed, coverage: Coverage, path: string, line: nat,
                                policy: Policy)
    requires Loaded(policy) && forall p | p in paths :: p in changed && p in coverage
    requires path in paths
    requires EvaluatePaths(paths, changed, coverage).Ok? &&
               Passed(EvaluatePaths(paths, changed, coverage).files, policy)
    ensures var e := coverage[path];
            var more := changed[path := changed[path] + {line}];
            var better := coverage[path := Evidence(e.executed + {line}, e.missing)];
            var r := EvaluatePaths(paths, more, better);
            r.Ok? && Passed(r.files, policy)
  {
    var e := coverage[path];
    var more := changed[path := changed[path] + {line}];
    var better := coverage[path := Evidence(e.executed + {line}, e.missing)];
    EvaluateDecides(paths, changed, coverage);
    EvaluateDecides(paths, more, better);
    var before, after := EvaluatePaths(paths, changed, coverage).files, EvaluatePaths(paths, more, better).files;
    forall i | 0 <= i < |before| ensures Judged(before[i]) && Judged(after[i]) && NoWorse(before[i], after[i]) {
      assert paths[i] in paths;
    }
    PassIsMonotone(before, after, policy);
  }

  lemma {:induction false} TotalsWithFile(a: seq<FileCoverage>, f: FileCoverage, b: seq<FileCoverage>)
    ensures Covered(a + [f] + b) == Covered(a + b) + |f.covered|
    ensures Executable(a + [f] + b) == Executable(a + b) + |f.executable|
  {
    if a == [] {
      assert a + [f] + b == [f] + b && a + b == b;
    } else {
      assert (a + [f] + b)[0] == a[0] && (a + [f] + b)[1..] == a[1..] + [f] + b;
      assert (a + b)[0] == a[0] && (a + b)[1..] == a[1..] + b;
      TotalsWithFile(a[1..], f, b);
    }
  }

  /** One more judged file, wherever it stands, all of whose executable lines are covered. */
  lemma CoveredFileHelps(a: seq<FileCoverage>, f: FileCoverage, b: seq<FileCoverage>, policy: Policy)
    requires Loaded(policy) && Passed(a + b, policy)
    requires forall i | 0 <= i < |a + b| :: Judged((a + b)[i])
    requires f.covered == f.executable
    ensures Passed(a + [f] + b, policy)
  {
    TotalsWithFile(a, f, b);
    CountsPartition(a + b);
    if Executable(a + [f] + b) > 0 {
      TotalsMonotone(Covered(a + b), Executable(a + b), Covered(a + [f] + b), Executable(a + [f] + b), policy);
    }
  }

  /** Where a new path goes among sorted ones. */
  lemma {:induction false} InsertSplits(x: string, s: seq<string>) returns (a: seq<string>, b: seq<string>)
    ensures s == a + b && Sorting.Insert(x, s, Sorting.StringLeq) == a + [x] + b
  {
    if s == [] || Sorting.StringLeq(x, s[0]) {
      a, b := [], s;
    } else {
      a, b := InsertSplits(x, s[1..]);
      a := [s[0]] + a;
    }
  }

  /** Evaluating paths in two parts. */
  lemma {:induction false} EvaluateConcat(a: seq<string>, b: seq<string>, changed: Changed, coverage: Coverage)
    requires forall p | p in a + b :: p in changed && p in coverage
    ensures forall p | p in a :: p in changed
    ensures forall p | p in b :: p in changed
    ensures var ra, rb := EvaluatePaths(a, changed, coverage), EvaluatePaths(b, changed, coverage);
            ra.Ok? && rb.Ok? && EvaluatePaths(a + b, changed, coverage) == Ok(ra.files + rb.files)
  {
    assert forall p | p in a :: p in a + b;
    assert forall p | p in b :: p in a + b;
    EvaluateDecides(a, changed, coverage);
    EvaluateDecides(b, changed, coverage);
    EvaluateDecides(a + b, changed, coverage);
    var ra, rb := EvaluatePaths(a, changed, coverage).files, EvaluatePaths(b, changed, coverage).files;
    var all := EvaluatePaths(a + b, changed, coverage).files;
    forall i | 0 <= i < |all| ensures all[i] == (ra + rb)[i] {
      if i < |a| {
        assert (a + b)[i] == a[i];
      } else {
        assert (a + b)[i] == b[i - |a|];
      }
    }
    assert all == ra + rb;
  }

  /** Other paths are evaluated as before. */
  lemma EvaluateElsewhere(paths: seq<string>, changed: Changed, coverage: Coverage, more: Changed, better: Coverage)
    requires forall p | p in paths :: p in changed && p in coverage && p in more && p in better
    requires forall p | p in paths :: more[p] == changed[p] && better[p] == coverage[p]
    ensures EvaluatePaths(paths, more, better) == EvaluatePaths(paths, changed, coverage)
  {
    EvaluateDecides(paths, changed, coverage);
    EvaluateDecides(paths, more, better);
    var before, after := EvaluatePaths(paths, changed, coverage).files, EvaluatePaths(paths, more, better).files;
    forall i | 0 <= i < |paths| ensures before[i] == after[i] {
      assert paths[i] in paths;
    }
    assert before == after;
  }

  lemma OrdersMore(order: seq<string>, changed: Changed, path: string, lines: set<nat>)
    requires Orders(order, changed) && path !in changed
    ensures Orders([path] + order, changed[path := lines])
  {
    assert path !in Elements(order);
    var all := [path] + order;
    forall i, j | 0 <= i < j < |all| ensures all[i] != all[j] {
      if i == 0 {
        assert all[j] == order[j - 1] && order[j - 1] in Elements(order);
      } else {
        assert order[i - 1] != order[j - 1];
      }
    }
    assert Elements(all) == Elements(order) + {path};
  }

  /** The paths after one more file changed: the old ones with the new one somewhere between. */
  lemma PathsMore(order: seq<string>, changed: Changed, path: string, lines: set<nat>, newOrder: seq<string>)
    returns (a: seq<string>, b: seq<string>)
    requires Orders(order, changed) && path !in changed && Orders(newOrder, changed[path := lines])
    ensures SortedPaths(order) == a + b && SortedPaths(newOrder) == a + [path] + b
    ensures forall p | p in a + b :: p in changed && p != path
  {
    OrdersMore(order, changed, path, lines);
    OrderIrrelevant([path] + order, newOrder, changed[path := lines]);
    assert ([path] + order)[1..] == order;
    a, b := InsertSplits(path, SortedPaths(order));
    SortedPathsAreKeys(order, changed);
  }

  lemma JudgedFiles(paths: seq<string>, changed: Changed, coverage: Coverage)
    requires forall p | p in paths :: p in changed && p in coverage
    ensures EvaluatePaths(paths, changed, coverage).Ok?
    ensures var files := EvaluatePaths(paths, changed, coverage).files;
            forall i | 0 <= i < |files| :: Judged(files[i])
  {
    EvaluateDecides(paths, changed, coverage);
    var files := EvaluatePaths(paths, changed, coverage).files;
    forall i | 0 <= i < |files| ensures Judged(files[i]) {
      assert paths[i] in paths;
    }
  }

  /** The evaluation with the new path in its place. */
  lemma EvaluateMore(a: seq<string>, path: string, b: seq<string>, changed: Changed, coverage: Coverage,
                     lines: set<nat>, e: Evidence)
    requires forall p | p in a + b :: p in changed && p in coverage && p != path
    ensures forall p | p in a + [path] + b :: p in changed[path := lines]
    ensures forall p | p in a || p in b :: p in changed
    ensures EvaluatePaths(a, changed, coverage).Ok? && EvaluatePaths(b, changed, coverage).Ok?
    ensures EvaluatePaths(a + [path] + b, changed[path := lines], coverage[path := e]) ==
              Ok(EvaluatePaths(a, changed, coverage).files + [Judge(path, lines, e)]
                 + EvaluatePaths(b, changed, coverage).files)
  {
    var more, better := changed[path := lines], coverage[path := e];
    EvaluateConcat(a, b, changed, coverage);
    assert forall p | p in a :: p in a + b;
    assert forall p | p in b :: p in a + b;
    EvaluateElsewhere(a, changed, coverage, more, better);
    EvaluateElsewhere(b, changed, coverage, more, better);
    EvaluateDecides([path], more, better);
    EvaluateConcat(a, [path], more, better);
    EvaluateConcat(a + [path], b, more, better);
    assert EvaluatePaths([path], more, better).files == [Judge(path, lines, e)];
  }

  /** One more changed file, wherever it sorts, all of whose changed lines are executed. */
  lemma AddingACoveredFileHelps(order: seq<string>, changed: Changed, coverage: Coverage, path: string,
                                lines: set<nat>, e: Evidence, newOrder: seq<string>, policy: Policy)
    requires Loaded(policy) && Orders(order, changed) && path !in changed
    requires forall p | p in SortedPaths(order) :: p in changed
    requires EvaluatePaths(SortedPaths(order), changed, coverage).Ok?
    requires Passed(EvaluatePaths(SortedPaths(order), changed, coverage).files, policy)
    requires lines <= e.executed && Orders(newOrder, changed[path := lines])
    ensures forall p | p in SortedPaths(newOrder) :: p in changed[path := lines]
    ensures var r := EvaluatePaths(SortedPaths(newOrder), changed[path := lines], coverage[path := e]);
            r.Ok? && Passed(r.files, policy)
  {
    var a, b := PathsMore(order, changed, path, lines, newOrder);
    EvaluateDecides(SortedPaths(order), changed, coverage);
    EvaluateMore(a, path, b, changed, coverage, lines, e);
    EvaluateConcat(a, b, changed, coverage);
    JudgedFiles(SortedPaths(order), changed, coverage);
    CoveredFileHelps(EvaluatePaths(a, changed, coverage).files, Judge(path, lines, e),
                     EvaluatePaths(b, changed, coverage).files, policy);
  }

  /** A changed line both executed and missing is counted on both sides. */
  lemma DuplicateEvidenceCountsTwice(path: string, line: nat)
    ensures var files := [Judge(path, {line}, Evidence({line}, {line}))];
            Judged(files[0]) && Executable(files) == 1 && Covered(files) + Missed(files) == 2
  {
    var f := Judge(path, {line}, Evidence({line}, {line}));
    assert f.executable == {line} && f.covered == {line} && f.missed == {line};
    assert [f][1..] == [];
  }
}
