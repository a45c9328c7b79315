/**
 The coverage cache: the last profile it parsed, indexed per file, and the
 modification time of `coverage.out` when it did. Each query first decides
 whether the profile on disk is newer than what it holds and, if so, parses
 it again; then it looks up the key of the queried file.

 The file system and the IDE project are inputs (`Project`): the base path,
 the lines of `go.mod` and the timestamp and lines of `coverage.out`, each
 absent when the Kotlin `CoverageCache` would find no such file. The percentage is a whole
 number of hundredths of a percent (33.33 % is 3333).
 */
module Goverage {
  import opened Wrappers
  import opened KotlinStrings
  import opened CoverageProfile
  import opened GoModule

  /** `coverage.out`: its modification time and its lines. */
  datatype CoverageFile = CoverageFile(timestamp: int, lines: seq<string>)

  /** What a query can observe of the project: base path, `go.mod` and `coverage.out`. */
  datatype Project = Project(basePath: Option<string>, goMod: Option<seq<string>>,
                             coverageOut: Option<CoverageFile>)

  /** What a query has once every early `return null` is behind it. */
  datatype Located = Located(basePath: string, moduleName: string, file: CoverageFile)

  /** The base path, module name and coverage file, when all three are there. */
  function Locate(project: Project): Option<Located> {
    match (project.basePath, ReadModuleName(project.goMod), project.coverageOut)
    case (Some(basePath), Some(moduleName), Some(file)) => Some(Located(basePath, moduleName, file))
    case _ => None
  }

  /** The key under which a queried path is looked up. */
  function KeyFor(located: Located, absPath: string): string {
    CoverageKey(located.moduleName, RelativePath(located.basePath, absPath))
  }

  /** A query re-parses exactly when it gets that far and the file is strictly newer. */
  predicate NeedsRefresh(project: Project, lastModified: int) {
    Locate(project).Some? && Locate(project).value.file.timestamp > lastModified
  }

  /**
   `covered * 100 / total` rounded half up to two decimals, in hundredths;
   null when `total` is not positive.
   */
  function Percent(t: Totals): (r: Option<int>)
    ensures r.Some? <==> t.total > 0
    ensures r.Some? ==> 2 * t.total * r.value - t.total <= 20000 * t.covered < 2 * t.total * r.value + t.total
  {
    if t.total > 0 then Some((20000 * t.covered + t.total) / (2 * t.total)) else None
  }

  /** The contract of `Percent` leaves no choice: it is the nearest hundredth, halves rounded up. */
  lemma PercentUnique(t: Totals, h: int)
    requires t.total > 0
    requires 2 * t.total * h - t.total <= 20000 * t.covered < 2 * t.total * h + t.total
    ensures Percent(t) == Some(h)
  {
    var p := Percent(t).value;
    if h > p {
      MulMonotone(2 * t.total, p + 1, h);
    } else if h < p {
      MulMonotone(2 * t.total, h + 1, p);
    }
  }

  lemma MulMonotone(a: int, x: int, y: int)
    requires a > 0 && x <= y
    ensures a * x <= a * y
  {
    assert a * y - a * x == a * (y - x);
  }

  /** A file whose statements are not negative scores from 0 to 100.00. */
  lemma PercentWithinBounds(t: Totals)
    requires 0 <= t.covered <= t.total && t.total > 0
    ensures 0 <= Percent(t).value <= 10000
  {
    var h := Percent(t).value;
    if h < 0 {
      MulMonotone(2 * t.total, h, -1);
    } else if h > 10000 {
      MulMonotone(2 * t.total, 10001, h);
    }
  }

  /** 1/3 is 33.33, 2/3 is 66.67, 5/5 is 100.00, and 1 in 20000 rounds up to 0.01. */
  lemma RoundingExamples()
    ensures Percent(Totals(1, 3)) == Some(3333)
    ensures Percent(Totals(2, 3)) == Some(6667)
    ensures Percent(Totals(5, 5)) == Some(10000)
    ensures Percent(Totals(1, 20000)) == Some(1)
    ensures Percent(Totals(0, 0)) == None
  {
  }

  /** The percentage of a key, or null when the key is missing or its total is not positive. */
  function FileCoverage(coverageMap: map<string, Totals>, key: string): Option<int> {
    if key in coverageMap then Percent(coverageMap[key]) else None
  }

  /** The entry list of a key, or null when the key is missing. */
  function FileEntries(detailedMap: map<string, seq<CoverageEntry>>, key: string): Option<seq<CoverageEntry>> {
    if key in detailedMap then Some(detailedMap[key]) else None
  }

  /** The cache's state: the profile last parsed, per file, and when. */
  class CoverageCache {
    var lastModified: int
    var coverageMap: map<string, Totals>
    var detailedMap: map<string, seq<CoverageEntry>>

    constructor ()
      ensures lastModified == 0 && coverageMap == map[] && detailedMap == map[]
      ensures Consistent()
    {
      lastModified := 0;
      coverageMap := map[];
      detailedMap := map[];
    }

    /** The totals and the entry lists describe the same profile. */
    ghost predicate Consistent()
      reads this
    {
      && coverageMap.Keys == detailedMap.Keys
      && forall file :: file in coverageMap ==> coverageMap[file] == Aggregate(detailedMap[file])
    }

    /** Both maps and the timestamp are those of `file`. */
    ghost predicate Holds(file: CoverageFile)
      reads this
    {
      && lastModified == file.timestamp
      && coverageMap == TotalsOf(Parse(file.lines))
      && detailedMap == EntriesOf(Parse(file.lines))
    }

    ghost predicate Unchanged(lastModified0: int, coverageMap0: map<string, Totals>,
                              detailedMap0: map<string, seq<CoverageEntry>>)
      reads this
    {
      lastModified == lastModified0 && coverageMap == coverageMap0 && detailedMap == detailedMap0
    }

    /**
     `parseCoverageFile`: one pass over the lines, skipping the ones
     `ParseLine` rejects; returns the totals and replaces `detailedMap`.
     */
    method ParseCoverageFile(lines: seq<string>) returns (totals: map<string, Totals>)
      modifies this`detailedMap
      ensures totals == TotalsOf(Parse(lines))
      ensures detailedMap == EntriesOf(Parse(lines))
    {
      ghost var parsed := Parse(lines);
      totals := map[];
      var entries: map<string, seq<CoverageEntry>> := map[];
      for i := 0 to |lines|
        invariant totals == TotalsOf(parsed[..i])
        invariant entries == EntriesOf(parsed[..i])
      {
        FoldStep(parsed, i);
        var block := ParseLine(lines[i]);
        if block.None? {
          continue;
        }
        totals := AddTotals(totals, block.value);
        entries := AddEntry(entries, block.value);
      }
      assert parsed[..|lines|] == parsed;
      detailedMap := entries;
    }

    /**
     `getCoverageForFile`: null unless the base path, a module name and
     `coverage.out` are all there; re-parses a strictly newer file; then the
     percentage stored for the key of `absPath`.
     */
    method GetCoverageForFile(project: Project, absPath: string) returns (r: Option<int>)
      modifies this
      ensures NeedsRefresh(project, old(lastModified)) ==> Holds(project.coverageOut.value) && Consistent()
      ensures !NeedsRefresh(project, old(lastModified)) ==>
                Unchanged(old(lastModified), old(coverageMap), old(detailedMap))
      ensures old(Consistent()) ==> Consistent()
      ensures r == match Locate(project)
                   case None => None
                   case Some(located) => FileCoverage(coverageMap, KeyFor(located, absPath))
    {
      if project.basePath.None? {
        return None;
      }
      var basePath := project.basePath.value;
      var relPath := RelativePath(basePath, absPath);
      if project.goMod.None? {
        return None;
      }
      var moduleName := ReadModuleName(project.goMod);
      if moduleName.None? {
        assert Locate(project).None?;
        return None;
      }
      if project.coverageOut.None? {
        return None;
      }
      var coverageFile := project.coverageOut.value;
      assert Locate(project) == Some(Located(basePath, moduleName.value, coverageFile));
      if coverageFile.timestamp > lastModified {
        coverageMap := ParseCoverageFile(coverageFile.lines);
        lastModified := coverageFile.timestamp;
        TotalsAgreeWithEntries(Parse(coverageFile.lines));
      }
      var coverageKey := CoverageKey(moduleName.value, relPath);
      if coverageKey !in coverageMap {
        return None;
      }
      r := Percent(coverageMap[coverageKey]);
    }

    /**
     `getCoverageEntriesForFile`: the same gate, but a refresh keeps only the
     entry lists and the timestamp; the totals it computes are dropped, so
     `coverageMap` stays as it was.
     */
    method GetCoverageEntriesForFile(project: Project, absPath: string) returns (r: Option<seq<CoverageEntry>>)
      modifies this
      ensures NeedsRefresh(project, old(lastModified)) ==>
                && lastModified == project.coverageOut.value.timestamp
                && detailedMap == EntriesOf(Parse(project.coverageOut.value.lines))
                && coverageMap == old(coverageMap)
      ensures !NeedsRefresh(project, old(lastModified)) ==>
                Unchanged(old(lastModified), old(coverageMap), old(detailedMap))
      ensures r == match Locate(project)
                   case None => None
                   case Some(located) => FileEntries(detailedMap, KeyFor(located, absPath))
    {
      if project.basePath.None? {
        return None;
      }
      var basePath := project.basePath.value;
      var relPath := RelativePath(basePath, absPath);
      var moduleName := ReadModuleName(project.goMod);
      if moduleName.None? {
        assert Locate(project).None?;
        return None;
      }
      if project.coverageOut.None? {
        return None;
      }
      var coverageFile := project.coverageOut.value;
      assert Locate(project) == Some(Located(basePath, moduleName.value, coverageFile));
      if coverageFile.timestamp > lastModified {
        var _ := ParseCoverageFile(coverageFile.lines);
        lastModified := coverageFile.timestamp;
      }
      var key := CoverageKey(moduleName.value, relPath);
      r := FileEntries(detailedMap, key);
    }

    /**
     `getCoverageEntriesForFile` as evidently intended: a refresh stores the
     totals it computes as well, so the two maps never drift apart.
     */
    method GetCoverageEntriesForFileKeepingTotals(project: Project, absPath: string)
      returns (r: Option<seq<CoverageEntry>>)
      modifies this
      ensures NeedsRefresh(project, old(lastModified)) ==> Holds(project.coverageOut.value) && Consistent()
      ensures !NeedsRefresh(project, old(lastModified)) ==>
                Unchanged(old(lastModified), old(coverageMap), old(detailedMap))
      ensures old(Consistent()) ==> Consistent()
      ensures r == match Locate(project)
                   case None => None
                   case Some(located) => FileEntries(detailedMap, KeyFor(located, absPath))
    {
      if project.basePath.None? {
        return None;
      }
      var basePath := project.basePath.value;
      var relPath := RelativePath(basePath, absPath);
      var moduleName := ReadModuleName(project.goMod);
      if moduleName.None? {
        assert Locate(project).None?;
        return None;
      }
      if project.coverageOut.None? {
        return None;
      }
      var coverageFile := project.coverageOut.value;
      assert Locate(project) == Some(Located(basePath, moduleName.value, coverageFile));
      if coverageFile.timestamp > lastModified {
        coverageMap := ParseCoverageFile(coverageFile.lines);
        lastModified := coverageFile.timestamp;
        TotalsAgreeWithEntries(Parse(coverageFile.lines));
      }
      var key := CoverageKey(moduleName.value, relPath);
      r := FileEntries(detailedMap, key);
    }
  }

  // ------------------------------------------------------------- clients

  /**
   Asking twice about an unchanged project gives the same answer and parses
   at most once: the cache ends in the state the first query left, which is
   the profile on disk if that query refreshed and the old state otherwise.
   */
  method QueryTwice(cache: CoverageCache, project: Project, absPath: string) returns (first: Option<int>, second: Option<int>)
    modifies cache
    ensures first == second
    ensures !NeedsRefresh(project, cache.lastModified)
    ensures NeedsRefresh(project, old(cache.lastModified)) ==> cache.Holds(project.coverageOut.value)
    ensures !NeedsRefresh(project, old(cache.lastModified)) ==>
              cache.Unchanged(old(cache.lastModified), old(cache.coverageMap), old(cache.detailedMap))
  {
    first := cache.GetCoverageForFile(project, absPath);
    ghost var lastModified, coverageMap, detailedMap := cache.lastModified, cache.coverageMap, cache.detailedMap;
    second := cache.GetCoverageForFile(project, absPath);
    assert cache.Unchanged(lastModified, coverageMap, detailedMap);
  }

  /**
   Refresh is gated by the timestamp, not by the contents: with the same
   timestamp the old profile keeps answering, with a newer one the new
   profile does.
   */
  method TimestampGatesRefresh(cache: CoverageCache, basePath: string, goMod: seq<string>, absPath: string,
                               timestamp: int, oldLines: seq<string>, newLines: seq<string>)
    returns (before: Option<int>, same: Option<int>, newer: Option<int>)
    requires ReadModuleName(Some(goMod)).Some? && timestamp > cache.lastModified
    modifies cache
    ensures var key := CoverageKey(ReadModuleName(Some(goMod)).value, RelativePath(basePath, absPath));
            && before == FileCoverage(TotalsOf(Parse(oldLines)), key)
            && same == before
            && newer == FileCoverage(TotalsOf(Parse(newLines)), key)
  {
    var p1 := Project(Some(basePath), Some(goMod), Some(CoverageFile(timestamp, oldLines)));
    before := cache.GetCoverageForFile(p1, absPath);
    var p2 := Project(Some(basePath), Some(goMod), Some(CoverageFile(timestamp, newLines)));
    same := cache.GetCoverageForFile(p2, absPath);
    var p3 := Project(Some(basePath), Some(goMod), Some(CoverageFile(timestamp + 1, newLines)));
    newer := cache.GetCoverageForFile(p3, absPath);
  }

  /**
   A project below `basePath` whose `go.mod` declares `moduleName` and whose
   `coverage.out`, written at `timestamp`, holds a header, one block of the
   file `path` and a line of only two fields.
   */
  function SingleBlockProject(basePath: string, moduleName: string, path: string, timestamp: int,
                              startLine: int, endLine: int, statements: int, count: int): Project
  {
    Project(Some(basePath), Some([ModulePrefix + moduleName]),
            Some(CoverageFile(timestamp, ["mode: set",
                                          FormatLine(moduleName + "/" + path, startLine, 1, endLine, 1, statements, count),
                                          "pkg/a.go:1.1,2.1 1"])))
  }

  /** What the cache reads from such a project: the module, the key of `path` and the block. */
  lemma SingleBlockProjectRead(basePath: string, moduleName: string, path: string, timestamp: int,
                               startLine: int, endLine: int, statements: int, count: int)
    requires ' ' !in moduleName && ':' !in moduleName && ' ' !in path && ':' !in path
    requires moduleName != [] ==> !IsWhitespace(moduleName[0]) && !IsWhitespace(moduleName[|moduleName| - 1])
    requires InIntRange(startLine) && InIntRange(endLine) && InIntRange(statements) && InIntRange(count)
    ensures var project := SingleBlockProject(basePath, moduleName, path, timestamp, startLine, endLine, statements, count);
            var lines := project.coverageOut.value.lines;
            var key := moduleName + "/" + path;
            && Locate(project) == Some(Located(basePath, moduleName, project.coverageOut.value))
            && KeyFor(Locate(project).value, basePath + "/" + path) == key
            && TotalsOf(Parse(lines)) == map[key := Totals(if count > 0 then statements else 0, statements)]
            && EntriesOf(Parse(lines)) == map[key := [CoverageEntry(startLine, endLine, statements, count)]]
  {
    DeclaredModule(moduleName);
    RelativePathUnderBase(basePath, path);
    SingleBlockLines(moduleName + "/" + path, startLine, endLine, statements, count);
  }

  /** A `go.mod` of one declaration line names its module. */
  lemma DeclaredModule(moduleName: string)
    requires moduleName != [] ==> !IsWhitespace(moduleName[0]) && !IsWhitespace(moduleName[|moduleName| - 1])
    ensures ReadModuleName(Some([ModulePrefix + moduleName])) == Some(moduleName)
  {
    ModuleNameOfDeclaration([], "", moduleName, "", []);
    assert [] + [ModulePrefix + "" + moduleName + ""] + [] == [ModulePrefix + moduleName];
  }

  /** The profile lines of `SingleBlockProject` hold the one block. */
  lemma SingleBlockLines(file: string, startLine: int, endLine: int, statements: int, count: int)
    requires ' ' !in file && ':' !in file && '/' in file
    requires InIntRange(startLine) && InIntRange(endLine) && InIntRange(statements) && InIntRange(count)
    ensures var lines := ["mode: set", FormatLine(file, startLine, 1, endLine, 1, statements, count), "pkg/a.go:1.1,2.1 1"];
            && TotalsOf(Parse(lines)) == map[file := Totals(if count > 0 then statements else 0, statements)]
            && EntriesOf(Parse(lines)) == map[file := [CoverageEntry(startLine, endLine, statements, count)]]
  {
    assert file != "mode" by {
      assert '/' !in "mode";
    }
    var location, field := "pkg/a.go:1.1,2.1", "1";
    assert ' ' !in location && ' ' !in field;
    assert "pkg/a.go:1.1,2.1 1" == location + " " + field;
    assert "mode: set" == "mode: " + "set";
    SingleBlockProfile("set", file, startLine, 1, endLine, 1, statements, count, location, field);
  }

  /** All of a file's statements covered is 100.00 %, none of them 0.00 %. */
  lemma PercentAllOrNothing(statements: int)
    requires statements > 0
    ensures Percent(Totals(statements, statements)) == Some(10000)
    ensures Percent(Totals(0, statements)) == Some(0)
  {
    PercentUnique(Totals(statements, statements), 10000);
    PercentUnique(Totals(0, statements), 0);
  }

  /**
   End to end: in a fresh cache, the file of a profile's only block is
   100.00 % covered when the block ran and 0.00 % when it did not; the
   malformed lines around the block change nothing.
   */
  method EndToEnd(basePath: string, moduleName: string, path: string, timestamp: int,
                  startLine: int, endLine: int, statements: int, count: int) returns (percent: Option<int>)
    requires ' ' !in moduleName && ':' !in moduleName && ' ' !in path && ':' !in path
    requires moduleName != [] ==> !IsWhitespace(moduleName[0]) && !IsWhitespace(moduleName[|moduleName| - 1])
    requires InIntRange(startLine) && InIntRange(endLine) && InIntRange(statements) && InIntRange(count)
    requires timestamp > 0 && statements > 0
    ensures percent == Some(if count > 0 then 10000 else 0)
  {
    var cache := new CoverageCache();
    var project := SingleBlockProject(basePath, moduleName, path, timestamp, startLine, endLine, statements, count);
    SingleBlockProjectRead(basePath, moduleName, path, timestamp, startLine, endLine, statements, count);
    PercentAllOrNothing(statements);
    percent := cache.GetCoverageForFile(project, basePath + "/" + path);
  }

  /**
   The entries query refreshes the entry lists but not the totals, and the
   percentage query that follows sees no newer file: in a fresh cache it
   answers null for the file of the profile's only block, whatever its
   coverage.
   */
  method StaleTotalsAfterEntriesQuery(basePath: string, moduleName: string, path: string, timestamp: int,
                                      startLine: int, endLine: int, statements: int, count: int)
    returns (entries: Option<seq<CoverageEntry>>, percent: Option<int>)
    requires ' ' !in moduleName && ':' !in moduleName && ' ' !in path && ':' !in path
    requires moduleName != [] ==> !IsWhitespace(moduleName[0]) && !IsWhitespace(moduleName[|moduleName| - 1])
    requires InIntRange(startLine) && InIntRange(endLine) && InIntRange(statements) && InIntRange(count)
    requires timestamp > 0 && statements > 0
    ensures entries == Some([CoverageEntry(startLine, endLine, statements, count)])
    ensures percent == None
  {
    var cache := new CoverageCache();
    var project := SingleBlockProject(basePath, moduleName, path, timestamp, startLine, endLine, statements, count);
    SingleBlockProjectRead(basePath, moduleName, path, timestamp, startLine, endLine, statements, count);
    entries := cache.GetCoverageEntriesForFile(project, basePath + "/" + path);
    percent := cache.GetCoverageForFile(project, basePath + "/" + path);
  }

  /** With the corrected entries query the same two queries answer the file's real percentage. */
  method FreshTotalsAfterCorrectedEntriesQuery(basePath: string, moduleName: string, path: string, timestamp: int,
                                               startLine: int, endLine: int, statements: int, count: int)
    returns (entries: Option<seq<CoverageEntry>>, percent: Option<int>)
    requires ' ' !in moduleName && ':' !in moduleName && ' ' !in path && ':' !in path
    requires moduleName != [] ==> !IsWhitespace(moduleName[0]) && !IsWhitespace(moduleName[|moduleName| - 1])
    requires InIntRange(startLine) && InIntRange(endLine) && InIntRange(statements) && InIntRange(count)
    requires timestamp > 0 && statements > 0
    ensures entries == Some([CoverageEntry(startLine, endLine, statements, count)])
    ensures percent == Some(if count > 0 then 10000 else 0)
  {
    var cache := new CoverageCache();
    var project := SingleBlockProject(basePath, moduleName, path, timestamp, startLine, endLine, statements, count);
    SingleBlockProjectRead(basePath, moduleName, path, timestamp, startLine, endLine, statements, count);
    PercentAllOrNothing(statements);
    entries := cache.GetCoverageEntriesForFileKeepingTotals(project, basePath + "/" + path);
    percent := cache.GetCoverageForFile(project, basePath + "/" + path);
  }
}
