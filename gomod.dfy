/**
 The two pieces of the lookup key: the module name declared in `go.mod`
 and the path of the source file relative to the project's base path.
 A key is `moduleName + "/" + relativePath`, the form in which the Go tool
 writes file names into the coverage profile.
 */
module GoModule {
  import opened Wrappers
  import opened KotlinStrings

  /** The declaration prefix looked for in `go.mod`; note the trailing space. */
  const ModulePrefix: string := "module "

  /** `lines.firstOrNull { it.startsWith(prefix) }`. */
  function FirstWithPrefix(lines: seq<string>, prefix: string): (r: Option<string>)
    ensures r.None? <==> forall i :: 0 <= i < |lines| ==> !StartsWith(lines[i], prefix)
    ensures r.Some? ==> exists i :: 0 <= i < |lines| && lines[i] == r.value && StartsWith(lines[i], prefix)
                                    && forall j :: 0 <= j < i ==> !StartsWith(lines[j], prefix)
  {
    if lines == [] then None
    else if StartsWith(lines[0], prefix) then Some(lines[0])
    else
      var r := FirstWithPrefix(lines[1..], prefix);
      assert forall i :: 1 <= i < |lines| ==> lines[i] == lines[1..][i - 1];
      r
  }

  /**
   `readModuleName`: the remainder, trimmed, of the first `go.mod` line that
   starts with `module `; null when there is no `go.mod` or no such line.
   */
  function ReadModuleName(goMod: Option<seq<string>>): (r: Option<string>)
    ensures goMod.None? ==> r.None?
    ensures goMod.Some? ==>
              (r.None? <==> forall i :: 0 <= i < |goMod.value| ==> !StartsWith(goMod.value[i], ModulePrefix))
    ensures r.Some? ==> r.value == [] || (!IsWhitespace(r.value[0]) && !IsWhitespace(r.value[|r.value| - 1]))
  {
    match goMod
    case None => None
    case Some(lines) =>
      match FirstWithPrefix(lines, ModulePrefix)
      case None => None
      case Some(line) => Some(Trim(RemovePrefix(line, ModulePrefix)))
  }

  /**
   The first declaration wins, and white space around the name is dropped:
   `go.mod` lines `before`, then `module <pad>name<pad>`, then anything, give `name`.
   */
  lemma ModuleNameOfDeclaration(before: seq<string>, left: string, name: string, right: string,
                                after: seq<string>)
    requires forall i :: 0 <= i < |before| ==> !StartsWith(before[i], ModulePrefix)
    requires AllWhitespace(left) && AllWhitespace(right)
    requires name != [] ==> !IsWhitespace(name[0]) && !IsWhitespace(name[|name| - 1])
    ensures ReadModuleName(Some(before + [ModulePrefix + left + name + right] + after)) == Some(name)
  {
    var decl := ModulePrefix + left + name + right;
    var lines := before + [decl] + after;
    assert lines[|before|] == decl;
    assert StartsWith(decl, ModulePrefix) by {
      assert decl[..|ModulePrefix|] == ModulePrefix;
    }
    var found := FirstWithPrefix(lines, ModulePrefix);
    assert found == Some(decl) by {
      var i :| 0 <= i < |lines| && lines[i] == found.value && StartsWith(lines[i], ModulePrefix)
               && forall j :: 0 <= j < i ==> !StartsWith(lines[j], ModulePrefix);
    }
    assert RemovePrefix(decl, ModulePrefix) == left + name + right by {
      assert decl == ModulePrefix + (left + name + right);
    }
    TrimPadded(left, name, right);
  }

  /**
   `absPath.removePrefix(basePath).removePrefix("/")`: the base comes off
   only when it is a prefix, and then at most one `/`.
   */
  function RelativePath(basePath: string, absPath: string): (r: string)
    ensures StartsWith(absPath, basePath + "/") ==> basePath + "/" + r == absPath
    ensures !StartsWith(absPath, basePath) && !StartsWith(absPath, "/") ==> r == absPath
    ensures |r| <= |absPath|
  {
    var rest := RemovePrefix(absPath, basePath);
    assert StartsWith(absPath, basePath + "/") ==> StartsWith(absPath, basePath) && StartsWith(rest, "/") by {
      if StartsWith(absPath, basePath + "/") {
        assert absPath[..|basePath|] == (basePath + "/")[..|basePath|];
        assert basePath + rest == absPath;
        assert rest[..1] == absPath[|basePath|..|basePath| + 1];
      }
    }
    RemovePrefix(rest, "/")
  }

  /**
   The two remaining cases: a path that starts with the base but not with
   `base/` loses only the base (`/w/app2/m.go` under `/w/app` gives `2/m.go`),
   and a path outside the base loses only its leading `/`.
   */
  lemma RelativePathOtherCases(basePath: string, absPath: string)
    ensures StartsWith(absPath, basePath) && !StartsWith(absPath, basePath + "/") ==>
              basePath + RelativePath(basePath, absPath) == absPath
    ensures !StartsWith(absPath, basePath) && StartsWith(absPath, "/") ==>
              "/" + RelativePath(basePath, absPath) == absPath
  {
    var rest := RemovePrefix(absPath, basePath);
    if StartsWith(absPath, basePath) && StartsWith(rest, "/") {
      assert basePath + rest == absPath;
      assert absPath[..|basePath| + 1] == basePath + "/";
    }
  }

  /** A path below the base loses the base and exactly one separator (a second `/` stays). */
  lemma RelativePathUnderBase(basePath: string, path: string)
    ensures RelativePath(basePath, basePath + "/" + path) == path
  {
    var abs := basePath + "/" + path;
    assert abs[..|basePath|] == basePath;
    assert abs[|basePath|..] == "/" + path;
    assert ("/" + path)[..1] == "/";
  }

  /** A path that neither starts with the base nor with `/` is used as it is. */
  lemma RelativePathOfRelative(basePath: string, path: string)
    requires !StartsWith(path, basePath) && !StartsWith(path, "/")
    ensures RelativePath(basePath, path) == path
  {
  }

  /** The coverage lookup key `"$moduleName/$relPath"`. */
  function CoverageKey(moduleName: string, relPath: string): (key: string)
    ensures StartsWith(key, moduleName + "/")
    ensures |key| == |moduleName| + 1 + |relPath|
    ensures key[|moduleName| + 1..] == relPath
  {
    moduleName + "/" + relPath
  }

  /** Within one module, different relative paths give different keys. */
  lemma CoverageKeyInjective(moduleName: string, relPath1: string, relPath2: string)
    requires CoverageKey(moduleName, relPath1) == CoverageKey(moduleName, relPath2)
    ensures relPath1 == relPath2
  {
    var n := |moduleName| + 1;
    assert relPath1 == CoverageKey(moduleName, relPath1)[n..];
    assert relPath2 == CoverageKey(moduleName, relPath2)[n..];
  }
}
