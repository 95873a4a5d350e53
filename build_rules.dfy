// The rule-bundling script: the recursive search for YAML files under the rules
// directory, the merge of the parsed files into one map of rules that refuses a
// rule defined twice, and the text of the generated `names.ts`.
// The directory tree is a value; reading and parsing the files is left to the
// caller, who passes each file's path together with its parsed map of rules.
module BuildRules {
  import opened Wrappers
  import opened Strings
  import opened JsObject
  import opened Json

  // ---------------------------------------------------------------------------
  // Finding the rule files

  /** A directory entry: a file, or a directory with its listing in `readdir` order. */
  datatype FsEntry = File(name: string) | Dir(name: string, children: seq<FsEntry>)

  /** `path.join(dirPath, filename)`, without the normalisation of `.` and `..`. */
  function PathJoin(dirPath: string, filename: string): (r: string)
    ensures EndsWith(r, filename)
  {
    assert (dirPath + "/" + filename)[|dirPath + "/"|..] == filename;
    dirPath + "/" + filename
  }

  /** The YAML files found from one entry of a directory at `dirPath`. */
  function FindInEntry(dirPath: string, e: FsEntry): (r: seq<string>)
    ensures forall i :: 0 <= i < |r| ==> EndsWith(r[i], ".yaml")
    decreases e, 1
  {
    match e
    case File(filename) =>
      if EndsWith(filename, ".yaml") then
        EndsWithTrans(PathJoin(dirPath, filename), filename, ".yaml");
        [PathJoin(dirPath, filename)]
      else []
    case Dir(filename, _) => FindInDir(PathJoin(dirPath, filename), e, 0)
  }

  /** `recursiveFindYamlFile(dirPath)` over the listing of `dir` from position `i`:
      the `flatMap` of the entries, with the `false` of non-YAML files filtered out. */
  function FindInDir(dirPath: string, dir: FsEntry, i: nat): (r: seq<string>)
    requires dir.Dir? && i <= |dir.children|
    ensures forall k :: 0 <= k < |r| ==> EndsWith(r[k], ".yaml")
    decreases dir, 0, |dir.children| - i
  {
    if i == |dir.children| then []
    else FindInEntry(dirPath, dir.children[i]) + FindInDir(dirPath, dir, i + 1)
  }

  /** `recursiveFindYamlFile()` on the rules directory. */
  function RecursiveFindYamlFile(dirPath: string, root: FsEntry): (r: seq<string>)
    requires root.Dir?
  {
    FindInDir(dirPath, root, 0)
  }

  lemma EndsWithTrans(s: string, t: string, u: string)
    requires EndsWith(s, t) && EndsWith(t, u)
    ensures EndsWith(s, u)
  {
    assert s[|s| - |u|..] == t[|t| - |u|..];
  }

  /** Every file of the tree as (full path, file name), depth first, in listing order. */
  function FilesOfEntry(dirPath: string, e: FsEntry): seq<(string, string)>
    decreases e, 1
  {
    match e
    case File(filename) => [(PathJoin(dirPath, filename), filename)]
    case Dir(filename, _) => FilesOfDir(PathJoin(dirPath, filename), e, 0)
  }

  function FilesOfDir(dirPath: string, dir: FsEntry, i: nat): seq<(string, string)>
    requires dir.Dir? && i <= |dir.children|
    decreases dir, 0, |dir.children| - i
  {
    if i == |dir.children| then []
    else FilesOfEntry(dirPath, dir.children[i]) + FilesOfDir(dirPath, dir, i + 1)
  }

  /** The full paths of the files whose name ends in `.yaml`, in order. */
  function YamlPaths(files: seq<(string, string)>): seq<string> {
    if files == [] then []
    else (if EndsWith(files[0].1, ".yaml") then [files[0].0] else []) + YamlPaths(files[1..])
  }

  lemma {:induction false} YamlPathsAppend(a: seq<(string, string)>, b: seq<(string, string)>)
    ensures YamlPaths(a + b) == YamlPaths(a) + YamlPaths(b)
    decreases |a|
  {
    if a != [] {
      YamlPathsAppend(a[1..], b);
      var head := if EndsWith(a[0].1, ".yaml") then [a[0].0] else [];
      assert (a + b)[0] == a[0] && (a + b)[1..] == a[1..] + b;
      assert YamlPaths(a + b) == head + YamlPaths(a[1..] + b);
      assert YamlPaths(a) == head + YamlPaths(a[1..]);
    } else {
      assert a + b == b;
    }
  }

  /** The search visits every directory and keeps exactly the `.yaml` files. */
  lemma {:induction false} FindInEntryIsFilter(dirPath: string, e: FsEntry)
    ensures FindInEntry(dirPath, e) == YamlPaths(FilesOfEntry(dirPath, e))
    decreases e, 1
  {
    match e
    case File(filename) =>
    case Dir(filename, _) => FindInDirIsFilter(PathJoin(dirPath, filename), e, 0);
  }

  lemma {:induction false} FindInDirIsFilter(dirPath: string, dir: FsEntry, i: nat)
    requires dir.Dir? && i <= |dir.children|
    ensures FindInDir(dirPath, dir, i) == YamlPaths(FilesOfDir(dirPath, dir, i))
    decreases dir, 0, |dir.children| - i
  {
    if i < |dir.children| {
      FindInEntryIsFilter(dirPath, dir.children[i]);
      FindInDirIsFilter(dirPath, dir, i + 1);
      YamlPathsAppend(FilesOfEntry(dirPath, dir.children[i]), FilesOfDir(dirPath, dir, i + 1));
    }
  }

  /** The result of the search is the filter of the whole tree's files. */
  lemma FindYamlIsFilter(dirPath: string, root: FsEntry)
    requires root.Dir?
    ensures RecursiveFindYamlFile(dirPath, root) == YamlPaths(FilesOfDir(dirPath, root, 0))
  {
    FindInDirIsFilter(dirPath, root, 0);
  }

  // ---------------------------------------------------------------------------
  // Merging the rule files

  /** The names `ruleName in rules` also finds on an empty object: the properties
      every object inherits from `Object.prototype`. */
  const InheritedNames: set<string> := {
    "constructor", "hasOwnProperty", "isPrototypeOf", "propertyIsEnumerable",
    "toLocaleString", "toString", "valueOf", "__proto__",
    "__defineGetter__", "__defineSetter__", "__lookupGetter__", "__lookupSetter__"}

  /** `ruleName in rules`. */
  predicate InRules(rules: Dict<Json>, ruleName: string) {
    Has(rules, ruleName) || ruleName in InheritedNames
  }

  /** `Object.keys(newRules).findIndex((ruleName) => ruleName in rules)`, as an option. */
  function FirstDefined(rules: Dict<Json>, names: seq<string>): (r: Option<nat>)
    ensures r.None? <==> forall j :: 0 <= j < |names| ==> !InRules(rules, names[j])
    ensures r.Some? ==> r.value < |names| && InRules(rules, names[r.value]) &&
                        forall j :: 0 <= j < r.value ==> !InRules(rules, names[j])
    decreases |names|
  {
    if names == [] then None
    else if InRules(rules, names[0]) then Some(0)
    else
      match FirstDefined(rules, names[1..])
      case None => None
      case Some(k) => Some(k + 1)
  }

  /** The error `readRules` throws. */
  function DuplicateMessage(rule: string, filePath: string): string {
    "La règle " + rule + " a été redéfinie dans dans le fichier " + filePath +
    ", alors qu'elle avait déjà été définie auparavant dans un autre fichier"
  }

  /** A parsed rule file: its path and its map of rules. */
  type RuleFile = (string, Dict<Json>)

  /** `readRules()` as written: `if (duplicatedRule)` tests the found name for
      truthiness, so a duplicated empty name is not reported, and hides any later
      duplicate of the same file. */
  function ReadRulesAsWritten(files: seq<RuleFile>): Result<Dict<Json>, string>
    decreases |files|
  {
    if files == [] then Ok([])
    else
      match ReadRulesAsWritten(files[..|files| - 1])
      case Err(e) => Err(e)
      case Ok(rules) =>
        var (filePath, newRules) := files[|files| - 1];
        var found := FirstDefined(rules, Keys(newRules));
        if found.Some? && newRules[found.value].0 != "" then
          Err(DuplicateMessage(newRules[found.value].0, filePath))
        else Ok(Assign(rules, newRules))
  }

  /** `readRules()`: the fold over the files, `Object.assign` into the accumulated
      rules, stopping at the first file that redefines a rule. */
  method ReadRules(files: seq<RuleFile>) returns (r: Result<Dict<Json>, string>)
    ensures r == ReadRulesAsWritten(files)
  {
    var rules: Dict<Json> := [];
    var i := 0;
    while i < |files|
      invariant 0 <= i <= |files|
      invariant ReadRulesAsWritten(files[..i]) == Ok(rules)
    {
      ReadRulesAsWrittenNext(files, i, rules);
      var (filePath, newRules) := files[i];
      var found := FirstDefined(rules, Keys(newRules));
      if found.Some? && newRules[found.value].0 != "" {
        r := Err(DuplicateMessage(newRules[found.value].0, filePath));
        ReadRulesStopsAtError(files, i + 1);
        return;
      }
      rules := Assign(rules, newRules);
      i := i + 1;
    }
    assert files[..i] == files;
    r := Ok(rules);
  }

  /** The merge of one more file, when the files before it merged into `rules`. */
  lemma ReadRulesAsWrittenNext(files: seq<RuleFile>, i: nat, rules: Dict<Json>)
    requires i < |files| && ReadRulesAsWritten(files[..i]) == Ok(rules)
    ensures var found := FirstDefined(rules, Keys(files[i].1));
            ReadRulesAsWritten(files[..i + 1]) ==
              if found.Some? && files[i].1[found.value].0 != "" then
                Err(DuplicateMessage(files[i].1[found.value].0, files[i].0))
              else Ok(Assign(rules, files[i].1))
  {
    assert files[..i + 1][..i] == files[..i];
  }

  /** Once the merge has failed, later files do not change the outcome. */
  lemma {:induction false} ReadRulesStopsAtError(files: seq<RuleFile>, n: nat)
    requires n <= |files| && ReadRulesAsWritten(files[..n]).Err?
    ensures ReadRulesAsWritten(files) == ReadRulesAsWritten(files[..n])
    decreases |files| - n
  {
    if n < |files| {
      assert files[..n + 1][..n] == files[..n];
      ReadRulesStopsAtError(files, n + 1);
    } else {
      assert files[..n] == files;
    }
  }

  /** The merge with the duplicate test the error message describes: any name
      already defined, the empty name included. */
  function ReadRulesChecked(files: seq<RuleFile>): Result<Dict<Json>, string>
    decreases |files|
  {
    if files == [] then Ok([])
    else
      match ReadRulesChecked(files[..|files| - 1])
      case Err(e) => Err(e)
      case Ok(rules) =>
        var (filePath, newRules) := files[|files| - 1];
        var found := FirstDefined(rules, Keys(newRules));
        if found.Some? then Err(DuplicateMessage(newRules[found.value].0, filePath))
        else Ok(Assign(rules, newRules))
  }

  /** All the rules of the files, file after file. */
  function Entries(files: seq<RuleFile>): Dict<Json>
    decreases |files|
  {
    if files == [] then [] else Entries(files[..|files| - 1]) + files[|files| - 1].1
  }

  /** Each parsed file has unique rule names, as a YAML mapping has. */
  predicate FilesWellFormed(files: seq<RuleFile>) {
    forall i :: 0 <= i < |files| ==> UniqueKeys(files[i].1)
  }

  /** No file defines a name an earlier file defined or an object inherits. */
  predicate NoRedefinition(files: seq<RuleFile>)
    decreases |files|
  {
    files == [] ||
    (NoRedefinition(files[..|files| - 1]) &&
     var newRules := files[|files| - 1].1;
     forall j :: 0 <= j < |newRules| ==>
       newRules[j].0 !in Keys(Entries(files[..|files| - 1])) && newRules[j].0 !in InheritedNames)
  }

  lemma FilesWellFormedPrefix(files: seq<RuleFile>)
    requires FilesWellFormed(files) && files != []
    ensures FilesWellFormed(files[..|files| - 1]) && UniqueKeys(files[|files| - 1].1)
  {
    assert forall i :: 0 <= i < |files| - 1 ==> files[..|files| - 1][i] == files[i];
  }

  /** The merge succeeds exactly when no rule is redefined, and then it is all the
      rules of the files, in file order and in key order within a file. */
  lemma {:induction false} ReadRulesCheckedOk(files: seq<RuleFile>)
    requires FilesWellFormed(files)
    ensures ReadRulesChecked(files).Ok? <==> NoRedefinition(files)
    ensures NoRedefinition(files) ==> ReadRulesChecked(files) == Ok(Entries(files))
    decreases |files|
  {
    if files != [] {
      var prefix := files[..|files| - 1];
      var newRules := files[|files| - 1].1;
      FilesWellFormedPrefix(files);
      ReadRulesCheckedOk(prefix);
      if NoRedefinition(prefix) {
        var rules := Entries(prefix);
        forall j | 0 <= j < |newRules| ensures InRules(rules, newRules[j].0) <==> !(newRules[j].0 !in Keys(rules) && newRules[j].0 !in InheritedNames) {
          HasIndex(rules, newRules[j].0);
          if newRules[j].0 in Keys(rules) {
            var k :| 0 <= k < |Keys(rules)| && Keys(rules)[k] == newRules[j].0;
            assert rules[k].0 == newRules[j].0;
          }
        }
        assert forall j :: 0 <= j < |newRules| ==> Keys(newRules)[j] == newRules[j].0;
        if NoRedefinition(files) {
          AssignFresh(rules, newRules);
        }
      }
    }
  }

  /** Without redefinitions the merged rules have unique names. */
  lemma {:induction false} EntriesUnique(files: seq<RuleFile>)
    requires FilesWellFormed(files) && NoRedefinition(files)
    ensures UniqueKeys(Entries(files))
    decreases |files|
  {
    if files != [] {
      var prefix := files[..|files| - 1];
      var a: Dict<Json> := Entries(prefix);
      var b: Dict<Json> := files[|files| - 1].1;
      var ab := a + b;
      FilesWellFormedPrefix(files);
      EntriesUnique(prefix);
      forall i, j | 0 <= i < j < |ab| ensures ab[i].0 != ab[j].0 {
        if i < |a| && j >= |a| {
          assert Keys(a)[i] == a[i].0;
          assert ab[j] == b[j - |a|];
        }
      }
    }
  }

  /** Every rule of a file sits in `Entries` right after the rules of the earlier files. */
  lemma {:induction false} EntriesAt(files: seq<RuleFile>, i: nat, j: nat)
    requires i < |files| && j < |files[i].1|
    ensures |Entries(files[..i])| + j < |Entries(files)|
    ensures Entries(files)[|Entries(files[..i])| + j] == files[i].1[j]
    decreases |files|
  {
    var prefix := files[..|files| - 1];
    assert files[..|files|] == files;
    if i < |files| - 1 {
      assert prefix[..i] == files[..i] && prefix[i] == files[i];
      EntriesAt(prefix, i, j);
    }
  }

  /** On success, each rule reads as the value its one defining file gave it. */
  lemma ReadRulesCheckedGet(files: seq<RuleFile>, i: nat, j: nat)
    requires FilesWellFormed(files) && i < |files| && j < |files[i].1|
    requires ReadRulesChecked(files).Ok?
    ensures Get(ReadRulesChecked(files).value, files[i].1[j].0) == Some(files[i].1[j].1)
  {
    ReadRulesCheckedOk(files);
    EntriesUnique(files);
    EntriesAt(files, i, j);
    GetEntry(Entries(files), |Entries(files[..i])| + j);
  }

  /** On failure, the error names the first rule of some file that was already
      defined, the earlier files having merged without conflict. */
  lemma {:induction false} ReadRulesCheckedErr(files: seq<RuleFile>)
    requires ReadRulesChecked(files).Err?
    ensures exists i :: 0 <= i < |files| && ReadRulesChecked(files[..i]).Ok? &&
              var found := FirstDefined(ReadRulesChecked(files[..i]).value, Keys(files[i].1));
              found.Some? &&
              ReadRulesChecked(files).error == DuplicateMessage(files[i].1[found.value].0, files[i].0)
    decreases |files|
  {
    var n := |files| - 1;
    var prefix := files[..n];
    assert files[..n] == prefix;
    if ReadRulesChecked(prefix).Err? {
      ReadRulesCheckedErr(prefix);
      var i :| 0 <= i < |prefix| && ReadRulesChecked(prefix[..i]).Ok? &&
               var found := FirstDefined(ReadRulesChecked(prefix[..i]).value, Keys(prefix[i].1));
               found.Some? &&
               ReadRulesChecked(prefix).error == DuplicateMessage(prefix[i].1[found.value].0, prefix[i].0);
      assert prefix[..i] == files[..i] && prefix[i] == files[i];
    } else {
      assert ReadRulesChecked(files[..n]).Ok?;
    }
  }

  /** The script as written agrees with the checked merge as long as no rule is
      named with the empty string. */
  lemma {:induction false} AsWrittenAgrees(files: seq<RuleFile>)
    requires forall i, j :: 0 <= i < |files| && 0 <= j < |files[i].1| ==> files[i].1[j].0 != ""
    ensures ReadRulesAsWritten(files) == ReadRulesChecked(files)
    decreases |files|
  {
    if files != [] {
      var prefix := files[..|files| - 1];
      assert forall i :: 0 <= i < |prefix| ==> prefix[i] == files[i];
      AsWrittenAgrees(prefix);
    }
  }

  /** Two files that both define the empty name and another name `x`: the script
      as written merges them without error, the second file silently overriding
      both rules, where the checked merge reports the empty name. */
  lemma EmptyNameHidesDuplicate(p1: string, p2: string, x: string, v1: Json, w1: Json, v2: Json, w2: Json)
    requires x != "" && x !in InheritedNames
    ensures var files := [(p1, [("", v1), (x, w1)]), (p2, [("", v2), (x, w2)])];
            ReadRulesAsWritten(files) == Ok([("", v2), (x, w2)]) &&
            ReadRulesChecked(files) == Err(DuplicateMessage("", p2))
  {
    var first: Dict<Json> := [("", v1), (x, w1)];
    var second: Dict<Json> := [("", v2), (x, w2)];
    var files: seq<RuleFile> := [(p1, first), (p2, second)];
    assert files[..|files| - 1] == [(p1, first)];
    FirstFileMerged(p1, first);
    SecondFileFindsEmptyName(first, second);
    assert Keys(second) == ["", x];
    OverrideBoth(x, v1, w1, v2, w2);
  }

  /** The empty name is the first name of the second file already defined. */
  lemma SecondFileFindsEmptyName(first: Dict<Json>, second: Dict<Json>)
    requires |first| >= 1 && |second| >= 1 && first[0].0 == "" && second[0].0 == ""
    ensures FirstDefined(first, Keys(second)) == Some(0)
  {
    assert Has(first, "");
  }

  /** A single file without repeated names merges into itself, both ways. */
  lemma FirstFileMerged(p1: string, first: Dict<Json>)
    requires UniqueKeys(first)
    requires forall j :: 0 <= j < |first| ==> first[j].0 !in InheritedNames
    ensures ReadRulesAsWritten([(p1, first)]) == Ok(first)
    ensures ReadRulesChecked([(p1, first)]) == Ok(first)
  {
    assert [(p1, first)][..0] == [];
    assert FirstDefined([], Keys(first)).None?;
    FromEntriesUnique(first);
  }

  /** Assigning a file with the same two names overrides both values in place. */
  lemma OverrideBoth(x: string, v1: Json, w1: Json, v2: Json, w2: Json)
    requires x != ""
    ensures Assign([("", v1), (x, w1)], [("", v2), (x, w2)]) == [("", v2), (x, w2)]
  {
    var first: Dict<Json> := [("", v1), (x, w1)];
    var second: Dict<Json> := [("", v2), (x, w2)];
    var mid: Dict<Json> := [("", v2), (x, w1)];
    assert Put(first, "", v2) == mid;
    assert Put(mid, x, w2) == second;
    assert second[1..] == [(x, w2)] && second[1..][1..] == [];
    assert Assign(mid, [(x, w2)]) == Assign(second, []) == second;
  }

  // ---------------------------------------------------------------------------
  // names.ts

  const NamesHeader: string := "\nexport type Names = "
  const NamesSeparator: string := "\n  | "

  /** `"${name}"`. */
  function Quote(name: string): string {
    "\"" + name + "\""
  }

  /** The names, each quoted. */
  function Quoted(names: seq<string>): (r: seq<string>)
    ensures |r| == |names| && forall i :: 0 <= i < |names| ==> r[i] == Quote(names[i])
  {
    seq(|names|, i requires 0 <= i < |names| => Quote(names[i]))
  }

  /** The text `writeJSFile` writes to `names.ts` for the rule names. */
  function NamesTs(names: seq<string>): string {
    NamesHeader + Join(Quoted(names), NamesSeparator) + "\n"
  }

  /** `writeJSFile()`'s `names.ts`: the names of the rules `readRules()` merges, as
      written, in merge order; the error it throws otherwise. */
  function WriteNamesTs(files: seq<RuleFile>): Result<string, string> {
    match ReadRulesAsWritten(files)
    case Ok(rules) => Ok(NamesTs(Keys(rules)))
    case Err(e) => Err(e)
  }

  /** Wherever the checked merge succeeds, the script as written gives the same rules. */
  lemma {:induction false} AsWrittenAgreesOnSuccess(files: seq<RuleFile>)
    requires ReadRulesChecked(files).Ok?
    ensures ReadRulesAsWritten(files) == ReadRulesChecked(files)
    decreases |files|
  {
    if files != [] {
      AsWrittenAgreesOnSuccess(files[..|files| - 1]);
    }
  }

  /** Without redefinitions, `names.ts` lists every rule of every file, in order. */
  lemma WriteNamesTsLists(files: seq<RuleFile>)
    requires FilesWellFormed(files) && NoRedefinition(files)
    ensures WriteNamesTs(files) == Ok(NamesTs(Keys(Entries(files))))
  {
    ReadRulesCheckedOk(files);
    AsWrittenAgreesOnSuccess(files);
  }

  /** As written, the two files that both define "" and `x` give a `names.ts` that
      lists each name once, where the checked merge throws. */
  lemma EmptyNameNamesTs(p1: string, p2: string, x: string, v1: Json, w1: Json, v2: Json, w2: Json)
    requires x != "" && x !in InheritedNames
    ensures WriteNamesTs([(p1, [("", v1), (x, w1)]), (p2, [("", v2), (x, w2)])]) == Ok(NamesTs(["", x]))
  {
    EmptyNameHidesDuplicate(p1, p2, x, v1, w1, v2, w2);
    assert Keys([("", v2), (x, w2)]) == ["", x];
  }

  /** The quoted name back, when the text is one. */
  function Unquote(q: string): Option<string> {
    if |q| >= 2 && q[0] == '"' && q[|q| - 1] == '"' then Some(q[1..|q| - 1]) else None
  }

  /** The names of the lines after the first, which start with "  | ". */
  function ParseMoreNames(lines: seq<string>): Option<seq<string>>
    decreases |lines|
  {
    if lines == [] then Some([])
    else if !StartsWith(lines[0], "  | ") then None
    else
      match (Unquote(lines[0][4..]), ParseMoreNames(lines[1..]))
      case (Some(n), Some(ns)) => Some([n] + ns)
      case _ => None
  }

  /** Reads the names back from the text of `names.ts`. */
  function ParseNamesTs(text: string): Option<seq<string>> {
    if !StartsWith(text, NamesHeader) || !EndsWith(text, "\n") || |text| < |NamesHeader| + 1 then None
    else
      var lines := Split(text[|NamesHeader|..|text| - 1], '\n');
      match (Unquote(lines[0]), ParseMoreNames(lines[1..]))
      case (Some(n), Some(ns)) => Some([n] + ns)
      case _ => None
  }

  /** The lines of the joined names: the first quoted name, then "  | " and a quoted name. */
  function NameLines(names: seq<string>): (r: seq<string>)
    ensures |r| == |names|
    ensures |names| > 0 ==> r[0] == Quote(names[0])
    ensures forall i :: 0 < i < |names| ==> r[i] == "  | " + Quote(names[i])
  {
    seq(|names|, i requires 0 <= i < |names| => if i == 0 then Quote(names[i]) else "  | " + Quote(names[i]))
  }

  lemma {:induction false} JoinNameLines(names: seq<string>)
    requires |names| >= 1
    ensures Join(Quoted(names), NamesSeparator) == Join(NameLines(names), "\n")
    decreases |names|
  {
    if |names| > 1 {
      var rest := names[1..];
      var lines := NameLines(names);
      JoinNameLines(rest);
      JoinNameLinesShift(rest);
      NameLinesTail(names);
      assert Quoted(names)[1..] == Quoted(rest);
      calc {
        Join(Quoted(names), NamesSeparator);
        Quote(names[0]) + NamesSeparator + Join(Quoted(rest), NamesSeparator);
        { assert NamesSeparator == "\n" + "  | "; }
        Quote(names[0]) + "\n" + ("  | " + Join(NameLines(rest), "\n"));
        Quote(names[0]) + "\n" + Join(lines[1..], "\n");
        { assert lines[0] == Quote(names[0]); }
        Join(lines, "\n");
      }
    }
  }

  /** Prefixing the first line with "  | " is what the longer separator adds. */
  lemma JoinNameLinesShift(names: seq<string>)
    requires |names| >= 1
    ensures "  | " + Join(NameLines(names), "\n") ==
            Join(["  | " + Quote(names[0])] + NameLines(names)[1..], "\n")
  {
    var l := NameLines(names);
    var m := ["  | " + Quote(names[0])] + l[1..];
    if |names| > 1 {
      assert m[1..] == l[1..];
    }
  }

  lemma UnquoteQuote(name: string)
    ensures Unquote(Quote(name)) == Some(name)
  {
    var q := Quote(name);
    assert q[1..|q| - 1] == name;
  }

  lemma {:induction false} ParseMoreNamesLines(names: seq<string>)
    requires |names| >= 1
    ensures ParseMoreNames(NameLines(names)[1..]) == Some(names[1..])
    decreases |names|
  {
    if |names| > 1 {
      NameLinesTail(names);
      ParseMoreNamesLines(names[1..]);
      ParseMoreNamesStep(names[1], NameLines(names[1..])[1..]);
      assert names[1..] == [names[1]] + names[1..][1..];
    } else {
      assert NameLines(names)[1..] == [] && names[1..] == [];
    }
  }

  /** After the first line, the lines of `names` are one continuation line followed
      by the later lines of `names[1..]`. */
  lemma NameLinesTail(names: seq<string>)
    requires |names| > 1
    ensures NameLines(names)[1..] == ["  | " + Quote(names[1])] + NameLines(names[1..])[1..]
  {
    var l := NameLines(names)[1..];
    var r := ["  | " + Quote(names[1])] + NameLines(names[1..])[1..];
    assert |l| == |r|;
    forall k | 0 <= k < |l| ensures l[k] == r[k] {
      if k > 0 {
        assert r[k] == NameLines(names[1..])[k] == "  | " + Quote(names[1..][k]);
      }
    }
  }

  /** A continuation line reads back as its name. */
  lemma ParseMoreNamesStep(name: string, rest: seq<string>)
    ensures ParseMoreNames(["  | " + Quote(name)] + rest) ==
            match ParseMoreNames(rest) case Some(ns) => Some([name] + ns) case None => None
  {
    var line := "  | " + Quote(name);
    assert line[..4] == "  | " && line[4..] == Quote(name);
    UnquoteQuote(name);
    assert (["  | " + Quote(name)] + rest)[1..] == rest;
  }

  /** Names without line breaks read back from `names.ts` as written. */
  lemma NamesTsRoundTrip(names: seq<string>)
    requires |names| >= 1
    requires forall i :: 0 <= i < |names| ==> '\n' !in names[i]
    ensures ParseNamesTs(NamesTs(names)) == Some(names)
  {
    var lines := NameLines(names);
    JoinNameLines(names);
    forall i | 0 <= i < |lines| ensures '\n' !in lines[i] {
      assert forall c :: c in Quote(names[i]) ==> c == '"' || c in names[i];
    }
    SplitJoin(lines, '\n');
    var text := NamesTs(names);
    var body := Join(lines, "\n");
    assert text == NamesHeader + body + "\n";
    assert text[..|NamesHeader|] == NamesHeader;
    assert text[|NamesHeader|..|text| - 1] == body;
    ParseMoreNamesLines(names);
    UnquoteQuote(names[0]);
    assert names == [names[0]] + names[1..];
  }
}
