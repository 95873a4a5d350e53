// The pure helpers of the site's build configuration: the removal of the
// "[automatic] " tag from the English rule translations, the branch name taken
// from the CI environment and the build flags derived from it, and the
// `virtual:` module ids of the multi-page plugin: the build inputs it hands out,
// their resolution and the pages `load` serves for them (filling the HTML
// template is not modelled).
// Environment variables are parameters (None when unset).
module ViteConfig {
  import opened Wrappers
  import opened Strings
  import opened JsObject
  import opened Json

  // ---------------------------------------------------------------------------
  // Translation tags

  const Tag: string := "[automatic] "

  /** `cleanAutomaticTag(data)`: one leading tag removed from every string, arrays
      and objects cleaned element by element, everything else returned as is. */
  function CleanAutomaticTag(data: Json): Json
    decreases data
  {
    match data
    case Str(s) => if StartsWith(s, Tag) then Str(s[|Tag|..]) else data
    case Array(items) => Array(seq(|items|, i requires 0 <= i < |items| => CleanAutomaticTag(items[i])))
    case Object(fields) =>
      Object(FromEntries(seq(|fields|, i requires 0 <= i < |fields| =>
        (fields[i].0, CleanAutomaticTag(fields[i].1)))))
    case _ => data
  }

  /** A string loses its tag, once; any other string is kept. */
  lemma CleanString(s: string)
    ensures StartsWith(s, Tag) ==> CleanAutomaticTag(Str(s)) == Str(s[|Tag|..]) && Tag + s[|Tag|..] == s
    ensures !StartsWith(s, Tag) ==> CleanAutomaticTag(Str(s)) == Str(s)
  {
  }

  /** Only one tag goes per call: a doubly tagged string keeps its second tag, so
      cleaning twice differs from cleaning once. */
  lemma CleanNotIdempotent()
    ensures CleanAutomaticTag(Str(Tag + Tag)) == Str(Tag)
    ensures CleanAutomaticTag(CleanAutomaticTag(Str(Tag + Tag))) == Str("")
  {
    assert StartsWith(Tag + Tag, Tag) by { assert (Tag + Tag)[..|Tag|] == Tag; }
    assert (Tag + Tag)[|Tag|..] == Tag;
    assert StartsWith(Tag, Tag);
    assert Tag[|Tag|..] == "";
  }

  /** Arrays keep their length and order, each element cleaned. */
  lemma CleanArray(items: seq<Json>)
    ensures var r := CleanAutomaticTag(Array(items));
            r.Array? && |r.items| == |items| &&
            forall i :: 0 <= i < |items| ==> r.items[i] == CleanAutomaticTag(items[i])
  {
  }

  /** Objects keep their keys, in order, each value cleaned. */
  lemma CleanObject(fields: seq<(string, Json)>)
    requires UniqueKeys(fields)
    ensures var r := CleanAutomaticTag(Object(fields));
            r.Object? && Keys(r.fields) == Keys(fields) &&
            forall i :: 0 <= i < |fields| ==> r.fields[i].1 == CleanAutomaticTag(fields[i].1)
  {
    var mapped := seq(|fields|, i requires 0 <= i < |fields| => (fields[i].0, CleanAutomaticTag(fields[i].1)));
    assert UniqueKeys(mapped) by {
      forall i, j | 0 <= i < j < |mapped| ensures mapped[i].0 != mapped[j].0 {
        assert mapped[i].0 == fields[i].0 && mapped[j].0 == fields[j].0;
      }
    }
    FromEntriesUnique(mapped);
  }

  /** Null, booleans and numbers are returned unchanged. */
  lemma CleanScalar(data: Json)
    requires data.Null? || data.Bool? || data.Number?
    ensures CleanAutomaticTag(data) == data
  {
  }

  /** Every object of the value has unique keys, as a parsed YAML document has. */
  predicate WellFormed(data: Json)
    decreases data
  {
    match data
    case Array(items) => forall i :: 0 <= i < |items| ==> WellFormed(items[i])
    case Object(fields) => UniqueKeys(fields) && forall i :: 0 <= i < |fields| ==> WellFormed(fields[i].1)
    case _ => true
  }

  /** The tagging the cleaning undoes: a tag in front of every string. */
  function AddTag(data: Json): (r: Json)
    ensures r.Str? <==> data.Str?
    decreases data
  {
    match data
    case Str(s) => Str(Tag + s)
    case Array(items) => Array(seq(|items|, i requires 0 <= i < |items| => AddTag(items[i])))
    case Object(fields) =>
      Object(seq(|fields|, i requires 0 <= i < |fields| => (fields[i].0, AddTag(fields[i].1))))
    case _ => data
  }

  /** Cleaning a tagged document gives the document back. */
  lemma {:induction false} CleanAddTag(data: Json)
    requires WellFormed(data)
    ensures CleanAutomaticTag(AddTag(data)) == data
    decreases data
  {
    match data
    case Str(s) =>
      assert (Tag + s)[..|Tag|] == Tag && (Tag + s)[|Tag|..] == s;
    case Array(items) =>
      var tagged := AddTag(data).items;
      forall i | 0 <= i < |items| ensures CleanAutomaticTag(tagged[i]) == items[i] {
        CleanAddTag(items[i]);
      }
      CleanArray(tagged);
    case Object(fields) =>
      var tagged := AddTag(data).fields;
      assert UniqueKeys(tagged) by {
        forall i, j | 0 <= i < j < |tagged| ensures tagged[i].0 != tagged[j].0 {
          assert tagged[i].0 == fields[i].0 && tagged[j].0 == fields[j].0;
        }
      }
      forall i | 0 <= i < |fields| ensures CleanAutomaticTag(tagged[i].1) == fields[i].1 {
        CleanAddTag(fields[i].1);
      }
      CleanObject(tagged);
      var r := CleanAutomaticTag(AddTag(data)).fields;
      assert |r| == |fields|;
      forall i | 0 <= i < |fields| ensures r[i] == fields[i] {
        assert Keys(r)[i] == r[i].0 && Keys(tagged)[i] == tagged[i].0;
      }
    case _ =>
  }

  /** The YAML plugin's transform: only the English rules are cleaned. */
  function YamlTransform(data: Json, filePath: string): (r: Json)
    ensures EndsWith(filePath, "/rules-en.yaml") ==> r == CleanAutomaticTag(data)
    ensures !EndsWith(filePath, "/rules-en.yaml") ==> r == data
  {
    if EndsWith(filePath, "/rules-en.yaml") then CleanAutomaticTag(data) else data
  }

  // ---------------------------------------------------------------------------
  // Branch and build flags

  /** `getBranch(mode)`, from `VITE_GITHUB_REF` and `VITE_GITHUB_HEAD_REF`: the last
      '/'-segment of the ref, the head ref instead of "merge", "" when undefined. */
  function GetBranch(ref: Option<string>, headRef: Option<string>): string {
    match ref
    case None => ""
    case Some(s) =>
      var segment := Last(Split(s, '/'));
      if segment == "merge" then headRef.GetOr("") else segment
  }

  /** The branch is the ref's text after its last '/', or else the head ref (for a merge ref). */
  lemma GetBranchIsLastSegment(s: string, headRef: Option<string>)
    ensures var b := GetBranch(Some(s), headRef);
            b == headRef.GetOr("") || ('/' !in b && EndsWith(s, b) && (|b| < |s| ==> s[|s| - |b| - 1] == '/'))
  {
    LastPieceIsSuffix(s, '/');
  }

  /** A ref `prefix/name` with a slash-free name other than "merge" names branch `name`. */
  lemma GetBranchOfRef(prefix: string, name: string, headRef: Option<string>)
    requires '/' !in name && name != "merge"
    ensures GetBranch(Some(prefix + "/" + name), headRef) == name
  {
    LastPieceAfterSeparator(prefix, name, '/');
  }

  /** The pull-request ref `refs/pull/<n>/merge` names the head branch. */
  lemma GetBranchOfMergeRef(prefix: string, headRef: Option<string>)
    ensures GetBranch(Some(prefix + "/merge"), headRef) == headRef.GetOr("")
  {
    assert prefix + "/merge" == prefix + ['/'] + "merge";
    LastPieceAfterSeparator(prefix, "merge", '/');
  }

  /** `isProductionBranch(mode)`. */
  predicate IsProductionBranch(branch: string) {
    branch in ["master", "next"]
  }

  /** The `define` block: `BRANCH_NAME` is kept as the branch text, before
      `JSON.stringify`. */
  datatype Defines = Defines(branchName: string, isDevelopment: bool, isStaging: bool, isProduction: bool)

  function BuildDefines(mode: string, ref: Option<string>, headRef: Option<string>): (d: Defines)
    ensures !(d.isStaging && d.isProduction)
    ensures mode != "production" ==> !d.isStaging && !d.isProduction
    ensures mode == "production" ==> (d.isStaging <==> !d.isProduction)
    ensures d.isProduction <==> mode == "production" && d.branchName in ["master", "next"]
    ensures d.isDevelopment <==> mode == "development"
  {
    var branch := GetBranch(ref, headRef);
    Defines(branch, mode == "development",
            mode == "production" && !IsProductionBranch(branch),
            mode == "production" && IsProductionBranch(branch))
  }

  /** A production build of `master` from its push ref is the production site. */
  lemma MasterIsProduction()
    ensures BuildDefines("production", Some("refs/heads/master"), None).isProduction
  {
    assert "refs/heads/master" == "refs/heads" + "/" + "master";
    GetBranchOfRef("refs/heads", "master", None);
  }

  // ---------------------------------------------------------------------------
  // Virtual module ids

  const VirtualPrefix: string := "virtual:"

  /** `resolveId(id)`: the last '/'-segment without its `virtual:` prefix, or null. */
  function ResolveId(id: string): (r: Option<string>)
    ensures r.Some? <==> StartsWith(Last(Split(id, '/')), VirtualPrefix)
    ensures r.Some? ==> VirtualPrefix + r.value == Last(Split(id, '/')) && '/' !in r.value
  {
    var pathname := Last(Split(id, '/'));
    if StartsWith(pathname, VirtualPrefix) then
      assert VirtualPrefix + pathname[|VirtualPrefix|..] == pathname;
      Some(pathname[|VirtualPrefix|..])
    else None
  }

  /** The `rollupOptions.input` of a build: `Object.fromEntries` of each site's name
      paired with the id `virtual:<name>.html`. The names are `Object.keys`, so distinct. */
  function BuildInputs(siteNames: seq<string>): (r: Dict<string>)
    requires forall i, j :: 0 <= i < j < |siteNames| ==> siteNames[i] != siteNames[j]
    ensures Keys(r) == siteNames
    ensures forall i :: 0 <= i < |r| ==> r[i].1 == VirtualPrefix + siteNames[i] + ".html"
  {
    var entries := seq(|siteNames|, i requires 0 <= i < |siteNames| => (siteNames[i], VirtualPrefix + siteNames[i] + ".html"));
    FromEntriesUnique(entries);
    FromEntries(entries)
  }

  /** Whether `load(id)` serves a page: the id ends with some site's `<name>.html`. */
  predicate ServesSite(siteNames: seq<string>, id: string) {
    exists i :: 0 <= i < |siteNames| && EndsWith(id, siteNames[i] + ".html")
  }

  /** `load(id)`: the template named by the id without its `.html` ending, for an
      id ending in some site's `<name>.html`; nothing otherwise. */
  function Load(siteNames: seq<string>, id: string): (r: Option<string>)
    ensures r.Some? <==> ServesSite(siteNames, id)
    ensures r.Some? ==> r.value + ".html" == id
  {
    if ServesSite(siteNames, id) then
      var i :| 0 <= i < |siteNames| && EndsWith(id, siteNames[i] + ".html");
      assert id[|id| - 5..] == (siteNames[i] + ".html")[|siteNames[i]|..] == ".html";
      assert id[..|id| - 5] + ".html" == id;
      Some(id[..|id| - 5])
    else None
  }

  /** The bare id handed out for a site (`virtual:<name>.html`, no '/') resolves to
      `<name>.html`. */
  lemma ResolveVirtualId(name: string)
    requires '/' !in name
    ensures ResolveId(VirtualPrefix + name + ".html") == Some(name + ".html")
  {
    var id := VirtualPrefix + name + ".html";
    assert id == VirtualPrefix + (name + ".html");
    assert '/' !in id;
    SplitNoSeparator(id, '/');
    assert id[..|VirtualPrefix|] == VirtualPrefix;
    assert id[|VirtualPrefix|..] == name + ".html";
  }

  /** The same id behind a directory prefix resolves the same way. */
  lemma ResolvePrefixedVirtualId(prefix: string, name: string)
    requires '/' !in name
    ensures ResolveId(prefix + "/" + VirtualPrefix + name + ".html") == Some(name + ".html")
  {
    var last := VirtualPrefix + (name + ".html");
    assert '/' !in last;
    assert prefix + "/" + VirtualPrefix + name + ".html" == prefix + ['/'] + last;
    LastPieceAfterSeparator(prefix, last, '/');
    assert last[..|VirtualPrefix|] == VirtualPrefix;
    assert last[|VirtualPrefix|..] == name + ".html";
  }

  /** Each build input resolves to `<name>.html`, which `load` serves from the
      template of that site. */
  lemma BuildInputLoads(siteNames: seq<string>, i: int)
    requires forall i, j :: 0 <= i < j < |siteNames| ==> siteNames[i] != siteNames[j]
    requires 0 <= i < |siteNames| && '/' !in siteNames[i]
    ensures ResolveId(BuildInputs(siteNames)[i].1) == Some(siteNames[i] + ".html")
    ensures Load(siteNames, siteNames[i] + ".html") == Some(siteNames[i])
  {
    ResolveVirtualId(siteNames[i]);
    assert EndsWith(siteNames[i] + ".html", siteNames[i] + ".html");
    assert (siteNames[i] + ".html")[..|siteNames[i]|] == siteNames[i];
  }

  /** An id whose last segment does not start with `virtual:` is left to other resolvers. */
  lemma ResolveOrdinaryId(prefix: string, file: string)
    requires '/' !in file && !StartsWith(file, VirtualPrefix)
    ensures ResolveId(prefix + "/" + file) == None
  {
    LastPieceAfterSeparator(prefix, file, '/');
  }
}
