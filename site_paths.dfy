// The route tables of the site: nested objects whose string leaves are relative
// path segments, the builder of absolute paths, the identity copy of the relative
// table, the depth-first fold over the leaves, and the sitemap built with it.
module SitePaths {
  import opened Wrappers
  import opened Strings
  import opened JsObject

  /** A route table: a string leaf, or an object of named sub-routes. */
  datatype Route = Leaf(path: string) | Table(entries: seq<(string, Route)>)

  /** Every table has unique keys, as a JavaScript object has. */
  predicate WellFormed(r: Route)
    decreases r
  {
    match r
    case Leaf(_) => true
    case Table(e) => UniqueKeys(e) && forall i :: 0 <= i < |e| ==> WellFormed(e[i].1)
  }

  // ---------------------------------------------------------------------------
  // Absolute paths

  /** `const { index } = obj`, as it reads inside a string concatenation. */
  function IndexText(e: seq<(string, Route)>): string {
    var found: Option<Route> := Get(e, "index");
    match found
    case Some(Leaf(s)) => s
    case Some(Table(_)) => "[object Object]"
    case None => "undefined"
  }

  /** The absolute path of one string leaf: `root + (k === 'index' ? value : index + '/' + value) || '/'`. */
  function AbsoluteLeaf(root: string, key: string, index: string, value: string): string {
    var s := root + (if key == "index" then value else index + "/" + value);
    if s == "" then "/" else s
  }

  /** `constructAbsoluteSitePaths(obj, root)`: the same keys, every string leaf made
      absolute, every sub-table built under `root + index + '/'`. */
  function Construct(r: Route, root: string): Route
    decreases r
  {
    match r
    case Leaf(_) => r
    case Table(e) =>
      var index := IndexText(e);
      Table(seq(|e|, i requires 0 <= i < |e| =>
        (e[i].0, match e[i].1
                 case Leaf(v) => Leaf(AbsoluteLeaf(root, e[i].0, index, v))
                 case Table(_) => Construct(e[i].1, root + index + "/"))))
  }

  /** Both trees have the same keys, in the same order, at every level. */
  predicate SameShape(a: Route, b: Route)
    decreases a
  {
    match a
    case Leaf(_) => b.Leaf?
    case Table(e) =>
      b.Table? && |b.entries| == |e| &&
      forall i :: 0 <= i < |e| ==> b.entries[i].0 == e[i].0 && SameShape(e[i].1, b.entries[i].1)
  }

  /** Every leaf under `r` is a non-empty path beginning with `prefix`. */
  predicate LeavesStartWith(r: Route, prefix: string)
    decreases r
  {
    match r
    case Leaf(p) => p != "" && StartsWith(p, prefix)
    case Table(e) => forall i :: 0 <= i < |e| ==> LeavesStartWith(e[i].1, prefix)
  }

  lemma {:induction false} ConstructSameShape(r: Route, root: string)
    ensures SameShape(r, Construct(r, root))
    decreases r
  {
    match r
    case Leaf(_) =>
    case Table(e) =>
      var c := Construct(r, root);
      forall i | 0 <= i < |e| ensures c.entries[i].0 == e[i].0 && SameShape(e[i].1, c.entries[i].1) {
        if e[i].1.Table? {
          ConstructSameShape(e[i].1, root + IndexText(e) + "/");
        }
      }
  }

  lemma {:induction false} LeavesStartWithWeaken(r: Route, longer: string, prefix: string)
    requires LeavesStartWith(r, longer) && StartsWith(longer, prefix)
    ensures LeavesStartWith(r, prefix)
    decreases r
  {
    match r
    case Leaf(p) =>
      assert p[..|longer|][..|prefix|] == p[..|prefix|];
    case Table(e) =>
      forall i | 0 <= i < |e| ensures LeavesStartWith(e[i].1, prefix) {
        LeavesStartWithWeaken(e[i].1, longer, prefix);
      }
  }

  /** Every absolute path is non-empty and begins with the root it was built under. */
  lemma {:induction false} ConstructUnderRoot(r: Route, root: string)
    requires r.Table?
    ensures LeavesStartWith(Construct(r, root), root)
    decreases r
  {
    var e := r.entries;
    var index := IndexText(e);
    var c := Construct(r, root);
    forall i | 0 <= i < |e| ensures LeavesStartWith(c.entries[i].1, root) {
      match e[i].1
      case Leaf(v) =>
        var s := root + (if e[i].0 == "index" then v else index + "/" + v);
        assert s[..|root|] == root;
      case Table(_) =>
        ConstructUnderRoot(e[i].1, root + index + "/");
        assert (root + index + "/")[..|root|] == root;
        LeavesStartWithWeaken(c.entries[i].1, root + index + "/", root);
    }
  }

  /** Under root R with index I: the index leaf is R + its value (or '/' when that is
      empty); every other leaf, and every leaf of a sub-table, begins with R + I + '/'. */
  lemma ConstructEntry(e: seq<(string, Route)>, root: string, i: int)
    requires 0 <= i < |e|
    ensures var c := Construct(Table(e), root).entries[i];
            c.0 == e[i].0 &&
            (e[i].0 == "index" && e[i].1.Leaf? ==>
               c.1 == Leaf(if root + e[i].1.path == "" then "/" else root + e[i].1.path)) &&
            (e[i].0 != "index" || e[i].1.Table? ==> LeavesStartWith(c.1, root + IndexText(e) + "/"))
  {
    var index := IndexText(e);
    var c := Construct(Table(e), root).entries[i];
    match e[i].1
    case Leaf(v) =>
      if e[i].0 != "index" {
        assert (root + (index + "/" + v))[..|root + index + "/"|] == root + index + "/";
      }
    case Table(_) =>
      ConstructUnderRoot(e[i].1, root + index + "/");
  }

  /** A table whose index is the empty string has '/' as its absolute index at the root. */
  lemma TopIndexIsSlash(e: seq<(string, Route)>)
    requires Get(e, "index") == Some(Leaf(""))
    ensures exists i :: 0 <= i < |e| && Construct(Table(e), "").entries[i] == ("index", Leaf("/"))
  {
    GetIsEntry(e, "index");
    var i :| 0 <= i < |e| && e[i] == ("index", Leaf(""));
    ConstructEntry(e, "", i);
  }

  lemma {:induction false} ContainsAt(s: string, t: string, i: nat)
    requires i + |t| <= |s| && s[i..i + |t|] == t
    ensures Contains(s, t)
    decreases i
  {
    if i > 0 {
      assert s[1..][i - 1..i - 1 + |t|] == s[i..i + |t|];
      ContainsAt(s[1..], t, i - 1);
    } else {
      assert s[..|t|] == t;
    }
  }

  /** A non-index route whose segment is a parameter (`:name`) gets an absolute path
      holding '/:'. */
  lemma ParameterRouteMarked(e: seq<(string, Route)>, root: string, i: int)
    requires 0 <= i < |e| && e[i].0 != "index" && e[i].1.Leaf? && StartsWith(e[i].1.path, ":")
    ensures var c := Construct(Table(e), root).entries[i].1;
            c.Leaf? && Contains(c.path, "/:")
  {
    var index := IndexText(e);
    var v := e[i].1.path;
    var s := root + index + "/" + v;
    assert s == root + (index + "/" + v);
    assert s[|root + index|..|root + index| + 2] == "/:";
    ContainsAt(s, "/:", |root + index|);
  }

  // ---------------------------------------------------------------------------
  // The relative table

  /** `encodeRelativeSitePaths`: a reduce that spreads each entry into a new object,
      copying string leaves and re-encoding sub-tables. */
  function EncodeRelative(r: Route): Route
    decreases r, 1
  {
    match r
    case Leaf(_) => r
    case Table(e) => Table(EncodeFrom([], r, 0))
  }

  function EncodeFrom(acc: seq<(string, Route)>, parent: Route, i: nat): seq<(string, Route)>
    requires parent.Table?
    decreases parent, 0, |parent.entries| - i
  {
    if i >= |parent.entries| then acc
    else
      var (key, value) := parent.entries[i];
      EncodeFrom(Put(acc, key, if value.Leaf? then value else EncodeRelative(value)), parent, i + 1)
  }

  /** The relative table is a copy of its input: same keys, same string leaves. */
  lemma {:induction false} EncodeRelativeIdentity(r: Route)
    requires WellFormed(r)
    ensures EncodeRelative(r) == r
    decreases r, 1
  {
    if r.Table? {
      EncodeFromIdentity(r, 0);
      assert r.entries[..0] == [];
      assert r.entries[..|r.entries|] == r.entries;
    }
  }

  lemma {:induction false} EncodeFromIdentity(parent: Route, i: nat)
    requires parent.Table? && WellFormed(parent) && i <= |parent.entries|
    ensures EncodeFrom(parent.entries[..i], parent, i) == parent.entries
    decreases parent, 0, |parent.entries| - i
  {
    var e := parent.entries;
    if i < |e| {
      var (key, value) := e[i];
      assert WellFormed(value);
      if value.Table? {
        EncodeRelativeIdentity(value);
      }
      assert !Has(e[..i], key) by {
        HasIndex(e[..i], key);
        forall j | 0 <= j < i ensures e[..i][j].0 != key {
          assert e[j].0 != e[i].0;
        }
      }
      PutFresh(e[..i], key, value);
      assert e[..i] + [(key, value)] == e[..i + 1];
      EncodeFromIdentity(parent, i + 1);
    } else {
      assert e[..i] == e;
    }
  }

  // ---------------------------------------------------------------------------
  // Depth-first fold and sitemap

  /** A step of `deepReduce`: `fn(acc, value, key)`. */
  type Step = (seq<string>, string, string) -> seq<string>

  /** `deepReduce(fn, acc, object)`: recurse into sub-tables, apply `fn` to string leaves. */
  function DeepReduce(fn: Step, acc: seq<string>, r: Route): seq<string>
    decreases r, 1
  {
    match r
    case Leaf(_) => acc
    case Table(e) => DeepReduceFrom(fn, acc, r, 0)
  }

  function DeepReduceFrom(fn: Step, acc: seq<string>, parent: Route, i: nat): seq<string>
    requires parent.Table?
    decreases parent, 0, |parent.entries| - i
  {
    if i >= |parent.entries| then acc
    else
      var (key, value) := parent.entries[i];
      var next := if value.Table? then DeepReduce(fn, acc, value) else fn(acc, value.path, key);
      DeepReduceFrom(fn, next, parent, i + 1)
  }

  /** The string leaves of a table as (key, value) pairs, depth first, in key order. */
  function LeafList(r: Route): seq<(string, string)>
    decreases r, 1
  {
    match r
    case Leaf(_) => []
    case Table(e) => LeafListFrom(r, 0)
  }

  function LeafListFrom(parent: Route, i: nat): seq<(string, string)>
    requires parent.Table?
    decreases parent, 0, |parent.entries| - i
  {
    if i >= |parent.entries| then []
    else
      var (key, value) := parent.entries[i];
      (if value.Table? then LeafList(value) else [(key, value.path)]) + LeafListFrom(parent, i + 1)
  }

  /** The plain left fold of a step over a list of leaves. */
  function FoldLeaves(fn: Step, acc: seq<string>, leaves: seq<(string, string)>): seq<string>
    decreases |leaves|
  {
    if leaves == [] then acc else FoldLeaves(fn, fn(acc, leaves[0].1, leaves[0].0), leaves[1..])
  }

  lemma {:induction false} FoldLeavesAppend(fn: Step, acc: seq<string>, a: seq<(string, string)>, b: seq<(string, string)>)
    ensures FoldLeaves(fn, acc, a + b) == FoldLeaves(fn, FoldLeaves(fn, acc, a), b)
    decreases |a|
  {
    if a != [] {
      assert (a + b)[1..] == a[1..] + b;
      FoldLeavesAppend(fn, fn(acc, a[0].1, a[0].0), a[1..], b);
    } else {
      assert a + b == b;
    }
  }

  /** `deepReduce` visits the string leaves depth first, in key order. */
  lemma {:induction false} DeepReduceIsFold(fn: Step, acc: seq<string>, r: Route)
    ensures DeepReduce(fn, acc, r) == FoldLeaves(fn, acc, LeafList(r))
    decreases r, 1
  {
    if r.Table? {
      DeepReduceFromIsFold(fn, acc, r, 0);
    }
  }

  lemma {:induction false} DeepReduceFromIsFold(fn: Step, acc: seq<string>, parent: Route, i: nat)
    requires parent.Table?
    ensures DeepReduceFrom(fn, acc, parent, i) == FoldLeaves(fn, acc, LeafListFrom(parent, i))
    decreases parent, 0, |parent.entries| - i
  {
    if i < |parent.entries| {
      var (key, value) := parent.entries[i];
      var here := if value.Table? then LeafList(value) else [(key, value.path)];
      if value.Table? {
        DeepReduceIsFold(fn, acc, value);
      } else {
        assert FoldLeaves(fn, acc, here) == FoldLeaves(fn, fn(acc, value.path, key), []);
      }
      var next := FoldLeaves(fn, acc, here);
      DeepReduceFromIsFold(fn, next, parent, i + 1);
      FoldLeavesAppend(fn, acc, here, LeafListFrom(parent, i + 1));
    }
  }

  /** The sitemap step: `/\/:/.test(path) ? paths : [...paths, path]`. */
  function SiteMapStep(paths: seq<string>, path: string, key: string): seq<string> {
    if Contains(path, "/:") then paths else paths + [path]
  }

  /** `generateSiteMap`. */
  function SiteMap(r: Route): seq<string> {
    DeepReduce(SiteMapStep, [], r)
  }

  /** The reference sitemap: the leaf values without a parameter segment, in order. */
  function Routable(leaves: seq<(string, string)>): (r: seq<string>)
    ensures forall p :: p in r <==> !Contains(p, "/:") && exists i :: 0 <= i < |leaves| && leaves[i].1 == p
    decreases |leaves|
  {
    if leaves == [] then []
    else
      var rest := Routable(leaves[1..]);
      assert forall i :: 0 <= i < |leaves[1..]| ==> leaves[1..][i] == leaves[i + 1];
      assert forall i :: 0 < i < |leaves| ==> leaves[i] == leaves[1..][i - 1];
      (if Contains(leaves[0].1, "/:") then [] else [leaves[0].1]) + rest
  }

  lemma {:induction false} FoldSiteMap(acc: seq<string>, leaves: seq<(string, string)>)
    ensures FoldLeaves(SiteMapStep, acc, leaves) == acc + Routable(leaves)
    decreases |leaves|
  {
    if leaves != [] {
      var next := SiteMapStep(acc, leaves[0].1, leaves[0].0);
      FoldSiteMap(next, leaves[1..]);
      assert next == acc + (if Contains(leaves[0].1, "/:") then [] else [leaves[0].1]);
    }
  }

  /** The sitemap lists every leaf path of the table, depth first, except those
      holding a parameter segment '/:'. */
  lemma SiteMapIsRoutable(r: Route)
    ensures SiteMap(r) == Routable(LeafList(r))
  {
    DeepReduceIsFold(SiteMapStep, [], r);
    FoldSiteMap([], LeafList(r));
  }

  // ---------------------------------------------------------------------------
  // The two language tables (top level; the sub-tables are given in full where
  // the English table spreads the French one)

  const ChoixDuStatutFr: seq<(string, Route)> := [
    ("index", Leaf("choix-du-statut")), ("activité", Leaf("activité")),
    ("département", Leaf("département")), ("lucratif", Leaf("lucratif")),
    ("associé", Leaf("associé")), ("rémunération", Leaf("rémunération")),
    ("statuts", Leaf("statuts")), ("résultat", Leaf("résultat")),
    ("après", Leaf("après-la-création"))]

  const DeveloppeurFr: seq<(string, Route)> := [
    ("index", Leaf("développeur")), ("iframe", Leaf("iframe")),
    ("library", Leaf("bibliothèque-de-calcul")), ("api", Leaf("api")), ("spreadsheet", Leaf("tableur"))]

  const PourMonEntrepriseFr: seq<(string, Route)> := [
    ("index", Leaf("pour-mon-entreprise")), ("entreprise", Leaf(":entreprise"))]

  const AssistantsFr: seq<(string, Route)> := [
    ("index", Leaf("assistants")), ("embaucher", Leaf("embaucher")),
    ("sécuritéSociale", Leaf("sécurité-sociale")), ("formulaireMobilité", Leaf("demande-mobilité")),
    ("recherche-code-ape", Leaf("recherche-code-ape")),
    ("déclaration-charges-sociales-indépendant", Leaf("declaration-charges-sociales-independant")),
    ("économieCollaborative", Table([("index", Leaf("économie-collaborative")),
                                     ("votreSituation", Leaf("votre-situation"))])),
    ("pour-mon-entreprise", Table(PourMonEntrepriseFr)),
    ("déclarationIndépendant", Table([("index", Leaf("aide-declaration-independants-v2")),
                                      ("entreprise", Leaf("entreprise")), ("imposition", Leaf("imposition")),
                                      ("déclaration", Leaf("declaration")), ("cotisations", Leaf("cotisations"))])),
    ("choix-du-statut", Table(ChoixDuStatutFr))]

  const ProfessionLiberaleFr: seq<(string, Route)> := [
    ("index", Leaf("profession-liberale")), ("médecin", Leaf("medecin")),
    ("pharmacien", Leaf("pharmacien")), ("auxiliaire", Leaf("auxiliaire-medical")),
    ("chirurgien-dentiste", Leaf("chirurgien-dentiste")), ("sage-femme", Leaf("sage-femme")),
    ("avocat", Leaf("avocat")), ("expert-comptable", Leaf("expert-comptable")), ("cipav", Leaf("cipav"))]

  const SimulateursFr: seq<(string, Route)> := [
    ("index", Leaf("simulateurs")), ("coût-création-entreprise", Leaf("cout-creation-entreprise")),
    ("auto-entrepreneur", Leaf("auto-entrepreneur")), ("entreprise-individuelle", Leaf("entreprise-individuelle")),
    ("eirl", Leaf("eirl")), ("sasu", Leaf("sasu")), ("eurl", Leaf("eurl")),
    ("indépendant", Leaf("indépendant")), ("comparaison", Leaf("comparaison-régimes-sociaux")),
    ("pamc", Leaf("pamc")), ("salarié", Leaf("salaire-brut-net")), ("artiste-auteur", Leaf("artiste-auteur")),
    ("profession-libérale", Table(ProfessionLiberaleFr)), ("chômage-partiel", Leaf("chômage-partiel")),
    ("is", Leaf("impot-societe")), ("dividendes", Leaf("dividendes"))]

  /** `rawSitePathsFr`. */
  const SitePathsFr: seq<(string, Route)> := [
    ("index", Leaf("")), ("assistants", Table(AssistantsFr)), ("simulateurs", Table(SimulateursFr)),
    ("nouveautés", Leaf("nouveautés")), ("stats", Leaf("statistiques")),
    ("accessibilité", Leaf("accessibilité")), ("budget", Leaf("budget")),
    ("simulateursEtAssistants", Leaf("simulateurs-et-assistants")),
    ("développeur", Table(DeveloppeurFr)),
    ("documentation", Table([("index", Leaf("documentation"))])),
    ("plan", Leaf("plan-du-site"))]

  const AssistantsEn: seq<(string, Route)> := [
    ("index", Leaf("assistants")), ("embaucher", Leaf("hiring")),
    ("sécuritéSociale", Leaf("social-security")), ("formulaireMobilité", Leaf("posting-demand")),
    ("recherche-code-ape", Leaf("search-code-ape")),
    ("déclaration-charges-sociales-indépendant", Leaf("declaration-social-charges-independent")),
    ("économieCollaborative", Table([("index", Leaf("sharing-economy")),
                                     ("votreSituation", Leaf("your-situation"))])),
    ("pour-mon-entreprise", Table([("index", Leaf("for-my-business")),
                                   ("entreprise", Leaf(":entreprise"))])),
    ("déclarationIndépendant", Table([("index", Leaf("declaration-aid-independent-v2")),
                                      ("imposition", Leaf("taxation")), ("entreprise", Leaf("company")),
                                      ("déclaration", Leaf("declaration")), ("cotisations", Leaf("contributions"))])),
    // `{ ...fr['choix-du-statut'], index, assistant, après, … }`: every French key is
    // written over in place and `assistant` is appended
    ("choix-du-statut", Table([
      ("index", Leaf("choice-of-status")), ("activité", Leaf("activity")), ("département", Leaf("state")),
      ("lucratif", Leaf("lucrative")), ("associé", Leaf("partnership")), ("rémunération", Leaf("remuneration")),
      ("statuts", Leaf("statuts")), ("résultat", Leaf("result")), ("après", Leaf("after-registration")),
      ("assistant", Leaf("assistant"))]))]

  const SimulateursEn: seq<(string, Route)> := [
    ("index", Leaf("calculators")), ("coût-création-entreprise", Leaf("coût-création-entreprise")),
    ("indépendant", Leaf("independant")), ("entreprise-individuelle", Leaf("sole-proprietorship")),
    ("auto-entrepreneur", Leaf("auto-entrepreneur")), ("eirl", Leaf("eirl")), ("sasu", Leaf("sasu")),
    ("eurl", Leaf("eurl")), ("pamc", Leaf("pamc")), ("comparaison", Leaf("social-scheme-comparaison")),
    ("salarié", Leaf("salary")), ("artiste-auteur", Leaf("artist-author")),
    ("chômage-partiel", Leaf("partial-unemployement")),
    ("profession-libérale", Table([
      ("index", Leaf("liberal-profession")), ("médecin", Leaf("doctor")), ("pharmacien", Leaf("pharmacist")),
      ("auxiliaire", Leaf("medical-auxiliary")), ("chirurgien-dentiste", Leaf("dental-surgeon")),
      ("sage-femme", Leaf("midwife")), ("avocat", Leaf("lawyer")), ("expert-comptable", Leaf("accountant")),
      ("cipav", Leaf("cipav"))])),
    ("is", Leaf("corporate-tax")), ("dividendes", Leaf("dividends"))]

  /** The keys `rawSitePathsEn` writes over its spread of `rawSitePathsFr`. */
  const OverridesEn: seq<(string, Route)> := [
    ("assistants", Table(AssistantsEn)), ("simulateurs", Table(SimulateursEn)),
    ("nouveautés", Leaf("news")), ("stats", Leaf("statistics")), ("accessibilité", Leaf("accessibility")),
    ("simulateursEtAssistants", Leaf("simulators-and-assistants")),
    // `{ ...fr.développeur, index, library, api, spreadsheet }`: `iframe` is kept
    ("développeur", Table([
      ("index", Leaf("developer")), ("iframe", Leaf("iframe")), ("library", Leaf("library")),
      ("api", Leaf("api")), ("spreadsheet", Leaf("spreadsheet"))])),
    ("plan", Leaf("sitemap"))]

  /** `rawSitePathsEn = { ...rawSitePathsFr, ... }`. */
  const SitePathsEn: seq<(string, Route)> := Assign(SitePathsFr, OverridesEn)

  /** The keys the English table writes over the French one, in order. */
  lemma OverridesKeys()
    ensures |OverridesEn| == 8
    ensures OverridesEn[0].0 == "assistants" && OverridesEn[1].0 == "simulateurs" &&
            OverridesEn[2].0 == "nouveautés" && OverridesEn[3].0 == "stats" &&
            OverridesEn[4].0 == "accessibilité" && OverridesEn[5].0 == "simulateursEtAssistants" &&
            OverridesEn[6].0 == "développeur" && OverridesEn[7].0 == "plan"
  {
  }

  /** The English table does not override the index of the French one. */
  lemma OverridesKeepIndex()
    ensures UniqueKeys(OverridesEn) && !Has(OverridesEn, "index")
  {
    OverridesKeys();
    HasIndex(OverridesEn, "index");
  }

  /** The absolute index of both language tables is '/'. */
  lemma BothIndexesAreSlash()
    ensures exists i :: 0 <= i < |SitePathsFr| && Construct(Table(SitePathsFr), "").entries[i] == ("index", Leaf("/"))
    ensures exists i :: 0 <= i < |SitePathsEn| && Construct(Table(SitePathsEn), "").entries[i] == ("index", Leaf("/"))
  {
    assert Get(SitePathsFr, "index") == Some(Leaf(""));
    TopIndexIsSlash(SitePathsFr);
    OverridesKeepIndex();
    AssignGet(SitePathsFr, OverridesEn, "index");
    TopIndexIsSlash(SitePathsEn);
  }

  /** The French table's `assistants` sub-table is built under "/", and its
      `pour-mon-entreprise` sub-table under "/assistants/". */
  lemma AssistantsBuilt()
    ensures Construct(Table(SitePathsFr), "").entries[1].1 == Construct(Table(AssistantsFr), "/")
    ensures Construct(Table(AssistantsFr), "/").entries[7].1 == Construct(Table(PourMonEntrepriseFr), "/assistants/")
  {
    assert IndexText(SitePathsFr) == "";
    assert "" + "" + "/" == "/";
    assert IndexText(AssistantsFr) == "assistants";
    assert "/" + "assistants" + "/" == "/assistants/";
  }

  /** The path holds '/' immediately followed by ':'. */
  predicate HasParameterSegment(path: string) {
    exists i :: 0 <= i < |path| - 1 && path[i] == '/' && path[i + 1] == ':'
  }

  /** No path holding a parameter segment is ever listed in a sitemap. */
  lemma SiteMapOmitsParameters(r: Route, path: string)
    requires HasParameterSegment(path)
    ensures path !in SiteMap(r)
  {
    var i :| 0 <= i < |path| - 1 && path[i] == '/' && path[i + 1] == ':';
    assert path[i..i + 2] == "/:";
    ContainsAt(path, "/:", i);
    SiteMapIsRoutable(r);
  }

  /** The parameterised route `:entreprise` of the French table gets the absolute
      path "/assistants/pour-mon-entreprise/:entreprise". */
  lemma EntrepriseRouteBuilt()
    ensures Construct(Table(PourMonEntrepriseFr), "/assistants/").entries[1].1 ==
            Leaf("/assistants/pour-mon-entreprise/:entreprise")
  {
    ConstructLeaf(PourMonEntrepriseFr, "/assistants/", 1);
    PourMonEntrepriseIndex();
    EntreprisePathText();
  }

  lemma PourMonEntrepriseIndex()
    ensures IndexText(PourMonEntrepriseFr) == "pour-mon-entreprise"
  {
    assert PourMonEntrepriseFr[0] == ("index", Leaf("pour-mon-entreprise"));
  }

  lemma EntreprisePathText()
    ensures "/assistants/" + ("pour-mon-entreprise" + "/" + ":entreprise") ==
            "/assistants/pour-mon-entreprise/:entreprise"
  {
  }

  /** A string leaf under a key other than `index` becomes `root + index + '/' + value`. */
  lemma ConstructLeaf(e: seq<(string, Route)>, root: string, i: int)
    requires 0 <= i < |e| && e[i].0 != "index" && e[i].1.Leaf?
    ensures Construct(Table(e), root).entries[i].1 == Leaf(root + (IndexText(e) + "/" + e[i].1.path))
  {
  }

  /** That path has a parameter segment, so no sitemap lists it. */
  lemma EntrepriseRouteMarked()
    ensures HasParameterSegment("/assistants/pour-mon-entreprise/:entreprise")
  {
    var path := "/assistants/pour-mon-entreprise/:entreprise";
    assert path[31] == '/' && path[32] == ':';
  }
}
