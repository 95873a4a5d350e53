# mon-entreprise: the sharing, routing and build logic, modelled in Dafny

This project models the parts of the mon-entreprise web site (the Urssaf simulators) that compute
something of their own. Each module follows one source file. All of them build on a small model of
JavaScript objects, strings and JSON values.

- **SimulationSharing** (`useSearchParamsSimulationSharing.ts`) covers how a simulation travels in its URL:
  - the parameter name of each rule (its short identifier, else its dotted name);
  - the encoding of a situation into sorted search parameters;
  - the decoding back, with object values carried as JSON text;
  - the removal of the decoded parameters from the URL;
  - the run-once load effect of the hook.

  The main results are the round trip (decode(encode(s)) restores every entry and nothing else) and
  the independence of the encoding from the order of the situation.
- **SearchParams**: the part of `URLSearchParams` the hook uses, a class over its list of pairs. `set`,
  `delete` and `sort` follow section 6.2 of the WHATWG URL Living Standard. The sort is stable and
  orders names by their UTF-16 code units, so a character above U+FFFF counts as its surrogate pair. A sorted list with unique names is determined by what `get` returns.
- **SitePaths** (`sitePaths.ts`) covers:
  - the French and English route tables;
  - `constructAbsoluteSitePaths`, where every leaf becomes a path under its root;
  - `encodeRelativeSitePaths`, a copy of its input;
  - `deepReduce`, a depth-first fold over the leaves;
  - `generateSiteMap`, which lists every leaf path except parameterised ones.
- **ViteConfig** (`vite.config.ts`) covers:
  - the removal of the `[automatic] ` tag from English rule texts;
  - the branch name taken from the CI refs, and the build flags derived from it;
  - the `virtual:` module ids of the multi-page plugin.
- **BuildRules** (`build-rules.js`) covers:
  - the search for YAML files in a directory tree;
  - the merge of the rule files, which throws on a redefined rule;
  - the text of `names.ts`, proved to read back as the list of names.
- **SimulatorHits** (`SimulatorHits.tsx`): `getPath`, which walks a dotted path id through the absolute
  site paths, and the cards rendered for the search hits.
- **GuideStatut** (`GuideStatut/index.tsx`): the answers reset when the visitor returns to a question of
  the legal-status guide.
- **Paging** (both `DemandesUtilisateurs.tsx`) covers:
  - the paginator of the user-request lists: ten items per page, one button per page, the current page
    held by a small class;
  - how one request is shown.
- **ApiStats** (`fetch-api-stats.js`): the query string of each Plausible request, proved to parse back
  into its parameters; and the merge of the three series into one record per date, a loop proved
  against a fold.

Whatever the model cannot see enters as a parameter. This covers:
- the publicodes engine (its serialisation is a function parameter);
- `JSON.stringify`/`JSON.parse`, passed as a pair of functions together with the round-trip law the
  sharing code relies on (`Json.Lawful`, stated as a hypothesis);
- `encodeURIComponent` and its decoder;
- the CI environment variables;
- the file system, and the responses of the statistics API.

JavaScript objects are ordered dictionaries (`JsObject.Dict`):
- `obj[k] = v` keeps the first position of `k`;
- `Object.assign` and spreads are folds of that update;
- `Object.fromEntries` assigns its pairs onto an empty object.

## Model

| member | source | states |
|---|---|---|
| JsObject.Get | site/source/components/utils/useSearchParamsSimulationSharing.ts:110 | a property lookup is undefined exactly when the object lacks the key |
| JsObject.GetEntry | site/source/components/utils/useSearchParamsSimulationSharing.ts:107-110 | in an object without repeated keys, the lookup of an entry's key gives that entry's value |
| JsObject.PutKeys | site/source/components/utils/useSearchParamsSimulationSharing.ts:146 | assigning a property keeps the key order and appends a new key at the end |
| JsObject.PutGet | site/source/components/utils/useSearchParamsSimulationSharing.ts:146 | after `obj[k] = v`, `k` reads `v` and every other key reads as before |
| JsObject.PutUnique | site/source/components/utils/useSearchParamsSimulationSharing.ts:146 | assigning a property never duplicates a key |
| JsObject.PutPut | site/source/components/utils/useSearchParamsSimulationSharing.ts:146-152 | a second assignment to the same key overwrites the first |
| JsObject.PutFresh | site/source/components/utils/useSearchParamsSimulationSharing.ts:146 | assigning a key that is absent appends the entry at the end |
| JsObject.HasIndex | site/source/components/utils/useSearchParamsSimulationSharing.ts:145 | a key is present exactly when some entry carries it |
| JsObject.AssignGet | scripts/build-rules.js:40 | after `Object.assign(target, source)`, a key reads the source's value when the source has it, else the target's |
| JsObject.AssignFresh | scripts/build-rules.js:40 | assigning only fresh keys appends the source's entries in order |
| JsObject.FromEntriesUnique | site/source/components/utils/useSearchParamsSimulationSharing.ts:81 | `Object.fromEntries` of pairs without repeated keys is those pairs |
| Strings.Split | site/vite.config.ts:241 | `split` gives at least one piece, none containing the separator |
| Strings.SplitJoin | site/source/components/search/SimulatorHits.tsx:56-57 | splitting a join of separator-free pieces gives the pieces back |
| Strings.JoinSplit | site/source/components/search/SimulatorHits.tsx:56-57 | joining the pieces of a split gives the string back |
| Strings.LastPieceIsSuffix | site/vite.config.ts:264-265 | the last piece of a split is a separator-free suffix, preceded by the separator when shorter than the string |
| Strings.LastPieceAfterSeparator | site/vite.config.ts:241 | the last piece of `a + c + b` with `c` not in `b` is `b` |
| SearchParams.LexLessTotal | site/source/components/utils/useSearchParamsSimulationSharing.ts:124 | the name order of `sort()` is total |
| SearchParams.LexLessTransitive | site/source/components/utils/useSearchParamsSimulationSharing.ts:124 | the name order of `sort()` is transitive |
| SearchParams.CodeUnitsOf | site/source/components/utils/useSearchParamsSimulationSharing.ts:124 | a character is one code unit below U+10000 (never a surrogate), else a high and a low surrogate that give the character back |
| SearchParams.CodeUnitsInjective | site/source/components/utils/useSearchParamsSimulationSharing.ts:124 | two strings with the same UTF-16 code units are equal, so comparing code units orders strings totally |
| SearchParams.AstralBeforeHighBmp | site/source/components/utils/useSearchParamsSimulationSharing.ts:124 | U+1F600 sorts before U+FF5E, as its surrogates D83D DE00 come before FF5E |
| SearchParams.GetParam | site/source/components/utils/useSearchParamsSimulationSharing.ts:144 | `get` finds nothing exactly when no pair has the name |
| SearchParams.DeleteParam | site/source/components/utils/useSearchParamsSimulationSharing.ts:83 | `delete` removes exactly the pairs of that name |
| SearchParams.SetParamEffect | site/source/components/utils/useSearchParamsSimulationSharing.ts:115 | after `set`, the pairs of the name are exactly one, carrying the new value; deleting the name from the result or from the input gives the same list, so the other pairs keep their order |
| SearchParams.SetParamGet | site/source/components/utils/useSearchParamsSimulationSharing.ts:115 | after `set`, `get` of that name gives the value and `get` of any other name is unchanged |
| SearchParams.DeleteParamGet | site/source/components/utils/useSearchParamsSimulationSharing.ts:83 | after `delete`, `get` of that name gives nothing and other names are unchanged |
| SearchParams.DeleteParamUnique | site/source/components/utils/useSearchParamsSimulationSharing.ts:83 | `delete` keeps names unique and leaves no pair of the deleted name |
| SearchParams.GetParamFirstWithName | site/source/components/utils/useSearchParamsSimulationSharing.ts:144 | `get` gives the value of the first pair of the name |
| SearchParams.SetParamUnique | site/source/components/utils/useSearchParamsSimulationSharing.ts:115 | `set` keeps names unique |
| SearchParams.SortParams | site/source/components/utils/useSearchParamsSimulationSharing.ts:124 | `sort()` permutes the pairs |
| SearchParams.SortParamsSorted | site/source/components/utils/useSearchParamsSimulationSharing.ts:124 | `sort()` orders the pairs by name |
| SearchParams.SortParamsStable | site/source/components/utils/useSearchParamsSimulationSharing.ts:124 | `sort()` is stable: the pairs of one name keep their order |
| SearchParams.SortParamsOfSorted | site/source/components/utils/useSearchParamsSimulationSharing.ts:124 | sorting a sorted list changes nothing |
| SearchParams.SortParamsGet | site/source/components/utils/useSearchParamsSimulationSharing.ts:124 | sorting changes no `get` result |
| SearchParams.SortParamsUnique | site/source/components/utils/useSearchParamsSimulationSharing.ts:124 | sorting keeps names unique |
| SearchParams.GetParamUnique | site/source/components/utils/useSearchParamsSimulationSharing.ts:144-146 | with unique names, `get` gives a value exactly when that pair is in the list |
| SearchParams.SortedUniqueDetermined | site/source/components/utils/useSearchParamsSimulationSharing.ts:124 | two sorted lists with unique names that agree on every `get` are equal |
| SearchParams.UrlSearchParams.Set | site/source/components/utils/useSearchParamsSimulationSharing.ts:115 | the in-place `set` leaves the list that `set` specifies |
| SearchParams.UrlSearchParams.constructor | site/source/components/utils/useSearchParamsSimulationSharing.ts:106 | the parameters start as the given pairs, in order (none for `new URLSearchParams()`) |
| SearchParams.UrlSearchParams.Delete | site/source/components/utils/useSearchParamsSimulationSharing.ts:83 | the in-place `delete` leaves the list that `delete` specifies |
| SearchParams.UrlSearchParams.Sort | site/source/components/utils/useSearchParamsSimulationSharing.ts:124 | the in-place `sort()` leaves the sorted list |
| SimulationSharing.RulesParamNames | site/source/components/utils/useSearchParamsSimulationSharing.ts:88-99 | one pair per rule, in rule order; the parameter name is the short identifier when non-empty, else the dotted name |
| SimulationSharing.GetSearchParamsFromSituation | site/source/components/utils/useSearchParamsSimulationSharing.ts:101-127 | the loop of `set`s followed by `sort()` yields the encoding of the situation |
| SimulationSharing.EncodeSortedUnique | site/source/components/utils/useSearchParamsSimulationSharing.ts:109-126 | the encoded parameters are sorted by name and hold each name at most once |
| SimulationSharing.EncodeGet | site/source/components/utils/useSearchParamsSimulationSharing.ts:109-124 | under a parameter name, the output holds the text of the last entry writing that name, or nothing |
| SimulationSharing.EncodeGetDistinct | site/source/components/utils/useSearchParamsSimulationSharing.ts:109-124 | with distinct parameter names, each entry's text is held under its own name |
| SimulationSharing.EncodeOrderIndependent | site/source/components/utils/useSearchParamsSimulationSharing.ts:109-124 | with distinct parameter names, the order of the situation's entries does not change the output |
| SimulationSharing.GetSituationFromSearchParams | site/source/components/utils/useSearchParamsSimulationSharing.ts:129-162 | the `forEach` over the parameters builds the decoded situation |
| SimulationSharing.DecodeHas | site/source/components/utils/useSearchParamsSimulationSharing.ts:144-146 | a dotted name is decoded exactly when some parameter names it |
| SimulationSharing.DecodeLastOccurrence | site/source/components/utils/useSearchParamsSimulationSharing.ts:144-157 | a dotted name's value comes from the last parameter naming it |
| SimulationSharing.DecodeIgnoresUnknown | site/source/components/utils/useSearchParamsSimulationSharing.ts:145 | an unknown parameter changes nothing, wherever it stands |
| SimulationSharing.DecodeUnique | site/source/components/utils/useSearchParamsSimulationSharing.ts:133-161 | the decoded situation holds each dotted name once |
| SimulationSharing.DecodeObjectText | site/source/components/utils/useSearchParamsSimulationSharing.ts:148-152 | the JSON text of an object without repeated keys at any depth decodes back to the object |
| SimulationSharing.InvertLastWriter | site/source/components/utils/useSearchParamsSimulationSharing.ts:136-142 | the inverted table maps a parameter name to the dotted name of the last pair carrying it |
| SimulationSharing.InvertMissing | site/source/components/utils/useSearchParamsSimulationSharing.ts:136-142 | a parameter name is missing from the inverted table exactly when no pair carries it |
| SimulationSharing.InvertInjective | site/source/components/utils/useSearchParamsSimulationSharing.ts:136-142 | in a collision-free table, the inverted table gives a pair's dotted name only under that pair's parameter name |
| SimulationSharing.TableLookup | site/source/components/utils/useSearchParamsSimulationSharing.ts:107-110 | in a collision-free table, each pair is found in both directions |
| SimulationSharing.ValidTableDistinct | site/source/components/utils/useSearchParamsSimulationSharing.ts:107-110 | a collision-free table gives distinct parameter names to distinct dotted names |
| SimulationSharing.DecodeTableName | site/source/components/utils/useSearchParamsSimulationSharing.ts:143-157 | with unique parameter names, a table pair's dotted name decodes from the value of its parameter, and is absent when that parameter is |
| SimulationSharing.RoundTrip | site/source/components/utils/useSearchParamsSimulationSharing.ts:101-162 | decoding the encoding of a situation restores each entry as its serialised text, its JSON text parsed back, or not at all |
| SimulationSharing.RoundTripObject | site/source/components/utils/useSearchParamsSimulationSharing.ts:114-118 | an object the engine cannot serialise (with no repeated keys, as every JavaScript object) comes back whole |
| SimulationSharing.RoundTripNoExtra | site/source/components/utils/useSearchParamsSimulationSharing.ts:101-162 | nothing outside the situation is restored |
| SimulationSharing.CleanParamsWithout | site/source/components/utils/useSearchParamsSimulationSharing.ts:75-84 | the clean-up removes exactly the parameters of the given dotted names and keeps the rest in order |
| SimulationSharing.CleanParamsIdempotent | site/source/components/utils/useSearchParamsSimulationSharing.ts:75-84 | cleaning twice equals cleaning once |
| SimulationSharing.WithoutIdempotent | site/source/components/utils/useSearchParamsSimulationSharing.ts:75-84 | removing the same names twice removes them once |
| SimulationSharing.DecodeAllUnknown | site/source/components/utils/useSearchParamsSimulationSharing.ts:145 | parameters that name no rule decode to an empty situation |
| SimulationSharing.KnownIsDeleted | site/source/components/utils/useSearchParamsSimulationSharing.ts:45-50 | every parameter naming a rule is among those the clean-up deletes for the decoded situation |
| SimulationSharing.CleanedDecodesEmpty | site/source/components/utils/useSearchParamsSimulationSharing.ts:45-50 | after the clean-up of every decoded dotted name, the URL decodes to an empty situation |
| SimulationSharing.CleanSearchParams | site/source/components/utils/useSearchParamsSimulationSharing.ts:75-86 | the parameters are cleaned in place, and the current history entry is replaced by the result |
| SimulationSharing.Navigation.Replace | site/source/components/utils/useSearchParamsSimulationSharing.ts:85 | `{ replace: true }` replaces the current history entry and keeps the earlier ones |
| SimulationSharing.Navigation.constructor | site/source/components/utils/useSearchParamsSimulationSharing.ts:85 | the history starts with the current parameters |
| SimulationSharing.FirstObjective | site/source/components/utils/useSearchParamsSimulationSharing.ts:38-40 | the first decoded dotted name that is an objective, or none when no name is one |
| SimulationSharing.LoadActions | site/source/components/utils/useSearchParamsSimulationSharing.ts:34-43 | the situation is dispatched iff it is non-empty; the active target is dispatched iff the first objective exists and is non-empty |
| SimulationSharing.SharingHook.constructor | site/source/components/utils/useSearchParamsSimulationSharing.ts:16 | the flag starts down, and nothing has been dispatched |
| SimulationSharing.SharingHook.OnLoad | site/source/components/utils/useSearchParamsSimulationSharing.ts:27-55 | the first run decodes, dispatches, cleans the URL and raises the flag; once the flag is up, nothing changes |
| SimulationSharing.SharingHook.OnUnmount | site/source/components/utils/useSearchParamsSimulationSharing.ts:58-62 | the cleanup lowers the flag |
| SitePaths.ConstructSameShape | site/source/sitePaths.ts:279-294 | the absolute table has the keys of the raw one, in order, at every level |
| SitePaths.ConstructUnderRoot | site/source/sitePaths.ts:279-294 | every absolute path is non-empty and starts with the root it was built under |
| SitePaths.ConstructEntry | site/source/sitePaths.ts:283-291 | an index leaf becomes root + value (or "/" when empty); another leaf becomes root + index + "/" + value; a sub-table is built under root + index + "/" |
| SitePaths.ConstructLeaf | site/source/sitePaths.ts:290 | a leaf under a key other than `index` becomes root + index + "/" + value |
| SitePaths.TopIndexIsSlash | site/source/sitePaths.ts:290 | an empty top-level index becomes "/" |
| SitePaths.ParameterRouteMarked | site/source/sitePaths.ts:290 | a leaf whose value starts with ':' gets a path containing "/:" |
| SitePaths.EncodeRelativeIdentity | site/source/sitePaths.ts:222-232 | the relative table is a copy of its input |
| SitePaths.DeepReduceIsFold | site/source/sitePaths.ts:298-309 | `deepReduce` is the left fold of its step over the leaves, depth first, in key order |
| SitePaths.SiteMapIsRoutable | site/source/sitePaths.ts:313-319 | the sitemap lists every leaf path without a "/:" segment, in order |
| SitePaths.SiteMapOmitsParameters | site/source/sitePaths.ts:316 | no path holding "/:" is in a sitemap |
| SitePaths.OverridesKeepIndex | site/source/sitePaths.ts:105-106 | the English table does not override the French index |
| SitePaths.OverridesKeys | site/source/sitePaths.ts:105-185 | the English table writes over eight French entries, in the order listed |
| SitePaths.BothIndexesAreSlash | site/source/sitePaths.ts:239-242 | the absolute index of both language tables is "/" |
| SitePaths.AssistantsBuilt | site/source/sitePaths.ts:21-24 | the French `assistants` table is built under "/", and its `pour-mon-entreprise` table under "/assistants/" |
| SitePaths.EntrepriseRouteBuilt | site/source/sitePaths.ts:35-37 | the `:entreprise` route becomes "/assistants/pour-mon-entreprise/:entreprise" |
| SitePaths.EntrepriseRouteMarked | site/source/sitePaths.ts:37 | that path holds a parameter segment, so no sitemap lists it |
| ViteConfig.CleanString | site/vite.config.ts:287-289 | a string starting with the tag loses it once; any other string is kept |
| ViteConfig.CleanNotIdempotent | site/vite.config.ts:288 | one tag goes per call: a doubly tagged string needs two calls |
| ViteConfig.CleanArray | site/vite.config.ts:291-293 | arrays keep their length and order, each element cleaned |
| ViteConfig.CleanObject | site/vite.config.ts:295-299 | objects keep their keys in order, each value cleaned |
| ViteConfig.CleanScalar | site/vite.config.ts:301 | null, booleans and numbers are unchanged |
| ViteConfig.CleanAddTag | site/vite.config.ts:286-302 | cleaning a document with a tag before every string gives the document back |
| ViteConfig.YamlTransform | site/vite.config.ts:62-65 | only `/rules-en.yaml` files are cleaned |
| ViteConfig.GetBranchIsLastSegment | site/vite.config.ts:262-272 | the branch is the head ref, or the ref's slash-free last segment |
| ViteConfig.GetBranchOfRef | site/vite.config.ts:263-265 | a ref `prefix/name`, with `name` other than "merge", names branch `name` |
| ViteConfig.GetBranchOfMergeRef | site/vite.config.ts:267-271 | a ref ending in "/merge" names the head branch, or "" when that is unset |
| ViteConfig.BuildDefines | site/vite.config.ts:38-41 | staging and production never both hold; production iff production mode on master or next; development iff development mode |
| ViteConfig.MasterIsProduction | site/vite.config.ts:282-284 | a production build of `refs/heads/master` is the production site |
| ViteConfig.ResolveId | site/vite.config.ts:240-247 | an id resolves iff its last segment starts with `virtual:`, and then to the rest of that segment |
| ViteConfig.BuildInputs | site/vite.config.ts:228-233 | the build inputs are the sites in order, each with the id `virtual:<name>.html` |
| ViteConfig.ResolveVirtualId | site/vite.config.ts:231-243 | the id handed out for a site, `virtual:<name>.html`, resolves to `<name>.html` |
| ViteConfig.ResolvePrefixedVirtualId | site/vite.config.ts:240-243 | the same id behind a directory prefix resolves to `<name>.html` too |
| ViteConfig.Load | site/vite.config.ts:249-254 | `load` serves an id iff it ends with some site's `<name>.html`, and then names the template of the id without `.html` |
| ViteConfig.BuildInputLoads | site/vite.config.ts:228-254 | each build input resolves to `<name>.html`, which `load` serves from the template named after the site |
| ViteConfig.ResolveOrdinaryId | site/vite.config.ts:246 | any other id is left to other resolvers |
| BuildRules.PathJoin | scripts/build-rules.js:17 | the joined path ends with the file name |
| BuildRules.FindInEntry | scripts/build-rules.js:13-25 | every path found ends with ".yaml" |
| BuildRules.FindInDir | scripts/build-rules.js:18-24 | every path listed in a directory ends with ".yaml" |
| BuildRules.FindYamlIsFilter | scripts/build-rules.js:13-25 | the search lists exactly the ".yaml" files of the tree, depth first, in directory order |
| BuildRules.FirstDefined | scripts/build-rules.js:32-34 | the first name of the new file that is already defined (own or inherited key), or none when there is none |
| BuildRules.ReadRules | scripts/build-rules.js:27-42 | the fold of `Object.assign` over the files yields the merge as written |
| BuildRules.ReadRulesStopsAtError | scripts/build-rules.js:35-39 | once a file throws, later files do not change the outcome |
| BuildRules.ReadRulesCheckedOk | scripts/build-rules.js:27-42 | the merge succeeds iff no file redefines a rule, and then holds every rule of every file, in order |
| BuildRules.ReadRulesCheckedGet | scripts/build-rules.js:40 | each rule of the merge has the value from its file |
| BuildRules.ReadRulesCheckedErr | scripts/build-rules.js:35-39 | a failed merge names the first redefined rule of the first file that redefines one, and that file |
| BuildRules.AsWrittenAgrees | scripts/build-rules.js:32-35 | without an empty rule name, the merge as written equals the checked merge |
| BuildRules.EmptyNameHidesDuplicate | scripts/build-rules.js:35 | as written, two files that both define "" and `x` merge without error |
| BuildRules.AsWrittenAgreesOnSuccess | scripts/build-rules.js:27-42 | wherever the checked merge succeeds, the script as written merges the same rules |
| BuildRules.WriteNamesTsLists | scripts/build-rules.js:46-54 | without redefinitions, `names.ts` lists every rule of every file, in order |
| BuildRules.EmptyNameNamesTs | scripts/build-rules.js:35-53 | as written, two files that both define "" and `x` give a `names.ts` listing "" and `x` |
| BuildRules.NamesTsRoundTrip | scripts/build-rules.js:53 | names without line breaks read back from the `names.ts` text |
| SimulatorHits.Step | site/source/components/search/SimulatorHits.tsx:59-61 | a step finds the value of the key when it is present and truthy, gives null when the key is missing or its value empty (and keeps null), and throws exactly on a non-empty string or after a throw |
| SimulatorHits.NotFoundStays | site/source/components/search/SimulatorHits.tsx:58-62 | once the walk gives null it stays null |
| SimulatorHits.WalkDescends | site/source/components/search/SimulatorHits.tsx:55-63 | through tables, the walk finds the nested value, or null when a key is missing or its value is empty |
| SimulatorHits.GetPathOfKeys | site/source/components/search/SimulatorHits.tsx:55-63 | a path id made of dot-free keys joined by "." finds the nested value |
| SimulatorHits.WalkPastLeafThrows | site/source/components/search/SimulatorHits.tsx:60 | walking on past a non-empty string throws |
| SimulatorHits.CardPath | site/source/components/search/SimulatorHits.tsx:77 | the card links to the found value, or to "/" when the walk gives null |
| SimulatorHits.Render | site/source/components/search/SimulatorHits.tsx:67-71 | the heading is shown iff there is at least one hit |
| SimulatorHits.ShownMembers | site/source/components/search/SimulatorHits.tsx:75 | the hits that get a card are exactly those with a non-empty path id |
| SimulatorHits.RenderCardsFilters | site/source/components/search/SimulatorHits.tsx:73-80 | the cards rendered are those of the hits with a non-empty path id, in order |
| SimulatorHits.CardsForAll | site/source/components/search/SimulatorHits.tsx:76-78 | when no walk throws, every hit gets one card keyed by its id and linking to its path or "/" |
| SimulatorHits.RenderCardsShown | site/source/components/search/SimulatorHits.tsx:73-80 | when no walk throws, each shown hit gets one card, in order, keyed by its id and linking to its path |
| SimulatorHits.RenderThrows | site/source/components/search/SimulatorHits.tsx:77 | a shown hit whose walk throws stops the rendering |
| GuideStatut.FindQuestion | site/source/pages/assistants/choix-du-statut/GuideStatut/index.tsx:33-35 | the first question whose page is the current pathname, or none when no question's page is |
| GuideStatut.CurrentQuestion | site/source/pages/assistants/choix-du-statut/GuideStatut/index.tsx:33-38 | the key of the first entry whose page is the pathname, or none when that key is empty or no entry has that page |
| GuideStatut.FirstIndex | site/source/pages/assistants/choix-du-statut/GuideStatut/index.tsx:40-42 | the first position of the answer, or none when it was not given |
| GuideStatut.NoResetOffGuide | site/source/pages/assistants/choix-du-statut/GuideStatut/index.tsx:36-38 | off the guide's pages, nothing is reset |
| GuideStatut.NoResetUnanswered | site/source/pages/assistants/choix-du-statut/GuideStatut/index.tsx:44 | an unanswered question resets nothing |
| GuideStatut.ResetIsSuffix | site/source/pages/assistants/choix-du-statut/GuideStatut/index.tsx:40-49 | the reset list starts at the current question; the answers before it are kept and none of them is that question |
| GuideStatut.ResetSplitUnique | site/source/pages/assistants/choix-du-statut/GuideStatut/index.tsx:40-49 | the reset goes back exactly to the first answer to the current question |
| Paging.PageCount | mon-entreprise/source/pages/Stats/DemandesUtilisateurs.tsx:50 | the button count is the ceiling of n/10: zero iff no items, and the smallest count whose pages hold all items |
| Paging.PageItems | mon-entreprise/source/pages/Stats/DemandesUtilisateurs.tsx:44-46 | page p is items 10p to 10p+9, clipped to the list |
| Paging.PagesNonEmpty | mon-entreprise/source/pages/Stats/DemandesUtilisateurs.tsx:44-50 | every page that has a button shows one to ten items |
| Paging.PastLastPageEmpty | mon-entreprise/source/pages/Stats/DemandesUtilisateurs.tsx:44-50 | a page without a button shows nothing |
| Paging.AllPagesGiveItems | mon-entreprise/source/pages/Stats/DemandesUtilisateurs.tsx:44-50 | the pages in button order give back the whole list |
| Paging.PagerButtons | mon-entreprise/source/pages/Stats/DemandesUtilisateurs.tsx:50-59 | one button per page, labelled from 1 |
| Paging.OnlyCurrentMarked | mon-entreprise/source/pages/Stats/DemandesUtilisateurs.tsx:54 | at most one button is marked, and it is the current page's |
| Paging.NoItemsNoButtons | mon-entreprise/source/pages/Stats/DemandesUtilisateurs.tsx:50 | with no items there is no button |
| Paging.Pagination.constructor | mon-entreprise/source/pages/Stats/DemandesUtilisateurs.tsx:40 | the current page starts at 0 |
| Paging.Pagination.Press | mon-entreprise/source/pages/Stats/DemandesUtilisateurs.tsx:53 | pressing button i makes page i current |
| Paging.Pagination.Displayed | mon-entreprise/source/pages/Stats/DemandesUtilisateurs.tsx:44-46 | the current page holds at most ten items, and is empty only when there are no items |
| Paging.Pagination.Buttons | site/source/pages/statistiques/DemandesUtilisateurs.tsx:103-109 | one button per page; a button is marked (bold, or aria-selected and aria-current) iff it is the current page's |
| Paging.ShowIssue | mon-entreprise/source/pages/Stats/DemandesUtilisateurs.tsx:79-87 | the counter shows iff the count exceeds 1; the resolution date shows iff `closedAt` is a non-empty text |
| Paging.ShowSingleOpenIssue | mon-entreprise/source/pages/Stats/DemandesUtilisateurs.tsx:79-87 | an open request asked for once shows only its title and number |
| Paging.ItemsOrEmpty | site/source/pages/statistiques/DemandesUtilisateurs.tsx:37-40 | before the statistics load, the list is empty |
| Paging.NoStatsNoButtons | site/source/pages/statistiques/DemandesUtilisateurs.tsx:103 | before the statistics load, there is no button |
| Paging.SiteDisplayedAsWritten | site/source/pages/statistiques/DemandesUtilisateurs.tsx:62-100 | as written, page 0 shows the five written-in requests and any other page nothing, whatever the items |
| Paging.SiteSecondPageEmpty | site/source/pages/statistiques/DemandesUtilisateurs.tsx:62-103 | as written, with more than ten items the second button exists but shows an empty page |
| Paging.SiteFirstPageIgnoresItems | site/source/pages/statistiques/DemandesUtilisateurs.tsx:62-97 | as written, the first page shows the five written-in requests whatever the items are |
| Paging.SiteDisplayed | site/source/pages/statistiques/DemandesUtilisateurs.tsx:37-40 | intended: the current page of the given requests, with at most ten of them, empty only when there are none |
| Paging.SiteDisplayedCoversItems | site/source/pages/statistiques/DemandesUtilisateurs.tsx:37-40 | intended: every button's page is non-empty, and the pages show every request in order |
| ApiStats.QueryPairs | site/scripts/fetch-api-stats.js:7-14 | the six parameters in declared order, without repeats |
| ApiStats.RequestUrl | site/scripts/fetch-api-stats.js:5-6 | the request URL starts with the Plausible endpoint |
| ApiStats.PiecesRoundTrip | site/scripts/fetch-api-stats.js:15-16 | each encoded `key=value` piece parses back into its pair |
| ApiStats.QueryRoundTrip | site/scripts/fetch-api-stats.js:15-16 | with an encoder that escapes '&' and '=', the query string parses back into its pairs, in order |
| ApiStats.RequestParameters | site/scripts/fetch-api-stats.js:5-16 | the request URL carries the declared parameters in order; `date` is start + "," + end, `filters` names the page, and `interval` is passed through |
| ApiStats.Rows | site/scripts/fetch-api-stats.js:28-39 | one row per point of the three series, each named evaluate, rules or rule |
| ApiStats.SeriesRows | site/scripts/fetch-api-stats.js:37-39 | one row per point of a series, carrying its date, the series name and the page views |
| ApiStats.Record | site/scripts/fetch-api-stats.js:38 | a row's record has unique keys and carries the row's date |
| ApiStats.MergeByDate | site/scripts/fetch-api-stats.js:40-49 | the loop's records are the values of the fold by date |
| ApiStats.OneRecordPerDate | site/scripts/fetch-api-stats.js:40-48 | exactly one record per distinct date |
| ApiStats.MergeKeys | site/scripts/fetch-api-stats.js:40-48 | records come in the order of each date's first row |
| ApiStats.MergeFields | site/scripts/fetch-api-stats.js:41-45 | each field of a date's record holds the value of the last row of that date carrying it, so a later row wins a clash; a date without a record has no row carrying the field (one record per date is `OneRecordPerDate`) |
| ApiStats.RecordDate | site/scripts/fetch-api-stats.js:38-44 | each record carries its own date |

## Left out

- The engine's evaluation and serialisation are a function parameter. `JSON.stringify`/`JSON.parse` are a pair of functions. The law relied on is a hypothesis (`Json.Lawful`), because JSON text is not modelled. The law is stated for objects without repeated keys at any depth (`Json.WellFormed`), the only ones a program holds.
- JSON numbers are modelled as integers (`Json.Number(n: int)`): fractional and floating-point values are not modelled. Numbers only pass through the code modelled here, and none of it computes with them.
- Percent-encoding is not modelled. `URLSearchParams.toString()` and the router's query parsing are taken as each other's inverse, so parameters stay as pairs.
- `console.error` logging is left out, and so are the React hooks' scheduling and the Redux store. The store actions are a list of dispatched values.
- JavaScript's ordering of integer-like keys before other keys is not modelled. All objects keep insertion order. The rule names, route keys and dates of this code are not integer-like.
- Inherited properties are not modelled, except in the duplicate test of `readRules` (`ruleName in rules`), which lists the names of `Object.prototype`:
  - `getPath` assumes path ids name own keys of the table;
  - the statistics accumulator assumes dates are not `Object.prototype` names.
- `path.join` normalisation (`..`, repeated '/') is not modelled. `PathJoin` joins with one '/'.
- File reads, `fs.statSync`, `mkdirSync` and `writeFileSync` are left out. The directory tree and the parsed YAML are inputs.
- A YAML file that parses to nothing (`Object.keys(undefined)` throws) is not modelled.
- The `index.js` text (`JSON.stringify(rules, null, 2)`) is not modelled.
- `alternateLinks` is left out: it reads environment variables and `window`, and `encodeURI` is not modelled. Its sitemap is `generateSiteMap`, which is modelled.
- The type-level machinery of `sitePaths.ts` (`SitePathBuilt`, `PathToType`, `satisfies`) only checks types, and is not modelled.
- The rest of `vite.config.ts` is left out: plugin wiring, the dev-server middleware and HTML templates. `fillTemplate` (reading and filling the page template) is not modelled: `ViteConfig.Load` gives the template name it is called with.
- `getBranch` and `isProductionBranch` are taken over the environment values passed in; reading `.env` files is not modelled.
- `fetch`, the `Authorization` header, `Promise.all` and `result.json()` are left out. The three series are inputs.
- `formatMonth` (locale date formatting), styles and the markup of the cards and lists are left out.
- Paging.Pagination: the items are fixed for the lifetime of a paginator; a re-render with a new `items` prop (which keeps the current page in React) is not modelled.
- ApiStats.MergeFields: stated for rows whose series name is one of the three names (as the script builds them); a row named "date" would overwrite the date field.
- ApiStats.QueryRoundTrip: the round trip is stated for an encoder assumed to escape '&' and '=' and to have an inverse, as `encodeURIComponent` does; the encoder itself is not modelled.

## Findings

| source | as written | input that shows it | evidently intended | confidence | as-written member | corrected member |
|---|---|---|---|---|---|---|
| scripts/build-rules.js:35 | `if (duplicatedRule)` tests the found rule name for truthiness, so a redefined rule named "" is not reported; since `find` stops at that name, a later redefinition in the same file is hidden too | two files that both define "" and `x`: the merge succeeds, the second file overrides both rules, and `names.ts` lists both (`BuildRules.EmptyNameNamesTs`) | any redefined rule throws, as the error message says | not executed | BuildRules.EmptyNameHidesDuplicate | BuildRules.ReadRulesCheckedOk |
| site/source/pages/statistiques/DemandesUtilisateurs.tsx:62-97 | the list shown is a literal of five requests, sliced by page; the `items` prop only sets the number of buttons | eleven or more items: page 0 shows the five written-in requests, and button 2 shows an empty page | each page shows its slice of `items`, as the older site's paginator does | not executed | Paging.SiteSecondPageEmpty | Paging.SiteDisplayedCoversItems |
