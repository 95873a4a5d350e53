// The search results of the simulators: each hit names its simulator by a dotted
// path into the table of absolute site paths, which `getPath` walks segment by
// segment; a path that is not found falls back to "/".
// Properties an object inherits (`'toString' in obj`) are left out: path ids
// name keys of the table.
module SimulatorHits {
  import opened Wrappers
  import opened Strings
  import opened JsObject
  import opened SitePaths

  /** What `getPath` gives: a value of the table, `null`, or the TypeError of
      `curr in acc` on a string. */
  datatype Lookup = Found(route: Route) | NotFound | Throws

  /** A value is truthy unless it is the empty string. */
  predicate Truthy(r: Route) {
    r.Table? || r.path != ""
  }

  /** One step of the reduce: `(acc && curr in acc && acc[curr]) || null`. */
  function Step(acc: Lookup, curr: string): (r: Lookup)
    ensures acc.NotFound? ==> r.NotFound?
    ensures acc.Throws? ==> r.Throws?
    ensures r.Found? ==> acc.Found? && acc.route.Table? && Truthy(r.route) &&
                         Get(acc.route.entries, curr) == Some(r.route)
    ensures r.Throws? <==> acc.Throws? || (acc.Found? && acc.route.Leaf? && acc.route.path != "")
    ensures acc.Found? && acc.route.Table? && Get(acc.route.entries, curr).Some? &&
            Truthy(Get(acc.route.entries, curr).value) ==>
              r == Found(Get(acc.route.entries, curr).value)
    ensures acc.Found? && acc.route.Table? &&
            (Get(acc.route.entries, curr).None? || !Truthy(Get(acc.route.entries, curr).value)) ==>
              r.NotFound?
  {
    match acc
    case Throws => Throws
    case NotFound => NotFound
    case Found(Leaf(s)) => if s == "" then NotFound else Throws
    case Found(Table(e)) =>
      match Get(e, curr)
      case Some(v) => if Truthy(v) then Found(v) else NotFound
      case None => NotFound
  }

  /** The reduce over the segments, from the left. */
  function Walk(acc: Lookup, segments: seq<string>): Lookup
    decreases |segments|
  {
    if segments == [] then acc else Walk(Step(acc, segments[0]), segments[1..])
  }

  /** `getPath(hit)`: `pathId.split('.')` reduced from the table of absolute paths. */
  function GetPath(absoluteSitePaths: Route, pathId: string): Lookup {
    Walk(Found(absoluteSitePaths), Split(pathId, '.'))
  }

  /** Once a step has given `null`, the accumulator stays `null` to the end. */
  lemma {:induction false} NotFoundStays(segments: seq<string>)
    ensures Walk(NotFound, segments) == NotFound
    decreases |segments|
  {
    if segments != [] {
      NotFoundStays(segments[1..]);
    }
  }

  /** Once the walk has thrown, it has thrown. */
  lemma {:induction false} ThrowsStays(segments: seq<string>)
    ensures Walk(Throws, segments) == Throws
    decreases |segments|
  {
    if segments != [] {
      ThrowsStays(segments[1..]);
    }
  }

  /** The value reached by following the keys one by one, each present and truthy;
      the reference `getPath` is measured against. */
  function Descend(r: Route, keys: seq<string>): Option<Route>
    decreases |keys|
  {
    if keys == [] then Some(r)
    else if !r.Table? then None
    else
      match Get(r.entries, keys[0])
      case Some(v) => if Truthy(v) then Descend(v, keys[1..]) else None
      case None => None
  }

  /** Every step lands on a table, except possibly the last. */
  predicate ThroughTables(r: Route, keys: seq<string>)
    decreases |keys|
  {
    keys == [] ||
    (r.Table? &&
     match Get(r.entries, keys[0])
     case Some(v) => Truthy(v) ==> ThroughTables(v, keys[1..])
     case None => true)
  }

  /** Walking along keys that never step into a string leaf gives the nested value,
      or null when a key is missing or its value is empty. */
  lemma {:induction false} WalkDescends(r: Route, keys: seq<string>)
    requires ThroughTables(r, keys)
    ensures Walk(Found(r), keys) == match Descend(r, keys) case Some(v) => Found(v) case None => NotFound
    decreases |keys|
  {
    if keys != [] {
      match Get(r.entries, keys[0])
      case Some(v) =>
        if Truthy(v) {
          WalkDescends(v, keys[1..]);
        } else {
          NotFoundStays(keys[1..]);
        }
      case None =>
        NotFoundStays(keys[1..]);
    }
  }

  /** A path id written as the keys joined with '.' finds the nested value. */
  lemma GetPathOfKeys(absoluteSitePaths: Route, keys: seq<string>)
    requires |keys| >= 1 && forall i :: 0 <= i < |keys| ==> '.' !in keys[i]
    requires ThroughTables(absoluteSitePaths, keys)
    ensures GetPath(absoluteSitePaths, Join(keys, ".")) ==
            match Descend(absoluteSitePaths, keys) case Some(v) => Found(v) case None => NotFound
  {
    SplitJoin(keys, '.');
    WalkDescends(absoluteSitePaths, keys);
  }

  /** Walking on past a non-empty string leaf throws. */
  lemma {:induction false} WalkPastLeafThrows(s: string, keys: seq<string>)
    requires s != "" && keys != []
    ensures Walk(Found(Leaf(s)), keys) == Throws
  {
    ThrowsStays(keys[1..]);
  }

  /** `getPath(hit) ?? '/'`: the value found, or "/" when the walk gives null. */
  function CardPath(absoluteSitePaths: Route, pathId: string): (r: Option<Route>)
    ensures r.None? <==> GetPath(absoluteSitePaths, pathId).Throws?
    ensures GetPath(absoluteSitePaths, pathId).NotFound? ==> r == Some(Leaf("/"))
    ensures GetPath(absoluteSitePaths, pathId).Found? ==> r == Some(GetPath(absoluteSitePaths, pathId).route)
  {
    match GetPath(absoluteSitePaths, pathId)
    case Found(v) => Some(v)
    case NotFound => Some(Leaf("/"))
    case Throws => None
  }

  /** A search hit. */
  datatype Hit = Hit(objectID: string, pathId: string)

  /** One rendered card: its key and the path it links to. */
  datatype Card = Card(key: string, path: Route)

  /** What the component renders: the heading or not, then the cards. */
  datatype View = View(heading: bool, cards: seq<Card>)

  /** The hits that get a card: those with a non-empty path id. */
  function Shown(hits: seq<Hit>): seq<Hit>
    decreases |hits|
  {
    if hits == [] then []
    else (if hits[0].pathId != "" then [hits[0]] else []) + Shown(hits[1..])
  }

  /** The shown hits are exactly the hits with a non-empty path id. */
  lemma {:induction false} ShownMembers(hits: seq<Hit>, h: Hit)
    ensures h in Shown(hits) <==> h in hits && h.pathId != ""
    decreases |hits|
  {
    if hits != [] {
      ShownMembers(hits[1..], h);
      assert hits == [hits[0]] + hits[1..];
    }
  }

  /** `hits.map((hit) => hit.pathId && <card>)`; None when a `getPath` throws. */
  function RenderCards(absoluteSitePaths: Route, hits: seq<Hit>): Option<seq<Card>>
    decreases |hits|
  {
    if hits == [] then Some([])
    else
      var rest := RenderCards(absoluteSitePaths, hits[1..]);
      if hits[0].pathId == "" then rest
      else
        match (CardPath(absoluteSitePaths, hits[0].pathId), rest)
        case (Some(p), Some(cards)) => Some([Card(hits[0].objectID, p)] + cards)
        case _ => None
  }

  /** The component: the heading when there is any hit, and the cards. */
  function Render(absoluteSitePaths: Route, hits: seq<Hit>): (r: Option<View>)
    ensures r.Some? ==> (r.value.heading <==> |hits| > 0)
  {
    match RenderCards(absoluteSitePaths, hits)
    case Some(cards) => Some(View(|hits| > 0, cards))
    case None => None
  }

  /** The cards of hits that all get one, in order; None when a walk throws. */
  function CardsFor(absoluteSitePaths: Route, hits: seq<Hit>): Option<seq<Card>>
    decreases |hits|
  {
    if hits == [] then Some([])
    else
      match (CardPath(absoluteSitePaths, hits[0].pathId), CardsFor(absoluteSitePaths, hits[1..]))
      case (Some(p), Some(cards)) => Some([Card(hits[0].objectID, p)] + cards)
      case _ => None
  }

  /** Hits with an empty path id are skipped, the others each get a card. */
  lemma {:induction false} RenderCardsFilters(absoluteSitePaths: Route, hits: seq<Hit>)
    ensures RenderCards(absoluteSitePaths, hits) == CardsFor(absoluteSitePaths, Shown(hits))
    decreases |hits|
  {
    if hits != [] {
      RenderCardsFilters(absoluteSitePaths, hits[1..]);
      if hits[0].pathId != "" {
        assert Shown(hits) == [hits[0]] + Shown(hits[1..]);
        assert Shown(hits)[1..] == Shown(hits[1..]);
      } else {
        assert Shown(hits) == [] + Shown(hits[1..]) == Shown(hits[1..]);
        assert RenderCards(absoluteSitePaths, hits) == RenderCards(absoluteSitePaths, hits[1..]);
      }
    }
  }

  /** When no walk throws, each hit gets its card, in order, keyed by the hit and
      linking to its path or to "/". */
  lemma {:induction false} CardsForAll(absoluteSitePaths: Route, hits: seq<Hit>)
    requires forall i :: 0 <= i < |hits| ==> CardPath(absoluteSitePaths, hits[i].pathId).Some?
    ensures CardsFor(absoluteSitePaths, hits).Some?
    ensures var cards := CardsFor(absoluteSitePaths, hits).value;
            |cards| == |hits| &&
            forall i :: 0 <= i < |cards| ==>
              cards[i].key == hits[i].objectID && Some(cards[i].path) == CardPath(absoluteSitePaths, hits[i].pathId)
    decreases |hits|
  {
    if hits != [] {
      var tail := hits[1..];
      assert forall i :: 0 <= i < |tail| ==> tail[i] == hits[i + 1];
      CardsForAll(absoluteSitePaths, tail);
      assert CardPath(absoluteSitePaths, hits[0].pathId).Some?;
    }
  }

  /** When no walk throws, there is one card per shown hit, in order. */
  lemma RenderCardsShown(absoluteSitePaths: Route, hits: seq<Hit>)
    requires forall i :: 0 <= i < |hits| ==> CardPath(absoluteSitePaths, hits[i].pathId).Some?
    ensures RenderCards(absoluteSitePaths, hits).Some?
    ensures var shown := Shown(hits);
            var cards := RenderCards(absoluteSitePaths, hits).value;
            |cards| == |shown| &&
            forall i :: 0 <= i < |cards| ==>
              cards[i].key == shown[i].objectID && Some(cards[i].path) == CardPath(absoluteSitePaths, shown[i].pathId)
  {
    RenderCardsFilters(absoluteSitePaths, hits);
    var shown := Shown(hits);
    forall i | 0 <= i < |shown| ensures CardPath(absoluteSitePaths, shown[i].pathId).Some? {
      ShownMembers(hits, shown[i]);
    }
    CardsForAll(absoluteSitePaths, shown);
  }

  /** A hit that no walk can serve throws: the component does not render. */
  lemma RenderThrows(absoluteSitePaths: Route, hits: seq<Hit>, i: int)
    requires 0 <= i < |hits| && hits[i].pathId != "" && GetPath(absoluteSitePaths, hits[i].pathId).Throws?
    ensures Render(absoluteSitePaths, hits) == None
  {
    RenderCardsThrows(absoluteSitePaths, hits, i);
  }

  lemma {:induction false} RenderCardsThrows(absoluteSitePaths: Route, hits: seq<Hit>, i: int)
    requires 0 <= i < |hits| && hits[i].pathId != "" && GetPath(absoluteSitePaths, hits[i].pathId).Throws?
    ensures RenderCards(absoluteSitePaths, hits) == None
    decreases |hits|
  {
    if i > 0 {
      assert hits[1..][i - 1] == hits[i];
      RenderCardsThrows(absoluteSitePaths, hits[1..], i - 1);
    }
  }
}
