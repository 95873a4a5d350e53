// Sharing a simulation through the query string of its URL: the parameter name of
// each rule, the encoding of a situation (dotted rule name -> value) into search
// parameters, the decoding back, the removal of the decoded parameters from the
// URL, and the run-once load effect of the hook that ties them together.
module SimulationSharing {
  import opened Wrappers
  import opened Strings
  import opened JsObject
  import opened SearchParams
  import opened Json

  type DottedName = string
  type ParamName = string

  /** `serializeEvaluation(engine.evaluate(value))`: a text, `undefined`, or a throw. */
  datatype Serialization = Serialized(text: string) | Undefined | Throws

  // ---------------------------------------------------------------------------
  // Parameter names

  /** `ruleNode.rawNode['identifiant court'] || dottedName`. */
  function RuleParamName(dottedName: DottedName, shortName: Option<string>): ParamName {
    if shortName.Some? && shortName.value != "" then shortName.value else dottedName
  }

  /** `getRulesParamNames`: one (dotted name, parameter name) pair per parsed rule,
      in rule order; `rules` maps each dotted name to its short identifier. */
  function RulesParamNames(rules: Dict<Option<string>>): (r: seq<(DottedName, ParamName)>)
    ensures |r| == |rules|
    ensures forall i :: 0 <= i < |rules| ==>
              r[i].0 == rules[i].0 &&
              r[i].1 == (if rules[i].1.Some? && rules[i].1.value != "" then rules[i].1.value else rules[i].0)
  {
    seq(|rules|, i requires 0 <= i < |rules| => (rules[i].0, RuleParamName(rules[i].0, rules[i].1)))
  }

  /** An alias table without collisions: dotted names and parameter names are each unique. */
  predicate ValidTable(pairs: seq<(DottedName, ParamName)>) {
    UniqueKeys(pairs) && forall i, j :: 0 <= i < j < |pairs| ==> pairs[i].1 != pairs[j].1
  }

  /** `Object.fromEntries(dottedNameParamName)[dottedName]`, used as a parameter name:
      a missing entry reads as `undefined`, which becomes the name "undefined". */
  function ParamNameOf(mapping: Dict<ParamName>, dottedName: DottedName): ParamName {
    match Get(mapping, dottedName)
    case Some(p) => p
    case None => "undefined"
  }

  /** The reduce that inverts the table: parameter name -> dotted name, a later pair
      overwriting an earlier one with the same parameter name. */
  function InvertParamNames(pairs: seq<(DottedName, ParamName)>): Dict<DottedName>
    decreases |pairs|
  {
    if pairs == [] then []
    else
      var last := pairs[|pairs| - 1];
      Put(InvertParamNames(pairs[..|pairs| - 1]), last.1, last.0)
  }

  // ---------------------------------------------------------------------------
  // Encoding

  /** The text written for one situation value, if any: the engine's serialisation,
      else the JSON text of an object; nothing when the engine throws. */
  function EntryText(engine: Json -> Serialization, codec: JsonCodec, value: Json): Option<string> {
    match engine(value)
    case Serialized(text) => Some(text)
    case Undefined => if value.IsObjectType() then Some(codec.stringify(value)) else None
    case Throws => None
  }

  /** The parameters after the `forEach` over the situation, before `sort()`. */
  function EncodeEntries(engine: Json -> Serialization, codec: JsonCodec, mapping: Dict<ParamName>,
                         situation: Dict<Json>): seq<Pair>
    decreases |situation|
  {
    if situation == [] then []
    else
      var prev := EncodeEntries(engine, codec, mapping, situation[..|situation| - 1]);
      var (dottedName, value) := situation[|situation| - 1];
      match EntryText(engine, codec, value)
      case Some(text) => SetParam(prev, ParamNameOf(mapping, dottedName), text)
      case None => prev
  }

  /** `getSearchParamsFromSituation` as a value. */
  function Encode(engine: Json -> Serialization, codec: JsonCodec, pairs: seq<(DottedName, ParamName)>,
                  situation: Dict<Json>): seq<Pair>
  {
    SortParams(EncodeEntries(engine, codec, FromEntries(pairs), situation))
  }

  /** `getSearchParamsFromSituation`. */
  method GetSearchParamsFromSituation(engine: Json -> Serialization, codec: JsonCodec,
                                      situation: Dict<Json>, pairs: seq<(DottedName, ParamName)>)
    returns (params: UrlSearchParams)
    ensures fresh(params)
    ensures params.list == Encode(engine, codec, pairs, situation)
  {
    params := new UrlSearchParams([]);
    var mapping := FromEntries(pairs);
    var i := 0;
    while i < |situation|
      invariant 0 <= i <= |situation|
      invariant params.list == EncodeEntries(engine, codec, mapping, situation[..i])
    {
      var (dottedName, value) := situation[i];
      var paramName := ParamNameOf(mapping, dottedName);
      assert situation[..i + 1][..i] == situation[..i];
      match engine(value) {
        case Serialized(text) =>
          params.Set(paramName, text);
        case Undefined =>
          if value.IsObjectType() {
            params.Set(paramName, codec.stringify(value));
          }
        case Throws =>
          // the error is logged and the entry skipped
      }
      i := i + 1;
    }
    assert situation[..i] == situation;
    params.Sort();
  }

  /** Entry `i` of the situation writes a value under parameter name `n`. */
  predicate Writes(engine: Json -> Serialization, codec: JsonCodec, mapping: Dict<ParamName>,
                   situation: Dict<Json>, i: int, n: ParamName)
  {
    0 <= i < |situation| && ParamNameOf(mapping, situation[i].0) == n &&
    EntryText(engine, codec, situation[i].1).Some?
  }

  /** Distinct dotted names of the situation get distinct parameter names. */
  predicate DistinctParamNames(mapping: Dict<ParamName>, situation: Dict<Json>) {
    forall i, j :: 0 <= i < |situation| && 0 <= j < |situation| && situation[i].0 != situation[j].0 ==>
      ParamNameOf(mapping, situation[i].0) != ParamNameOf(mapping, situation[j].0)
  }

  lemma {:induction false} EncodeEntriesUnique(engine: Json -> Serialization, codec: JsonCodec,
                                              mapping: Dict<ParamName>, situation: Dict<Json>)
    ensures UniqueNames(EncodeEntries(engine, codec, mapping, situation))
    decreases |situation|
  {
    if situation != [] {
      var prefix := situation[..|situation| - 1];
      EncodeEntriesUnique(engine, codec, mapping, prefix);
      var (d, v) := situation[|situation| - 1];
      if EntryText(engine, codec, v).Some? {
        SetParamUnique(EncodeEntries(engine, codec, mapping, prefix), ParamNameOf(mapping, d),
                       EntryText(engine, codec, v).value);
      }
    }
  }

  /** The output holds each parameter name at most once, sorted by name. */
  lemma EncodeSortedUnique(engine: Json -> Serialization, codec: JsonCodec,
                           pairs: seq<(DottedName, ParamName)>, situation: Dict<Json>)
    ensures var params := Encode(engine, codec, pairs, situation);
            SortedByName(params) && UniqueNames(params)
  {
    var entries := EncodeEntries(engine, codec, FromEntries(pairs), situation);
    EncodeEntriesUnique(engine, codec, FromEntries(pairs), situation);
    SortParamsSorted(entries);
    SortParamsUnique(entries);
  }

  /** One step of encoding, seen through `get`: the last entry decides the name it
      writes, the earlier entries the rest. */
  lemma EncodeEntriesStep(engine: Json -> Serialization, codec: JsonCodec, mapping: Dict<ParamName>,
                          situation: Dict<Json>, n: ParamName)
    requires situation != []
    ensures GetParam(EncodeEntries(engine, codec, mapping, situation), n) ==
            if Writes(engine, codec, mapping, situation, |situation| - 1, n)
            then EntryText(engine, codec, situation[|situation| - 1].1)
            else GetParam(EncodeEntries(engine, codec, mapping, situation[..|situation| - 1]), n)
  {
    var last := |situation| - 1;
    var (d, v) := situation[last];
    if EntryText(engine, codec, v).Some? {
      SetParamGet(EncodeEntries(engine, codec, mapping, situation[..last]), ParamNameOf(mapping, d),
                  EntryText(engine, codec, v).value, n);
    }
  }

  /** The index of the last entry that writes parameter name `n`, if any. */
  function LastWriter(engine: Json -> Serialization, codec: JsonCodec, mapping: Dict<ParamName>,
                      situation: Dict<Json>, n: ParamName): (r: Option<nat>)
    ensures r.Some? ==> Writes(engine, codec, mapping, situation, r.value, n)
    decreases |situation|
  {
    if situation == [] then None
    else if Writes(engine, codec, mapping, situation, |situation| - 1, n) then Some(|situation| - 1)
    else
      var r := LastWriter(engine, codec, mapping, situation[..|situation| - 1], n);
      assert r.Some? ==> situation[..|situation| - 1][r.value] == situation[r.value];
      r
  }

  /** `get` on the encoded entries reads the text of the last writer. */
  lemma {:induction false} EncodeEntriesGet(engine: Json -> Serialization, codec: JsonCodec,
                                           mapping: Dict<ParamName>, situation: Dict<Json>, n: ParamName)
    ensures GetParam(EncodeEntries(engine, codec, mapping, situation), n) ==
            match LastWriter(engine, codec, mapping, situation, n)
            case Some(i) => EntryText(engine, codec, situation[i].1)
            case None => None
    decreases |situation|
  {
    if situation != [] {
      var prefix := situation[..|situation| - 1];
      EncodeEntriesStep(engine, codec, mapping, situation, n);
      EncodeEntriesGet(engine, codec, mapping, prefix, n);
      var w := LastWriter(engine, codec, mapping, prefix, n);
      if w.Some? {
        assert prefix[w.value] == situation[w.value];
      }
    }
  }

  /** The last writer is a writer that no later entry overrides. */
  lemma {:induction false} LastWriterIsLast(engine: Json -> Serialization, codec: JsonCodec,
                                           mapping: Dict<ParamName>, situation: Dict<Json>,
                                           n: ParamName, i: int)
    requires Writes(engine, codec, mapping, situation, i, n)
    requires forall j :: i < j < |situation| ==> !Writes(engine, codec, mapping, situation, j, n)
    ensures LastWriter(engine, codec, mapping, situation, n) == Some(i)
    decreases |situation|
  {
    var last := |situation| - 1;
    if i < last {
      var prefix := situation[..last];
      assert !Writes(engine, codec, mapping, situation, last, n);
      assert prefix[i] == situation[i];
      forall j | i < j < |prefix| ensures !Writes(engine, codec, mapping, prefix, j, n) {
        assert prefix[j] == situation[j];
        assert !Writes(engine, codec, mapping, situation, j, n);
      }
      LastWriterIsLast(engine, codec, mapping, prefix, n, i);
    }
  }

  /** Encode holds, under a parameter name, the text of the last entry writing it,
      and nothing when no entry writes it. */
  lemma EncodeGet(engine: Json -> Serialization, codec: JsonCodec, pairs: seq<(DottedName, ParamName)>,
                  situation: Dict<Json>, n: ParamName)
    ensures GetParam(Encode(engine, codec, pairs, situation), n) ==
            match LastWriter(engine, codec, FromEntries(pairs), situation, n)
            case Some(i) => EntryText(engine, codec, situation[i].1)
            case None => None
  {
    var mapping := FromEntries(pairs);
    SortParamsGet(EncodeEntries(engine, codec, mapping, situation), n);
    EncodeEntriesGet(engine, codec, mapping, situation, n);
  }

  /** An entry's text is what the output holds unless a later entry writes the same
      parameter name (`set` replaces). */
  lemma EncodeLastWriter(engine: Json -> Serialization, codec: JsonCodec, pairs: seq<(DottedName, ParamName)>,
                         situation: Dict<Json>, n: ParamName, i: int)
    requires Writes(engine, codec, FromEntries(pairs), situation, i, n)
    requires forall j :: i < j < |situation| ==> !Writes(engine, codec, FromEntries(pairs), situation, j, n)
    ensures GetParam(Encode(engine, codec, pairs, situation), n) == EntryText(engine, codec, situation[i].1)
  {
    LastWriterIsLast(engine, codec, FromEntries(pairs), situation, n, i);
    EncodeGet(engine, codec, pairs, situation, n);
  }

  /** A parameter name no entry writes is absent from the output. */
  lemma EncodeNoWriter(engine: Json -> Serialization, codec: JsonCodec, pairs: seq<(DottedName, ParamName)>,
                       situation: Dict<Json>, n: ParamName)
    requires forall j :: 0 <= j < |situation| ==> !Writes(engine, codec, FromEntries(pairs), situation, j, n)
    ensures GetParam(Encode(engine, codec, pairs, situation), n) == None
  {
    EncodeGet(engine, codec, pairs, situation, n);
  }

  /** With distinct parameter names, each written entry's text is what the output holds. */
  lemma EncodeGetDistinct(engine: Json -> Serialization, codec: JsonCodec, pairs: seq<(DottedName, ParamName)>,
                          situation: Dict<Json>, i: int)
    requires UniqueKeys(situation) && DistinctParamNames(FromEntries(pairs), situation)
    requires 0 <= i < |situation|
    ensures GetParam(Encode(engine, codec, pairs, situation), ParamNameOf(FromEntries(pairs), situation[i].0)) ==
            EntryText(engine, codec, situation[i].1)
  {
    var mapping := FromEntries(pairs);
    var n := ParamNameOf(mapping, situation[i].0);
    forall j | 0 <= j < |situation| && j != i ensures !Writes(engine, codec, mapping, situation, j, n) {
      assert situation[j].0 != situation[i].0;
    }
    if Writes(engine, codec, mapping, situation, i, n) {
      EncodeLastWriter(engine, codec, pairs, situation, n, i);
    } else {
      EncodeNoWriter(engine, codec, pairs, situation, n);
    }
  }

  /** Two listings of the same entries hold the same text under a parameter name. */
  lemma EncodeAgreesOn(engine: Json -> Serialization, codec: JsonCodec,
                       pairs: seq<(DottedName, ParamName)>, s1: Dict<Json>, s2: Dict<Json>, n: ParamName)
    requires UniqueKeys(s1) && UniqueKeys(s2)
    requires forall e :: e in s1 <==> e in s2
    requires DistinctParamNames(FromEntries(pairs), s1) && DistinctParamNames(FromEntries(pairs), s2)
    ensures GetParam(Encode(engine, codec, pairs, s1), n) == GetParam(Encode(engine, codec, pairs, s2), n)
  {
    var mapping := FromEntries(pairs);
    if i :| Writes(engine, codec, mapping, s1, i, n) {
      assert s1[i] in s2;
      var k :| 0 <= k < |s2| && s2[k] == s1[i];
      EncodeGetDistinct(engine, codec, pairs, s1, i);
      EncodeGetDistinct(engine, codec, pairs, s2, k);
    } else {
      forall k | 0 <= k < |s2| ensures !Writes(engine, codec, mapping, s2, k, n) {
        assert s2[k] in s1;
        var i :| 0 <= i < |s1| && s1[i] == s2[k];
        assert !Writes(engine, codec, mapping, s1, i, n);
      }
      EncodeNoWriter(engine, codec, pairs, s1, n);
      EncodeNoWriter(engine, codec, pairs, s2, n);
    }
  }

  /** With distinct parameter names, the order in which the situation lists its
      entries does not change the output. */
  lemma EncodeOrderIndependent(engine: Json -> Serialization, codec: JsonCodec,
                               pairs: seq<(DottedName, ParamName)>, s1: Dict<Json>, s2: Dict<Json>)
    requires UniqueKeys(s1) && UniqueKeys(s2)
    requires forall e :: e in s1 <==> e in s2
    requires DistinctParamNames(FromEntries(pairs), s1)
    ensures Encode(engine, codec, pairs, s1) == Encode(engine, codec, pairs, s2)
  {
    var mapping := FromEntries(pairs);
    var e1 := Encode(engine, codec, pairs, s1);
    var e2 := Encode(engine, codec, pairs, s2);
    assert DistinctParamNames(mapping, s2) by {
      forall i, j | 0 <= i < |s2| && 0 <= j < |s2| && s2[i].0 != s2[j].0
        ensures ParamNameOf(mapping, s2[i].0) != ParamNameOf(mapping, s2[j].0)
      {
        assert s2[i] in s1 && s2[j] in s1;
      }
    }
    forall n ensures GetParam(e1, n) == GetParam(e2, n) {
      EncodeAgreesOn(engine, codec, pairs, s1, s2, n);
    }
    EncodeSortedUnique(engine, codec, pairs, s1);
    EncodeSortedUnique(engine, codec, pairs, s2);
    SortedUniqueDetermined(e1, e2);
  }

  // ---------------------------------------------------------------------------
  // Decoding

  /** The value stored for a raw parameter: the parsed JSON when the text is
      brace-delimited and parses, the raw text otherwise. */
  function DecodeValue(codec: JsonCodec, raw: string): Json {
    if StartsWith(raw, "{") && EndsWith(raw, "}") then
      match codec.parse(raw)
      case Some(parsed) => parsed
      case None => Str(raw)
    else Str(raw)
  }

  /** The situation after the `forEach` over the parameters. */
  function DecodeParams(codec: JsonCodec, inverse: Dict<DottedName>, params: seq<Pair>): Dict<Json>
    decreases |params|
  {
    if params == [] then []
    else
      var prev := DecodeParams(codec, inverse, params[..|params| - 1]);
      var (paramName, raw) := params[|params| - 1];
      match Get(inverse, paramName)
      case Some(dottedName) => Put(prev, dottedName, DecodeValue(codec, raw))
      case None => prev
  }

  /** `getSituationFromSearchParams`. */
  method GetSituationFromSearchParams(codec: JsonCodec, params: UrlSearchParams,
                                      pairs: seq<(DottedName, ParamName)>)
    returns (situation: Dict<Json>)
    ensures situation == DecodeParams(codec, InvertParamNames(pairs), params.list)
  {
    var inverse := InvertParamNames(pairs);
    var list := params.list;
    situation := [];
    var i := 0;
    while i < |list|
      invariant 0 <= i <= |list|
      invariant situation == DecodeParams(codec, inverse, list[..i])
    {
      var (paramName, raw) := list[i];
      assert list[..i + 1][..i] == list[..i];
      if Has(inverse, paramName) {
        var dottedName := Get(inverse, paramName).value;
        situation := Put(situation, dottedName, Str(raw));
        if StartsWith(raw, "{") && EndsWith(raw, "}") {
          match codec.parse(raw) {
            case Some(parsed) =>
              PutPut(DecodeParams(codec, inverse, list[..i]), dottedName, Str(raw), parsed);
              situation := Put(situation, dottedName, parsed);
            case None =>
              // the parse error is logged and the raw text kept
          }
        }
      }
      i := i + 1;
    }
    assert list[..i] == list;
  }

  /** Parameter `i` names dotted name `d` in the inverted table. */
  predicate Denotes(inverse: Dict<DottedName>, params: seq<Pair>, i: int, d: DottedName) {
    0 <= i < |params| && Get(inverse, params[i].0) == Some(d)
  }

  /** A dotted name is decoded exactly when some parameter names it. */
  lemma {:induction false} DecodeHas(codec: JsonCodec, inverse: Dict<DottedName>, params: seq<Pair>, d: DottedName)
    ensures Get(DecodeParams(codec, inverse, params), d).Some? <==> exists i :: Denotes(inverse, params, i, d)
    decreases |params|
  {
    if params != [] {
      var last := |params| - 1;
      var prefix := params[..last];
      DecodeHas(codec, inverse, prefix, d);
      var prev := DecodeParams(codec, inverse, prefix);
      assert forall i :: 0 <= i < last ==> prefix[i] == params[i];
      if Get(inverse, params[last].0).Some? {
        var dn := Get(inverse, params[last].0).value;
        PutGet(prev, dn, DecodeValue(codec, params[last].1), d);
        if dn == d {
          assert Denotes(inverse, params, last, d);
        }
      }
      if exists i :: Denotes(inverse, params, i, d) {
        var i :| Denotes(inverse, params, i, d);
        if i < last { assert Denotes(inverse, prefix, i, d); }
      }
      if exists i :: Denotes(inverse, prefix, i, d) {
        var i :| Denotes(inverse, prefix, i, d);
        assert Denotes(inverse, params, i, d);
      }
    }
  }

  /** One step of decoding, seen through a lookup: the last parameter decides
      the dotted name it maps to, the earlier ones the rest. */
  lemma DecodeGetStep(codec: JsonCodec, inverse: Dict<DottedName>, params: seq<Pair>, d: DottedName)
    requires params != []
    ensures Get(DecodeParams(codec, inverse, params), d) ==
            if Denotes(inverse, params, |params| - 1, d) then Some(DecodeValue(codec, params[|params| - 1].1))
            else Get(DecodeParams(codec, inverse, params[..|params| - 1]), d)
  {
    var last := |params| - 1;
    if Get(inverse, params[last].0).Some? {
      PutGet(DecodeParams(codec, inverse, params[..last]), Get(inverse, params[last].0).value,
             DecodeValue(codec, params[last].1), d);
    }
  }

  /** The value decoded for a dotted name comes from the last parameter naming it. */
  lemma {:induction false} DecodeLastOccurrence(codec: JsonCodec, inverse: Dict<DottedName>, params: seq<Pair>,
                                               d: DottedName, i: int)
    requires Denotes(inverse, params, i, d)
    requires forall j :: i < j < |params| ==> !Denotes(inverse, params, j, d)
    ensures Get(DecodeParams(codec, inverse, params), d) == Some(DecodeValue(codec, params[i].1))
    decreases |params|
  {
    var last := |params| - 1;
    var prefix := params[..last];
    DecodeGetStep(codec, inverse, params, d);
    if i < last {
      assert prefix[i] == params[i];
      forall j | i < j < |prefix| ensures !Denotes(inverse, prefix, j, d) {
        assert prefix[j] == params[j];
        assert !Denotes(inverse, params, j, d);
      }
      DecodeLastOccurrence(codec, inverse, prefix, d, i);
      assert !Denotes(inverse, params, last, d);
    }
  }

  /** A parameter absent from the inverted table changes nothing, wherever it stands. */
  lemma {:induction false} DecodeIgnoresUnknown(codec: JsonCodec, inverse: Dict<DottedName>,
                                               before: seq<Pair>, unknown: Pair, after: seq<Pair>)
    requires Get(inverse, unknown.0) == None
    ensures DecodeParams(codec, inverse, before + [unknown] + after) == DecodeParams(codec, inverse, before + after)
    decreases |after|
  {
    if after == [] {
      assert (before + [unknown])[..|before|] == before;
      assert before + [unknown] + after == before + [unknown];
      assert before + after == before;
    } else {
      var a' := after[..|after| - 1];
      DecodeIgnoresUnknown(codec, inverse, before, unknown, a');
      var l1 := before + [unknown] + after;
      var l2 := before + after;
      assert l1[..|l1| - 1] == before + [unknown] + a';
      assert l2[..|l2| - 1] == before + a';
      assert l1[|l1| - 1] == l2[|l2| - 1];
    }
  }

  /** Decoding yields each dotted name at most once. */
  lemma {:induction false} DecodeUnique(codec: JsonCodec, inverse: Dict<DottedName>, params: seq<Pair>)
    ensures UniqueKeys(DecodeParams(codec, inverse, params))
    decreases |params|
  {
    if params != [] {
      var prefix := params[..|params| - 1];
      DecodeUnique(codec, inverse, prefix);
      var p := params[|params| - 1];
      if Get(inverse, p.0).Some? {
        PutUnique(DecodeParams(codec, inverse, prefix), Get(inverse, p.0).value, DecodeValue(codec, p.1));
      }
    }
  }

  /** The JSON text of an object decodes to the object. */
  lemma DecodeObjectText(codec: JsonCodec, fields: seq<(string, Json)>)
    requires Lawful(codec) && Object(fields).WellFormed()
    ensures DecodeValue(codec, codec.stringify(Object(fields))) == Object(fields)
  {
  }

  /** Pair `i` is the last one of the table carrying parameter name `p`. */
  predicate LastCarrier(pairs: seq<(DottedName, ParamName)>, p: ParamName, i: int) {
    0 <= i < |pairs| && pairs[i].1 == p && forall j :: i < j < |pairs| ==> pairs[j].1 != p
  }

  /** The inverted table keeps, for a parameter name, the dotted name of the last
      pair carrying it. */
  lemma {:induction false} InvertLastWriter(pairs: seq<(DottedName, ParamName)>, p: ParamName, i: int)
    requires LastCarrier(pairs, p, i)
    ensures Get(InvertParamNames(pairs), p) == Some(pairs[i].0)
    decreases |pairs|
  {
    var last := |pairs| - 1;
    var prefix := pairs[..last];
    PutGet(InvertParamNames(prefix), pairs[last].1, pairs[last].0, p);
    if i < last {
      assert forall j :: 0 <= j < last ==> prefix[j] == pairs[j];
      assert LastCarrier(prefix, p, i);
      InvertLastWriter(prefix, p, i);
    }
  }

  /** A parameter name is unknown to the inverted table exactly when no pair carries it. */
  lemma {:induction false} InvertMissing(pairs: seq<(DottedName, ParamName)>, p: ParamName)
    ensures Get(InvertParamNames(pairs), p) == None <==> forall i :: 0 <= i < |pairs| ==> pairs[i].1 != p
    decreases |pairs|
  {
    if pairs != [] {
      var last := |pairs| - 1;
      var prefix := pairs[..last];
      InvertMissing(prefix, p);
      PutGet(InvertParamNames(prefix), pairs[last].1, pairs[last].0, p);
      assert forall i :: 0 <= i < last ==> prefix[i] == pairs[i];
    }
  }

  /** The inverted table maps a parameter name back to a dotted name only from
      the pair that carries both. */
  lemma InvertInjective(pairs: seq<(DottedName, ParamName)>, m: int, q: ParamName)
    requires ValidTable(pairs) && 0 <= m < |pairs|
    ensures Get(InvertParamNames(pairs), q) == Some(pairs[m].0) ==> q == pairs[m].1
  {
    if Get(InvertParamNames(pairs), q) == Some(pairs[m].0) {
      InvertMissing(pairs, q);
      var c :| 0 <= c < |pairs| && pairs[c].1 == q;
      forall j | c < j < |pairs| ensures pairs[j].1 != q {
        assert pairs[c].1 != pairs[j].1;
      }
      InvertLastWriter(pairs, q, c);
      assert pairs[c].0 == pairs[m].0;
      assert !(c < m || m < c);
    }
  }

  /** In a valid table, the pair of a dotted name gives both directions. */
  lemma TableLookup(pairs: seq<(DottedName, ParamName)>, m: int)
    requires ValidTable(pairs) && 0 <= m < |pairs|
    ensures ParamNameOf(FromEntries(pairs), pairs[m].0) == pairs[m].1
    ensures Get(InvertParamNames(pairs), pairs[m].1) == Some(pairs[m].0)
  {
    FromEntriesUnique(pairs);
    GetEntry(pairs, m);
    assert LastCarrier(pairs, pairs[m].1, m);
    InvertLastWriter(pairs, pairs[m].1, m);
  }

  /** Every dotted name of the situation has an entry in the alias table. */
  predicate Covered(pairs: seq<(DottedName, ParamName)>, situation: Dict<Json>) {
    forall i :: 0 <= i < |situation| ==> exists m :: 0 <= m < |pairs| && pairs[m].0 == situation[i].0
  }

  /** The table pair of a covered dotted name. */
  lemma CoveringPair(pairs: seq<(DottedName, ParamName)>, situation: Dict<Json>, i: int) returns (m: int)
    requires Covered(pairs, situation) && 0 <= i < |situation|
    ensures 0 <= m < |pairs| && pairs[m].0 == situation[i].0
  {
    var name := situation[i].0;
    assert exists k :: 0 <= k < |pairs| && pairs[k].0 == name;
    m :| 0 <= m < |pairs| && pairs[m].0 == name;
  }

  /** A valid table gives distinct parameter names to the distinct dotted names it covers. */
  lemma ValidTableDistinct(pairs: seq<(DottedName, ParamName)>, situation: Dict<Json>)
    requires ValidTable(pairs) && Covered(pairs, situation)
    ensures DistinctParamNames(FromEntries(pairs), situation)
  {
    forall i, j | 0 <= i < |situation| && 0 <= j < |situation| && situation[i].0 != situation[j].0
      ensures ParamNameOf(FromEntries(pairs), situation[i].0) != ParamNameOf(FromEntries(pairs), situation[j].0)
    {
      var mi := CoveringPair(pairs, situation, i);
      var mj := CoveringPair(pairs, situation, j);
      TableLookup(pairs, mi);
      TableLookup(pairs, mj);
    }
  }

  /** The value a shared link restores for a situation entry: the decoding of the
      text written for it, or nothing when nothing was written. */
  function Restored(engine: Json -> Serialization, codec: JsonCodec, value: Json): Option<Json> {
    match EntryText(engine, codec, value)
    case Some(text) => Some(DecodeValue(codec, text))
    case None => None
  }

  /** With unique names, the dotted name of a table pair decodes from the value of
      its parameter name, and is absent when that parameter is. */
  lemma DecodeTableName(codec: JsonCodec, pairs: seq<(DottedName, ParamName)>, params: seq<Pair>, m: int)
    requires ValidTable(pairs) && 0 <= m < |pairs| && UniqueNames(params)
    ensures Get(DecodeParams(codec, InvertParamNames(pairs), params), pairs[m].0) ==
            match GetParam(params, pairs[m].1)
            case Some(text) => Some(DecodeValue(codec, text))
            case None => None
  {
    var inverse := InvertParamNames(pairs);
    var k := pairs[m].0;
    var p := pairs[m].1;
    TableLookup(pairs, m);
    forall j | 0 <= j < |params| ensures Denotes(inverse, params, j, k) ==> params[j].0 == p {
      InvertInjective(pairs, m, params[j].0);
    }
    match GetParam(params, p) {
      case Some(text) =>
        DecodePresent(codec, inverse, params, k, p, text);
      case None =>
        assert forall j :: 0 <= j < |params| ==> Keys(params)[j] != p;
        DecodeHas(codec, inverse, params, k);
    }
  }

  lemma DecodePresent(codec: JsonCodec, inverse: Dict<DottedName>, params: seq<Pair>,
                      k: DottedName, p: ParamName, text: string)
    requires UniqueNames(params) && GetParam(params, p) == Some(text) && Get(inverse, p) == Some(k)
    requires forall j :: 0 <= j < |params| ==> Denotes(inverse, params, j, k) ==> params[j].0 == p
    ensures Get(DecodeParams(codec, inverse, params), k) == Some(DecodeValue(codec, text))
  {
    GetParamUnique(params, p, text);
    var j :| 0 <= j < |params| && params[j] == (p, text);
    assert Denotes(inverse, params, j, k);
    forall j' | j < j' < |params| ensures !Denotes(inverse, params, j', k) {
      assert params[j'].0 != params[j].0;
    }
    DecodeLastOccurrence(codec, inverse, params, k, j);
  }

  /** Decoding the parameters written for a situation restores every entry
      (through its text) under its own dotted name. */
  lemma RoundTrip(engine: Json -> Serialization, codec: JsonCodec, pairs: seq<(DottedName, ParamName)>,
                  situation: Dict<Json>, i: int)
    requires ValidTable(pairs) && UniqueKeys(situation) && Covered(pairs, situation)
    requires 0 <= i < |situation|
    ensures Get(DecodeParams(codec, InvertParamNames(pairs), Encode(engine, codec, pairs, situation)),
                situation[i].0) == Restored(engine, codec, situation[i].1)
  {
    var m := CoveringPair(pairs, situation, i);
    TableLookup(pairs, m);
    EncodeSortedUnique(engine, codec, pairs, situation);
    ValidTableDistinct(pairs, situation);
    EncodeGetDistinct(engine, codec, pairs, situation, i);
    DecodeTableName(codec, pairs, Encode(engine, codec, pairs, situation), m);
  }

  /** An object the engine cannot serialise travels as JSON text and comes back whole. */
  lemma RoundTripObject(engine: Json -> Serialization, codec: JsonCodec, pairs: seq<(DottedName, ParamName)>,
                        situation: Dict<Json>, i: int)
    requires ValidTable(pairs) && UniqueKeys(situation) && Covered(pairs, situation)
    requires 0 <= i < |situation| && situation[i].1.Object? && engine(situation[i].1) == Undefined
    requires Lawful(codec) && situation[i].1.WellFormed()
    ensures Get(DecodeParams(codec, InvertParamNames(pairs), Encode(engine, codec, pairs, situation)),
                situation[i].0) == Some(situation[i].1)
  {
    RoundTrip(engine, codec, pairs, situation, i);
    DecodeObjectText(codec, situation[i].1.fields);
  }

  /** Nothing outside the situation is restored. */
  lemma RoundTripNoExtra(engine: Json -> Serialization, codec: JsonCodec, pairs: seq<(DottedName, ParamName)>,
                         situation: Dict<Json>, d: DottedName)
    requires ValidTable(pairs) && Covered(pairs, situation)
    requires forall i :: 0 <= i < |situation| ==> situation[i].0 != d
    ensures Get(DecodeParams(codec, InvertParamNames(pairs), Encode(engine, codec, pairs, situation)), d) == None
  {
    var enc := Encode(engine, codec, pairs, situation);
    var inverse := InvertParamNames(pairs);
    var mapping := FromEntries(pairs);
    DecodeHas(codec, inverse, enc, d);
    forall j | 0 <= j < |enc| ensures !Denotes(inverse, enc, j, d) {
      var n := enc[j].0;
      EncodeGet(engine, codec, pairs, situation, n);
      assert GetParam(enc, n).Some? by { assert Keys(enc)[j] == n; }
      var i := LastWriter(engine, codec, mapping, situation, n).value;
      var m := CoveringPair(pairs, situation, i);
      TableLookup(pairs, m);
      InvertLastWriter(pairs, n, m) by { assert LastCarrier(pairs, n, m); }
    }
  }

  // ---------------------------------------------------------------------------
  // Clean-up

  /** The parameter names `cleanSearchParams` deletes, one per dotted name. */
  function DeletedNames(mapping: Dict<ParamName>, dottedNames: seq<DottedName>): (r: seq<ParamName>)
    ensures |r| == |dottedNames|
    ensures forall i :: 0 <= i < |dottedNames| ==> r[i] == ParamNameOf(mapping, dottedNames[i])
  {
    seq(|dottedNames|, i requires 0 <= i < |dottedNames| => ParamNameOf(mapping, dottedNames[i]))
  }

  /** The pairs whose name is not listed, in their order: the reference for the clean-up. */
  function Without(l: seq<Pair>, names: seq<ParamName>): (r: seq<Pair>)
    ensures forall p: Pair :: p in r <==> p in l && p.0 !in names
  {
    if l == [] then []
    else if l[0].0 in names then Without(l[1..], names)
    else [l[0]] + Without(l[1..], names)
  }

  /** The parameter list after the `forEach` of `delete`s. */
  function CleanParams(l: seq<Pair>, mapping: Dict<ParamName>, dottedNames: seq<DottedName>): seq<Pair>
    decreases |dottedNames|
  {
    if dottedNames == [] then l
    else
      var prefix := dottedNames[..|dottedNames| - 1];
      DeleteParam(CleanParams(l, mapping, prefix), ParamNameOf(mapping, dottedNames[|dottedNames| - 1]))
  }

  /** Deleting one more name from a filtered list filters by the longer list. */
  lemma {:induction false} DeleteWithout(l: seq<Pair>, names: seq<ParamName>, n: ParamName)
    ensures DeleteParam(Without(l, names), n) == Without(l, names + [n])
  {
    if l != [] {
      DeleteWithout(l[1..], names, n);
    }
  }

  /** The clean-up deletes exactly the parameter names of the given dotted names
      and keeps every other pair in its order. */
  lemma {:induction false} CleanParamsWithout(l: seq<Pair>, mapping: Dict<ParamName>, dottedNames: seq<DottedName>)
    ensures CleanParams(l, mapping, dottedNames) == Without(l, DeletedNames(mapping, dottedNames))
    decreases |dottedNames|
  {
    if dottedNames == [] {
      WithoutNothing(l);
    } else {
      var last := |dottedNames| - 1;
      var prefix := dottedNames[..last];
      CleanParamsWithout(l, mapping, prefix);
      DeleteWithout(l, DeletedNames(mapping, prefix), ParamNameOf(mapping, dottedNames[last]));
      assert DeletedNames(mapping, prefix) + [ParamNameOf(mapping, dottedNames[last])] ==
             DeletedNames(mapping, dottedNames);
    }
  }

  lemma {:induction false} WithoutNothing(l: seq<Pair>)
    ensures Without(l, []) == l
  {
    if l != [] {
      WithoutNothing(l[1..]);
    }
  }

  /** Filtering twice by the same names is filtering once. */
  lemma {:induction false} WithoutIdempotent(l: seq<Pair>, names: seq<ParamName>)
    ensures Without(Without(l, names), names) == Without(l, names)
  {
    if l != [] {
      WithoutIdempotent(l[1..], names);
    }
  }

  /** Cleaning twice with the same dotted names equals cleaning once. */
  lemma CleanParamsIdempotent(l: seq<Pair>, mapping: Dict<ParamName>, dottedNames: seq<DottedName>)
    ensures CleanParams(CleanParams(l, mapping, dottedNames), mapping, dottedNames) ==
            CleanParams(l, mapping, dottedNames)
  {
    CleanParamsWithout(l, mapping, dottedNames);
    CleanParamsWithout(CleanParams(l, mapping, dottedNames), mapping, dottedNames);
    WithoutIdempotent(l, DeletedNames(mapping, dottedNames));
  }

  /** Parameters the inverted table does not know decode to an empty situation. */
  lemma {:induction false} DecodeAllUnknown(codec: JsonCodec, inverse: Dict<DottedName>, params: seq<Pair>)
    requires forall j :: 0 <= j < |params| ==> Get(inverse, params[j].0) == None
    ensures DecodeParams(codec, inverse, params) == []
    decreases |params|
  {
    if params != [] {
      DecodeAllUnknown(codec, inverse, params[..|params| - 1]);
    }
  }

  /** A parameter of the list that the inverted table knows has its name among
      those deleted for the decoded dotted names. */
  lemma KnownIsDeleted(codec: JsonCodec, pairs: seq<(DottedName, ParamName)>, l: seq<Pair>, jl: int)
    requires ValidTable(pairs) && 0 <= jl < |l|
    ensures var inverse := InvertParamNames(pairs);
            Get(inverse, l[jl].0).Some? ==>
            l[jl].0 in DeletedNames(FromEntries(pairs), Keys(DecodeParams(codec, inverse, l)))
  {
    var inverse := InvertParamNames(pairs);
    var decoded := DecodeParams(codec, inverse, l);
    var deleted := DeletedNames(FromEntries(pairs), Keys(decoded));
    var q := l[jl].0;
    if Get(inverse, q).Some? {
      var d := Get(inverse, q).value;
      assert Denotes(inverse, l, jl, d);
      DecodeHas(codec, inverse, l, d);
      GetIsEntry(decoded, d);
      var k :| 0 <= k < |decoded| && decoded[k] == (d, Get(decoded, d).value);
      InvertMissing(pairs, q);
      var c :| 0 <= c < |pairs| && pairs[c].1 == q;
      InvertLastWriter(pairs, q, c) by {
        forall c' | c < c' < |pairs| ensures pairs[c'].1 != q {
          assert pairs[c].1 != pairs[c'].1;
        }
      }
      TableLookup(pairs, c);
      assert deleted[k] == q;
    }
  }

  /** After removing the parameters of every decoded dotted name, nothing is left to
      decode: a reload does not apply the shared situation again. */
  lemma CleanedDecodesEmpty(codec: JsonCodec, pairs: seq<(DottedName, ParamName)>, l: seq<Pair>)
    requires ValidTable(pairs)
    ensures var inverse := InvertParamNames(pairs);
            var cleaned := CleanParams(l, FromEntries(pairs), Keys(DecodeParams(codec, inverse, l)));
            DecodeParams(codec, inverse, cleaned) == []
  {
    var inverse := InvertParamNames(pairs);
    var decoded := DecodeParams(codec, inverse, l);
    var deleted := DeletedNames(FromEntries(pairs), Keys(decoded));
    var cleaned := CleanParams(l, FromEntries(pairs), Keys(decoded));
    CleanParamsWithout(l, FromEntries(pairs), Keys(decoded));
    forall j | 0 <= j < |cleaned| ensures Get(inverse, cleaned[j].0) == None {
      assert cleaned[j] in l && cleaned[j].0 !in deleted;
      var jl :| 0 <= jl < |l| && l[jl] == cleaned[j];
      KnownIsDeleted(codec, pairs, l, jl);
    }
    DecodeAllUnknown(codec, inverse, cleaned);
  }

  /** The browser history as the router sees it: the query of each entry, the
      current one last. */
  class Navigation {
    var entries: seq<seq<Pair>>

    constructor (current: seq<Pair>)
      ensures entries == [current]
    {
      entries := [current];
    }

    /** `setSearchParams(query, { replace: true })`: the current entry is replaced,
        the earlier ones stay. */
    method Replace(query: seq<Pair>)
      requires entries != []
      modifies this
      ensures entries == old(entries)[..|old(entries)| - 1] + [query]
    {
      entries := entries[..|entries| - 1] + [query];
    }
  }

  /** `cleanSearchParams`: deletes, in place, the parameter of each dotted name,
      then writes the result back over the current history entry. */
  method CleanSearchParams(params: UrlSearchParams, nav: Navigation,
                           pairs: seq<(DottedName, ParamName)>, dottedNames: seq<DottedName>)
    requires nav.entries != []
    modifies params, nav
    ensures params.list == CleanParams(old(params.list), FromEntries(pairs), dottedNames)
    ensures nav.entries == old(nav.entries)[..|old(nav.entries)| - 1] + [params.list]
  {
    var mapping := FromEntries(pairs);
    ghost var original := params.list;
    var i := 0;
    while i < |dottedNames|
      invariant 0 <= i <= |dottedNames|
      invariant params.list == CleanParams(original, mapping, dottedNames[..i])
      invariant nav.entries == old(nav.entries)
    {
      assert dottedNames[..i + 1][..i] == dottedNames[..i];
      params.Delete(ParamNameOf(mapping, dottedNames[i]));
      i := i + 1;
    }
    assert dottedNames[..i] == dottedNames;
    nav.Replace(params.list);
  }

  // ---------------------------------------------------------------------------
  // The load effect of the hook

  /** The two store actions the hook dispatches. */
  datatype Action = BatchUpdateSituation(situation: Dict<Json>) | SetActiveTarget(target: DottedName)

  /** `Object.keys(situation).filter(d => objectifs.includes(d))[0]`. */
  function FirstObjective(keys: seq<DottedName>, objectives: seq<DottedName>): (r: Option<DottedName>)
    ensures r.None? <==> forall i :: 0 <= i < |keys| ==> keys[i] !in objectives
    ensures r.Some? ==> exists i :: 0 <= i < |keys| && keys[i] == r.value && r.value in objectives &&
                                    forall j :: 0 <= j < i ==> keys[j] !in objectives
  {
    if keys == [] then None
    else if keys[0] in objectives then Some(keys[0])
    else
      var rest := FirstObjective(keys[1..], objectives);
      assert rest.Some? ==> forall i :: 0 <= i < |keys[1..]| && keys[1..][i] == rest.value ==>
                                         keys[i + 1] == rest.value;
      rest
  }

  /** What the load effect dispatches for a decoded situation: the situation when it
      is not empty, then the active target when one of its dotted names is an
      objective (and is not the empty, falsy name). */
  function LoadActions(situation: Dict<Json>, objectives: seq<DottedName>): (r: seq<Action>)
    ensures BatchUpdateSituation(situation) in r <==> situation != []
    ensures forall t :: SetActiveTarget(t) in r <==>
              FirstObjective(Keys(situation), objectives) == Some(t) && t != ""
    ensures |r| <= 2 && (situation != [] ==> r[0] == BatchUpdateSituation(situation))
  {
    var batch := if |Keys(situation)| > 0 then [BatchUpdateSituation(situation)] else [];
    var target := FirstObjective(Keys(situation), objectives);
    batch + (if target.Some? && target.value != "" then [SetActiveTarget(target.value)] else [])
  }

  /** The hook's state: the run-once flag, the actions it has sent to the store. */
  class SharingHook {
    var urlSituationIsExtracted: bool
    var dispatched: seq<Action>

    constructor ()
      ensures !urlSituationIsExtracted && dispatched == []
    {
      urlSituationIsExtracted := false;
      dispatched := [];
    }

    /** The load effect: on the first run, decode the URL, dispatch, clean the URL
        and set the flag; once the flag is set, do nothing. */
    method OnLoad(codec: JsonCodec, pairs: seq<(DottedName, ParamName)>, objectives: seq<DottedName>,
                  params: UrlSearchParams, nav: Navigation)
      requires nav.entries != []
      modifies this, params, nav
      ensures old(urlSituationIsExtracted) ==>
                urlSituationIsExtracted && dispatched == old(dispatched) &&
                params.list == old(params.list) && nav.entries == old(nav.entries)
      ensures !old(urlSituationIsExtracted) ==>
                var situation := DecodeParams(codec, InvertParamNames(pairs), old(params.list));
                urlSituationIsExtracted &&
                dispatched == old(dispatched) + LoadActions(situation, objectives) &&
                params.list == CleanParams(old(params.list), FromEntries(pairs), Keys(situation)) &&
                nav.entries == old(nav.entries)[..|old(nav.entries)| - 1] + [params.list]
    {
      if !urlSituationIsExtracted {
        var situation := GetSituationFromSearchParams(codec, params, pairs);
        var keys := Keys(situation);
        ghost var batch: seq<Action> := [];
        if |keys| > 0 {
          dispatched := dispatched + [BatchUpdateSituation(situation)];
          batch := [BatchUpdateSituation(situation)];
        }
        var newActiveTarget := FirstObjective(keys, objectives);
        if newActiveTarget.Some? && newActiveTarget.value != "" {
          dispatched := dispatched + [SetActiveTarget(newActiveTarget.value)];
          assert dispatched == old(dispatched) + (batch + [SetActiveTarget(newActiveTarget.value)]);
        } else {
          assert dispatched == old(dispatched) + (batch + []);
        }
        assert dispatched == old(dispatched) + LoadActions(situation, objectives);
        CleanSearchParams(params, nav, pairs, keys);
        urlSituationIsExtracted := true;
      }
    }

    /** The cleanup effect: the flag goes back down on unmount. */
    method OnUnmount()
      modifies this
      ensures !urlSituationIsExtracted && dispatched == old(dispatched)
    {
      urlSituationIsExtracted := false;
    }
  }
}
