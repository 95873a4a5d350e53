// The legal-status guide: when the visitor comes back to the page of a question,
// that answer and every answer given after it are reset. The question→path table
// of the guide is a parameter: it is not part of the route tables of this model.
module GuideStatut {
  import opened Wrappers
  import opened JsObject

  /** The position of the first entry of the table whose path is `pathname`. */
  function FindQuestion(guideStatut: Dict<string>, pathname: string): (r: Option<nat>)
    ensures r.None? <==> forall i :: 0 <= i < |guideStatut| ==> guideStatut[i].1 != pathname
    ensures r.Some? ==> r.value < |guideStatut| && guideStatut[r.value].1 == pathname &&
                        forall j :: 0 <= j < r.value ==> guideStatut[j].1 != pathname
    decreases |guideStatut|
  {
    if guideStatut == [] then None
    else if guideStatut[0].1 == pathname then Some(0)
    else
      match FindQuestion(guideStatut[1..], pathname)
      case None => None
      case Some(k) => Some(k + 1)
  }

  /** `companyStatusCurrentQuestionName`: the key of that entry, if any and non-empty
      (the empty name is falsy and ends the effect like a missing one). */
  function CurrentQuestion(guideStatut: Dict<string>, pathname: string): (r: Option<string>)
    ensures r.Some? ==> r.value != "" &&
                        exists i :: 0 <= i < |guideStatut| && guideStatut[i] == (r.value, pathname) &&
                                    forall j :: 0 <= j < i ==> guideStatut[j].1 != pathname
    ensures (forall i :: 0 <= i < |guideStatut| ==> guideStatut[i].1 != pathname) ==> r.None?
    ensures forall i :: 0 <= i < |guideStatut| && guideStatut[i].1 == pathname &&
                        (forall j :: 0 <= j < i ==> guideStatut[j].1 != pathname) ==>
                          r == if guideStatut[i].0 == "" then None else Some(guideStatut[i].0)
  {
    match FindQuestion(guideStatut, pathname)
    case None => None
    case Some(i) => if guideStatut[i].0 == "" then None else Some(guideStatut[i].0)
  }

  /** `answeredQuestion.findIndex((a) => a === name)`, as an option. */
  function FirstIndex(answered: seq<string>, name: string): (r: Option<nat>)
    ensures r.None? <==> name !in answered
    ensures r.Some? ==> r.value < |answered| && answered[r.value] == name && name !in answered[..r.value]
    decreases |answered|
  {
    if answered == [] then None
    else if answered[0] == name then Some(0)
    else
      match FirstIndex(answered[1..], name)
      case None => None
      case Some(k) =>
        assert answered[..k + 1] == [answered[0]] + answered[1..][..k];
        Some(k + 1)
  }

  /** The answers `useResetFollowingAnswers` resets, or None when it dispatches nothing. */
  function ResetFollowingAnswers(guideStatut: Dict<string>, pathname: string, answered: seq<string>): Option<seq<string>> {
    match CurrentQuestion(guideStatut, pathname)
    case None => None
    case Some(q) =>
      match FirstIndex(answered, q)
      case None => None
      case Some(i) => Some(answered[i..])
  }

  /** No reset when the pathname is the page of no question. */
  lemma NoResetOffGuide(guideStatut: Dict<string>, pathname: string, answered: seq<string>)
    requires forall i :: 0 <= i < |guideStatut| ==> guideStatut[i].1 != pathname
    ensures ResetFollowingAnswers(guideStatut, pathname, answered) == None
  {
  }

  /** No reset when the current question has not been answered. */
  lemma NoResetUnanswered(guideStatut: Dict<string>, pathname: string, answered: seq<string>)
    requires CurrentQuestion(guideStatut, pathname).Some?
    requires CurrentQuestion(guideStatut, pathname).value !in answered
    ensures ResetFollowingAnswers(guideStatut, pathname, answered) == None
  {
  }

  /** Otherwise the reset list is the current answer and all later ones: it is not
      empty, starts with the current question, and the answers before it, none of
      which is that question, are kept. */
  lemma ResetIsSuffix(guideStatut: Dict<string>, pathname: string, answered: seq<string>)
    requires CurrentQuestion(guideStatut, pathname).Some?
    requires CurrentQuestion(guideStatut, pathname).value in answered
    ensures var q := CurrentQuestion(guideStatut, pathname).value;
            var r := ResetFollowingAnswers(guideStatut, pathname, answered);
            r.Some? && |r.value| >= 1 && r.value[0] == q &&
            var kept := answered[..|answered| - |r.value|];
            kept + r.value == answered && q !in kept
  {
    var q := CurrentQuestion(guideStatut, pathname).value;
    var i := FirstIndex(answered, q).value;
    assert |answered| - |answered[i..]| == i;
    assert answered[..i] + answered[i..] == answered;
  }

  /** The reset goes exactly as far back as the first answer to the current question:
      any split of the answers at an occurrence of it, with none before, is the one. */
  lemma ResetSplitUnique(guideStatut: Dict<string>, pathname: string, kept: seq<string>, rest: seq<string>)
    requires CurrentQuestion(guideStatut, pathname).Some?
    requires var q := CurrentQuestion(guideStatut, pathname).value;
             rest != [] && rest[0] == q && q !in kept
    ensures ResetFollowingAnswers(guideStatut, pathname, kept + rest) == Some(rest)
  {
    var q := CurrentQuestion(guideStatut, pathname).value;
    var answered := kept + rest;
    assert answered[|kept|] == q;
    var i := FirstIndex(answered, q).value;
    assert forall j :: 0 <= j < |kept| ==> answered[j] == kept[j];
    assert forall j :: 0 <= j < i ==> answered[..i][j] == answered[j];
    assert i == |kept|;
    assert answered[i..] == rest;
  }
}
