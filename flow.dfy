/**
 * How the chart name is settled before setup starts: the top-level dispatch
 * on the CI variable and the directory name, the yes/no confirmation of a
 * suggestion (`chartNameSuggestedAccept`) and the typed-name prompt
 * (`chartNameCreate`). The terminal is a sequence of answer lines; the prompt
 * library asks again after every answer that fails its pattern, and an
 * input that runs out before a valid answer is its error callback.
 */
module Flow {
  import opened Wrappers
  import opened Names

  /** A valid answer and the answer lines left after it. */
  datatype Reply = Reply(answer: string, rest: seq<string>)

  /**
   * One `prompt.get` with a pattern: the first answer passing `valid` is
   * taken, every answer before it is rejected and asked again, and when no
   * answer passes the input ends in an error.
   */
  function Ask(answers: seq<string>, valid: string -> bool): (r: Option<Reply>)
    ensures r.None? <==> forall i :: 0 <= i < |answers| ==> !valid(answers[i])
    ensures r.Some? ==>
      var used := |answers| - |r.value.rest|;
      && 0 < used <= |answers|
      && answers[used - 1] == r.value.answer
      && valid(r.value.answer)
      && r.value.rest == answers[used..]
      && forall i :: 0 <= i < used - 1 ==> !valid(answers[i])
    decreases |answers|
  {
    if answers == [] then None
    else if valid(answers[0]) then Some(Reply(answers[0], answers[1..]))
    else
      var r := Ask(answers[1..], valid);
      assert forall i :: 1 <= i < |answers| ==> answers[i] == answers[1..][i - 1];
      r
  }

  /** What the dispatch settles on: a name handed to setup, or no name at all. */
  datatype Resolution = Named(name: string) | Aborted

  /**
   * `chartNameCreate`: asks until an answer passes the typed-name pattern; the
   * error callback removes the template items and exits instead of naming.
   */
  function Create(answers: seq<string>): (r: Resolution)
    ensures r.Named? ==> IsKebabName(r.name) && r.name in answers
    ensures r.Aborted? <==> forall i :: 0 <= i < |answers| ==> !IsKebabName(answers[i])
    ensures r.Named? ==>
              exists i :: 0 <= i < |answers| && answers[i] == r.name &&
                          forall j :: 0 <= j < i ==> !IsKebabName(answers[j])
  {
    match Ask(answers, IsKebabName)
    case None => Aborted
    case Some(reply) =>
      var used := |answers| - |reply.rest|;
      assert answers[used - 1] == reply.answer;
      Named(reply.answer)
  }

  /**
   * `chartNameSuggestedAccept`: asks the yes/no question about `suggestion`;
   * an answer whose lower-cased first character is `y` takes it, any other
   * well-formed answer goes on to the typed-name prompt with the remaining
   * input. An input that ends before a well-formed answer is its error
   * callback, which goes to the typed-name prompt with nothing left to read.
   */
  function Confirm(suggestion: string, answers: seq<string>): (r: Resolution)
    ensures r.Named? ==> r.name == suggestion || (IsKebabName(r.name) && r.name in answers)
  {
    match Ask(answers, IsYesNo)
    case None => Create([])
    case Some(reply) =>
      if AcceptsSuggestion(reply.answer) then Named(suggestion)
      else
        assert forall a :: a in reply.rest ==> a in answers;
        Create(reply.rest)
  }

  /**
   * The top-level dispatch: with `CI` set the suggestion is used without a
   * question; otherwise a suggestion other than the template's own name is
   * offered for confirmation, and the template's own name sends the user
   * straight to the typed-name prompt.
   */
  function Resolve(ci: bool, dirName: string, answers: seq<string>): (r: Resolution)
    ensures r.Named? ==>
      || (ci && r.name == Suggest(dirName))
      || (!ci && !IsDefault(dirName) && r.name == Suggest(dirName))
      || (!ci && IsKebabName(r.name) && r.name in answers)
  {
    if ci then Named(Suggest(dirName))
    else if !IsDefault(dirName) then Confirm(Suggest(dirName), answers)
    else Create(answers)
  }

  /**
   * The three paths: CI takes the suggestion, a non-default suggestion is
   * confirmed, the template's own name goes to the typed-name prompt.
   */
  lemma ResolveDispatch(ci: bool, dirName: string, answers: seq<string>)
    ensures ci ==> Resolve(ci, dirName, answers) == Named(Suggest(dirName))
    ensures !ci && !IsDefault(dirName) ==>
      Resolve(ci, dirName, answers) == Confirm(Suggest(dirName), answers)
    ensures !ci && IsDefault(dirName) ==> Resolve(ci, dirName, answers) == Create(answers)
  {
  }

  /** Every name handed to setup, on any path, holds only lower-case letters, digits and hyphens. */
  lemma ResolvedNameIsPathSafe(ci: bool, dirName: string, answers: seq<string>)
    requires Resolve(ci, dirName, answers).Named?
    ensures var n := Resolve(ci, dirName, answers).name;
      forall i :: 0 <= i < |n| ==> IsSuggestionChar(n[i])
  {
    var n := Resolve(ci, dirName, answers).name;
    if n != Suggest(dirName) {
      KebabNameIff(n);
    }
  }

  /** A directory with the template's own name is never named silently: without CI the name is typed. */
  lemma DefaultNameIsTyped(dirName: string, answers: seq<string>)
    requires IsDefault(dirName)
    requires Resolve(false, dirName, answers).Named?
    ensures IsKebabName(Resolve(false, dirName, answers).name)
  {
  }

  /** An accepting first well-formed answer takes the suggestion. */
  lemma ConfirmAccepts(suggestion: string, a: string, rest: seq<string>)
    requires IsYesNo(a) && AcceptsSuggestion(a)
    ensures Confirm(suggestion, [a] + rest) == Named(suggestion)
  {
    assert ([a] + rest)[0] == a;
  }

  /** A declining first well-formed answer hands the remaining input to the typed-name prompt. */
  lemma ConfirmDeclines(suggestion: string, a: string, rest: seq<string>)
    requires IsYesNo(a) && !AcceptsSuggestion(a)
    ensures Confirm(suggestion, [a] + rest) == Create(rest)
  {
    assert ([a] + rest)[0] == a && ([a] + rest)[1..] == rest;
  }

  /** A malformed answer is asked again and changes nothing else. */
  lemma ConfirmReasks(suggestion: string, a: string, rest: seq<string>)
    requires !IsYesNo(a)
    ensures Confirm(suggestion, [a] + rest) == Confirm(suggestion, rest)
  {
    assert ([a] + rest)[0] == a && ([a] + rest)[1..] == rest;
  }

  /** The same for the typed-name prompt. */
  lemma CreateReasks(a: string, rest: seq<string>)
    requires !IsKebabName(a)
    ensures Create([a] + rest) == Create(rest)
  {
    assert ([a] + rest)[0] == a && ([a] + rest)[1..] == rest;
  }

  /** Under CI the answers are never read, so the result does not depend on them. */
  lemma CiIgnoresAnswers(dirName: string, answers: seq<string>, others: seq<string>)
    ensures Resolve(true, dirName, answers) == Resolve(true, dirName, others)
  {
  }

  /** Under CI a directory name the typed prompt would refuse still reaches setup: `a__b` is named `a--b`. */
  lemma CiPassesMalformedName(answers: seq<string>)
    ensures Resolve(true, "a__b", answers) == Named("a--b")
    ensures !IsKebabName("a--b")
  {
    SuggestNotAlwaysKebab();
  }
}
