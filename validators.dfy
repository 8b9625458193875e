/** The word blocklist applied to user-supplied text (app/feed/validators.py). */
module Validators {
  import opened Results
  import opened Text

  /** The module-level tuple `not_allowed_words`. */
  const NotAllowedWords: seq<string> := ["Murder"]

  /**
   * Outcome of the check: the value passes, or a ValidationError names a
   * word and carries its detail text.
   */
  datatype Verdict = Allowed | Rejected(word: string, detail: string)

  /** The detail text of the ValidationError raised for `word`. */
  function RejectionDetail(word: string): string
  {
    "<" + word + "> word is not an allowed word"
  }

  /**
   * Index of the first word of `words`, in tuple order, that occurs as a
   * substring of `value`.
   */
  function FirstContained(words: seq<string>, value: string): (r: Option<nat>)
    ensures r.Some? ==> r.value < |words| && Contains(value, words[r.value])
    ensures r.Some? ==> forall j :: 0 <= j < r.value ==> !Contains(value, words[j])
    ensures r.None? <==> forall j :: 0 <= j < |words| ==> !Contains(value, words[j])
  {
    if |words| == 0 then None
    else if Contains(value, words[0]) then Some(0)
    else
      match FirstContained(words[1..], value)
      case None => None
      case Some(k) => Some(k + 1)
  }

  /**
   * The loop of `check_allowed_words` over a blocklist `words`: the first
   * word, in tuple order, that is a case-sensitive substring of `value`
   * is reported.
   */
  function CheckWords(words: seq<string>, value: string): (r: Verdict)
    ensures r.Rejected? ==> exists i :: 0 <= i < |words| && words[i] == r.word
                                  && Contains(value, r.word)
                                  && forall j :: 0 <= j < i ==> !Contains(value, words[j])
    ensures r.Rejected? ==> r.detail == RejectionDetail(r.word)
    ensures r.Allowed? <==> forall w :: w in words ==> !Contains(value, w)
  {
    match FirstContained(words, value)
    case None => Allowed
    case Some(i) =>
      assert words[i] in words;
      Rejected(words[i], RejectionDetail(words[i]))
  }

  /** `check_allowed_words(value)` against the fixed blocklist. */
  function CheckAllowedWords(value: string): (r: Verdict)
    ensures r.Rejected? ==> r.word == "Murder" && Contains(value, "Murder")
    ensures r.Rejected? ==> r.detail == RejectionDetail("Murder")
    ensures r.Allowed? <==> !Contains(value, "Murder")
  {
    CheckWords(NotAllowedWords, value)
  }

  /** Any value with `Murder` in it is rejected, naming that word. */
  lemma MurderRejected(value: string)
    requires Contains(value, "Murder")
    ensures CheckAllowedWords(value) == Rejected("Murder", RejectionDetail("Murder"))
  {
  }

  /** Matching is by substring, not by word: `Murderer` is rejected too. */
  lemma SubstringNotWord(value: string)
    requires Contains(value, "Murderer")
    ensures CheckAllowedWords(value) == Rejected("Murder", RejectionDetail("Murder"))
  {
    ContainsPrefixOf(value, "Murderer", "Murder");
  }

  /** Matching is case-sensitive: text without a capital `M` always passes. */
  lemma WithoutCapitalMAllowed(value: string)
    requires 'M' !in value
    ensures CheckAllowedWords(value) == Allowed
  {
    AbsentFirstChar(value, "Murder");
  }

  /** A description containing `Murder` is rejected. */
  lemma RejectedExample()
    ensures CheckAllowedWords("Create Murder description") == Rejected("Murder", RejectionDetail("Murder"))
  {
    var v := "Create Murder description";
    assert v[7..13] == "Murder";
    assert OccursAt(v, "Murder", 7);
    ContainsIffOccurs(v, "Murder");
  }

  /** A lower-case occurrence passes. */
  lemma LowerCaseExample()
    ensures CheckAllowedWords("a murder case") == Allowed
  {
    var v := "a murder case";
    assert forall i :: 0 <= i < |v| ==> v[i] != 'M';
    WithoutCapitalMAllowed(v);
  }
}
