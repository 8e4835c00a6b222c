/**
  The survey page: a free-text answer that must be at least two code units
  long once trimmed and must not contain a blacklisted word; a draft saved
  periodically; the accepted answer stored and the draft dropped; and a
  warning when leaving the page with unsubmitted text.
 */
module Survey {
  import opened Wrappers
  import opened JsText
  import opened LocalStore

  const MinChars := 2
  /** The placeholder blacklist. */
  const Blacklist: seq<string> := ["badword1", "badword2"]

  const DraftKey := "surveyDraft"
  const ResponseKey := "surveyResponse"
  const HubUrl := "learning-hub.html"

  const TooShortMessage := "Please write at least 2 characters."
  const InappropriateMessage := "Your response appears to contain inappropriate language. Please revise it."
  const SavedMessage := "Response saved! Moving to learning materials..."

  /** `words.some(word => text.includes(word))`. */
  function SomeIncluded(text: string, words: seq<string>): (found: bool)
    ensures found <==> exists k | 0 <= k < |words| :: Includes(text, words[k])
  {
    if words == [] then false
    else Includes(text, words[0]) || SomeIncluded(text, words[1..])
  }

  /** `containsProfanity`: lower-case the text and look for each blacklisted word. */
  function ContainsProfanity(text: string): (found: bool)
    ensures found <==> Includes(ToLower(text), "badword1") || Includes(ToLower(text), "badword2")
  {
    var lower := ToLower(text);
    assert Blacklist[0] == "badword1" && Blacklist[1] == "badword2";
    SomeIncluded(lower, Blacklist)
  }

  /** The text contains profanity exactly when some blacklisted word occurs,
      at some index, in the lower-cased text. */
  lemma ContainsProfanitySpec(text: string)
    ensures ContainsProfanity(text) <==> exists k: nat, i: nat | k < |Blacklist| :: OccursAt(Blacklist[k], ToLower(text), i)
  {
    var lower := ToLower(text);
    IncludesSpec(lower, Blacklist[0]);
    IncludesSpec(lower, Blacklist[1]);
  }

  /** The match ignores case: lower-casing the text first changes nothing. */
  lemma ProfanityIgnoresCase(text: string)
    ensures ContainsProfanity(ToLower(text)) == ContainsProfanity(text)
  {
    ToLowerIdempotent(text);
  }

  /** Texts that differ only in the case of ASCII letters get the same verdict. */
  lemma ProfanityUpToCase(a: string, b: string)
    requires SameUpToCase(a, b)
    ensures ContainsProfanity(a) == ContainsProfanity(b)
  {
    ToLowerUpToCase(a, b);
  }

  /** Every case variant of a blacklisted word, such as "BadWord2", is caught. */
  lemma CaseVariantCaught(text: string, k: nat)
    requires k < |Blacklist| && SameUpToCase(text, Blacklist[k])
    ensures ContainsProfanity(text)
  {
    ProfanityUpToCase(text, Blacklist[k]);
    assert ToLower(Blacklist[k]) == Blacklist[k];
    assert Blacklist[k][..|Blacklist[k]|] == Blacklist[k];
  }

  /** An upper-case blacklisted word is caught. */
  lemma UpperCaseWordCaught()
    ensures ContainsProfanity("BADWORD1")
  {
    var lower := ToLower("BADWORD1");
    assert lower == "badword1";
    assert Includes(lower, Blacklist[0]);
  }

  /** Text shorter than every blacklisted word contains none of them, so the
      length rule and the blacklist never both reject the same answer. */
  lemma ShortTextIsClean(text: string)
    requires |text| < MinChars
    ensures !ContainsProfanity(text)
  {
    ContainsProfanitySpec(text);
    forall k: nat, i: nat | k < |Blacklist| ensures !OccursAt(Blacklist[k], ToLower(text), i) {
      assert |Blacklist[k]| == 8;
    }
  }

  /** Why an answer was refused, or the trimmed answer that was accepted. */
  datatype Verdict = Accepted(answer: string) | TooShort | Inappropriate {
    /** The feedback shown after a submit: each verdict has its own text. */
    function Message(): (text: string)
      ensures text == SavedMessage <==> Accepted?
      ensures text == TooShortMessage <==> this == TooShort
      ensures text == InappropriateMessage <==> this == Inappropriate
    {
      match this
      case Accepted(_) => SavedMessage
      case TooShort => TooShortMessage
      case Inappropriate => InappropriateMessage
    }
  }

  /** The submit rules, in order: the trimmed length first, then the blacklist
      on the trimmed text. An accepted answer is the trimmed text. */
  function CheckAnswer(text: string): (v: Verdict)
    ensures v == TooShort <==> |Trim(text)| < MinChars
    ensures v == Inappropriate <==> |Trim(text)| >= MinChars && ContainsProfanity(Trim(text))
    ensures v.Accepted? ==> v.answer == Trim(text) && |v.answer| >= MinChars && !ContainsProfanity(v.answer)
  {
    var answer := Trim(text);
    if |answer| < MinChars then TooShort
    else if ContainsProfanity(answer) then Inappropriate
    else Accepted(answer)
  }

  /** The character counter's "too short" state, computed from the same
      trimmed length: it agrees with the submit rule exactly. */
  function CounterTooShort(text: string): (tooShort: bool)
    ensures tooShort <==> CheckAnswer(text) == TooShort
  {
    |Trim(text)| < MinChars
  }

  /** What an accepted submission writes: the answer under the response key,
      and no draft; every other key is unchanged. */
  function SurveyWrites(items: map<string, string>, answer: string): (m: map<string, string>)
    ensures Lookup(m, ResponseKey) == Some(answer)
    ensures Lookup(m, DraftKey) == None
    ensures forall k | k != ResponseKey && k != DraftKey :: Lookup(m, k) == Lookup(items, k)
  {
    items[ResponseKey := answer] - {DraftKey}
  }

  /** One survey page: the text area's content and whether it was submitted. */
  class SurveyPage {
    var text: string
    var submitted: bool

    /** Opening the page restores a non-empty saved draft over the initial text. */
    constructor (store: Store, initialText: string)
      ensures text == if Truthy(Lookup(store.items, DraftKey)) then store.items[DraftKey] else initialText
      ensures !submitted
    {
      var draft := store.GetItem(DraftKey);
      if Truthy(draft) {
        text := draft.value;
      } else {
        text := initialText;
      }
      submitted := false;
    }

    /** The user edits the text. */
    method Edit(newText: string)
      modifies this
      ensures text == newText && submitted == old(submitted)
    {
      text := newText;
    }

    /** The periodic autosave: the text, untrimmed, becomes the draft. */
    method Autosave(store: Store)
      modifies store
      ensures store.items == old(store.items)[DraftKey := text]
    {
      store.SetItem(DraftKey, text);
    }

    /** The Submit button. A refused answer changes nothing; an accepted one
        is stored, the draft is removed and the page is marked submitted. */
    method Submit(store: Store) returns (verdict: Verdict, redirect: Option<string>)
      modifies this, store
      ensures text == old(text)
      ensures verdict == CheckAnswer(text)
      ensures verdict.Accepted? ==> submitted && redirect == Some(HubUrl)
                                    && store.items == SurveyWrites(old(store.items), verdict.answer)
      ensures !verdict.Accepted? ==> submitted == old(submitted) && redirect == None
                                     && store.items == old(store.items)
    {
      verdict := CheckAnswer(text);
      if !verdict.Accepted? {
        return verdict, None;
      }
      Commit(store, verdict.answer);
      redirect := Some(HubUrl);
    }

    /** The delayed part of an accepted submission: mark the page submitted,
        store the answer and drop the draft. */
    method Commit(store: Store, answer: string)
      modifies this, store
      ensures text == old(text) && submitted
      ensures store.items == SurveyWrites(old(store.items), answer)
    {
      submitted := true;
      store.SetItem(ResponseKey, answer);
      store.RemoveItem(DraftKey);
    }

    /** The leave-page warning: on while the survey is unsubmitted and the
        text is not blank. */
    method WarnsOnLeave() returns (warn: bool)
      ensures warn <==> !submitted && !AllWhitespace(text)
    {
      warn := !submitted && |Trim(text)| > 0;
    }
  }
}
