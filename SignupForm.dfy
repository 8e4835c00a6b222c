/**
  The sign-up page: three field validators, each an ordered list of checks
  ending in a pass or in one specific message, and the submit handler that
  runs all three and, when every field passes, stores the trimmed name and
  e-mail address.
 */
module SignupForm {
  import opened Wrappers
  import opened JsText
  import LocalStore
  import PasswordStrength

  /** A validator's verdict: the field passes, or fails with a message. */
  datatype Check = Pass | Fail(message: string)

  const NameEmptyMessage := "Please enter your name."
  const NameShortMessage := "Name should be at least 2 characters."
  const EmailEmptyMessage := "Please enter your email."
  const EmailFormatMessage := "Please enter a valid email address."
  const PasswordEmptyMessage := "Please enter a password."
  const PasswordShortMessage := "Password should be at least 4 characters."
  const CorrectFieldsMessage := "Please correct the highlighted fields."
  const SuccessMessage := "Sign up successful! Redirecting..."

  const NameKey := "researchAppUserName"
  const EmailKey := "researchAppUserEmail"
  const NextPageUrl := "pre-directions.html"

  /** The name field, trimmed, must be present and at least two code units long.
      An all-whitespace name always gets the "enter your name" message. */
  function ValidateName(input: string): (r: Check)
    ensures r.Pass? <==> |Trim(input)| >= 2
    ensures r == Fail(NameEmptyMessage) <==> AllWhitespace(input)
    ensures r == Fail(NameShortMessage) <==> |Trim(input)| == 1
  {
    var value := Trim(input);
    if value == [] then Fail(NameEmptyMessage)
    else if |value| < 2 then Fail(NameShortMessage)
    else Pass
  }

  /** The class `[^\s@]`. */
  predicate Plain(c: char) {
    !IsWhitespace(c) && c != '@'
  }

  predicate AllPlain(s: string) {
    forall i | 0 <= i < |s| :: Plain(s[i])
  }

  /** `s` splits as the pattern's three runs: `s[..at]`, `@`, `s[at+1..dot]`,
      `.`, `s[dot+1..]`, each run non-empty and free of whitespace and `@`. */
  predicate EmailSplit(s: string, at: int, dot: int) {
    && 0 < at && at + 1 < dot && dot + 1 < |s|
    && s[at] == '@' && s[dot] == '.'
    && AllPlain(s[..at]) && AllPlain(s[at + 1..dot]) && AllPlain(s[dot + 1..])
  }

  /** `/^[^\s@]+@[^\s@]+\.[^\s@]+$/.test(s)`: some split of `s` fits the pattern. */
  predicate MatchesEmailPattern(s: string): (m: bool)
    ensures m ==> |s| >= 5
  {
    exists at, dot | 0 < at < dot < |s| :: EmailSplit(s, at, dot)
  }

  /** `at` is the position of the only `@` in `s`, and a `.` at `dot`
      follows it with at least one code unit on each side. */
  ghost predicate SoleAtThenDot(s: string, at: int, dot: int) {
    && 0 < at && at + 1 < dot && dot + 1 < |s|
    && s[at] == '@' && s[dot] == '.'
    && forall i | 0 <= i < |s| && s[i] == '@' :: i == at
  }

  /** What an address the pattern accepts looks like, stated without the
      pattern: no whitespace, exactly one `@`, not first, and a `.` after it
      with text on both sides. */
  ghost predicate WellFormedAddress(s: string) {
    NoWhitespace(s) && exists at, dot :: SoleAtThenDot(s, at, dot)
  }

  /** The pattern accepts exactly the well-formed addresses. */
  lemma EmailPatternCharacterization(s: string)
    ensures MatchesEmailPattern(s) <==> WellFormedAddress(s)
  {
    if MatchesEmailPattern(s) {
      var at, dot :| 0 < at < dot < |s| && EmailSplit(s, at, dot);
      forall i | 0 <= i < |s| ensures !IsWhitespace(s[i]) && (s[i] == '@' ==> i == at) {
        if i < at {
          assert s[..at][i] == s[i];
        } else if at < i < dot {
          assert s[at + 1..dot][i - at - 1] == s[i];
        } else if dot < i {
          assert s[dot + 1..][i - dot - 1] == s[i];
        }
      }
      assert SoleAtThenDot(s, at, dot);
    }
    if WellFormedAddress(s) {
      var at, dot :| SoleAtThenDot(s, at, dot);
      assert AllPlain(s[..at]) by {
        forall i | 0 <= i < at ensures Plain(s[..at][i]) { assert s[..at][i] == s[i]; }
      }
      var domain, tld := s[at + 1..dot], s[dot + 1..];
      assert AllPlain(domain) by {
        forall i | 0 <= i < |domain| ensures Plain(domain[i]) {
          assert domain[i] == s[at + 1 + i];
        }
      }
      assert AllPlain(tld) by {
        forall i | 0 <= i < |tld| ensures Plain(tld[i]) {
          assert tld[i] == s[dot + 1 + i];
        }
      }
      assert EmailSplit(s, at, dot);
    }
  }

  /** The e-mail field, trimmed, must be present and must fit the pattern.
      An all-whitespace value gets the "enter your email" message and never
      the format message. */
  function ValidateEmail(input: string): (r: Check)
    ensures r == Fail(EmailEmptyMessage) <==> AllWhitespace(input)
    ensures r == Fail(EmailFormatMessage) <==> !AllWhitespace(input) && !MatchesEmailPattern(Trim(input))
    ensures r.Pass? <==> !AllWhitespace(input) && MatchesEmailPattern(Trim(input))
  {
    var value := Trim(input);
    if value == [] then Fail(EmailEmptyMessage)
    else if !MatchesEmailPattern(value) then Fail(EmailFormatMessage)
    else Pass
  }

  /** Every accepted address, once trimmed, is well formed. */
  lemma AcceptedEmailIsWellFormed(input: string)
    requires ValidateEmail(input).Pass?
    ensures WellFormedAddress(Trim(input))
  {
    EmailPatternCharacterization(Trim(input));
  }

  /** "a@b.c" passes. */
  lemma ShortestAddressAccepted()
    ensures ValidateEmail("a@b.c") == Pass
  {
    var s := "a@b.c";
    TrimOfTrimmed(s);
    assert EmailSplit(s, 1, 3) by {
      assert s[..1] == "a" && s[2..3] == "b" && s[4..] == "c";
    }
  }

  /** "a@b" has no dot after the `@`: it fails with the format message. */
  lemma MissingDotRejected()
    ensures ValidateEmail("a@b") == Fail(EmailFormatMessage)
  {
    TrimOfTrimmed("a@b");
  }

  /** The empty value fails with the empty-field message, not the format message. */
  lemma EmptyEmailRejected()
    ensures ValidateEmail("") == Fail(EmailEmptyMessage)
  {
  }

  /** The password field is not trimmed: it must be non-empty and at least
      four code units long. */
  function ValidatePassword(value: string): (r: Check)
    ensures r.Pass? <==> |value| >= 4
    ensures r == Fail(PasswordEmptyMessage) <==> value == []
    ensures r == Fail(PasswordShortMessage) <==> 0 < |value| < 4
  {
    if value == [] then Fail(PasswordEmptyMessage)
    else if |value| < 4 then Fail(PasswordShortMessage)
    else Pass
  }

  /** Four spaces make an acceptable password even though they trim to nothing. */
  lemma BlankPasswordAccepted()
    ensures ValidatePassword("    ") == Pass && Trim("    ") == []
  {
    var s := "    ";
    assert |s| == 4;
    assert AllWhitespace(s) by {
      forall i | 0 <= i < |s| ensures s[i] == ' ' { }
    }
  }

  /** A password the meter rates Strong always passes the password check. */
  lemma StrongPasswordPasses(value: string)
    requires PasswordStrength.Tier(PasswordStrength.Score(value)) == PasswordStrength.Strong
    ensures ValidatePassword(value) == Pass
  {
    PasswordStrength.StrongHasMinimumLength(value);
  }

  /** The verdicts of one submit: every validator runs, whatever the others say. */
  datatype SignupOutcome = SignupOutcome(name: Check, email: Check, password: Check) {
    predicate Accepted() {
      name.Pass? && email.Pass? && password.Pass?
    }

    /** The message shown under the form after a submit. */
    function Feedback(): (text: string)
      ensures text == SuccessMessage <==> Accepted()
      ensures !Accepted() ==> text == CorrectFieldsMessage
    {
      if Accepted() then SuccessMessage else CorrectFieldsMessage
    }
  }

  /** The three verdicts of a submit. Each field's verdict depends on that
      field alone, and the sign-up goes ahead exactly when all three pass. */
  function EvaluateSignup(name: string, email: string, password: string): (o: SignupOutcome)
    ensures o.name.Pass? <==> |Trim(name)| >= 2
    ensures o.email.Pass? <==> !AllWhitespace(email) && MatchesEmailPattern(Trim(email))
    ensures o.password.Pass? <==> |password| >= 4
    ensures o.Accepted() <==>
      |Trim(name)| >= 2 && !AllWhitespace(email) && MatchesEmailPattern(Trim(email)) && |password| >= 4
  {
    SignupOutcome(ValidateName(name), ValidateEmail(email), ValidatePassword(password))
  }

  /** What a successful sign-up writes: the trimmed name and e-mail address. */
  function SignupWrites(items: map<string, string>, name: string, email: string): (m: map<string, string>)
    ensures m.Keys == items.Keys + {NameKey, EmailKey}
    ensures m[NameKey] == Trim(name) && m[EmailKey] == Trim(email)
    ensures forall k | k in items && k != NameKey && k != EmailKey :: m[k] == items[k]
  {
    assert |NameKey| != |EmailKey|;
    var trimmedName, trimmedEmail := Trim(name), Trim(email);
    items[NameKey := trimmedName][EmailKey := trimmedEmail]
  }

  /** The form's submit handler. All three validators run; when one fails the
      store is untouched and no page is opened; otherwise the trimmed name and
      e-mail address are stored and the next page is chosen. */
  method SubmitSignup(store: LocalStore.Store, name: string, email: string, password: string)
    returns (outcome: SignupOutcome, redirect: Option<string>)
    modifies store
    ensures outcome == EvaluateSignup(name, email, password)
    ensures redirect == if outcome.Accepted() then Some(NextPageUrl) else None
    ensures store.items == if outcome.Accepted() then SignupWrites(old(store.items), name, email)
                           else old(store.items)
  {
    var validName := ValidateName(name);
    var validEmail := ValidateEmail(email);
    var validPassword := ValidatePassword(password);
    outcome := SignupOutcome(validName, validEmail, validPassword);

    if !validName.Pass? || !validEmail.Pass? || !validPassword.Pass? {
      redirect := None;
      return;
    }

    store.SetItem(NameKey, Trim(name));
    store.SetItem(EmailKey, Trim(email));
    redirect := Some(NextPageUrl);
  }
}
