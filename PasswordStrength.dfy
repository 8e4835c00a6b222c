/**
  The sign-up page's password-strength meter: five independent checks,
  counted into a score from 0 to 5, and the score bucketed into one of
  three tiers (a label, a bar width in percent and a colour class).
 */
module PasswordStrength {

  datatype Strength = Strength(level: string, percent: nat, color: string)

  const Weak := Strength("Weak", 25, "bg-danger")
  const Medium := Strength("Medium", 60, "bg-warning")
  const Strong := Strength("Strong", 100, "bg-success")

  /** The label shown under the bar while the field is empty. */
  const EmptyLabel := "Enter a password"

  /** The regular-expression class `\d`: ASCII digits only. */
  predicate IsAsciiDigit(c: char) { '0' <= c <= '9' }

  /** The class `[A-Z]`. */
  predicate IsAsciiUpper(c: char) { 'A' <= c <= 'Z' }

  /** The class `[A-Za-z0-9]`. */
  predicate IsAsciiAlnum(c: char) { 'a' <= c <= 'z' || IsAsciiUpper(c) || IsAsciiDigit(c) }

  predicate HasDigit(s: string) { exists i | 0 <= i < |s| :: IsAsciiDigit(s[i]) }

  predicate HasUpper(s: string) { exists i | 0 <= i < |s| :: IsAsciiUpper(s[i]) }

  /** Some code unit outside `[A-Za-z0-9]` (spaces and non-ASCII letters included). */
  predicate HasSpecial(s: string) { exists i | 0 <= i < |s| :: !IsAsciiAlnum(s[i]) }

  /** The outcome of each of the five checks, in the order the meter applies them. */
  function Checks(value: string): (c: seq<bool>)
    ensures |c| == 5
  {
    [|value| >= 4, |value| >= 6, HasDigit(value), HasUpper(value), HasSpecial(value)]
  }

  /** How many entries of `bs` are true. */
  function CountTrue(bs: seq<bool>): (n: nat)
    ensures n <= |bs|
    ensures n == 0 <==> forall i | 0 <= i < |bs| :: !bs[i]
    ensures n == |bs| <==> forall i | 0 <= i < |bs| :: bs[i]
  {
    if bs == [] then 0 else Indicator(bs[0]) + CountTrue(bs[1..])
  }

  /** The score is the number of satisfied checks. */
  function Score(value: string): (score: nat)
    ensures score <= 5
  {
    CountTrue(Checks(value))
  }

  /** The tier a score falls in: at most one check is Weak, two or three
      are Medium, four or more are Strong. */
  function Tier(score: int): (t: Strength)
    ensures t == Weak <==> score <= 1
    ensures t == Medium <==> 2 <= score <= 3
    ensures t == Strong <==> score >= 4
    ensures t.percent in {25, 60, 100}
  {
    if score <= 1 then Weak
    else if score <= 3 then Medium
    else Strong
  }

  /** The meter itself: a counter bumped by five checks in turn, then
      bucketed. Its result is the tier of the number of satisfied checks. */
  method GetPasswordStrength(value: string) returns (strength: Strength)
    ensures strength == Tier(Score(value))
  {
    var score := 0;
    if |value| >= 4 { score := score + 1; }
    if |value| >= 6 { score := score + 1; }
    if HasDigit(value) { score := score + 1; }
    if HasUpper(value) { score := score + 1; }
    if HasSpecial(value) { score := score + 1; }
    ScoreUnfolds(value);

    if score <= 1 { return Weak; }
    if score <= 3 { return Medium; }
    return Strong;
  }

  function Indicator(b: bool): nat { if b then 1 else 0 }

  /** The score is the sum of the five check indicators. */
  lemma ScoreUnfolds(value: string)
    ensures Score(value) == Indicator(|value| >= 4) + Indicator(|value| >= 6)
      + Indicator(HasDigit(value)) + Indicator(HasUpper(value)) + Indicator(HasSpecial(value))
  {
    var c := Checks(value);
    assert CountTrue(c) == Indicator(c[0]) + CountTrue(c[1..]);
    assert CountTrue(c[1..]) == Indicator(c[1]) + CountTrue(c[2..]);
    assert CountTrue(c[2..]) == Indicator(c[2]) + CountTrue(c[3..]);
    assert CountTrue(c[3..]) == Indicator(c[3]) + CountTrue(c[4..]);
    assert CountTrue(c[4..]) == Indicator(c[4]) + CountTrue(c[5..]);
    assert c[5..] == [];
  }

  /** The text under the bar: the tier's label, or a prompt when the field is empty. */
  function StrengthLabel(value: string): (caption: string)
    ensures caption == EmptyLabel <==> value == []
    ensures value != [] ==> caption in {"Weak", "Medium", "Strong"}
    ensures value != [] ==> caption == Tier(Score(value)).level
  {
    if value == [] then EmptyLabel else Tier(Score(value)).level
  }

  /** The empty password satisfies no check, so it sits in the weak tier. */
  lemma EmptyScoresZero()
    ensures Score([]) == 0 && Tier(Score([])) == Weak
  {
    ScoreUnfolds([]);
  }

  /** A higher score never gives a narrower bar. */
  lemma TierMonotone(a: int, b: int)
    requires a <= b
    ensures Tier(a).percent <= Tier(b).percent
  {
  }

  /** A password rated Strong has at least four code units: with fewer,
      the two length checks fail and at most three checks remain. */
  lemma StrongHasMinimumLength(value: string)
    requires Tier(Score(value)) == Strong
    ensures |value| >= 4
  {
    ScoreUnfolds(value);
  }

  /** Lower-case letters and digits only: no capital and no special code unit. */
  lemma LowerAlnumOnly(s: string)
    requires forall i | 0 <= i < |s| :: 'a' <= s[i] <= 'z' || IsAsciiDigit(s[i])
    ensures !HasUpper(s) && !HasSpecial(s)
  {
  }

  /** An all-lower-case four-letter word passes one check only: weak. */
  lemma WeakExample()
    ensures Tier(Score("abcd")) == Weak
  {
    var s := "abcd";
    LowerAlnumOnly(s);
    assert !HasDigit(s) by {
      forall i | 0 <= i < |s| ensures 'a' <= s[i] <= 'z' { }
    }
    ScoreUnfolds(s);
  }

  /** Adding a digit gives a second point: medium. */
  lemma MediumExample()
    ensures Tier(Score("abcd1")) == Medium
  {
    var s := "abcd1";
    LowerAlnumOnly(s);
    assert IsAsciiDigit(s[4]);
    ScoreUnfolds(s);
  }

  /** Six code units with an upper-case letter, a digit and a symbol pass every check. */
  lemma StrongExample()
    ensures Score("Abcd1!") == 5 && Tier(Score("Abcd1!")) == Strong
  {
    ScoreUnfolds("Abcd1!");
    assert IsAsciiUpper("Abcd1!"[0]) && IsAsciiDigit("Abcd1!"[4]) && !IsAsciiAlnum("Abcd1!"[5]);
  }
}
