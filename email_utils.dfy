/** EmailUtils: the e-mail address recogniser and the six-digit verification code */
module EmailUtils {

  import opened Wrappers
  import Text

  const CODE_LENGTH: nat := 6
  const RANDOM_BOUND: nat := 10

  /** A character of the class before the address's '@': letters, digits and + _ . - */
  predicate LocalChar(c: char) {
    Text.IsUpper(c) || Text.IsLower(c) || Text.IsDigit(c) || c == '+' || c == '_' || c == '.' || c == '-'
  }

  /** A character of the class after the '@': letters, digits and . - */
  predicate DomainChar(c: char) {
    Text.IsUpper(c) || Text.IsLower(c) || Text.IsDigit(c) || c == '.' || c == '-'
  }

  /** The whole string is one or more local characters, an '@', and one or more domain
      characters: the pattern ^[A-Za-z0-9+_.-]+@[A-Za-z0-9.-]+$ matched against all of it */
  ghost predicate MatchesPattern(s: string) {
    exists k :: 0 < k < |s| - 1 && s[k] == '@'
                && (forall i :: 0 <= i < k ==> LocalChar(s[i]))
                && (forall i :: k < i < |s| ==> DomainChar(s[i]))
  }

  /** The states of a recogniser for the pattern */
  datatype State = Start | Local | AtSign | Domain | Dead

  function Step(q: State, c: char): State {
    match q
    case Start => if LocalChar(c) then Local else Dead
    case Local => if c == '@' then AtSign else if LocalChar(c) then Local else Dead
    case AtSign => if DomainChar(c) then Domain else Dead
    case Domain => if DomainChar(c) then Domain else Dead
    case Dead => Dead
  }

  /** The state after reading the whole string from the start state */
  function Run(s: string): State
    decreases |s|
  {
    if |s| == 0 then Start else Step(Run(s[..|s| - 1]), s[|s| - 1])
  }

  ghost predicate AllLocal(s: string) {
    |s| > 0 && forall i :: 0 <= i < |s| ==> LocalChar(s[i])
  }

  /** What each state means about the text read so far */
  ghost function Meaning(s: string): State {
    if |s| == 0 then Start
    else if AllLocal(s) then Local
    else if s[|s| - 1] == '@' && AllLocal(s[..|s| - 1]) then AtSign
    else if MatchesPattern(s) then Domain
    else Dead
  }

  lemma {:induction false} RunMeaning(s: string)
    ensures Run(s) == Meaning(s)
    decreases |s|
  {
    if |s| > 0 {
      var p := s[..|s| - 1];
      assert s == p + [s[|s| - 1]];
      RunMeaning(p);
      MeaningStep(p, s[|s| - 1]);
    }
  }

  /** Reading one more character moves the meaning as the recogniser moves */
  lemma MeaningStep(p: string, c: char)
    ensures Meaning(p + [c]) == Step(Meaning(p), c)
  {
    match Meaning(p)
    case Start => StepFromStart(p, c);
    case Local => StepFromLocal(p, c);
    case AtSign => StepFromAtSign(p, c);
    case Domain => StepFromDomain(p, c);
    case Dead => StepFromDead(p, c);
  }

  lemma StepFromStart(p: string, c: char)
    requires Meaning(p) == Start
    ensures Meaning(p + [c]) == Step(Start, c)
  {
    var s := p + [c];
    assert p == [] && s == [c];
    if LocalChar(c) {
      assert AllLocal(s);
    } else {
      assert !AllLocal(s) by { assert !LocalChar(s[0]); }
    }
    assert !AllLocal(s[..0]);
    assert !MatchesPattern(s);
  }

  lemma StepFromLocal(p: string, c: char)
    requires Meaning(p) == Local
    ensures Meaning(p + [c]) == Step(Local, c)
  {
    var s := p + [c];
    assert AllLocal(p);
    assert s[..|s| - 1] == p;
    if c == '@' {
      assert !AllLocal(s) by { assert !LocalChar(s[|s| - 1]); }
    } else if LocalChar(c) {
      assert AllLocal(s) by {
        forall i | 0 <= i < |s| ensures LocalChar(s[i]) {
          if i < |p| { assert s[i] == p[i]; }
        }
      }
    } else {
      assert !AllLocal(s) by { assert !LocalChar(s[|s| - 1]); }
      assert !MatchesPattern(s);
    }
  }

  lemma StepFromAtSign(p: string, c: char)
    requires Meaning(p) == AtSign
    ensures Meaning(p + [c]) == Step(AtSign, c)
  {
    var s := p + [c];
    var n := |p| - 1;
    assert p[n] == '@' && AllLocal(p[..n]) && !AllLocal(p);
    assert s[n] == '@';
    assert !AllLocal(s) by { assert !LocalChar(s[n]); }
    if DomainChar(c) {
      assert forall i :: 0 <= i < n ==> s[i] == p[..n][i];
      assert MatchesPattern(s) by {
        assert 0 < n < |s| - 1;
      }
    } else {
      LastNotDomain(s);
    }
  }

  lemma StepFromDomain(p: string, c: char)
    requires Meaning(p) == Domain
    ensures Meaning(p + [c]) == Step(Domain, c)
  {
    var s := p + [c];
    var k :| 0 < k < |p| - 1 && p[k] == '@'
             && (forall i :: 0 <= i < k ==> LocalChar(p[i]))
             && (forall i :: k < i < |p| ==> DomainChar(p[i]));
    assert s[..|s| - 1] == p;
    assert !AllLocal(s) by { assert s[k] == '@'; assert !LocalChar(s[k]); }
    assert !AllLocal(p) by { assert !LocalChar(p[k]); }
    if DomainChar(c) {
      assert MatchesPattern(s) by {
        assert s[k] == '@';
        assert forall i :: 0 <= i < k ==> s[i] == p[i];
        assert forall i :: k < i < |s| ==> DomainChar(s[i]) by {
          forall i | k < i < |s| ensures DomainChar(s[i]) {
            if i < |p| { assert s[i] == p[i]; }
          }
        }
      }
    } else {
      LastNotDomain(s);
    }
  }

  /** A string that ends in a character outside the domain class does not match */
  lemma LastNotDomain(s: string)
    requires |s| > 0 && !DomainChar(s[|s| - 1])
    ensures !MatchesPattern(s)
  {
  }

  lemma StepFromDead(p: string, c: char)
    requires Meaning(p) == Dead
    ensures Meaning(p + [c]) == Dead
  {
    var s := p + [c];
    assert |p| > 0 && !AllLocal(p) && !MatchesPattern(p);
    assert s[..|s| - 1] == p;
    assert !AllLocal(s);
    assert !(s[|s| - 1] == '@' && AllLocal(s[..|s| - 1]));
    assert !MatchesPattern(s);
  }

  /** isValidEmail: false for null, else whether the whole string matches the pattern */
  function IsValidEmail(email: Option<string>): (r: bool)
    ensures r <==> email.Some? && MatchesPattern(email.value)
  {
    if email.None? then false
    else
      RunMeaning(email.value);
      Run(email.value) == Domain
  }

  /** A valid address has exactly one '@' and no whitespace, and the empty string is not one */
  lemma ValidEmailShape(s: string)
    requires IsValidEmail(Some(s))
    ensures s != ""
    ensures exists k :: 0 <= k < |s| && s[k] == '@'
    ensures forall i, j :: 0 <= i < |s| && 0 <= j < |s| && s[i] == '@' && s[j] == '@' ==> i == j
    ensures forall i :: 0 <= i < |s| ==> !Text.IsWhitespace(s[i])
  {
    var k :| 0 < k < |s| - 1 && s[k] == '@'
             && (forall i :: 0 <= i < k ==> LocalChar(s[i]))
             && (forall i :: k < i < |s| ==> DomainChar(s[i]));
    assert forall i :: 0 <= i < |s| && s[i] == '@' ==> i == k;
  }

  /** A few addresses, for orientation */
  lemma Examples()
    ensures IsValidEmail(Some("a.b+c@x-y.com"))
    ensures !IsValidEmail(Some("@x.com"))
    ensures !IsValidEmail(Some("a@"))
    ensures !IsValidEmail(Some("a b@x.com"))
    ensures !IsValidEmail(Some("a@b@c"))
    ensures !IsValidEmail(None)
  {
    var good := "a.b+c@x-y.com";
    assert good[5] == '@';
    assert forall i :: 0 <= i < 5 ==> LocalChar(good[i]);
    assert forall i :: 5 < i < |good| ==> DomainChar(good[i]);
    var s := "a b@x.com";
    assert forall k :: 0 < k < |s| - 1 && s[k] == '@' ==> k == 3;
    assert !LocalChar(s[1]);
    var t := "a@b@c";
    assert forall k :: 0 < k < |t| - 1 && t[k] == '@' ==> k == 1 || k == 3;
    assert !DomainChar(t[3]) && !LocalChar(t[1]);
  }

  /** The character of a decimal digit, as StringBuilder.append(int) writes it */
  function DigitChar(d: int): (c: char)
    requires 0 <= d < 10
    ensures Text.IsDigit(c) && c as int - '0' as int == d
  {
    ('0' as int + d) as char
  }

  /** The code the draws spell, one decimal digit per draw */
  function CodeOf(draws: seq<int>): (code: string)
    requires forall i :: 0 <= i < |draws| ==> 0 <= draws[i] < RANDOM_BOUND
    ensures |code| == |draws|
    ensures forall i :: 0 <= i < |code| ==> code[i] == DigitChar(draws[i])
  {
    seq(|draws|, i requires 0 <= i < |draws| => DigitChar(draws[i]))
  }

  /** createCode, with the six draws of nextInt(10) given in order */
  method CreateCode(draws: seq<int>) returns (code: string)
    requires |draws| == CODE_LENGTH
    requires forall i :: 0 <= i < |draws| ==> 0 <= draws[i] < RANDOM_BOUND
    ensures code == CodeOf(draws)
    ensures |code| == CODE_LENGTH
    ensures forall i :: 0 <= i < |code| ==> Text.IsDigit(code[i])
    ensures forall i :: 0 <= i < |code| ==> code[i] as int - '0' as int == draws[i]
  {
    var builder: string := "";
    var i := 0;
    while i < CODE_LENGTH
      invariant 0 <= i <= CODE_LENGTH
      invariant |builder| == i
      invariant forall j :: 0 <= j < i ==> builder[j] == DigitChar(draws[j])
    {
      builder := builder + [DigitChar(draws[i])];
      i := i + 1;
    }
    code := builder;
  }
}
