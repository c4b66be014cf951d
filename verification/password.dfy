/** Password strength policy applied at registration (`validate_password_strength`).
    The checks run in a fixed order and the first one that fails is reported
    as an HTTP 400. */
module Password {
  import opened Common

  /** One check of the policy, in the order the validator runs them. */
  datatype Rule = MinLength | Uppercase | Lowercase | Digit | Special

  const MinPasswordLength: nat := 8

  /** The order in which the checks run. */
  const Order: seq<Rule> := [MinLength, Uppercase, Lowercase, Digit, Special]

  /** The regular-expression character classes the validator searches for:
      `[A-Z]`, `[a-z]`, `[0-9]` and `[!@#$%^&*(),.?":{}|<>]`. */
  datatype CharClass = UpperAscii | LowerAscii | DigitAscii | SpecialMark

  const SpecialChars: set<char> :=
    {'!', '@', '#', '$', '%', '^', '&', '*', '(', ')', ',', '.', '?', '"', ':', '{', '}', '|', '<', '>'}

  predicate InClass(cls: CharClass, c: char)
  {
    match cls
    case UpperAscii => 'A' <= c <= 'Z'
    case LowerAscii => 'a' <= c <= 'z'
    case DigitAscii => '0' <= c <= '9'
    case SpecialMark => c in SpecialChars
  }

  /** `re.search(class, s)` finds a match. */
  predicate Contains(s: string, cls: CharClass)
  {
    exists i :: 0 <= i < |s| && InClass(cls, s[i])
  }

  /** Whether `password` passes one check. */
  predicate Holds(rule: Rule, password: string)
  {
    match rule
    case MinLength => |password| >= MinPasswordLength
    case Uppercase => Contains(password, UpperAscii)
    case Lowercase => Contains(password, LowerAscii)
    case Digit => Contains(password, DigitAscii)
    case Special => Contains(password, SpecialMark)
  }

  /** The policy as a whole: every check passes. */
  predicate Strong(password: string)
  {
    forall rule: Rule :: Holds(rule, password)
  }

  /** Position of a rule in `Order`. */
  function Rank(rule: Rule): (k: nat)
    ensures k < |Order| && Order[k] == rule
  {
    match rule
    case MinLength => 0
    case Uppercase => 1
    case Lowercase => 2
    case Digit => 3
    case Special => 4
  }

  /** The first rule of `Order`, from position `k` on, that `password` fails:
      a reference definition that walks the list of checks. */
  function FirstFailureFrom(password: string, k: nat): (r: Option<Rule>)
    requires k <= |Order|
    ensures r.None? <==> forall j :: k <= j < |Order| ==> Holds(Order[j], password)
    ensures r.Some? ==> k <= Rank(r.value) && !Holds(r.value, password)
    ensures r.Some? ==> forall j :: k <= j < Rank(r.value) ==> Holds(Order[j], password)
    decreases |Order| - k
  {
    if k == |Order| then None
    else if !Holds(Order[k], password) then Some(Order[k])
    else FirstFailureFrom(password, k + 1)
  }

  /** The rule the validator reports for `password`, or `None` when it passes. */
  function FirstFailure(password: string): (r: Option<Rule>)
    ensures r.None? <==> Strong(password)
    ensures r.Some? ==> !Holds(r.value, password)
    ensures r.Some? ==> forall j :: 0 <= j < Rank(r.value) ==> Holds(Order[j], password)
  {
    var r := FirstFailureFrom(password, 0);
    assert r.None? ==> forall rule: Rule :: Holds(rule, password) by {
      if r.None? {
        forall rule: Rule ensures Holds(rule, password) {
          assert Order[Rank(rule)] == rule;
        }
      }
    }
    r
  }

  /** The `HTTPException` the validator raises for a failed rule. */
  function RuleError(rule: Rule): (e: HttpError)
    ensures e.status == 400
  {
    match rule
    case MinLength => HttpError(400, "Le mot de passe doit contenir au moins 8 caractères")
    case Uppercase => HttpError(400, "Le mot de passe doit contenir au moins une majuscule")
    case Lowercase => HttpError(400, "Le mot de passe doit contenir au moins une minuscule")
    case Digit => HttpError(400, "Le mot de passe doit contenir au moins un chiffre")
    case Special => HttpError(400, "Le mot de passe doit contenir au moins un caractère spécial")
  }

  /** One `re.search` of a single character class: a left-to-right scan. */
  method Search(s: string, cls: CharClass) returns (found: bool)
    ensures found <==> Contains(s, cls)
  {
    var i := 0;
    while i < |s|
      invariant 0 <= i <= |s|
      invariant forall j :: 0 <= j < i ==> !InClass(cls, s[j])
    {
      if InClass(cls, s[i]) {
        return true;
      }
      i := i + 1;
    }
    return false;
  }

  /** `validate_password_strength`: the chain of checks, returning the rule
      whose `HTTPException` would be raised, or `None` when the password is
      accepted. Accepted exactly when every check passes; otherwise the
      reported rule fails and every rule ordered before it passes. */
  method ValidatePasswordStrength(password: string) returns (failed: Option<Rule>)
    ensures failed.None? <==> Strong(password)
    ensures failed.Some? ==> !Holds(failed.value, password)
    ensures failed.Some? ==> forall j :: 0 <= j < Rank(failed.value) ==> Holds(Order[j], password)
    ensures failed == FirstFailure(password)
  {
    if |password| < MinPasswordLength {
      assert !Holds(MinLength, password);
      return Some(MinLength);
    }
    var upper := Search(password, UpperAscii);
    if !upper {
      assert !Holds(Uppercase, password);
      return Some(Uppercase);
    }
    var lower := Search(password, LowerAscii);
    if !lower {
      assert !Holds(Lowercase, password);
      return Some(Lowercase);
    }
    var digit := Search(password, DigitAscii);
    if !digit {
      assert !Holds(Digit, password);
      return Some(Digit);
    }
    var special := Search(password, SpecialMark);
    if !special {
      assert !Holds(Special, password);
      return Some(Special);
    }
    return None;
  }

  /** When several checks fail, the one reported is the earliest in `Order`:
      a password that fails a rule never gets past it to a later one. */
  lemma {:induction false} ReportedRuleIsEarliest(password: string, rule: Rule)
    requires !Holds(rule, password)
    ensures FirstFailure(password).Some?
    ensures Rank(FirstFailure(password).value) <= Rank(rule)
  {
  }
}
