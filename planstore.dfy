/** The plan store: four fields, two derived queries over them and the actions that update them.
    The awaited call to the plan-generation service is modelled as a value: either the outcome is passed
    in (`FinishGenerate`) or the service is a function from the request to its outcome (`GeneratePlan`). */
module PlanStore {
  import opened Wrappers
  import opened Text

  // ---------------------------------------------------------------------------------------------
  // hasGeneratedPlan

  /** `hasGeneratedPlan`: the stored plan has text once trimmed. */
  function HasGeneratedPlan(generatedPlan: string): (r: bool)
    ensures r <==> exists i :: 0 <= i < |generatedPlan| && !IsWs(generatedPlan[i])
  {
    generatedPlan != [] && |Trim(generatedPlan)| > 0
  }

  // ---------------------------------------------------------------------------------------------
  // isValidPhoneNumber

  /** The characters of `/[\s\-\(\)]/`. */
  predicate IsSeparator(c: char) {
    IsWs(c) || c == '-' || c == '(' || c == ')'
  }

  /** `phone.replace(/[\s\-\(\)]/g, '')`: the separators are dropped, every other character is kept as
      often as it occurs. */
  function StripSeparators(s: string): (c: string)
    ensures forall i :: 0 <= i < |c| ==> !IsSeparator(c[i])
    ensures |c| <= |s|
  {
    if s == [] then []
    else (if IsSeparator(s[0]) then [] else [s[0]]) + StripSeparators(s[1..])
  }

  /** Every character that is not a separator is kept as often as it occurs. */
  lemma {:induction false} StripSeparatorsCounts(s: string)
    ensures forall ch :: !IsSeparator(ch) ==> multiset(StripSeparators(s))[ch] == multiset(s)[ch]
    decreases |s|
  {
    if s != [] {
      StripSeparatorsCounts(s[1..]);
      assert s == [s[0]] + s[1..];
    }
  }

  /** Stripping works piece by piece, so it keeps the order of the characters it keeps. */
  lemma {:induction false} StripSeparatorsAppend(a: string, b: string)
    ensures StripSeparators(a + b) == StripSeparators(a) + StripSeparators(b)
    decreases |a|
  {
    if a == [] {
      assert a + b == b;
    } else {
      var head := if IsSeparator(a[0]) then [] else [a[0]];
      assert (a + b)[0] == a[0] && (a + b)[1..] == a[1..] + b;
      calc {
        StripSeparators(a + b);
        head + StripSeparators(a[1..] + b);
        { StripSeparatorsAppend(a[1..], b); }
        head + (StripSeparators(a[1..]) + StripSeparators(b));
        { AppendAssoc(head, StripSeparators(a[1..]), StripSeparators(b)); }
        StripSeparators(a) + StripSeparators(b);
      }
    }
  }

  /** Text without separators passes unchanged; in particular stripping twice is stripping once. */
  lemma {:induction false} StripSeparatorsKeepsClean(s: string)
    requires forall i :: 0 <= i < |s| ==> !IsSeparator(s[i])
    ensures StripSeparators(s) == s
    decreases |s|
  {
    if s != [] {
      StripSeparatorsKeepsClean(s[1..]);
    }
  }

  lemma StripSeparatorsIdempotent(s: string)
    ensures StripSeparators(StripSeparators(s)) == StripSeparators(s)
  {
    StripSeparatorsKeepsClean(StripSeparators(s));
  }

  /** `/^[\+]?[1-9][\d]{0,15}$/`: an optional '+', a digit from 1 to 9, then at most fifteen digits up to
      the end of the string. The '+' cannot be skipped when present, since `[1-9]` does not match it. */
  predicate MatchesPhonePattern(c: string) {
    var b := if |c| > 0 && c[0] == '+' then 1 else 0;
    b < |c| && '1' <= c[b] <= '9' && Span(c, b + 1, Digit) == |c| && |c| - (b + 1) <= 15
  }

  /** `isValidPhoneNumber`. */
  function IsValidPhoneNumber(phoneNumber: string): (r: bool)
    ensures r ==> phoneNumber != []
  {
    if phoneNumber == [] then false
    else
      var c := StripSeparators(phoneNumber);
      MatchesPhonePattern(c) && |c| >= 10
  }

  /** What a valid number looks like once the separators are gone: 10 to 17 characters, all digits but an
      optional leading '+', at most 16 digits, and the first digit is not 0. */
  predicate PhoneShape(c: string) {
    var b := if |c| > 0 && c[0] == '+' then 1 else 0;
    10 <= |c| && |c| - b <= 16 && c[b] != '0'
    && forall i :: b <= i < |c| ==> IsDigit(c[i])
  }

  lemma PhoneShapeBounds(c: string)
    requires PhoneShape(c)
    ensures 10 <= |c| <= 17
    ensures forall i :: 0 <= i < |c| ==> IsDigit(c[i]) || (i == 0 && c[i] == '+')
  {
  }

  /** The validator accepts exactly the numbers whose stripped form has the shape above. */
  lemma ValidPhoneIffShape(phoneNumber: string)
    ensures IsValidPhoneNumber(phoneNumber) <==> PhoneShape(StripSeparators(phoneNumber))
  {
    var c := StripSeparators(phoneNumber);
    var b := if |c| > 0 && c[0] == '+' then 1 else 0;
    if b < |c| {
      var e := Span(c, b + 1, Digit);
      if e < |c| {
        assert !IsDigit(c[e]);
      }
      if forall i :: b <= i < |c| ==> IsDigit(c[i]) {
        SpanUnique(c, b + 1, Digit, |c|);
      }
    }
    if phoneNumber == [] {
      assert |c| == 0;
    }
  }

  /** Separators anywhere in the number do not change the verdict. */
  lemma SeparatorIgnored(a: string, sep: char, b: string)
    requires IsSeparator(sep)
    ensures IsValidPhoneNumber(a + [sep] + b) == IsValidPhoneNumber(a + b)
  {
    StripSeparatorsAppend(a + [sep], b);
    StripSeparatorsAppend(a, [sep]);
    StripSeparatorsAppend(a, b);
    assert StripSeparators([sep]) == [];
    assert StripSeparators(a) + [] == StripSeparators(a);
    ValidPhoneIffShape(a + [sep] + b);
    ValidPhoneIffShape(a + b);
  }

  // ---------------------------------------------------------------------------------------------
  // The store

  /** The outcome of the awaited service call: it resolves with a plan (`None` for a falsy or missing
      one) or rejects with a reason. */
  datatype ServiceOutcome = Resolved(plan: Option<string>) | Rejected(reason: string)

  /** The two errors `generatePlan` throws. */
  datatype StoreError = UserInputRequired | GenerationFailed

  function Message(e: StoreError): (m: string)
    ensures m != []
  {
    match e
    case UserInputRequired => "User input is required to generate a plan"
    case GenerationFailed => "Failed to generate plan. Please try again."
  }

  /** `x || ''` on a string or a falsy value: empty exactly when `x` is falsy, and otherwise `x` itself. */
  function OrEmpty(x: Option<string>): (r: string)
    ensures r == [] <==> (x.None? || x.value == [])
    ensures r != [] ==> x == Some(r)
  {
    if x.Some? then x.value else []
  }

  /** What the store keeps after the call: a plan is kept exactly when the call resolved with a
      non-empty one, and it is that plan; a failure never leaves a plan. */
  function PlanAfter(outcome: ServiceOutcome): (p: string)
    ensures p != [] <==> (outcome.Resolved? && outcome.plan.Some? && outcome.plan.value != [])
    ensures p != [] ==> outcome == Resolved(Some(p))
    ensures outcome.Rejected? ==> p == []
  {
    if outcome.Resolved? then OrEmpty(outcome.plan) else []
  }

  class PlanStore {
    var userInput: string
    var generatedPlan: string
    var isGenerating: bool
    var phoneNumber: string

    /** While a plan is being generated, no plan is shown. */
    predicate Valid()
      reads this
    {
      isGenerating ==> generatedPlan == []
    }

    constructor()
      ensures userInput == [] && generatedPlan == [] && !isGenerating && phoneNumber == []
      ensures Valid()
    {
      userInput := [];
      generatedPlan := [];
      isGenerating := false;
      phoneNumber := [];
    }

    method SetUserInput(input: Option<string>)
      modifies this
      ensures userInput == OrEmpty(input)
      ensures generatedPlan == old(generatedPlan) && isGenerating == old(isGenerating)
      ensures phoneNumber == old(phoneNumber)
      ensures old(Valid()) ==> Valid()
    {
      userInput := OrEmpty(input);
    }

    method SetPhoneNumber(phone: Option<string>)
      modifies this
      ensures phoneNumber == OrEmpty(phone)
      ensures userInput == old(userInput)
      ensures generatedPlan == old(generatedPlan) && isGenerating == old(isGenerating)
      ensures old(Valid()) ==> Valid()
    {
      phoneNumber := OrEmpty(phone);
    }

    method ClearPlan()
      modifies this
      ensures generatedPlan == [] && !isGenerating
      ensures userInput == old(userInput) && phoneNumber == old(phoneNumber)
      ensures Valid() && !HasGeneratedPlan(generatedPlan)
    {
      generatedPlan := [];
      isGenerating := false;
    }

    /** `generatePlan` up to the awaited call. Blank input fails before anything changes; otherwise the
        flag is raised, the plan cleared, and the trimmed input is what the service receives. */
    method BeginGenerate() returns (r: Result<string, StoreError>)
      modifies this
      ensures Trim(old(userInput)) == [] ==>
        r == Failure(UserInputRequired)
        && generatedPlan == old(generatedPlan) && isGenerating == old(isGenerating)
      ensures Trim(old(userInput)) != [] ==>
        r == Success(Trim(old(userInput))) && isGenerating && generatedPlan == []
      ensures r.Success? ==> r.value != [] && !IsWs(r.value[0]) && !IsWs(r.value[|r.value| - 1])
      ensures userInput == old(userInput) && phoneNumber == old(phoneNumber)
      ensures r.Success? ==> Valid()
      ensures r.Failure? ==> (old(Valid()) ==> Valid())
    {
      if userInput == [] || |Trim(userInput)| == 0 {
        return Failure(UserInputRequired);
      }
      isGenerating := true;
      generatedPlan := [];
      r := Success(Trim(userInput));
    }

    /** `generatePlan` after the awaited call: the `try`, `catch` and `finally` blocks. */
    method FinishGenerate(outcome: ServiceOutcome) returns (r: Outcome<StoreError>)
      modifies this
      ensures outcome.Resolved? ==> r == Pass
      ensures outcome.Rejected? ==> r == Fail(GenerationFailed)
      ensures generatedPlan == PlanAfter(outcome) && !isGenerating
      ensures userInput == old(userInput) && phoneNumber == old(phoneNumber)
      ensures Valid()
    {
      match outcome {
        case Resolved(plan) =>
          generatedPlan := OrEmpty(plan);
          r := Pass;
        case Rejected(_) =>
          generatedPlan := [];
          r := Fail(GenerationFailed);
      }
      isGenerating := false;
    }

    /** `generatePlan`, with the service as a function from the request to its outcome. */
    method GeneratePlan(service: string -> ServiceOutcome) returns (r: Outcome<StoreError>)
      modifies this
      ensures Trim(old(userInput)) == [] ==>
        r == Fail(UserInputRequired)
        && generatedPlan == old(generatedPlan) && isGenerating == old(isGenerating)
      ensures Trim(old(userInput)) != [] ==>
        var outcome := service(Trim(old(userInput)));
        (r == Pass <==> outcome.Resolved?)
        && (r.Fail? ==> r.error == GenerationFailed)
        && generatedPlan == PlanAfter(outcome) && !isGenerating
      ensures userInput == old(userInput) && phoneNumber == old(phoneNumber)
      ensures old(Valid()) ==> Valid()
    {
      var request := BeginGenerate();
      if request.Failure? {
        return Fail(request.error);
      }
      r := FinishGenerate(service(request.value));
    }
  }

  // ---------------------------------------------------------------------------------------------
  // Examples

  /** A number written without separators is valid when it has the shape. */
  lemma ShapedNumberIsValid(c: string)
    requires PhoneShape(c)
    ensures IsValidPhoneNumber(c)
  {
    PhoneShapeBounds(c);
    StripSeparatorsKeepsClean(c);
    ValidPhoneIffShape(c);
  }

  lemma PhoneWithDashesIsValid(s: string)
    requires s == "555-123-4567"
    ensures IsValidPhoneNumber(s)
  {
    var a, b, c := s[..3], s[4..7], s[8..];
    assert s == a + [s[3]] + (b + [s[7]] + c);
    SeparatorIgnored(a, s[3], b + [s[7]] + c);
    assert a + (b + [s[7]] + c) == (a + b) + [s[7]] + c;
    SeparatorIgnored(a + b, s[7], c);
    assert (a + b) + c == "5551234567";
    ShapedNumberIsValid((a + b) + c);
  }

  lemma InternationalPhoneIsValid(s: string)
    requires s == "+14155552671"
    ensures IsValidPhoneNumber(s)
  {
    ShapedNumberIsValid(s);
  }

  lemma ShortPhoneIsInvalid()
    ensures !IsValidPhoneNumber("123")
  {
  }

  lemma EmptyPhoneIsInvalid()
    ensures !IsValidPhoneNumber("")
  {
  }

  lemma LettersAreInvalid()
    ensures !IsValidPhoneNumber("abc")
  {
  }

  lemma LeadingZeroIsInvalid()
    ensures !IsValidPhoneNumber("0123456789")
  {
  }

  lemma PlanExamples()
    ensures !HasGeneratedPlan("")
    ensures !HasGeneratedPlan(" \n\t")
    ensures HasGeneratedPlan(" plan ")
  {
    assert !IsWs(" plan "[1]);
  }
}
