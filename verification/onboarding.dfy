/**
 * The onboarding wizard: a four-step counter moved by Continue and Previous
 * buttons that are only rendered where they make sense, the step indicator
 * above it, and the interest chips that toggle in and out of the form.
 */
module Onboarding {
  import Seqs

  const FirstStep := 1
  const LastStep := 4

  /** `handleNextStep`: the counter moves up, with no bound of its own. */
  function HandleNextStep(step: int): int {
    step + 1
  }

  /** `handlePrevStep`: the counter moves down, with no bound of its own. */
  function HandlePrevStep(step: int): int {
    step - 1
  }

  datatype Button = Previous | Continue

  /** The render guards: Previous shows above the first step, Continue below the last. */
  predicate Offered(step: int, b: Button) {
    match b
    case Previous => step > FirstStep
    case Continue => step < LastStep
  }

  /** A click on a button; a button that is not rendered cannot be clicked, so nothing happens. */
  function Click(step: int, b: Button): (r: int)
    ensures Offered(step, b) && b == Continue ==> r == step + 1
    ensures Offered(step, b) && b == Previous ==> r == step - 1
    ensures !Offered(step, b) ==> r == step
  {
    if !Offered(step, b) then step
    else match b
      case Previous => HandlePrevStep(step)
      case Continue => HandleNextStep(step)
  }

  /** The step after a series of clicks. */
  function Clicks(step: int, bs: seq<Button>): int
    decreases |bs|
  {
    if |bs| == 0 then step else Clicks(Click(step, bs[0]), bs[1..])
  }

  /** One click from a step in 1..4 lands in 1..4. */
  lemma ClickStaysInRange(step: int, b: Button)
    requires FirstStep <= step <= LastStep
    ensures FirstStep <= Click(step, b) <= LastStep
  {
  }

  /** Whatever the user clicks, starting from step 1 the counter stays within 1..4. */
  lemma {:induction false} ClicksStayInRange(step: int, bs: seq<Button>)
    requires FirstStep <= step <= LastStep
    ensures FirstStep <= Clicks(step, bs) <= LastStep
    decreases |bs|
  {
    if |bs| > 0 {
      ClickStaysInRange(step, bs[0]);
      ClicksStayInRange(Click(step, bs[0]), bs[1..]);
    }
  }

  /** Continue then Previous returns to the same step, wherever Continue is offered. */
  lemma NextThenPrevious(step: int)
    requires FirstStep <= step < LastStep
    ensures Click(Click(step, Continue), Previous) == step
  {
  }

  /** Previous then Continue returns to the same step, wherever Previous is offered. */
  lemma PreviousThenNext(step: int)
    requires FirstStep < step <= LastStep
    ensures Click(Click(step, Previous), Continue) == step
  {
  }

  /** Every step is reached from the first by pressing Continue. */
  lemma {:induction false} ContinueReachesEveryStep(n: nat)
    requires n <= LastStep - FirstStep
    ensures Clicks(FirstStep, seq(n, _ => Continue)) == FirstStep + n
  {
    var bs := seq(n, _ => Continue);
    var step := FirstStep;
    var k := 0;
    while k < n
      invariant 0 <= k <= n
      invariant step == FirstStep + k
      invariant Clicks(FirstStep, bs) == Clicks(step, bs[k..])
    {
      assert bs[k..][0] == Continue && bs[k..][1..] == bs[k + 1..];
      step := step + 1;
      k := k + 1;
    }
    assert bs[n..] == [];
  }

  /** Indicator `k` of the header is coloured. */
  predicate Highlighted(current: int, k: int) {
    current >= k
  }

  /** The connector drawn after indicator `k` (for k < 4) is filled. */
  predicate ConnectorFilled(current: int, k: int) {
    k < LastStep && current > k
  }

  /** The colouring of the four indicators, left to right. */
  function Indicators(current: int): (r: seq<bool>)
    ensures |r| == LastStep
  {
    seq(LastStep, i => Highlighted(current, i + 1))
  }

  /** The filling of the three connectors, left to right. */
  function Connectors(current: int): (r: seq<bool>)
    ensures |r| == LastStep - 1
  {
    seq(LastStep - 1, i => ConnectorFilled(current, i + 1))
  }

  /**
   * On step `c` exactly the first `c` indicators are coloured, and a connector
   * is filled exactly when the indicator it leads to is.
   */
  lemma IndicatorsShowProgress(current: int)
    requires FirstStep <= current <= LastStep
    ensures forall i :: 0 <= i < LastStep ==> (Indicators(current)[i] <==> i < current)
    ensures forall i :: 0 <= i < LastStep - 1 ==> (Connectors(current)[i] <==> Indicators(current)[i + 1])
  {
  }

  datatype FormData = FormData(
    name: string,
    school: string,
    yearsExperience: string,
    experience: string,
    interests: seq<string>,
    goals: string,
    avatar: string)

  /** `handleInterestToggle`: a selected interest is removed, an unselected one appended. */
  function HandleInterestToggle(form: FormData, interest: string): (r: FormData)
    ensures interest in r.interests <==> interest !in form.interests
    ensures forall other :: other != interest ==> (other in r.interests <==> other in form.interests)
    ensures interest !in form.interests ==> r.interests == form.interests + [interest]
    ensures interest in form.interests ==> Seqs.IsSubsequence(r.interests, form.interests)
    ensures interest in form.interests ==> multiset(r.interests) == multiset(form.interests)[interest := 0]
    ensures r.(interests := form.interests) == form
  {
    var r := form.(interests := Seqs.Toggle(form.interests, interest));
    assert interest !in form.interests ==> r.interests == form.interests + [interest];
    r
  }

  /** Toggling the same interest twice restores its membership and every other interest's. */
  lemma InterestToggleTwice(form: FormData, interest: string, other: string)
    ensures var r := HandleInterestToggle(HandleInterestToggle(form, interest), interest);
            (other in r.interests <==> other in form.interests) && r.name == form.name && r.goals == form.goals
  {
  }

  /** Selecting an unselected interest and then deselecting it restores the list exactly. */
  lemma InterestToggleTwiceFromUnselected(form: FormData, interest: string)
    requires interest !in form.interests
    ensures HandleInterestToggle(HandleInterestToggle(form, interest), interest) == form
  {
    Seqs.ToggleTwiceAbsentRestores(form.interests, interest);
  }

  /** The interest list never holds an interest twice. */
  lemma InterestToggleNoDuplicates(form: FormData, interest: string)
    requires Seqs.NoDuplicates(form.interests)
    ensures Seqs.NoDuplicates(HandleInterestToggle(form, interest).interests)
  {
    Seqs.ToggleNoDuplicates(form.interests, interest);
  }
}
