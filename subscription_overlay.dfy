/**
 * `SubscriptionPlanOverlayView`: the paywall overlay on a group thread. It
 * keeps the thread's view model and hides itself when the thread has no
 * subscription plan, or when the user holds an active subscription without
 * an issue. Also the plan-duration text ("1 month", "3 months") it
 * describes a plan with. View construction and layout are not modelled.
 */
module SubscriptionOverlay {
  import opened Wrappers
  import Decimal

  datatype PeriodUnit = Day | Week | Month | Year

  /** The fields of a subscription plan that the overlay reads. */
  datatype SubscriptionPlan = SubscriptionPlan(period: int, periodUnit: PeriodUnit)

  /** The fields of a subscription that the overlay reads. */
  datatype Subscription = Subscription(isActive: bool, hasIssue: bool)

  /** The parts of `ThreadViewModel` the overlay reads. */
  datatype ThreadViewModel = ThreadViewModel(subscriptionPlan: Option<SubscriptionPlan>, subscription: Option<Subscription>)

  /** The decision `updateVisibility` takes for a view model. */
  function IsHiddenFor(model: ThreadViewModel): bool {
    if model.subscriptionPlan.None? then true
    else match model.subscription
      case Some(subscription) => subscription.isActive && !subscription.hasIssue
      case None => false
  }

  /**
   * The paywall rule: the overlay is shown exactly when the thread has a
   * plan and the user is not paid up, that is has no subscription, or one
   * that is inactive, or one with an issue (even when active).
   */
  lemma PaywallRule(model: ThreadViewModel)
    ensures model.subscriptionPlan.None? ==> IsHiddenFor(model)
    ensures model.subscriptionPlan.Some? && model.subscription.None? ==> !IsHiddenFor(model)
    ensures model.subscriptionPlan.Some? && model.subscription.Some? ==>
              (IsHiddenFor(model) <==> model.subscription.value.isActive && !model.subscription.value.hasIssue)
    ensures !IsHiddenFor(model) <==>
              model.subscriptionPlan.Some?
              && (model.subscription.None? || !model.subscription.value.isActive || model.subscription.value.hasIssue)
  {
  }

  class OverlayView {
    var threadViewModel: ThreadViewModel
    /** `UIView.isHidden`. */
    var isHidden: bool

    /**
     * `init(withThreadViewModel:)` stores the model and does not compute the
     * visibility: a new view is shown until its first refresh.
     */
    constructor (threadViewModel: ThreadViewModel)
      ensures this.threadViewModel == threadViewModel && !isHidden
    {
      this.threadViewModel := threadViewModel;
      isHidden := false;
    }

    /** `updateVisibility()`. */
    method UpdateVisibility()
      modifies this`isHidden
      ensures isHidden == IsHiddenFor(threadViewModel)
    {
      if threadViewModel.subscriptionPlan.None? {
        isHidden := true;
        return;
      }
      if threadViewModel.subscription.Some? {
        var subscription := threadViewModel.subscription.value;
        isHidden := subscription.isActive && !subscription.hasIssue;
      } else {
        isHidden := false;
      }
    }

    /**
     * `refreshView(withThreadViewModel:)`: replaces the model and derives the
     * visibility from the new model alone, whatever the old state was.
     */
    method RefreshView(threadViewModel: ThreadViewModel)
      modifies this
      ensures this.threadViewModel == threadViewModel
      ensures isHidden == IsHiddenFor(threadViewModel)
    {
      this.threadViewModel := threadViewModel;
      UpdateVisibility();
    }
  }

  // ---------------------------------------------------------------------
  // descriptionText
  // ---------------------------------------------------------------------

  /**
   * `NSLocalizedString(key, comment:)` against a strings table: the
   * translation, or the key itself when the table has none.
   */
  function Localized(table: map<string, string>, key: string): string {
    if key in table then table[key] else key
  }

  /** The unit's name as it appears in its keys. */
  function UnitName(unit: PeriodUnit): string {
    match unit
    case Day => "DAY"
    case Week => "WEEK"
    case Month => "MONTH"
    case Year => "YEAR"
  }

  /**
   * The localization key of the duration suffix: one of the eight keys
   * `SUBSCRIPTION_PLAN_DURATION_{DAY,WEEK,MONTH,YEAR}_{SINGLE,MULTIPLE}`,
   * singular exactly for a period of 1.
   */
  function SuffixKey(unit: PeriodUnit, period: int): string {
    "SUBSCRIPTION_PLAN_DURATION_" + UnitName(unit) + (if period == 1 then "_SINGLE" else "_MULTIPLE")
  }

  predicate EndsWith(s: string, suffix: string) {
    |suffix| <= |s| && s[|s| - |suffix|..] == suffix
  }

  /** `SubscriptionPlan.descriptionText`: the period in decimal, then the localized suffix. */
  function DescriptionText(plan: SubscriptionPlan, table: map<string, string>): string {
    Decimal.Render(plan.period) + Localized(table, SuffixKey(plan.periodUnit, plan.period))
  }

  /** The singular key is chosen exactly when the period is 1, for every unit. */
  lemma SingularExactlyForOne(unit: PeriodUnit, period: int)
    ensures EndsWith(SuffixKey(unit, period), "_SINGLE") <==> period == 1
    ensures EndsWith(SuffixKey(unit, period), "_MULTIPLE") <==> period != 1
  {
    var head := "SUBSCRIPTION_PLAN_DURATION_" + UnitName(unit);
    var key := SuffixKey(unit, period);
    if period == 1 {
      assert key == head + "_SINGLE";
      assert key[|key| - 7..] == "_SINGLE";
      if |key| >= 9 {
        assert key[|key| - 9..][2] == '_';
      }
    } else {
      assert key == head + "_MULTIPLE";
      assert key[|key| - 9..] == "_MULTIPLE";
      assert key[|key| - 7..][0] == 'U';
    }
  }

  /** Each unit has its own pair of keys: different (unit, singular?) choices never share a key. */
  lemma SuffixKeysDistinct(u1: PeriodUnit, p1: int, u2: PeriodUnit, p2: int)
    requires u1 != u2 || (p1 == 1) != (p2 == 1)
    ensures SuffixKey(u1, p1) != SuffixKey(u2, p2)
  {
    var k1, k2 := SuffixKey(u1, p1), SuffixKey(u2, p2);
    if |k1| == |k2| && u1 != u2 {
      assert k1[27] != k2[27];
    }
  }

  /** The text starts with the period in decimal, which can be read back from it. */
  lemma DescriptionLeadsWithPeriod(plan: SubscriptionPlan, table: map<string, string>)
    ensures var digits := Decimal.Render(plan.period);
            var text := DescriptionText(plan, table);
            && digits <= text
            && Decimal.Parse(text[..|digits|]) == Some(plan.period)
            && text[|digits|..] == Localized(table, SuffixKey(plan.periodUnit, plan.period))
  {
    var digits := Decimal.Render(plan.period);
    assert DescriptionText(plan, table)[..|digits|] == digits;
    Decimal.RenderRoundTrip(plan.period);
  }
}
