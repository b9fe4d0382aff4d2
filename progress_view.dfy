/** The progress screen of the frontend (frontend/src/components/Progress/Progress.js):
    achievement and trend rules over the chat statistics, the capped
    percentage and the trend icons. Numbers are exact reals; JavaScript's
    floating-point rounding is not modelled. */
module ProgressView {
  import opened Strings

  /** The chat statistics the rules read. `domains` is absent (`None`) when the
      statistics carry no domain object; only its number of keys matters. */
  datatype ChatStats = ChatStats(totalChats: real, avgConfidence: real, domains: Option<set<string>>)

  /** `Object.keys(stats.domains || {}).length`. */
  function DomainCount(stats: ChatStats): nat {
    match stats.domains
    case Some(keys) => |keys|
    case None => 0
  }

  datatype Achievement = Achievement(
    title: string, description: string, icon: string, earned: bool, progress: Option<real>)

  // ------------------------------------------------------------ achievements

  /** The title of the `k`-th entry. */
  function Title(k: nat): string {
    if k == 0 then "Chatty Learner"
    else if k == 1 then "Confident Learner"
    else if k == 2 then "Domain Explorer"
    else if k == 3 then "Positive Learner"
    else "Power User"
  }

  const Order: seq<string> := [Title(0), Title(1), Title(2), Title(3), Title(4)]

  /** Which of the five entries the rules include, in `Order`. A missing
      `positive_interactions` compares false, as `undefined >= 5` does. */
  function Included(stats: ChatStats, positiveInteractions: Option<int>): seq<bool> {
    [ stats.totalChats >= 10.0,
      stats.avgConfidence >= 0.8,
      DomainCount(stats) >= 3,
      positiveInteractions.Some? && positiveInteractions.value >= 5,
      stats.totalChats < 50.0 ]
  }

  function Titles(achievements: seq<Achievement>): seq<string> {
    seq(|achievements|, i requires 0 <= i < |achievements| => achievements[i].title)
  }

  /** `generateAchievements`: the entries whose rule holds, in fixed order,
      shaped as `Shaped` says. */
  method GenerateAchievements(stats: ChatStats, positiveInteractions: Option<int>)
    returns (achievements: seq<Achievement>)
    ensures Titles(achievements) == Pick(Order, Included(stats, positiveInteractions))
    ensures Shaped(achievements, stats)
  {
    ghost var f := Included(stats, positiveInteractions);
    achievements := [];
    achievements := PushIf(achievements, stats.totalChats >= 10.0, 0, stats);
    assert Titles(achievements) == PickBelow(Order, f, 1);
    achievements := PushIf(achievements, stats.avgConfidence >= 0.8, 1, stats);
    assert Titles(achievements) == PickBelow(Order, f, 2);
    achievements := PushIf(achievements, DomainCount(stats) >= 3, 2, stats);
    assert Titles(achievements) == PickBelow(Order, f, 3);
    achievements := PushIf(achievements, positiveInteractions.Some? && positiveInteractions.value >= 5, 3, stats);
    assert Titles(achievements) == PickBelow(Order, f, 4);
    achievements := PushIf(achievements, stats.totalChats < 50.0, 4, stats);
  }

  /** The entry pushed by rule `k`. */
  function Entry(k: nat, stats: ChatStats): (e: Achievement)
    requires k < 5
    ensures e.title == Title(k)
    ensures e.earned <==> e.title != "Power User"
    ensures e.title == "Power User" ==> e.progress == Some(stats.totalChats / 50.0 * 100.0)
  {
    if k == 0 then Achievement(Title(0), "Completed 10+ chat sessions", "\U{1F4AC}", true, None)
    else if k == 1 then Achievement(Title(1), "Maintained 80%+ average confidence", "\U{1F3AF}", true, None)
    else if k == 2 then Achievement(Title(2), "Active in 3+ learning domains", "\U{1F31F}", true, None)
    else if k == 3 then Achievement(Title(3), "Received 5+ positive interactions", "\U{1F44D}", true, None)
    else Achievement(Title(4), "Complete 50 chat sessions", "\U{26A1}", false, Some(stats.totalChats / 50.0 * 100.0))
  }

  /** One `if (rule) achievements.push(entry)` of `generateAchievements`: the
      entry of rule `k` is appended exactly when the rule holds. */
  method PushIf(achievements: seq<Achievement>, rule: bool, k: nat, stats: ChatStats)
    returns (r: seq<Achievement>)
    requires k < 5 && Shaped(achievements, stats)
    ensures achievements <= r
    ensures Titles(r) == Titles(achievements) + (if rule then [Title(k)] else [])
    ensures Shaped(r, stats)
  {
    r := achievements;
    if rule {
      var x := Entry(k, stats);
      assert Titles(achievements + [x]) == Titles(achievements) + [x.title];
      r := achievements + [x];
    }
  }

  /** All entries but 'Power User' are earned, and 'Power User' shows the
      share of its 50 chats done. */
  predicate Shaped(achievements: seq<Achievement>, stats: ChatStats) {
    forall k :: 0 <= k < |achievements| ==>
      && (achievements[k].earned <==> achievements[k].title != "Power User")
      && (achievements[k].title == "Power User" ==>
            achievements[k].progress == Some(stats.totalChats / 50.0 * 100.0))
  }


  /** Each entry is listed exactly when its rule holds, and the list has at
      most five entries. */
  lemma AchievementRules(stats: ChatStats, positiveInteractions: Option<int>)
    ensures var t := Pick(Order, Included(stats, positiveInteractions));
      && |t| <= 5
      && ("Chatty Learner" in t <==> stats.totalChats >= 10.0)
      && ("Confident Learner" in t <==> stats.avgConfidence >= 0.8)
      && ("Domain Explorer" in t <==> DomainCount(stats) >= 3)
      && ("Positive Learner" in t <==> positiveInteractions.Some? && positiveInteractions.value >= 5)
      && ("Power User" in t <==> stats.totalChats < 50.0)
  {
    var f := Included(stats, positiveInteractions);
    PickMembers(Order, f, 0);
    PickMembers(Order, f, 1);
    PickMembers(Order, f, 2);
    PickMembers(Order, f, 3);
    PickMembers(Order, f, 4);
  }

  // ------------------------------------------------------------------ trends

  datatype Trends = Trends(confidenceTrend: string, activityTrend: string, domainGrowth: string)

  /** `calculateTrends`. */
  function CalculateTrends(stats: ChatStats): (r: Trends)
    ensures r.confidenceTrend == "up" <==> stats.avgConfidence >= 0.7
    ensures r.confidenceTrend == "stable" <==> 0.5 <= stats.avgConfidence < 0.7
    ensures r.confidenceTrend == "down" <==> stats.avgConfidence < 0.5
    ensures r.activityTrend == "up" <==> stats.totalChats >= 10.0
    ensures r.activityTrend == "up" || r.activityTrend == "stable"
    ensures r.domainGrowth == "up" <==> DomainCount(stats) >= 2
    ensures r.domainGrowth == "up" || r.domainGrowth == "stable"
  {
    Trends(
      if stats.avgConfidence >= 0.7 then "up" else if stats.avgConfidence >= 0.5 then "stable" else "down",
      if stats.totalChats >= 10.0 then "up" else "stable",
      if DomainCount(stats) >= 2 then "up" else "stable")
  }

  function TrendRank(trend: string): int {
    if trend == "up" then 2 else if trend == "stable" then 1 else 0
  }

  /** More confidence, more chats or more domains never lower a trend. */
  lemma TrendsMonotone(a: ChatStats, b: ChatStats)
    requires a.avgConfidence <= b.avgConfidence && a.totalChats <= b.totalChats
    requires DomainCount(a) <= DomainCount(b)
    ensures TrendRank(CalculateTrends(a).confidenceTrend) <= TrendRank(CalculateTrends(b).confidenceTrend)
    ensures TrendRank(CalculateTrends(a).activityTrend) <= TrendRank(CalculateTrends(b).activityTrend)
    ensures TrendRank(CalculateTrends(a).domainGrowth) <= TrendRank(CalculateTrends(b).domainGrowth)
  {
  }

  /** `getTrendIcon`. */
  function TrendIcon(trend: string): (r: string)
    ensures trend == "up" ==> r == "\U{1F4C8}"
    ensures trend == "down" ==> r == "\U{1F4C9}"
    ensures trend != "up" && trend != "down" ==> r == "\U{27A1}\U{FE0F}"
  {
    if trend == "up" then "\U{1F4C8}" else if trend == "down" then "\U{1F4C9}" else "\U{27A1}\U{FE0F}"
  }

  /** Activity and domain trends are never shown falling. */
  lemma GrowthNeverFalls(stats: ChatStats)
    ensures TrendIcon(CalculateTrends(stats).activityTrend) != "\U{1F4C9}"
    ensures TrendIcon(CalculateTrends(stats).domainGrowth) != "\U{1F4C9}"
  {
  }

  // -------------------------------------------------------------- percentage

  /** A JavaScript number as far as the capped percentage needs: dividing by
      a zero target gives NaN (0/0) or an infinity, which `Math.min` caps at
      100 when positive and passes through otherwise. */
  datatype Percent = Finite(value: real) | NotANumber | NegativeInfinity

  /** `getProgressPercentage`: `Math.min((current / target) * 100, 100)`. */
  function ProgressPercentage(current: real, target: real): (r: Percent)
    ensures r.Finite? ==> r.value <= 100.0
    ensures target > 0.0 && current >= target ==> r == Finite(100.0)
    ensures target != 0.0 ==> r.Finite?
    ensures target > 0.0 && 0.0 <= current ==> 0.0 <= r.value
  {
    if target == 0.0 then
      (if current > 0.0 then Finite(100.0) else if current == 0.0 then NotANumber else NegativeInfinity)
    else
      QuotientBounds(current, target);
      var p := current / target * 100.0;
      Finite(if p <= 100.0 then p else 100.0)
  }

  lemma QuotientBounds(current: real, target: real)
    requires target != 0.0
    ensures target > 0.0 && current >= target ==> current / target >= 1.0
    ensures target > 0.0 && current >= 0.0 ==> current / target >= 0.0
  {
    if target > 0.0 {
      assert current / target * target == current;
    }
  }

  /** Below the target the percentage is the exact share; it grows with `current`. */
  lemma ProgressPercentageMonotone(a: real, b: real, target: real)
    requires target > 0.0 && a <= b
    ensures ProgressPercentage(a, target).value <= ProgressPercentage(b, target).value
    ensures a < target ==> ProgressPercentage(a, target).value == a / target * 100.0
  {
    assert a / target <= b / target;
  }
}
