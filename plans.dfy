/** The fixed catalogue of fasting plans and the lookup into it. */
module Plans {
  import opened Wrappers
  import opened Types

  const DefaultPlanId: string := "16-8"

  const DefaultPlans: seq<FastingPlan> := [
    FastingPlan("12-12", "12:12 단식", "입문용", 12, 12, "저녁 8시 ~ 아침 8시 공복 유지"),
    FastingPlan("14-10", "14:10", "초보자용", 14, 10, "아침을 늦게 먹거나 저녁을 일찍 마치는 방식"),
    FastingPlan("16-8", "16:8", "가장 권장", 16, 8, "오전 11시 ~ 오후 7시 식사"),
    FastingPlan("23-1", "23:1", "1일 1식", 23, 1, "강력한 체지방 분해 효과")
  ]

  /** `plans.find(p => p.id == planId)`: the first plan with that id, if any. */
  function FindPlan(plans: seq<FastingPlan>, planId: string): (r: Option<FastingPlan>)
    ensures r.None? <==> forall i :: 0 <= i < |plans| ==> plans[i].id != planId
    ensures r.Some? ==> exists i :: 0 <= i < |plans| && plans[i] == r.value && r.value.id == planId
                                    && forall j :: 0 <= j < i ==> plans[j].id != planId
  {
    if plans == [] then None
    else if plans[0].id == planId then Some(plans[0])
    else
      var r := FindPlan(plans[1..], planId);
      assert r.Some? ==> exists i :: 0 <= i < |plans[1..]| && plans[1..][i] == r.value && r.value.id == planId
                                     && forall j :: 0 <= j < i ==> plans[1..][j].id != planId;
      r
  }

  function GetPlanById(planId: string): (r: Option<FastingPlan>)
    ensures r.Some? ==> r.value in DefaultPlans && r.value.id == planId
    ensures r.None? <==> forall p :: p in DefaultPlans ==> p.id != planId
  {
    FindPlan(DefaultPlans, planId)
  }

  /** Every preset divides the 24 hours of a day between fasting and eating. */
  lemma PresetsSplitTheDay()
    ensures forall p :: p in DefaultPlans ==> p.fastingHours + p.eatingHours == 24 && p.fastingHours > 0 && p.eatingHours > 0
  {
  }

  lemma PresetIdsDistinct()
    ensures forall i, j :: 0 <= i < j < |DefaultPlans| ==> DefaultPlans[i].id != DefaultPlans[j].id
  {
  }

  /** Looking a preset up by its own id finds that very preset. */
  lemma GetPlanByIdFindsEachPreset(p: FastingPlan)
    requires p in DefaultPlans
    ensures GetPlanById(p.id) == Some(p)
  {
    PresetIdsDistinct();
    var r := GetPlanById(p.id);
    var k :| 0 <= k < |DefaultPlans| && DefaultPlans[k] == p;
    assert r.Some?;
  }

  /** "custom" names no preset, so callers fall back to the stored custom hours. */
  lemma CustomIsNotAPreset()
    ensures GetPlanById("custom") == None
  {
  }

  lemma DefaultPlanIsSixteenEight()
    ensures GetPlanById(DefaultPlanId).Some?
    ensures GetPlanById(DefaultPlanId).value.fastingHours == 16
    ensures GetPlanById(DefaultPlanId).value.eatingHours == 8
  {
    GetPlanByIdFindsEachPreset(DefaultPlans[2]);
  }
}
