/** The saved-plan store of src/js/storage.js.

    The store is one localStorage slot holding a JSON array of plan records.
    The slot is modelled as `Option<seq<Plan>>`: `None` when nothing was ever
    written under the key, otherwise the faithfully deserialised list. */
module Storage {
  import opened Wrappers
  import opened Seqs
  import Text

  /** A plan id is either a string (every id taken from a button's
      `data-id`) or a number (the `Date.now()` timestamp synthesised when the
      button has none). Strict equality never relates the two kinds. */
  datatype PlanId = Str(s: string) | Num(n: nat) {

    /** How the id is written into an HTML attribute by a template literal. */
    function Rendered(): (t: string)
      ensures Str? ==> t == s
      ensures Num? ==> Text.AllDigits(t) && |t| > 0
    {
      match this
      case Str(s) => s
      case Num(n) => Text.NatToString(n)
    }
  }

  /** A saved plan. Every field except the id may be absent from the record. */
  datatype Plan = Plan(
    id: PlanId,
    title: Option<string>,
    date: Option<string>,
    kind: Option<string>,
    location: Option<string>,
    extra: Option<string>)

  /** The localStorage slot under the key 'wanderlust_plans'. */
  type Slot = Option<seq<Plan>>

  /** `p.id === id` */
  function HasId(id: PlanId): Plan -> bool {
    (p: Plan) => p.id == id
  }

  /** `p.id !== id`, the predicate `deletePlan` filters with. */
  function LacksId(id: PlanId): Plan -> bool {
    (p: Plan) => p.id != id
  }

  /** `getPlans`: the stored list, or the empty list when nothing is stored. */
  function GetPlans(slot: Slot): (plans: seq<Plan>)
    ensures slot.None? ==> plans == []
    ensures slot.Some? ==> plans == slot.value
  {
    slot.GetOr([])
  }

  /** `savePlan`: append the plan, with no check of its id or title. */
  function SavePlan(slot: Slot, plan: Plan): (slot': Slot)
    ensures slot'.Some?
    ensures |GetPlans(slot')| == |GetPlans(slot)| + 1
    ensures GetPlans(slot')[..|GetPlans(slot)|] == GetPlans(slot)
    ensures GetPlans(slot')[|GetPlans(slot)|] == plan
  {
    Some(GetPlans(slot) + [plan])
  }

  /** `deletePlan`: keep exactly the plans whose id is not strictly equal to
      `id`; every matching plan goes, not only the first. */
  function DeletePlan(slot: Slot, id: PlanId): (slot': Slot)
    ensures slot'.Some?
    ensures forall p :: p in GetPlans(slot') <==> p in GetPlans(slot) && p.id != id
    ensures |GetPlans(slot')| == |GetPlans(slot)| - Count(GetPlans(slot), HasId(id))
    ensures forall p :: multiset(GetPlans(slot'))[p] == if p.id != id then multiset(GetPlans(slot))[p] else 0
  {
    var kept := Filter(GetPlans(slot), LacksId(id));
    KeptPlusRemoved(GetPlans(slot), id);
    FilterMultiset(GetPlans(slot), LacksId(id));
    Some(kept)
  }

  /** Every plan is either kept or counted as a match. */
  lemma {:induction false} KeptPlusRemoved(s: seq<Plan>, id: PlanId)
    ensures |Filter(s, LacksId(id))| + Count(s, HasId(id)) == |s|
    decreases |s|
  {
    if |s| > 0 {
      KeptPlusRemoved(s[1..], id);
    }
  }

  /** The plans that survive a delete keep their original relative order and
      contents. */
  lemma DeleteKeepsOrder(slot: Slot, id: PlanId)
    ensures SubsequenceOf(GetPlans(DeletePlan(slot, id)), GetPlans(slot))
  {
    FilterIsSubsequence(GetPlans(slot), LacksId(id));
  }

  /** Deleting an id no stored plan carries leaves the list as it was. */
  lemma DeleteAbsentIsNoop(slot: Slot, id: PlanId)
    requires forall i :: 0 <= i < |GetPlans(slot)| ==> GetPlans(slot)[i].id != id
    ensures GetPlans(DeletePlan(slot, id)) == GetPlans(slot)
  {
    FilterKeepsAll(GetPlans(slot), LacksId(id));
  }

  /** Deleting the same id twice is deleting it once. */
  lemma DeleteIdempotent(slot: Slot, id: PlanId)
    ensures GetPlans(DeletePlan(DeletePlan(slot, id), id)) == GetPlans(DeletePlan(slot, id))
  {
    FilterIdempotent(GetPlans(slot), LacksId(id));
  }

  /** Id comparison is type-strict: deleting a string id never removes a plan
      with a numeric id, even one whose rendering is that same string. */
  lemma DeleteStringKeepsNumericIds(slot: Slot, t: string)
    ensures forall p :: p in GetPlans(slot) && p.id.Num? ==> p in GetPlans(DeletePlan(slot, Str(t)))
  {
  }

  /** Saving a plan under an id not yet in use and then deleting that id
      restores the list: delete undoes save. */
  lemma SaveThenDeleteRestores(slot: Slot, plan: Plan)
    requires Count(GetPlans(slot), HasId(plan.id)) == 0
    ensures GetPlans(DeletePlan(SavePlan(slot, plan), plan.id)) == GetPlans(slot)
  {
    var s := GetPlans(slot);
    KeptPlusRemoved(s, plan.id);
    FilterLength(s, LacksId(plan.id));
    NoMatchKeepsAll(s, plan.id);
    FilterAppend(s, [plan], LacksId(plan.id));
    assert Filter([plan], LacksId(plan.id)) == [];
  }

  /** When no plan matches, the delete filter keeps everything. */
  lemma {:induction false} NoMatchKeepsAll(s: seq<Plan>, id: PlanId)
    requires Count(s, HasId(id)) == 0
    ensures Filter(s, LacksId(id)) == s
    decreases |s|
  {
    if |s| > 0 {
      NoMatchKeepsAll(s[1..], id);
    }
  }
}
