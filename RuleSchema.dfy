/**
 * The declarativeNetRequest rule schema that the generator emits, and the
 * constraints the rule engine puts on one rule list.
 */
module RuleSchema {
  import opened Wrappers

  /** A priority tier: the engine accepts only positive priorities. */
  type Priority = p: int | p >= 1 witness 1

  /** One entry of a `modifyHeaders` action's `requestHeaders` list. */
  datatype HeaderOp = HeaderOp(header: string, operation: string, value: string)

  /** The `action` object; its constructor is the rule's `type`. */
  datatype Action =
    | Allow
    | Block
    | ModifyHeaders(requestHeaders: seq<HeaderOp>)
    | Redirect(regexSubstitution: string)

  /** The `condition` object; an absent key is `None`. */
  datatype Condition = Condition(
    resourceTypes: Option<seq<string>>,
    urlFilter: Option<string>,
    regexFilter: Option<string>)

  datatype Rule = Rule(id: int, priority: int, action: Action, condition: Condition)

  const MAIN_FRAME := "main_frame"

  /** Ids are 1, 2, ..., n in emission order. */
  predicate SequentialIds(rules: seq<Rule>) {
    forall k :: 0 <= k < |rules| ==> rules[k].id == k + 1
  }

  /** The engine's demand on a list: positive ids, no two rules sharing one. */
  predicate UniqueIds(rules: seq<Rule>) {
    (forall k :: 0 <= k < |rules| ==> rules[k].id >= 1) &&
    (forall j, k :: 0 <= j < k < |rules| ==> rules[j].id != rules[k].id)
  }

  /**
   * What the engine needs of a single rule: a positive id and priority, a
   * header action with at least one header, and a regex substitution only
   * where there is a regex to take the back-reference from.
   */
  predicate WellFormedRule(r: Rule) {
    r.id >= 1 && r.priority >= 1 &&
    (r.action.ModifyHeaders? ==> |r.action.requestHeaders| > 0) &&
    (r.action.Redirect? ==> r.condition.regexFilter.Some?)
  }

  predicate WellFormedList(rules: seq<Rule>) {
    UniqueIds(rules) && forall k :: 0 <= k < |rules| ==> WellFormedRule(rules[k])
  }

  /**
   * Whether a condition's resource-type part admits a request of type `rt`:
   * a listed type, or, when no list is given, every type except top-level
   * documents.
   */
  predicate AdmitsResourceType(c: Condition, rt: string) {
    match c.resourceTypes
    case Some(ts) => rt in ts
    case None => rt != MAIN_FRAME
  }

  /** Sequential ids are the collision-free ids 1..n the engine requires. */
  lemma SequentialIdsAreUnique(rules: seq<Rule>)
    requires SequentialIds(rules)
    ensures UniqueIds(rules)
    ensures forall k :: 0 <= k < |rules| ==> 1 <= rules[k].id <= |rules|
  {
  }
}
