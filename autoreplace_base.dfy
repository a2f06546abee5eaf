/**
 * Engine-renewal rules: what a company (or one of its groups) wants an
 * engine replaced by, kept in their own pool and chained per owner.
 */
module AutoreplaceBase {
  import opened Pool

  /** `EngineRenewID`: a 16-bit pool id. */
  newtype EngineRenewID = x: int | 0 <= x < 0x1_0000

  /** `PoolID<uint16_t, EngineRenewIDTag, 64000, 0xFFFF>`. */
  const EngineRenewIds: IdSpace := IdSpace(0x1_0000, 64000, 0xFFFF)

  /** `EngineRenewID::Invalid()`. */
  const InvalidEngineRenew: EngineRenewID := 0xFFFF

  /** Engine and group ids are 16-bit values with the sentinel 0xFFFF. */
  newtype EngineID = x: int | 0 <= x < 0x1_0000
  newtype GroupID = x: int | 0 <= x < 0x1_0000

  const InvalidEngine: EngineID := 0xFFFF
  const InvalidGroup: GroupID := 0xFFFF

  /**
   * One renewal rule: replace `from` by `to` for the vehicles of group
   * `groupId`, only for old vehicles when `replaceWhenOld`. `next` is the
   * intrusive chain pointer: the pool slot of the owner's next rule, or
   * `None` for a null pointer.
   */
  datatype EngineRenew = EngineRenew(
    from: EngineID,
    to: EngineID,
    next: Option<EngineRenewID>,
    groupId: GroupID,
    replaceWhenOld: bool)

  /** The pool that holds every renewal rule. */
  type EngineRenewPool = Pool<EngineRenew>

  /**
   * The sentinel is outside the id space's slots, and a pool of rules never
   * holds more than 64000 of them nor a rule at the sentinel.
   */
  lemma EngineRenewPoolBounded(p: EngineRenewPool)
    requires p.ids == EngineRenewIds && p.Valid()
    ensures p.Size() <= 64000
    ensures !p.IsValidID(InvalidEngineRenew as int)
    ensures InvalidEngineRenew as int >= p.ids.end
  {
    PopulationBounded(p);
  }

  /** `EngineRenew()`: a rule with every field at its default. */
  function DefaultEngineRenew(): (r: EngineRenew)
    ensures r.from == InvalidEngine && r.to == InvalidEngine
    ensures r.groupId == InvalidGroup
    ensures r.next == None && !r.replaceWhenOld
  {
    EngineRenew(InvalidEngine, InvalidEngine, None, InvalidGroup, false)
  }

  /**
   * `EngineRenew(from, to, group_id, replace_when_old, next)`: the
   * arguments come in a different order from the fields, and each lands in
   * the field of its own name.
   */
  function NewEngineRenew(from: EngineID, to: EngineID, groupId: GroupID, replaceWhenOld: bool, next: Option<EngineRenewID>): (r: EngineRenew)
    ensures r.from == from && r.to == to
    ensures r.groupId == groupId && r.replaceWhenOld == replaceWhenOld
    ensures r.next == next
  {
    EngineRenew(from, to, next, groupId, replaceWhenOld)
  }

  /** Rule `a`'s chain pointer names slot `b`. */
  predicate Links(rules: map<nat, EngineRenew>, a: nat, b: nat)
    requires a in rules
  {
    rules[a].next.Some? && rules[a].next.value as int == b
  }

  /**
   * `c` is a chain of rules: distinct live slots, each pointing at the
   * next, the last one with a null pointer.
   */
  ghost predicate IsChain(rules: map<nat, EngineRenew>, c: seq<nat>) {
    && |c| > 0
    && (forall k :: 0 <= k < |c| ==> c[k] in rules)
    && (forall j, k :: 0 <= j < k < |c| ==> c[j] != c[k])
    && (forall k :: 0 <= k < |c| - 1 ==> c[k] in rules && Links(rules, c[k], c[k + 1]))
    && rules[c[|c| - 1]].next == None
  }

  /**
   * Follows the chain pointers from `head`, never revisiting a slot in
   * `seen`. Gives the chain it walked when it reaches a null pointer, and
   * nothing when it meets a dead slot or a cycle.
   */
  function Walk(rules: map<nat, EngineRenew>, head: nat, seen: set<nat>): (r: Option<seq<nat>>)
    ensures r.Some? ==> IsChain(rules, r.value) && r.value[0] == head
    ensures r.Some? ==> forall k :: 0 <= k < |r.value| ==> r.value[k] !in seen
    decreases rules.Keys - seen
  {
    if head !in rules || head in seen then None
    else
      match rules[head].next
      case None => Some([head])
      case Some(n) =>
        match Walk(rules, n as nat, seen + {head})
        case None => None
        case Some(rest) => Some([head] + rest)
  }

  /**
   * A chain is determined by its head: walking from the first rule of any
   * chain yields exactly that chain.
   */
  lemma {:induction false} WalkFindsChain(rules: map<nat, EngineRenew>, c: seq<nat>, seen: set<nat>)
    requires IsChain(rules, c)
    requires forall k :: 0 <= k < |c| ==> c[k] !in seen
    ensures Walk(rules, c[0], seen) == Some(c)
    decreases |c|
  {
    if |c| > 1 {
      var tail := c[1..];
      assert IsChain(rules, tail) by {
        forall k | 0 <= k < |tail| - 1
          ensures tail[k] in rules && Links(rules, tail[k], tail[k + 1])
        {
          assert tail[k] == c[k + 1] && tail[k + 1] == c[k + 2];
        }
      }
      forall k | 0 <= k < |tail|
        ensures tail[k] !in seen + {c[0]}
      {
        assert tail[k] == c[k + 1];
      }
      WalkFindsChain(rules, tail, seen + {c[0]});
      assert Links(rules, c[0], c[1]);
      assert [c[0]] + tail == c;
    } else {
      assert rules[c[0]].next == None;
      assert [c[0]] == c;
    }
  }

  /**
   * Storing, at a free slot, a rule built by the full constructor whose
   * `next` is the head of an existing chain makes the new rule the head of
   * a chain one longer; the rules already there are unchanged.
   */
  lemma {:induction false} PrependRule(
    rules: map<nat, EngineRenew>, c: seq<nat>, i: nat,
    from: EngineID, to: EngineID, groupId: GroupID, replaceWhenOld: bool)
    requires IsChain(rules, c) && c[0] < 0x1_0000
    requires i !in rules
    ensures var rules' := rules[i := NewEngineRenew(from, to, groupId, replaceWhenOld, Some(c[0] as EngineRenewID))];
      && IsChain(rules', [i] + c)
      && Walk(rules', i, {}) == Some([i] + c)
  {
    var rules' := rules[i := NewEngineRenew(from, to, groupId, replaceWhenOld, Some(c[0] as EngineRenewID))];
    var c' := [i] + c;
    forall k | 0 <= k < |c|
      ensures c[k] != i && rules'[c[k]] == rules[c[k]]
    {
    }
    forall k | 0 <= k < |c'| - 1
      ensures c'[k] in rules' && Links(rules', c'[k], c'[k + 1])
    {
      if k > 0 {
        assert c'[k] == c[k - 1] && c'[k + 1] == c[k];
      }
    }
    forall j, k | 0 <= j < k < |c'|
      ensures c'[j] != c'[k]
    {
      if j > 0 {
        assert c'[j] == c[j - 1] && c'[k] == c[k - 1];
      } else {
        assert c'[k] == c[k - 1];
      }
    }
    assert c'[|c'| - 1] == c[|c| - 1];
    assert IsChain(rules', c');
    WalkFindsChain(rules', c', {});
  }

  /** A rule whose pointer is null is a chain of one. */
  lemma LastRuleIsChain(rules: map<nat, EngineRenew>, i: nat)
    requires i in rules && rules[i].next == None
    ensures IsChain(rules, [i])
    ensures Walk(rules, i, {}) == Some([i])
  {
    WalkFindsChain(rules, [i], {});
  }
}
