/**
 * The general punishment ladder (bot_warnings_cog.py:295-336): the tier with
 * the highest threshold not above the active-warning count, and the punishment
 * the warn command derives from it.
 */
module Ladder {
  import opened Wrappers
  import opened Rules

  /** A tier's `action`; an absent or empty action, or one the source does not handle, is `OtherAction`. */
  datatype Action = Mute | RemoveTemporary | BanPermanent | OtherAction(name: string)

  /**
   * One tier of `general_punishment_ladder`, with the keys the decision reads;
   * absent numeric keys are `None`.
   */
  datatype Tier = Tier(
    threshold: Option<int>,
    action: Action,
    durationMinutes: Option<int>,
    durationHours: Option<int>)

  /** `tier.get("threshold", 0)`. */
  function Threshold(t: Tier): int {
    t.threshold.GetOr(0)
  }

  /** `duration_minutes + 60 * duration_hours`, each defaulting to 0. */
  function MuteMinutes(t: Tier): int {
    t.durationMinutes.GetOr(0) + 60 * t.durationHours.GetOr(0)
  }

  /**
   * The tier the source picks by sorting the ladder on threshold, descending and
   * stably, and taking the first tier whose threshold is at most `count`: the
   * qualifying tier with the highest threshold, the first listed among equals.
   */
  function SelectTier(ladder: seq<Tier>, count: int): (r: Option<nat>)
    ensures r.Some? ==> r.value < |ladder| && Threshold(ladder[r.value]) <= count
    ensures r.Some? ==> forall j :: 0 <= j < |ladder| && Threshold(ladder[j]) <= count ==>
                          Threshold(ladder[j]) <= Threshold(ladder[r.value])
    ensures r.Some? ==> forall j :: 0 <= j < r.value && Threshold(ladder[j]) <= count ==>
                          Threshold(ladder[j]) < Threshold(ladder[r.value])
    ensures r.None? <==> forall j :: 0 <= j < |ladder| ==> count < Threshold(ladder[j])
  {
    if ladder == [] then None
    else
      var n := |ladder| - 1;
      var earlier := SelectTier(ladder[..n], count);
      if count < Threshold(ladder[n]) then earlier
      else if earlier.Some? && Threshold(ladder[n]) <= Threshold(ladder[earlier.value]) then earlier
      else Some(n)
  }

  /** The three properties of `SelectTier` pin the tier down: no other tier has them. */
  lemma SelectionIsUnique(ladder: seq<Tier>, count: int, k: nat)
    requires k < |ladder| && Threshold(ladder[k]) <= count
    requires forall j :: 0 <= j < |ladder| && Threshold(ladder[j]) <= count ==> Threshold(ladder[j]) <= Threshold(ladder[k])
    requires forall j :: 0 <= j < k && Threshold(ladder[j]) <= count ==> Threshold(ladder[j]) < Threshold(ladder[k])
    ensures SelectTier(ladder, count) == Some(k)
  {
    var s := SelectTier(ladder, count);
    assert s.Some?;
    assert Threshold(ladder[s.value]) == Threshold(ladder[k]);
  }

  /** A higher count never selects a lower threshold, and once some tier applies one always does. */
  lemma SelectionMonotone(ladder: seq<Tier>, c1: int, c2: int)
    requires c1 <= c2 && SelectTier(ladder, c1).Some?
    ensures SelectTier(ladder, c2).Some?
    ensures Threshold(ladder[SelectTier(ladder, c1).value]) <= Threshold(ladder[SelectTier(ladder, c2).value])
  {
    var k := SelectTier(ladder, c1).value;
    assert Threshold(ladder[k]) <= c2;
  }

  /** The `action` of the selected tier, as unmute re-evaluation reads it (userhistory.py:74-79). */
  function LadderAction(ladder: seq<Tier>, count: int): (a: Option<Action>)
    ensures a.None? <==> forall j :: 0 <= j < |ladder| ==> count < Threshold(ladder[j])
    ensures a.Some? ==> a.value == ladder[SelectTier(ladder, count).value].action
  {
    match SelectTier(ladder, count)
    case None => None
    case Some(k) => Some(ladder[k].action)
  }

  /** What the warn command's punishment step decides to do. */
  datatype Decision =
    | RuleActionsLogged               // the matched rule carries directives: they are logged, the ladder is skipped
    | NoPunishment                    // no tier applies, or its action is one the source does not handle
    | InvalidMuteDuration(minutes: int)
    | MuteFor(minutes: int)
    | Kick(tier: nat)
    | Ban(tier: nat)

  /**
   * `_check_and_apply_punishment`'s decision: a matched rule with directives
   * skips the ladder; otherwise the selected tier's action is carried out, a
   * mute only when its total duration is positive.
   */
  function Decide(ladder: seq<Tier>, count: int, ruleId: Option<string>, actions: seq<Directive>): (d: Decision)
    ensures d == RuleActionsLogged <==> Truthy(ruleId) && actions != []
    ensures d.MuteFor? ==> d.minutes > 0
    ensures d.MuteFor? || d.InvalidMuteDuration? ==>
      && LadderAction(ladder, count) == Some(Mute)
      && d.minutes == MuteMinutes(ladder[SelectTier(ladder, count).value])
    ensures d.Kick? ==> SelectTier(ladder, count) == Some(d.tier) && ladder[d.tier].action == RemoveTemporary
    ensures d.Ban? ==> SelectTier(ladder, count) == Some(d.tier) && ladder[d.tier].action == BanPermanent
    ensures d == NoPunishment ==> LadderAction(ladder, count).None? || LadderAction(ladder, count).value.OtherAction?
    ensures !(Truthy(ruleId) && actions != []) && LadderAction(ladder, count) == Some(Mute) ==>
      && (d.MuteFor? || d.InvalidMuteDuration?)
      && (d.MuteFor? <==> MuteMinutes(ladder[SelectTier(ladder, count).value]) > 0)
    ensures !(Truthy(ruleId) && actions != []) && LadderAction(ladder, count) == Some(RemoveTemporary) ==> d.Kick?
    ensures !(Truthy(ruleId) && actions != []) && LadderAction(ladder, count) == Some(BanPermanent) ==> d.Ban?
    ensures (!(Truthy(ruleId) && actions != []) &&
             (LadderAction(ladder, count).None? || LadderAction(ladder, count).value.OtherAction?)) ==> d == NoPunishment
  {
    if Truthy(ruleId) && actions != [] then RuleActionsLogged
    else match SelectTier(ladder, count)
      case None => NoPunishment
      case Some(k) =>
        match ladder[k].action
        case Mute =>
          var minutes := MuteMinutes(ladder[k]);
          if minutes <= 0 then InvalidMuteDuration(minutes) else MuteFor(minutes)
        case RemoveTemporary => Kick(k)
        case BanPermanent => Ban(k)
        case OtherAction(_) => NoPunishment
  }

  /** Directives on the matched rule make the decision independent of the ladder and of the count. */
  lemma RuleActionsSkipLadder(l1: seq<Tier>, l2: seq<Tier>, c1: int, c2: int, ruleId: Option<string>, actions: seq<Directive>)
    requires Truthy(ruleId) && actions != []
    ensures Decide(l1, c1, ruleId, actions) == Decide(l2, c2, ruleId, actions)
  {
  }
}
