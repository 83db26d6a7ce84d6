/**
 * The warnings cog (bot_warnings_cog.py): recording a warning with its
 * rollback, choosing and applying the punishment, writing the mute record, and
 * the periodic sweep that expires mutes.
 */
module WarningsCog {
  import opened Wrappers
  import opened Records
  import opened Rules
  import opened Ladder
  import opened Mutes
  import opened Store

  /** How sending the audit embed to the history channel ended. */
  datatype Publish = Published(messageId: int) | PublishRefused(error: CallError)

  datatype MuteOutcome =
    | MuteNotPositive      // duration <= 0: nothing done
    | NoMutedRole          // the muted role could not be found or created
    | Muted(key: string)   // roles changed and the record written under `key`
    | MuteRefused(error: CallError)

  /** What the punishment step attempted, beside the decision it took. */
  datatype Effect = NotAttempted | MuteEffect(mute: MuteOutcome) | RemovalEffect(call: Call)

  datatype Punishment = Punishment(decision: Decision, effect: Effect)

  datatype WarnOutcome =
    | NoHistoryChannel
    | PublishFailed(error: CallError)
    | Recorded(caseId: string, total: int, punishment: Punishment)

  /**
   * The entry the warn command appends (bot_warnings_cog.py:207-214): an active
   * warning with the displayed reason, the matched rule, the raw input, the case
   * id, the time and the operator. `message` is the audit message id, `None`
   * when the entry is built and set once the message is sent.
   */
  function WarningEntry(res: Resolution, raw: string, caseId: string, now: int,
                        operatorId: string, operatorName: string, message: Option<int>): (e: Entry)
    ensures e.body.WarningBody? && e.status == Active && e.cleared.None?
    ensures e.body.reason == res.displayed && e.body.ruleId == res.matched && e.body.originalInput == raw
    ensures e.body.historyMessage == message
    ensures e.caseId == caseId && e.timestamp == now && e.operatorId == operatorId && e.operatorName == operatorName
  {
    Entry(WarningBody(res.displayed, res.matched, raw, message), Active, caseId, now, operatorId, operatorName, None)
  }

  /** The registry after the punishment step: only a mute whose role changes succeeded writes a record. */
  function PunishedMutes(mutes: map<string, MuteRecord>, g: string, u: string, d: Decision,
                         caseId: Option<string>, mutedBy: string, now: int, mutedRole: bool, roleCalls: Call): (r: map<string, MuteRecord>)
    ensures r - {MuteKey(g, u)} == mutes - {MuteKey(g, u)}
    ensures d.MuteFor? && mutedRole && roleCalls.Succeeded? ==>
      && MuteKey(g, u) in r && r[MuteKey(g, u)] == NewMuteRecord(g, u, now, d.minutes, mutedBy, caseId)
      && (d.minutes > 0 ==> !Due(r[MuteKey(g, u)], now))
    ensures !(d.MuteFor? && mutedRole && roleCalls.Succeeded?) ==> r == mutes
  {
    if d.MuteFor? && mutedRole && roleCalls.Succeeded? then
      mutes[MuteKey(g, u) := NewMuteRecord(g, u, now, d.minutes, mutedBy, caseId)]
    else mutes
  }

  /**
   * `_apply_mute` (bot_warnings_cog.py:366-437): a positive duration, a muted
   * role and successful role changes write the record, overwriting any earlier
   * one for the same user; otherwise the registry is untouched.
   */
  method ApplyMute(ledger: Ledger, g: string, u: string, minutes: int, caseId: Option<string>,
                   mutedBy: string, now: int, mutedRole: bool, roleCalls: Call)
    returns (outcome: MuteOutcome)
    modifies ledger
    ensures ledger.warnings == old(ledger.warnings)
    ensures outcome.Muted? <==> minutes > 0 && mutedRole && roleCalls.Succeeded?
    ensures outcome.Muted? ==> outcome.key == MuteKey(g, u)
    ensures minutes <= 0 ==> outcome == MuteNotPositive
    ensures minutes > 0 && !mutedRole ==> outcome == NoMutedRole
    ensures minutes > 0 && mutedRole && roleCalls.Failed? ==> outcome == MuteRefused(roleCalls.error)
    ensures ledger.activeMutes ==
      if outcome.Muted? then old(ledger.activeMutes)[MuteKey(g, u) := NewMuteRecord(g, u, now, minutes, mutedBy, caseId)]
      else old(ledger.activeMutes)
  {
    if minutes <= 0 {
      return MuteNotPositive;
    }
    if !mutedRole {
      return NoMutedRole;
    }
    var key := MuteKey(g, u);
    var info := NewMuteRecord(g, u, now, minutes, mutedBy, caseId);
    // the verified role is taken away and the muted role added before anything is stored
    match roleCalls
    case Failed(err) =>
      outcome := MuteRefused(err);
    case Succeeded =>
      ledger.activeMutes := ledger.activeMutes[key := info];
      outcome := Muted(key);
  }

  /**
   * `_check_and_apply_punishment` (bot_warnings_cog.py:295-364): take the
   * decision of `Decide` and carry it out; only a mute changes the document.
   * Kicks and bans report the platform's answer and nothing else.
   */
  method CheckAndApplyPunishment(ledger: Ledger, ladder: seq<Tier>, g: string, u: string, count: int,
                                 ruleId: Option<string>, actions: seq<Directive>, caseId: Option<string>,
                                 mutedBy: string, now: int, mutedRole: bool, roleCalls: Call, removal: Call)
    returns (p: Punishment)
    modifies ledger
    ensures p.decision == Decide(ladder, count, ruleId, actions)
    ensures p.decision.Kick? || p.decision.Ban? ==> p.effect == RemovalEffect(removal)
    ensures p.decision.MuteFor? ==>
      p.effect.MuteEffect? && (p.effect.mute.Muted? <==> mutedRole && roleCalls.Succeeded?)
    ensures !(p.decision.MuteFor? || p.decision.Kick? || p.decision.Ban?) ==> p.effect == NotAttempted
    ensures ledger.warnings == old(ledger.warnings)
    ensures ledger.activeMutes ==
      PunishedMutes(old(ledger.activeMutes), g, u, p.decision, caseId, mutedBy, now, mutedRole, roleCalls)
  {
    var d := Decide(ladder, count, ruleId, actions);
    match d
    case MuteFor(minutes) =>
      var m := ApplyMute(ledger, g, u, minutes, caseId, mutedBy, now, mutedRole, roleCalls);
      p := Punishment(d, MuteEffect(m));
    case Kick(_) =>
      p := Punishment(d, RemovalEffect(removal));
    case Ban(_) =>
      p := Punishment(d, RemovalEffect(removal));
    case _ =>
      p := Punishment(d, NotAttempted);
  }

  /**
   * bot_warnings_cog.py:216-233: create the guild and user skeleton when
   * missing, append the entry, recount the total and the matched rule's key.
   */
  method AppendWarning(ledger: Ledger, g: string, u: string, e: Entry, matched: Option<string>)
    modifies ledger
    ensures ledger.warnings == WithUser(old(ledger.warnings), g, u, RecordWarning(UserOf(old(ledger.warnings), g, u), e, matched))
    ensures ledger.activeMutes == old(ledger.activeMutes)
  {
    ghost var ws0 := ledger.warnings;
    ledger.warnings := WithUser(ledger.warnings, g, u, UserOf(ledger.warnings, g, u));
    var rec := ledger.warnings[g].users[u];
    rec := rec.(entries := rec.entries + [e]);
    rec := rec.(totalWarnings := Count(rec.entries, IsActive, AnyRule));
    if Truthy(matched) {
      var m := matched.value;
      rec := rec.(perRule := rec.perRule[m := Count(rec.entries, IsActive, OfRule(m))]);
    }
    ledger.warnings := WithUser(ledger.warnings, g, u, rec);
    WithUserOverwrite(ws0, g, u, UserOf(ws0, g, u), rec);
  }

  /**
   * bot_warnings_cog.py:247-252: pop the last entry, recount the total, recount
   * the matched rule's key and delete it when it reaches 0.
   */
  method RollBackWarning(ledger: Ledger, g: string, u: string, matched: Option<string>)
    requires g in ledger.warnings && u in ledger.warnings[g].users && ledger.warnings[g].users[u].entries != []
    modifies ledger
    ensures ledger.warnings == WithUser(old(ledger.warnings), g, u, PopWarning(UserOf(old(ledger.warnings), g, u), matched))
    ensures ledger.activeMutes == old(ledger.activeMutes)
  {
    var rec := ledger.warnings[g].users[u];
    rec := rec.(entries := rec.entries[..|rec.entries| - 1]);
    rec := rec.(totalWarnings := Count(rec.entries, IsActive, AnyRule));
    if Truthy(matched) {
      var m := matched.value;
      var v := Count(rec.entries, IsActive, OfRule(m));
      rec := rec.(perRule := rec.perRule[m := v]);
      if v == 0 {
        rec := rec.(perRule := rec.perRule - {m});
      }
    }
    ledger.warnings := WithUser(ledger.warnings, g, u, rec);
  }

  /** The entry `e` with the id of its audit message recorded. */
  function WithMessage(e: Entry, id: int): (r: Entry)
    ensures e.body.WarningBody? ==> r.body == e.body.(historyMessage := Some(id))
    ensures !e.body.WarningBody? ==> r == e
    ensures r.(body := e.body) == e
  {
    match e.body
    case WarningBody(reason, ruleId, original, _) => e.(body := WarningBody(reason, ruleId, original, Some(id)))
    case _ => e
  }

  /** bot_warnings_cog.py:244: the last entry, the one just appended, keeps the audit message id. */
  method SetHistoryMessage(ledger: Ledger, g: string, u: string, id: int)
    requires g in ledger.warnings && u in ledger.warnings[g].users && ledger.warnings[g].users[u].entries != []
    modifies ledger
    ensures var rec := UserOf(old(ledger.warnings), g, u);
      ledger.warnings == WithUser(old(ledger.warnings), g, u,
        rec.(entries := rec.entries[|rec.entries| - 1 := WithMessage(rec.entries[|rec.entries| - 1], id)]))
    ensures ledger.activeMutes == old(ledger.activeMutes)
  {
    var rec := ledger.warnings[g].users[u];
    var last := |rec.entries| - 1;
    rec := rec.(entries := rec.entries[last := WithMessage(rec.entries[last], id)]);
    ledger.warnings := WithUser(ledger.warnings, g, u, rec);
  }

  /** Recording the message id after the append is the same as appending the entry that already carries it. */
  lemma RestampAfterAppend(rec: UserRecord, e: Entry, matched: Option<string>, id: int)
    ensures var r := RecordWarning(rec, e, matched);
      r.(entries := r.entries[|r.entries| - 1 := WithMessage(e, id)]) == RecordWarning(rec, WithMessage(e, id), matched)
  {
    var r := RecordWarning(rec, e, matched);
    assert r.entries[|r.entries| - 1 := WithMessage(e, id)] == rec.entries + [WithMessage(e, id)];
    forall t, sc ensures Count(rec.entries + [e], t, sc) == Count(rec.entries + [WithMessage(e, id)], t, sc) {
      CountAppend(rec.entries, e, t, sc);
      CountAppend(rec.entries, WithMessage(e, id), t, sc);
    }
  }

  /**
   * bot_warnings_cog.py:216-233 then 245-253: the warning is appended and the
   * audit message refused, so the append is popped again. On a consistent
   * document this leaves the user's record as it was, the skeleton aside.
   */
  method AppendThenRollBack(ledger: Ledger, g: string, u: string, e: Entry, matched: Option<string>)
    modifies ledger
    ensures ledger.warnings ==
      WithUser(old(ledger.warnings), g, u, PopWarning(RecordWarning(UserOf(old(ledger.warnings), g, u), e, matched), matched))
    ensures ledger.activeMutes == old(ledger.activeMutes)
    ensures old(ledger.Valid()) ==> ledger.warnings == WithUser(old(ledger.warnings), g, u, UserOf(old(ledger.warnings), g, u))
    ensures old(ledger.Valid()) ==> ledger.Valid()
  {
    ghost var ws0 := ledger.warnings;
    ghost var before := UserOf(ws0, g, u);
    ghost var appended := RecordWarning(before, e, matched);
    AppendWarning(ledger, g, u, e, matched);
    RollBackWarning(ledger, g, u, matched);
    WithUserOverwrite(ws0, g, u, appended, PopWarning(appended, matched));
    if old(ledger.Valid()) {
      RecordOkOf(ws0, g, u);
      RollBackRestores(before, e, matched);
      WithUserOk(ws0, g, u, before);
    }
  }

  /**
   * bot_warnings_cog.py:216-244: the warning is appended and the audit message
   * sent, so the entry keeps the message id. Appending an active, well-formed
   * warning keeps the document consistent.
   */
  method AppendPublished(ledger: Ledger, g: string, u: string, e: Entry, matched: Option<string>, id: int)
    requires e.body.WarningBody? && e.status == Active && e.body.ruleId == matched && WellFormedEntry(e)
    modifies ledger
    ensures ledger.warnings == WithUser(old(ledger.warnings), g, u, RecordWarning(UserOf(old(ledger.warnings), g, u), WithMessage(e, id), matched))
    ensures ledger.activeMutes == old(ledger.activeMutes)
    ensures old(ledger.Valid()) ==> ledger.Valid()
  {
    ghost var ws0 := ledger.warnings;
    AppendWarning(ledger, g, u, e, matched);
    SetHistoryMessage(ledger, g, u, id);
    PublishedRecord(ws0, g, u, e, matched, id);
    if WarningsOk(ws0) {
      AppendKeepsConsistency(ws0, g, u, WithMessage(e, id), matched);
    }
  }

  /** Appending the warning and then recording its message id is one write of the record with the id already set. */
  lemma PublishedRecord(ws: map<string, Guild>, g: string, u: string, e: Entry, matched: Option<string>, id: int)
    ensures var appended := RecordWarning(UserOf(ws, g, u), e, matched);
      var mid := WithUser(ws, g, u, appended);
      var rec := UserOf(mid, g, u);
      && rec == appended
      && WithUser(mid, g, u, rec.(entries := rec.entries[|rec.entries| - 1 := WithMessage(rec.entries[|rec.entries| - 1], id)]))
         == WithUser(ws, g, u, RecordWarning(UserOf(ws, g, u), WithMessage(e, id), matched))
  {
    var before := UserOf(ws, g, u);
    var appended := RecordWarning(before, e, matched);
    var rec := RecordWarning(before, WithMessage(e, id), matched);
    assert appended.entries[|appended.entries| - 1] == e;
    RestampAfterAppend(before, e, matched, id);
    WithUserOverwrite(ws, g, u, appended, rec);
  }

  /** Storing the record with an active, well-formed warning appended keeps a consistent document consistent. */
  lemma AppendKeepsConsistency(ws: map<string, Guild>, g: string, u: string, e: Entry, matched: Option<string>)
    requires WarningsOk(ws)
    requires e.body.WarningBody? && e.status == Active && e.body.ruleId == matched && WellFormedEntry(e)
    ensures WarningsOk(WithUser(ws, g, u, RecordWarning(UserOf(ws, g, u), e, matched)))
  {
    RecordOkOf(ws, g, u);
    RecordWarningOk(UserOf(ws, g, u), e, matched);
    WithUserOk(ws, g, u, RecordWarning(UserOf(ws, g, u), e, matched));
  }

  /**
   * `_handle_warning` (bot_warnings_cog.py:176-293). Without a history channel
   * nothing changes. Otherwise the user's skeleton is created, the warning
   * appended and the counters recounted; if the audit message cannot be sent the
   * append is rolled back (the skeleton stays) and the command fails; if it is
   * sent the entry keeps the message id and the punishment step runs on the new
   * total. The ledger invariant is kept on every path.
   */
  method HandleWarning(ledger: Ledger, rules: seq<Rule>, ladder: seq<Tier>,
                       g: string, u: string, caseId: string, now: int,
                       operatorId: string, operatorName: string, raw: string,
                       historyChannel: bool, publish: Publish,
                       mutedRole: bool, roleCalls: Call, removal: Call)
    returns (outcome: WarnOutcome)
    modifies ledger
    ensures outcome == NoHistoryChannel <==> !historyChannel
    ensures outcome.NoHistoryChannel? ==> ledger.warnings == old(ledger.warnings)
    ensures !outcome.Recorded? ==> ledger.activeMutes == old(ledger.activeMutes)
    ensures outcome.PublishFailed? ==> publish.PublishRefused? && outcome.error == publish.error
    ensures outcome.PublishFailed? && old(ledger.Valid()) ==>
      ledger.warnings == WithUser(old(ledger.warnings), g, u, UserOf(old(ledger.warnings), g, u))
    ensures outcome.Recorded? ==>
      && historyChannel && publish.Published?
      && var res := ResolveReason(raw, rules);
         var rec := RecordWarning(UserOf(old(ledger.warnings), g, u),
                                  WarningEntry(res, raw, caseId, now, operatorId, operatorName, Some(publish.messageId)), res.matched);
         && ledger.warnings == WithUser(old(ledger.warnings), g, u, rec)
         && outcome.total == rec.totalWarnings
         && outcome.punishment.decision == Decide(ladder, rec.totalWarnings, res.matched, res.actions)
         && (outcome.punishment.decision.Kick? || outcome.punishment.decision.Ban? ==>
               outcome.punishment.effect == RemovalEffect(removal))
         && (outcome.punishment.decision.MuteFor? ==>
               outcome.punishment.effect.MuteEffect? &&
               (outcome.punishment.effect.mute.Muted? <==> mutedRole && roleCalls.Succeeded?))
         && (!(outcome.punishment.decision.MuteFor? || outcome.punishment.decision.Kick? || outcome.punishment.decision.Ban?) ==>
               outcome.punishment.effect == NotAttempted)
         && ledger.activeMutes == PunishedMutes(old(ledger.activeMutes), g, u, outcome.punishment.decision,
                                                Some(caseId), operatorId, now, mutedRole, roleCalls)
    ensures old(ledger.Valid()) ==> ledger.Valid()
  {
    var res := ResolveReason(raw, rules);
    if !historyChannel {
      return NoHistoryChannel;
    }
    var entry := WarningEntry(res, raw, caseId, now, operatorId, operatorName, None);
    match publish
    case PublishRefused(err) =>
      AppendThenRollBack(ledger, g, u, entry, res.matched);
      return PublishFailed(err);
    case Published(id) =>
      AppendPublished(ledger, g, u, entry, res.matched, id);
      assert WithMessage(entry, id) == WarningEntry(res, raw, caseId, now, operatorId, operatorName, Some(id));

    var total := ledger.warnings[g].users[u].totalWarnings;
    var p := CheckAndApplyPunishment(ledger, ladder, g, u, total, res.matched, res.actions, Some(caseId),
                                     operatorId, now, mutedRole, roleCalls, removal);
    outcome := Recorded(caseId, total, p);
  }

  /** The record of any user in a consistent document is well-formed and consistent. */
  lemma RecordOkOf(ws: map<string, Guild>, g: string, u: string)
    requires WarningsOk(ws)
    ensures RecordOk(UserOf(ws, g, u))
  {
    if !(g in ws && u in ws[g].users) {
      EmptyRecordOk();
    }
  }

  /** Every record of the registry with a numeric deadline rewritten to ISO form. */
  function NormalisedAll(mutes: map<string, MuteRecord>): (r: map<string, MuteRecord>)
    ensures r.Keys == mutes.Keys
    ensures forall k :: k in r ==> r[k] == Normalised(mutes[k])
  {
    map k | k in mutes :: Normalised(mutes[k])
  }

  /**
   * The first loop of `unmute_task_loop` (bot_warnings_cog.py:59-122): visit
   * every record once, rewrite a numeric deadline to ISO form in place, skip a
   * deadline that does not parse, and collect the keys that are due.
   */
  method CollectDue(ledger: Ledger, now: int) returns (removed: seq<string>)
    modifies ledger
    ensures ledger.warnings == old(ledger.warnings)
    ensures ledger.activeMutes == NormalisedAll(old(ledger.activeMutes))
    ensures forall k :: k in removed <==> k in old(ledger.activeMutes) && Due(old(ledger.activeMutes)[k], now)
  {
    ghost var start := ledger.activeMutes;
    removed := [];
    var pending := ledger.activeMutes.Keys;
    while pending != {}
      invariant pending <= start.Keys
      invariant ledger.warnings == old(ledger.warnings)
      invariant ledger.activeMutes.Keys == start.Keys
      invariant forall k :: k in start ==>
        ledger.activeMutes[k] == if k in pending then start[k] else Normalised(start[k])
      invariant forall k :: k in removed <==> k in start && k !in pending && Due(start[k], now)
      decreases pending
    {
      var key :| key in pending;
      pending := pending - {key};
      var info := ledger.activeMutes[key];
      match info.unmuteAt {
        case Iso(t) =>
          if now >= t {
            removed := removed + [key];
          }
        case Epoch(t) =>
          ledger.activeMutes := ledger.activeMutes[key := info.(unmuteAt := Iso(t))];
          if now >= t {
            removed := removed + [key];
          }
        case Unparseable =>
        case Unsupported =>
      }
    }
    assert ledger.activeMutes == NormalisedAll(start);
  }

  /** The second loop of `unmute_task_loop` (bot_warnings_cog.py:117-119): delete each collected key still present. */
  method DropKeys(ledger: Ledger, keys: seq<string>)
    modifies ledger
    ensures ledger.warnings == old(ledger.warnings)
    ensures forall k :: k in ledger.activeMutes <==> k in old(ledger.activeMutes) && k !in keys
    ensures forall k :: k in ledger.activeMutes ==> ledger.activeMutes[k] == old(ledger.activeMutes)[k]
  {
    var i := 0;
    while i < |keys|
      invariant 0 <= i <= |keys|
      invariant ledger.warnings == old(ledger.warnings)
      invariant forall k :: k in ledger.activeMutes <==> k in old(ledger.activeMutes) && k !in keys[..i]
      invariant forall k :: k in ledger.activeMutes ==> ledger.activeMutes[k] == old(ledger.activeMutes)[k]
    {
      if keys[i] in ledger.activeMutes {
        ledger.activeMutes := ledger.activeMutes - {keys[i]};
      }
      assert keys[..i + 1] == keys[..i] + [keys[i]];
      i := i + 1;
    }
    assert keys[..i] == keys;
  }

  /**
   * `unmute_task_loop` (bot_warnings_cog.py:47-127): one tick. The first loop
   * rewrites numeric deadlines to ISO form in place, skips records whose
   * deadline does not parse, and collects every due key whatever the platform
   * answers; the second loop deletes the collected keys.
   */
  method UnmuteSweep(ledger: Ledger, now: int) returns (removed: seq<string>)
    modifies ledger
    ensures ledger.warnings == old(ledger.warnings)
    ensures ledger.activeMutes == Swept(old(ledger.activeMutes), now)
    ensures forall k :: k in removed <==> k in old(ledger.activeMutes) && Due(old(ledger.activeMutes)[k], now)
  {
    ghost var start := ledger.activeMutes;
    removed := CollectDue(ledger, now);
    DropKeys(ledger, removed);
    assert forall k :: k in ledger.activeMutes <==> k in Swept(start, now);
  }
}
