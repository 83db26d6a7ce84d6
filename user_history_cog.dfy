/**
 * The user-history cog (userhistory.py): adding a note, clearing an entry by
 * its case id, and re-evaluating a mute once a warning has been cleared.
 */
module UserHistoryCog {
  import opened Wrappers
  import opened Records
  import opened Ladder
  import opened Mutes
  import opened Store

  // ---------------------------------------------------------------------------
  // Case ids
  // ---------------------------------------------------------------------------

  function UpperChar(c: char): char {
    if 'a' <= c <= 'z' then (c as int - 32) as char else c
  }

  /** `str.upper()` on ASCII text, as the clear command applies it to the case id it is given. */
  function Upper(s: string): (r: string)
    ensures |r| == |s|
    ensures forall k :: 0 <= k < |r| ==> !('a' <= r[k] <= 'z')
    ensures forall k :: 0 <= k < |r| && !('a' <= s[k] <= 'z') ==> r[k] == s[k]
    ensures forall k :: 0 <= k < |s| && 'a' <= s[k] <= 'z' ==> r[k] == (s[k] as int - 32) as char
  {
    if s == [] then [] else [UpperChar(s[0])] + Upper(s[1..])
  }

  /** The shape of the ids the bot generates: five characters from A-Z and 0-9. */
  predicate IsCaseId(s: string) {
    |s| == 5 && forall k :: 0 <= k < |s| ==> 'A' <= s[k] <= 'Z' || '0' <= s[k] <= '9'
  }

  /** A generated id is left as it is by the normalisation, so typing it exactly still finds the entry. */
  lemma {:induction false} UpperKeepsCaseIds(s: string)
    requires IsCaseId(s)
    ensures Upper(s) == s
  {
    assert forall k :: 0 <= k < |s| ==> !('a' <= s[k] <= 'z');
  }

  /** Normalising twice is normalising once. */
  lemma {:induction false} UpperIdempotent(s: string)
    ensures Upper(Upper(s)) == Upper(s)
  {
    var r := Upper(s);
    assert forall k :: 0 <= k < |r| ==> !('a' <= r[k] <= 'z');
  }

  // ---------------------------------------------------------------------------
  // Finding the entry to clear
  // ---------------------------------------------------------------------------

  /** The clear command's test on an entry: the case id matches and the status, defaulting to "active", is "active". */
  predicate Matches(e: Entry, id: string) {
    e.caseId == id && Passes(e.status, ActiveByDefault)
  }

  /** The first entry of one user that the clear command would take. */
  function FirstMatch(es: seq<Entry>, id: string): (k: Option<nat>)
    ensures k.Some? ==> k.value < |es| && Matches(es[k.value], id)
    ensures k.Some? ==> forall j :: 0 <= j < k.value ==> !Matches(es[j], id)
    ensures k.None? <==> forall j :: 0 <= j < |es| ==> !Matches(es[j], id)
  {
    if es == [] then None
    else if Matches(es[0], id) then Some(0)
    else match FirstMatch(es[1..], id)
      case None => None
      case Some(j) => Some(j + 1)
  }

  /** Where the entry to clear sits: the user's position in the guild's order, the user, the entry's index. */
  datatype Hit = Hit(slot: nat, user: string, index: nat)

  /**
   * The entry the clear command takes, searching users in the guild's insertion
   * order from position `from`, and each user's entries in order.
   */
  function Locate(gd: Guild, id: string, from: nat): (h: Option<Hit>)
    ensures h.Some? ==>
      && from <= h.value.slot < |gd.order| && gd.order[h.value.slot] == h.value.user
      && h.value.user in gd.users && FirstMatch(gd.users[h.value.user].entries, id) == Some(h.value.index)
    ensures h.Some? ==> forall q :: from <= q < h.value.slot && gd.order[q] in gd.users ==>
      FirstMatch(gd.users[gd.order[q]].entries, id).None?
    ensures h.None? <==> forall q :: from <= q < |gd.order| && gd.order[q] in gd.users ==>
      FirstMatch(gd.users[gd.order[q]].entries, id).None?
    decreases |gd.order| - from
  {
    if from >= |gd.order| then None
    else
      var u := gd.order[from];
      if u in gd.users && FirstMatch(gd.users[u].entries, id).Some? then
        Some(Hit(from, u, FirstMatch(gd.users[u].entries, id).value))
      else Locate(gd, id, from + 1)
  }

  /** In a consistent guild, finding nothing means no entry of any user matches. */
  lemma NothingLocated(gd: Guild, id: string, u: string, k: nat)
    requires GuildOk(gd) && Locate(gd, id, 0).None?
    requires u in gd.users && k < |gd.users[u].entries|
    ensures !Matches(gd.users[u].entries[k], id)
  {
    var q :| 0 <= q < |gd.order| && gd.order[q] == u;
    assert FirstMatch(gd.users[gd.order[q]].entries, id).None?;
  }

  /** The inner loop of the search: the entries of one user in order, stopping at the first match. */
  method FirstMatchIn(es: seq<Entry>, id: string) returns (k: Option<nat>)
    ensures k == FirstMatch(es, id)
  {
    var j := 0;
    while j < |es|
      invariant 0 <= j <= |es|
      invariant forall q :: 0 <= q < j ==> !Matches(es[q], id)
    {
      if Matches(es[j], id) {
        return Some(j);
      }
      j := j + 1;
    }
    return None;
  }

  /**
   * The nested search of the clear command (userhistory.py:196-211): users in
   * insertion order, their entries in order, stopping at the first match.
   */
  method FindActiveEntry(gd: Guild, id: string) returns (h: Option<Hit>)
    ensures h == Locate(gd, id, 0)
  {
    var i := 0;
    while i < |gd.order|
      invariant 0 <= i <= |gd.order|
      invariant Locate(gd, id, 0) == Locate(gd, id, i)
    {
      var u := gd.order[i];
      if u in gd.users {
        var k := FirstMatchIn(gd.users[u].entries, id);
        if k.Some? {
          return Some(Hit(i, u, k.value));
        }
      }
      i := i + 1;
    }
    return None;
  }

  /** A cleared entry is never found again: a second clear with the same id takes another entry or none. */
  lemma ClearedIsNotFoundAgain(ws: map<string, Guild>, g: string, id: string, stamp: ClearStamp)
    requires g in ws && Locate(ws[g], id, 0).Some?
    ensures var h := Locate(ws[g], id, 0).value;
            var rec := ws[g].users[h.user];
            var ws' := WithUser(ws, g, h.user, ClearEntry(rec, h.index, stamp));
            Locate(ws'[g], id, 0) != Some(h)
  {
    var h := Locate(ws[g], id, 0).value;
    var rec := ws[g].users[h.user];
    var ws' := WithUser(ws, g, h.user, ClearEntry(rec, h.index, stamp));
    assert ws'[g].users[h.user].entries[h.index].status == Cleared;
  }

  // ---------------------------------------------------------------------------
  // Re-evaluating a mute after a clear
  // ---------------------------------------------------------------------------

  /** How `_handle_unmute_due_to_clear` ends. */
  datatype Reeval =
    | NotMuted                     // no record under the user's key
    | StillMuted                   // the ladder still says mute: the record stays
    | NoMutedRole                  // the muted role cannot be found: the record stays
    | StaleRecordRemoved           // the member does not hold the role: the record is dropped
    | Unmuted                      // role calls succeeded: the record is dropped
    | RoleCallFailed(error: CallError)

  /**
   * The outcome of re-evaluating the mute under `key` for `count` uncleared
   * warnings (userhistory.py:63-135).
   */
  function ReevalOutcome(mutes: map<string, MuteRecord>, key: string, count: int, ladder: seq<Tier>,
                         mutedRole: bool, holdsRole: bool, roleCalls: Call): (out: Reeval)
    ensures out.NotMuted? <==> key !in mutes
    ensures out.StillMuted? <==> key in mutes && LadderAction(ladder, count) == Some(Mute)
    ensures out.Unmuted? || out.StaleRecordRemoved? <==>
      key in mutes && LadderAction(ladder, count) != Some(Mute) && mutedRole && (!holdsRole || roleCalls.Succeeded?)
    ensures out.NoMutedRole? <==> key in mutes && LadderAction(ladder, count) != Some(Mute) && !mutedRole
    ensures out.StaleRecordRemoved? <==> key in mutes && LadderAction(ladder, count) != Some(Mute) && mutedRole && !holdsRole
    ensures out.Unmuted? <==>
      key in mutes && LadderAction(ladder, count) != Some(Mute) && mutedRole && holdsRole && roleCalls.Succeeded?
    ensures out.RoleCallFailed? ==> roleCalls == Failed(out.error)
  {
    if key !in mutes then NotMuted
    else if LadderAction(ladder, count) == Some(Mute) then StillMuted
    else if !mutedRole then NoMutedRole
    else if !holdsRole then StaleRecordRemoved
    else match roleCalls
      case Succeeded => Unmuted
      case Failed(e) => RoleCallFailed(e)
  }

  /**
   * The registry after a re-evaluation: a kept mute loses the first occurrence
   * of the cleared case id, the other ids keeping their order, and nothing
   * else; a lifted or stale mute is dropped; every other record is untouched.
   */
  function MutesAfterReeval(mutes: map<string, MuteRecord>, key: string, caseId: string, out: Reeval): (r: map<string, MuteRecord>)
    requires out.StillMuted? ==> key in mutes
    ensures forall k :: k != key ==> (k in r <==> k in mutes)
    ensures forall k :: k != key && k in r ==> r[k] == mutes[k]
    ensures key in r <==> key in mutes && !(out.Unmuted? || out.StaleRecordRemoved?)
    ensures key in r && !out.StillMuted? ==> r[key] == mutes[key]
    ensures out.StillMuted? ==> r[key] == PruneCase(mutes[key], caseId)
  {
    match out
    case StillMuted => mutes[key := PruneCase(mutes[key], caseId)]
    case Unmuted => mutes - {key}
    case StaleRecordRemoved => mutes - {key}
    case _ => mutes
  }

  /** The number of uncleared warnings re-evaluation counts is one fewer than the warn-time total before the clear. */
  lemma ReevaluationSeesOneFewer(rec: UserRecord, i: nat, stamp: ClearStamp)
    requires RecordOk(rec) && i < |rec.entries| && Passes(rec.entries[i].status, ActiveByDefault)
    requires rec.entries[i].body.WarningBody?
    ensures Count(ClearEntry(rec, i, stamp).entries, NotCleared, AnyRule) == rec.totalWarnings - 1
  {
    ClearEntryOk(rec, i, stamp);
    TestsAgree(rec.entries, AnyRule);
  }

  /**
   * `_handle_unmute_due_to_clear` (userhistory.py:52-135): count the user's
   * uncleared warnings, look up the ladder, then keep the mute and prune the case
   * id, or lift it, or drop a stale record.
   */
  method ReevaluateMute(ledger: Ledger, g: string, u: string, caseId: string, ladder: seq<Tier>,
                        mutedRole: bool, holdsRole: bool, roleCalls: Call)
    returns (out: Reeval)
    modifies ledger
    ensures ledger.warnings == old(ledger.warnings)
    ensures var count := Count(UserOf(old(ledger.warnings), g, u).entries, NotCleared, AnyRule);
      out == ReevalOutcome(old(ledger.activeMutes), MuteKey(g, u), count, ladder, mutedRole, holdsRole, roleCalls)
    ensures ledger.activeMutes == MutesAfterReeval(old(ledger.activeMutes), MuteKey(g, u), caseId, out)
  {
    var key := MuteKey(g, u);
    var count := Count(UserOf(ledger.warnings, g, u).entries, NotCleared, AnyRule);
    if key !in ledger.activeMutes {
      return NotMuted;
    }
    var rec := ledger.activeMutes[key];
    if LadderAction(ladder, count) == Some(Mute) {
      if caseId in rec.caseIds {
        ledger.activeMutes := ledger.activeMutes[key := rec.(caseIds := RemoveFirst(rec.caseIds, caseId))];
      }
      assert ledger.activeMutes == old(ledger.activeMutes)[key := PruneCase(rec, caseId)];
      return StillMuted;
    }
    if !mutedRole {
      return NoMutedRole;
    }
    if !holdsRole {
      ledger.activeMutes := ledger.activeMutes - {key};
      return StaleRecordRemoved;
    }
    match roleCalls
    case Failed(e) =>
      out := RoleCallFailed(e);
    case Succeeded =>
      ledger.activeMutes := ledger.activeMutes - {key};
      out := Unmuted;
  }

  // ---------------------------------------------------------------------------
  // Clear
  // ---------------------------------------------------------------------------

  datatype ClearOutcome =
    | NoGuildRecords
    | CaseNotFound(caseId: string)
    | ClearedCase(caseId: string, user: string, wasWarning: bool, reeval: Option<Reeval>)

  /** userhistory.py:204-207: the matching entry is stamped cleared in place. */
  method StampEntry(ledger: Ledger, g: string, u: string, i: nat, stamp: ClearStamp)
    requires g in ledger.warnings && u in ledger.warnings[g].users && i < |ledger.warnings[g].users[u].entries|
    modifies ledger
    ensures var rec := UserOf(old(ledger.warnings), g, u);
      ledger.warnings == WithUser(old(ledger.warnings), g, u, rec.(entries := ClearedEntries(rec.entries, i, stamp)))
    ensures ledger.activeMutes == old(ledger.activeMutes)
  {
    var rec := ledger.warnings[g].users[u];
    var e := rec.entries[i];
    rec := rec.(entries := rec.entries[i := e.(status := Cleared, cleared := Some(stamp))]);
    ledger.warnings := WithUser(ledger.warnings, g, u, rec);
  }

  /**
   * userhistory.py:204-227: stamp the entry, then for a warning recount the
   * total with the status defaulting to "active" and decrement the rule's count.
   * Clearing an entry the search can take keeps the ledger invariant.
   */
  method ClearEntryAt(ledger: Ledger, g: string, u: string, i: nat, stamp: ClearStamp)
    requires g in ledger.warnings && u in ledger.warnings[g].users && i < |ledger.warnings[g].users[u].entries|
    modifies ledger
    ensures ledger.warnings == WithUser(old(ledger.warnings), g, u, ClearEntry(UserOf(old(ledger.warnings), g, u), i, stamp))
    ensures ledger.activeMutes == old(ledger.activeMutes)
    ensures old(ledger.Valid()) && Passes(UserOf(old(ledger.warnings), g, u).entries[i].status, ActiveByDefault) ==> ledger.Valid()
  {
    ghost var ws0 := ledger.warnings;
    ghost var rec0 := ledger.warnings[g].users[u];
    StampEntry(ledger, g, u, i, stamp);
    var rec := ledger.warnings[g].users[u];
    var e := rec.entries[i];
    if e.body.WarningBody? {
      rec := rec.(totalWarnings := Count(rec.entries, ActiveByDefault, AnyRule));
      if Truthy(e.body.ruleId) {
        rec := rec.(perRule := DecrementRule(rec.perRule, e.body.ruleId.value));
      }
      ledger.warnings := WithUser(ledger.warnings, g, u, rec);
    }
    WithUserOverwrite(ws0, g, u, rec0.(entries := ClearedEntries(rec0.entries, i, stamp)), rec);
    assert rec == ClearEntry(rec0, i, stamp);
    if old(ledger.Valid()) && Passes(rec0.entries[i].status, ActiveByDefault) {
      ClearEntryOk(rec0, i, stamp);
      WithUserOk(ws0, g, u, rec);
    }
  }

  /**
   * `clear_slash_command` (userhistory.py:175-266). With no records for the
   * guild, or no active entry with the upper-cased id, nothing changes. Otherwise
   * the first match is cleared as `ClearEntry` says, and when the member is
   * still in the guild, clearing a warning re-evaluates the mute. A match stored
   * under an empty user key is stamped but then reported as not found, with the
   * counters left as they were.
   */
  method Clear(ledger: Ledger, g: string, rawId: string, now: int, operatorId: string, operatorName: string,
               memberFound: bool, ladder: seq<Tier>, mutedRole: bool, holdsRole: bool, roleCalls: Call)
    returns (outcome: ClearOutcome)
    modifies ledger
    ensures outcome == NoGuildRecords <==> g !in old(ledger.warnings)
    ensures outcome == NoGuildRecords ==> ledger.warnings == old(ledger.warnings)
    ensures g in old(ledger.warnings) && Locate(old(ledger.warnings)[g], Upper(rawId), 0).None? ==>
      && outcome == CaseNotFound(Upper(rawId))
      && ledger.warnings == old(ledger.warnings)
    ensures g in old(ledger.warnings) && Locate(old(ledger.warnings)[g], Upper(rawId), 0).Some? ==>
      var h := Locate(old(ledger.warnings)[g], Upper(rawId), 0).value;
      var rec := old(ledger.warnings)[g].users[h.user];
      var stamp := ClearStamp(now, operatorId, operatorName);
      && (h.user == "" ==>
           && outcome == CaseNotFound(Upper(rawId))
           && ledger.warnings == WithUser(old(ledger.warnings), g, h.user, rec.(entries := ClearedEntries(rec.entries, h.index, stamp))))
      && (h.user != "" ==>
           && outcome.ClearedCase? && outcome.caseId == Upper(rawId) && outcome.user == h.user
           && outcome.wasWarning == rec.entries[h.index].body.WarningBody?
           && ledger.warnings == WithUser(old(ledger.warnings), g, h.user, ClearEntry(rec, h.index, stamp)))
    ensures outcome.ClearedCase? ==> (outcome.reeval.Some? <==> memberFound && outcome.wasWarning)
    ensures outcome.ClearedCase? && outcome.reeval.Some? ==>
      var count := Count(UserOf(ledger.warnings, g, outcome.user).entries, NotCleared, AnyRule);
      && outcome.reeval.value == ReevalOutcome(old(ledger.activeMutes), MuteKey(g, outcome.user), count, ladder, mutedRole, holdsRole, roleCalls)
      && ledger.activeMutes == MutesAfterReeval(old(ledger.activeMutes), MuteKey(g, outcome.user), outcome.caseId, outcome.reeval.value)
    ensures !(outcome.ClearedCase? && outcome.reeval.Some?) ==> ledger.activeMutes == old(ledger.activeMutes)
    ensures old(ledger.Valid()) && !outcome.CaseNotFound? ==> ledger.Valid()
  {
    if g !in ledger.warnings {
      return NoGuildRecords;
    }
    var id := Upper(rawId);
    var found := FindActiveEntry(ledger.warnings[g], id);
    if found.None? {
      return CaseNotFound(id);
    }
    var u := found.value.user;
    var i := found.value.index;
    var stamp := ClearStamp(now, operatorId, operatorName);
    var wasWarning := ledger.warnings[g].users[u].entries[i].body.WarningBody?;
    if u == "" {
      // userhistory.py:213: an empty user key reads as "not found" after the stamp
      StampEntry(ledger, g, u, i, stamp);
      return CaseNotFound(id);
    }
    ClearEntryAt(ledger, g, u, i, stamp);
    if !memberFound || !wasWarning {
      return ClearedCase(id, u, wasWarning, None);
    }
    var r := ReevaluateMute(ledger, g, u, id, ladder, mutedRole, holdsRole, roleCalls);
    return ClearedCase(id, u, true, Some(r));
  }

  // ---------------------------------------------------------------------------
  // Notes
  // ---------------------------------------------------------------------------

  /**
   * `note_slash_command` (userhistory.py:137-173): create the guild and user
   * skeleton when missing and append an active note; neither counter changes.
   */
  method AddNote(ledger: Ledger, g: string, u: string, caseId: string, now: int,
                 operatorId: string, operatorName: string, text: string)
    modifies ledger
    ensures ledger.warnings == WithUser(old(ledger.warnings), g, u,
      AppendNote(UserOf(old(ledger.warnings), g, u), Entry(NoteBody(text), Active, caseId, now, operatorId, operatorName, None)))
    ensures ledger.activeMutes == old(ledger.activeMutes)
    ensures UserOf(ledger.warnings, g, u).totalWarnings == UserOf(old(ledger.warnings), g, u).totalWarnings
    ensures UserOf(ledger.warnings, g, u).perRule == UserOf(old(ledger.warnings), g, u).perRule
    ensures old(ledger.Valid()) ==> ledger.Valid()
  {
    ghost var ws0 := ledger.warnings;
    var note := Entry(NoteBody(text), Active, caseId, now, operatorId, operatorName, None);
    ledger.warnings := WithUser(ledger.warnings, g, u, UserOf(ledger.warnings, g, u));
    var rec := ledger.warnings[g].users[u];
    rec := rec.(entries := rec.entries + [note]);
    ledger.warnings := WithUser(ledger.warnings, g, u, rec);
    WithUserOverwrite(ws0, g, u, UserOf(ws0, g, u), rec);
    if old(ledger.Valid()) {
      if !(g in ws0 && u in ws0[g].users) {
        EmptyRecordOk();
      }
      AppendNoteOk(UserOf(ws0, g, u), note);
      WithUserOk(ws0, g, u, rec);
    }
  }
}
