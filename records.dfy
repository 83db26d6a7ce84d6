/**
 * The record store: one ledger of entries per (guild, user), with the two
 * cached counters `total_warnings` and `per_rule_violations`, and the three
 * ways the source counts "active" warnings.
 */
module Records {
  import opened Wrappers

  /**
   * The `status` key of an entry: `Missing` when the key is absent,
   * `OtherStatus` for any stored value other than "active" and "cleared":
   * those two are always `Active` and `Cleared`, so `name` is never either.
   */
  datatype Status = Active | Cleared | Missing | OtherStatus(name: string)

  /** The clearing metadata stamped on an entry by the clear command. */
  datatype ClearStamp = ClearStamp(at: int, operatorId: string, operatorName: string)

  /** What a ledger entry says, by `entry_type`. */
  datatype Body =
    | WarningBody(reason: string, ruleId: Option<string>, originalInput: string, historyMessage: Option<int>)
    | NoteBody(text: string)
    | OtherBody(entryType: string)  // any other entry_type (join/leave events, unknown)

  datatype Entry = Entry(
    body: Body,
    status: Status,
    caseId: string,
    timestamp: int,
    operatorId: string,
    operatorName: string,
    cleared: Option<ClearStamp>)

  /** One user's record: `entries`, `total_warnings`, `per_rule_violations`. */
  datatype UserRecord = UserRecord(entries: seq<Entry>, totalWarnings: int, perRule: map<string, int>)

  /** The skeleton both the warn and the note command create for a user seen for the first time. */
  const EmptyRecord := UserRecord([], 0, map[])

  /** One guild's users; `order` is the insertion order of the Python dict that holds them. */
  datatype Guild = Guild(order: seq<string>, users: map<string, UserRecord>)

  /** The three tests the source applies to `status` when it counts warnings. */
  datatype StatusTest =
    | IsActive         // status == "active" with no default (the warn command)
    | ActiveByDefault  // status, defaulting to "active", == "active" (the clear command)
    | NotCleared       // status != "cleared" (unmute re-evaluation)

  /** Which warnings a count is restricted to. */
  datatype Scope = AnyRule | OfRule(rule: string)

  predicate Passes(s: Status, t: StatusTest) {
    match t
    case IsActive => s == Active
    case ActiveByDefault => s == Active || s == Missing
    case NotCleared => s != Cleared
  }

  predicate Counted(e: Entry, t: StatusTest, sc: Scope) {
    && e.body.WarningBody?
    && Passes(e.status, t)
    && (sc.OfRule? ==> e.body.ruleId == Some(sc.rule))
  }

  /** The number of warnings in `es` that pass test `t` within scope `sc`. */
  function Count(es: seq<Entry>, t: StatusTest, sc: Scope): (n: nat)
    ensures n <= |es|
  {
    if es == [] then 0
    else Count(es[..|es| - 1], t, sc) + (if Counted(es[|es| - 1], t, sc) then 1 else 0)
  }

  /** A count is 0 exactly when no entry is a warning passing the test in scope. */
  lemma {:induction false} CountZero(es: seq<Entry>, t: StatusTest, sc: Scope)
    ensures Count(es, t, sc) == 0 <==> forall i :: 0 <= i < |es| ==> !Counted(es[i], t, sc)
  {
    if es != [] {
      var n := |es| - 1;
      CountZero(es[..n], t, sc);
      assert forall i :: 0 <= i < n ==> es[..n][i] == es[i];
    }
  }

  function Indicator(b: bool): nat { if b then 1 else 0 }

  lemma CountAppend(es: seq<Entry>, e: Entry, t: StatusTest, sc: Scope)
    ensures Count(es + [e], t, sc) == Count(es, t, sc) + Indicator(Counted(e, t, sc))
  {
    assert (es + [e])[..|es|] == es;
  }

  /** A count over two lists joined is the sum of their counts. */
  lemma {:induction false} CountConcat(a: seq<Entry>, b: seq<Entry>, t: StatusTest, sc: Scope)
    ensures Count(a + b, t, sc) == Count(a, t, sc) + Count(b, t, sc)
    decreases |b|
  {
    if b == [] {
      assert a + b == a;
    } else {
      var b' := b[..|b| - 1];
      assert (a + b)[..|a + b| - 1] == a + b';
      CountConcat(a, b', t, sc);
    }
  }

  /** Replacing one entry changes a count by what that entry contributes before and after. */
  lemma CountUpdate(es: seq<Entry>, i: nat, e: Entry, t: StatusTest, sc: Scope)
    requires i < |es|
    ensures Count(es[i := e], t, sc) + Indicator(Counted(es[i], t, sc))
         == Count(es, t, sc) + Indicator(Counted(e, t, sc))
  {
    var pre, x, post := es[..i], es[i], es[i + 1..];
    assert es == pre + [x] + post;
    assert es[i := e] == pre + [e] + post;
    CountConcat(pre + [x], post, t, sc);
    CountConcat(pre + [e], post, t, sc);
    CountAppend(pre, x, t, sc);
    CountAppend(pre, e, t, sc);
  }

  /** Entries as this program writes them: status active or cleared, matched rule ids non-empty. */
  predicate WellFormedEntry(e: Entry) {
    && (e.status == Active || e.status == Cleared)
    && (e.body.WarningBody? && e.body.ruleId.Some? ==> e.body.ruleId.value != "")
  }

  predicate WellFormed(es: seq<Entry>) {
    forall i :: 0 <= i < |es| ==> WellFormedEntry(es[i])
  }

  /** The three status tests never disagree in the wrong direction ... */
  lemma {:induction false} TestsOrdered(es: seq<Entry>, sc: Scope)
    ensures Count(es, IsActive, sc) <= Count(es, ActiveByDefault, sc) <= Count(es, NotCleared, sc)
  {
    if es != [] {
      TestsOrdered(es[..|es| - 1], sc);
    }
  }

  /** ... and on well-formed entries they agree, so the three call sites compute the same number. */
  lemma {:induction false} TestsAgree(es: seq<Entry>, sc: Scope)
    requires WellFormed(es)
    ensures Count(es, IsActive, sc) == Count(es, ActiveByDefault, sc) == Count(es, NotCleared, sc)
  {
    if es != [] {
      var n := |es| - 1;
      assert WellFormedEntry(es[n]);
      TestsAgree(es[..n], sc);
    }
  }

  /** An entry whose `status` key is absent is counted by the clear command but not by the warn command. */
  lemma MissingStatusSplitsTests(e: Entry)
    requires e.body.WarningBody? && e.status == Missing
    ensures Count([e], IsActive, AnyRule) == 0 && Count([e], ActiveByDefault, AnyRule) == 1
  {
    assert [e][..0] == [];
  }

  /**
   * The cached counters equal a function of the active entries: the total is the
   * number of active warnings, and `per_rule_violations` holds exactly the rules
   * with a positive number of active warnings, each mapped to that number.
   */
  ghost predicate CountersConsistent(rec: UserRecord) {
    && rec.totalWarnings == Count(rec.entries, IsActive, AnyRule)
    && (forall r :: r in rec.perRule ==> rec.perRule[r] == Count(rec.entries, IsActive, OfRule(r)))
    && (forall r :: r in rec.perRule <==> Count(rec.entries, IsActive, OfRule(r)) > 0)
  }

  ghost predicate RecordOk(rec: UserRecord) {
    WellFormed(rec.entries) && CountersConsistent(rec)
  }

  /** The insertion order lists every user exactly once. */
  ghost predicate GuildOk(gd: Guild) {
    && (forall u :: u in gd.users <==> u in gd.order)
    && (forall i, j :: 0 <= i < j < |gd.order| ==> gd.order[i] != gd.order[j])
  }

  ghost predicate GuildRecordsOk(gd: Guild) {
    GuildOk(gd) && forall u :: u in gd.users ==> RecordOk(gd.users[u])
  }

  /** The invariant of the whole `warnings` document. */
  ghost predicate WarningsOk(ws: map<string, Guild>) {
    forall g :: g in ws ==> GuildRecordsOk(ws[g])
  }

  /** The user's record, or the empty skeleton when the guild or the user has none yet. */
  function UserOf(ws: map<string, Guild>, g: string, u: string): UserRecord {
    if g in ws && u in ws[g].users then ws[g].users[u] else EmptyRecord
  }

  /** `ws` with the record of (g, u) set to `rec`, creating the guild and appending the user to its order when new. */
  function WithUser(ws: map<string, Guild>, g: string, u: string, rec: UserRecord): (r: map<string, Guild>)
    ensures r.Keys == ws.Keys + {g}
    ensures UserOf(r, g, u) == rec
    ensures forall g' :: g' in ws && g' != g ==> r[g'] == ws[g']
    ensures g in ws ==> r[g].users.Keys == ws[g].users.Keys + {u}
    ensures g in ws ==> forall u' :: u' in ws[g].users && u' != u ==> r[g].users[u'] == ws[g].users[u']
    ensures g in ws && u in ws[g].users ==> r[g].order == ws[g].order
    ensures g in ws && u !in ws[g].users ==> r[g].order == ws[g].order + [u]
    ensures g !in ws ==> r[g] == Guild([u], map[u := rec])
  {
    ws[g := GuildWithUser(if g in ws then ws[g] else Guild([], map[]), u, rec)]
  }

  lemma EmptyRecordOk()
    ensures RecordOk(EmptyRecord)
  {
    forall r ensures Count([], IsActive, OfRule(r)) == 0 { }
  }

  /** Storing a well-formed, consistent record keeps the whole document well-formed and consistent. */
  lemma WithUserOk(ws: map<string, Guild>, g: string, u: string, rec: UserRecord)
    requires WarningsOk(ws) && RecordOk(rec)
    ensures WarningsOk(WithUser(ws, g, u, rec))
  {
    var r := WithUser(ws, g, u, rec);
    forall g' | g' in r ensures GuildRecordsOk(r[g']) {
      if g' == g {
        GuildWithUserOk(if g in ws then ws[g] else Guild([], map[]), u, rec);
        assert r[g] == GuildWithUser(if g in ws then ws[g] else Guild([], map[]), u, rec);
      }
    }
  }

  /** The guild-level step of `WithUser`. */
  function GuildWithUser(gd: Guild, u: string, rec: UserRecord): Guild {
    if u in gd.users then gd.(users := gd.users[u := rec])
    else Guild(gd.order + [u], gd.users[u := rec])
  }

  lemma GuildWithUserOk(gd: Guild, u: string, rec: UserRecord)
    requires GuildRecordsOk(gd) && RecordOk(rec)
    ensures GuildRecordsOk(GuildWithUser(gd, u, rec))
  {
    if u !in gd.users {
      var o := gd.order;
      var o' := o + [u];
      assert u !in o;
      forall i, j | 0 <= i < j < |o'| ensures o'[i] != o'[j] {
        if j == |o| { assert o'[i] == o[i]; assert o[i] in o; }
      }
      forall v ensures v in gd.users[u := rec] <==> v in o' {
        assert v in o' <==> v in o || v == u;
      }
    }
  }

  /** A second store for the same user replaces the first. */
  lemma WithUserOverwrite(ws: map<string, Guild>, g: string, u: string, a: UserRecord, b: UserRecord)
    ensures WithUser(WithUser(ws, g, u, a), g, u, b) == WithUser(ws, g, u, b)
  {
    var gd := if g in ws then ws[g] else Guild([], map[]);
    assert GuildWithUser(GuildWithUser(gd, u, a), u, b) == GuildWithUser(gd, u, b);
  }

  /** Storing back a user's own record changes nothing once the user exists. */
  lemma WithUserSame(ws: map<string, Guild>, g: string, u: string)
    requires g in ws && u in ws[g].users
    ensures WithUser(ws, g, u, UserOf(ws, g, u)) == ws
  {
    assert ws[g].users[u := ws[g].users[u]] == ws[g].users;
    assert GuildWithUser(ws[g], u, ws[g].users[u]) == ws[g];
  }

  // ---------------------------------------------------------------------------
  // The record-level steps of the commands that change a user's ledger.
  // ---------------------------------------------------------------------------

  /** Python's `d.get(k, default)` on a dict. */
  function GetOr(m: map<string, int>, k: string, default: int): int {
    if k in m then m[k] else default
  }

  /**
   * The warn command's append (bot_warnings_cog.py:224-233): add the entry,
   * recount the total with `status == "active"`, and recount the matched rule's key only.
   */
  function RecordWarning(rec: UserRecord, e: Entry, matched: Option<string>): (r: UserRecord)
    ensures r.entries == rec.entries + [e]
    ensures r.totalWarnings == Count(r.entries, IsActive, AnyRule)
    ensures Truthy(matched) ==>
      && matched.value in r.perRule
      && r.perRule[matched.value] == Count(r.entries, IsActive, OfRule(matched.value))
      && r.perRule - {matched.value} == rec.perRule - {matched.value}
    ensures !Truthy(matched) ==> r.perRule == rec.perRule
  {
    var es := rec.entries + [e];
    UserRecord(
      es,
      Count(es, IsActive, AnyRule),
      if Truthy(matched) then rec.perRule[matched.value := Count(es, IsActive, OfRule(matched.value))]
      else rec.perRule)
  }

  /**
   * The warn command's rollback (bot_warnings_cog.py:247-252): pop the last entry,
   * recount the total, recount the matched rule's key and delete it when it is 0.
   */
  function PopWarning(rec: UserRecord, matched: Option<string>): (r: UserRecord)
    requires rec.entries != []
    ensures r.entries + [rec.entries[|rec.entries| - 1]] == rec.entries
    ensures r.totalWarnings == Count(r.entries, IsActive, AnyRule)
    ensures Truthy(matched) ==>
      var m := matched.value;
      && (m in r.perRule <==> Count(r.entries, IsActive, OfRule(m)) > 0)
      && (m in r.perRule ==> r.perRule[m] == Count(r.entries, IsActive, OfRule(m)))
      && r.perRule - {m} == rec.perRule - {m}
    ensures !Truthy(matched) ==> r.perRule == rec.perRule
  {
    var es := rec.entries[..|rec.entries| - 1];
    UserRecord(
      es,
      Count(es, IsActive, AnyRule),
      if Truthy(matched) then
        var v := Count(es, IsActive, OfRule(matched.value));
        var p := rec.perRule[matched.value := v];
        if v == 0 then p - {matched.value} else p
      else rec.perRule)
  }

  /** The clear command's per-rule update (userhistory.py:224-227): decrement, a missing key counting as 0, and delete at or below 0. */
  function DecrementRule(perRule: map<string, int>, r: string): (d: map<string, int>)
    ensures r in d <==> GetOr(perRule, r, 0) - 1 > 0
    ensures r in d ==> d[r] == GetOr(perRule, r, 0) - 1
    ensures d - {r} == perRule - {r}
  {
    var v := GetOr(perRule, r, 0) - 1;
    if v <= 0 then perRule[r := v] - {r} else perRule[r := v]
  }

  /**
   * The clear command's change to the record holding entry `i` (userhistory.py:204-227):
   * stamp the entry cleared; for a warning recount the total with the status
   * defaulting to "active" and decrement the rule's count.
   */
  function ClearEntry(rec: UserRecord, i: nat, stamp: ClearStamp): (r: UserRecord)
    requires i < |rec.entries|
    ensures |r.entries| == |rec.entries|
    ensures r.entries[i] == rec.entries[i].(status := Cleared, cleared := Some(stamp))
    ensures forall j :: 0 <= j < |r.entries| && j != i ==> r.entries[j] == rec.entries[j]
    ensures !rec.entries[i].body.WarningBody? ==> r.totalWarnings == rec.totalWarnings && r.perRule == rec.perRule
    ensures rec.entries[i].body.WarningBody? ==> r.totalWarnings == Count(r.entries, ActiveByDefault, AnyRule)
    ensures rec.entries[i].body.WarningBody? && !Truthy(rec.entries[i].body.ruleId) ==> r.perRule == rec.perRule
    ensures rec.entries[i].body.WarningBody? && Truthy(rec.entries[i].body.ruleId) ==>
      var m := rec.entries[i].body.ruleId.value;
      && (m in r.perRule <==> GetOr(rec.perRule, m, 0) - 1 > 0)
      && (m in r.perRule ==> r.perRule[m] == GetOr(rec.perRule, m, 0) - 1)
      && (forall x :: x != m ==> (x in r.perRule <==> x in rec.perRule))
      && (forall x :: x != m && x in r.perRule ==> r.perRule[x] == rec.perRule[x])
  {
    var e := rec.entries[i];
    var es := ClearedEntries(rec.entries, i, stamp);
    if !e.body.WarningBody? then rec.(entries := es)
    else
      UserRecord(
        es,
        Count(es, ActiveByDefault, AnyRule),
        if Truthy(e.body.ruleId) then DecrementRule(rec.perRule, e.body.ruleId.value) else rec.perRule)
  }

  /**
   * On a record whose rule count is stale, clearing one of that rule's warnings
   * leaves it stale: the count is decremented, not recounted.
   */
  lemma ClearKeepsStaleRuleCount(rec: UserRecord, i: nat, stamp: ClearStamp, m: string)
    requires i < |rec.entries| && rec.entries[i].status == Active
    requires rec.entries[i].body.WarningBody? && rec.entries[i].body.ruleId == Some(m) && m != ""
    requires GetOr(rec.perRule, m, 0) >= 2 && GetOr(rec.perRule, m, 0) != Count(rec.entries, IsActive, OfRule(m))
    ensures var r := ClearEntry(rec, i, stamp);
      m in r.perRule && r.perRule[m] != Count(r.entries, IsActive, OfRule(m))
  {
    var e' := rec.entries[i].(status := Cleared, cleared := Some(stamp));
    CountUpdate(rec.entries, i, e', IsActive, OfRule(m));
  }

  /** The note command's append (userhistory.py:166). */
  function AppendNote(rec: UserRecord, e: Entry): (r: UserRecord)
    ensures r.entries == rec.entries + [e]
    ensures r.totalWarnings == rec.totalWarnings && r.perRule == rec.perRule
  {
    rec.(entries := rec.entries + [e])
  }

  /** Appending an active warning keeps the counters consistent: the total and the matched rule's count each grow by one. */
  lemma RecordWarningOk(rec: UserRecord, e: Entry, matched: Option<string>)
    requires RecordOk(rec)
    requires e.body.WarningBody? && e.status == Active && e.body.ruleId == matched && WellFormedEntry(e)
    ensures RecordOk(RecordWarning(rec, e, matched))
    ensures RecordWarning(rec, e, matched).totalWarnings == rec.totalWarnings + 1
    ensures Truthy(matched) ==>
      RecordWarning(rec, e, matched).perRule[matched.value] == GetOr(rec.perRule, matched.value, 0) + 1
  {
    var r := RecordWarning(rec, e, matched);
    CountAppend(rec.entries, e, IsActive, AnyRule);
    forall x ensures Count(r.entries, IsActive, OfRule(x)) == Count(rec.entries, IsActive, OfRule(x)) + Indicator(matched == Some(x)) {
      CountAppend(rec.entries, e, IsActive, OfRule(x));
    }
    assert WellFormed(r.entries) by {
      forall k | 0 <= k < |r.entries| ensures WellFormedEntry(r.entries[k]) {
        if k < |rec.entries| { assert r.entries[k] == rec.entries[k]; }
      }
    }
  }

  /** The rollback restores the record the warn command started from, provided its counters were consistent. */
  lemma RollBackRestores(rec: UserRecord, e: Entry, matched: Option<string>)
    requires CountersConsistent(rec)
    ensures PopWarning(RecordWarning(rec, e, matched), matched) == rec
  {
    var a := RecordWarning(rec, e, matched);
    assert a.entries[..|a.entries| - 1] == rec.entries;
    if Truthy(matched) {
      var m := matched.value;
      var v := Count(rec.entries, IsActive, OfRule(m));
      var p := a.perRule[m := v];
      if v == 0 {
        assert m !in rec.perRule;
        assert p - {m} == rec.perRule;
      } else {
        assert m in rec.perRule && rec.perRule[m] == v;
        assert p == rec.perRule;
      }
    }
  }

  /** Without consistent counters the rollback does not restore the record: it recomputes the total. */
  lemma RollBackRecomputesStaleTotal(rec: UserRecord, e: Entry)
    requires rec.totalWarnings != Count(rec.entries, IsActive, AnyRule)
    ensures PopWarning(RecordWarning(rec, e, None), None) != rec
  {
  }

  /**
   * Clearing an active entry keeps the record well-formed and consistent, even though
   * the total is recounted with a different status test and the rule count is
   * decremented rather than recounted; clearing a warning lowers every count of it by one.
   */
  lemma ClearEntryOk(rec: UserRecord, i: nat, stamp: ClearStamp)
    requires RecordOk(rec) && i < |rec.entries| && Passes(rec.entries[i].status, ActiveByDefault)
    ensures RecordOk(ClearEntry(rec, i, stamp))
    ensures rec.entries[i].body.WarningBody? ==>
      Count(ClearEntry(rec, i, stamp).entries, NotCleared, AnyRule) + 1 == Count(rec.entries, NotCleared, AnyRule)
  {
    var e := rec.entries[i];
    var r := ClearEntry(rec, i, stamp);
    assert WellFormedEntry(e);
    ClearedStaysWellFormed(rec.entries, i, stamp);
    ClearCounts(rec.entries, i, stamp);
    if e.body.WarningBody? {
      TestsAgree(r.entries, AnyRule);
      if Truthy(e.body.ruleId) {
        var m := e.body.ruleId.value;
        assert Counted(e, IsActive, OfRule(m));
        assert m in rec.perRule;
        ClearRuleConsistent(rec, i, stamp, m);
      } else {
        assert r.perRule == rec.perRule;
      }
    }
  }

  /** The entries after a clear, as `ClearEntry` writes them. */
  function ClearedEntries(es: seq<Entry>, i: nat, stamp: ClearStamp): seq<Entry>
    requires i < |es|
  {
    es[i := es[i].(status := Cleared, cleared := Some(stamp))]
  }

  lemma ClearedStaysWellFormed(es: seq<Entry>, i: nat, stamp: ClearStamp)
    requires WellFormed(es) && i < |es|
    ensures WellFormed(ClearedEntries(es, i, stamp))
  {
    var es' := ClearedEntries(es, i, stamp);
    forall k | 0 <= k < |es'| ensures WellFormedEntry(es'[k]) {
      assert WellFormedEntry(es[k]);
    }
  }

  /** Clearing entry `i` takes away exactly what it contributed to each count. */
  lemma ClearCounts(es: seq<Entry>, i: nat, stamp: ClearStamp)
    requires i < |es| && es[i].status == Active
    ensures forall t, sc :: Count(ClearedEntries(es, i, stamp), t, sc) + Indicator(Counted(es[i], t, sc)) == Count(es, t, sc)
  {
    var e' := es[i].(status := Cleared, cleared := Some(stamp));
    forall t, sc ensures Count(ClearedEntries(es, i, stamp), t, sc) + Indicator(Counted(es[i], t, sc)) == Count(es, t, sc) {
      CountUpdate(es, i, e', t, sc);
    }
  }

  /** The rule map after clearing a warning of rule `m` still matches the recount. */
  lemma ClearRuleConsistent(rec: UserRecord, i: nat, stamp: ClearStamp, m: string)
    requires RecordOk(rec) && i < |rec.entries| && rec.entries[i].status == Active
    requires rec.entries[i].body.WarningBody? && rec.entries[i].body.ruleId == Some(m) && m != ""
    requires forall t, sc :: Count(ClearedEntries(rec.entries, i, stamp), t, sc) + Indicator(Counted(rec.entries[i], t, sc)) == Count(rec.entries, t, sc)
    ensures var es' := ClearedEntries(rec.entries, i, stamp);
      && (forall x :: x in DecrementRule(rec.perRule, m) ==> DecrementRule(rec.perRule, m)[x] == Count(es', IsActive, OfRule(x)))
      && (forall x :: x in DecrementRule(rec.perRule, m) <==> Count(es', IsActive, OfRule(x)) > 0)
  {
    var es' := ClearedEntries(rec.entries, i, stamp);
    var d := DecrementRule(rec.perRule, m);
    assert Counted(rec.entries[i], IsActive, OfRule(m));
    forall x ensures (x in d ==> d[x] == Count(es', IsActive, OfRule(x))) && (x in d <==> Count(es', IsActive, OfRule(x)) > 0) {
      assert Count(es', IsActive, OfRule(x)) + Indicator(Counted(rec.entries[i], IsActive, OfRule(x))) == Count(rec.entries, IsActive, OfRule(x));
    }
  }

  /** Adding a note changes no count under any status test, so the counters stay consistent. */
  lemma AppendNoteOk(rec: UserRecord, e: Entry)
    requires RecordOk(rec) && !e.body.WarningBody? && WellFormedEntry(e)
    ensures RecordOk(AppendNote(rec, e))
    ensures forall t, sc :: Count(AppendNote(rec, e).entries, t, sc) == Count(rec.entries, t, sc)
  {
    var r := AppendNote(rec, e);
    forall t, sc ensures Count(r.entries, t, sc) == Count(rec.entries, t, sc) {
      CountAppend(rec.entries, e, t, sc);
    }
    assert WellFormed(r.entries) by {
      forall k | 0 <= k < |r.entries| ensures WellFormedEntry(r.entries[k]) {
        if k < |rec.entries| { assert r.entries[k] == rec.entries[k]; }
      }
    }
  }
}
