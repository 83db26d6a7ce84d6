/**
 * The mute registry `active_mutes`: its records, its keys, the record the warn
 * command writes, and the expiry sweep's effect on the whole map.
 */
module Mutes {
  import opened Wrappers

  /**
   * `unmute_at` as stored: an ISO-8601 string (`Iso`, seconds since the epoch),
   * a legacy number (`Epoch`), a string `fromisoformat` rejects, or a value of
   * another type.
   */
  datatype UnmuteAt = Iso(at: int) | Epoch(at: int) | Unparseable | Unsupported

  datatype MuteRecord = MuteRecord(
    userId: string,
    guildId: string,
    mutedAt: int,
    unmuteAt: UnmuteAt,
    durationMinutes: int,
    mutedBy: string,
    caseIds: seq<string>)

  /** The registry key `"{guild}-{user}"`. */
  function MuteKey(g: string, u: string): (k: string)
    ensures |k| == |g| + 1 + |u| && k[..|g|] == g && k[|g|] == '-' && k[|g| + 1..] == u
  {
    g + "-" + u
  }

  /** Discord ids are decimal numbers, so they never hold the separator. */
  predicate NoDash(s: string) {
    forall k :: 0 <= k < |s| ==> s[k] != '-'
  }

  /** The position of the first '-' in `s`, or `|s|` when there is none. */
  function DashIndex(s: string): (n: nat)
    ensures n <= |s|
    ensures forall k :: 0 <= k < n ==> s[k] != '-'
    ensures n < |s| ==> s[n] == '-'
  {
    if s == [] || s[0] == '-' then 0 else 1 + DashIndex(s[1..])
  }

  /** In a key whose guild id holds no '-', the first '-' is the separator. */
  lemma DashIndexOfKey(g: string, u: string)
    requires NoDash(g)
    ensures DashIndex(MuteKey(g, u)) == |g|
  {
    var key := MuteKey(g, u);
    assert forall k :: 0 <= k < |g| ==> key[k] == g[k];
    assert key[|g|] == '-';
  }

  /** Distinct (guild, user) pairs get distinct keys when guild ids hold no '-'. */
  lemma MuteKeyInjective(g1: string, u1: string, g2: string, u2: string)
    requires NoDash(g1) && NoDash(g2)
    requires MuteKey(g1, u1) == MuteKey(g2, u2)
    ensures g1 == g2 && u1 == u2
  {
    var key := MuteKey(g1, u1);
    DashIndexOfKey(g1, u1);
    DashIndexOfKey(g2, u2);
    assert g1 == key[..|g1|];
    assert g2 == key[..|g2|];
    assert u1 == key[|g1| + 1..];
    assert u2 == key[|g2| + 1..];
  }

  /**
   * The record `_apply_mute` stores (bot_warnings_cog.py:382-394): muted now,
   * due `minutes` later, crediting the triggering case id when there is one.
   */
  function NewMuteRecord(g: string, u: string, now: int, minutes: int, mutedBy: string, caseId: Option<string>): (r: MuteRecord)
    ensures r.userId == u && r.guildId == g && r.durationMinutes == minutes && r.mutedBy == mutedBy
    ensures Deadline(r.unmuteAt) == Some(now + 60 * minutes) && r.unmuteAt.Iso? && r.mutedAt == now
    ensures minutes > 0 ==> !Due(r, now)
    ensures r.caseIds == (if Truthy(caseId) then [caseId.value] else [])
  {
    MuteRecord(u, g, now, Iso(now + 60 * minutes), minutes, mutedBy, if Truthy(caseId) then [caseId.value] else [])
  }

  /** The expiry instant the sweep reads from `unmute_at`, or `None` when it skips the record. */
  function Deadline(at: UnmuteAt): Option<int> {
    match at
    case Iso(t) => Some(t)
    case Epoch(t) => Some(t)
    case _ => None
  }

  /** `now >= unmute_at` for a record whose `unmute_at` parses. */
  predicate Due(rec: MuteRecord, now: int) {
    Deadline(rec.unmuteAt).Some? && now >= Deadline(rec.unmuteAt).value
  }

  /** A legacy numeric `unmute_at` rewritten in the canonical ISO form. */
  function Normalised(rec: MuteRecord): (r: MuteRecord)
    ensures Deadline(r.unmuteAt) == Deadline(rec.unmuteAt) && !r.unmuteAt.Epoch?
    ensures r.(unmuteAt := rec.unmuteAt) == rec
  {
    match rec.unmuteAt
    case Epoch(t) => rec.(unmuteAt := Iso(t))
    case _ => rec
  }

  /**
   * The registry after one tick of the expiry sweep: every due record is gone,
   * every other record stays, with a numeric deadline rewritten to ISO form, and
   * a record whose deadline does not parse stays exactly as it was.
   */
  function Swept(mutes: map<string, MuteRecord>, now: int): (r: map<string, MuteRecord>)
    ensures forall k :: k in r <==> k in mutes && !Due(mutes[k], now)
    ensures forall k :: k in r ==> r[k] == Normalised(mutes[k])
    ensures forall k :: k in mutes && Deadline(mutes[k].unmuteAt).None? ==> k in r && r[k] == mutes[k]
  {
    map k | k in mutes && !Due(mutes[k], now) :: Normalised(mutes[k])
  }

  /** A second tick at the same instant changes nothing. */
  lemma SweepIdempotent(mutes: map<string, MuteRecord>, now: int)
    ensures Swept(Swept(mutes, now), now) == Swept(mutes, now)
  {
    var once := Swept(mutes, now);
    var twice := Swept(once, now);
    assert forall k :: k in twice <==> k in once;
    assert forall k :: k in twice ==> twice[k] == once[k];
  }

  /** Two ticks do what one tick at the later instant does. */
  lemma SweepsCompose(mutes: map<string, MuteRecord>, t1: int, t2: int)
    requires t1 <= t2
    ensures Swept(Swept(mutes, t1), t2) == Swept(mutes, t2)
  {
    var a := Swept(Swept(mutes, t1), t2);
    var b := Swept(mutes, t2);
    assert forall k :: k in a <==> k in b;
    assert forall k :: k in a ==> a[k] == b[k];
  }

  /** A mute written at `now` survives every sweep before its deadline and no sweep from then on. */
  lemma MuteLastsItsDuration(mutes: map<string, MuteRecord>, key: string, g: string, u: string, now: int,
                             minutes: int, mutedBy: string, caseId: Option<string>, t: int)
    ensures key in Swept(mutes[key := NewMuteRecord(g, u, now, minutes, mutedBy, caseId)], t) <==> t < now + 60 * minutes
  {
  }

  /** The position of the first occurrence of `x` in `s` (Python's `list.index(x)`). */
  function FirstIndex(s: seq<string>, x: string): (i: nat)
    requires x in s
    ensures i < |s| && s[i] == x && x !in s[..i]
  {
    if s[0] == x then 0
    else
      var j := FirstIndex(s[1..], x);
      assert s[..j + 1] == [s[0]] + s[1..][..j];
      j + 1
  }

  /**
   * `list.remove(x)`: drop the first occurrence of `x` and keep the rest in
   * order; the source only calls it when `x` is present.
   */
  function RemoveFirst(s: seq<string>, x: string): (r: seq<string>)
    ensures x in s ==> r == s[..FirstIndex(s, x)] + s[FirstIndex(s, x) + 1..]
    ensures x in s ==> |r| == |s| - 1 && multiset(r) == multiset(s) - multiset{x}
    ensures x !in s ==> r == s
  {
    if x !in s then s
    else if s[0] == x then (assert s == [s[0]] + s[1..]; s[1..])
    else
      var rest := RemoveFirst(s[1..], x);
      SkipFirst(s, x);
      [s[0]] + rest
  }

  /**
   * A kept mute after one of its cases is cleared (userhistory.py:85-86): the
   * first occurrence of the case id leaves `case_ids_for_mute`, the other ids
   * keep their order, and every other field is unchanged.
   */
  function PruneCase(rec: MuteRecord, caseId: string): (r: MuteRecord)
    ensures r == rec.(caseIds := r.caseIds)
    ensures caseId in rec.caseIds ==>
      var i := FirstIndex(rec.caseIds, caseId);
      r.caseIds == rec.caseIds[..i] + rec.caseIds[i + 1..]
    ensures multiset(r.caseIds) == multiset(rec.caseIds) - multiset{caseId}
    ensures caseId !in rec.caseIds ==> r == rec
  {
    if caseId in rec.caseIds then rec.(caseIds := RemoveFirst(rec.caseIds, caseId))
    else (assert multiset(rec.caseIds)[caseId] == 0; rec)
  }

  /** The step of `RemoveFirst` past a head that is not `x`. */
  lemma SkipFirst(s: seq<string>, x: string)
    requires x in s && s[0] != x
    ensures x in s[1..] && FirstIndex(s, x) == FirstIndex(s[1..], x) + 1
    ensures var j := FirstIndex(s[1..], x);
      s[..j + 1] + s[j + 2..] == [s[0]] + (s[1..][..j] + s[1..][j + 1..])
    ensures multiset(s) == multiset{s[0]} + multiset(s[1..])
  {
    assert s == [s[0]] + s[1..];
  }
}
