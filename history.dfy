/**
 * The `/userhistory` listing (userhistory.py:268-351): a user's entries sorted
 * by timestamp, cleared ones skipped, at most 25 of them shown as embed
 * fields, followed by the two summary fields and a footer with a count.
 */
module History {
  import opened Wrappers
  import opened Records
  import opened Store

  /** Discord's limit on the number of fields of one embed. */
  const FieldLimit := 25

  // ---------------------------------------------------------------------------
  // Python's `sorted(entries, key=timestamp)`
  // ---------------------------------------------------------------------------

  predicate SortedByTime(s: seq<Entry>) {
    forall i, j :: 0 <= i < j < |s| ==> s[i].timestamp <= s[j].timestamp
  }

  /** The entries of `s` stamped `t`, in their order in `s`. */
  function AtTime(s: seq<Entry>, t: int): seq<Entry> {
    if s == [] then []
    else AtTime(s[..|s| - 1], t) + (if s[|s| - 1].timestamp == t then [s[|s| - 1]] else [])
  }

  lemma {:induction false} AtTimeMembers(s: seq<Entry>, t: int, e: Entry)
    requires e in AtTime(s, t)
    ensures e in s && e.timestamp == t
  {
    if s != [] {
      var init := s[..|s| - 1];
      if e in AtTime(init, t) {
        AtTimeMembers(init, t, e);
      }
    }
  }

  /** Insert `x` after every entry not later than it: equal timestamps keep their arrival order. */
  function Insert(s: seq<Entry>, x: Entry): (r: seq<Entry>)
    ensures |r| == |s| + 1
  {
    if s == [] || s[|s| - 1].timestamp <= x.timestamp then s + [x]
    else Insert(s[..|s| - 1], x) + [s[|s| - 1]]
  }

  lemma {:induction false} InsertMultiset(s: seq<Entry>, x: Entry)
    ensures multiset(Insert(s, x)) == multiset(s) + multiset{x}
  {
    if !(s == [] || s[|s| - 1].timestamp <= x.timestamp) {
      var init := s[..|s| - 1];
      assert s == init + [s[|s| - 1]];
      InsertMultiset(init, x);
    }
  }

  lemma {:induction false} InsertSorted(s: seq<Entry>, x: Entry)
    requires SortedByTime(s)
    ensures SortedByTime(Insert(s, x))
  {
    if !(s == [] || s[|s| - 1].timestamp <= x.timestamp) {
      var last := s[|s| - 1];
      var init := s[..|s| - 1];
      InsertSorted(init, x);
      var front := Insert(init, x);
      InsertMultiset(init, x);
      forall k | 0 <= k < |front| ensures front[k].timestamp <= last.timestamp {
        assert front[k] in multiset(init) + multiset{x};
        if front[k] != x {
          assert front[k] in init;
        }
      }
    }
  }

  lemma {:induction false} InsertAtTime(s: seq<Entry>, x: Entry, t: int)
    ensures AtTime(Insert(s, x), t) == AtTime(s, t) + (if x.timestamp == t then [x] else [])
  {
    var r := Insert(s, x);
    if s == [] || s[|s| - 1].timestamp <= x.timestamp {
      assert r[..|r| - 1] == s;
    } else {
      var init := s[..|s| - 1];
      InsertAtTime(init, x, t);
      assert r[..|r| - 1] == Insert(init, x);
    }
  }

  /** `sorted` by timestamp: stable insertion from the left. */
  function SortByTime(es: seq<Entry>): (r: seq<Entry>)
    ensures |r| == |es|
  {
    if es == [] then []
    else Insert(SortByTime(es[..|es| - 1]), es[|es| - 1])
  }

  /** The sort orders by timestamp, keeps every entry, and keeps the arrival order of entries stamped alike. */
  lemma {:induction false} SortByTimeIsStableSort(es: seq<Entry>)
    ensures SortedByTime(SortByTime(es))
    ensures multiset(SortByTime(es)) == multiset(es)
    ensures forall t :: AtTime(SortByTime(es), t) == AtTime(es, t)
  {
    if es != [] {
      var init := es[..|es| - 1];
      var x := es[|es| - 1];
      assert es == init + [x];
      SortByTimeIsStableSort(init);
      InsertSorted(SortByTime(init), x);
      InsertMultiset(SortByTime(init), x);
      forall t ensures AtTime(SortByTime(es), t) == AtTime(es, t) {
        InsertAtTime(SortByTime(init), x, t);
      }
    }
  }

  /**
   * A sorted sequence is determined by what it holds at each timestamp, so
   * `SortByTime` agrees with every stable sort by timestamp, Python's included.
   */
  lemma {:induction false} StableSortIsUnique(a: seq<Entry>, b: seq<Entry>)
    requires SortedByTime(a) && SortedByTime(b)
    requires forall t :: AtTime(a, t) == AtTime(b, t)
    ensures a == b
    decreases |a| + |b|
  {
    if a != [] && b == [] {
      NonEmptyAtLastTime(a);
      assert false;
    } else if a == [] && b != [] {
      NonEmptyAtLastTime(b);
      assert false;
    } else if a != [] {
      SameLast(a, b);
      var x := a[|a| - 1];
      var a', b' := a[..|a| - 1], b[..|b| - 1];
      forall t ensures AtTime(a', t) == AtTime(b', t) {
        DropLast(a, b, t);
      }
      StableSortIsUnique(a', b');
      assert a == a' + [x];
      assert b == b' + [x];
    }
  }

  lemma NonEmptyAtLastTime(s: seq<Entry>)
    requires s != []
    ensures AtTime(s, s[|s| - 1].timestamp) == AtTime(s[..|s| - 1], s[|s| - 1].timestamp) + [s[|s| - 1]]
  {
  }

  /** In a sorted sequence no entry is later than the last. */
  lemma LastIsLatest(s: seq<Entry>, e: Entry)
    requires SortedByTime(s) && e in s
    ensures e.timestamp <= s[|s| - 1].timestamp
  {
    var i :| 0 <= i < |s| && s[i] == e;
  }

  /** Two sorted sequences that agree at every timestamp end with the same entry. */
  lemma SameLast(a: seq<Entry>, b: seq<Entry>)
    requires a != [] && b != [] && SortedByTime(a) && SortedByTime(b)
    requires forall t :: AtTime(a, t) == AtTime(b, t)
    ensures a[|a| - 1] == b[|b| - 1]
  {
    var x, y := a[|a| - 1], b[|b| - 1];
    NonEmptyAtLastTime(a);
    NonEmptyAtLastTime(b);
    var atX, atY := AtTime(a, x.timestamp), AtTime(b, y.timestamp);
    assert atX[|atX| - 1] == x;
    assert atY[|atY| - 1] == y;
    assert x in AtTime(b, x.timestamp);
    assert y in AtTime(a, y.timestamp);
    AtTimeMembers(b, x.timestamp, x);
    AtTimeMembers(a, y.timestamp, y);
    LastIsLatest(b, x);
    LastIsLatest(a, y);
  }

  /** Dropping the same last entry from both keeps them agreeing at timestamp `t`. */
  lemma DropLast(a: seq<Entry>, b: seq<Entry>, t: int)
    requires a != [] && b != [] && a[|a| - 1] == b[|b| - 1]
    requires AtTime(a, t) == AtTime(b, t)
    ensures AtTime(a[..|a| - 1], t) == AtTime(b[..|b| - 1], t)
  {
    var x := a[|a| - 1];
    var tail := if x.timestamp == t then [x] else [];
    var at := AtTime(a, t);
    assert at == AtTime(a[..|a| - 1], t) + tail;
    assert at == AtTime(b[..|b| - 1], t) + tail;
    assert AtTime(a[..|a| - 1], t) == at[..|at| - |tail|];
    assert AtTime(b[..|b| - 1], t) == at[..|at| - |tail|];
  }

  // ---------------------------------------------------------------------------
  // The entries the listing shows
  // ---------------------------------------------------------------------------

  /** The entries the listing does not skip: status, defaulting to "active", is not "cleared". */
  function Visible(s: seq<Entry>): (r: seq<Entry>)
    ensures |r| <= |s|
  {
    if s == [] then []
    else Visible(s[..|s| - 1]) + (if s[|s| - 1].status != Cleared then [s[|s| - 1]] else [])
  }

  /** The visible entries are exactly the uncleared ones, and they keep the order of `s`. */
  lemma {:induction false} VisibleMembers(s: seq<Entry>)
    ensures forall e :: e in Visible(s) <==> e in s && e.status != Cleared
    ensures SortedByTime(s) ==> SortedByTime(Visible(s))
  {
    if s != [] {
      var init := s[..|s| - 1];
      var last := s[|s| - 1];
      assert s == init + [last];
      VisibleMembers(init);
      if SortedByTime(s) {
        var v := Visible(init);
        forall k | 0 <= k < |v| ensures v[k].timestamp <= last.timestamp {
          assert v[k] in init;
        }
      }
    }
  }

  lemma {:induction false} VisibleAppend(a: seq<Entry>, b: seq<Entry>)
    ensures Visible(a + b) == Visible(a) + Visible(b)
    decreases |b|
  {
    if b == [] {
      assert a + b == a;
    } else {
      var b' := b[..|b| - 1];
      assert (a + b)[..|a + b| - 1] == a + b';
      VisibleAppend(a, b');
    }
  }

  /** An entry occurs among the visible ones as often as it is stored when uncleared, and never when cleared. */
  lemma {:induction false} VisibleMultiplicity(s: seq<Entry>, e: Entry)
    ensures multiset(Visible(s))[e] == if e.status != Cleared then multiset(s)[e] else 0
  {
    if s != [] {
      var init := s[..|s| - 1];
      assert s == init + [s[|s| - 1]];
      VisibleMultiplicity(init, e);
    }
  }

  /** Reordering the entries does not change which of them are visible. */
  lemma VisiblePermutation(s: seq<Entry>, t: seq<Entry>)
    requires multiset(s) == multiset(t)
    ensures multiset(Visible(s)) == multiset(Visible(t))
  {
    forall e ensures multiset(Visible(s))[e] == multiset(Visible(t))[e] {
      VisibleMultiplicity(s, e);
      VisibleMultiplicity(t, e);
    }
  }

  function Min(a: int, b: int): int {
    if a <= b then a else b
  }

  /** The entries the listing walks through and does not skip, in the order it meets them. */
  function Listed(es: seq<Entry>): seq<Entry> {
    Visible(SortByTime(es))
  }

  /** They are the user's uncleared entries, each as often as it is stored, oldest first. */
  lemma ListedIsVisibleInTimeOrder(es: seq<Entry>)
    ensures SortedByTime(Listed(es))
    ensures forall e :: e in Listed(es) <==> e in es && e.status != Cleared
    ensures multiset(Listed(es)) == multiset(Visible(es))
    ensures |Listed(es)| == |Visible(es)|
  {
    var sorted := SortByTime(es);
    SortByTimeIsStableSort(es);
    VisibleMembers(sorted);
    VisiblePermutation(sorted, es);
    forall e ensures e in sorted <==> e in es {
      assert e in sorted <==> e in multiset(sorted);
      assert e in es <==> e in multiset(es);
    }
    assert |Listed(es)| == |multiset(Listed(es))|;
    assert |Visible(es)| == |multiset(Visible(es))|;
  }

  // ---------------------------------------------------------------------------
  // The listing
  // ---------------------------------------------------------------------------

  /** The footer: the number of entries counted, and whether the listing stopped early. */
  datatype Footer = AllShown(count: nat) | Truncated(count: nat)

  /**
   * The reply: no records, or an embed whose fields are one per shown entry,
   * then the total when positive, then the per-rule statistics when non-empty.
   */
  datatype Listing =
    | NoRecords
    | Embed(notesTitle: bool, entries: seq<Entry>, total: Option<int>, ruleStats: Option<map<string, int>>, footer: Footer)

  function FieldCount(l: Listing): nat {
    if l.NoRecords? then 0
    else |l.entries| + (if l.total.Some? then 1 else 0) + (if l.ruleStats.Some? then 1 else 0)
  }

  /** Some entry of the given kind is active, the status defaulting to "active". */
  predicate HasActive(es: seq<Entry>, note: bool) {
    exists k :: 0 <= k < |es| && Passes(es[k].status, ActiveByDefault) && (if note then es[k].body.NoteBody? else es[k].body.WarningBody?)
  }

  /**
   * The listing as the source builds it: the visible entries in time order, the
   * first 25 of them, the summary fields added after without regard to the
   * limit, and a footer counting 26 once the listing stops early.
   */
  function ListingOf(rec: UserRecord): (l: Listing)
    ensures l.NoRecords? <==> rec.entries == []
    ensures l.Embed? ==> |l.entries| <= FieldLimit
    ensures l.Embed? ==> (l.total.Some? <==> rec.totalWarnings > 0) && (l.ruleStats.Some? <==> rec.perRule != map[])
  {
    if rec.entries == [] then NoRecords
    else
      var vs := Listed(rec.entries);
      Embed(HasActive(rec.entries, true) && !HasActive(rec.entries, false),
            if |vs| <= FieldLimit then vs else vs[..FieldLimit],
            if rec.totalWarnings > 0 then Some(rec.totalWarnings) else None,
            if rec.perRule != map[] then Some(rec.perRule) else None,
            if |vs| <= FieldLimit then AllShown(|vs|) else Truncated(FieldLimit + 1))
  }

  /**
   * The listing shows only uncleared entries of the user, oldest first, at most
   * 25 of them; when they number at most 25 it shows every one and says so.
   */
  lemma ListingShowsVisibleEntries(rec: UserRecord)
    ensures ListingOf(rec).NoRecords? <==> rec.entries == []
    ensures ListingOf(rec).Embed? ==>
      var l := ListingOf(rec);
      && SortedByTime(l.entries)
      && (forall e :: e in l.entries ==> e in rec.entries && e.status != Cleared)
      && |l.entries| == Min(|Visible(rec.entries)|, FieldLimit)
      && (l.footer.Truncated? <==> |Visible(rec.entries)| > FieldLimit)
      && (|Visible(rec.entries)| <= FieldLimit ==>
            multiset(l.entries) == multiset(Visible(rec.entries)) && l.footer == AllShown(|l.entries|))
  {
    if rec.entries != [] {
      var vs := Listed(rec.entries);
      ListedIsVisibleInTimeOrder(rec.entries);
      var l := ListingOf(rec);
      if |vs| <= FieldLimit {
        assert l.entries == vs;
      } else {
        assert l.entries == vs[..FieldLimit];
        PrefixOfListed(vs, FieldLimit);
      }
    }
  }

  /** A prefix of the listed entries keeps their order and holds only uncleared entries. */
  lemma PrefixOfListed(vs: seq<Entry>, n: nat)
    requires n <= |vs| && SortedByTime(vs)
    ensures SortedByTime(vs[..n])
    ensures forall e :: e in vs[..n] ==> e in vs
  {
  }

  /**
   * The walk of `userhistory_slash_command` over the sorted entries
   * (userhistory.py:300-334): skip cleared entries, count the rest, add a field
   * while fewer than 25 are present, and on the first entry past the limit set
   * the footer and stop.
   */
  method WalkEntries(sorted: seq<Entry>) returns (shown: seq<Entry>, count: nat, footer: Option<Footer>)
    ensures var vs := Visible(sorted);
      && shown == (if |vs| <= FieldLimit then vs else vs[..FieldLimit])
      && (footer.Some? <==> |vs| > FieldLimit)
      && (footer.Some? ==> footer.value == Truncated(FieldLimit + 1))
      && (footer.None? ==> count == |vs|)
  {
    shown := [];
    count := 0;
    footer := None;
    var i := 0;
    while i < |sorted|
      invariant 0 <= i <= |sorted|
      invariant shown == Visible(sorted[..i]) && count == |shown| <= FieldLimit
    {
      var e := sorted[i];
      VisibleStep(sorted, i);
      if e.status == Cleared {
        i := i + 1;
        continue;
      }
      count := count + 1;
      if |shown| < FieldLimit {
        shown := shown + [e];
      } else {
        footer := Some(Truncated(count));
        VisiblePastLimit(sorted, i);
        return;
      }
      i := i + 1;
    }
    assert sorted[..i] == sorted;
  }

  lemma VisibleStep(s: seq<Entry>, i: nat)
    requires i < |s|
    ensures Visible(s[..i + 1]) == Visible(s[..i]) + (if s[i].status != Cleared then [s[i]] else [])
  {
    assert s[..i + 1][..i] == s[..i];
  }

  /** Once 25 visible entries precede a visible entry at `i`, they are the first 25 visible entries of all. */
  lemma VisiblePastLimit(s: seq<Entry>, i: nat)
    requires i < |s| && s[i].status != Cleared && |Visible(s[..i])| == FieldLimit
    ensures |Visible(s)| > FieldLimit && Visible(s)[..FieldLimit] == Visible(s[..i])
  {
    assert s == s[..i] + s[i..];
    VisibleAppend(s[..i], s[i..]);
    assert s[i..] == [s[i]] + s[i + 1..];
    VisibleAppend([s[i]], s[i + 1..]);
    assert Visible([s[i]]) == [] + [s[i]];
  }

  /**
   * `userhistory_slash_command` (userhistory.py:268-351): no records, or the
   * walk over the sorted entries followed by the two summary fields and the
   * footer.
   */
  method History(ledger: Ledger, g: string, u: string) returns (l: Listing)
    ensures l == ListingOf(UserOf(ledger.warnings, g, u))
  {
    var rec := UserOf(ledger.warnings, g, u);
    if rec.entries == [] {
      return NoRecords;
    }
    var notesTitle := HasActive(rec.entries, true) && !HasActive(rec.entries, false);
    var shown, count, footer := WalkEntries(SortByTime(rec.entries));
    var total := if rec.totalWarnings > 0 then Some(rec.totalWarnings) else None;
    var stats := if rec.perRule != map[] then Some(rec.perRule) else None;
    l := Embed(notesTitle, shown, total, stats, if footer.Some? then footer.value else AllShown(count));
  }

  // ---------------------------------------------------------------------------
  // The two defects of the listing, and the listing they evidently intend
  // ---------------------------------------------------------------------------

  /**
   * With 25 or more visible entries, a positive total and some rule
   * statistics, the listing asks for 27 fields, two more than an embed may hold.
   */
  lemma ListingOverflowsFieldLimit(rec: UserRecord)
    requires |Visible(rec.entries)| >= FieldLimit && rec.totalWarnings > 0 && rec.perRule != map[]
    ensures FieldCount(ListingOf(rec)) == FieldLimit + 2
  {
    ListingShowsVisibleEntries(rec);
  }

  /** With more than 26 visible entries the footer's "records in total" is wrong: it always says 26. */
  lemma TruncatedFooterMiscounts(rec: UserRecord)
    requires |Visible(rec.entries)| > FieldLimit + 1
    ensures ListingOf(rec).footer == Truncated(FieldLimit + 1)
    ensures ListingOf(rec).footer.count != |Visible(rec.entries)|
  {
    ListingShowsVisibleEntries(rec);
  }

  /**
   * The listing the code evidently intends: room is kept for the summary
   * fields, and the footer counts every visible entry.
   */
  function CorrectedListingOf(rec: UserRecord): Listing {
    if rec.entries == [] then NoRecords
    else
      var vs := Listed(rec.entries);
      var total := if rec.totalWarnings > 0 then Some(rec.totalWarnings) else None;
      var stats := if rec.perRule != map[] then Some(rec.perRule) else None;
      var room := FieldLimit - (if total.Some? then 1 else 0) - (if stats.Some? then 1 else 0);
      Embed(HasActive(rec.entries, true) && !HasActive(rec.entries, false),
            if |vs| <= room then vs else vs[..room],
            total, stats,
            if |vs| <= room then AllShown(|vs|) else Truncated(|vs|))
  }

  /**
   * The corrected listing never exceeds the field limit, its footer counts
   * every visible entry, it shows the oldest entries the listing shows, and it
   * is the listing itself whenever everything fits.
   */
  lemma CorrectedListingFits(rec: UserRecord)
    ensures FieldCount(CorrectedListingOf(rec)) <= FieldLimit
    ensures CorrectedListingOf(rec).Embed? ==> CorrectedListingOf(rec).footer.count == |Visible(rec.entries)|
    ensures CorrectedListingOf(rec).Embed? ==>
      CorrectedListingOf(rec).entries <= ListingOf(rec).entries
    ensures ListingOf(rec).Embed? && FieldCount(ListingOf(rec)) <= FieldLimit ==>
      && CorrectedListingOf(rec).entries == ListingOf(rec).entries
      && (ListingOf(rec).footer.AllShown? ==> CorrectedListingOf(rec) == ListingOf(rec))
  {
    if rec.entries != [] {
      ListedLength(rec.entries);
      var vs := Listed(rec.entries);
      var c := CorrectedListingOf(rec);
      var l := ListingOf(rec);
      assert l.entries == if |vs| <= FieldLimit then vs else vs[..FieldLimit];
      assert c.entries <= l.entries;
    }
  }

  /** The listing walks as many entries as are uncleared. */
  lemma ListedLength(es: seq<Entry>)
    ensures |Listed(es)| == |Visible(es)|
  {
    ListedIsVisibleInTimeOrder(es);
  }
}
