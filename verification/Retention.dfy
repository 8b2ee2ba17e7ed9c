/**
 * Backup retention: three greedy passes over a newest-first listing keep the newest backup of
 * each of the last months, weeks and days, and the rest is pruned.
 */
module Retention {

  /** One complete backup; its keys name the month, ISO week and day it belongs to. */
  datatype Entry = Entry(filename: string, timestampMs: int, monthKey: string, weekKey: string, dayKey: string)

  datatype Limits = Limits(daily: int, weekly: int, monthly: int)

  datatype Tier = Monthly | Weekly | Daily

  function KeyOf(e: Entry, tier: Tier): string {
    match tier
    case Monthly => e.monthKey
    case Weekly => e.weekKey
    case Daily => e.dayKey
  }

  function LimitOf(limits: Limits, tier: Tier): int {
    match tier
    case Monthly => limits.monthly
    case Weekly => limits.weekly
    case Daily => limits.daily
  }

  predicate NewestFirst(entries: seq<Entry>) {
    forall i, j :: 0 <= i < j < |entries| ==> entries[i].timestampMs > entries[j].timestampMs
  }

  predicate DistinctNames(entries: seq<Entry>) {
    forall i, j :: 0 <= i < j < |entries| ==> entries[i].filename != entries[j].filename
  }

  function Elements(entries: seq<Entry>): set<Entry> {
    set e | e in entries
  }

  function Names(s: set<Entry>): set<string> {
    set e | e in s :: e.filename
  }

  // ---------------------------------------------------------------- what is kept

  /** The greedy pass of one tier, given the keys already seen. */
  function Pick(entries: seq<Entry>, tier: Tier, limit: int, seen: set<string>): set<Entry> {
    if entries == [] || |seen| >= limit then {}
    else if KeyOf(entries[0], tier) in seen then Pick(entries[1..], tier, limit, seen)
    else {entries[0]} + Pick(entries[1..], tier, limit, seen + {KeyOf(entries[0], tier)})
  }

  lemma {:induction false} PickedAreEntries(entries: seq<Entry>, tier: Tier, limit: int, seen: set<string>)
    ensures Pick(entries, tier, limit, seen) <= Elements(entries)
  {
    if entries != [] {
      PickedAreEntries(entries[1..], tier, limit, seen);
      PickedAreEntries(entries[1..], tier, limit, seen + {KeyOf(entries[0], tier)});
      assert Elements(entries[1..]) <= Elements(entries);
    }
  }

  function Tiered(entries: seq<Entry>, limits: Limits): set<Entry> {
    Pick(entries, Monthly, limits.monthly, {})
    + Pick(entries, Weekly, limits.weekly, {})
    + Pick(entries, Daily, limits.daily, {})
  }

  /** The backups a classification keeps. */
  function Kept(entries: seq<Entry>, limits: Limits): set<Entry> {
    (if entries == [] then {} else {entries[0]}) + Tiered(entries, limits)
  }

  function Filter(entries: seq<Entry>, keep: set<Entry>): (s: seq<Entry>)
    ensures forall e :: e in s <==> e in entries && e in keep
  {
    if entries == [] then []
    else (if entries[0] in keep then [entries[0]] else []) + Filter(entries[1..], keep)
  }

  function FileNames(entries: seq<Entry>): seq<string> {
    if entries == [] then [] else [entries[0].filename] + FileNames(entries[1..])
  }

  /** The names a classification offers for deletion, in listing order. */
  function DeleteCandidates(entries: seq<Entry>, limits: Limits): seq<string> {
    FileNames(Filter(entries, Elements(entries) - Kept(entries, limits)))
  }

  // ---------------------------------------------------------------- the loops

  /** One `for ... of entries` pass: stop at the limit, skip seen keys, keep the others. */
  method KeepTier(entries: seq<Entry>, tier: Tier, limit: int, already: set<string>) returns (keep: set<string>)
    ensures keep == already + Names(Pick(entries, tier, limit, {}))
  {
    keep := already;
    var count := 0;
    var seen: set<string> := {};
    var i := 0;
    ghost var picked: set<Entry> := {};
    while i < |entries|
      invariant 0 <= i <= |entries|
      invariant count == |seen|
      invariant picked + Pick(entries[i..], tier, limit, seen) == Pick(entries, tier, limit, {})
      invariant keep == already + Names(picked)
    {
      var entry := entries[i];
      PickStep(entries, i, tier, limit, seen);
      if count >= limit { break; }
      i := i + 1;
      if KeyOf(entry, tier) in seen { continue; }
      NamesOfUnion(picked, entry);
      picked := picked + {entry};
      seen := seen + {KeyOf(entry, tier)};
      keep := keep + {entry.filename};
      count := count + 1;
    }
    assert Pick(entries[i..], tier, limit, seen) == {};
    assert picked == Pick(entries, tier, limit, {});
  }

  lemma PickStep(entries: seq<Entry>, i: nat, tier: Tier, limit: int, seen: set<string>)
    requires i < |entries|
    ensures Pick(entries[i..], tier, limit, seen)
         == if |seen| >= limit then {}
            else if KeyOf(entries[i], tier) in seen then Pick(entries[i + 1..], tier, limit, seen)
            else {entries[i]} + Pick(entries[i + 1..], tier, limit, seen + {KeyOf(entries[i], tier)})
  {
    assert entries[i..][0] == entries[i] && entries[i..][1..] == entries[i + 1..];
  }

  lemma NamesOfUnion(s: set<Entry>, e: Entry)
    ensures Names(s + {e}) == Names(s) + {e.filename}
  {
  }

  lemma NamesOfKept(entries: seq<Entry>, limits: Limits, newest: set<Entry>)
    requires newest == if entries == [] then {} else {entries[0]}
    ensures Names(Kept(entries, limits))
         == Names(newest) + Names(Pick(entries, Monthly, limits.monthly, {}))
            + Names(Pick(entries, Weekly, limits.weekly, {})) + Names(Pick(entries, Daily, limits.daily, {}))
  {
    var m := Pick(entries, Monthly, limits.monthly, {});
    var w := Pick(entries, Weekly, limits.weekly, {});
    var d := Pick(entries, Daily, limits.daily, {});
    NamesOfUnions(newest, m, w, d);
    assert Kept(entries, limits) == newest + m + w + d;
  }

  lemma NamesOfUnions(n: set<Entry>, m: set<Entry>, w: set<Entry>, d: set<Entry>)
    ensures Names(n + m + w + d) == Names(n) + Names(m) + Names(w) + Names(d)
  {
  }

  /** classifyRetention: which file names stay and which may be deleted, newest first. */
  method ClassifyRetention(entries: seq<Entry>, limits: Limits)
    returns (keep: set<string>, deleteCandidates: seq<string>)
    requires DistinctNames(entries)
    ensures keep == Names(Kept(entries, limits))
    ensures deleteCandidates == DeleteCandidates(entries, limits)
    ensures forall i :: 0 <= i < |entries| ==>
              (entries[i].filename in keep <==> WorthKeeping(entries, limits, i))
              && (entries[i].filename in deleteCandidates <==> !WorthKeeping(entries, limits, i))
  {
    keep := {};
    ghost var newest: set<Entry> := if entries == [] then {} else {entries[0]};
    if |entries| > 0 {
      keep := keep + {entries[0].filename};
    }
    assert keep == Names(newest);
    keep := KeepTier(entries, Monthly, limits.monthly, keep);
    keep := KeepTier(entries, Weekly, limits.weekly, keep);
    keep := KeepTier(entries, Daily, limits.daily, keep);
    NamesOfKept(entries, limits, newest);
    KeptAreEntries(entries, limits);
    deleteCandidates := NotKept(entries, keep, Kept(entries, limits));
    forall i | 0 <= i < |entries|
      ensures entries[i].filename in keep <==> WorthKeeping(entries, limits, i)
      ensures entries[i].filename in deleteCandidates <==> !WorthKeeping(entries, limits, i)
    {
      KeptInPlainTerms(entries, limits, i);
      NameDecides(entries, Kept(entries, limits), i);
      KeepAndDeletePartition(entries, limits, i);
    }
  }

  /** The names outside `keep`, in listing order. */
  method NotKept(entries: seq<Entry>, keep: set<string>, ghost kept: set<Entry>) returns (names: seq<string>)
    requires DistinctNames(entries) && keep == Names(kept) && kept <= Elements(entries)
    ensures names == FileNames(Filter(entries, Elements(entries) - kept))
  {
    names := [];
    ghost var gone := Elements(entries) - kept;
    for i := 0 to |entries|
      invariant names + FileNames(Filter(entries[i..], gone)) == FileNames(Filter(entries, gone))
    {
      assert entries[i..][0] == entries[i] && entries[i..][1..] == entries[i + 1..];
      NameDecides(entries, kept, i);
      if entries[i].filename !in keep {
        FileNamesStep(entries[i], Filter(entries[i + 1..], gone));
        assert Filter(entries[i..], gone) == [entries[i]] + Filter(entries[i + 1..], gone);
        names := names + [entries[i].filename];
      } else {
        assert Filter(entries[i..], gone) == Filter(entries[i + 1..], gone);
      }
    }
  }

  lemma FileNamesStep(e: Entry, rest: seq<Entry>)
    ensures FileNames([e] + rest) == [e.filename] + FileNames(rest)
  {
    assert ([e] + rest)[1..] == rest;
  }

  lemma NameDecides(entries: seq<Entry>, kept: set<Entry>, i: nat)
    requires DistinctNames(entries) && kept <= Elements(entries) && i < |entries|
    ensures entries[i].filename in Names(kept) <==> entries[i] in kept
  {
    if entries[i].filename in Names(kept) {
      var e :| e in kept && e.filename == entries[i].filename;
      assert e in entries;
      NameIsIdentity(entries, i, e);
    }
  }

  // ---------------------------------------------------------------- the greedy passes mean what they should

  // The keys met before position `i`, collected front to back as the pass does.
  function KeysBefore(entries: seq<Entry>, i: nat, tier: Tier): set<string>
    requires i <= |entries|
    decreases i
  {
    if i == 0 then {} else {KeyOf(entries[0], tier)} + KeysBefore(entries[1..], i - 1, tier)
  }

  lemma {:induction false} KeysBeforeAre(entries: seq<Entry>, i: nat, tier: Tier, k: string)
    requires i <= |entries|
    ensures k in KeysBefore(entries, i, tier) <==> exists j :: 0 <= j < i && KeyOf(entries[j], tier) == k
    decreases i
  {
    if i > 0 {
      KeysBeforeAre(entries[1..], i - 1, tier, k);
      if j :| 0 <= j < i && KeyOf(entries[j], tier) == k && j > 0 {
        assert KeyOf(entries[1..][j - 1], tier) == k;
      }
      if j :| 0 <= j < i - 1 && KeyOf(entries[1..][j], tier) == k {
        assert KeyOf(entries[j + 1], tier) == k;
      }
    }
  }

  predicate FirstOfKey(entries: seq<Entry>, i: nat, tier: Tier)
    requires i < |entries|
  {
    forall j :: 0 <= j < i ==> KeyOf(entries[j], tier) != KeyOf(entries[i], tier)
  }

  lemma UnionSize(a: set<string>, b: set<string>)
    ensures |a + b| >= |a|
  {
    assert a + b == a + (b - a);
  }

  predicate Distinct(entries: seq<Entry>) {
    entries == [] || (entries[0] !in entries[1..] && Distinct(entries[1..]))
  }

  // What position `i` must meet for a pass that has already seen `seen`.
  predicate Wanted(entries: seq<Entry>, tier: Tier, limit: int, seen: set<string>, i: nat)
    requires i < |entries|
  {
    var met := seen + KeysBefore(entries, i, tier);
    KeyOf(entries[i], tier) !in met && |met| < limit
  }

  lemma WantedShift(entries: seq<Entry>, tier: Tier, limit: int, seen: set<string>, i: nat)
    requires 0 < i < |entries|
    ensures Wanted(entries, tier, limit, seen, i)
       <==> Wanted(entries[1..], tier, limit, seen + {KeyOf(entries[0], tier)}, i - 1)
  {
    var h, rest := KeyOf(entries[0], tier), entries[1..];
    assert seen + KeysBefore(entries, i, tier) == seen + {h} + KeysBefore(rest, i - 1, tier);
    assert rest[i - 1] == entries[i];
  }

  lemma {:induction false} PickIsNewestOfEachKey(entries: seq<Entry>, tier: Tier, limit: int, seen: set<string>, i: nat)
    requires Distinct(entries) && i < |entries|
    ensures entries[i] in Pick(entries, tier, limit, seen) <==> Wanted(entries, tier, limit, seen, i)
    decreases i
  {
    var h, rest := KeyOf(entries[0], tier), entries[1..];
    if |seen| >= limit {
      UnionSize(seen, KeysBefore(entries, i, tier));
    } else if i == 0 {
      assert seen + KeysBefore(entries, 0, tier) == seen;
      PickedAreEntries(rest, tier, limit, seen);
      assert entries[0] !in Elements(rest);
    } else {
      WantedShift(entries, tier, limit, seen, i);
      PickIsNewestOfEachKey(rest, tier, limit, seen + {h}, i - 1);
      assert entries[i] == rest[i - 1] && entries[i] in rest;
      assert h in seen ==> seen + {h} == seen;
    }
  }

  ghost predicate KeptByTier(entries: seq<Entry>, limits: Limits, i: nat, tier: Tier)
    requires i < |entries|
  {
    FirstOfKey(entries, i, tier) && |KeysBefore(entries, i, tier)| < LimitOf(limits, tier)
  }

  lemma TierKeeps(entries: seq<Entry>, limits: Limits, i: nat, tier: Tier)
    requires Distinct(entries) && i < |entries|
    ensures entries[i] in Pick(entries, tier, LimitOf(limits, tier), {}) <==> KeptByTier(entries, limits, i, tier)
  {
    PickIsNewestOfEachKey(entries, tier, LimitOf(limits, tier), {}, i);
    assert {} + KeysBefore(entries, i, tier) == KeysBefore(entries, i, tier);
    KeysBeforeAre(entries, i, tier, KeyOf(entries[i], tier));
  }

  lemma ThreeTiers(entries: seq<Entry>, limits: Limits, i: nat)
    requires i < |entries|
    ensures (exists tier :: KeptByTier(entries, limits, i, tier))
       <==> KeptByTier(entries, limits, i, Monthly) || KeptByTier(entries, limits, i, Weekly)
            || KeptByTier(entries, limits, i, Daily)
  {
    if tier :| KeptByTier(entries, limits, i, tier) {
      assert tier == Monthly || tier == Weekly || tier == Daily;
    }
  }

  lemma KeptByRank(entries: seq<Entry>, limits: Limits, i: nat)
    requires Distinct(entries) && i < |entries|
    ensures entries[i] in Kept(entries, limits)
       <==> (i == 0 || entries[i] in Pick(entries, Monthly, LimitOf(limits, Monthly), {})
             || entries[i] in Pick(entries, Weekly, LimitOf(limits, Weekly), {})
             || entries[i] in Pick(entries, Daily, LimitOf(limits, Daily), {}))
  {
    assert i > 0 ==> entries[i] in entries[1..] by { if i > 0 { assert entries[1..][i - 1] == entries[i]; } }
  }

  /**
   * What is kept: the newest backup, and for months, weeks and days the newest backup of each of
   * the first `limit` distinct keys. In a newest-first listing, first of its key is newest of its key.
   */
  lemma KeptExactly(entries: seq<Entry>, limits: Limits, i: nat)
    requires NewestFirst(entries) && i < |entries|
    ensures entries[i] in Kept(entries, limits)
       <==> i == 0 || exists tier :: KeptByTier(entries, limits, i, tier)
  {
    NewestFirstDistinct(entries);
    TierKeeps(entries, limits, i, Monthly);
    TierKeeps(entries, limits, i, Weekly);
    TierKeeps(entries, limits, i, Daily);
    KeptByRank(entries, limits, i);
    ThreeTiers(entries, limits, i);
  }

  /** The first of its month, with fewer than `limit` distinct months before it. */
  ghost predicate NewOfItsMonth(entries: seq<Entry>, i: nat, limit: int)
    requires i < |entries|
  {
    (forall j :: 0 <= j < i ==> entries[j].monthKey != entries[i].monthKey)
    && |set j | 0 <= j < i :: entries[j].monthKey| < limit
  }

  ghost predicate NewOfItsWeek(entries: seq<Entry>, i: nat, limit: int)
    requires i < |entries|
  {
    (forall j :: 0 <= j < i ==> entries[j].weekKey != entries[i].weekKey)
    && |set j | 0 <= j < i :: entries[j].weekKey| < limit
  }

  ghost predicate NewOfItsDay(entries: seq<Entry>, i: nat, limit: int)
    requires i < |entries|
  {
    (forall j :: 0 <= j < i ==> entries[j].dayKey != entries[i].dayKey)
    && |set j | 0 <= j < i :: entries[j].dayKey| < limit
  }

  ghost predicate WorthKeeping(entries: seq<Entry>, limits: Limits, i: nat)
    requires i < |entries|
  {
    i == 0 || NewOfItsMonth(entries, i, limits.monthly) || NewOfItsWeek(entries, i, limits.weekly)
    || NewOfItsDay(entries, i, limits.daily)
  }

  lemma MonthTier(entries: seq<Entry>, limits: Limits, i: nat)
    requires i < |entries|
    ensures KeptByTier(entries, limits, i, Monthly) <==> NewOfItsMonth(entries, i, limits.monthly)
  {
    forall k ensures k in KeysBefore(entries, i, Monthly) <==> exists j :: 0 <= j < i && entries[j].monthKey == k {
      KeysBeforeAre(entries, i, Monthly, k);
    }
    assert KeysBefore(entries, i, Monthly) == set j | 0 <= j < i :: entries[j].monthKey;
  }

  lemma WeekTier(entries: seq<Entry>, limits: Limits, i: nat)
    requires i < |entries|
    ensures KeptByTier(entries, limits, i, Weekly) <==> NewOfItsWeek(entries, i, limits.weekly)
  {
    forall k ensures k in KeysBefore(entries, i, Weekly) <==> exists j :: 0 <= j < i && entries[j].weekKey == k {
      KeysBeforeAre(entries, i, Weekly, k);
    }
    assert KeysBefore(entries, i, Weekly) == set j | 0 <= j < i :: entries[j].weekKey;
  }

  lemma DayTier(entries: seq<Entry>, limits: Limits, i: nat)
    requires i < |entries|
    ensures KeptByTier(entries, limits, i, Daily) <==> NewOfItsDay(entries, i, limits.daily)
  {
    forall k ensures k in KeysBefore(entries, i, Daily) <==> exists j :: 0 <= j < i && entries[j].dayKey == k {
      KeysBeforeAre(entries, i, Daily, k);
    }
    assert KeysBefore(entries, i, Daily) == set j | 0 <= j < i :: entries[j].dayKey;
  }

  lemma {:induction false} DistinctNamesDistinct(entries: seq<Entry>)
    requires DistinctNames(entries)
    ensures Distinct(entries)
  {
    if entries != [] { DistinctNamesDistinct(entries[1..]); }
  }

  /** Each month, week and day tier keeps by its own key and its own limit. */
  lemma KeptInPlainTerms(entries: seq<Entry>, limits: Limits, i: nat)
    requires DistinctNames(entries) && i < |entries|
    ensures entries[i] in Kept(entries, limits) <==> WorthKeeping(entries, limits, i)
  {
    DistinctNamesDistinct(entries);
    TierKeeps(entries, limits, i, Monthly);
    TierKeeps(entries, limits, i, Weekly);
    TierKeeps(entries, limits, i, Daily);
    KeptByRank(entries, limits, i);
    MonthTier(entries, limits, i);
    WeekTier(entries, limits, i);
    DayTier(entries, limits, i);
  }

  lemma {:induction false} NewestFirstDistinct(entries: seq<Entry>)
    requires NewestFirst(entries)
    ensures Distinct(entries)
  {
    if entries != [] { NewestFirstDistinct(entries[1..]); }
  }

  lemma {:induction false} PickSize(entries: seq<Entry>, tier: Tier, limit: int, seen: set<string>)
    requires |seen| <= limit
    ensures |Pick(entries, tier, limit, seen)| <= limit - |seen|
  {
    if entries != [] && |seen| < limit {
      var h := KeyOf(entries[0], tier);
      if h in seen {
        PickSize(entries[1..], tier, limit, seen);
      } else {
        PickSize(entries[1..], tier, limit, seen + {h});
      }
    }
  }

  /** The newest backup is counted by all three tiers, so two places are always saved. */
  lemma KeptSize(entries: seq<Entry>, limits: Limits)
    requires limits.daily >= 1 && limits.weekly >= 1 && limits.monthly >= 1
    ensures |Kept(entries, limits)| <= limits.daily + limits.weekly + limits.monthly - 2
  {
    PickSize(entries, Monthly, limits.monthly, {});
    PickSize(entries, Weekly, limits.weekly, {});
    PickSize(entries, Daily, limits.daily, {});
    if entries != [] {
      var newest := {entries[0]};
      var m := Pick(entries, Monthly, limits.monthly, {});
      var w := Pick(entries, Weekly, limits.weekly, {});
      var d := Pick(entries, Daily, limits.daily, {});
      assert newest <= m && newest <= w && newest <= d;
      var k := Kept(entries, limits);
      assert k == m + (w - newest) + (d - newest);
      assert |m + (w - newest)| <= |m| + |w - newest|;
      assert |k| <= |m + (w - newest)| + |d - newest|;
    }
  }

  lemma {:induction false} FileNamesMember(entries: seq<Entry>, name: string)
    ensures name in FileNames(entries) <==> exists e :: e in entries && e.filename == name
  {
    if entries != [] {
      FileNamesMember(entries[1..], name);
      assert entries == [entries[0]] + entries[1..];
    }
  }

  lemma NameIsIdentity(entries: seq<Entry>, i: nat, e: Entry)
    requires DistinctNames(entries) && i < |entries| && e in entries && e.filename == entries[i].filename
    ensures e == entries[i]
  {
    var j :| 0 <= j < |entries| && entries[j] == e;
    assert !(i < j) && !(j < i);
  }

  lemma RestNames(entries: seq<Entry>, kept: set<Entry>, i: nat)
    requires DistinctNames(entries) && i < |entries|
    ensures entries[i].filename in FileNames(Filter(entries, Elements(entries) - kept)) <==> entries[i] !in kept
  {
    var gone := Filter(entries, Elements(entries) - kept);
    FileNamesMember(gone, entries[i].filename);
    if e :| e in gone && e.filename == entries[i].filename {
      NameIsIdentity(entries, i, e);
    }
    if entries[i] !in kept {
      assert entries[i] in gone;
    }
  }

  /** Every listed file is either kept or offered for deletion, never both. */
  lemma {:induction false} KeepAndDeletePartition(entries: seq<Entry>, limits: Limits, i: nat)
    requires DistinctNames(entries) && i < |entries|
    ensures entries[i].filename in Names(Kept(entries, limits))
       <==> entries[i].filename !in DeleteCandidates(entries, limits)
  {
    KeptAreEntries(entries, limits);
    NameDecides(entries, Kept(entries, limits), i);
    RestNames(entries, Kept(entries, limits), i);
  }

  // ---------------------------------------------------------------- pruning loses nothing

  // Dropping entries a pass does not pick does not change what it picks.
  lemma {:induction false} PickIgnoresUnpicked(entries: seq<Entry>, keep: set<Entry>, tier: Tier, limit: int,
                                               seen: set<string>)
    requires Pick(entries, tier, limit, seen) <= keep
    ensures Pick(Filter(entries, keep), tier, limit, seen) == Pick(entries, tier, limit, seen)
  {
    if entries != [] && |seen| < limit {
      var h := KeyOf(entries[0], tier);
      var f := Filter(entries, keep);
      var next := if h in seen then seen else seen + {h};
      PickIgnoresUnpicked(entries[1..], keep, tier, limit, next);
      if entries[0] in keep {
        assert f[0] == entries[0] && f[1..] == Filter(entries[1..], keep);
      } else {
        assert f == Filter(entries[1..], keep);
      }
    }
  }

  // A key seen earlier only takes places away.
  lemma {:induction false} PickShrinks(entries: seq<Entry>, tier: Tier, limit: int, seen: set<string>, k: string)
    ensures Pick(entries, tier, limit, seen + {k}) <= Pick(entries, tier, limit, seen)
  {
    if entries != [] {
      UnionSize(seen, {k});
      var h := KeyOf(entries[0], tier);
      if h in seen {
        PickShrinks(entries[1..], tier, limit, seen, k);
      } else if h != k {
        assert seen + {k} + {h} == seen + {h} + {k};
        PickShrinks(entries[1..], tier, limit, seen + {h}, k);
      }
    }
  }

  lemma FilterKeepsFirst(entries: seq<Entry>, keep: set<Entry>)
    requires entries != [] && entries[0] in keep
    ensures Filter(entries, keep)[0] == entries[0]
  {
  }

  /** A listing that still holds everything the full listing keeps is classified like the full listing. */
  lemma SurvivorsKeepTheSame(entries: seq<Entry>, keep: set<Entry>, limits: Limits)
    requires Kept(entries, limits) <= keep
    ensures Kept(Filter(entries, keep), limits) == Kept(entries, limits)
  {
    PickIgnoresUnpicked(entries, keep, Monthly, limits.monthly, {});
    PickIgnoresUnpicked(entries, keep, Weekly, limits.weekly, {});
    PickIgnoresUnpicked(entries, keep, Daily, limits.daily, {});
    if entries != [] { FilterKeepsFirst(entries, keep); }
  }

  /** What the next classification keeps besides the new backup is kept already. */
  lemma NextKeptIsKept(entries: seq<Entry>, b: Entry, limits: Limits)
    ensures Kept([b] + entries, limits) <= {b} + Kept(entries, limits)
  {
    assert ([b] + entries)[1..] == entries;
    forall tier ensures Pick([b] + entries, tier, LimitOf(limits, tier), {})
                     <= {b} + Pick(entries, tier, LimitOf(limits, tier), {})
    {
      PickShrinks(entries, tier, LimitOf(limits, tier), {}, KeyOf(b, tier));
    }
    assert Pick([b] + entries, Monthly, LimitOf(limits, Monthly), {}) <= {b} + Kept(entries, limits);
    assert Pick([b] + entries, Weekly, LimitOf(limits, Weekly), {}) <= {b} + Kept(entries, limits);
    assert Pick([b] + entries, Daily, LimitOf(limits, Daily), {}) <= {b} + Kept(entries, limits);
  }

  // ---------------------------------------------------------------- runs of the backup cycle

  /** One cycle: a new backup, and whether the prune gate let the deletion happen. */
  datatype Cycle = Cycle(backup: Entry, pruned: bool)

  /** A listing after the files of these names were deleted. */
  function WithoutNames(entries: seq<Entry>, names: seq<string>): seq<Entry> {
    if entries == [] then []
    else (if entries[0].filename in names then [] else [entries[0]]) + WithoutNames(entries[1..], names)
  }

  /** The backups directory after one cycle, newest first: a prune deletes the candidates by name. */
  function AfterCycle(listing: seq<Entry>, c: Cycle, limits: Limits): seq<Entry> {
    var all := [c.backup] + listing;
    if c.pruned then WithoutNames(all, DeleteCandidates(all, limits)) else all
  }

  lemma {:induction false} WithoutNamesAreEntries(entries: seq<Entry>, names: seq<string>, e: Entry)
    requires e in WithoutNames(entries, names)
    ensures e in entries
  {
    if e != entries[0] { WithoutNamesAreEntries(entries[1..], names, e); }
  }

  lemma CycleAddsOnlyItsBackup(listing: seq<Entry>, c: Cycle, limits: Limits, e: Entry)
    requires e in AfterCycle(listing, c, limits)
    ensures e == c.backup || e in listing
  {
    var all := [c.backup] + listing;
    if c.pruned { WithoutNamesAreEntries(all, DeleteCandidates(all, limits), e); }
  }

  lemma {:induction false} WithoutNamesIsFilter(entries: seq<Entry>, names: seq<string>, keep: set<Entry>)
    requires forall e <- entries :: e.filename in names <==> e !in keep
    ensures WithoutNames(entries, names) == Filter(entries, keep)
  {
    if entries != [] {
      assert entries[0] in entries;
      WithoutNamesIsFilter(entries[1..], names, keep);
    }
  }

  /** Deleting the candidates by name leaves exactly the kept entries, as file names are unique. */
  lemma PruningByName(entries: seq<Entry>, limits: Limits)
    requires DistinctNames(entries)
    ensures WithoutNames(entries, DeleteCandidates(entries, limits)) == Filter(entries, Kept(entries, limits))
  {
    var kept := Kept(entries, limits);
    forall e | e in entries ensures e.filename in DeleteCandidates(entries, limits) <==> e !in kept {
      var i :| 0 <= i < |entries| && entries[i] == e;
      RestNames(entries, kept, i);
    }
    WithoutNamesIsFilter(entries, DeleteCandidates(entries, limits), kept);
  }

  /** The directory after a run of cycles, oldest cycle first. */
  function Directory(cycles: seq<Cycle>, limits: Limits): seq<Entry> {
    if cycles == [] then []
    else AfterCycle(Directory(cycles[..|cycles| - 1], limits), cycles[|cycles| - 1], limits)
  }

  /** Everything ever backed up, newest first, as if nothing had been pruned. */
  function Archive(cycles: seq<Cycle>): seq<Entry> {
    if cycles == [] then [] else [cycles[|cycles| - 1].backup] + Archive(cycles[..|cycles| - 1])
  }

  /** Each backup is newer than the earlier ones, and has a file name of its own. */
  predicate StrictlyNewer(cycles: seq<Cycle>) {
    forall i, j :: 0 <= i < j < |cycles| ==>
      cycles[i].backup.timestampMs < cycles[j].backup.timestampMs
      && cycles[i].backup.filename != cycles[j].backup.filename
  }

  lemma {:induction false} FilterTwice(entries: seq<Entry>, a: set<Entry>, b: set<Entry>)
    ensures Filter(Filter(entries, a), b) == Filter(entries, a * b)
  {
    if entries != [] {
      FilterTwice(entries[1..], a, b);
      var f := Filter(entries, a);
      if entries[0] in a {
        assert f[0] == entries[0] && f[1..] == Filter(entries[1..], a);
      } else {
        assert f == Filter(entries[1..], a);
      }
    }
  }

  lemma {:induction false} FilterSame(entries: seq<Entry>, a: set<Entry>, b: set<Entry>)
    requires forall e :: e in entries ==> (e in a <==> e in b)
    ensures Filter(entries, a) == Filter(entries, b)
  {
    if entries != [] { FilterSame(entries[1..], a, b); }
  }

  lemma {:induction false} ArchiveMember(cycles: seq<Cycle>, e: Entry)
    requires e in Archive(cycles)
    ensures exists i :: 0 <= i < |cycles| && cycles[i].backup == e
  {
    var n := |cycles| - 1;
    if e == cycles[n].backup {
      assert cycles[n].backup == e;
    } else {
      ArchiveMember(cycles[..n], e);
      var i :| 0 <= i < n && cycles[..n][i].backup == e;
      assert cycles[i].backup == e;
    }
  }

  lemma {:induction false} ArchiveNamesDistinct(cycles: seq<Cycle>)
    requires StrictlyNewer(cycles)
    ensures DistinctNames(Archive(cycles))
  {
    if cycles != [] {
      var n := |cycles| - 1;
      ArchiveNamesDistinct(cycles[..n]);
      var earlier := Archive(cycles[..n]);
      forall i | 0 <= i < |earlier| ensures earlier[i].filename != cycles[n].backup.filename {
        ArchiveMember(cycles[..n], earlier[i]);
      }
    }
  }

  lemma {:induction false} FilteredNamesDistinct(entries: seq<Entry>, keep: set<Entry>)
    requires DistinctNames(entries)
    ensures DistinctNames(Filter(entries, keep))
  {
    if entries != [] {
      FilteredNamesDistinct(entries[1..], keep);
      var rest := Filter(entries[1..], keep);
      assert forall i :: 0 <= i < |rest| ==> rest[i] in entries[1..];
    }
  }

  // The directory is the archive without some backups the archive no longer keeps.
  lemma {:induction false} DirectoryInsideArchive(cycles: seq<Cycle>, limits: Limits)
    requires StrictlyNewer(cycles)
    ensures var d, a := Directory(cycles, limits), Archive(cycles);
            d == Filter(a, Elements(d)) && Kept(a, limits) <= Elements(d)
  {
    if cycles != [] {
      var n := |cycles| - 1;
      var earlier, c := cycles[..n], cycles[n];
      DirectoryInsideArchive(earlier, limits);
      var d, a := Directory(earlier, limits), Archive(earlier);
      ArchiveNamesDistinct(cycles);
      assert Archive(cycles) == [c.backup] + a;
      CycleInsideArchive(d, a, c, limits);
    }
  }

  lemma HeadIsNew(entries: seq<Entry>)
    requires DistinctNames(entries) && entries != []
    ensures entries[0] !in entries[1..]
  {
  }

  lemma CycleInsideArchive(d: seq<Entry>, a: seq<Entry>, c: Cycle, limits: Limits)
    requires d == Filter(a, Elements(d)) && Kept(a, limits) <= Elements(d) && DistinctNames([c.backup] + a)
    ensures var d1, a1 := AfterCycle(d, c, limits), [c.backup] + a;
            d1 == Filter(a1, Elements(d1)) && Kept(a1, limits) <= Elements(d1)
  {
    var all, a1 := [c.backup] + d, [c.backup] + a;
    var held := {c.backup} + Elements(d);
    assert a1[0] == c.backup && a1[1..] == a;
    HeadIsNew(a1);
    FilterSame(a, held, Elements(d));
    assert all == Filter(a1, held) && Elements(all) == held;
    NextKeptIsKept(a, c.backup, limits);
    if c.pruned {
      FilteredNamesDistinct(a1, held);
      PruningByName(all, limits);
      SurvivorsKeepTheSame(a1, held, limits);
      var k := Kept(a1, limits);
      assert Kept(all, limits) == k;
      FilterTwice(a1, held, k);
      assert held * k == k;
      KeptAreEntries(a1, limits);
      assert Elements(Filter(a1, k)) == k;
    }
  }

  lemma DistinctInside(d: seq<Entry>, a: seq<Entry>, b: Entry)
    requires DistinctNames([b] + a) && d == Filter(a, Elements(d))
    ensures DistinctNames([b] + d)
  {
    var all := [b] + a;
    assert forall i :: 0 <= i < |a| ==> a[i] == all[i + 1];
    FilteredNamesDistinct(a, Elements(d));
    forall i | 0 <= i < |d| ensures d[i].filename != b.filename {
      assert d[i] in a;
      var j :| 0 <= j < |a| && a[j] == d[i];
      assert all[0].filename != all[j + 1].filename;
    }
  }

  /** Every listing of a run has unique file names, so each cycle may classify and prune it by name. */
  lemma ListingNamesDistinct(cycles: seq<Cycle>, limits: Limits)
    requires StrictlyNewer(cycles) && cycles != []
    ensures DistinctNames([cycles[|cycles| - 1].backup] + Directory(cycles[..|cycles| - 1], limits))
  {
    var n := |cycles| - 1;
    DirectoryInsideArchive(cycles[..n], limits);
    ArchiveNamesDistinct(cycles);
    DistinctInside(Directory(cycles[..n], limits), Archive(cycles[..n]), cycles[n].backup);
  }

  lemma KeptAreEntries(entries: seq<Entry>, limits: Limits)
    ensures Kept(entries, limits) <= Elements(entries)
  {
    PickedAreEntries(entries, Monthly, limits.monthly, {});
    PickedAreEntries(entries, Weekly, limits.weekly, {});
    PickedAreEntries(entries, Daily, limits.daily, {});
  }

  /**
   * Pruning every cycle loses nothing: whatever cycles actually pruned, the directory is
   * classified exactly as the complete archive would be; and after a cycle that pruned it holds
   * exactly what one prune of the complete archive would have left.
   */
  lemma {:induction false} PruningEveryCycleLosesNothing(cycles: seq<Cycle>, limits: Limits)
    requires StrictlyNewer(cycles)
    ensures Kept(Directory(cycles, limits), limits) == Kept(Archive(cycles), limits)
    ensures cycles != [] && cycles[|cycles| - 1].pruned ==>
              Directory(cycles, limits) == Filter(Archive(cycles), Kept(Archive(cycles), limits))
  {
    DirectoryInsideArchive(cycles, limits);
    var d, a := Directory(cycles, limits), Archive(cycles);
    SurvivorsKeepTheSame(a, Elements(d), limits);
    if cycles != [] && cycles[|cycles| - 1].pruned {
      ListingNamesDistinct(cycles, limits);
      KeptAreEntries(d, limits);
      var all := [cycles[|cycles| - 1].backup] + Directory(cycles[..|cycles| - 1], limits);
      PruningByName(all, limits);
      PrunedIsClean(all, limits);
    }
  }

  /** Reclassifying what a prune left deletes nothing. */
  lemma PrunedIsClean(entries: seq<Entry>, limits: Limits)
    ensures var left := Filter(entries, Kept(entries, limits));
            Kept(left, limits) == Elements(left) && Filter(left, Elements(left) - Kept(left, limits)) == []
  {
    var k := Kept(entries, limits);
    var left := Filter(entries, k);
    SurvivorsKeepTheSame(entries, k, limits);
    KeptAreEntries(entries, limits);
    assert Elements(left) == k;
    FilterNone(left);
    assert Elements(left) - k == {};
  }

  lemma FilterNone(entries: seq<Entry>)
    ensures Filter(entries, {}) == []
  {
    if f :| f in Filter(entries, {}) {}
  }

  /** A backup some cycle deleted is wanted by no later classification of the full archive. */
  lemma {:induction false} DeletedIsNeverWanted(cycles: seq<Cycle>, later: nat, limits: Limits, e: Entry)
    requires StrictlyNewer(cycles) && later <= |cycles|
    requires e in Archive(cycles[..later]) && e !in Directory(cycles[..later], limits)
    ensures e !in Directory(cycles, limits) && e !in Kept(Archive(cycles), limits)
    decreases |cycles| - later
  {
    if later == |cycles| {
      assert cycles[..later] == cycles;
      DirectoryInsideArchive(cycles, limits);
    } else {
      var now := cycles[..later + 1];
      assert now[..later] == cycles[..later] && now[later] == cycles[later];
      ArchiveMember(cycles[..later], e);
      if e in Directory(now, limits) {
        CycleAddsOnlyItsBackup(Directory(cycles[..later], limits), cycles[later], limits, e);
      }
      DeletedIsNeverWanted(cycles, later + 1, limits, e);
    }
  }

  // ---------------------------------------------------------------- listings

  lemma {:induction false} FilterStaysNewestFirst(entries: seq<Entry>, keep: set<Entry>)
    requires NewestFirst(entries)
    ensures NewestFirst(Filter(entries, keep))
  {
    if entries != [] {
      assert NewestFirst(entries[1..]);
      FilterStaysNewestFirst(entries[1..], keep);
      var rest := Filter(entries[1..], keep);
      assert forall i :: 0 <= i < |rest| ==> rest[i] in entries[1..];
    }
  }

  /** The directory's contents determine its newest-first listing, so each cycle rereads what the last one left. */
  lemma {:induction false} ListingIsUnique(a: seq<Entry>, b: seq<Entry>)
    requires NewestFirst(a) && NewestFirst(b) && Elements(a) == Elements(b)
    ensures a == b
  {
    NoElements(a);
    NoElements(b);
    if a != [] {
      assert a[0] in Elements(b);
      assert b[0] in Elements(a);
      assert a[0] == b[0];
      TailElements(a);
      TailElements(b);
      ListingIsUnique(a[1..], b[1..]);
    }
  }

  lemma NoElements(a: seq<Entry>)
    ensures Elements(a) == {} <==> a == []
  {
    if a != [] { assert a[0] in Elements(a); }
  }

  lemma TailElements(a: seq<Entry>)
    requires NewestFirst(a) && a != []
    ensures Elements(a[1..]) == Elements(a) - {a[0]} && NewestFirst(a[1..])
  {
    assert a == [a[0]] + a[1..];
    assert a[0] !in a[1..];
  }
}
