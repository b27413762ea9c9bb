/**
  What a run of the self-heal leaves behind, and when a second run has nothing to do.
 */
module AuditConvergence {
  import opened Options
  import opened AuditNames
  import opened AuditHeal
  import opened AuditRecords

  // ---- Adopting ----

  /** Everything the adoption adds is a log of this directory that nobody recorded. */
  ghost predicate Adopts(cfg: Config, hashType: string, disk: Disk, files: seq<Entry>, all: seq<Entry>) {
    && |all| >= |files| && all[..|files|] == files
    && (Sound(cfg, hashType, files) ==> Sound(cfg, hashType, all))
    && (forall e <- all[|files|..] :: IsPlainPath(cfg, e.name) && !EndsWithGz(e.name) && Present(cfg, disk, e.name))
  }

  lemma NewLog(cfg: Config, hashType: string, disk: Disk, item: string, date: int)
    requires ConfigOk(cfg) && Matches(cfg, item) && item in disk
    ensures var e := NewEntry(hashType, LogicalName(cfg, item), date);
            Canonical(cfg, hashType, e) && IsPlainPath(cfg, e.name) && !EndsWithGz(e.name) && Present(cfg, disk, e.name)
            && Item(cfg, e.name) == WithoutGz(item)
  {
    MatchedItem(cfg, item);
    hide Matches;
    var base := WithoutGz(item);
    ItemOfJoin(cfg, base);
    var name := cfg.dir + "/" + base;
    assert LogicalName(cfg, item) == name;
    JoinedEnd(cfg.dir, base);
    assert item == base ==> Item(cfg, name) in disk;
    assert item == base + ".gz" ==> Item(cfg, name + ".gz") in disk;
  }

  lemma AdoptOne(cfg: Config, hashType: string, disk: Disk, files: seq<Entry>, all: seq<Entry>, item: string, date: int)
    requires ConfigOk(cfg) && Adopts(cfg, hashType, disk, files, all) && item in disk && IsOrphan(cfg, all, item)
    ensures Adopts(cfg, hashType, disk, files, all + [NewEntry(hashType, LogicalName(cfg, item), date)])
  {
    var e := NewEntry(hashType, LogicalName(cfg, item), date);
    NewLog(cfg, hashType, disk, item, date);
    hide Present, IsPlainPath, EndsWithGz, LogicalName, Matches, Canonical;
    UpsertAtEnd'(all, e);
    assert (all + [e])[|files|..] == all[|files|..] + [e];
    assert (all + [e])[..|files|] == all[..|files|];
  }

  lemma UpsertAtEnd'(files: seq<Entry>, e: Entry)
    requires !Has(files, e.name)
    ensures Unique(files) ==> Unique(files + [e])
  {
    if Unique(files) { UpsertAtEnd(files, e); }
  }

  lemma {:induction false} AdoptAdopts(cfg: Config, hashType: string, disk: Disk, files: seq<Entry>,
                                       listing: seq<string>)
    requires ConfigOk(cfg)
    ensures Adopts(cfg, hashType, disk, files, Adopt(cfg, hashType, disk, files, listing))
  {
    if listing == [] {
      assert files[..|files|] == files;
    } else {
      var init, item := listing[..|listing| - 1], listing[|listing| - 1];
      AdoptAdopts(cfg, hashType, disk, files, init);
      var rest := Adopt(cfg, hashType, disk, files, init);
      hide Adopts;
      if item in disk && IsOrphan(cfg, rest, item) { AdoptOne(cfg, hashType, disk, files, rest, item, disk[item]); }
      hide IsOrphan;
    }
  }

  lemma HasMore(files: seq<Entry>, e: Entry, name: string)
    ensures Has(files + [e], name) <==> Has(files, name) || e.name == name
  {
    assert (files + [e])[|files|] == e;
    if Has(files, name) {
      var x :| x in files && x.name == name;
      assert x in files + [e];
    }
  }

  /** Afterwards every listed log is recorded; something was added exactly when an orphan was listed. */
  lemma {:induction false} AdoptComplete(cfg: Config, hashType: string, disk: Disk, files: seq<Entry>,
                                         listing: seq<string>)
    ensures var all := Adopt(cfg, hashType, disk, files, listing);
            && |all| >= |files|
            && (forall item <- listing :: item in disk && Matches(cfg, item) ==> Has(all, LogicalName(cfg, item)))
            && (forall name :: Has(files, name) ==> Has(all, name))
            && (|all| > |files| <==> exists item <- listing :: item in disk && IsOrphan(cfg, files, item))
            && (|all| == |files| ==> all == files)
  {
    hide Matches, LogicalName;
    if listing != [] {
      var init, item := listing[..|listing| - 1], listing[|listing| - 1];
      assert listing == init + [item];
      AdoptComplete(cfg, hashType, disk, files, init);
      var rest := Adopt(cfg, hashType, disk, files, init);
      if item in disk && IsOrphan(cfg, rest, item) {
        var e := NewEntry(hashType, LogicalName(cfg, item), disk[item]);
        forall name ensures Has(rest + [e], name) <==> Has(rest, name) || e.name == name { HasMore(rest, e, name); }
        assert item in listing && IsOrphan(cfg, files, item);
      }
      hide Has;
    }
  }

  // ---- What a run writes ----

  function KeepsDays(w: World): bool { w.audit.Some? && w.audit.value.keepsDays }

  /** The entry of a log that is there, dated by it. */
  ghost predicate DatedBy(cfg: Config, disk: Disk, listing: seq<string>, e: Entry) {
    exists item <- listing :: item in disk && e.name == PathFor(cfg, WithoutGz(item)) && e.date == disk[item]
  }

  lemma DatedByMore(cfg: Config, disk: Disk, listing: seq<string>, e: Entry)
    requires |listing| > 0 && DatedBy(cfg, disk, listing[..|listing| - 1], e)
    ensures DatedBy(cfg, disk, listing, e)
  {
    hide PathFor, WithoutGz;
  }

  /** What is adopted is dated by the file that is there. */
  lemma {:induction false} AdoptDates(cfg: Config, hashType: string, disk: Disk, files: seq<Entry>,
                                      listing: seq<string>)
    ensures var all := Adopt(cfg, hashType, disk, files, listing);
            |all| >= |files| && forall i :: |files| <= i < |all| ==> DatedBy(cfg, disk, listing, all[i])
  {
    hide IsOrphan, PathFor, WithoutGz;
    if listing != [] {
      var init, item := listing[..|listing| - 1], listing[|listing| - 1];
      AdoptDates(cfg, hashType, disk, files, init);
      var rest, all := Adopt(cfg, hashType, disk, files, init), Adopt(cfg, hashType, disk, files, listing);
      forall i | |files| <= i < |all| ensures DatedBy(cfg, disk, listing, all[i]) {
        if i < |rest| {
          assert DatedBy(cfg, disk, init, rest[i]);
          DatedByMore(cfg, disk, listing, rest[i]);
        } else {
          assert item in listing;
        }
      }
    }
  }

  lemma NormalisedSound(cfg: Config, w: World)
    requires ConfigOk(cfg)
    ensures Sound(cfg, HashType(w), Normalised(cfg, w))
    ensures forall e <- Normalised(cfg, w) :: ComesFrom(cfg, HashType(w), e, Files(w)) && Present(cfg, w.disk, e.name)
    ensures forall o <- Files(w) :: Represented(cfg, o, Fold(cfg, HashType(w), Files(w)))
  {
    var folded := Fold(cfg, HashType(w), Files(w));
    FoldFolds(cfg, HashType(w), Files(w));
    ExistingUnique(cfg, w.disk, folded);
    ExistingPresent(cfg, w.disk, folded);
    hide Fold, Existing, Unique, Canonical, ComesFrom, Represented, Present;
  }

  lemma AdoptedSound(cfg: Config, w: World, listing: seq<string>)
    requires ConfigOk(cfg)
    ensures var all := Adopted(cfg, w, listing);
            Sound(cfg, HashType(w), all) && forall e <- all :: Present(cfg, w.disk, e.name)
  {
    var files := Normalised(cfg, w);
    var all := Adopted(cfg, w, listing);
    NormalisedSound(cfg, w);
    AdoptAdopts(cfg, HashType(w), w.disk, files, listing);
    hide Sound, Normalised, Adopt, Present, IsPlainPath, EndsWithGz;
    assert all == all[..|files|] + all[|files|..];
  }

  /** The recorded and adopted logs, oldest first: nothing is lost and nothing is invented. */
  ghost predicate Sorts(cfg: Config, w: World, all: seq<Entry>, sorted: seq<Entry>) {
    && multiset(sorted) == multiset(all) && |sorted| == |all| && Oldest(sorted)
    && Sound(cfg, HashType(w), sorted) && (forall e <- sorted :: Present(cfg, w.disk, e.name))
    && (forall e :: e in sorted <==> e in all)
  }

  lemma AdoptedSorts(cfg: Config, w: World, listing: seq<string>)
    requires ConfigOk(cfg)
    ensures Sorts(cfg, w, Adopted(cfg, w, listing), ByDate(Adopted(cfg, w, listing)))
  {
    var all := Adopted(cfg, w, listing);
    AdoptedSound(cfg, w, listing);
    ByDateSorts(all);
    UniqueByMultiset(all, ByDate(all));
    hide Adopted, ByDate, Unique, Oldest, Canonical, Present;
  }

  lemma PlanSplits(cfg: Config, w: World, listing: seq<string>, today: string)
    requires ConfigOk(cfg)
    ensures var plan := PlanFor(cfg, w, listing, today);
            && plan.evicted + plan.kept == ByDate(Adopted(cfg, w, listing))
            && |plan.evicted| == EvictedCount(cfg, w, ByDate(Adopted(cfg, w, listing)), today)
  {
    hide Adopted, ByDate, Changes, EvictedCount;
    var all := Adopted(cfg, w, listing);
    AdoptedSorts(cfg, w, listing);
    SameLimit(cfg, w, all, ByDate(all), today);
    assert |ByDate(all)| == |all|;
    hide Sorts;
    Rejoined(ByDate(all), EvictedCount(cfg, w, all, today));
  }

  lemma Rejoined(files: seq<Entry>, n: nat)
    requires n <= |files|
    ensures files[..n] + files[n..] == files && |files[..n]| == n
  {
  }

  lemma SameLimit(cfg: Config, w: World, all: seq<Entry>, sorted: seq<Entry>, today: string)
    requires ConfigOk(cfg) && Sorts(cfg, w, all, sorted)
    ensures EvictedCount(cfg, w, sorted, today) == EvictedCount(cfg, w, all, today)
  {
    assert forall name :: Has(sorted, name) <==> Has(all, name);
    hide Sound, Oldest, PathFor, TodayBase, Present;
  }

  /** What is kept is sound and was there, and nothing evicted is newer or has a kept name. */
  ghost predicate WellKept(cfg: Config, w: World, plan: Plan) {
    && Sound(cfg, HashType(w), plan.kept) && (forall e <- plan.kept :: Present(cfg, w.disk, e.name))
    && (forall e, k :: e in plan.evicted && k in plan.kept ==> e.date <= k.date && e.name != k.name)
  }

  /** By number at most `maxFiles` stay, one less if today's log is still to come, and no more go than must. */
  ghost predicate Trimmed(cfg: Config, w: World, plan: Plan, today: string) {
    var todays := cfg.dir + "/" + (cfg.prefix + today + cfg.suffix);
    var room := if exists e <- plan.evicted + plan.kept :: e.name == todays then cfg.maxFiles else cfg.maxFiles - 1;
    if KeepsDays(w) then plan.evicted == []
    else |plan.kept| <= room && (plan.evicted != [] ==> |plan.kept| == room)
  }

  lemma RoomIsLimit(cfg: Config, files: seq<Entry>, today: string)
    requires ConfigOk(cfg)
    ensures var todays := cfg.dir + "/" + (cfg.prefix + today + cfg.suffix);
            Limit(cfg, files, today) == if exists e <- files :: e.name == todays then cfg.maxFiles else cfg.maxFiles - 1
  {
    var base := TodayBase(cfg, today);
    assert base == cfg.prefix + today + cfg.suffix && base[0] == cfg.prefix[0] != '.';
    hide ConfigOk;
  }

  /**
    Whatever the record and the directory held: a written record has unique names in this directory's
    view, each with its matching hash and a file that was there; the number is within the limit; and
    every evicted entry is no newer than every kept one.
   */
  lemma WrittenRecord(cfg: Config, w: World, listing: seq<string>, today: string)
    requires ConfigOk(cfg)
    ensures var plan := PlanFor(cfg, w, listing, today);
            WellKept(cfg, w, plan) && Trimmed(cfg, w, plan, today)
            && multiset(plan.evicted + plan.kept) == multiset(Adopted(cfg, w, listing))
  {
    var plan := PlanFor(cfg, w, listing, today);
    AdoptedSorts(cfg, w, listing);
    PlanSplits(cfg, w, listing, today);
    SplitKeeps(cfg, w, Adopted(cfg, w, listing), plan);
    SplitTrims(cfg, w, plan, today);
    hide Adopted, ByDate, PlanFor, WellKept, Trimmed;
  }

  /** The written record points to itself, and its hashes are those that the rotator checks before it deletes. */
  lemma WrittenHashes(cfg: Config, w: World, listing: seq<string>, today: string, writtenAt: int)
    requires ConfigOk(cfg) && Changes(cfg, w, listing)
    ensures Heal(cfg, w, listing, today, writtenAt).audit.Some?
    ensures var a := Heal(cfg, w, listing, today, writtenAt).audit.value;
            && a.auditLog == AuditPath(cfg) && a.keepsDays == KeepsDays(w)
            && a.hashType == (if w.audit.Some? then w.audit.value.hashType else "sha256")
            && forall e <- a.files :: e.hash == Digest(a.hashType, e.name, e.date)
  {
    WrittenRecord(cfg, w, listing, today);
    hide Changes, Adopted, ByDate, EvictedCount, Without, AuditPath, Trimmed, Present, IsPlainPath, IsDotPath, ConfigOk;
  }

  lemma SplitTrims(cfg: Config, w: World, plan: Plan, today: string)
    requires ConfigOk(cfg) && |plan.evicted| == EvictedCount(cfg, w, plan.evicted + plan.kept, today)
    ensures Trimmed(cfg, w, plan, today)
  {
    hide Limit, Has, PathFor, TodayBase, ConfigOk;
    RoomIsLimit(cfg, plan.evicted + plan.kept, today);
  }

  lemma SplitKeeps(cfg: Config, w: World, all: seq<Entry>, plan: Plan)
    requires Sorts(cfg, w, all, plan.evicted + plan.kept)
    ensures WellKept(cfg, w, plan)
  {
    SoundSuffix(cfg, HashType(w), plan.evicted, plan.kept);
    OldestSplit(plan.evicted, plan.kept);
    forall e | e in plan.kept ensures Present(cfg, w.disk, e.name) { assert e in plan.evicted + plan.kept; }
    hide Sound, Oldest, Present;
  }

  lemma HasEither(a: seq<Entry>, b: seq<Entry>)
    ensures forall name :: Has(a + b, name) <==> Has(a, name) || Has(b, name)
  {
    assert forall e :: e in a + b <==> e in a || e in b;
  }

  lemma SoundSuffix(cfg: Config, hashType: string, a: seq<Entry>, b: seq<Entry>)
    requires Sound(cfg, hashType, a + b)
    ensures Sound(cfg, hashType, a) && Sound(cfg, hashType, b)
    ensures forall x, y :: x in a && y in b ==> x.name != y.name
  {
    hide Canonical;
    var all := a + b;
    assert forall i :: 0 <= i < |a| ==> all[i] == a[i];
    assert forall i :: 0 <= i < |b| ==> all[|a| + i] == b[i];
    forall i, j | 0 <= i < j < |b| ensures b[i].name != b[j].name { assert all[|a| + i].name != all[|a| + j].name; }
    forall x, y | x in a && y in b ensures x.name != y.name {
      var i :| 0 <= i < |a| && a[i] == x;
      var j :| 0 <= j < |b| && b[j] == y;
      assert all[i].name != all[|a| + j].name;
    }
  }

  lemma OldestSplit(a: seq<Entry>, b: seq<Entry>)
    requires Oldest(a + b)
    ensures forall x, y :: x in a && y in b ==> x.date <= y.date
  {
    forall x, y | x in a && y in b ensures x.date <= y.date {
      var i :| 0 <= i < |a| && a[i] == x;
      var j :| 0 <= j < |b| && b[j] == y;
      assert (a + b)[i].date <= (a + b)[|a| + j].date;
    }
  }

  // ---- The second run ----

  /** The file is there and no evicted entry's deletion covers it, or it is the record itself. */
  ghost predicate Remains(cfg: Config, w: World, plan: Plan, path: string) {
    (Exists(cfg, w.disk, path) && !Targets(plan.evicted, path)) || path == AuditPath(cfg)
  }

  /** A kept entry that names a file of this directory, of which the log or the archive remains. */
  ghost predicate Survives(cfg: Config, w: World, plan: Plan, e: Entry) {
    IsPlainPath(cfg, e.name) && (Remains(cfg, w, plan, e.name) || Remains(cfg, w, plan, e.name + ".gz"))
  }

  lemma DiskAfter(cfg: Config, w: World, plan: Plan, writtenAt: int, path: string)
    requires ConfigOk(cfg) && Inside(cfg, path)
    ensures Exists(cfg, Without(cfg, w.disk, plan.evicted)[AuditBase(cfg) := writtenAt], path)
            <==> Remains(cfg, w, plan, path)
  {
    assert path == cfg.dir + "/" + Item(cfg, path);
    assert AuditPath(cfg) == cfg.dir + "/" + AuditBase(cfg) by {
      assert AuditBase(cfg)[0] == '.' && |AuditBase(cfg)| > 2;
    }
    ItemOfJoin(cfg, AuditBase(cfg));
    hide AuditPath, AuditBase, Targets;
  }

  lemma ArchiveInside(cfg: Config, path: string)
    requires Inside(cfg, path)
    ensures Inside(cfg, path + ".gz")
  {
    assert (path + ".gz")[..|cfg.dir| + 1] == path[..|cfg.dir| + 1];
  }

  lemma PresentAfter(cfg: Config, w: World, plan: Plan, writtenAt: int, e: Entry)
    requires ConfigOk(cfg) && IsPlainPath(cfg, e.name)
    ensures Present(cfg, Without(cfg, w.disk, plan.evicted)[AuditBase(cfg) := writtenAt], e.name)
            <==> Survives(cfg, w, plan, e)
  {
    ArchiveInside(cfg, e.name);
    DiskAfter(cfg, w, plan, writtenAt, e.name);
    DiskAfter(cfg, w, plan, writtenAt, e.name + ".gz");
    hide Exists, Remains, Without, AuditBase;
  }

  /** Nothing depends on the order in which the directory is read. */
  lemma ChangesAnyOrder(cfg: Config, w: World, a: seq<string>, b: seq<string>)
    requires Lists(a, w.disk) && Lists(b, w.disk)
    ensures Changes(cfg, w, a) <==> Changes(cfg, w, b)
  {
    AdoptComplete(cfg, HashType(w), w.disk, Normalised(cfg, w), a);
    AdoptComplete(cfg, HashType(w), w.disk, Normalised(cfg, w), b);
    hide Adopt, Normalised, IsOrphan, SameNames, Matches, Has;
  }

  /** No orphan is left: whatever matches and was not deleted is recorded. */
  lemma NoOrphanLeft(cfg: Config, w: World, listing: seq<string>, today: string, item: string)
    requires ConfigOk(cfg) && Lists(listing, w.disk) && Matches(cfg, item)
    requires var plan := PlanFor(cfg, w, listing, today); item in Without(cfg, w.disk, plan.evicted)
    ensures Has(PlanFor(cfg, w, listing, today).kept, LogicalName(cfg, item))
  {
    var plan := PlanFor(cfg, w, listing, today);
    AdoptComplete(cfg, HashType(w), w.disk, Normalised(cfg, w), listing);
    assert Has(Adopted(cfg, w, listing), LogicalName(cfg, item));
    AdoptedSorts(cfg, w, listing);
    PlanSplits(cfg, w, listing, today);
    HasEither(plan.evicted, plan.kept);
    MatchedItem(cfg, item);
    EvictedIsDeleted(cfg, plan.evicted, item);
    hide Adopted, PlanFor, Matches, LogicalName, Sound, Oldest, Present, ByDate;
  }

  lemma EvictedIsDeleted(cfg: Config, evicted: seq<Entry>, item: string)
    requires item == WithoutGz(item) || item == WithoutGz(item) + ".gz"
    requires IsPlain(WithoutGz(item)) && !EndsWithGz(WithoutGz(item))
    ensures Has(evicted, LogicalName(cfg, item)) ==> Targets(evicted, cfg.dir + "/" + item)
  {
    var path := cfg.dir + "/" + item;
    assert LogicalName(cfg, item) == cfg.dir + "/" + WithoutGz(item);
    if item != WithoutGz(item) {
      assert EndsWithGz(path) && WithoutGz(path) == cfg.dir + "/" + WithoutGz(item);
    }
    hide Has;
  }

  lemma SettlesWhen(cfg: Config, w: World, listing: seq<string>, today: string, writtenAt: int, again: seq<string>)
    requires ConfigOk(cfg) && Lists(listing, w.disk) && Changes(cfg, w, listing)
    requires Lists(again, Heal(cfg, w, listing, today, writtenAt).disk)
    requires var plan := PlanFor(cfg, w, listing, today); forall e <- plan.kept :: Survives(cfg, w, plan, e)
    ensures !Changes(cfg, Heal(cfg, w, listing, today, writtenAt), again)
  {
    var plan := PlanFor(cfg, w, listing, today);
    var w' := Heal(cfg, w, listing, today, writtenAt);
    var kept, ht := plan.kept, HashType(w);
    WrittenRecord(cfg, w, listing, today);
    forall e | e in kept ensures IsPlainPath(cfg, e.name) && Present(cfg, w'.disk, e.name) {
      PresentAfter(cfg, w, plan, writtenAt, e);
    }
    FoldKeeps(cfg, ht, kept);
    ExistingPresent(cfg, w'.disk, kept);
    assert Normalised(cfg, w') == kept;
    forall item | item in again && Matches(cfg, item) ensures Has(kept, LogicalName(cfg, item)) {
      AuditIsNoLog(cfg);
      NoOrphanLeft(cfg, w, listing, today, item);
    }
    AdoptComplete(cfg, ht, w'.disk, kept, again);
    hide PlanFor, Normalised, Adopt, Matches, Has, LogicalName, Survives, Present, IsPlainPath, Sound, WellKept,
         Trimmed, Without;
  }

  /** Folding any sound record yields plain names only: the two directories are nobody's canonical form. */
  lemma FoldedIsPlain(cfg: Config, hashType: string, kept: seq<Entry>, e: Entry)
    requires ConfigOk(cfg) && Sound(cfg, hashType, kept) && e in Fold(cfg, hashType, kept)
    ensures IsPlainPath(cfg, e.name)
  {
    FoldFolds(cfg, hashType, kept);
    assert ComesFrom(cfg, hashType, e, kept);
    var o :| o in kept && Base(o.name) != "" && Seen(cfg, hashType, o) == e;
    assert Canonical(cfg, hashType, o);
    PathForKinds(cfg, o.name);
    if IsPlainPath(cfg, o.name) { PlainIsCanonical(cfg, o.name); }
    hide IsPlain, Fold;
  }

  lemma SettlesOnlyWhen(cfg: Config, w: World, listing: seq<string>, today: string, writtenAt: int, again: seq<string>,
                        e: Entry)
    requires ConfigOk(cfg) && Changes(cfg, w, listing)
    requires !Changes(cfg, Heal(cfg, w, listing, today, writtenAt), again)
    requires e in PlanFor(cfg, w, listing, today).kept
    ensures Survives(cfg, w, PlanFor(cfg, w, listing, today), e)
  {
    var plan := PlanFor(cfg, w, listing, today);
    var w' := Heal(cfg, w, listing, today, writtenAt);
    WrittenRecord(cfg, w, listing, today);
    var normalised := Normalised(cfg, w');
    assert SameNames(normalised, plan.kept);
    var i :| 0 <= i < |plan.kept| && plan.kept[i] == e;
    var n := normalised[i];
    assert n in normalised && n.name == e.name;
    ExistingPresent(cfg, w'.disk, Fold(cfg, HashType(w), plan.kept));
    FoldedIsPlain(cfg, HashType(w), plan.kept, n);
    PresentAfter(cfg, w, plan, writtenAt, e);
    hide PlanFor, Fold, Existing, Survives, Present, IsPlainPath, Sound, Trimmed, Without;
  }

  /**
    When the self-heal settles: after a run whose deletions succeed, a second run writes and deletes
    nothing if and only if the first wrote nothing, or every entry it kept names a file of this directory
    and still has its log or its archive once the evicted logs and archives are gone.
   */
  lemma SettlesIff(cfg: Config, w: World, listing: seq<string>, today: string, writtenAt: int, again: seq<string>)
    requires ConfigOk(cfg) && Lists(listing, w.disk)
    requires Lists(again, Heal(cfg, w, listing, today, writtenAt).disk)
    ensures var plan := PlanFor(cfg, w, listing, today);
            !Changes(cfg, Heal(cfg, w, listing, today, writtenAt), again)
            <==> !plan.changed || forall e <- plan.kept :: Survives(cfg, w, plan, e)
  {
    var plan := PlanFor(cfg, w, listing, today);
    if !plan.changed {
      ChangesAnyOrder(cfg, w, listing, again);
    } else {
      if forall e <- plan.kept :: Survives(cfg, w, plan, e) {
        SettlesWhen(cfg, w, listing, today, writtenAt, again);
      }
      if !Changes(cfg, Heal(cfg, w, listing, today, writtenAt), again) {
        forall e | e in plan.kept ensures Survives(cfg, w, plan, e) {
          SettlesOnlyWhen(cfg, w, listing, today, writtenAt, again, e);
        }
      }
    }
    hide Changes, Survives;
  }

  // ---- Records that settle, and records that do not ----

  /** Plain names of logs, not of archives. */
  ghost predicate NamesLogs(cfg: Config, files: seq<Entry>) {
    forall e <- files :: IsPlainPath(cfg, e.name) && !EndsWithGz(e.name)
  }

  lemma NormalisedNamesLogs(cfg: Config, w: World)
    requires ConfigOk(cfg) && forall o <- Files(w) :: !IsDot(Base(o.name)) && !EndsWithGz(Base(o.name))
    ensures NamesLogs(cfg, Normalised(cfg, w))
  {
    NormalisedSound(cfg, w);
    forall e | e in Normalised(cfg, w) ensures IsPlainPath(cfg, e.name) && !EndsWithGz(e.name) {
      var o :| o in Files(w) && Base(o.name) != "" && Seen(cfg, HashType(w), o) == e;
      PathForKinds(cfg, o.name);
      JoinedEnd(cfg.dir, Base(o.name));
    }
  }

  lemma AdoptedNamesLogs(cfg: Config, w: World, listing: seq<string>)
    requires ConfigOk(cfg) && NamesLogs(cfg, Normalised(cfg, w))
    ensures NamesLogs(cfg, Adopted(cfg, w, listing))
  {
    hide Normalised, Adopt, Present, IsPlainPath, EndsWithGz, ConfigOk, Canonical, Unique;
    var files, all := Normalised(cfg, w), Adopted(cfg, w, listing);
    AdoptAdopts(cfg, HashType(w), w.disk, files, listing);
    assert all == all[..|files|] + all[|files|..];
  }

  lemma PlanHolds(cfg: Config, w: World, listing: seq<string>, today: string, e: Entry)
    requires ConfigOk(cfg)
    requires var plan := PlanFor(cfg, w, listing, today); e in plan.evicted || e in plan.kept
    ensures e in Adopted(cfg, w, listing)
  {
    hide PlanFor, Adopted, ByDate, Sound, Oldest, Present, ConfigOk;
    AdoptedSorts(cfg, w, listing);
    PlanSplits(cfg, w, listing, today);
    var plan := PlanFor(cfg, w, listing, today);
    assert e in plan.evicted + plan.kept;
  }

  lemma PlanNamesLogs(cfg: Config, w: World, listing: seq<string>, today: string)
    requires ConfigOk(cfg) && forall o <- Files(w) :: !IsDot(Base(o.name)) && !EndsWithGz(Base(o.name))
    ensures var plan := PlanFor(cfg, w, listing, today); NamesLogs(cfg, plan.evicted) && NamesLogs(cfg, plan.kept)
  {
    hide PlanFor, Normalised, Adopted, Base, ConfigOk, IsDot, EndsWithGz, IsPlainPath;
    NormalisedNamesLogs(cfg, w);
    AdoptedNamesLogs(cfg, w, listing);
    var plan := PlanFor(cfg, w, listing, today);
    forall e | e in plan.evicted || e in plan.kept ensures IsPlainPath(cfg, e.name) && !EndsWithGz(e.name) {
      PlanHolds(cfg, w, listing, today, e);
    }
  }

  /** Among log names an eviction takes no other entry's files. */
  lemma LogsSurvive(cfg: Config, w: World, plan: Plan, e: Entry)
    requires NamesLogs(cfg, plan.evicted) && NamesLogs(cfg, plan.kept) && WellKept(cfg, w, plan) && e in plan.kept
    requires !IsDotPath(cfg, e.name + ".gz")
    ensures Survives(cfg, w, plan, e)
  {
    assert !Has(plan.evicted, e.name);
    var archive := e.name + ".gz";
    assert EndsWithGz(archive) && WithoutGz(archive) == e.name;
    assert !Has(plan.evicted, archive);
    hide Exists, IsPlainPath, Sound;
  }

  /**
    The self-heal settles after one run for every record whose entries end in an ordinary name that is not
    an archive's, whatever views they were written from, and for every directory.
   */
  lemma SettlesForLogNames(cfg: Config, w: World, listing: seq<string>, today: string, writtenAt: int,
                           again: seq<string>)
    requires ConfigOk(cfg) && Lists(listing, w.disk)
    requires Lists(again, Heal(cfg, w, listing, today, writtenAt).disk)
    requires forall o <- Files(w) :: !IsDot(Base(o.name)) && !EndsWithGz(Base(o.name))
    ensures !Changes(cfg, Heal(cfg, w, listing, today, writtenAt), again)
  {
    var plan := PlanFor(cfg, w, listing, today);
    PlanNamesLogs(cfg, w, listing, today);
    WrittenRecord(cfg, w, listing, today);
    forall e | e in plan.kept ensures Survives(cfg, w, plan, e) {
      assert |e.name| > |cfg.dir|;
      LogsSurvive(cfg, w, plan, e);
    }
    SettlesIff(cfg, w, listing, today, writtenAt, again);
    hide *;
  }

  /**
    An entry that ends in a dot name leads out of the directory: unless it is evicted, the run rewrites the
    record and so does the next one.
   */
  lemma DotEntryUnsettled(cfg: Config, w: World, listing: seq<string>, today: string, writtenAt: int,
                          again: seq<string>, o: Entry)
    requires ConfigOk(cfg) && Lists(listing, w.disk)
    requires Lists(again, Heal(cfg, w, listing, today, writtenAt).disk)
    requires o in Files(w) && IsDot(Base(o.name))
    requires Has(PlanFor(cfg, w, listing, today).kept, PathFor(cfg, Base(o.name)))
    ensures Changes(cfg, w, listing) && Changes(cfg, Heal(cfg, w, listing, today, writtenAt), again)
  {
    var plan := PlanFor(cfg, w, listing, today);
    DotEntryChanges(cfg, w, listing, o);
    PathForKinds(cfg, o.name);
    var e :| e in plan.kept && e.name == PathFor(cfg, Base(o.name));
    assert !Survives(cfg, w, plan, e);
    SettlesIff(cfg, w, listing, today, writtenAt, again);
    hide *;
  }

  lemma DotEntryChanges(cfg: Config, w: World, listing: seq<string>, o: Entry)
    requires ConfigOk(cfg) && o in Files(w) && IsDot(Base(o.name))
    ensures Changes(cfg, w, listing)
  {
    var normalised := Normalised(cfg, w);
    NormalisedSound(cfg, w);
    var i :| 0 <= i < |Files(w)| && Files(w)[i] == o;
    if |normalised| == |Files(w)| {
      var n := normalised[i];
      assert n in normalised && Canonical(cfg, HashType(w), n);
      if IsPlainPath(cfg, n.name) { PlainIsCanonical(cfg, n.name); }
      assert n.name != o.name;
    }
    hide Normalised;
  }

  /** Such an entry is kept whenever nothing is evicted. */
  lemma DotEntryKept(cfg: Config, w: World, listing: seq<string>, today: string, o: Entry)
    requires ConfigOk(cfg) && o in Files(w) && IsDot(Base(o.name)) && PlanFor(cfg, w, listing, today).evicted == []
    ensures Has(PlanFor(cfg, w, listing, today).kept, PathFor(cfg, Base(o.name)))
  {
    var plan := PlanFor(cfg, w, listing, today);
    var folded := Fold(cfg, HashType(w), Files(w));
    NormalisedSound(cfg, w);
    assert Represented(cfg, o, folded);
    var e :| e in folded && e.name == PathFor(cfg, Base(o.name));
    PathForKinds(cfg, o.name);
    assert Present(cfg, w.disk, e.name);
    ExistingPresent(cfg, w.disk, folded);
    AdoptAdopts(cfg, HashType(w), w.disk, Normalised(cfg, w), listing);
    AdoptedSorts(cfg, w, listing);
    PlanSplits(cfg, w, listing, today);
    hide Fold, PlanFor, ByDate, Adopt, Existing, Sound, Oldest, Present;
    var all := Adopted(cfg, w, listing);
    assert e in all[..|Normalised(cfg, w)|];
    assert e in plan.evicted + plan.kept;
  }

  /** A kept entry that names an archive loses its file when the archive's log is evicted. */
  lemma ArchiveEntryUnsettled(cfg: Config, w: World, listing: seq<string>, today: string, writtenAt: int,
                              again: seq<string>, log: Entry, archive: Entry)
    requires ConfigOk(cfg) && Lists(listing, w.disk)
    requires Lists(again, Heal(cfg, w, listing, today, writtenAt).disk)
    requires var plan := PlanFor(cfg, w, listing, today); plan.changed && log in plan.evicted && archive in plan.kept
    requires archive.name == log.name + ".gz" && !Exists(cfg, w.disk, archive.name + ".gz")
    requires archive.name != AuditPath(cfg) && archive.name + ".gz" != AuditPath(cfg)
    ensures Changes(cfg, Heal(cfg, w, listing, today, writtenAt), again)
  {
    var plan := PlanFor(cfg, w, listing, today);
    assert EndsWithGz(archive.name) && WithoutGz(archive.name) == log.name;
    assert Has(plan.evicted, log.name);
    assert !Survives(cfg, w, plan, archive);
    SettlesIff(cfg, w, listing, today, writtenAt, again);
    hide *;
  }

  // ---- A record that does not settle ----

  /** A log and its archive, each recorded as a log of its own; only the archive is there. */
  function StaleLog(cfg: Config): Entry { NewEntry("sha256", cfg.dir + "/" + ".x", 1) }

  function StaleArchive(cfg: Config): Entry { NewEntry("sha256", cfg.dir + "/" + ".x.gz", 2) }

  function StaleWorld(cfg: Config): World {
    World(Some(Audit(false, "", [StaleLog(cfg), StaleArchive(cfg)], "sha256")), map[".x.gz" := 0])
  }

  lemma Joined(path: string, base: string, end: string, name: string)
    requires base + end == name
    ensures path + base + end == path + name
  {
  }

  lemma StaleNames(cfg: Config)
    requires ConfigOk(cfg)
    ensures IsPlainPath(cfg, StaleLog(cfg).name) && IsPlainPath(cfg, StaleArchive(cfg).name)
    ensures StaleArchive(cfg).name == StaleLog(cfg).name + ".gz"
    ensures Item(cfg, StaleArchive(cfg).name) == ".x.gz"
    ensures Inside(cfg, StaleArchive(cfg).name + ".gz") && Item(cfg, StaleArchive(cfg).name + ".gz") == ".x.gz.gz"
  {
    hide Inside, Item;
    ItemOfJoin(cfg, ".x");
    ItemOfJoin(cfg, ".x.gz");
    assert ".x.gz" + ".gz" == ".x.gz.gz";
    Joined(cfg.dir + "/", ".x", ".gz", ".x.gz");
  }

  lemma StaleIsNoLog(cfg: Config)
    requires ConfigOk(cfg)
    ensures !Matches(cfg, ".x.gz")
  {
    assert ".x.gz"[..2] == ".x";
    var n := |cfg.prefix|;
    assert n <= 2 ==> ".x"[..n][0] == '.';
    assert n <= 5 ==> ".x.gz"[..n][0] == '.';
  }

  /** Nothing about the stale record is dropped or added, and the log is evicted first. */
  lemma StalePlan(cfg: Config, today: string)
    requires ConfigOk(cfg) && cfg.maxFiles == 2
    ensures PlanFor(cfg, StaleWorld(cfg), [".x.gz"], today) == Plan(true, [StaleArchive(cfg)], [StaleLog(cfg)])
  {
    hide Normalised, Adopt, ByDate, Has, Matches, PathFor, TodayBase, AuditPath, ConfigOk, StaleLog, StaleArchive;
    var w, files := StaleWorld(cfg), [StaleLog(cfg), StaleArchive(cfg)];
    StaleIsNoLog(cfg);
    StaleNormalised(cfg);
    AdoptComplete(cfg, "sha256", w.disk, files, [".x.gz"]);
    assert Adopted(cfg, w, [".x.gz"]) == files;
    StaleSorted(cfg);
    TodayIsOther(cfg, today);
    StaleMoves(cfg);
  }

  lemma StaleMoves(cfg: Config)
    requires ConfigOk(cfg)
    ensures AuditPath(cfg) != ""
  {
    hide ConfigOk, TodayBase;
    AuditIsLonger(cfg);
  }

  lemma StalePresent(cfg: Config)
    requires ConfigOk(cfg)
    ensures forall e <- [StaleLog(cfg), StaleArchive(cfg)] :: Present(cfg, StaleWorld(cfg).disk, e.name)
  {
    hide Inside, Item, IsPlain, ConfigOk;
    StaleNames(cfg);
  }

  lemma StaleNormalised(cfg: Config)
    requires ConfigOk(cfg)
    ensures Normalised(cfg, StaleWorld(cfg)) == [StaleLog(cfg), StaleArchive(cfg)]
  {
    hide Fold, Existing, Present, Base, PathFor;
    var files := [StaleLog(cfg), StaleArchive(cfg)];
    StaleNames(cfg);
    assert Sound(cfg, "sha256", files);
    FoldKeeps(cfg, "sha256", files);
    StalePresent(cfg);
    ExistingPresent(cfg, StaleWorld(cfg).disk, files);
  }

  lemma StaleSorted(cfg: Config)
    ensures ByDate([StaleLog(cfg), StaleArchive(cfg)]) == [StaleLog(cfg), StaleArchive(cfg)]
  {
    var a, b := StaleLog(cfg), StaleArchive(cfg);
    assert [a, b][..1] == [a] && [a][..0] == [];
    assert ByDate([a]) == [] + [a];
    assert ByDate([a, b]) == InsertByDate([a], b);
  }

  lemma TodayIsOther(cfg: Config, today: string)
    requires ConfigOk(cfg)
    ensures !Has([StaleLog(cfg), StaleArchive(cfg)], PathFor(cfg, TodayBase(cfg, today)))
  {
    var base, path := TodayBase(cfg, today), PathFor(cfg, TodayBase(cfg, today));
    assert base[0] == cfg.prefix[0] != '.';
    assert path == cfg.dir + "/" + base;
    assert path[|cfg.dir| + 1] == base[0];
    assert StaleLog(cfg).name[|cfg.dir| + 1] == '.' && StaleArchive(cfg).name[|cfg.dir| + 1] == '.';
  }

  /** For every directory, with two logs to keep: a record on which the run never rests the first time. */
  lemma StaleRecordUnsettled(cfg: Config, today: string, writtenAt: int, again: seq<string>)
    requires ConfigOk(cfg) && cfg.maxFiles == 2
    requires Lists(again, Heal(cfg, StaleWorld(cfg), [".x.gz"], today, writtenAt).disk)
    ensures Changes(cfg, Heal(cfg, StaleWorld(cfg), [".x.gz"], today, writtenAt), again)
  {
    hide Heal, Changes, PlanFor, AuditPath, ConfigOk, Inside, Item, IsPlainPath, StaleLog, StaleArchive;
    StalePlan(cfg, today);
    StaleNames(cfg);
    AuditIsLonger(cfg);
    StaleAway(cfg);
    ArchiveEntryUnsettled(cfg, StaleWorld(cfg), [".x.gz"], today, writtenAt, again, StaleLog(cfg), StaleArchive(cfg));
  }

  lemma StaleAway(cfg: Config)
    requires ConfigOk(cfg)
    ensures Lists([".x.gz"], StaleWorld(cfg).disk)
    ensures !Exists(cfg, StaleWorld(cfg).disk, StaleArchive(cfg).name + ".gz")
  {
    hide Inside, Item, IsPlainPath, ConfigOk;
    StaleNames(cfg);
    StaleNoDirectory(cfg);
  }

  lemma StaleNoDirectory(cfg: Config)
    requires ConfigOk(cfg)
    ensures StaleArchive(cfg).name + ".gz" != cfg.dir && StaleArchive(cfg).name + ".gz" != cfg.parent
  {
    hide Base, IsDot;
    assert |StaleArchive(cfg).name + ".gz"| > |cfg.dir| > |cfg.parent|;
  }

  lemma AuditIsLonger(cfg: Config)
    requires ConfigOk(cfg)
    ensures |AuditPath(cfg)| > |StaleArchive(cfg).name + ".gz"|
  {
    assert |AuditBase(cfg)| >= 12 && AuditBase(cfg)[0] == '.';
  }
}
