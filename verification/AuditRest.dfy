/**
  Which records and directories the self-heal leaves alone, said without the steps of a run.
 */
module AuditRest {
  import opened Options
  import opened AuditNames
  import opened AuditHeal
  import opened AuditRecords
  import opened AuditConvergence

  /**
    Nothing is to be done: the record, if there is one, points to itself; its entries have different names,
    which are paths of ordinary files of this directory whose log or archive is there; and every log that is
    there, archived or not, is recorded.
   */
  ghost predicate AtRest(cfg: Config, w: World) {
    && (w.audit.Some? ==>
          w.audit.value.auditLog == cfg.dir + "/" + ("." + cfg.prefix + "audit" + cfg.suffix + ".json"))
    && (forall i, j :: 0 <= i < j < |Files(w)| ==> Files(w)[i].name != Files(w)[j].name)
    && (forall e <- Files(w) ::
          IsPlainPath(cfg, e.name) && (Exists(cfg, w.disk, e.name) || Exists(cfg, w.disk, e.name + ".gz")))
    && (forall item :: item in w.disk && Rotated(cfg, item) ==>
          exists e <- Files(w) :: e.name == cfg.dir + "/" + WithoutGz(item))
  }

  lemma AuditPathIs(cfg: Config)
    ensures AuditPath(cfg) == cfg.dir + "/" + ("." + cfg.prefix + "audit" + cfg.suffix + ".json")
  {
    var base := AuditBase(cfg);
    assert base == "." + cfg.prefix + "audit" + cfg.suffix + ".json" && |base| > 2;
  }

  // ---- A record at rest is folded to its own names ----

  lemma {:induction false} FoldNames(cfg: Config, hashType: string, files: seq<Entry>)
    requires ConfigOk(cfg) && Unique(files) && forall e <- files :: IsPlainPath(cfg, e.name)
    ensures SameNames(Fold(cfg, hashType, files), files)
  {
    hide IsPlainPath, Base, PathFor, Upsert, Unique, ConfigOk;
    if files != [] {
      var init, last := files[..|files| - 1], files[|files| - 1];
      assert last in files && forall e <- init :: e in files;
      UniqueLast(files);
      FoldNames(cfg, hashType, init);
      PlainStays(cfg, last.name);
      var folded := Fold(cfg, hashType, init);
      SameHas(folded, init, last.name);
      UpsertNew(folded, NewEntry(hashType, PathFor(cfg, Base(last.name)), last.date));
    }
  }

  lemma PlainStays(cfg: Config, name: string)
    requires ConfigOk(cfg) && IsPlainPath(cfg, name)
    ensures Base(name) != "" && PathFor(cfg, Base(name)) == name
  {
    PlainIsCanonical(cfg, name);
  }

  lemma SameHas(a: seq<Entry>, b: seq<Entry>, name: string)
    requires SameNames(a, b)
    ensures Has(a, name) <==> Has(b, name)
  {
    if e :| e in a && e.name == name {
      var i :| 0 <= i < |a| && a[i] == e;
      assert b[i] in b;
    }
    if e :| e in b && e.name == name {
      var i :| 0 <= i < |b| && b[i] == e;
      assert a[i] in a;
    }
  }

  lemma NormalisedNames(cfg: Config, w: World)
    requires ConfigOk(cfg) && Unique(Files(w))
    requires forall e <- Files(w) :: IsPlainPath(cfg, e.name) && Present(cfg, w.disk, e.name)
    ensures SameNames(Normalised(cfg, w), Files(w))
  {
    hide IsPlainPath, Present, Unique, ConfigOk, Fold, Existing;
    var folded := Fold(cfg, HashType(w), Files(w));
    FoldNames(cfg, HashType(w), Files(w));
    forall e | e in folded ensures Present(cfg, w.disk, e.name) {
      var i :| 0 <= i < |folded| && folded[i] == e;
      assert Files(w)[i] in Files(w);
    }
    ExistingPresent(cfg, w.disk, folded);
  }

  // ---- A record that keeps its names is at rest ----

  lemma KeptNamesAreSound(cfg: Config, w: World, listing: seq<string>)
    requires ConfigOk(cfg) && !Changes(cfg, w, listing)
    ensures Unique(Files(w)) && forall e <- Files(w) :: IsPlainPath(cfg, e.name) && Present(cfg, w.disk, e.name)
  {
    hide Normalised, Adopt, Present, Base, PathFor;
    var normalised := Normalised(cfg, w);
    NormalisedSound(cfg, w);
    forall e | e in Files(w) ensures IsPlainPath(cfg, e.name) && Present(cfg, w.disk, e.name) {
      var i :| 0 <= i < |Files(w)| && Files(w)[i] == e;
      var n := normalised[i];
      assert n in normalised && n.name == e.name;
      NoDotName(cfg, w, listing, n);
    }
    forall i, j | 0 <= i < j < |Files(w)| ensures Files(w)[i].name != Files(w)[j].name {
      assert normalised[i].name != normalised[j].name;
    }
  }

  lemma NoDotName(cfg: Config, w: World, listing: seq<string>, n: Entry)
    requires ConfigOk(cfg) && !Changes(cfg, w, listing) && ComesFrom(cfg, HashType(w), n, Files(w))
    ensures IsPlainPath(cfg, n.name)
  {
    hide Changes, IsPlainPath, Base, PathFor, ConfigOk;
    var o :| o in Files(w) && Base(o.name) != "" && Seen(cfg, HashType(w), o) == n;
    if IsDot(Base(o.name)) { DotEntryChanges(cfg, w, listing, o); }
    PathForKinds(cfg, o.name);
  }

  /** A listed log is an orphan exactly when its name is not recorded. */
  lemma OrphanIs(cfg: Config, files: seq<Entry>, item: string)
    requires ConfigOk(cfg)
    ensures IsOrphan(cfg, files, item)
       <==> Rotated(cfg, item) && !exists e <- files :: e.name == cfg.dir + "/" + WithoutGz(item)
  {
    MatchesPattern(cfg, item);
    if Matches(cfg, item) {
      MatchedItem(cfg, item);
      assert LogicalName(cfg, item) == cfg.dir + "/" + WithoutGz(item);
    }
    hide Matches, Rotated, ConfigOk, WithoutGz;
  }

  /** A run has nothing to write and nothing to delete exactly when the record and the directory are at rest. */
  lemma RestsIff(cfg: Config, w: World, listing: seq<string>)
    requires ConfigOk(cfg) && Lists(listing, w.disk)
    ensures !Changes(cfg, w, listing) <==> AtRest(cfg, w)
  {
    hide Normalised, Adopt, IsPlainPath, Exists, IsOrphan, Rotated, ConfigOk, WithoutGz, AuditPath;
    var normalised := Normalised(cfg, w);
    AuditPathIs(cfg);
    AdoptComplete(cfg, HashType(w), w.disk, normalised, listing);
    if SameNames(normalised, Files(w)) {
      forall item ensures IsOrphan(cfg, normalised, item)
                          <==> Rotated(cfg, item) && !exists e <- Files(w) :: e.name == cfg.dir + "/" + WithoutGz(item)
      {
        OrphanIs(cfg, normalised, item);
        SameHas(normalised, Files(w), cfg.dir + "/" + WithoutGz(item));
      }
    }
    if AtRest(cfg, w) {
      NormalisedNames(cfg, w);
    }
    if !Changes(cfg, w, listing) {
      KeptNamesAreSound(cfg, w, listing);
    }
  }
}
