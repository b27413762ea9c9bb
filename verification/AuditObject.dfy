/**
  The self-heal as it runs: the loops over the record and the directory, and the deletions in place.
 */
module AuditObject {
  import opened Options
  import opened AuditNames
  import opened AuditHeal
  import AuditConvergence

  /** The directory without one file. */
  function Unlinked(cfg: Config, disk: Disk, path: string): Disk {
    map item | item in disk && cfg.dir + "/" + item != path :: disk[item]
  }

  lemma WithoutMore(cfg: Config, disk: Disk, evicted: seq<Entry>, e: Entry)
    ensures Without(cfg, disk, evicted + [e])
            == Unlinked(cfg, Unlinked(cfg, Without(cfg, disk, evicted), e.name), e.name + ".gz")
  {
    forall item ensures Targets(evicted + [e], cfg.dir + "/" + item)
                        <==> Targets(evicted, cfg.dir + "/" + item)
                             || cfg.dir + "/" + item == e.name || cfg.dir + "/" + item == e.name + ".gz" {
      var path := cfg.dir + "/" + item;
      AuditConvergence.HasMore(evicted, e, path);
      AuditConvergence.HasMore(evicted, e, WithoutGz(path));
      assert (e.name + ".gz")[..|e.name|] == e.name;
      hide Has;
      assert EndsWithGz(path) ==> path == path[..|path| - 3] + ".gz";
    }
    hide Targets;
  }

  class LogDirectory {
    const cfg: Config
    var audit: Option<Audit>
    var disk: Disk

    function Current(): World
      reads this
    {
      World(audit, disk)
    }

    constructor (cfg: Config, audit: Option<Audit>, disk: Disk)
      ensures this.cfg == cfg && Current() == World(audit, disk)
    {
      this.cfg, this.audit, this.disk := cfg, audit, disk;
    }

    /** Rewrite every entry to this directory's view, keep the latest of each name, drop what is gone. */
    method Normalise(hashType: string, files: seq<Entry>) returns (normalised: seq<Entry>)
      ensures normalised == Existing(cfg, disk, Fold(cfg, hashType, files))
    {
      hide PathFor, Base, Upsert, Present;
      var byName := [];
      for i := 0 to |files|
        invariant byName == Fold(cfg, hashType, files[..i])
      {
        assert files[..i + 1][..i] == files[..i];
        var base := Base(files[i].name);
        if base != "" {
          byName := Upsert(byName, NewEntry(hashType, PathFor(cfg, base), files[i].date));
        }
      }
      assert files[..|files|] == files;
      normalised := [];
      for i := 0 to |byName|
        invariant normalised == Existing(cfg, disk, byName[..i])
      {
        assert byName[..i + 1][..i] == byName[..i];
        if Present(cfg, disk, byName[i].name) {
          normalised := normalised + [byName[i]];
        }
      }
      assert byName[..|byName|] == byName;
    }

    method AdoptOrphans(hashType: string, files: seq<Entry>, listing: seq<string>) returns (all: seq<Entry>)
      requires Lists(listing, disk)
      ensures all == Adopt(cfg, hashType, disk, files, listing)
    {
      hide IsOrphan, LogicalName;
      all := files;
      for i := 0 to |listing|
        invariant all == Adopt(cfg, hashType, disk, files, listing[..i])
      {
        assert listing[..i + 1][..i] == listing[..i];
        var item := listing[i];
        assert item in listing;
        if IsOrphan(cfg, all, item) {
          all := all + [NewEntry(hashType, LogicalName(cfg, item), disk[item])];
        }
      }
      assert listing[..|listing|] == listing;
    }

    method Unlink(path: string)
      modifies `disk
      ensures disk == Unlinked(cfg, old(disk), path)
    {
      if Inside(cfg, path) && Item(cfg, path) in disk {
        disk := disk - {Item(cfg, path)};
      }
      assert Inside(cfg, path) ==> path == cfg.dir + "/" + Item(cfg, path);
      assert forall item :: cfg.dir + "/" + item == path ==> Inside(cfg, path) && Item(cfg, path) == item;
    }

    /** Take entries from the old end until the rest fits, and delete each one's log and archive. */
    method Trim(sorted: seq<Entry>, limit: nat) returns (kept: seq<Entry>)
      modifies `disk
      ensures var n := if |sorted| <= limit then 0 else |sorted| - limit;
              kept == sorted[n..] && disk == Without(cfg, old(disk), sorted[..n])
    {
      kept := sorted;
      ghost var n := 0;
      NothingEvicted();
      while |kept| > limit
        invariant 0 <= n <= |sorted| && kept == sorted[n..] && (n > 0 ==> |kept| >= limit)
        invariant disk == Without(cfg, old(disk), sorted[..n])
      {
        var evicted := kept[0];
        WithoutMore(cfg, old(disk), sorted[..n], evicted);
        assert sorted[..n] + [evicted] == sorted[..n + 1];
        Unlink(evicted.name);
        Unlink(evicted.name + ".gz");
        kept, n := kept[1..], n + 1;
      }
    }

    lemma NothingEvicted()
      ensures Without(cfg, disk, []) == disk
    {
    }

    /** What the record should hold, and whether anything about it is new. */
    method Survey(listing: seq<string>) returns (changed: bool, files: seq<Entry>)
      requires Lists(listing, disk)
      ensures changed == Changes(cfg, Current(), listing) && files == Adopted(cfg, Current(), listing)
    {
      var recorded := Files(Current());
      var normalised := Normalise(HashType(Current()), recorded);
      files := AdoptOrphans(HashType(Current()), normalised, listing);
      hide Existing, Fold, Adopt, AuditPath, SameNames;
      changed := (audit.Some? && audit.value.auditLog != AuditPath(cfg))
                 || !SameNames(normalised, recorded) || |files| > |normalised|;
    }

    /** Sort, trim and write. */
    method Rewrite(files: seq<Entry>, today: string, writtenAt: int)
      requires ConfigOk(cfg) && |ByDate(files)| == |files|
      modifies this
      ensures var n := EvictedCount(cfg, old(Current()), files, today);
              Current() == World(Some(Audit(AuditConvergence.KeepsDays(old(Current())), AuditPath(cfg),
                                            ByDate(files)[n..], HashType(old(Current())))),
                                 Without(cfg, old(disk), ByDate(files)[..n])[AuditBase(cfg) := writtenAt])
    {
      hide ByDate, Without, AuditPath, AuditBase, Has, PathFor, TodayBase;
      var sorted := ByDate(files);
      var hashType, keepsDays := HashType(Current()), audit.Some? && audit.value.keepsDays;
      if keepsDays {
        NothingEvicted();
        assert sorted[0..] == sorted && sorted[..0] == [];
      } else {
        sorted := Trim(sorted, Limit(cfg, files, today));
      }
      audit := Some(Audit(keepsDays, AuditPath(cfg), sorted, hashType));
      disk := disk[AuditBase(cfg) := writtenAt];
    }

    /** One run, given the directory as it is read, today's date and the time of the write. */
    method HealAuditFile(listing: seq<string>, today: string, writtenAt: int) returns (wrote: bool)
      requires ConfigOk(cfg) && Lists(listing, disk)
      modifies this
      ensures wrote == Changes(cfg, old(Current()), listing)
      ensures Current() == Heal(cfg, old(Current()), listing, today, writtenAt)
    {
      hide Adopted, ByDate, Without, Changes, EvictedCount, AuditPath, AuditBase, HashType;
      ghost var w := Current();
      var changed, files := Survey(listing);
      if !changed { return false; }
      AuditConvergence.AdoptedSorts(cfg, w, listing);
      hide AuditConvergence.Sorts;
      Rewrite(files, today, writtenAt);
      return true;
    }
  }
}
