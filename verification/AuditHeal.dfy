/**
  The audit self-heal of a rotated log: bring every recorded entry to this process's view of the log
  directory, adopt the logs nobody records, trim to the limit, and write only if something changed.
 */
module AuditHeal {
  import opened Options
  import opened AuditNames

  /** The library's entry hash, injective in what it covers. */
  datatype Digest = Digest(hashType: string, name: string, date: int)

  datatype Entry = Entry(name: string, date: int, hash: Digest)

  /** `keepsDays` is set when the record keeps logs by age, not by number. */
  datatype Audit = Audit(keepsDays: bool, auditLog: string, files: seq<Entry>, hashType: string)

  /** The parsed audit file, if there is one (a damaged one has been deleted), and the directory. */
  datatype World = World(audit: Option<Audit>, disk: Disk)

  function AuditPath(cfg: Config): string { PathFor(cfg, AuditBase(cfg)) }

  function Files(w: World): seq<Entry> { if w.audit.Some? then w.audit.value.files else [] }

  function HashType(w: World): string { if w.audit.Some? then w.audit.value.hashType else "sha256" }

  function NewEntry(hashType: string, name: string, date: int): Entry {
    Entry(name, date, Digest(hashType, name, date))
  }

  // ---- Normalising ----

  predicate Has(files: seq<Entry>, name: string) { exists e <- files :: e.name == name }

  /** A new name goes to the end; a known one keeps its place and takes the later date. */
  function Upsert(files: seq<Entry>, e: Entry): seq<Entry> {
    if files == [] then [e]
    else
      var init, last := files[..|files| - 1], files[|files| - 1];
      if last.name == e.name then init + [if e.date <= last.date then last else e]
      else if Has(init, e.name) then Upsert(init, e) + [last]
      else files + [e]
  }

  /** One entry per logical name. */
  function Fold(cfg: Config, hashType: string, files: seq<Entry>): seq<Entry> {
    if files == [] then []
    else
      var rest := Fold(cfg, hashType, files[..|files| - 1]);
      var e := files[|files| - 1];
      var base := Base(e.name);
      if base == "" then rest else Upsert(rest, NewEntry(hashType, PathFor(cfg, base), e.date))
  }

  predicate Present(cfg: Config, disk: Disk, name: string) {
    Exists(cfg, disk, name) || Exists(cfg, disk, name + ".gz")
  }

  /** The entries of which the log or its archive is there. */
  function Existing(cfg: Config, disk: Disk, files: seq<Entry>): seq<Entry> {
    if files == [] then []
    else
      var rest := Existing(cfg, disk, files[..|files| - 1]);
      if Present(cfg, disk, files[|files| - 1].name) then rest + [files[|files| - 1]] else rest
  }

  function Normalised(cfg: Config, w: World): seq<Entry> {
    Existing(cfg, w.disk, Fold(cfg, HashType(w), Files(w)))
  }

  predicate SameNames(a: seq<Entry>, b: seq<Entry>) {
    |a| == |b| && forall i :: 0 <= i < |a| ==> a[i].name == b[i].name
  }

  // ---- Adopting ----

  function LogicalName(cfg: Config, item: string): string { PathFor(cfg, WithoutGz(item)) }

  predicate IsOrphan(cfg: Config, files: seq<Entry>, item: string) {
    Matches(cfg, item) && !Has(files, LogicalName(cfg, item))
  }

  ghost predicate Lists(listing: seq<string>, disk: Disk) {
    forall item :: item in listing <==> item in disk
  }

  function Adopt(cfg: Config, hashType: string, disk: Disk, files: seq<Entry>, listing: seq<string>): seq<Entry> {
    if listing == [] then files
    else
      var rest := Adopt(cfg, hashType, disk, files, listing[..|listing| - 1]);
      var item := listing[|listing| - 1];
      if item in disk && IsOrphan(cfg, rest, item)
      then rest + [NewEntry(hashType, LogicalName(cfg, item), disk[item])] else rest
  }

  // ---- Trimming ----

  function InsertByDate(files: seq<Entry>, e: Entry): (sorted: seq<Entry>)
    ensures |sorted| == |files| + 1
  {
    if files == [] || files[|files| - 1].date <= e.date then files + [e]
    else InsertByDate(files[..|files| - 1], e) + [files[|files| - 1]]
  }

  /** Oldest first, equal dates in their order. */
  function ByDate(files: seq<Entry>): (sorted: seq<Entry>)
    ensures |sorted| == |files|
  {
    if files == [] then [] else InsertByDate(ByDate(files[..|files| - 1]), files[|files| - 1])
  }

  /** How many entries may stay: one place is kept free for today's log if it is not among them. */
  function Limit(cfg: Config, files: seq<Entry>, today: string): int {
    if Has(files, PathFor(cfg, TodayBase(cfg, today))) then cfg.maxFiles else cfg.maxFiles - 1
  }

  function EvictedCount(cfg: Config, w: World, files: seq<Entry>, today: string): (n: nat)
    requires ConfigOk(cfg)
    ensures n <= |files|
  {
    var limit := Limit(cfg, files, today);
    if (w.audit.Some? && w.audit.value.keepsDays) || |files| <= limit then 0 else |files| - limit
  }

  /** Every file of these entries, with the archives. */
  predicate Targets(files: seq<Entry>, path: string) {
    Has(files, path) || (EndsWithGz(path) && Has(files, WithoutGz(path)))
  }

  /** The directory without them; a directory is not deleted. */
  function Without(cfg: Config, disk: Disk, evicted: seq<Entry>): Disk {
    map item | item in disk && !Targets(evicted, cfg.dir + "/" + item) :: disk[item]
  }

  // ---- The whole run ----

  datatype Plan = Plan(changed: bool, kept: seq<Entry>, evicted: seq<Entry>)

  function Adopted(cfg: Config, w: World, listing: seq<string>): seq<Entry> {
    Adopt(cfg, HashType(w), w.disk, Normalised(cfg, w), listing)
  }

  predicate Changes(cfg: Config, w: World, listing: seq<string>) {
    || (w.audit.Some? && w.audit.value.auditLog != AuditPath(cfg))
    || !SameNames(Normalised(cfg, w), Files(w))
    || |Adopted(cfg, w, listing)| > |Normalised(cfg, w)|
  }

  function PlanFor(cfg: Config, w: World, listing: seq<string>, today: string): Plan
    requires ConfigOk(cfg)
  {
    var all := Adopted(cfg, w, listing);
    var n := EvictedCount(cfg, w, all, today);
    Plan(Changes(cfg, w, listing), ByDate(all)[n..], ByDate(all)[..n])
  }

  /** The run: nothing, or delete the evicted files and write the record. */
  function Heal(cfg: Config, w: World, listing: seq<string>, today: string, writtenAt: int): World
    requires ConfigOk(cfg)
  {
    var plan := PlanFor(cfg, w, listing, today);
    if !plan.changed then w
    else World(Some(Audit(w.audit.Some? && w.audit.value.keepsDays, AuditPath(cfg), plan.kept, HashType(w))),
               Without(cfg, w.disk, plan.evicted)[AuditBase(cfg) := writtenAt])
  }
}
