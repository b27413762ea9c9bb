/**
  File names and paths as the audit self-heal sees them: last components across both separators, the
  rotator's naming pattern, and the log directory's listing.
 */
module AuditNames {
  /**
    The log directory, its parent, the fixed parts of the rotated names around the date, and how many
    logs to keep.
   */
  datatype Config = Config(dir: string, parent: string, prefix: string, suffix: string, maxFiles: int)

  predicate IsSeparator(c: char) { c == '/' || c == '\\' }

  predicate IsPlain(base: string) {
    base != "" && base != "." && base != ".." && forall c <- base :: !IsSeparator(c)
  }

  /** The directory is an absolute path and the rotated names are ordinary file names. */
  ghost predicate ConfigOk(cfg: Config) {
    && |cfg.parent| < |cfg.dir| && !IsDot(Base(cfg.dir)) && !IsDot(Base(cfg.parent))
    && cfg.prefix != "" && cfg.prefix[0] != '.'
    && (forall c <- cfg.prefix :: !IsSeparator(c)) && (forall c <- cfg.suffix :: !IsSeparator(c))
    && !EndsWithGz(cfg.suffix)
    && cfg.maxFiles >= 1
  }

  predicate IsDot(base: string) { base == "." || base == ".." }

  /** What follows the last separator of either kind. */
  function Base(name: string): string {
    if name == "" || IsSeparator(name[|name| - 1]) then "" else Base(name[..|name| - 1]) + [name[|name| - 1]]
  }

  /** The path of a last component in this directory; the two dot names lead out of it. */
  function PathFor(cfg: Config, base: string): string {
    if base == "." then cfg.dir else if base == ".." then cfg.parent else cfg.dir + "/" + base
  }

  lemma {:induction false} BaseOfJoin(front: string, base: string)
    requires forall c <- base :: !IsSeparator(c)
    ensures Base(front + "/" + base) == base
  {
    var name := front + "/" + base;
    if base == "" {
      assert name[|name| - 1] == '/';
    } else {
      var init := base[..|base| - 1];
      assert name[..|name| - 1] == front + "/" + init && name[|name| - 1] == base[|base| - 1];
      BaseOfJoin(front, init);
    }
  }

  lemma {:induction false} BaseHasNoSeparator(name: string)
    ensures forall c <- Base(name) :: !IsSeparator(c)
  {
    if name != "" && !IsSeparator(name[|name| - 1]) { BaseHasNoSeparator(name[..|name| - 1]); }
  }

  /** The last component is what remains behind the last separator of either kind. */
  lemma {:induction false} BaseIsLast(name: string)
    ensures |Base(name)| <= |name|
    ensures var n := |name| - |Base(name)|;
            && name[n..] == Base(name) && (n > 0 ==> name[n - 1] == '/' || name[n - 1] == '\\')
            && (forall c <- Base(name) :: c != '/' && c != '\\')
  {
    if name != "" && !IsSeparator(name[|name| - 1]) {
      var init, last := name[..|name| - 1], name[|name| - 1];
      BaseIsLast(init);
      var n := |init| - |Base(init)|;
      assert name[n..] == init[n..] + [last];
    }
  }

  // ---- The rotator's names ----

  predicate IsDigit(c: char) { '0' <= c <= '9' }

  predicate IsDate(s: string) {
    |s| == 10 && s[4] == '-' && s[7] == '-' && forall i :: 0 <= i < 10 && i != 4 && i != 7 ==> IsDigit(s[i])
  }

  predicate IsCounter(s: string) {
    s == "" || (|s| >= 2 && s[0] == '.' && forall i :: 1 <= i < |s| ==> IsDigit(s[i]))
  }

  predicate EndsWithGz(s: string) {
    |s| >= 3 && s[|s| - 3..] == ".gz"
  }

  function WithoutGz(s: string): string {
    if EndsWithGz(s) then s[..|s| - 3] else s
  }

  /** Prefix, date, suffix and perhaps a counter. */
  predicate IsLog(cfg: Config, s: string) {
    var n, m := |cfg.prefix|, |cfg.prefix| + 10;
    && |s| >= m + |cfg.suffix| && s[..n] == cfg.prefix && IsDate(s[n..m])
    && s[m..m + |cfg.suffix|] == cfg.suffix && IsCounter(s[m + |cfg.suffix|..])
  }

  /** A log or its archive. */
  predicate Matches(cfg: Config, item: string) {
    IsLog(cfg, item) || (EndsWithGz(item) && IsLog(cfg, WithoutGz(item)))
  }

  predicate AllDigits(s: string) { forall c <- s :: IsDigit(c) }

  /** A name as the rotator makes it: prefix, date, suffix, perhaps a counter, perhaps the archive's ending. */
  ghost predicate Rotated(cfg: Config, item: string) {
    exists year, month, day, counter, end ::
      && |year| == 4 && AllDigits(year) && |month| == 2 && AllDigits(month) && |day| == 2 && AllDigits(day)
      && (counter == "" || (|counter| > 1 && counter[0] == '.' && AllDigits(counter[1..])))
      && (end == "" || end == ".gz")
      && item == cfg.prefix + (year + "-" + month + "-" + day) + cfg.suffix + counter + end
  }

  lemma DateParts(s: string)
    requires IsDate(s)
    ensures s == s[..4] + "-" + s[5..7] + "-" + s[8..]
    ensures AllDigits(s[..4]) && AllDigits(s[5..7]) && AllDigits(s[8..])
  {
  }

  lemma DateOf(year: string, month: string, day: string)
    requires |year| == 4 && AllDigits(year) && |month| == 2 && AllDigits(month) && |day| == 2 && AllDigits(day)
    ensures IsDate(year + "-" + month + "-" + day)
  {
    var s := year + "-" + month + "-" + day;
    assert forall i :: 0 <= i < 4 ==> s[i] == year[i];
    assert forall i :: 5 <= i < 7 ==> s[i] == month[i - 5];
    assert forall i :: 8 <= i < 10 ==> s[i] == day[i - 8];
  }

  lemma LogParts(cfg: Config, s: string)
    requires IsLog(cfg, s)
    ensures var n, m := |cfg.prefix|, |cfg.prefix| + 10;
            && s == cfg.prefix + s[n..m] + cfg.suffix + s[m + |cfg.suffix|..]
            && IsDate(s[n..m]) && IsCounter(s[m + |cfg.suffix|..])
  {
  }

  lemma LogOf(cfg: Config, date: string, counter: string)
    requires IsDate(date) && IsCounter(counter)
    ensures IsLog(cfg, cfg.prefix + date + cfg.suffix + counter)
  {
    var s := cfg.prefix + date + cfg.suffix + counter;
    var n, m := |cfg.prefix|, |cfg.prefix| + 10;
    assert s[..n] == cfg.prefix && s[n..m] == date;
    assert s[m..m + |cfg.suffix|] == cfg.suffix && s[m + |cfg.suffix|..] == counter;
  }

  lemma CounterForms(counter: string)
    ensures IsCounter(counter) <==> counter == "" || (|counter| > 1 && counter[0] == '.' && AllDigits(counter[1..]))
  {
    if |counter| > 1 { assert forall i :: 1 <= i < |counter| ==> counter[i] == counter[1..][i - 1]; }
  }

  lemma LogIsRotated(cfg: Config, log: string, end: string)
    requires IsLog(cfg, log) && (end == "" || end == ".gz")
    ensures Rotated(cfg, log + end)
  {
    hide IsLog, IsDate, IsCounter;
    LogParts(cfg, log);
    var date, counter := log[|cfg.prefix|..|cfg.prefix| + 10], log[|cfg.prefix| + 10 + |cfg.suffix|..];
    DateParts(date);
    CounterForms(counter);
    var year, month, day := date[..4], date[5..7], date[8..];
    assert log + end == cfg.prefix + (year + "-" + month + "-" + day) + cfg.suffix + counter + end;
  }

  /** The pattern takes exactly the names that the rotator makes, and their archives. */
  lemma MatchesPattern(cfg: Config, item: string)
    ensures Matches(cfg, item) <==> Rotated(cfg, item)
  {
    hide IsLog;
    if IsLog(cfg, item) {
      LogIsRotated(cfg, item, "");
      assert item + "" == item;
    } else if Matches(cfg, item) {
      LogIsRotated(cfg, WithoutGz(item), ".gz");
      assert item == item[..|item| - 3] + ".gz";
    }
    if Rotated(cfg, item) {
      RotatedMatches(cfg, item);
    }
  }

  lemma RotatedMatches(cfg: Config, item: string)
    requires Rotated(cfg, item)
    ensures Matches(cfg, item)
  {
    hide IsLog, IsDate, IsCounter;
    var year, month, day, counter, end :|
      && |year| == 4 && AllDigits(year) && |month| == 2 && AllDigits(month) && |day| == 2 && AllDigits(day)
      && (counter == "" || (|counter| > 1 && counter[0] == '.' && AllDigits(counter[1..])))
      && (end == "" || end == ".gz")
      && item == cfg.prefix + (year + "-" + month + "-" + day) + cfg.suffix + counter + end;
    DateOf(year, month, day);
    CounterForms(counter);
    var date := year + "-" + month + "-" + day;
    LogOf(cfg, date, counter);
    var log := cfg.prefix + date + cfg.suffix + counter;
    if end == "" {
      assert item == log;
    } else {
      assert item[|item| - 3..] == ".gz" && item[..|item| - 3] == log;
    }
  }

  function AuditBase(cfg: Config): string { "." + cfg.prefix + "audit" + cfg.suffix + ".json" }

  function TodayBase(cfg: Config, today: string): string { cfg.prefix + today + cfg.suffix }

  lemma LogIsNotArchive(cfg: Config, s: string)
    requires ConfigOk(cfg) && IsLog(cfg, s)
    ensures !EndsWithGz(s)
  {
    var m := |cfg.prefix| + 10;
    var counter := s[m + |cfg.suffix|..];
    var date := s[|cfg.prefix|..m];
    assert IsDigit(date[9]) && s[m - 1] == date[9];
    assert s[|s| - 3..] == [s[|s| - 3], s[|s| - 2], s[|s| - 1]];
    if counter != "" {
      assert s[|s| - 1] == counter[|counter| - 1] && IsDigit(s[|s| - 1]);
    } else {
      assert s == s[..m] + cfg.suffix;
      assert |cfg.suffix| >= 3 ==> cfg.suffix[|cfg.suffix| - 3..] == s[|s| - 3..];
    }
  }

  lemma LogIsPlain(cfg: Config, s: string)
    requires ConfigOk(cfg) && IsLog(cfg, s)
    ensures IsPlain(s)
  {
    var n, m := |cfg.prefix|, |cfg.prefix| + 10;
    forall i | 0 <= i < |s| ensures !IsSeparator(s[i]) {
      if i < n {
        assert s[i] == cfg.prefix[i];
      } else if i < m {
        assert s[i] == s[n..m][i - n];
      } else if i < m + |cfg.suffix| {
        assert s[i] == s[m..m + |cfg.suffix|][i - m];
      } else {
        assert s[i] == s[m + |cfg.suffix|..][i - m - |cfg.suffix|];
      }
    }
  }

  /** Every matching item is its logical name or that name's archive. */
  lemma MatchedItem(cfg: Config, item: string)
    requires ConfigOk(cfg) && Matches(cfg, item)
    ensures IsPlain(WithoutGz(item)) && !EndsWithGz(WithoutGz(item))
    ensures item == WithoutGz(item) || item == WithoutGz(item) + ".gz"
  {
    if IsLog(cfg, item) { LogIsNotArchive(cfg, item); } else { LogIsNotArchive(cfg, WithoutGz(item)); }
    LogIsPlain(cfg, WithoutGz(item));
    hide IsLog;
    assert EndsWithGz(item) ==> item == item[..|item| - 3] + item[|item| - 3..];
  }

  lemma AuditIsNoLog(cfg: Config)
    requires ConfigOk(cfg)
    ensures !Matches(cfg, AuditBase(cfg))
  {
    var name := AuditBase(cfg);
    assert name[0] == '.' && |name| >= 6;
    assert name[..|cfg.prefix|][0] == '.';
    if EndsWithGz(name) { assert WithoutGz(name)[..|cfg.prefix|][0] == '.'; }
  }

  // ---- The listing ----

  /** Item names and their modification times; an item name has no slash. */
  type Disk = map<string, int>

  /** The item a path names, if it is a path into this directory. */
  predicate Inside(cfg: Config, path: string) {
    |path| > |cfg.dir| && path[..|cfg.dir| + 1] == cfg.dir + "/"
  }

  function Item(cfg: Config, path: string): string
    requires Inside(cfg, path)
  {
    path[|cfg.dir| + 1..]
  }

  /** The directory and its parent are there; otherwise a path exists when the directory lists it. */
  predicate Exists(cfg: Config, disk: Disk, path: string) {
    path == cfg.dir || path == cfg.parent || (Inside(cfg, path) && Item(cfg, path) in disk)
  }

  lemma ItemOfJoin(cfg: Config, base: string)
    ensures Inside(cfg, cfg.dir + "/" + base) && Item(cfg, cfg.dir + "/" + base) == base
    ensures Inside(cfg, cfg.dir + "/" + base + ".gz") && Item(cfg, cfg.dir + "/" + base + ".gz") == base + ".gz"
  {
    assert (cfg.dir + "/" + base)[..|cfg.dir| + 1] == cfg.dir + "/";
    assert (cfg.dir + "/" + base + ".gz")[..|cfg.dir| + 1] == cfg.dir + "/";
    assert (cfg.dir + "/" + base + ".gz")[|cfg.dir| + 1..] == base + ".gz";
  }

  /** Paths of plain names, and the two directories. */
  predicate IsPlainPath(cfg: Config, path: string) {
    Inside(cfg, path) && IsPlain(Item(cfg, path))
  }

  predicate IsDotPath(cfg: Config, path: string) {
    path == cfg.dir || path == cfg.parent
  }

  lemma PathForKinds(cfg: Config, name: string)
    requires ConfigOk(cfg) && Base(name) != ""
    ensures var path := PathFor(cfg, Base(name));
            if IsDot(Base(name)) then IsDotPath(cfg, path) && !IsPlainPath(cfg, path)
            else IsPlainPath(cfg, path) && !IsDotPath(cfg, path) && Item(cfg, path) == Base(name)
  {
    BaseHasNoSeparator(name);
    ItemOfJoin(cfg, Base(name));
  }

  /** A plain path is its own canonical form; the directories are nobody's. */
  lemma PlainIsCanonical(cfg: Config, path: string)
    requires ConfigOk(cfg) && IsPlainPath(cfg, path)
    ensures Base(path) == Item(cfg, path) && PathFor(cfg, Base(path)) == path
  {
    var item := Item(cfg, path);
    assert path == cfg.dir + "/" + item;
    BaseOfJoin(cfg.dir, item);
  }

  lemma JoinedEnd(dir: string, base: string)
    requires base != ""
    ensures EndsWithGz(dir + "/" + base) <==> EndsWithGz(base)
  {
    var name := dir + "/" + base;
    assert name[|name| - 1 - |base|] == '/';
    if |base| >= 3 {
      assert name[|name| - 3..] == base[|base| - 3..];
    } else if |name| >= 3 {
      assert name[|name| - 3..] == [name[|name| - 3], name[|name| - 2], name[|name| - 1]];
    }
  }
}
