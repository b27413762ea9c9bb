/**
  What each stage of the self-heal makes of the record: folding, dropping, adopting and sorting.
 */
module AuditRecords {
  import opened AuditNames
  import opened AuditHeal

  ghost predicate Unique(files: seq<Entry>) {
    forall i, j :: 0 <= i < j < |files| ==> files[i].name != files[j].name
  }

  /** Entries this process could have written: hash over name and date, the name in this directory's view. */
  ghost predicate Canonical(cfg: Config, hashType: string, e: Entry) {
    e == NewEntry(hashType, e.name, e.date) && (IsPlainPath(cfg, e.name) || IsDotPath(cfg, e.name))
  }

  ghost predicate Sound(cfg: Config, hashType: string, files: seq<Entry>) {
    Unique(files) && forall e <- files :: Canonical(cfg, hashType, e)
  }

  lemma UniqueLast(files: seq<Entry>)
    requires Unique(files) && |files| > 0
    ensures Unique(files[..|files| - 1]) && !Has(files[..|files| - 1], files[|files| - 1].name)
  {
    var init, last := files[..|files| - 1], files[|files| - 1];
    forall i | 0 <= i < |init| ensures init[i].name != last.name {
      assert files[i] == init[i];
    }
  }

  // ---- Folding ----

  lemma UpsertNew(files: seq<Entry>, e: Entry)
    requires !Has(files, e.name)
    ensures Upsert(files, e) == files + [e]
  {
    if files != [] { assert files[|files| - 1] in files; }
  }

  /** Afterwards the name is there once, with the later date. */
  lemma {:induction false} UpsertLatest(files: seq<Entry>, e: Entry)
    requires Unique(files)
    ensures Unique(Upsert(files, e))
    ensures forall x <- Upsert(files, e) :: x == e || x in files
    ensures forall x <- files :: x in Upsert(files, e) || (x.name == e.name && x.date < e.date && e in Upsert(files, e))
    ensures exists x <- Upsert(files, e) :: x.name == e.name && x.date >= e.date
    ensures forall x <- Upsert(files, e) :: x.name == e.name ==> x.date >= e.date
  {
    if files == [] {
      assert e in Upsert(files, e);
    } else {
      var init, last := files[..|files| - 1], files[|files| - 1];
      assert files == init + [last];
      if last.name == e.name {
        UpsertHere(init, last, e);
      } else if Has(init, e.name) {
        UpsertLatest(init, e);
        UpsertBefore(init, last, e);
      } else {
        UpsertAtEnd(files, e);
      }
    }
  }

  lemma UpsertHere(init: seq<Entry>, last: Entry, e: Entry)
    requires Unique(init + [last]) && last.name == e.name
    ensures var r := init + [if e.date <= last.date then last else e];
            && Unique(r) && (forall x <- r :: x == e || x in init + [last])
            && (forall x <- init + [last] :: x in r || (x.name == e.name && x.date < e.date && e in r))
            && (exists x <- r :: x.name == e.name && x.date >= e.date)
            && (forall x <- r :: x.name == e.name ==> x.date >= e.date)
  {
    var files := init + [last];
    var winner := if e.date <= last.date then last else e;
    var r := init + [winner];
    assert winner in r && files[|init|] == last;
    forall i | 0 <= i < |init| ensures init[i].name != e.name {
      assert files[i] == init[i];
    }
    assert forall i, j :: 0 <= i < j < |init| ==> files[i] == init[i] && files[j] == init[j];
  }

  lemma UpsertBefore(init: seq<Entry>, last: Entry, e: Entry)
    requires Unique(init + [last]) && last.name != e.name
    requires Unique(Upsert(init, e)) && forall x <- Upsert(init, e) :: x == e || x in init
    requires exists x <- Upsert(init, e) :: x.name == e.name && x.date >= e.date
    ensures var r := Upsert(init, e) + [last];
            && Unique(r) && (forall x <- r :: x == e || x in init + [last])
            && (exists x <- r :: x.name == e.name && x.date >= e.date)
  {
    var part := Upsert(init, e);
    var r := part + [last];
    forall i | 0 <= i < |part| ensures part[i].name != last.name {
      assert part[i] in part;
      if part[i] != e {
        var k :| 0 <= k < |init| && init[k] == part[i];
        assert (init + [last])[k] == init[k] && (init + [last])[|init|] == last;
      }
    }
    var x :| x in part && x.name == e.name && x.date >= e.date;
    assert x in r;
  }

  lemma UpsertAtEnd(files: seq<Entry>, e: Entry)
    requires Unique(files) && !Has(files, e.name)
    ensures Unique(files + [e]) && e in files + [e]
  {
    assert forall x <- files :: x.name != e.name;
  }

  /** One original entry, seen from this directory. */
  function Seen(cfg: Config, hashType: string, e: Entry): Entry
    requires Base(e.name) != ""
  {
    NewEntry(hashType, PathFor(cfg, Base(e.name)), e.date)
  }

  ghost predicate ComesFrom(cfg: Config, hashType: string, e: Entry, files: seq<Entry>) {
    exists o <- files :: Base(o.name) != "" && Seen(cfg, hashType, o) == e
  }

  ghost predicate Represented(cfg: Config, o: Entry, folded: seq<Entry>) {
    Base(o.name) == "" || exists e <- folded :: e.name == PathFor(cfg, Base(o.name)) && e.date >= o.date
  }

  /**
    Folding leaves one entry per logical name: each comes from an original entry, and every original that
    names a file is represented by an entry that is not older. So an entry's date is its name's latest.
   */
  ghost predicate Folds(cfg: Config, hashType: string, files: seq<Entry>, folded: seq<Entry>) {
    && Sound(cfg, hashType, folded)
    && (forall e <- folded :: ComesFrom(cfg, hashType, e, files))
    && (forall o <- files :: Represented(cfg, o, folded))
  }

  lemma FromMore(cfg: Config, hashType: string, e: Entry, files: seq<Entry>, last: Entry)
    requires ComesFrom(cfg, hashType, e, files) || (Base(last.name) != "" && Seen(cfg, hashType, last) == e)
    ensures ComesFrom(cfg, hashType, e, files + [last])
  {
    hide Base, Seen;
    if ComesFrom(cfg, hashType, e, files) {
      var o :| o in files && Base(o.name) != "" && Seen(cfg, hashType, o) == e;
      assert o in files + [last];
    } else {
      assert last in files + [last];
    }
  }

  lemma StillRepresented(cfg: Config, o: Entry, folded: seq<Entry>, e: Entry)
    requires Unique(folded) && Represented(cfg, o, folded)
    ensures Represented(cfg, o, Upsert(folded, e))
  {
    UpsertLatest(folded, e);
    hide Base, PathFor, Upsert, Unique;
  }

  lemma FoldOne(cfg: Config, hashType: string, init: seq<Entry>, last: Entry)
    requires ConfigOk(cfg) && Base(last.name) != "" && Folds(cfg, hashType, init, Fold(cfg, hashType, init))
    ensures Folds(cfg, hashType, init + [last], Upsert(Fold(cfg, hashType, init), Seen(cfg, hashType, last)))
  {
    var rest, e := Fold(cfg, hashType, init), Seen(cfg, hashType, last);
    var r := Upsert(rest, e);
    PathForKinds(cfg, last.name);
    UpsertLatest(rest, e);
    assert e.name == PathFor(cfg, Base(last.name)) && Canonical(cfg, hashType, e);
    forall x | x in r ensures ComesFrom(cfg, hashType, x, init + [last]) {
      FromMore(cfg, hashType, x, init, last);
    }
    forall o | o in init ensures Represented(cfg, o, r) { StillRepresented(cfg, o, rest, e); }
    hide Fold, Upsert, PathFor, Base, Unique, ComesFrom, Seen, Canonical;
    assert Represented(cfg, last, r);
  }

  lemma {:induction false} FoldFolds(cfg: Config, hashType: string, files: seq<Entry>)
    requires ConfigOk(cfg)
    ensures Folds(cfg, hashType, files, Fold(cfg, hashType, files))
  {
    if files == [] {
      assert Folds(cfg, hashType, [], []);
    } else {
      hide Folds, Upsert, Base;
      var init, last := files[..|files| - 1], files[|files| - 1];
      assert files == init + [last];
      FoldFolds(cfg, hashType, init);
      if Base(last.name) == "" {
        SkipOne(cfg, hashType, init, last);
      } else {
        FoldOne(cfg, hashType, init, last);
      }
    }
  }

  lemma SkipOne(cfg: Config, hashType: string, init: seq<Entry>, last: Entry)
    requires Base(last.name) == "" && Folds(cfg, hashType, init, Fold(cfg, hashType, init))
    ensures Folds(cfg, hashType, init + [last], Fold(cfg, hashType, init))
  {
    var folded := Fold(cfg, hashType, init);
    forall e | e in folded ensures ComesFrom(cfg, hashType, e, init + [last]) {
      FromMore(cfg, hashType, e, init, last);
    }
    assert Represented(cfg, last, folded);
    hide Sound, Fold, ComesFrom, Represented;
  }

  /** A record of plain names in this view is folded to itself. */
  lemma {:induction false} FoldKeeps(cfg: Config, hashType: string, files: seq<Entry>)
    requires ConfigOk(cfg) && Sound(cfg, hashType, files) && forall e <- files :: IsPlainPath(cfg, e.name)
    ensures Fold(cfg, hashType, files) == files
  {
    if files != [] {
      var init, last := files[..|files| - 1], files[|files| - 1];
      FoldKeeps(cfg, hashType, init);
      PlainIsCanonical(cfg, last.name);
      UniqueLast(files);
      hide IsPlainPath, Base, PathFor, Upsert;
      UpsertNew(init, last);
      assert last in files && init + [last] == files;
    }
  }

  // ---- Equal dates ----

  /** The entries of one date, in their order. */
  function OfDate(files: seq<Entry>, date: int): seq<Entry> {
    if files == [] then []
    else OfDate(files[..|files| - 1], date) + if files[|files| - 1].date == date then [files[|files| - 1]] else []
  }

  lemma OfDateNext(files: seq<Entry>, e: Entry, date: int)
    ensures OfDate(files + [e], date) == OfDate(files, date) + if e.date == date then [e] else []
  {
    assert (files + [e])[..|files|] == files;
  }

  lemma {:induction false} InsertKeepsDates(files: seq<Entry>, e: Entry, date: int)
    ensures OfDate(InsertByDate(files, e), date) == OfDate(files, date) + if e.date == date then [e] else []
  {
    hide OfDate;
    if files == [] || files[|files| - 1].date <= e.date {
      OfDateNext(files, e, date);
    } else {
      var init, last := files[..|files| - 1], files[|files| - 1];
      InsertKeepsDates(init, e, date);
      OfDateNext(InsertByDate(init, e), last, date);
      OfDateNext(init, last, date);
      assert files == init + [last];
    }
  }

  /** Entries of equal dates keep their order. */
  lemma {:induction false} ByDateIsStable(files: seq<Entry>, date: int)
    ensures OfDate(ByDate(files), date) == OfDate(files, date)
  {
    hide OfDate, InsertByDate;
    if files != [] {
      var init, last := files[..|files| - 1], files[|files| - 1];
      ByDateIsStable(init, date);
      InsertKeepsDates(ByDate(init), last, date);
      OfDateNext(init, last, date);
      assert files == init + [last];
    }
  }

  // ---- Dropping ----

  lemma InLast(files: seq<Entry>)
    requires |files| > 0
    ensures forall e :: e in files <==> e in files[..|files| - 1] || e == files[|files| - 1]
  {
    assert files == files[..|files| - 1] + [files[|files| - 1]];
  }

  lemma ExistingUnfolds(cfg: Config, disk: Disk, files: seq<Entry>)
    ensures files == [] ==> Existing(cfg, disk, files) == []
    ensures files != [] ==>
              var rest, last := Existing(cfg, disk, files[..|files| - 1]), files[|files| - 1];
              Existing(cfg, disk, files) == if Present(cfg, disk, last.name) then rest + [last] else rest
  {
    hide Present;
  }

  lemma {:induction false} ExistingPresent(cfg: Config, disk: Disk, files: seq<Entry>)
    ensures forall e :: e in Existing(cfg, disk, files) <==> e in files && Present(cfg, disk, e.name)
    ensures |Existing(cfg, disk, files)| <= |files|
    ensures (forall e <- files :: Present(cfg, disk, e.name)) ==> Existing(cfg, disk, files) == files
  {
    hide Present, Existing;
    ExistingUnfolds(cfg, disk, files);
    if files != [] {
      var init, last := files[..|files| - 1], files[|files| - 1];
      ExistingPresent(cfg, disk, init);
      InLast(files);
      assert files == init + [last];
    }
  }

  lemma {:induction false} ExistingUnique(cfg: Config, disk: Disk, files: seq<Entry>)
    requires Unique(files)
    ensures Unique(Existing(cfg, disk, files))
  {
    hide Present;
    if files != [] {
      var init, last := files[..|files| - 1], files[|files| - 1];
      UniqueLast(files);
      ExistingUnique(cfg, disk, init);
      ExistingPresent(cfg, disk, init);
      var rest := Existing(cfg, disk, init);
      forall i | 0 <= i < |rest| ensures rest[i].name != last.name {
        assert rest[i] in rest;
      }
    }
  }

  // ---- Sorting ----

  ghost predicate Oldest(files: seq<Entry>) {
    forall i, j :: 0 <= i < j < |files| ==> files[i].date <= files[j].date
  }

  lemma OldestMore(files: seq<Entry>, last: Entry)
    requires Oldest(files) && forall e <- files :: e.date <= last.date
    ensures Oldest(files + [last])
  {
    forall i | 0 <= i < |files| ensures files[i].date <= last.date { assert files[i] in files; }
  }

  lemma SameMembers(a: seq<Entry>, b: seq<Entry>, e: Entry)
    requires multiset(a) == multiset(b) + multiset{e}
    ensures forall x <- a :: x == e || x in b
  {
    forall x | x in a ensures x == e || x in b { assert x in multiset(a); }
  }

  lemma {:induction false} InsertByDateSorts(files: seq<Entry>, e: Entry)
    requires Oldest(files)
    ensures Oldest(InsertByDate(files, e)) && multiset(InsertByDate(files, e)) == multiset(files) + multiset{e}
  {
    if files == [] || files[|files| - 1].date <= e.date {
      forall x | x in files ensures x.date <= e.date {
        var i :| 0 <= i < |files| && files[i] == x;
      }
      OldestMore(files, e);
    } else {
      var init, last := files[..|files| - 1], files[|files| - 1];
      InsertByDateSorts(init, e);
      assert files == init + [last];
      SameMembers(InsertByDate(init, e), init, e);
      forall x | x in init ensures x.date <= last.date {
        var i :| 0 <= i < |init| && init[i] == x;
        assert files[i].date <= files[|files| - 1].date;
      }
      OldestMore(InsertByDate(init, e), last);
      hide Oldest;
    }
  }

  lemma {:induction false} ByDateSorts(files: seq<Entry>)
    ensures Oldest(ByDate(files)) && multiset(ByDate(files)) == multiset(files)
  {
    if files != [] {
      var init, last := files[..|files| - 1], files[|files| - 1];
      ByDateSorts(init);
      InsertByDateSorts(ByDate(init), last);
      assert files == init + [last];
      hide InsertByDate, Oldest;
    }
  }

  /** Sorting keeps names unique. */
  lemma UniqueByMultiset(a: seq<Entry>, b: seq<Entry>)
    requires multiset(a) == multiset(b) && Unique(a)
    ensures Unique(b) && |a| == |b| && forall e :: e in a <==> e in b
  {
    assert forall e :: e in a <==> e in multiset(a);
    assert forall e :: e in b <==> e in multiset(b);
    assert |a| == |multiset(a)| && |b| == |multiset(b)|;
    forall i, j | 0 <= i < j < |b| ensures b[i].name != b[j].name {
      if b[i].name == b[j].name {
        OnlyOne(a, b[i], b[j]);
        TwoOccurrences(b, i, j);
        OneOccurrence(a, b[i]);
      }
    }
  }

  lemma OnlyOne(a: seq<Entry>, x: Entry, y: Entry)
    requires Unique(a) && x in a && y in a && x.name == y.name
    ensures x == y
  {
    var i :| 0 <= i < |a| && a[i] == x;
    var j :| 0 <= j < |a| && a[j] == y;
    assert i == j;
  }

  lemma TwoOccurrences(b: seq<Entry>, i: nat, j: nat)
    requires i < j < |b| && b[i] == b[j]
    ensures multiset(b)[b[i]] >= 2
  {
    assert b == b[..j] + [b[j]] + b[j + 1..];
    assert b[..j][i] in multiset(b[..j]);
  }

  lemma {:induction false} OneOccurrence(a: seq<Entry>, e: Entry)
    requires Unique(a)
    ensures multiset(a)[e] <= 1
  {
    if a != [] {
      var init, last := a[..|a| - 1], a[|a| - 1];
      UniqueLast(a);
      OneOccurrence(init, e);
      assert a == init + [last];
      assert e in multiset(init) <==> e in init;
    }
  }
}
