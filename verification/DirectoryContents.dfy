/** What Discover (orm/migrate/migrate.go) makes of a directory, in terms of its entries. */
module DirectoryContents {
  import opened Names
  import opened Results
  import opened MigrationFiles
  import opened MigrationDiscovery
  import opened MigrationNames

  /** The entry is a migration: its name ends in ".sql", in any case, and gives it version and direction. */
  ghost predicate IsFileOf(e: DirEntry, f: FileMigration) {
    && MatchesAt(e.name, ".sql", |e.name| - 4) && ParseVersion(e.name) == Ok(f.version)
    && f.name == e.name && f.path == e.path && (f.typ.Down? <==> NamedDown(e.name))
  }

  ghost predicate IsUpOf(e: DirEntry, version: string) {
    MatchesAt(e.name, ".sql", |e.name| - 4) && ParseVersion(e.name) == Ok(version) && !NamedDown(e.name)
  }

  lemma SqlIsExact(e: DirEntry)
    ensures IsSql(e) <==> MatchesAt(e.name, ".sql", |e.name| - 4)
  {
    hide MatchesAt, ToLower, HasSuffix;
    SuffixMatch(e.name, ".sql");
  }

  ghost function FileOf(e: DirEntry): FileMigration
    requires ParseVersion(e.name).Ok?
  {
    FileMigration(ParseVersion(e.name).value, e.name, e.path, ClassifyMigration(e.name))
  }

  lemma FileOfExact(e: DirEntry, f: FileMigration)
    ensures IsFileOf(e, f) <==> IsSql(e) && ParseVersion(e.name).Ok? && f == FileOf(e)
  {
    hide IsSql, ParseVersion, ClassifyMigration, NamedDown, MatchesAt;
    SqlIsExact(e);
    ClassifyIsExact(e.name);
  }

  /** The found files, with the last entry's at the end. */
  lemma FoundLast(entries: seq<DirEntry>)
    requires entries != []
    ensures var e, init := entries[|entries| - 1], Found(entries[..|entries| - 1]);
      Found(entries) == init + if IsSql(e) && ParseVersion(e.name).Ok? then [FileOf(e)] else []
  {
    hide IsSql, ParseVersion, ClassifyMigration;
  }

  lemma {:induction false} FoundExact(entries: seq<DirEntry>, f: FileMigration)
    ensures f in Found(entries) <==> exists e :: e in entries && IsFileOf(e, f)
  {
    if entries == [] {
    } else {
      var init, e := entries[..|entries| - 1], entries[|entries| - 1];
      assert entries == init + [e];
      hide IsFileOf, Found, IsSql, ParseVersion, FileOf;
      FoundExact(init, f);
      FoundLast(entries);
      FileOfExact(e, f);
    }
  }

  // Two files that must not be there together

  ghost predicate Symmetric(clash: (FileMigration, FileMigration) -> bool) {
    forall f, g :: clash(f, g) <==> clash(g, f)
  }

  ghost predicate NoClash(files: seq<FileMigration>, clash: (FileMigration, FileMigration) -> bool) {
    forall i, j :: 0 <= i < j < |files| ==> !clash(files[i], files[j])
  }

  ghost predicate Clear(f: FileMigration, files: seq<FileMigration>, clash: (FileMigration, FileMigration) -> bool) {
    forall g :: g in files ==> !clash(f, g)
  }

  lemma NoClashFront(f: FileMigration, files: seq<FileMigration>, clash: (FileMigration, FileMigration) -> bool)
    ensures NoClash([f] + files, clash) <==> NoClash(files, clash) && Clear(f, files, clash)
  {
    var all := [f] + files;
    assert forall i :: 0 <= i < |files| ==> all[i + 1] == files[i];
    if NoClash(all, clash) {
      forall g | g in files ensures !clash(f, g) {
        var k :| 0 <= k < |files| && files[k] == g;
        assert !clash(all[0], all[k + 1]);
      }
      forall i, j | 0 <= i < j < |files| ensures !clash(files[i], files[j]) {
        assert !clash(all[i + 1], all[j + 1]);
      }
    }
  }

  lemma SameMembers(xs: seq<FileMigration>, ys: seq<FileMigration>)
    requires multiset(xs) == multiset(ys)
    ensures forall f :: f in xs <==> f in ys
  {
    assert forall f :: f in xs <==> f in multiset(xs);
    assert forall f :: f in ys <==> f in multiset(ys);
  }

  lemma {:induction false} InsertKeepsClash(
      f: FileMigration, files: seq<FileMigration>, clash: (FileMigration, FileMigration) -> bool)
    requires Symmetric(clash)
    ensures NoClash(InsertFile(f, files), clash) <==> NoClash(files, clash) && Clear(f, files, clash)
  {
    hide NoClash, FileBefore;
    if files == [] || FileBefore(f, files[0]) {
      NoClashFront(f, files, clash);
    } else {
      var h, t := files[0], files[1..];
      assert files == [h] + t;
      InsertKeepsClash(f, t, clash);
      NoClashFront(h, InsertFile(f, t), clash);
      NoClashFront(h, t, clash);
      assert multiset([f] + t) == multiset(InsertFile(f, t));
      SameMembers([f] + t, InsertFile(f, t));
      assert forall g :: g in InsertFile(f, t) <==> g == f || g in t;
      assert clash(h, f) <==> clash(f, h);
    }
  }

  lemma {:induction false} SortKeepsClash(files: seq<FileMigration>, clash: (FileMigration, FileMigration) -> bool)
    requires Symmetric(clash)
    ensures NoClash(SortFiles(files), clash) <==> NoClash(files, clash)
  {
    if files != [] {
      hide NoClash, FileBefore, Symmetric;
      var h, t := files[0], files[1..];
      assert files == [h] + t;
      SortKeepsClash(t, clash);
      InsertKeepsClash(h, SortFiles(t), clash);
      NoClashFront(h, t, clash);
      SameMembers(SortFiles(t), t);
    }
  }

  ghost predicate EntriesClear(entries: seq<DirEntry>, clash: (FileMigration, FileMigration) -> bool) {
    forall a, b, f, g :: 0 <= a < b < |entries| && IsFileOf(entries[a], f) && IsFileOf(entries[b], g) ==> !clash(f, g)
  }

  ghost predicate ClearBefore(files: seq<FileMigration>, f: FileMigration,
      clash: (FileMigration, FileMigration) -> bool) {
    forall g :: g in files ==> !clash(g, f)
  }

  lemma NoClashBack(files: seq<FileMigration>, f: FileMigration, clash: (FileMigration, FileMigration) -> bool)
    ensures NoClash(files + [f], clash) <==> NoClash(files, clash) && ClearBefore(files, f, clash)
  {
    var all := files + [f];
    assert forall i :: 0 <= i < |files| ==> all[i] == files[i];
    if NoClash(all, clash) {
      forall g | g in files ensures !clash(g, f) {
        var i :| 0 <= i < |files| && files[i] == g;
        assert !clash(all[i], all[|files|]);
      }
      forall i, j | 0 <= i < j < |files| ensures !clash(files[i], files[j]) {
        assert !clash(all[i], all[j]);
      }
    }
  }

  ghost predicate EntriesBefore(entries: seq<DirEntry>, f: FileMigration,
      clash: (FileMigration, FileMigration) -> bool) {
    forall e, g :: e in entries && IsFileOf(e, g) ==> !clash(g, f)
  }

  lemma EntriesClearBack(init: seq<DirEntry>, e: DirEntry, clash: (FileMigration, FileMigration) -> bool)
    ensures EntriesClear(init + [e], clash) <==>
      EntriesClear(init, clash) && forall f :: IsFileOf(e, f) ==> EntriesBefore(init, f, clash)
  {
    hide IsFileOf;
    var n, all := |init|, init + [e];
    if EntriesClear(all, clash) {
      forall x, f, g | x in init && IsFileOf(x, g) && IsFileOf(e, f) ensures !clash(g, f) {
        var a :| 0 <= a < n && init[a] == x;
        assert IsFileOf(all[a], g) && IsFileOf(all[n], f);
      }
      forall a, b, f, g | 0 <= a < b < n && IsFileOf(init[a], f) && IsFileOf(init[b], g) ensures !clash(f, g) {
        assert IsFileOf(all[a], f) && IsFileOf(all[b], g);
      }
    }
    if EntriesClear(init, clash) && forall f :: IsFileOf(e, f) ==> EntriesBefore(init, f, clash) {
      forall a, b, f, g | 0 <= a < b < n + 1 && IsFileOf(all[a], f) && IsFileOf(all[b], g) ensures !clash(f, g) {
        assert a < n ==> all[a] == init[a] && init[a] in init;
        assert b < n ==> all[b] == init[b];
      }
    }
  }

  lemma FoundBefore(init: seq<DirEntry>, f: FileMigration, clash: (FileMigration, FileMigration) -> bool)
    ensures ClearBefore(Found(init), f, clash) <==> EntriesBefore(init, f, clash)
  {
    hide IsFileOf, Found;
    forall g ensures g in Found(init) <==> exists e :: e in init && IsFileOf(e, g) { FoundExact(init, g); }
  }

  lemma OnlyFile(e: DirEntry)
    ensures IsSql(e) && ParseVersion(e.name).Ok? ==> forall f :: IsFileOf(e, f) <==> f == FileOf(e)
    ensures !(IsSql(e) && ParseVersion(e.name).Ok?) ==> forall f :: !IsFileOf(e, f)
  {
    hide *;
    forall f ensures IsFileOf(e, f) <==> IsSql(e) && ParseVersion(e.name).Ok? && f == FileOf(e) { FileOfExact(e, f); }
  }

  lemma {:induction false} FoundKeepsClash(entries: seq<DirEntry>, clash: (FileMigration, FileMigration) -> bool)
    ensures NoClash(Found(entries), clash) <==> EntriesClear(entries, clash)
  {
    if entries != [] {
      hide *;
      var init, e := entries[..|entries| - 1], entries[|entries| - 1];
      assert entries == init + [e];
      FoundKeepsClash(init, clash);
      EntriesClearBack(init, e, clash);
      FoundLast(entries);
      OnlyFile(e);
      if IsSql(e) && ParseVersion(e.name).Ok? {
        NoClashBack(Found(init), FileOf(e), clash);
        FoundBefore(init, FileOf(e), clash);
      } else {
        assert Found(init) + [] == Found(init);
      }
    }
  }

  predicate SameUp(f: FileMigration, g: FileMigration) { f.typ.Up? && g.typ.Up? && f.version == g.version }

  predicate SamePath(f: FileMigration, g: FileMigration) { f.path == g.path }

  lemma UpsAreClear(entries: seq<DirEntry>)
    ensures EntriesClear(entries, SameUp) <==>
      forall a, b, v :: 0 <= a < b < |entries| && IsUpOf(entries[a], v) ==> !IsUpOf(entries[b], v)
  {
    hide MatchesAt, ParseVersion, NamedDown;
    if EntriesClear(entries, SameUp) {
      forall a, b, v | 0 <= a < b < |entries| && IsUpOf(entries[a], v) ensures !IsUpOf(entries[b], v) {
        var f := FileMigration(v, entries[a].name, entries[a].path, Up);
        var g := FileMigration(v, entries[b].name, entries[b].path, Up);
        assert IsFileOf(entries[a], f) && SameUp(f, g);
        assert IsUpOf(entries[b], v) ==> IsFileOf(entries[b], g);
      }
    }
    if forall a, b, v :: 0 <= a < b < |entries| && IsUpOf(entries[a], v) ==> !IsUpOf(entries[b], v) {
      forall a, b, f, g | 0 <= a < b < |entries| && IsFileOf(entries[a], f) && IsFileOf(entries[b], g)
        ensures !SameUp(f, g)
      {
        assert f.typ.Up? ==> IsUpOf(entries[a], f.version);
        assert g.typ.Up? ==> IsUpOf(entries[b], g.version);
      }
    }
  }

  lemma PathsAreClear(entries: seq<DirEntry>)
    requires forall a, b :: 0 <= a < b < |entries| ==> entries[a].path != entries[b].path
    ensures EntriesClear(entries, SamePath)
  {
    hide MatchesAt, ParseVersion, NamedDown;
  }

  /** The order of the files: by version, and by path among files of one version. */
  ghost predicate FileSorted(f: FileMigration, g: FileMigration) {
    || Lexicographic(f.version, g.version)
    || (f.version == g.version && (f.path == g.path || Lexicographic(f.path, g.path)))
  }

  lemma SortedPair(f: FileMigration, g: FileMigration)
    requires !FileBefore(g, f)
    ensures FileSorted(f, g)
  {
    hide Lexicographic;
    LessTotal(f.version, g.version);
    LessTotal(f.path, g.path);
    LessIsLexicographic(f.version, g.version);
    LessIsLexicographic(f.path, g.path);
  }

  lemma SortedFiles(files: seq<FileMigration>)
    ensures forall i, j :: 0 <= i < j < |SortFiles(files)| ==> FileSorted(SortFiles(files)[i], SortFiles(files)[j])
  {
    SortFilesInOrder(files);
    hide SortFiles, FileSorted, FileBefore;
    var sorted := SortFiles(files);
    forall i, j | 0 <= i < j < |sorted| ensures FileSorted(sorted[i], sorted[j]) {
      SortedPair(sorted[i], sorted[j]);
    }
  }

  /** The discovered files are those of the entries, by version and path; the directory is refused
      because of a version exactly if two entries are up scripts of it. */
  lemma {:induction false} DiscoveredFiles(entries: seq<DirEntry>)
    ensures var files := SortFiles(Found(entries));
      && (forall f :: f in files <==> exists e :: e in entries && IsFileOf(e, f))
      && (forall i, j :: 0 <= i < j < |files| ==> FileSorted(files[i], files[j]))
      && ((forall a, b :: 0 <= a < b < |entries| ==> entries[a].path != entries[b].path) ==>
        forall i, j :: 0 <= i < j < |files| ==> files[i].path != files[j].path)
      && (UpVersionsDistinct(files) <==>
        forall a, b, v :: 0 <= a < b < |entries| && IsUpOf(entries[a], v) ==> !IsUpOf(entries[b], v))
  {
    hide *;
    var found := Found(entries);
    SortedMembers(found);
    forall f ensures f in found <==> exists e :: e in entries && IsFileOf(e, f) { FoundExact(entries, f); }
    SortedFiles(found);
    NamedClashes(SortFiles(found));
    SortKeepsClash(found, SameUp);
    SortKeepsClash(found, SamePath);
    FoundKeepsClash(entries, SameUp);
    FoundKeepsClash(entries, SamePath);
    UpsAreClear(entries);
    if forall a, b :: 0 <= a < b < |entries| ==> entries[a].path != entries[b].path {
      PathsAreClear(entries);
    }
  }

  lemma SortedMembers(files: seq<FileMigration>)
    ensures forall f :: f in SortFiles(files) <==> f in files
  {
    SameMembers(SortFiles(files), files);
  }

  lemma NamedClashes(files: seq<FileMigration>)
    ensures Symmetric(SameUp) && Symmetric(SamePath)
    ensures UpVersionsDistinct(files) <==> NoClash(files, SameUp)
    ensures NoClash(files, SamePath) <==> forall i, j :: 0 <= i < j < |files| ==> files[i].path != files[j].path
  {
  }

  /** The directory is refused because of a name exactly if an entry is an SQL file without a version. */
  lemma NamedEntries(entries: seq<DirEntry>)
    ensures AllNamed(entries) <==>
      forall e :: e in entries && MatchesAt(e.name, ".sql", |e.name| - 4) ==> ParseVersion(e.name).Ok?
  {
    hide IsSql, MatchesAt, ParseVersion;
    forall e ensures IsSql(e) <==> MatchesAt(e.name, ".sql", |e.name| - 4) { SqlIsExact(e); }
  }
}
