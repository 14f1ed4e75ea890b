/** Discover (orm/migrate/migrate.go): which files of a directory are migrations, in what
    order they run, and when the directory is refused. */
module MigrationDiscovery {
  import opened Names
  import opened Database
  import opened Decimals
  import opened Results
  import opened MigrationFiles

  datatype MigrationType = Up | Down

  datatype FileMigration = FileMigration(version: string, name: string, path: string, typ: MigrationType)

  datatype DirEntry = DirEntry(path: string, name: string)

  datatype DiscoverError = BadName(path: string, error: VersionError) | DuplicateVersion(version: string)

  predicate Contains(s: string, sub: string) { IndexOf(s, sub) >= 0 }

  predicate HasSuffix(s: string, suffix: string) { |suffix| <= |s| && s[|s| - |suffix|..] == suffix }

  function ClassifyMigration(name: string): MigrationType {
    var lower := ToLower(name);
    if Contains(lower, ".down.") || HasSuffix(lower, ".down.sql") || HasSuffix(lower, "_down.sql")
       || HasSuffix(lower, "-down.sql") || Contains(lower, ".rollback.")
    then Down
    else Up
  }

  predicate IsSql(e: DirEntry) { HasSuffix(ToLower(e.name), ".sql") }

  /** The migrations among the entries, in the order of the walk. */
  function Found(entries: seq<DirEntry>): seq<FileMigration> {
    if entries == [] then []
    else
      var e := entries[|entries| - 1];
      Found(entries[..|entries| - 1])
      + (if IsSql(e) && ParseVersion(e.name).Ok?
         then [FileMigration(ParseVersion(e.name).value, e.name, e.path, ClassifyMigration(e.name))]
         else [])
  }

  predicate FileBefore(a: FileMigration, b: FileMigration) {
    if a.version == b.version then Less(a.path, b.path) else Less(a.version, b.version)
  }

  function InsertFile(f: FileMigration, files: seq<FileMigration>): (r: seq<FileMigration>)
    ensures multiset(r) == multiset(files) + multiset{f}
  {
    if files == [] || FileBefore(f, files[0]) then [f] + files
    else
      assert files == [files[0]] + files[1..];
      [files[0]] + InsertFile(f, files[1..])
  }

  function SortFiles(files: seq<FileMigration>): (r: seq<FileMigration>)
    ensures multiset(r) == multiset(files)
  {
    if files == [] then []
    else
      assert files == [files[0]] + files[1..];
      InsertFile(files[0], SortFiles(files[1..]))
  }

  ghost predicate InOrder(files: seq<FileMigration>) {
    forall i, j :: 0 <= i < j < |files| ==> !FileBefore(files[j], files[i])
  }

  lemma FileOrder(a: FileMigration, b: FileMigration, c: FileMigration)
    ensures !(FileBefore(a, b) && FileBefore(b, a))
    ensures FileBefore(a, b) && !FileBefore(c, b) ==> FileBefore(a, c)
  {
    LessTotal(a.version, b.version);
    LessTotal(b.version, c.version);
    LessTotal(a.path, b.path);
    LessTotal(b.path, c.path);
    if Less(a.version, b.version) && Less(b.version, c.version) { LessTransitive(a.version, b.version, c.version); }
    if Less(a.path, b.path) && Less(b.path, c.path) { LessTransitive(a.path, b.path, c.path); }
  }

  lemma {:induction false} InsertInOrder(f: FileMigration, files: seq<FileMigration>)
    requires InOrder(files)
    ensures InOrder(InsertFile(f, files))
  {
    if files == [] {
    } else if FileBefore(f, files[0]) {
      forall j | 0 <= j < |files| ensures !FileBefore(files[j], f) {
        FileOrder(f, files[0], files[j]);
        FileOrder(f, files[j], f);
        if j == 0 { FileOrder(f, files[0], f); }
      }
    } else {
      InsertInOrder(f, files[1..]);
      var rest := InsertFile(f, files[1..]);
      forall j | 0 <= j < |rest| ensures !FileBefore(rest[j], files[0]) {
        assert rest[j] in multiset(rest);
        if rest[j] != f {
          assert rest[j] in multiset(files[1..]);
          var k :| 0 < k < |files| && files[k] == rest[j];
        }
      }
    }
  }

  lemma {:induction false} SortFilesInOrder(files: seq<FileMigration>)
    ensures InOrder(SortFiles(files))
  {
    if files != [] {
      SortFilesInOrder(files[1..]);
      InsertInOrder(files[0], SortFiles(files[1..]));
    }
  }

  /** No version has two up scripts. */
  ghost predicate UpVersionsDistinct(files: seq<FileMigration>) {
    forall i, j :: 0 <= i < j < |files| && files[i].typ.Up? && files[j].typ.Up? ==> files[i].version != files[j].version
  }

  ghost predicate AllNamed(entries: seq<DirEntry>) {
    forall e :: e in entries && IsSql(e) ==> ParseVersion(e.name).Ok?
  }

  ghost predicate FirstBadName(entries: seq<DirEntry>, k: nat, error: DiscoverError)
    requires k < |entries|
  {
    && AllNamed(entries[..k]) && IsSql(entries[k]) && ParseVersion(entries[k].name).Err?
    && error == BadName(entries[k].path, ParseVersion(entries[k].name).error)
  }

  ghost predicate TwoUpScripts(files: seq<FileMigration>, version: string) {
    exists i, j :: 0 <= i < j < |files|
      && files[i].typ.Up? && files[j].typ.Up? && files[i].version == files[j].version == version
  }

  method Discover(entries: seq<DirEntry>) returns (r: Result<seq<FileMigration>, DiscoverError>)
    ensures r.Ok? <==> AllNamed(entries) && UpVersionsDistinct(SortFiles(Found(entries)))
    ensures r.Ok? ==> r.value == SortFiles(Found(entries)) && InOrder(r.value)
    ensures r.Err? ==> (r.error.BadName? <==> !AllNamed(entries))
    ensures r.Err? && r.error.BadName? ==> exists k :: 0 <= k < |entries| && FirstBadName(entries, k, r.error)
    ensures r.Err? && r.error.DuplicateVersion? ==> TwoUpScripts(SortFiles(Found(entries)), r.error.version)
  {
    hide ToLower, HasSuffix, ParseVersion, ClassifyMigration, SortFiles, InOrder, UpVersionsDistinct, Found;
    hide TwoUpScripts;
    assert Found(entries[..0]) == [] by { NoneFound(entries[..0]); }
    var files: seq<FileMigration> := [];
    for i := 0 to |entries|
      invariant files == Found(entries[..i]) && AllNamed(entries[..i])
    {
      FoundStep(entries, i);
      var e := entries[i];
      assert e in entries;
      if !HasSuffix(ToLower(e.name), ".sql") {
        continue;
      }
      var version := ParseVersion(e.name);
      if version.Err? {
        assert FirstBadName(entries, i, BadName(e.path, version.error));
        return Err(BadName(e.path, version.error));
      }
      files := files + [FileMigration(version.value, e.name, e.path, ClassifyMigration(e.name))];
    }
    assert entries[..|entries|] == entries;
    SortFilesInOrder(files);
    files := SortFiles(files);
    var duplicate := FirstDuplicate(files);
    if duplicate.Err? {
      return Err(DuplicateVersion(duplicate.error));
    }
    return Ok(files);
  }

  lemma NoneFound(none: seq<DirEntry>)
    requires none == []
    ensures Found(none) == []
  {
  }

  lemma FoundStep(entries: seq<DirEntry>, i: nat)
    requires i < |entries|
    ensures var e := entries[i];
      Found(entries[..i + 1]) == Found(entries[..i])
        + (if IsSql(e) && ParseVersion(e.name).Ok?
           then [FileMigration(ParseVersion(e.name).value, e.name, e.path, ClassifyMigration(e.name))]
           else [])
  {
    hide ToLower, HasSuffix, ParseVersion, ClassifyMigration;
    assert entries[..i + 1][..i] == entries[..i];
  }

  /** The loop over the versions seen so far. */
  method FirstDuplicate(files: seq<FileMigration>) returns (r: Result<(), string>)
    ensures r.Ok? <==> UpVersionsDistinct(files)
    ensures r.Err? ==> TwoUpScripts(files, r.error)
  {
    var versions := {};
    for i := 0 to |files|
      invariant UpVersionsDistinct(files[..i])
      invariant forall v :: v in versions <==> exists j :: 0 <= j < i && files[j].typ.Up? && files[j].version == v
    {
      var f := files[i];
      if f.typ.Down? {
        continue;
      }
      if f.version in versions {
        ghost var j :| 0 <= j < i && files[j].typ.Up? && files[j].version == f.version;
        assert files[j].version == files[i].version == f.version;
        return Err(f.version);
      }
      versions := versions + {f.version};
    }
    assert files[..|files|] == files;
    return Ok(());
  }

  function Ups(files: seq<FileMigration>): (r: seq<FileMigration>)
    ensures forall f :: f in r <==> f in files && f.typ.Up?
    ensures |r| <= |files|
  {
    if files == [] then []
    else Ups(files[..|files| - 1]) + (if files[|files| - 1].typ.Up? then [files[|files| - 1]] else [])
  }

  lemma {:induction false} UpsInOrder(files: seq<FileMigration>)
    requires InOrder(files) && UpVersionsDistinct(files)
    ensures forall i, j :: 0 <= i < j < |Ups(files)| ==> Less(Ups(files)[i].version, Ups(files)[j].version)
  {
    if files != [] {
      var init, last := files[..|files| - 1], files[|files| - 1];
      UpsInOrder(init);
      if last.typ.Up? {
        forall i | 0 <= i < |Ups(init)| ensures Less(Ups(init)[i].version, last.version) {
          var f := Ups(init)[i];
          assert f in init;
          var k :| 0 <= k < |init| && init[k] == f;
          assert files[k] == f && !FileBefore(last, f);
          LessTotal(f.version, last.version);
        }
      }
    }
  }

  /** The up scripts of a discovered directory run in strictly ascending version order. */
  lemma UpsAscend(files: seq<FileMigration>)
    requires InOrder(files) && UpVersionsDistinct(files)
    ensures forall f :: f in Ups(files) <==> f in files && f.typ.Up?
    ensures forall i, j :: 0 <= i < j < |Ups(files)| ==> Lexicographic(Ups(files)[i].version, Ups(files)[j].version)
  {
    UpsInOrder(files);
    forall i, j | 0 <= i < j < |Ups(files)| ensures Lexicographic(Ups(files)[i].version, Ups(files)[j].version) {
      LessIsLexicographic(Ups(files)[i].version, Ups(files)[j].version);
    }
  }

  // The files of one generator run

  /** A directory with just the files that one run writes. */
  ghost predicate IsRun(entries: seq<DirEntry>, timestamp: string, override: string) {
    && timestamp != "" && AllDigits(timestamp)
    && (forall i :: 0 <= i < |entries| ==> entries[i].name == FileName(timestamp, override, |entries|, i))
  }

  lemma {:induction false} FoundOne(entries: seq<DirEntry>, i: nat)
    requires i < |entries| && IsSql(entries[i]) && ParseVersion(entries[i].name).Ok?
    ensures FileMigration(ParseVersion(entries[i].name).value, entries[i].name, entries[i].path,
      ClassifyMigration(entries[i].name))
      in Found(entries)
  {
    if i < |entries| - 1 {
      FoundOne(entries[..|entries| - 1], i);
      assert entries[..|entries| - 1][i] == entries[i];
    }
  }

  predicate EndsInDown(slug: string) {
    slug == "down" || HasSuffix(slug, "_down")
  }

  /** A generated file is an up script exactly if there are several of them, or the slug is not
      "down" and does not end in "_down". */
  lemma GeneratedIsUp(timestamp: string, override: string, files: nat, i: nat)
    requires timestamp != "" && AllDigits(timestamp)
    ensures var name := FileName(timestamp, override, files, i);
      && HasSuffix(ToLower(name), ".sql")
      && (ClassifyMigration(name).Up? <==> files > 1 || !EndsInDown(Slugify(override)))
  {
    hide *;
    var slug := Slugify(override);
    SlugifyForm(override);
    NumberedForm(slug, files, i);
    NameOf(timestamp, override, files, i);
    GeneratedStem(timestamp, Numbered(slug, files, i));
    if files > 1 { NumberedEnd(slug, files, i); } else { LoneName(slug, files, i); }
  }

  lemma LoneName(slug: string, files: nat, i: nat)
    requires files <= 1
    ensures Numbered(slug, files, i) == slug
  {
  }

  /** A number at the end. */
  lemma NumberedEnd(slug: string, files: nat, i: nat)
    requires files > 1
    ensures !EndsInDown(Numbered(slug, files, i))
  {
    var digits := Pad2(i + 1);
    var s := Numbered(slug, files, i);
    assert s == slug + "_" + digits && digits[|digits| - 1] in digits;
    assert s[|s| - 1] == digits[|digits| - 1];
    assert "_down"[4] == 'n' && "down"[3] == 'n';
    assert |s| >= 5 ==> s[|s| - 5..][4] == s[|s| - 1];
  }

  lemma GeneratedStem(timestamp: string, slug: string)
    requires timestamp != "" && AllDigits(timestamp) && IsSlug(slug)
    ensures var name := timestamp + "_" + slug + ".sql";
      HasSuffix(ToLower(name), ".sql") && (ClassifyMigration(name).Down? <==> EndsInDown(slug))
  {
    var stem := timestamp + "_" + slug;
    forall k | 0 <= k < |stem| ensures IsSlugChar(stem[k]) || stem[k] == '_' {
      if k < |timestamp| {
        assert stem[k] == timestamp[k] && timestamp[k] in timestamp;
      } else if k > |timestamp| {
        assert stem[k] == slug[k - |timestamp| - 1] && slug[k - |timestamp| - 1] in slug;
      }
    }
    hide ClassifyMigration, ToLower, IsSlug, AllDigits, EndsInDown;
    ClassOfStem(stem);
    DownSuffix(timestamp, slug);
  }

  /** The suffix "_down" of the stem is that of the slug, with the underscore before it. */
  lemma DownSuffix(timestamp: string, slug: string)
    ensures HasSuffix(timestamp + "_" + slug, "_down") <==> EndsInDown(slug)
  {
    var stem, n := timestamp + "_" + slug, |slug|;
    if n >= 5 {
      assert stem[|stem| - 5..] == slug[n - 5..];
    } else if n == 4 {
      assert stem[|stem| - 5..] == "_" + slug;
      assert slug == ("_" + slug)[1..] && "down" == "_down"[1..];
    } else {
      assert |stem| >= 5 ==> stem[|stem| - 5..][4 - n] == '_';
      assert "_down"[4] == 'n' && "_down"[3] == 'w' && "_down"[2] == 'o' && "_down"[1] == 'd';
    }
  }

  /** No dot but that of ".sql": a rollback script exactly if the stem ends in "_down". */
  lemma ClassOfStem(stem: string)
    requires forall k :: 0 <= k < |stem| ==> IsSlugChar(stem[k]) || stem[k] == '_'
    ensures HasSuffix(ToLower(stem + ".sql"), ".sql")
    ensures ClassifyMigration(stem + ".sql").Down? <==> HasSuffix(stem, "_down")
  {
    var name := stem + ".sql";
    assert ToLower(name) == name;
    assert name[|name| - 4..] == ".sql";
    hide IndexOf, Contains, ToLower;
    OneDot(stem, ".down.");
    OneDot(stem, ".rollback.");
    StartOfSuffix(stem, ".down.sql");
    StartOfSuffix(stem, "-down.sql");
    SqlSuffix(stem, "_down");
    assert "_down" + ".sql" == "_down.sql";
  }

  lemma SqlSuffix(stem: string, suffix: string)
    ensures HasSuffix(stem + ".sql", suffix + ".sql") <==> HasSuffix(stem, suffix)
  {
    if |suffix| <= |stem| {
      var a, b := (stem + ".sql")[|stem| - |suffix|..], suffix + ".sql";
      assert a == stem[|stem| - |suffix|..] + ".sql";
      assert a[..|suffix|] == stem[|stem| - |suffix|..] && b[..|suffix|] == suffix;
    }
  }

  /** A suffix that starts with a character that is not in the stem. */
  lemma StartOfSuffix(stem: string, suffix: string)
    requires |suffix| > 4 && forall k :: 0 <= k < |stem| ==> stem[k] != suffix[0]
    ensures !HasSuffix(stem + ".sql", suffix)
  {
    var name := stem + ".sql";
    assert |suffix| <= |name| ==> name[|name| - |suffix|..][0] == stem[|name| - |suffix|];
  }

  lemma OneDot(stem: string, sub: string)
    requires |sub| >= 5 && sub[0] == '.'
    requires forall k :: 0 <= k < |stem| ==> stem[k] != '.'
    ensures !Contains(stem + ".sql", sub)
  {
    var name := stem + ".sql";
    forall k | 0 <= k <= |name| ensures !(sub <= name[k..]) {
      if |sub| <= |name[k..]| { assert name[k..][0] == name[k] == stem[k]; }
    }
  }

  lemma RunIsNamed(entries: seq<DirEntry>, timestamp: string, override: string)
    requires IsRun(entries, timestamp, override)
    ensures AllNamed(entries)
    ensures forall i :: 0 <= i < |entries| ==> ParseVersion(entries[i].name) == Ok(timestamp)
  {
    hide ParseVersion, FileName, HasSuffix, ToLower, AllDigits;
    forall i | 0 <= i < |entries| ensures ParseVersion(entries[i].name) == Ok(timestamp) {
      ParseVersionOfFileName(timestamp, override, |entries|, i);
    }
  }

  /** Two or more files of one run are up scripts of the same version. */
  lemma MultiFileRunIsRefused(entries: seq<DirEntry>, timestamp: string, override: string)
    requires IsRun(entries, timestamp, override) && |entries| > 1
    ensures !UpVersionsDistinct(SortFiles(Found(entries)))
  {
    hide Slugify, Numbered, FileName, ParseVersion, ClassifyMigration, HasSuffix, ToLower, Found, Pad2;
    var sorted := SortFiles(Found(entries));
    var n := |entries|;
    RunIsNamed(entries, timestamp, override);
    GeneratedIsUp(timestamp, override, n, 0);
    GeneratedIsUp(timestamp, override, n, 1);
    FileNamesDistinct(timestamp, override, n, 0, 1);
    FoundOne(entries, 0);
    FoundOne(entries, 1);
    var a := FileMigration(timestamp, entries[0].name, entries[0].path, Up);
    var b := FileMigration(timestamp, entries[1].name, entries[1].path, Up);
    TwoUps(sorted, a, b);
  }

  lemma {:induction false} FoundLength(entries: seq<DirEntry>)
    ensures |Found(entries)| <= |entries|
  {
    if entries != [] { FoundLength(entries[..|entries| - 1]); }
  }

  lemma SortLength(files: seq<FileMigration>)
    ensures |SortFiles(files)| == |files|
  {
    assert |multiset(SortFiles(files))| == |SortFiles(files)| && |multiset(files)| == |files|;
  }

  /** The directory that one run leaves is accepted exactly if the run wrote at most one file;
      otherwise two up scripts carry the same version. */
  lemma RunIsAccepted(entries: seq<DirEntry>, timestamp: string, override: string)
    requires IsRun(entries, timestamp, override)
    ensures AllNamed(entries) && (UpVersionsDistinct(SortFiles(Found(entries))) <==> |entries| <= 1)
  {
    RunIsNamed(entries, timestamp, override);
    if |entries| > 1 {
      MultiFileRunIsRefused(entries, timestamp, override);
    } else {
      FoundLength(entries);
      SortLength(Found(entries));
      hide Found, SortFiles, IsRun;
    }
  }

  /** In terms of the operations: exactly if they all share one key. */
  lemma GenerationIsAccepted(ops: seq<Operation>, chunks: seq<Chunk>, entries: seq<DirEntry>, timestamp: string,
      override: string)
    requires IsChunking(ops, chunks) && |entries| == |chunks| && IsRun(entries, timestamp, override)
    ensures AllNamed(entries) && (UpVersionsDistinct(SortFiles(Found(entries))) <==> OneKey(ops))
  {
    hide *;
    OneChunkIffOneKey(ops, chunks);
    RunIsAccepted(entries, timestamp, override);
  }

  /** The one file of a run is applied exactly if its slug does not end in "down". */
  lemma LoneFileIsApplied(entry: DirEntry, timestamp: string, override: string)
    requires IsRun([entry], timestamp, override)
    ensures Ups(SortFiles(Found([entry])))
      == if EndsInDown(Slugify(override)) then [] else [FileMigration(timestamp, entry.name, entry.path, Up)]
  {
    RunIsNamed([entry], timestamp, override);
    GeneratedIsUp(timestamp, override, 1, 0);
    assert [entry][0] == entry && entry.name == FileName(timestamp, override, 1, 0);
    hide Slugify, FileName, ParseVersion, ClassifyMigration, HasSuffix, ToLower, EndsInDown, AllDigits;
    assert [entry][..0] == [];
    assert Found([entry]) == [FileMigration(timestamp, entry.name, entry.path, ClassifyMigration(entry.name))];
    OneSorted(FileMigration(timestamp, entry.name, entry.path, ClassifyMigration(entry.name)));
  }

  lemma OneSorted(f: FileMigration)
    ensures SortFiles([f]) == [f] && Ups([f]) == if f.typ.Up? then [f] else []
  {
    assert [f][1..] == [] && [f][..0] == [];
  }

  /** A run of one file under the name "down" is accepted and never applied. */
  lemma DownIsNeverApplied(entry: DirEntry, timestamp: string)
    requires IsRun([entry], timestamp, "down")
    ensures UpVersionsDistinct(SortFiles(Found([entry]))) && Ups(SortFiles(Found([entry]))) == []
  {
    hide Found, SortFiles, Ups, IsRun, UpVersionsDistinct, Slugify;
    RunIsAccepted([entry], timestamp, "down");
    LoneFileIsApplied(entry, timestamp, "down");
    SlugifySlug("down");
  }

  lemma TwoUps(files: seq<FileMigration>, a: FileMigration, b: FileMigration)
    requires a in multiset(files) && b in multiset(files) && a != b && a.typ.Up? && b.typ.Up? && a.version == b.version
    ensures !UpVersionsDistinct(files)
  {
    var i :| 0 <= i < |files| && files[i] == a;
    var j :| 0 <= j < |files| && files[j] == b;
    assert i < j || j < i;
  }
}
