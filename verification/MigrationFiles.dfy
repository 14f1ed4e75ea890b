/** From operations to files and back to versions: chunkMigrationOperations and
    assignMigrationFilenames (generator/migrations.go), ParseVersion, classifyMigration and
    Discover (orm/migrate/migrate.go). */
module MigrationFiles {
  import opened Names
  import opened Database
  import opened Decimals
  import opened Results

  // Chunks: runs of operations on one target

  function SqlNameChar(c: char): char {
    if c in ".- " then '_' else if 'A' <= c <= 'Z' then (c as int + 32) as char else c
  }

  function EnumConstraintName(table: string, column: string): string {
    var base := table + "_" + column + "_enum_check";
    seq(|base|, i requires 0 <= i < |base| => SqlNameChar(base[i]))
  }

  function Target(op: Operation): string {
    match op
    case CreateExtension(e) => e
    case DropExtension(e) => e
    case CreateTable(t, _, _) => t
    case DropTable(t) => t
    case AddColumn(t, def) => t + "." + def.name
    case DropColumn(t, c) => t + "." + c
    case AlterType(t, c, _) => t + "." + c
    case AlterNullable(t, c, _) => t + "." + c
    case SetDefault(t, c, _) => t + "." + c
    case DropDefault(t, c) => t + "." + c
    case AddCheck(t, c, _) => t + "." + EnumConstraintName(t, c)
    case DropCheck(t, c) => t + "." + EnumConstraintName(t, c)
    case AddIndex(_, idx) => idx.name
    case DropIndex(i) => i
    case AddForeignKey(t, fk) => t + "." + fk.constraint
    case DropForeignKey(t, k) => t + "." + k
    case CreateHypertable(t, _) => t
    case DropHypertable(t) => t
  }

  function Kind(op: Operation): string {
    match op
    case CreateExtension(_) => "create_extension"
    case DropExtension(_) => "drop_extension"
    case CreateTable(_, _, _) => "create_table"
    case DropTable(_) => "drop_table"
    case AddColumn(_, _) => "add_column"
    case DropColumn(_, _) => "drop_column"
    case AddCheck(_, _, _) => "add_check_constraint"
    case DropCheck(_, _) => "drop_check_constraint"
    case AddIndex(_, _) => "add_index"
    case DropIndex(_) => "drop_index"
    case AddForeignKey(_, _) => "add_foreign_key"
    case DropForeignKey(_, _) => "drop_foreign_key"
    case CreateHypertable(_, _) => "create_hypertable"
    case DropHypertable(_) => "drop_hypertable"
    case _ => "alter_column"
  }

  function Key(op: Operation): string {
    if Target(op) == "" then Kind(op) else Target(op)
  }

  type Chunk = seq<Operation>

  function Flatten(chunks: seq<Chunk>): seq<Operation> {
    if chunks == [] then [] else Flatten(chunks[..|chunks| - 1]) + chunks[|chunks| - 1]
  }

  ghost predicate Uniform(c: Chunk) {
    c != [] && forall op :: op in c ==> Key(op) == Key(c[0])
  }

  ghost predicate Differ(chunks: seq<Chunk>, i: int)
    requires 0 <= i < |chunks| - 1
  {
    chunks[i] != [] && chunks[i + 1] != [] && Key(chunks[i][0]) != Key(chunks[i + 1][0])
  }

  /** The chunks are the maximal runs of one key, in order. */
  ghost predicate IsChunking(ops: seq<Operation>, chunks: seq<Chunk>) {
    && Flatten(chunks) == ops
    && (forall c :: c in chunks ==> Uniform(c))
    && (forall i :: 0 <= i < |chunks| - 1 ==> Differ(chunks, i))
  }

  method KeyOf(op: Operation) returns (key: string)
    ensures key == Key(op)
  {
    key := Target(op);
    if key == "" {
      key := Kind(op);
    }
  }

  lemma SingleOperation(op: Operation)
    ensures Uniform([op])
  {
  }

  lemma AppendChunk(chunks: seq<Chunk>, c: Chunk)
    requires IsChunking(Flatten(chunks), chunks) && Uniform(c)
    requires chunks != [] ==> chunks[|chunks| - 1] != [] && Key(chunks[|chunks| - 1][0]) != Key(c[0])
    ensures IsChunking(Flatten(chunks) + c, chunks + [c]) && Flatten(chunks + [c]) == Flatten(chunks) + c
  {
    FlattenSnoc(chunks, c);
    DifferSnoc(chunks, c);
    hide Key, Flatten, Uniform, Differ;
  }

  lemma DifferSnoc(chunks: seq<Chunk>, c: Chunk)
    requires c != [] && (forall i :: 0 <= i < |chunks| - 1 ==> Differ(chunks, i))
    requires chunks != [] ==> chunks[|chunks| - 1] != [] && Key(chunks[|chunks| - 1][0]) != Key(c[0])
    ensures forall i :: 0 <= i < |chunks| ==> Differ(chunks + [c], i)
  {
    hide Key;
    forall i | 0 <= i < |chunks| ensures Differ(chunks + [c], i) {
      assert i < |chunks| - 1 ==> Differ(chunks, i);
    }
  }

  lemma FlattenSnoc(chunks: seq<Chunk>, c: Chunk)
    ensures Flatten(chunks + [c]) == Flatten(chunks) + c
  {
    assert (chunks + [c])[..|chunks|] == chunks;
  }

  lemma AppendOperation(c: Chunk, op: Operation)
    requires Uniform(c) && Key(op) == Key(c[0])
    ensures Uniform(c + [op]) && (c + [op])[0] == c[0]
  {
  }

  lemma NoChunks()
    ensures IsChunking([], []) && Flatten([]) == []
  {
  }

  method ChunkMigrationOperations(ops: seq<Operation>) returns (chunks: seq<Chunk>)
    ensures IsChunking(ops, chunks)
  {
    hide *;
    chunks := [];
    NoChunks();
    if |ops| == 0 {
      return;
    }
    var current: Chunk := [];
    var currentKey := "";
    for i := 0 to |ops|
      invariant i == 0 ==> current == [] && chunks == []
      invariant i > 0 ==> current != [] && Uniform(current) && currentKey == Key(current[0])
      invariant IsChunking(Flatten(chunks), chunks)
      invariant i > 0 && chunks != [] ==> chunks[|chunks| - 1] != [] && Key(chunks[|chunks| - 1][0]) != currentKey
      invariant Flatten(chunks) + current == ops[..i]
    {
      var op := ops[i];
      assert ops[..i + 1] == ops[..i] + [op];
      var key := KeyOf(op);
      SingleOperation(op);
      if |current| == 0 {
        current := [op];
        currentKey := key;
        continue;
      }
      if key != currentKey {
        AppendChunk(chunks, current);
        chunks := chunks + [current];
        current := [op];
        currentKey := key;
        continue;
      }
      AppendOperation(current, op);
      current := current + [op];
    }
    assert ops[..|ops|] == ops;
    AppendChunk(chunks, current);
    chunks := chunks + [current];
  }

  /** There is only one such split, so the chunks are determined by the operations. */
  lemma {:induction false} ChunkingIsUnique(ops: seq<Operation>, a: seq<Chunk>, b: seq<Chunk>)
    requires IsChunking(ops, a) && IsChunking(ops, b)
    ensures a == b
  {
    NoEmptyChunks(ops, a);
    NoEmptyChunks(ops, b);
    if a != [] && b != [] {
      LastChunk(ops, a, b);
      LastChunk(ops, b, a);
      var last := a[|a| - 1];
      var rest := ops[..|ops| - |last|];
      assert b[|b| - 1] == last;
      assert Flatten(a[..|a| - 1]) == rest && Flatten(b[..|b| - 1]) == rest;
      ChunkingInit(ops, a);
      ChunkingInit(ops, b);
      ChunkingIsUnique(rest, a[..|a| - 1], b[..|b| - 1]);
      assert a == a[..|a| - 1] + [last] && b == b[..|b| - 1] + [last];
    }
  }

  lemma ChunkingInit(ops: seq<Operation>, chunks: seq<Chunk>)
    requires IsChunking(ops, chunks) && chunks != []
    ensures IsChunking(Flatten(chunks[..|chunks| - 1]), chunks[..|chunks| - 1])
  {
    var init := chunks[..|chunks| - 1];
    forall i | 0 <= i < |init| - 1 ensures Differ(init, i) {
      assert Differ(chunks, i);
    }
  }

  lemma NoEmptyChunks(ops: seq<Operation>, chunks: seq<Chunk>)
    requires IsChunking(ops, chunks)
    ensures chunks == [] <==> ops == []
    ensures chunks != [] ==> chunks[|chunks| - 1] != [] && |chunks[|chunks| - 1]| <= |ops|
  {
    if chunks != [] { assert Uniform(chunks[|chunks| - 1]); }
  }

  lemma Tail(ops: seq<Operation>, chunks: seq<Chunk>)
    requires IsChunking(ops, chunks) && chunks != []
    ensures var last := chunks[|chunks| - 1];
      && 0 < |last| <= |ops| && Uniform(last)
      && Flatten(chunks[..|chunks| - 1]) == ops[..|ops| - |last|] && ops[|ops| - |last|..] == last
  {
    NoEmptyChunks(ops, chunks);
    hide Key;
    assert chunks[|chunks| - 1] in chunks;
  }

  lemma UniformTail(ops: seq<Operation>, last: Chunk)
    requires Uniform(last) && |last| <= |ops| && ops[|ops| - |last|..] == last
    ensures forall i :: |ops| - |last| <= i < |ops| ==> Key(ops[i]) == Key(last[0])
  {
    hide Key;
    forall i | |ops| - |last| <= i < |ops| ensures Key(ops[i]) == Key(last[0]) {
      assert ops[i] == last[i - (|ops| - |last|)];
      assert ops[i] in last;
    }
  }

  lemma BeforeTail(ops: seq<Operation>, chunks: seq<Chunk>)
    requires IsChunking(ops, chunks) && |chunks| >= 2
    ensures var init, last := Flatten(chunks[..|chunks| - 1]), chunks[|chunks| - 1];
      init != [] && last != [] && Key(init[|init| - 1]) != Key(last[0])
  {
    var c := chunks[|chunks| - 2];
    assert Differ(chunks, |chunks| - 2) && c in chunks;
    ChunkingInit(ops, chunks);
    var init := chunks[..|chunks| - 1];
    Tail(Flatten(init), init);
    UniformTail(Flatten(init), c);
    hide Key, Flatten, IsChunking;
  }

  /** The operations of the last chunk share their key; the one before it does not. */
  lemma LastRun(ops: seq<Operation>, chunks: seq<Chunk>)
    requires IsChunking(ops, chunks) && chunks != []
    ensures var n, k := |ops|, |chunks[|chunks| - 1]|;
      && 0 < k <= n && ops[n - k..] == chunks[|chunks| - 1]
      && (forall i :: n - k <= i < n ==> Key(ops[i]) == Key(ops[n - 1]))
      && (k < n ==> Key(ops[n - k - 1]) != Key(ops[n - 1]))
  {
    Tail(ops, chunks);
    UniformTail(ops, chunks[|chunks| - 1]);
    if |chunks| >= 2 {
      BeforeTail(ops, chunks);
    } else {
      assert Flatten(chunks[..0]) == [];
    }
    hide Key, Flatten, IsChunking, Uniform;
  }

  /** The last chunk of one split is not longer than that of another. */
  lemma LastChunk(ops: seq<Operation>, a: seq<Chunk>, b: seq<Chunk>)
    requires IsChunking(ops, a) && IsChunking(ops, b) && a != [] && b != []
    ensures var x, y := a[|a| - 1], b[|b| - 1];
      |x| <= |y| <= |ops| && ops[|ops| - |x|..] == x && ops[|ops| - |y|..] == y
  {
    LastRun(ops, a);
    LastRun(ops, b);
  }

  ghost predicate OneKey(ops: seq<Operation>) {
    forall i, j :: 0 <= i < |ops| && 0 <= j < |ops| ==> Key(ops[i]) == Key(ops[j])
  }

  /** A run writes at most one file exactly if all its operations share one key. */
  lemma OneChunkIffOneKey(ops: seq<Operation>, chunks: seq<Chunk>)
    requires IsChunking(ops, chunks)
    ensures |chunks| <= 1 <==> OneKey(ops)
  {
    NoEmptyChunks(ops, chunks);
    if chunks != [] {
      Tail(ops, chunks);
      UniformTail(ops, chunks[|chunks| - 1]);
    }
    if |chunks| >= 2 {
      BeforeTail(ops, chunks);
      var k := |ops| - |chunks[|chunks| - 1]|;
      hide Key, IsChunking;
      assert Key(ops[k - 1]) != Key(ops[k]);
    } else {
      assert chunks != [] ==> Flatten(chunks[..0]) == [];
      hide Key, IsChunking;
    }
  }

  // File names

  predicate IsSlugChar(c: char) {
    'a' <= c <= 'z' || IsDigit(c)
  }

  predicate IsSpace(c: char) {
    c in " \t\n\r" || c as int == 11 || c as int == 12
  }

  predicate IsUnderscore(c: char) { c == '_' }

  function TrimLeft(s: string, drop: char -> bool): string {
    if s != [] && drop(s[0]) then TrimLeft(s[1..], drop) else s
  }

  function TrimRight(s: string, drop: char -> bool): string {
    if s != [] && drop(s[|s| - 1]) then TrimRight(s[..|s| - 1], drop) else s
  }

  function ToLower(s: string): string {
    seq(|s|, i requires 0 <= i < |s| => if 'A' <= s[i] <= 'Z' then (s[i] as int + 32) as char else s[i])
  }

  function SkipOther(s: string): (r: string)
    ensures |r| <= |s|
  {
    if s != [] && !IsSlugChar(s[0]) then SkipOther(s[1..]) else s
  }

  /** Every run of characters other than a-z and 0-9 becomes one underscore. */
  function ReplaceRuns(s: string): string
    decreases |s|
  {
    if s == [] then []
    else if IsSlugChar(s[0]) then [s[0]] + ReplaceRuns(s[1..])
    else "_" + ReplaceRuns(SkipOther(s[1..]))
  }

  function Slugify(name: string): string {
    var normalized := ToLower(TrimRight(TrimLeft(name, IsSpace), IsSpace));
    if normalized == "" then "schema"
    else
      var slug := TrimRight(TrimLeft(ReplaceRuns(normalized), IsUnderscore), IsUnderscore);
      if slug == "" then "schema" else slug
  }

  /** What every slug looks like. */
  ghost predicate IsSlug(s: string) {
    && s != [] && s[0] != '_' && s[|s| - 1] != '_'
    && (forall c :: c in s ==> IsSlugChar(c) || c == '_')
    && !HasDouble(s)
  }

  predicate HasDouble(s: string) {
    exists i | 0 <= i < |s| - 1 :: s[i] == '_' && s[i + 1] == '_'
  }

  function Numbered(slug: string, files: nat, i: nat): string {
    if files > 1 then slug + "_" + Pad2(i + 1) else slug
  }

  /** The name of file `i` of a run that writes `files` files. */
  function FileName(timestamp: string, override: string, files: nat, i: nat): string {
    timestamp + "_" + Numbered(Slugify(override), files, i) + ".sql"
  }

  lemma {:induction false} ReplaceRunsForm(s: string)
    ensures forall c :: c in ReplaceRuns(s) ==> IsSlugChar(c) || c == '_'
    ensures !HasDouble(ReplaceRuns(s))
    decreases |s|
  {
    if s == [] {
    } else if IsSlugChar(s[0]) {
      ReplaceRunsForm(s[1..]);
    } else {
      var rest := SkipOther(s[1..]);
      ReplaceRunsForm(rest);
      SkipOtherStart(s[1..]);
      assert rest != [] ==> ReplaceRuns(rest)[0] == rest[0];
    }
  }

  lemma {:induction false} SkipOtherStart(s: string)
    ensures SkipOther(s) == [] || IsSlugChar(SkipOther(s)[0])
  {
    if s != [] && !IsSlugChar(s[0]) { SkipOtherStart(s[1..]); }
  }

  lemma {:induction false} TrimForm(s: string, drop: char -> bool)
    ensures exists i, j :: 0 <= i <= j <= |s| && TrimRight(TrimLeft(s, drop), drop) == s[i..j]
    ensures var r := TrimRight(TrimLeft(s, drop), drop);
      r != [] ==> !drop(r[0]) && !drop(r[|r| - 1])
  {
    var i := LeftOf(s, drop);
    var l := s[i..];
    var j := RightOf(l, drop);
    assert TrimRight(l, drop) == l[..j] == s[i..i + j];
  }

  lemma {:induction false} LeftOf(s: string, drop: char -> bool) returns (i: nat)
    ensures i <= |s| && TrimLeft(s, drop) == s[i..] && (i < |s| ==> !drop(s[i]))
  {
    if s != [] && drop(s[0]) {
      i := LeftOf(s[1..], drop);
      i := i + 1;
    } else {
      i := 0;
    }
  }

  lemma {:induction false} RightOf(s: string, drop: char -> bool) returns (j: nat)
    ensures j <= |s| && TrimRight(s, drop) == s[..j] && (j > 0 ==> !drop(s[j - 1]))
  {
    if s != [] && drop(s[|s| - 1]) {
      j := RightOf(s[..|s| - 1], drop);
    } else {
      j := |s|;
    }
  }

  lemma SliceForm(r: string, i: nat, j: nat)
    requires i < j <= |r| && r[i] != '_' && r[j - 1] != '_'
    requires (forall c :: c in r ==> IsSlugChar(c) || c == '_') && !HasDouble(r)
    ensures IsSlug(r[i..j])
  {
    var slug := r[i..j];
    assert forall k :: 0 <= k < |slug| ==> slug[k] == r[i + k] && slug[k] in r;
    forall k | 0 <= k < |slug| - 1 ensures !(slug[k] == '_' && slug[k + 1] == '_') {
      assert !(r[i + k] == '_' && r[i + k + 1] == '_');
    }
  }

  lemma SchemaIsSlug()
    ensures IsSlug("schema")
  {
  }

  /** Whatever the override, the slug is well formed; in particular it is not empty, so the
      source's fallbacks for an empty slug are never taken. */
  lemma SlugifyForm(name: string)
    ensures IsSlug(Slugify(name))
  {
    hide ReplaceRuns, TrimLeft, TrimRight, ToLower, IsSpace, IsSlugChar, HasDouble, IsSlug;
    var normalized := ToLower(TrimRight(TrimLeft(name, IsSpace), IsSpace));
    var r := ReplaceRuns(normalized);
    SchemaIsSlug();
    ReplaceRunsForm(normalized);
    TrimForm(r, IsUnderscore);
    var slug := TrimRight(TrimLeft(r, IsUnderscore), IsUnderscore);
    var i, j :| 0 <= i <= j <= |r| && slug == r[i..j];
    if slug != "" { SliceForm(r, i, j); }
  }

  lemma {:induction false} ReplaceRunsSame(s: string)
    requires (forall c :: c in s ==> IsSlugChar(c) || c == '_') && !HasDouble(s)
    ensures ReplaceRuns(s) == s
  {
    if s != [] {
      var rest := s[1..];
      assert forall i :: 0 <= i < |rest| ==> rest[i] == s[i + 1];
      ReplaceRunsSame(rest);
      if s[0] == '_' && rest != [] { assert s[1] != '_'; }
    }
  }

  lemma TrimNothing(s: string, drop: char -> bool)
    requires s != [] && !drop(s[0]) && !drop(s[|s| - 1])
    ensures TrimRight(TrimLeft(s, drop), drop) == s
  {
  }

  lemma SlugIsLower(s: string)
    requires IsSlug(s)
    ensures ToLower(s) == s && !IsSpace(s[0]) && !IsSpace(s[|s| - 1])
  {
    assert s[0] in s && s[|s| - 1] in s;
    forall i | 0 <= i < |s| ensures ToLower(s)[i] == s[i] {
      assert s[i] in s;
    }
  }

  /** Slugifying a slug changes nothing. */
  lemma SlugifySlug(s: string)
    requires IsSlug(s)
    ensures Slugify(s) == s
  {
    SlugIsLower(s);
    ReplaceRunsSame(s);
    hide ReplaceRuns, TrimLeft, TrimRight, ToLower, IsSpace, IsSlugChar, HasDouble;
    TrimNothing(s, IsSpace);
    TrimNothing(s, IsUnderscore);
  }

  lemma NumberedForm(slug: string, files: nat, i: nat)
    requires IsSlug(slug)
    ensures IsSlug(Numbered(slug, files, i))
  {
    if files > 1 { AppendNumber(slug, Pad2(i + 1)); }
  }

  lemma AppendNumber(slug: string, digits: string)
    requires IsSlug(slug) && AllDigits(digits) && digits != ""
    ensures IsSlug(slug + "_" + digits)
  {
    var s := slug + "_" + digits;
    forall k | 0 <= k < |digits| ensures IsDigit(digits[k]) {
      assert digits[k] in digits;
    }
    forall k | 0 <= k < |s| ensures IsSlugChar(s[k]) || s[k] == '_' {
      if k < |slug| {
        assert s[k] == slug[k] && slug[k] in slug;
      } else if k > |slug| {
        assert s[k] == digits[k - |slug| - 1];
      }
    }
    forall k | 0 <= k < |s| - 1 ensures !(s[k] == '_' && s[k + 1] == '_') {
      if k + 1 < |slug| {
        assert s[k] == slug[k] && s[k + 1] == slug[k + 1];
      } else if k + 1 == |slug| {
        assert s[k] == slug[|slug| - 1];
      } else {
        assert s[k + 1] == digits[k - |slug|];
      }
    }
  }

  lemma NumberedInjective(slug: string, files: nat, i: nat, j: nat)
    requires files > 1 && Numbered(slug, files, i) == Numbered(slug, files, j)
    ensures i == j
  {
    hide Pad2, Value, Itoa, AllDigits;
    var a, b := Numbered(slug, files, i), Numbered(slug, files, j);
    assert Pad2(i + 1) == a[|slug| + 1..] == b[|slug| + 1..] == Pad2(j + 1);
    ValueOfPad2(i + 1);
    ValueOfPad2(j + 1);
  }

  datatype MigrationFile = MigrationFile(name: string, operations: seq<Operation>)

  ghost function Bases(slug: string, files: nat, i: nat): set<string> {
    set j | 0 <= j < i :: Numbered(slug, files, j)
  }

  lemma NoBases(slug: string, files: nat)
    ensures Bases(slug, files, 0) == {}
  {
  }

  lemma NewBase(slug: string, files: nat, i: nat)
    requires i < files
    ensures Numbered(slug, files, i) !in Bases(slug, files, i)
    ensures Bases(slug, files, i + 1) == Bases(slug, files, i) + {Numbered(slug, files, i)}
  {
    forall j | 0 <= j < i ensures Numbered(slug, files, j) != Numbered(slug, files, i) {
      if Numbered(slug, files, j) == Numbered(slug, files, i) { NumberedInjective(slug, files, j, i); }
    }
  }

  /** Names the files of a run in place. Every base name is new, so the counter of a base
      never gets past one, and slugifying the numbered slug again changes nothing. */
  method AssignMigrationFilenames(files: array<MigrationFile>, override: string, timestamp: string)
    modifies files
    ensures forall i :: 0 <= i < files.Length ==>
      files[i] == old(files[i]).(name := FileName(timestamp, override, files.Length, i))
  {
    hide *;
    if files.Length == 0 {
      return;
    }
    var normalized := Slugify(override);
    NoBases(normalized, files.Length);
    var counters: map<string, nat> := map[];
    for i := 0 to files.Length
      invariant counters.Keys == Bases(normalized, files.Length, i)
      invariant forall k :: 0 <= k < i ==>
        files[k] == old(files[k]).(name := FileName(timestamp, override, files.Length, k))
      invariant forall k :: i <= k < files.Length ==> files[k] == old(files[k])
    {
      var slug := normalized;
      if files.Length > 1 {
        slug := slug + "_" + Pad2(i + 1);
      }
      NumberedName(timestamp, override, files.Length, i, normalized, slug);
      NewBase(normalized, files.Length, i);
      counters := counters[slug := 1];
      slug := Slugify(slug);
      files[i] := files[i].(name := timestamp + "_" + slug + ".sql");
    }
  }

  lemma NumberedName(timestamp: string, override: string, files: nat, i: nat, normalized: string, slug: string)
    requires normalized == Slugify(override) && slug == if files > 1 then normalized + "_" + Pad2(i + 1) else normalized
    ensures slug == Numbered(normalized, files, i)
    ensures timestamp + "_" + Slugify(slug) + ".sql" == FileName(timestamp, override, files, i)
  {
    SlugifyForm(override);
    NumberedForm(normalized, files, i);
    SlugifySlug(slug);
  }

  /** No two files of a run get the same name. */
  lemma FileNamesDistinct(timestamp: string, override: string, files: nat, i: nat, j: nat)
    requires i < j < files
    ensures FileName(timestamp, override, files, i) != FileName(timestamp, override, files, j)
  {
    var slug := Slugify(override);
    var a, b := FileName(timestamp, override, files, i), FileName(timestamp, override, files, j);
    if a == b {
      assert Numbered(slug, files, i) == a[|timestamp| + 1..|a| - 4] == b[|timestamp| + 1..|b| - 4]
        == Numbered(slug, files, j);
      NumberedInjective(slug, files, i, j);
    }
  }

  // Versions

  /** path.Ext: from the last dot of the last path element. */
  function Ext(name: string): (e: string)
    ensures |e| <= |name| && name == name[..|name| - |e|] + e
  {
    if name == "" || name[|name| - 1] == '/' then ""
    else if name[|name| - 1] == '.' then name[|name| - 1..]
    else
      var e := Ext(name[..|name| - 1]);
      if e == "" then "" else e + [name[|name| - 1]]
  }

  /** strings.Index: the first position of `sep`, or -1. */
  function IndexOf(s: string, sep: string): (i: int)
    ensures -1 <= i <= |s|
    ensures i >= 0 ==> sep <= s[i..]
  {
    if sep <= s then 0
    else if s == "" then -1
    else
      var i := IndexOf(s[1..], sep);
      assert i >= 0 ==> s[i + 1..] == s[1..][i..];
      if i == -1 then -1 else i + 1
  }

  lemma {:induction false} IndexOfIsFirst(s: string, sep: string, k: nat)
    requires k <= |s| && sep <= s[k..]
    ensures 0 <= IndexOf(s, sep) <= k
  {
    if !(sep <= s) {
      assert k > 0 ==> s[k..] == s[1..][k - 1..];
      assert s[0..] == s;
      if k > 0 { IndexOfIsFirst(s[1..], sep, k - 1); }
    }
  }

  datatype VersionError = EmptyFilename | NoVersion(name: string)

  function FirstCut(base: string, seps: seq<string>): string {
    if seps == [] then base
    else
      var i := IndexOf(base, seps[0]);
      if i > 0 then base[..i] else FirstCut(base, seps[1..])
  }

  function ParseVersion(name: string): Result<string, VersionError> {
    if name == "" then Err(EmptyFilename)
    else
      var base := name[..|name| - |Ext(name)|];
      if base == "" then Err(NoVersion(name)) else Ok(FirstCut(base, ["__", "_", "-"]))
  }

  lemma SqlExt(stem: string)
    ensures Ext(stem + ".sql") == ".sql"
  {
    assert (stem + ".sql")[..|stem| + 3] == stem + ".sq";
    assert (stem + ".sq")[..|stem| + 2] == stem + ".s";
    assert (stem + ".s")[..|stem| + 1] == stem + ".";
    assert Ext(stem + ".") == ".";
    assert Ext(stem + ".s") == "." + "s";
    assert Ext(stem + ".sq") == ".s" + "q";
    assert Ext(stem + ".sql") == ".sq" + "l";
  }

  /** Every name that the generator assigns is parsed back to the timestamp of its run. */
  lemma ParseVersionOfFileName(timestamp: string, override: string, files: nat, i: nat)
    requires timestamp != "" && AllDigits(timestamp)
    ensures ParseVersion(FileName(timestamp, override, files, i)) == Ok(timestamp)
  {
    hide *;
    var slug := Numbered(Slugify(override), files, i);
    SlugifyForm(override);
    NumberedForm(Slugify(override), files, i);
    NameOf(timestamp, override, files, i);
    CutAtUnderscore(timestamp, slug);
    VersionOfSql(timestamp + "_" + slug);
  }

  lemma NameOf(timestamp: string, override: string, files: nat, i: nat)
    ensures FileName(timestamp, override, files, i) == timestamp + "_" + Numbered(Slugify(override), files, i) + ".sql"
  {
    hide Slugify, Numbered;
  }

  lemma VersionOfSql(base: string)
    requires base != ""
    ensures ParseVersion(base + ".sql") == Ok(FirstCut(base, ["__", "_", "-"]))
  {
    hide FirstCut, Ext;
    SqlExt(base);
    assert (base + ".sql")[..|base|] == base;
  }

  lemma CutAtUnderscore(timestamp: string, slug: string)
    requires timestamp != "" && AllDigits(timestamp) && IsSlug(slug)
    ensures FirstCut(timestamp + "_" + slug, ["__", "_", "-"]) == timestamp
  {
    var base, seps := timestamp + "_" + slug, ["__", "_", "-"];
    NoDoubleUnderscore(timestamp, slug);
    FirstUnderscore(timestamp, "_" + slug);
    hide IndexOf, AllDigits, IsSlug;
    assert base == timestamp + ("_" + slug) && base[..|timestamp|] == timestamp;
    assert seps[1..][0] == "_" && seps[0] == "__";
    assert FirstCut(base, seps) == FirstCut(base, seps[1..]);
  }

  lemma NoDoubleUnderscore(timestamp: string, slug: string)
    requires timestamp != "" && AllDigits(timestamp) && IsSlug(slug)
    ensures IndexOf(timestamp + "_" + slug, "__") == -1
  {
    var base := timestamp + "_" + slug;
    forall i | 0 <= i < |base| - 1 ensures !(base[i] == '_' && base[i + 1] == '_') {
      if i < |timestamp| {
        assert base[i] == timestamp[i] && timestamp[i] in timestamp;
      } else if i == |timestamp| {
        assert base[i + 1] == slug[0];
      } else {
        assert base[i] == slug[i - |timestamp| - 1] && base[i + 1] == slug[i - |timestamp|];
      }
    }
    NoDoubleIndex(base);
  }

  lemma {:induction false} NoDoubleIndex(s: string)
    requires !HasDouble(s)
    ensures IndexOf(s, "__") == -1
  {
    if |s| >= 2 {
      assert "__"[0] == '_' && "__"[1] == '_' && !(s[0] == '_' && s[1] == '_');
    }
    if s != "" {
      assert forall i :: 0 <= i < |s[1..]| ==> s[1..][i] == s[i + 1];
      NoDoubleIndex(s[1..]);
    }
  }

  lemma {:induction false} FirstUnderscore(digits: string, rest: string)
    requires AllDigits(digits) && rest != "" && rest[0] == '_'
    ensures IndexOf(digits + rest, "_") == |digits|
  {
    var s := digits + rest;
    if digits == "" {
      assert s == rest && "_" <= s;
    } else {
      assert s[0] == digits[0] && digits[0] in digits;
      assert s[1..] == digits[1..] + rest;
      FirstUnderscore(digits[1..], rest);
    }
  }
}
