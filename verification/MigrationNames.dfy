/** What the names of migration files say, in plain terms: the slug and the number of a generated
    file (generator/migrations.go), and the version and the direction that are read from any file
    name (orm/migrate/migrate.go). */
module MigrationNames {
  import opened Names
  import opened Database
  import opened Decimals
  import opened Results
  import opened MigrationFiles
  import opened MigrationDiscovery

  // The slug

  ghost function RunLength(s: string): (k: nat)
    ensures k <= |s| && (forall i :: 0 <= i < k ==> IsSlugChar(s[i])) && (k < |s| ==> !IsSlugChar(s[k]))
  {
    if s != [] && IsSlugChar(s[0]) then 1 + RunLength(s[1..]) else 0
  }

  /** The maximal runs of small letters and digits. */
  ghost function Words(s: string): (r: seq<string>)
    decreases |s|
  {
    if s == [] then []
    else if !IsSlugChar(s[0]) then Words(s[1..]) else
      [s[..RunLength(s)]] + Words(s[RunLength(s)..])
  }

  ghost function Joined(words: seq<string>): string {
    if words == [] then ""
    else if |words| == 1 then words[0] else
      words[0] + "_" + Joined(words[1..])
  }

  lemma {:induction false} WordsSkip(s: string)
    ensures Words(SkipOther(s)) == Words(s)
  {
    if s != [] && !IsSlugChar(s[0]) { WordsSkip(s[1..]); }
  }

  lemma {:induction false} SkipStart(s: string)
    ensures SkipOther(s) == [] || IsSlugChar(SkipOther(s)[0])
  {
    if s != [] && !IsSlugChar(s[0]) { SkipStart(s[1..]); }
  }

  lemma {:induction false} ReplaceFirstWord(s: string, k: nat)
    requires k <= |s| && forall i :: 0 <= i < k ==> IsSlugChar(s[i])
    ensures ReplaceRuns(s) == s[..k] + ReplaceRuns(s[k..])
  {
    if k == 0 {
      assert s[0..] == s;
    } else {
      ReplaceFirstWord(s[1..], k - 1);
      assert s[1..][k - 1..] == s[k..] && s[..k] == [s[0]] + s[1..][..k - 1];
    }
  }

  lemma {:induction false} TrimKeeps(a: string, b: string)
    requires TrimRight(b, IsUnderscore) != ""
    ensures TrimRight(a + b, IsUnderscore) == a + TrimRight(b, IsUnderscore)
  {
    var s := a + b;
    if b[|b| - 1] == '_' {
      assert s[..|s| - 1] == a + b[..|b| - 1];
      TrimKeeps(a, b[..|b| - 1]);
    }
  }

  lemma TrimLast(word: string)
    requires word != "" && IsSlugChar(word[|word| - 1])
    ensures TrimRight(word, IsUnderscore) == word && TrimRight(word + "_", IsUnderscore) == word
  {
    var s := word + "_";
    assert s[..|s| - 1] == word;
  }

  lemma JoinedMore(word: string, words: seq<string>)
    ensures Joined([word] + words) == if words == [] then word else word + "_" + Joined(words)
  {
    assert ([word] + words)[1..] == words;
  }

  lemma JoinedNonempty(s: string)
    requires s != [] && IsSlugChar(s[0])
    ensures Words(s) != [] && Joined(Words(s)) != ""
  {
    var k := RunLength(s);
    assert Words(s) == [s[..k]] + Words(s[k..]);
    JoinedMore(s[..k], Words(s[k..]));
  }

  lemma FirstWord(s: string)
    requires s != [] && IsSlugChar(s[0])
    ensures var k := RunLength(s);
      && 0 < k && IsSlugChar(s[k - 1]) && (k < |s| ==> !IsSlugChar(s[k]))
      && Words(s) == [s[..k]] + Words(s[k..]) && ReplaceRuns(s) == s[..k] + ReplaceRuns(s[k..])
  {
    ReplaceFirstWord(s, RunLength(s));
  }

  lemma WordAtEnd(word: string, rest: string)
    requires word != "" && IsSlugChar(word[|word| - 1])
    requires rest != [] ==> !IsSlugChar(rest[0]) && SkipOther(rest) == []
    ensures TrimRight(word + ReplaceRuns(rest), IsUnderscore) == word
  {
    hide *;
    TrimLast(word);
    NothingLeft([]);
    if rest == [] {
      assert word + "" == word;
    } else {
      RunsAfterWord(rest);
      assert "_" + "" == "_";
    }
  }

  lemma WordBefore(word: string, rest: string)
    requires rest != [] && !IsSlugChar(rest[0]) && TrimRight(ReplaceRuns(SkipOther(rest)), IsUnderscore) != ""
    ensures TrimRight(word + ReplaceRuns(rest), IsUnderscore)
      == word + "_" + TrimRight(ReplaceRuns(SkipOther(rest)), IsUnderscore)
  {
    hide *;
    var runs := ReplaceRuns(SkipOther(rest));
    RunsAfterWord(rest);
    TrimKeeps(word + "_", runs);
    assert word + ("_" + runs) == word + "_" + runs;
  }

  /** From the first letter on. */
  lemma {:induction false} TrimmedRuns(s: string)
    requires s == [] || IsSlugChar(s[0])
    ensures TrimRight(ReplaceRuns(s), IsUnderscore) == Joined(Words(s))
    decreases |s|
  {
    hide *;
    if s == [] {
      NothingLeft(s);
    } else {
      var k := RunLength(s);
      FirstWord(s);
      var word, rest := s[..k], s[k..];
      var next := SkipOther(rest);
      JoinedMore(word, Words(rest));
      WordsSkip(rest);
      SkipStart(rest);
      NothingLeft([]);
      if next == [] {
        WordAtEnd(word, rest);
      } else {
        RestShrinks(s, k);
        TrimmedRuns(next);
        JoinedNonempty(next);
        WordBefore(word, rest);
      }
    }
  }

  lemma RestShrinks(s: string, k: nat)
    requires 0 < k <= |s| && SkipOther(s[k..]) != []
    ensures s[k..] != [] && |SkipOther(s[k..])| < |s|
  {
  }

  lemma NothingLeft(s: string)
    requires s == []
    ensures ReplaceRuns(s) == "" && Words(s) == [] && Joined([]) == "" && TrimRight("", IsUnderscore) == ""
  {
  }

  lemma RunsAfterWord(rest: string)
    requires rest != [] && !IsSlugChar(rest[0])
    ensures ReplaceRuns(rest) == "_" + ReplaceRuns(SkipOther(rest)) && |SkipOther(rest)| < |rest|
  {
  }

  lemma TrimFront(s: string)
    ensures TrimLeft(ReplaceRuns(s), IsUnderscore) == ReplaceRuns(SkipOther(s))
  {
    SkipStart(s);
    if s != [] && !IsSlugChar(s[0]) {
      RunsAfterWord(s);
      var next := SkipOther(s);
      assert ("_" + ReplaceRuns(next))[1..] == ReplaceRuns(next);
    }
  }

  ghost predicate Blank(s: string) {
    forall i :: 0 <= i < |s| ==> IsSpace(s[i])
  }

  lemma {:induction false} LeftBlank(s: string) returns (a: string)
    ensures s == a + TrimLeft(s, IsSpace) && Blank(a)
  {
    hide IsSpace;
    if s != [] && IsSpace(s[0]) {
      var rest := LeftBlank(s[1..]);
      a := [s[0]] + rest;
      assert TrimLeft(s, IsSpace) == TrimLeft(s[1..], IsSpace);
      assert [s[0]] + (rest + TrimLeft(s[1..], IsSpace)) == a + TrimLeft(s[1..], IsSpace);
      assert s == [s[0]] + s[1..];
    } else {
      a := "";
    }
  }

  lemma {:induction false} RightBlank(s: string) returns (b: string)
    ensures s == TrimRight(s, IsSpace) + b && Blank(b)
  {
    if s != [] && IsSpace(s[|s| - 1]) {
      var init := RightBlank(s[..|s| - 1]);
      b := init + [s[|s| - 1]];
      assert s == s[..|s| - 1] + [s[|s| - 1]];
    } else {
      b := "";
    }
  }

  lemma LowerJoins(a: string, b: string)
    ensures ToLower(a + b) == ToLower(a) + ToLower(b)
  {
  }

  lemma {:induction false} BlankBefore(a: string, s: string)
    requires Blank(a)
    ensures Words(ToLower(a) + s) == Words(s)
  {
    if a != "" {
      var l := ToLower(a) + s;
      assert l[0] == a[0] && IsSpace(a[0]) && !IsSlugChar(l[0]);
      BlankBefore(a[1..], s);
      assert l[1..] == ToLower(a[1..]) + s;
    } else {
      assert ToLower(a) + s == s;
    }
  }

  lemma {:induction false} BlankAfter(s: string, b: string)
    requires Blank(b)
    ensures Words(s + ToLower(b)) == Words(s)
    decreases |s|
  {
    var l := s + ToLower(b);
    if s == [] {
      assert l == ToLower(b) + "";
      BlankBefore(b, "");
    } else if !IsSlugChar(s[0]) {
      assert l[1..] == s[1..] + ToLower(b);
      BlankAfter(s[1..], b);
    } else {
      RunBeforeBlank(s, b);
      var k := RunLength(s);
      assert l[..k] == s[..k] && l[k..] == s[k..] + ToLower(b);
      BlankAfter(s[k..], b);
    }
  }

  lemma {:induction false} RunIs(s: string, k: nat)
    requires k <= |s| && (forall i :: 0 <= i < k ==> IsSlugChar(s[i])) && (k < |s| ==> !IsSlugChar(s[k]))
    ensures RunLength(s) == k
  {
    if k > 0 { RunIs(s[1..], k - 1); }
  }

  lemma RunBeforeBlank(s: string, b: string)
    requires Blank(b)
    ensures RunLength(s + ToLower(b)) == RunLength(s)
  {
    var l, k := s + ToLower(b), RunLength(s);
    assert k == |s| && b != "" ==> l[k] == b[0] && IsSpace(b[0]);
    RunIs(l, k);
  }

  /** The slug joins the words of the lower-cased name by underscores; without any it is "schema". */
  lemma SlugifyIsWords(name: string)
    ensures var words := Words(ToLower(name));
      Slugify(name) == if words == [] then "schema" else Joined(words)
  {
    hide *;
    var t := TrimLeft(name, IsSpace);
    var trimmed := TrimRight(t, IsSpace);
    var a := LeftBlank(name);
    var b := RightBlank(t);
    LowerJoins(a, t);
    LowerJoins(trimmed, b);
    BlankBefore(a, ToLower(t));
    BlankAfter(ToLower(trimmed), b);
    var s := ToLower(trimmed);
    TrimFront(s);
    SkipStart(s);
    TrimmedRuns(SkipOther(s));
    WordsSkip(s);
    SlugifyUnfolds(name);
    NoWords(SkipOther(s));
  }

  lemma SlugifyUnfolds(name: string)
    ensures var s := ToLower(TrimRight(TrimLeft(name, IsSpace), IsSpace));
      var slug := TrimRight(TrimLeft(ReplaceRuns(s), IsUnderscore), IsUnderscore);
      Slugify(name) == if slug == "" then "schema" else slug
  {
    hide IsSpace, ToLower;
  }

  lemma NoWords(s: string)
    requires s == [] || IsSlugChar(s[0])
    ensures Words(s) == [] <==> Joined(Words(s)) == ""
  {
    if s != [] { JoinedNonempty(s); }
  }

  /** The names of one run: each file carries the timestamp, the slug and, if there are several, its
      number from one on, with two digits at least. */
  lemma FileNameParts(timestamp: string, override: string, files: nat, i: nat)
    ensures var name, start := FileName(timestamp, override, files, i), timestamp + "_" + Slugify(override);
      && (files <= 1 ==> name == start + ".sql")
      && (files > 1 && i < 9 ==> name == start + "_0" + [('1' as int + i) as char] + ".sql")
      && (files > 1 && i >= 9 ==> name == start + "_" + Itoa(i + 1) + ".sql")
  {
    hide Slugify, Itoa;
    var slug := Slugify(override);
    if files > 1 && i < 9 {
      SmallNumber(i);
      assert timestamp + "_" + (slug + "_" + Pad2(i + 1)) == timestamp + "_" + slug + "_" + Pad2(i + 1);
      assert "_" + ("0" + [('1' as int + i) as char]) == "_0" + [('1' as int + i) as char];
      assert timestamp + "_" + slug + "_" + Pad2(i + 1) == timestamp + "_" + slug + "_0" + [('1' as int + i) as char];
    } else if files > 1 {
      assert timestamp + "_" + (slug + "_" + Pad2(i + 1)) == timestamp + "_" + slug + "_" + Itoa(i + 1);
    } else {
      assert timestamp + "_" + slug == timestamp + "_" + Numbered(slug, files, i);
    }
  }

  lemma SmallNumber(i: nat)
    requires i < 9
    ensures Pad2(i + 1) == "0" + [('1' as int + i) as char]
  {
  }

  // The key of an operation, by which operations share a file

  ghost predicate OfTable(op: Operation) {
    op.CreateTable? || op.DropTable? || op.CreateHypertable? || op.DropHypertable?
  }

  ghost predicate OfColumn(op: Operation) {
    op.DropColumn? || op.AlterType? || op.AlterNullable? || op.SetDefault? || op.DropDefault?
  }

  /** The name of a check, character by character. */
  ghost predicate IsCheckName(table: string, column: string, name: string) {
    var text := table + "_" + column + "_enum_check";
    && |name| == |text|
    && forall i :: 0 <= i < |text| ==>
      if text[i] == '.' || text[i] == '-' || text[i] == ' ' then name[i] == '_'
      else if 'A' <= text[i] <= 'Z' then name[i] as int == text[i] as int + 32
      else name[i] == text[i]
  }

  /** A table goes by its name, a column by those of its table and its own, a key or a check by those
      of its table and its own, an index and an extension by their own; what has no name goes by the
      kind of the operation. */
  lemma KeyNames(op: Operation)
    ensures OfTable(op) && op.table != "" ==> Key(op) == op.table
    ensures OfColumn(op) ==> Key(op) == op.table + "." + op.column
    ensures op.AddColumn? ==> Key(op) == op.table + "." + op.def.name
    ensures op.AddForeignKey? ==> Key(op) == op.table + "." + op.fk.constraint
    ensures op.DropForeignKey? ==> Key(op) == op.table + "." + op.constraint
    ensures op.AddCheck? || op.DropCheck? ==>
      exists name :: IsCheckName(op.table, op.column, name) && Key(op) == op.table + "." + name
    ensures op.AddIndex? && op.idx.name != "" ==> Key(op) == op.idx.name
    ensures op.DropIndex? && op.index != "" ==> Key(op) == op.index
    ensures (op.CreateExtension? || op.DropExtension?) && op.ext != "" ==> Key(op) == op.ext
    ensures !Named(op) ==> Key(op) == KindName(op)
  {
    if op.AddCheck? || op.DropCheck? {
      assert IsCheckName(op.table, op.column, EnumConstraintName(op.table, op.column));
    }
  }

  ghost predicate Named(op: Operation) {
    match op
    case CreateExtension(e) => e != ""
    case DropExtension(e) => e != ""
    case AddIndex(_, idx) => idx.name != ""
    case DropIndex(i) => i != ""
    case _ => OfTable(op) ==> op.table != ""
  }

  ghost function KindName(op: Operation): string {
    if op.CreateTable? then "create_table"
    else if op.DropTable? then "drop_table"
    else if op.CreateHypertable? then "create_hypertable"
    else if op.DropHypertable? then "drop_hypertable"
    else if op.AddIndex? then "add_index"
    else if op.DropIndex? then "drop_index"
    else if op.CreateExtension? then "create_extension" else
      "drop_extension"
  }

  // The version

  /** The extension starts at the last dot of the last path element. */
  ghost predicate ExtAt(name: string, k: nat) {
    k < |name| && name[k] == '.' && forall j :: k < j < |name| ==> name[j] != '.' && name[j] != '/'
  }

  lemma ExtLater(init: string, c: char, k: nat)
    requires c != '.' && c != '/'
    ensures ExtAt(init + [c], k) <==> ExtAt(init, k)
  {
    var name := init + [c];
    assert forall i :: 0 <= i < |init| ==> name[i] == init[i];
  }

  lemma ExtStep(name: string)
    requires Ext(name) != ""
    ensures name != "" && name[|name| - 1] != '/'
    ensures name[|name| - 1] != '.' ==>
      Ext(name[..|name| - 1]) != "" && |Ext(name)| == |Ext(name[..|name| - 1])| + 1
    ensures name[|name| - 1] == '.' ==> |Ext(name)| == 1
  {
  }

  lemma {:induction false} ExtStarts(name: string)
    requires Ext(name) != ""
    ensures ExtAt(name, |name| - |Ext(name)|)
  {
    hide Ext;
    ExtStep(name);
    var init, c := name[..|name| - 1], name[|name| - 1];
    if c != '.' {
      ExtStarts(init);
      assert name == init + [c];
      ExtLater(init, c, |name| - |Ext(name)|);
    }
  }

  lemma {:induction false} ExtIsExact(name: string, k: nat)
    requires ExtAt(name, k)
    ensures |Ext(name)| == |name| - k
  {
    if k < |name| - 1 {
      assert ExtAt(name[..|name| - 1], k);
      ExtIsExact(name[..|name| - 1], k);
    }
  }

  ghost predicate At(s: string, sep: string, i: nat) {
    i + |sep| <= |s| && forall j :: 0 <= j < |sep| ==> s[i + j] == sep[j]
  }

  /** The separator is first met here, and not at the beginning. */
  ghost predicate CutAt(base: string, sep: string, i: nat) {
    i > 0 && At(base, sep, i) && forall j: nat :: j < i ==> !At(base, sep, j)
  }

  ghost predicate Cuts(base: string, sep: string) {
    exists i: nat :: CutAt(base, sep, i)
  }

  /** The version ends before a double underscore, else before an underscore, else before a dash. */
  ghost predicate IsVersion(base: string, version: string) {
    && (forall i: nat :: CutAt(base, "__", i) ==> version == base[..i])
    && (forall i: nat :: !Cuts(base, "__") && CutAt(base, "_", i) ==> version == base[..i])
    && (forall i: nat :: !Cuts(base, "__") && !Cuts(base, "_") && CutAt(base, "-", i) ==> version == base[..i])
    && (!Cuts(base, "__") && !Cuts(base, "_") && !Cuts(base, "-") ==> version == base)
  }

  lemma AtIsPrefix(s: string, sep: string, i: nat)
    requires i <= |s|
    ensures At(s, sep, i) <==> sep <= s[i..]
  {
    if At(s, sep, i) { assert s[i..][..|sep|] == sep; }
    if sep <= s[i..] { assert forall j :: 0 <= j < |sep| ==> s[i..][j] == s[i + j]; }
  }

  lemma CutIsIndex(base: string, sep: string, i: nat)
    requires sep != ""
    ensures CutAt(base, sep, i) <==> i > 0 && IndexOf(base, sep) == i
  {
    var n := IndexOf(base, sep);
    if n >= 0 { AtIsPrefix(base, sep, n); }
    forall j: nat | At(base, sep, j) ensures 0 <= n <= j {
      AtIsPrefix(base, sep, j);
      IndexOfIsFirst(base, sep, j);
    }
  }

  lemma FirstCutSteps(base: string)
    ensures FirstCut(base, ["__", "_", "-"]) ==
      if IndexOf(base, "__") > 0 then base[..IndexOf(base, "__")]
      else if IndexOf(base, "_") > 0 then base[..IndexOf(base, "_")]
      else if IndexOf(base, "-") > 0 then base[..IndexOf(base, "-")] else base
  {
    hide IndexOf;
    assert ["__", "_", "-"][1..] == ["_", "-"] && ["_", "-"][1..] == ["-"] && ["-"][1..] == [];
    assert FirstCut(base, ["-"]) == if IndexOf(base, "-") > 0 then base[..IndexOf(base, "-")] else base;
    assert FirstCut(base, ["_", "-"]) ==
      if IndexOf(base, "_") > 0 then base[..IndexOf(base, "_")] else FirstCut(base, ["-"]);
  }

  lemma CutsIsIndex(base: string, sep: string)
    requires sep != ""
    ensures Cuts(base, sep) <==> IndexOf(base, sep) > 0
    ensures forall i: nat :: CutAt(base, sep, i) ==> IndexOf(base, sep) == i > 0
  {
    hide CutAt, IndexOf;
    if IndexOf(base, sep) > 0 { CutIsIndex(base, sep, IndexOf(base, sep)); }
    forall i: nat | CutAt(base, sep, i) ensures IndexOf(base, sep) == i > 0 { CutIsIndex(base, sep, i); }
  }

  lemma FirstCutIsVersion(base: string)
    ensures IsVersion(base, FirstCut(base, ["__", "_", "-"]))
  {
    hide CutAt, Cuts, IndexOf, FirstCut;
    FirstCutSteps(base);
    CutsIsIndex(base, "__");
    CutsIsIndex(base, "_");
    CutsIsIndex(base, "-");
  }

  /** Every name but the empty one and a mere extension has a version. */
  lemma {:induction false} ParseVersionIsExact(name: string)
    ensures name == "" ==> ParseVersion(name) == Err(EmptyFilename)
    ensures ExtAt(name, 0) ==> ParseVersion(name) == Err(NoVersion(name))
    ensures forall k: nat :: k > 0 && ExtAt(name, k) ==>
      ParseVersion(name).Ok? && IsVersion(name[..k], ParseVersion(name).value)
    ensures name != "" && (forall k: nat :: !ExtAt(name, k)) ==>
      ParseVersion(name).Ok? && IsVersion(name, ParseVersion(name).value)
  {
    if Ext(name) != "" { ExtStarts(name); }
    forall k: nat | ExtAt(name, k) ensures |Ext(name)| == |name| - k { ExtIsExact(name, k); }
    hide Ext, IsVersion, FirstCut;
    FirstCutIsVersion(name[..|name| - |Ext(name)|]);
    assert name[..|name|] == name;
  }

  // The direction

  /** The text has the pattern here, in letters of either case. */
  ghost predicate MatchesAt(name: string, pattern: string, k: int) {
    && 0 <= k <= |name| - |pattern|
    && forall i :: 0 <= i < |pattern| ==>
      name[k + i] == pattern[i] || ('a' <= pattern[i] <= 'z' && name[k + i] as int == pattern[i] as int - 32)
  }

  /** A pattern without capitals. */
  ghost predicate IsLower(s: string) {
    forall i :: 0 <= i < |s| ==> !('A' <= s[i] <= 'Z')
  }

  lemma LowerMatches(name: string, pattern: string, k: nat)
    requires IsLower(pattern)
    ensures At(ToLower(name), pattern, k) <==> MatchesAt(name, pattern, k)
  {
  }

  lemma ContainsMatch(name: string, pattern: string)
    requires IsLower(pattern)
    ensures Contains(ToLower(name), pattern) <==> exists k :: MatchesAt(name, pattern, k)
  {
    var lower := ToLower(name);
    if Contains(lower, pattern) {
      var k := IndexOf(lower, pattern);
      AtIsPrefix(lower, pattern, k);
      LowerMatches(name, pattern, k);
    }
    forall k | MatchesAt(name, pattern, k) ensures Contains(lower, pattern) {
      LowerMatches(name, pattern, k);
      AtIsPrefix(lower, pattern, k);
      IndexOfIsFirst(lower, pattern, k);
    }
  }

  lemma SuffixMatch(name: string, pattern: string)
    requires IsLower(pattern)
    ensures HasSuffix(ToLower(name), pattern) <==> MatchesAt(name, pattern, |name| - |pattern|)
  {
    var lower, k := ToLower(name), |name| - |pattern|;
    if k >= 0 {
      LowerMatches(name, pattern, k);
      AtIsPrefix(lower, pattern, k);
      assert pattern <= lower[k..] <==> lower[k..] == pattern;
    }
  }

  /** The name says that the file undoes a migration: ".down." or ".rollback." anywhere in it, or
      "_down.sql" or "-down.sql" at its end, in any case. */
  ghost predicate NamedDown(name: string) {
    || (exists k :: MatchesAt(name, ".down.", k))
    || (exists k :: MatchesAt(name, ".rollback.", k))
    || MatchesAt(name, "_down.sql", |name| - 9)
    || MatchesAt(name, "-down.sql", |name| - 9)
  }

  lemma {:induction false} ClassifyIsExact(name: string)
    ensures ClassifyMigration(name).Down? <==> NamedDown(name)
  {
    hide ToLower, Contains, HasSuffix, MatchesAt;
    ContainsMatch(name, ".down.");
    ContainsMatch(name, ".rollback.");
    SuffixMatch(name, "_down.sql");
    SuffixMatch(name, "-down.sql");
    SuffixMatch(name, ".down.sql");
    DownSqlIsDown(name);
  }

  lemma DownSqlIsDown(name: string)
    ensures MatchesAt(name, ".down.sql", |name| - 9) ==> MatchesAt(name, ".down.", |name| - 9)
  {
    assert ".down." == ".down.sql"[..6];
  }
}
