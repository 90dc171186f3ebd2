/** src/database/migrations/migration-loader.ts: from the files of a directory to the plan a runner applies. */
module MigrationPlan {
  import opened Prelude
  import opened Decimal
  import opened MigrationRunner
  import opened Sorting
  import SqlMask

  type Bytes = seq<bv8>

  datatype Source = Source(filename: string, bytes: Bytes)

  /** Fatal UTF-8 decoding, SHA-256 in hexadecimal, and the search for transaction control in masked SQL. */
  datatype Host = Host(decode: Bytes -> Option<string>, digest: Bytes -> string, controls: string -> bool)

  datatype PlanError = InvalidFilename | DuplicateVersion(version: nat) | Unreadable | InvalidContents(version: nat)

  datatype Plan = Planned(files: seq<Migration>) | Refused(error: PlanError)

  // ---------------------------------------------------------------- file names

  predicate IsSlugChar(c: char) {
    IsDigit(c) || 'a' <= c <= 'z'
  }

  /** Words of lower-case letters and digits, joined by single underscores. */
  predicate IsSlug(s: string) {
    && s != ""
    && (forall i :: 0 <= i < |s| ==> IsSlugChar(s[i]) || s[i] == '_')
    && IsSlugChar(s[0]) && IsSlugChar(s[|s| - 1])
    && (forall i :: 0 <= i < |s| - 1 ==> IsSlugChar(s[i]) || IsSlugChar(s[i + 1]))
  }

  predicate IsMigrationFilename(filename: string) {
    && |filename| > 9
    && AllDigits(filename[..4]) && filename[4] == '_'
    && filename[|filename| - 4..] == ".sql"
    && IsSlug(filename[5..|filename| - 4])
  }

  function ParseVersion(filename: string): (version: Option<nat>)
    ensures version.Some? ==> version.value >= 1
  {
    if !IsMigrationFilename(filename) then None
    else if NumberOf(filename[..4]) < 1 then None
    else Some(NumberOf(filename[..4]))
  }

  /** Distinct accepted names may share a version, but a name has the version it shows. */
  lemma VersionIsShown(version: nat, slug: string)
    requires 1 <= version < 10_000 && IsSlug(slug)
    ensures ParseVersion(Digits(4, version) + "_" + slug + ".sql") == Some(version)
  {
    var name := Digits(4, version) + "_" + slug + ".sql";
    assert name[..4] == Digits(4, version);
    assert name[5..|name| - 4] == slug;
    assert name[|name| - 4..] == ".sql";
    assert Pow10(4) == 10 * Pow10(3) == 100 * Pow10(2) == 1_000 * Pow10(1) == 10_000;
    DigitsThenNumber(4, version);
  }

  /** A name that is accepted shows its version in four digits, in front of a slug. */
  lemma AcceptedIsShown(filename: string) returns (slug: string)
    requires ParseVersion(filename).Some?
    ensures var version := ParseVersion(filename).value;
            1 <= version <= 9999 && IsSlug(slug) && filename == Digits(4, version) + "_" + slug + ".sql"
  {
    hide IsSlug, NumberOf, Digits;
    slug := filename[5..|filename| - 4];
    NumberThenDigits(filename[..4]);
    assert Pow10(4) == 10 * Pow10(3) == 100 * Pow10(2) == 1_000 * Pow10(1) == 10_000;
    assert filename == filename[..4] + [filename[4]] + slug + filename[|filename| - 4..];
  }

  predicate IsWord(word: string) {
    word != "" && forall i :: 0 <= i < |word| ==> '0' <= word[i] <= '9' || 'a' <= word[i] <= 'z'
  }

  function Joined(words: seq<string>): string
    requires words != []
  {
    if |words| == 1 then words[0] else words[0] + "_" + Joined(words[1..])
  }

  ghost predicate AreWords(words: seq<string>) {
    words != [] && forall word :: word in words ==> IsWord(word)
  }

  lemma {:induction false} JoinedWordsAreSlug(words: seq<string>)
    requires AreWords(words)
    ensures IsSlug(Joined(words))
  {
    assert words[0] in words;
    if |words| > 1 {
      assert AreWords(words[1..]) by {
        assert forall word :: word in words[1..] ==> word in words;
      }
      JoinedWordsAreSlug(words[1..]);
      SlugGrows(words[0], Joined(words[1..]));
    }
  }

  lemma SlugGrows(word: string, slug: string)
    requires IsWord(word) && IsSlug(slug)
    ensures IsSlug(word + "_" + slug)
  {
    var s := word + "_" + slug;
    assert s[0] == word[0] && s[|s| - 1] == slug[|slug| - 1];
    forall i | 0 <= i < |s| ensures IsSlugChar(s[i]) || s[i] == '_' {
      assert i > |word| ==> s[i] == slug[i - |word| - 1];
    }
    forall i | 0 <= i < |s| - 1 ensures IsSlugChar(s[i]) || IsSlugChar(s[i + 1]) {
      assert i >= |word| ==> s[i + 1] == slug[i - |word|];
      assert i > |word| ==> s[i] == slug[i - |word| - 1];
    }
  }

  lemma {:induction false} SlugIsJoinedWords(s: string) returns (words: seq<string>)
    requires IsSlug(s)
    ensures AreWords(words) && s == Joined(words)
    decreases |s|
  {
    if |s| == 1 {
      words := [s];
    } else if s[1] == '_' {
      assert IsSlugChar(s[1]) || IsSlugChar(s[2]);
      var rest := s[2..];
      assert forall i :: 0 <= i < |rest| ==> rest[i] == s[i + 2];
      var others := SlugIsJoinedWords(rest);
      words := [[s[0]]] + others;
      assert words[1..] == others;
      assert s == [s[0]] + "_" + rest;
    } else {
      var rest := s[1..];
      assert forall i :: 0 <= i < |rest| ==> rest[i] == s[i + 1];
      var others := SlugIsJoinedWords(rest);
      words := [[s[0]] + others[0]] + others[1..];
      assert words[1..] == others[1..];
      assert IsWord(others[0]) by { assert others[0] in others; }
      assert s == [s[0]] + rest;
    }
  }

  /** A slug is words of lower-case letters and digits, none of them empty, joined by single underscores. */
  lemma SlugIsWords(s: string)
    ensures IsSlug(s) <==> exists words :: AreWords(words) && s == Joined(words)
  {
    if IsSlug(s) {
      var words := SlugIsJoinedWords(s);
    }
    forall words | AreWords(words) && s == Joined(words) ensures IsSlug(s) {
      JoinedWordsAreSlug(words);
    }
  }

  // ---------------------------------------------------------------- what is refused

  /** What is wrong with source `i`, given the ones before it. */
  ghost function ErrorAt(host: Host, sources: seq<Source>, i: nat): (error: Option<PlanError>)
    requires i < |sources|
    ensures error.None? ==> ParseVersion(sources[i].filename).Some? && host.decode(sources[i].bytes).Some?
  {
    var version := ParseVersion(sources[i].filename);
    if version.None? then Some(InvalidFilename)
    else if exists j :: 0 <= j < i && ParseVersion(sources[j].filename) == version
    then Some(DuplicateVersion(version.value))
    else if host.decode(sources[i].bytes).None? then Some(Unreadable)
    else if host.controls(SqlMask.Mask(host.decode(sources[i].bytes).value)) then Some(InvalidContents(version.value))
    else None
  }

  /** The fault of a source is the first of: its name, a version used before, its encoding, transaction control. */
  lemma FaultIsExact(host: Host, sources: seq<Source>, i: nat)
    requires i < |sources|
    ensures var version, text := ParseVersion(sources[i].filename), host.decode(sources[i].bytes);
            var isUsed := exists j :: 0 <= j < i && ParseVersion(sources[j].filename) == version;
            && (ErrorAt(host, sources, i) == Some(InvalidFilename) <==> version.None?)
            && (forall v: nat :: ErrorAt(host, sources, i) == Some(DuplicateVersion(v)) <==>
                  version == Some(v) && isUsed)
            && (ErrorAt(host, sources, i) == Some(Unreadable) <==> version.Some? && !isUsed && text.None?)
            && (forall v: nat :: ErrorAt(host, sources, i) == Some(InvalidContents(v)) <==>
                  version == Some(v) && !isUsed && text.Some? && host.controls(SqlMask.Mask(text.value)))
  {
    hide ParseVersion, SqlMask.Mask;
  }

  ghost function FileAt(host: Host, sources: seq<Source>, i: nat): Migration
    requires i < |sources| && ErrorAt(host, sources, i).None?
  {
    var source := sources[i];
    Migration(Row(ParseVersion(source.filename).value, source.filename, host.digest(source.bytes)),
      host.decode(source.bytes).value)
  }

  // ---------------------------------------------------------------- sorting

  function CompareVersions(): Comparator<Migration> {
    (left: Migration, right: Migration) => left.row.version - right.row.version
  }

  ghost predicate DistinctVersions(files: seq<Migration>) {
    forall i, j :: 0 <= i < j < |files| ==> files[i].row.version != files[j].row.version
  }

  /** Sorting files of distinct versions gives a plan of the same files. */
  lemma SortedIsPlan(files: seq<Migration>)
    requires DistinctVersions(files)
    ensures IsPlan(Sort(CompareVersions(), files)) && multiset(Sort(CompareVersions(), files)) == multiset(files)
  {
    hide Sort;
    SortOrders(CompareVersions(), files);
    SortKeepsItems(CompareVersions(), files);
    var sorted := Sort(CompareVersions(), files);
    forall i, j | 0 <= i < j < |sorted| ensures sorted[i].row.version < sorted[j].row.version {
      assert CompareVersions()(sorted[i], sorted[j]) <= 0;
      SortedVersionsDiffer(files, sorted, i, j);
    }
  }

  lemma SortedVersionsDiffer(files: seq<Migration>, sorted: seq<Migration>, i: nat, j: nat)
    requires DistinctVersions(files) && multiset(sorted) == multiset(files) && i < j < |sorted|
    ensures sorted[i].row.version != sorted[j].row.version
  {
    assert sorted[i] in multiset(sorted) && sorted[j] in multiset(sorted);
    OnceInFiles(files, sorted[i]);
    TwiceCounted(sorted, i, j);
  }

  lemma OnceInFiles(files: seq<Migration>, m: Migration)
    requires DistinctVersions(files) && m in files
    ensures multiset(files)[m] == 1
  {
    var k :| 0 <= k < |files| && files[k] == m;
    assert files == files[..k] + [m] + files[k + 1..];
    assert m !in files[..k] && m !in files[k + 1..];
  }

  // ---------------------------------------------------------------- buildMigrationPlan

  lemma FilesAreDistinct(host: Host, sources: seq<Source>, files: seq<Migration>)
    requires forall i :: 0 <= i < |sources| ==> ErrorAt(host, sources, i).None?
    requires |files| == |sources| && forall i :: 0 <= i < |files| ==> files[i] == FileAt(host, sources, i)
    ensures DistinctVersions(files)
  {
    hide ParseVersion, SqlMask.Mask;
    forall i, j | 0 <= i < j < |files| ensures files[i].row.version != files[j].row.version {
      assert ErrorAt(host, sources, i).None? && ErrorAt(host, sources, j).None?;
    }
  }

  /**
   The plan holds exactly the migrations of all the sources in strictly ascending order of version; it is
   refused exactly when some source is at fault, with the fault of the first such source.
   */
  method BuildMigrationPlan(host: Host, sources: seq<Source>) returns (plan: Plan)
    ensures plan.Planned? <==> forall i :: 0 <= i < |sources| ==> ErrorAt(host, sources, i).None?
    ensures plan.Refused? ==>
              exists i :: 0 <= i < |sources| && ErrorAt(host, sources, i) == Some(plan.error)
                          && forall j :: 0 <= j < i ==> ErrorAt(host, sources, j).None?
    ensures plan.Planned? ==>
              && IsPlan(plan.files)
              && multiset(plan.files) ==
                   multiset(seq(|sources|, i requires 0 <= i < |sources| => FileAt(host, sources, i)))
  {
    hide ParseVersion, SqlMask.Mask, IsPlan, Sort;
    var versions: set<nat> := {};
    var migrations: seq<Migration> := [];
    for i := 0 to |sources|
      invariant forall k :: 0 <= k < i ==> ErrorAt(host, sources, k).None?
      invariant versions == set k | 0 <= k < i && ParseVersion(sources[k].filename).Some? ::
        ParseVersion(sources[k].filename).value
      invariant |migrations| == i && forall k :: 0 <= k < i ==> migrations[k] == FileAt(host, sources, k)
    {
      var source := sources[i];
      ghost var error := ErrorAt(host, sources, i);
      var version := ParseVersion(source.filename);
      if version.None? {
        return Refused(InvalidFilename);
      }
      if version.value in versions {
        return Refused(DuplicateVersion(version.value));
      }
      versions := versions + {version.value};
      var sql := host.decode(source.bytes);
      if sql.None? {
        return Refused(Unreadable);
      }
      var masked := SqlMask.MaskSqlStringsAndComments(sql.value);
      if host.controls(masked) {
        return Refused(InvalidContents(version.value));
      }
      migrations := migrations + [Migration(Row(version.value, source.filename, host.digest(source.bytes)), sql.value)];
    }
    FilesAreDistinct(host, sources, migrations);
    SortedIsPlan(migrations);
    assert migrations == seq(|sources|, i requires 0 <= i < |sources| => FileAt(host, sources, i));
    plan := Planned(Sort(CompareVersions(), migrations));
  }
}
