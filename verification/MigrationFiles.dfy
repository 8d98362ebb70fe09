/** Loading the embedded migration files: which are accepted and in what order they run. */
module MigrationFiles {
  import opened Text
  import opened Migrations

  datatype Entry = Entry(name: string, isDir: bool, body: string)

  datatype LoadError = BadName(name: string) | DuplicateVersion(version: string) | EmptyFile(name: string) | NoFiles

  datatype Loaded = Files(files: seq<File>) | Refused(error: LoadError)

  predicate IsDigit(c: char) {
    '0' <= c <= '9'
  }

  predicate IsNameChar(c: char) {
    IsDigit(c) || 'a' <= c <= 'z' || 'A' <= c <= 'Z' || c == '_' || c == '-'
  }

  function DigitsAt(s: string): (n: nat)
    ensures n <= |s|
  {
    if s != "" && IsDigit(s[0]) then 1 + DigitsAt(s[1..]) else 0
  }

  predicate IsSql(name: string) {
    |name| >= 4 && name[|name| - 4..] == ".sql"
  }

  /** The file name pattern: at least six digits, an underscore, a name, and the extension. */
  predicate WellNamed(name: string) {
    var d := DigitsAt(name);
    && d >= 6 && d + 6 <= |name| && name[d] == '_' && IsSql(name)
    && forall i :: d < i < |name| - 4 ==> IsNameChar(name[i])
  }

  function Version(name: string): string {
    name[..DigitsAt(name)]
  }

  /** Whether the loader looks at an entry at all. */
  predicate Relevant(e: Entry) {
    !e.isDir && IsSql(e.name)
  }

  function FileOf(e: Entry, digest: string -> string): File
    requires WellNamed(e.name)
  {
    File(Version(e.name), e.name[DigitsAt(e.name) + 1..|e.name| - 4], e.body, digest(e.body))
  }

  predicate HasVersion(files: seq<File>, version: string) {
    exists f :: f in files && f.version == version
  }

  /** The files of the entries so far, or the first reason to refuse them. */
  function Collected(entries: seq<Entry>, digest: string -> string): Loaded {
    if entries == [] then Files([])
    else
      var before, e := Collected(entries[..|entries| - 1], digest), entries[|entries| - 1];
      if before.Refused? || !Relevant(e) then before
      else if !WellNamed(e.name) then Refused(BadName(e.name))
      else if HasVersion(before.files, Version(e.name)) then Refused(DuplicateVersion(Version(e.name)))
      else if Trim(e.body) == "" then Refused(EmptyFile(e.name))
      else Files(before.files + [FileOf(e, digest)])
  }

  /** Go's order on strings: byte by byte. */
  predicate Precedes(a: string, b: string) {
    b != "" && (a == "" || a[0] < b[0] || (a[0] == b[0] && Precedes(a[1..], b[1..])))
  }

  function Insert(f: File, files: seq<File>): seq<File> {
    if files == [] || Precedes(f.version, files[0].version) then [f] + files
    else [files[0]] + Insert(f, files[1..])
  }

  /** sort.Slice by version. */
  function Sorted(files: seq<File>): seq<File> {
    if files == [] then [] else Insert(files[0], Sorted(files[1..]))
  }

  function Load(entries: seq<Entry>, digest: string -> string): Loaded {
    var found := Collected(entries, digest);
    if found.Refused? then found
    else if found.files == [] then Refused(NoFiles)
    else Files(Sorted(found.files))
  }

  lemma {:induction false} RefusalStays(entries: seq<Entry>, n: nat, digest: string -> string)
    requires n <= |entries| && Collected(entries[..n], digest).Refused?
    ensures Collected(entries, digest) == Collected(entries[..n], digest)
    decreases |entries| - n
  {
    if n == |entries| {
      assert entries[..n] == entries;
    } else {
      assert entries[..n + 1][..n] == entries[..n];
      RefusalStays(entries, n + 1, digest);
    }
  }

  method LoadMigrations(entries: seq<Entry>, digest: string -> string) returns (result: Loaded)
    ensures result == Load(entries, digest)
  {
    var files: seq<File> := [];
    var seen: set<string> := {};
    for i := 0 to |entries|
      invariant Collected(entries[..i], digest) == Files(files)
      invariant forall v :: v in seen <==> HasVersion(files, v)
    {
      assert entries[..i + 1][..i] == entries[..i];
      var e := entries[i];
      if e.isDir || !IsSql(e.name) {
        continue;
      }
      if !WellNamed(e.name) {
        RefusalStays(entries, i + 1, digest);
        return Refused(BadName(e.name));
      }
      var version := Version(e.name);
      if version in seen {
        RefusalStays(entries, i + 1, digest);
        return Refused(DuplicateVersion(version));
      }
      VersionAdded(files, FileOf(e, digest));
      seen := seen + {version};
      if Trim(e.body) == "" {
        RefusalStays(entries, i + 1, digest);
        return Refused(EmptyFile(e.name));
      }
      files := files + [FileOf(e, digest)];
    }
    assert entries[..|entries|] == entries;
    if files == [] {
      return Refused(NoFiles);
    }
    return Files(Sorted(files));
  }

  lemma VersionAdded(files: seq<File>, f: File)
    ensures forall v :: HasVersion(files + [f], v) <==> v == f.version || HasVersion(files, v)
  {
    forall v ensures HasVersion(files + [f], v) <==> v == f.version || HasVersion(files, v) {
      assert f in files + [f];
      if HasVersion(files, v) {
        var g :| g in files && g.version == v;
        assert g in files + [f];
      }
    }
  }

  // ---- Names ----

  lemma {:induction false} DigitsEndAt(s: string, n: nat)
    requires n <= |s| && (forall i :: 0 <= i < n ==> IsDigit(s[i])) && (n < |s| ==> !IsDigit(s[n]))
    ensures DigitsAt(s) == n
  {
    if n > 0 {
      DigitsEndAt(s[1..], n - 1);
    }
  }

  lemma {:induction false} DigitsAreDigits(s: string)
    ensures forall i :: 0 <= i < DigitsAt(s) ==> IsDigit(s[i])
  {
    if s != "" && IsDigit(s[0]) {
      DigitsAreDigits(s[1..]);
      assert forall i :: 0 < i < DigitsAt(s) ==> s[i] == s[1..][i - 1];
    }
  }

  /** A file name and the version and title it is made of: six digits or more, and letters, digits, underscores and
      hyphens. */
  ghost predicate Names(name: string, version: string, title: string) {
    && name == version + "_" + title + ".sql"
    && |version| >= 6 && (forall i :: 0 <= i < |version| ==> '0' <= version[i] <= '9')
    && title != ""
    && forall i :: 0 <= i < |title| ==>
         '0' <= title[i] <= '9' || 'a' <= title[i] <= 'z' || 'A' <= title[i] <= 'Z' || title[i] in {'_', '-'}
  }

  /** A file is read under exactly the version and title its name is made of, with its own text and checksum. */
  lemma NameIsReadExactly(e: Entry, version: string, title: string, digest: string -> string)
    ensures WellNamed(e.name) && FileOf(e, digest) == File(version, title, e.body, digest(e.body))
            <==> Names(e.name, version, title)
  {
    if Names(e.name, version, title) {
      NameIsRead(e.name, version, title);
    }
    if WellNamed(e.name) && FileOf(e, digest) == File(version, title, e.body, digest(e.body)) {
      ReadNameIsMade(e.name, version, title);
    }
  }

  /** A text put together of two others around one character, with four more behind. */
  lemma PutTogether(s: string, a: string, c: char, b: string, t: string)
    requires s == a + [c] + b + t && |t| == 4
    ensures |s| == |a| + 1 + |b| + 4
    ensures s[..|a|] == a && s[|a|] == c && s[|a| + 1..|s| - 4] == b && s[|s| - 4..] == t
    ensures forall i :: 0 <= i < |a| ==> a[i] == s[i]
    ensures forall i :: |a| < i < |s| - 4 ==> s[i] == b[i - |a| - 1]
  {
  }

  lemma NameIsRead(name: string, version: string, title: string)
    requires Names(name, version, title)
    ensures WellNamed(name) && Version(name) == version && name[DigitsAt(name) + 1..|name| - 4] == title
  {
    hide DigitsAt;
    PutTogether(name, version, '_', title, ".sql");
    DigitsEndAt(name, |version|);
  }

  lemma ReadNameIsMade(name: string, version: string, title: string)
    requires WellNamed(name) && Version(name) == version && name[DigitsAt(name) + 1..|name| - 4] == title
    ensures Names(name, version, title)
  {
    hide DigitsAt;
    DigitsAreDigits(name);
    assert name == version + ['_'] + title + ".sql" by {
      assert name == name[..DigitsAt(name)] + name[DigitsAt(name)..];
    }
    PutTogether(name, version, '_', title, ".sql");
    assert forall i :: 0 <= i < |title| ==> title[i] == name[|version| + 1 + i];
  }

  // ---- Order ----

  /** Two texts compared at the first place where they differ; the end of a text comes first. */
  ghost predicate DiffersBelow(a: string, b: string, k: int) {
    0 <= k <= |a| && k < |b| && a[..k] == b[..k] && (k == |a| || a[k] < b[k])
  }

  lemma {:induction false} PrecedesExactly(a: string, b: string)
    ensures Precedes(a, b) <==> exists k :: DiffersBelow(a, b, k)
    decreases |a|
  {
    if a == "" {
      assert b != "" ==> DiffersBelow(a, b, 0);
    } else if b != "" {
      PrecedesExactly(a[1..], b[1..]);
      if a[0] < b[0] {
        assert DiffersBelow(a, b, 0);
      } else if Precedes(a, b) {
        var k :| DiffersBelow(a[1..], b[1..], k);
        assert a[..k + 1] == [a[0]] + a[1..][..k] && b[..k + 1] == [b[0]] + b[1..][..k];
        assert DiffersBelow(a, b, k + 1);
      }
      if k :| DiffersBelow(a, b, k) {
        if k > 0 {
          assert a[..k][0] == b[..k][0];
          assert a[1..][..k - 1] == a[..k][1..] == b[..k][1..] == b[1..][..k - 1];
          assert DiffersBelow(a[1..], b[1..], k - 1);
        }
      }
    }
  }

  lemma {:induction false} PrecedesTotal(a: string, b: string)
    ensures a == b || Precedes(a, b) || Precedes(b, a)
    ensures !(Precedes(a, b) && Precedes(b, a)) && !(a == b && Precedes(a, b))
    decreases |a|
  {
    if a != "" && b != "" {
      PrecedesTotal(a[1..], b[1..]);
      assert a == [a[0]] + a[1..] && b == [b[0]] + b[1..];
    }
  }

  lemma {:induction false} PrecedesTransitive(a: string, b: string, c: string)
    requires Precedes(a, b) && Precedes(b, c)
    ensures Precedes(a, c)
    decreases |a|
  {
    if a != "" && a[0] == b[0] == c[0] {
      PrecedesTransitive(a[1..], b[1..], c[1..]);
    }
  }

  ghost predicate InOrder(files: seq<File>) {
    forall i, j :: 0 <= i < j < |files| ==> Precedes(files[i].version, files[j].version)
  }

  lemma HeadPrecedesAll(head: File, f: File, rest: seq<File>, inserted: seq<File>)
    requires multiset(inserted) == multiset(rest) + multiset{f} && Precedes(head.version, f.version)
    requires forall g :: g in rest ==> Precedes(head.version, g.version)
    ensures forall j :: 0 <= j < |inserted| ==> Precedes(head.version, inserted[j].version)
  {
    forall j | 0 <= j < |inserted| ensures Precedes(head.version, inserted[j].version) {
      assert inserted[j] in multiset(inserted);
      assert inserted[j] == f || inserted[j] in rest;
    }
  }

  lemma InFront(f: File, files: seq<File>)
    requires InOrder(files) && files != [] && Precedes(f.version, files[0].version)
    ensures InOrder([f] + files)
  {
    forall j | 0 < j < |files| ensures Precedes(f.version, files[j].version) {
      PrecedesTransitive(f.version, files[0].version, files[j].version);
    }
  }

  lemma {:induction false} InsertOrders(f: File, files: seq<File>)
    requires InOrder(files) && !HasVersion(files, f.version)
    ensures InOrder(Insert(f, files)) && multiset(Insert(f, files)) == multiset(files) + multiset{f}
    decreases |files|
  {
    if files != [] {
      var head, rest := files[0], files[1..];
      assert files == [head] + rest;
      PrecedesTotal(f.version, head.version);
      if Precedes(f.version, head.version) {
        InFront(f, files);
      } else {
        assert head in files && !HasVersion(rest, f.version);
        InsertOrders(f, rest);
        HeadPrecedesAll(head, f, rest, Insert(f, rest));
      }
    }
  }

  lemma {:induction false} SortedOrders(files: seq<File>)
    requires DistinctVersions(files)
    ensures InOrder(Sorted(files)) && multiset(Sorted(files)) == multiset(files)
  {
    if files != [] {
      var rest := files[1..];
      SortedOrders(rest);
      assert files == [files[0]] + rest;
      forall g | g in Sorted(rest) ensures g.version != files[0].version {
        assert g in multiset(Sorted(rest));
        assert g in rest;
      }
      InsertOrders(files[0], Sorted(rest));
    }
  }

  // ---- What is accepted ----

  /** Every file the loader looks at is well named and says something, and no two share a version. */
  ghost predicate Acceptable(entries: seq<Entry>) {
    && (forall i :: 0 <= i < |entries| && Relevant(entries[i]) ==>
          WellNamed(entries[i].name) && Trim(entries[i].body) != "")
    && (forall i, j :: 0 <= i < j < |entries| && Relevant(entries[i]) && Relevant(entries[j]) ==>
                         Version(entries[i].name) != Version(entries[j].name))
  }

  /** The files of a list of acceptable entries, as they come. */
  function FilesOf(entries: seq<Entry>, digest: string -> string): seq<File>
    requires forall i :: 0 <= i < |entries| && Relevant(entries[i]) ==> WellNamed(entries[i].name)
  {
    if entries == [] then []
    else
      var e := entries[|entries| - 1];
      FilesOf(entries[..|entries| - 1], digest) + (if Relevant(e) then [FileOf(e, digest)] else [])
  }

  /** Some entry the loader looks at has this version. */
  ghost predicate Named(entries: seq<Entry>, version: string) {
    exists i :: 0 <= i < |entries| && Relevant(entries[i]) && Version(entries[i].name) == version
  }

  lemma NamedNext(entries: seq<Entry>, n: nat, version: string)
    requires n + 1 == |entries|
    ensures Named(entries, version) <==>
              Named(entries[..n], version) || (Relevant(entries[n]) && Version(entries[n].name) == version)
  {
    if Named(entries[..n], version) {
      var i :| 0 <= i < n && Relevant(entries[..n][i]) && Version(entries[..n][i].name) == version;
      assert entries[i] == entries[..n][i];
    }
    if Named(entries, version) {
      var i :| 0 <= i < |entries| && Relevant(entries[i]) && Version(entries[i].name) == version;
      assert i < n ==> entries[..n][i] == entries[i];
    }
  }

  lemma AcceptableNext(entries: seq<Entry>, n: nat)
    requires n + 1 == |entries|
    ensures Acceptable(entries) <==>
              Acceptable(entries[..n]) &&
              (Relevant(entries[n]) ==>
                 WellNamed(entries[n].name) && Trim(entries[n].body) != ""
                 && !Named(entries[..n], Version(entries[n].name)))
  {
    assert forall i :: 0 <= i < n ==> entries[..n][i] == entries[i];
  }

  lemma {:induction false} FilesAreNamed(entries: seq<Entry>, digest: string -> string, version: string)
    requires forall i :: 0 <= i < |entries| && Relevant(entries[i]) ==> WellNamed(entries[i].name)
    ensures HasVersion(FilesOf(entries, digest), version) <==> Named(entries, version)
  {
    if entries != [] {
      var n := |entries| - 1;
      FilesAreNamed(entries[..n], digest, version);
      NamedNext(entries, n, version);
      if Relevant(entries[n]) {
        VersionAdded(FilesOf(entries[..n], digest), FileOf(entries[n], digest));
      }
    }
  }

  lemma {:induction false} CollectedExactly(entries: seq<Entry>, digest: string -> string)
    ensures Collected(entries, digest).Files? <==> Acceptable(entries)
    ensures Acceptable(entries) ==> Collected(entries, digest).files == FilesOf(entries, digest)
    ensures Acceptable(entries) ==> DistinctVersions(FilesOf(entries, digest))
  {
    if entries != [] {
      var n := |entries| - 1;
      CollectedExactly(entries[..n], digest);
      AcceptableNext(entries, n);
      if Acceptable(entries[..n]) {
        forall v ensures HasVersion(FilesOf(entries[..n], digest), v) <==> Named(entries[..n], v) {
          FilesAreNamed(entries[..n], digest, v);
        }
      }
    }
  }

  /** Loading succeeds exactly when every entry looked at is acceptable and there is one; what is loaded is then
      exactly those files, in strictly rising order of their versions. */
  lemma LoadedExactly(entries: seq<Entry>, digest: string -> string)
    ensures Load(entries, digest).Files?
            <==> Acceptable(entries) && exists i :: 0 <= i < |entries| && Relevant(entries[i])
    ensures Load(entries, digest).Files? ==>
              var files := Load(entries, digest).files;
              InOrder(files) && DistinctVersions(files) && multiset(files) == multiset(FilesOf(entries, digest))
  {
    CollectedExactly(entries, digest);
    if Acceptable(entries) {
      var found := FilesOf(entries, digest);
      SortedOrders(found);
      SomeFileExactly(entries, digest);
      forall i, j | 0 <= i < j < |Sorted(found)| ensures Sorted(found)[i].version != Sorted(found)[j].version {
        PrecedesTotal(Sorted(found)[i].version, Sorted(found)[j].version);
      }
    }
  }

  /** What the loader looks at: the files, not the directories, whose names end in the extension. */
  lemma RelevantExactly(e: Entry)
    ensures Relevant(e) <==> !e.isDir && exists stem :: e.name == stem + ".sql"
  {
    var n := |e.name| - 4;
    if Relevant(e) {
      assert e.name == e.name[..n] + ".sql";
    }
    if stem :| e.name == stem + ".sql" {
      assert e.name[|stem|..] == ".sql" && |stem| == n;
    }
  }

  /** Why loading is refused: for the first entry that cannot be accepted, its name before its version before its
      emptiness; or for want of any file. */
  lemma RefusedExactly(entries: seq<Entry>, k: nat, digest: string -> string)
    requires k < |entries| && Acceptable(entries[..k]) && !Acceptable(entries[..k + 1])
    ensures var e := entries[k];
            Load(entries, digest)
            == Refused(if !WellNamed(e.name) then BadName(e.name)
                       else if Named(entries[..k], Version(e.name)) then DuplicateVersion(Version(e.name))
                       else EmptyFile(e.name))
  {
    var e, upTo := entries[k], entries[..k + 1];
    assert upTo[..k] == entries[..k];
    CollectedExactly(entries[..k], digest);
    CollectedExactly(upTo, digest);
    AcceptableNext(upTo, k);
    if WellNamed(e.name) {
      FilesAreNamed(entries[..k], digest, Version(e.name));
    }
    RefusalStays(entries, k + 1, digest);
  }

  lemma NothingToLoadExactly(entries: seq<Entry>, digest: string -> string)
    ensures Load(entries, digest) == Refused(NoFiles)
            <==> forall i :: 0 <= i < |entries| ==> !Relevant(entries[i])
  {
    CollectedExactly(entries, digest);
    if Acceptable(entries) {
      SomeFileExactly(entries, digest);
    } else {
      NeverWantsFiles(entries, digest);
    }
  }

  lemma {:induction false} NeverWantsFiles(entries: seq<Entry>, digest: string -> string)
    ensures Collected(entries, digest) != Refused(NoFiles)
  {
    if entries != [] {
      NeverWantsFiles(entries[..|entries| - 1], digest);
    }
  }

  lemma {:induction false} SomeFileExactly(entries: seq<Entry>, digest: string -> string)
    requires forall i :: 0 <= i < |entries| && Relevant(entries[i]) ==> WellNamed(entries[i].name)
    ensures FilesOf(entries, digest) != [] <==> exists i :: 0 <= i < |entries| && Relevant(entries[i])
  {
    if entries != [] {
      var n := |entries| - 1;
      SomeFileExactly(entries[..n], digest);
      if i :| 0 <= i < n && Relevant(entries[..n][i]) {
        assert Relevant(entries[i]);
      }
      if i :| 0 <= i < n && Relevant(entries[i]) {
        assert Relevant(entries[..n][i]);
      }
    }
  }
}
