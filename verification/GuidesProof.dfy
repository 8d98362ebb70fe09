/** Synchronising twice is synchronising once, and nothing but the bundled names is touched. */
module GuidesProof {
  import opened Wrappers
  import opened Text
  import opened Uuids
  import opened Guides

  predicate Trimmed(s: string) {
    s == "" || (!IsSpace(s[0]) && !IsSpace(s[|s| - 1]))
  }

  /** Rows sit under their own name, stored without outer white space. */
  ghost predicate StoredOk(docs: Documents) {
    forall k :: k in docs ==> k.1 == Lower(docs[k].fileName) && Trimmed(docs[k].fileName)
  }

  lemma LowerKeepsSpace(c: char)
    ensures IsSpace(LowerChar(c)) <==> IsSpace(c)
  {
  }

  lemma LowerKeepsTrimmed(s: string)
    ensures Trimmed(Lower(s)) <==> Trimmed(s)
  {
    if s != "" {
      LowerKeepsSpace(s[0]);
      LowerKeepsSpace(s[|s| - 1]);
    }
  }

  lemma {:induction false} TrimRightKeepsFirst(s: string)
    ensures TrimRight(s) != "" ==> s != "" && TrimRight(s)[0] == s[0]
  {
    if s != "" && IsSpace(s[|s| - 1]) {
      TrimRightKeepsFirst(s[..|s| - 1]);
    }
  }

  lemma TrimIsTrimmed(s: string)
    ensures Trimmed(Trim(s)) && (Trimmed(s) ==> Trim(s) == s)
  {
    TrimLeftStarts(s);
    TrimRightEnds(TrimLeft(s));
    TrimRightKeepsFirst(TrimLeft(s));
  }

  /** Where a file's bytes end up. */
  function Slot(app: Uuid, f: File): (Uuid, string) {
    RowKey(app, Trim(f.name))
  }

  /** A stored row found under a file's own name is in that file's slot. */
  lemma FoundInItsSlot(docs: Documents, app: Uuid, f: File)
    requires StoredOk(docs) && RowKey(app, f.name) in docs
    ensures RowKey(app, f.name) == Slot(app, f)
  {
    var k := RowKey(app, f.name);
    LowerKeepsTrimmed(docs[k].fileName);
    LowerKeepsTrimmed(f.name);
    TrimIsTrimmed(f.name);
  }

  /** Synchronising a file again would change nothing. */
  ghost predicate Settled(docs: Documents, app: Uuid, f: File, env: Env) {
    var r := SyncFile(docs, docs, app, f, env);
    r.0 == docs && (r.1.Unchanged? || r.1.Failed?)
  }

  ghost predicate SameRow(docs: Documents, docs': Documents, k: (Uuid, string)) {
    (k in docs <==> k in docs') && (k in docs ==> docs[k] == docs'[k])
  }

  /** What work on some slots may do: no row goes, and no row elsewhere changes. */
  ghost predicate OnlyTouches(docs: Documents, docs': Documents, slots: set<(Uuid, string)>) {
    docs.Keys <= docs'.Keys && forall k :: k !in slots ==> SameRow(docs, docs', k)
  }

  lemma StoredRowIsOk(docs: Documents, app: Uuid, id: Uuid, input: Input, env: Env)
    requires StoredOk(docs)
    ensures var key := RowKey(app, Trim(input.fileName));
            && StoredOk(docs[key := Stored(id, input, env)])
            && OnlyTouches(docs, docs[key := Stored(id, input, env)], {key})
  {
    TrimIsTrimmed(input.fileName);
  }

  /** A file that is found with its own checksum is settled. */
  lemma CarriedIsSettled(docs: Documents, app: Uuid, f: File, env: Env)
    requires ReadBundled(f, env).Some? && RowKey(app, f.name) in docs
    requires docs[RowKey(app, f.name)].checksum == env.digest(ReadBundled(f, env).value.content)
    ensures Settled(docs, app, f, env)
  {
  }

  /** A file that is not found and cannot be created is settled. */
  lemma RefusedIsSettled(docs: Documents, app: Uuid, f: File, env: Env)
    requires ReadBundled(f, env).Some? && RowKey(app, f.name) !in docs
    requires CreateAppDocument(docs, app, ReadBundled(f, env).value, env).Err?
    ensures Settled(docs, app, f, env)
  {
  }

  lemma CreatedIsSettled(docs: Documents, app: Uuid, f: File, env: Env)
    requires StoredOk(docs) && RowKey(app, f.name) !in docs && ReadBundled(f, env).Some?
    ensures var r := CreateAppDocument(docs, app, ReadBundled(f, env).value, env);
            var docs' := if r.Ok? then r.value else docs;
            StoredOk(docs') && Settled(docs', app, f, env) && OnlyTouches(docs, docs', {Slot(app, f)})
  {
    var input := ReadBundled(f, env).value;
    var r := CreateAppDocument(docs, app, input, env);
    if r.Ok? {
      var id := env.idFor(app, Trim(f.name));
      StoredRowIsOk(docs, app, id, input, env);
      assert r.value == docs[Slot(app, f) := Stored(id, input, env)];
      if RowKey(app, f.name) in r.value {
        FoundInItsSlot(r.value, app, f);
        CarriedIsSettled(r.value, app, f, env);
      } else {
        assert CreateAppDocument(r.value, app, input, env).Err?;
        RefusedIsSettled(r.value, app, f, env);
      }
    } else {
      RefusedIsSettled(docs, app, f, env);
    }
  }

  lemma ReplacedIsSettled(docs: Documents, app: Uuid, f: File, env: Env)
    requires StoredOk(docs) && RowKey(app, f.name) in docs && ReadBundled(f, env).Some?
    requires docs[RowKey(app, f.name)].checksum != env.digest(ReadBundled(f, env).value.content)
    ensures var r := ReplaceAppDocument(docs, RowKey(app, f.name), ReadBundled(f, env).value, env);
            var docs' := if r.Ok? then r.value else docs;
            StoredOk(docs') && Settled(docs', app, f, env) && OnlyTouches(docs, docs', {Slot(app, f)})
  {
    hide StoredOk, Settled, OnlyTouches, Lower, Trim, Trimmed;
    var input, k := ReadBundled(f, env).value, RowKey(app, f.name);
    FoundInItsSlot(docs, app, f);
    var r := ReplaceAppDocument(docs, k, input, env);
    if r.Ok? {
      assert r.value == docs[k := Stored(docs[k].id, input, env)];
      StoredRowIsOk(docs, app, docs[k].id, input, env);
      CarriedIsSettled(r.value, app, f, env);
    } else {
      UnstorableIsSettled(docs, app, f, env);
    }
  }

  /** A file that is found, but whose new content cannot be stored, is settled. */
  lemma UnstorableIsSettled(docs: Documents, app: Uuid, f: File, env: Env)
    requires RowKey(app, f.name) in docs && ReadBundled(f, env).Some?
    requires ReplaceAppDocument(docs, RowKey(app, f.name), ReadBundled(f, env).value, env).Err?
    ensures Settled(docs, app, f, env) && forall slots :: OnlyTouches(docs, docs, slots)
  {
  }

  /** The rows a file could be found in are as they were when the app's rows were listed. */
  ghost predicate AsListed(docs: Documents, existing: Documents, app: Uuid, f: File) {
    SameRow(existing, docs, RowKey(app, f.name))
  }

  /** After a file's turn, it is settled, and no other row changed. */
  lemma FileSettles(docs: Documents, existing: Documents, app: Uuid, f: File, env: Env)
    requires StoredOk(docs) && AsListed(docs, existing, app, f)
    ensures var docs' := SyncFile(docs, existing, app, f, env).0;
            StoredOk(docs') && Settled(docs', app, f, env) && OnlyTouches(docs, docs', {Slot(app, f)})
  {
    var read := ReadBundled(f, env);
    if read.Some? {
      var k := RowKey(app, f.name);
      if k !in existing {
        CreatedIsSettled(docs, app, f, env);
      } else if existing[k].checksum != env.digest(read.value.content) {
        ReplacedIsSettled(docs, app, f, env);
      }
    }
  }

  lemma MoreRows(docs: Documents, docs': Documents, app: Uuid)
    requires docs.Keys <= docs'.Keys
    ensures |AppKeys(docs, app)| <= |AppKeys(docs', app)|
  {
    assert AppKeys(docs', app) == AppKeys(docs, app) + (AppKeys(docs', app) - AppKeys(docs, app));
  }

  lemma FoundNowFoundBefore(docs: Documents, docs': Documents, app: Uuid, f: File, slots: set<(Uuid, string)>)
    requires StoredOk(docs') && OnlyTouches(docs, docs', slots) && Slot(app, f) !in slots
    ensures RowKey(app, f.name) in docs' <==> RowKey(app, f.name) in docs
    ensures RowKey(app, f.name) in docs' ==> docs'[RowKey(app, f.name)] == docs[RowKey(app, f.name)]
  {
    if RowKey(app, f.name) in docs' {
      FoundInItsSlot(docs', app, f);
      assert SameRow(docs, docs', Slot(app, f));
    }
  }

  lemma StillRefused(docs: Documents, docs': Documents, app: Uuid, input: Input, env: Env)
    requires docs.Keys <= docs'.Keys && CreateAppDocument(docs, app, input, env).Err?
    ensures CreateAppDocument(docs', app, input, env).Err?
  {
    MoreRows(docs, docs', app);
  }

  /** A settled file that is found either carries its checksum or cannot be stored at all. */
  lemma SettledWhenFound(docs: Documents, app: Uuid, f: File, env: Env)
    requires StoredOk(docs) && ReadBundled(f, env).Some? && RowKey(app, f.name) in docs
    ensures Settled(docs, app, f, env) <==>
              docs[RowKey(app, f.name)].checksum == env.digest(ReadBundled(f, env).value.content)
              || !Storable(ReadBundled(f, env).value)
  {
    FoundInItsSlot(docs, app, f);
  }

  /** A settled file stays settled while other slots are worked on. */
  lemma StaysSettled(docs: Documents, docs': Documents, app: Uuid, f: File, slots: set<(Uuid, string)>, env: Env)
    requires StoredOk(docs) && StoredOk(docs') && Settled(docs, app, f, env) && OnlyTouches(docs, docs', slots)
    requires Slot(app, f) !in slots
    ensures Settled(docs', app, f, env)
  {
    if ReadBundled(f, env).Some? {
      FoundNowFoundBefore(docs, docs', app, f, slots);
      if RowKey(app, f.name) in docs' {
        SettledWhenFound(docs, app, f, env);
        SettledWhenFound(docs', app, f, env);
      } else {
        StillRefused(docs, docs', app, ReadBundled(f, env).value, env);
        RefusedIsSettled(docs', app, f, env);
      }
    }
  }

  lemma TouchesChain(a: Documents, b: Documents, c: Documents, first: set<(Uuid, string)>, second: set<(Uuid, string)>)
    requires OnlyTouches(a, b, first) && OnlyTouches(b, c, second)
    ensures OnlyTouches(a, c, first + second)
  {
    forall k | k !in first + second ensures SameRow(a, c, k) {
      assert SameRow(a, b, k) && SameRow(b, c, k);
    }
  }

  // ---- One app ----

  ghost function Slots(app: Uuid, files: seq<File>): set<(Uuid, string)> {
    set i | 0 <= i < |files| && !files[i].isDir :: Slot(app, files[i])
  }

  /** No two files of a directory differ only in case or outer white space. */
  ghost predicate DistinctNames(files: seq<File>) {
    forall i, j :: 0 <= i < j < |files| && !files[i].isDir && !files[j].isDir ==>
      Lower(Trim(files[i].name)) != Lower(Trim(files[j].name))
  }

  ghost predicate FilesSettled(docs: Documents, app: Uuid, files: seq<File>, env: Env) {
    forall i :: 0 <= i < |files| && !files[i].isDir ==> Settled(docs, app, files[i], env)
  }

  /** A file's rows are not those of the files before it. */
  lemma ApartFromEarlier(app: Uuid, files: seq<File>, n: nat)
    requires DistinctNames(files) && n < |files| && !files[n].isDir
    ensures Slot(app, files[n]) !in Slots(app, files[..n]) && RowKey(app, files[n].name) !in Slots(app, files[..n])
  {
    var f := files[n];
    TrimIsTrimmed(f.name);
    LowerKeepsTrimmed(f.name);
    forall i | 0 <= i < n && !files[i].isDir
      ensures Slot(app, files[i]) != Slot(app, f) && Slot(app, files[i]) != RowKey(app, f.name)
    {
      TrimIsTrimmed(files[i].name);
      LowerKeepsTrimmed(Trim(files[i].name));
    }
  }

  lemma SlotsNext(app: Uuid, files: seq<File>, n: nat)
    requires n + 1 == |files|
    ensures Slots(app, files) == Slots(app, files[..n]) + (if files[n].isDir then {} else {Slot(app, files[n])})
  {
    assert forall i :: 0 <= i < n ==> files[..n][i] == files[i];
  }

  /** What one app's pass achieves. */
  ghost predicate AppDone(docs: Documents, docs': Documents, app: Uuid, files: seq<File>, env: Env) {
    StoredOk(docs') && FilesSettled(docs', app, files, env) && OnlyTouches(docs, docs', Slots(app, files))
  }

  lemma DirectorySkipped(docs: Documents, docs': Documents, app: Uuid, files: seq<File>, n: nat, env: Env)
    requires n + 1 == |files| && files[n].isDir && AppDone(docs, docs', app, files[..n], env)
    ensures AppDone(docs, docs', app, files, env)
  {
    SlotsNext(app, files, n);
    forall i | 0 <= i < |files| && !files[i].isDir ensures Settled(docs', app, files[i], env) {
      assert files[..n][i] == files[i];
    }
  }

  lemma DistinctPrefix(files: seq<File>, n: nat)
    requires DistinctNames(files) && n <= |files|
    ensures DistinctNames(files[..n])
  {
  }

  lemma NothingTouched(docs: Documents, app: Uuid, env: Env)
    requires StoredOk(docs)
    ensures AppDone(docs, docs, app, [], env)
  {
  }

  lemma {:induction false} AppSettles(docs: Documents, s: Summary, app: Uuid, files: seq<File>, env: Env)
    requires StoredOk(docs) && DistinctNames(files)
    ensures AppDone(docs, SyncFiles(docs, s, app, files, env).0, app, files, env)
  {
    if files == [] {
      NothingTouched(docs, app, env);
    } else {
      var n := |files| - 1;
      var before := SyncFiles(docs, s, app, files[..n], env).0;
      DistinctPrefix(files, n);
      AppSettles(docs, s, app, files[..n], env);
      if files[n].isDir {
        DirectorySkipped(docs, before, app, files, n, env);
      } else {
        NextFileSettles(docs, before, app, files, n, env);
      }
    }
  }

  lemma NextFileSettles(docs: Documents, before: Documents, app: Uuid, files: seq<File>, n: nat, env: Env)
    requires DistinctNames(files) && n + 1 == |files| && !files[n].isDir
    requires AppDone(docs, before, app, files[..n], env)
    ensures AppDone(docs, SyncFile(before, docs, app, files[n], env).0, app, files, env)
  {
    var f := files[n];
    ApartFromEarlier(app, files, n);
    assert SameRow(docs, before, RowKey(app, f.name));
    FileSettles(before, docs, app, f, env);
    var docs' := SyncFile(before, docs, app, f, env).0;
    SlotsNext(app, files, n);
    TouchesChain(docs, before, docs', Slots(app, files[..n]), {Slot(app, f)});
    forall i | 0 <= i < n && !files[i].isDir ensures Settled(docs', app, files[i], env) {
      assert files[..n][i] == files[i];
      assert Settled(before, app, files[..n][i], env);
      assert Slot(app, files[i]) in Slots(app, files[..n]);
      StaysSettled(before, docs', app, files[i], {Slot(app, f)}, env);
    }
  }

  // ---- The bundle ----

  /** Different directories belong to different apps, and file names are distinct within each. */
  ghost predicate WellFormed(bundle: seq<Entry>, env: Env) {
    && (forall i :: 0 <= i < |bundle| && bundle[i].isDir ==> DistinctNames(bundle[i].files))
    && (forall i, j :: 0 <= i < j < |bundle| && Matched(bundle[i], env).Some? ==>
          Matched(bundle[i], env) != Matched(bundle[j], env))
  }

  ghost predicate EntrySettled(docs: Documents, e: Entry, env: Env) {
    Matched(e, env).Some? ==> FilesSettled(docs, Matched(e, env).value, e.files, env)
  }

  ghost predicate AllSettled(docs: Documents, bundle: seq<Entry>, env: Env) {
    forall i :: 0 <= i < |bundle| ==> EntrySettled(docs, bundle[i], env)
  }

  ghost function EntrySlots(e: Entry, env: Env): set<(Uuid, string)> {
    if Matched(e, env).Some? then Slots(Matched(e, env).value, e.files) else {}
  }

  ghost function BundleSlots(bundle: seq<Entry>, env: Env): set<(Uuid, string)> {
    set i, k | 0 <= i < |bundle| && k in EntrySlots(bundle[i], env) :: k
  }

  lemma BundleSlotsNext(bundle: seq<Entry>, n: nat, env: Env)
    requires n + 1 == |bundle|
    ensures BundleSlots(bundle, env) == BundleSlots(bundle[..n], env) + EntrySlots(bundle[n], env)
  {
    assert forall i :: 0 <= i < n ==> bundle[..n][i] == bundle[i];
  }

  lemma EntryStaysSettled(docs: Documents, docs': Documents, e: Entry, app: Uuid, files: seq<File>, env: Env)
    requires StoredOk(docs) && StoredOk(docs') && EntrySettled(docs, e, env)
    requires OnlyTouches(docs, docs', Slots(app, files))
    requires Matched(e, env) != Some(app)
    ensures EntrySettled(docs', e, env)
  {
    if Matched(e, env).Some? {
      forall i | 0 <= i < |e.files| && !e.files[i].isDir
        ensures Settled(docs', Matched(e, env).value, e.files[i], env)
      {
        StaysSettled(docs, docs', Matched(e, env).value, e.files[i], Slots(app, files), env);
      }
    }
  }

  /** What a pass over some of the bundle achieves. */
  ghost predicate BundleDone(docs: Documents, docs': Documents, bundle: seq<Entry>, env: Env) {
    StoredOk(docs') && AllSettled(docs', bundle, env) && OnlyTouches(docs, docs', BundleSlots(bundle, env))
  }

  lemma EntrySkipped(docs: Documents, docs': Documents, bundle: seq<Entry>, n: nat, env: Env)
    requires n + 1 == |bundle| && Matched(bundle[n], env).None? && BundleDone(docs, docs', bundle[..n], env)
    ensures BundleDone(docs, docs', bundle, env)
  {
    BundleSlotsNext(bundle, n, env);
    assert BundleSlots(bundle[..n], env) + {} == BundleSlots(bundle[..n], env);
    AllSettledNext(docs', bundle, n, env);
  }

  lemma AllSettledNext(docs: Documents, bundle: seq<Entry>, n: nat, env: Env)
    requires n + 1 == |bundle| && AllSettled(docs, bundle[..n], env) && EntrySettled(docs, bundle[n], env)
    ensures AllSettled(docs, bundle, env)
  {
    hide EntrySettled;
    forall i | 0 <= i < |bundle| ensures EntrySettled(docs, bundle[i], env) {
      if i < n {
        assert EntrySettled(docs, bundle[..n][i], env);
      }
    }
  }

  lemma EntrySettles(docs: Documents, before: Documents, docs': Documents, bundle: seq<Entry>, n: nat, env: Env)
    requires WellFormed(bundle, env) && n + 1 == |bundle| && Matched(bundle[n], env).Some?
    requires BundleDone(docs, before, bundle[..n], env)
    requires AppDone(before, docs', Matched(bundle[n], env).value, bundle[n].files, env)
    ensures BundleDone(docs, docs', bundle, env)
  {
    var app, files := Matched(bundle[n], env).value, bundle[n].files;
    BundleSlotsNext(bundle, n, env);
    TouchesChain(docs, before, docs', BundleSlots(bundle[..n], env), Slots(app, files));
    forall i | 0 <= i < n ensures EntrySettled(docs', bundle[i], env) {
      assert EntrySettled(before, bundle[..n][i], env);
      EntryStaysSettled(before, docs', bundle[i], app, files, env);
    }
  }

  lemma WellFormedPrefix(bundle: seq<Entry>, n: nat, env: Env)
    requires WellFormed(bundle, env) && n <= |bundle|
    ensures WellFormed(bundle[..n], env)
  {
  }

  lemma {:induction false} BundleSettles(docs: Documents, bundle: seq<Entry>, env: Env)
    requires StoredOk(docs) && WellFormed(bundle, env)
    ensures BundleDone(docs, SyncAll(docs, bundle, env).0, bundle, env)
  {
    if bundle != [] {
      var n := |bundle| - 1;
      var before := SyncAll(docs, bundle[..n], env);
      WellFormedPrefix(bundle, n, env);
      BundleSettles(docs, bundle[..n], env);
      if Matched(bundle[n], env).Some? {
        var s := before.1.(apps := before.1.apps + 1);
        AppSettles(before.0, s, Matched(bundle[n], env).value, bundle[n].files, env);
        EntrySettles(docs, before.0, SyncAll(docs, bundle, env).0, bundle, n, env);
      } else {
        EntrySkipped(docs, before.0, bundle, n, env);
      }
    }
  }

  lemma {:induction false} SettledFilesStay(docs: Documents, s: Summary, app: Uuid, files: seq<File>, env: Env)
    requires FilesSettled(docs, app, files, env)
    ensures var r := SyncFiles(docs, s, app, files, env);
            r.0 == docs && r.1.attached == s.attached && r.1.replaced == s.replaced
  {
    if files != [] {
      var n := |files| - 1;
      assert forall i :: 0 <= i < n ==> files[..n][i] == files[i];
      SettledFilesStay(docs, s, app, files[..n], env);
    }
  }

  lemma {:induction false} SettledBundleStays(docs: Documents, bundle: seq<Entry>, env: Env)
    requires AllSettled(docs, bundle, env)
    ensures var r := SyncAll(docs, bundle, env);
            r.0 == docs && r.1.attached == 0 && r.1.replaced == 0
  {
    if bundle != [] {
      var n := |bundle| - 1;
      assert forall i :: 0 <= i < n ==> bundle[..n][i] == bundle[i];
      SettledBundleStays(docs, bundle[..n], env);
      var e, before := bundle[n], SyncAll(docs, bundle[..n], env);
      assert EntrySettled(docs, e, env);
      if Matched(e, env).Some? {
        SettledFilesStay(docs, before.1.(apps := before.1.apps + 1), Matched(e, env).value, e.files, env);
      }
    }
  }

  /** A second pass over the same bundle attaches and replaces nothing, and rows under other names or of other apps
      are never touched. */
  lemma SyncTwiceIsSyncOnce(docs: Documents, bundle: seq<Entry>, env: Env)
    requires StoredOk(docs) && WellFormed(bundle, env)
    ensures var once := SyncAll(docs, bundle, env).0;
            var again := SyncAll(once, bundle, env);
            && again.0 == once && again.1.attached == 0 && again.1.replaced == 0
            && OnlyTouches(docs, once, BundleSlots(bundle, env)) && AllSettled(once, bundle, env)
  {
    BundleSettles(docs, bundle, env);
    SettledBundleStays(SyncAll(docs, bundle, env).0, bundle, env);
  }

  /** What being settled means for a storable file with a plain name: the app carries its checksum in its slot, or
      has no room for it. */
  lemma SettledMeansCarriedExactly(docs: Documents, app: Uuid, f: File, env: Env)
    requires StoredOk(docs) && ReadBundled(f, env).Some? && Storable(ReadBundled(f, env).value) && Trimmed(f.name)
    ensures Settled(docs, app, f, env) <==>
              if Slot(app, f) in docs then docs[Slot(app, f)].checksum == env.digest(f.content.value)
              else |AppKeys(docs, app)| >= MAX_APP_DOCUMENTS
  {
    TrimIsTrimmed(f.name);
    var k := Slot(app, f);
    if k in docs && docs[k].checksum != env.digest(f.content.value) {
      assert ReplaceAppDocument(docs, k, ReadBundled(f, env).value, env).Ok?;
    }
  }

  // ---- The summary ----

  function FileCount(files: seq<File>): nat {
    if files == [] then 0 else FileCount(files[..|files| - 1]) + (if files[|files| - 1].isDir then 0 else 1)
  }

  /** The files of the directories that belong to an app. */
  function MatchedFiles(bundle: seq<Entry>, env: Env): nat {
    if bundle == [] then 0
    else MatchedFiles(bundle[..|bundle| - 1], env)
         + (if Matched(bundle[|bundle| - 1], env).Some? then FileCount(bundle[|bundle| - 1].files) else 0)
  }

  function Directories(bundle: seq<Entry>): nat {
    if bundle == [] then 0 else Directories(bundle[..|bundle| - 1]) + (if bundle[|bundle| - 1].isDir then 1 else 0)
  }

  function Handled(s: Summary): nat {
    s.attached + s.replaced + s.kept + s.failed
  }

  lemma {:induction false} FilesAreCounted(docs: Documents, s: Summary, app: Uuid, files: seq<File>, env: Env)
    ensures var r := SyncFiles(docs, s, app, files, env).1;
            Handled(r) == Handled(s) + FileCount(files) && r.apps == s.apps && r.unmatched == s.unmatched
  {
    if files != [] {
      FilesAreCounted(docs, s, app, files[..|files| - 1], env);
    }
  }

  lemma EntryIsCounted(docs: Documents, before: Summary, e: Entry, env: Env)
    ensures var s := SyncEntry(docs, before, e, env).1;
            && Handled(s) == Handled(before) + (if Matched(e, env).Some? then FileCount(e.files) else 0)
            && s.apps + s.unmatched == before.apps + before.unmatched + (if e.isDir then 1 else 0)
  {
    if Matched(e, env).Some? {
      FilesAreCounted(docs, before.(apps := before.apps + 1), Matched(e, env).value, e.files, env);
    }
  }

  ghost predicate AllCounted(s: Summary, bundle: seq<Entry>, env: Env) {
    Handled(s) == MatchedFiles(bundle, env) && s.apps + s.unmatched == Directories(bundle)
  }

  lemma CountedNext(docs: Documents, before: Summary, bundle: seq<Entry>, n: nat, env: Env)
    requires n + 1 == |bundle| && AllCounted(before, bundle[..n], env)
    ensures AllCounted(SyncEntry(docs, before, bundle[n], env).1, bundle, env)
  {
    EntryIsCounted(docs, before, bundle[n], env);
  }

  /** Every file of a matched directory is counted once, and every directory is matched or unmatched. */
  lemma {:induction false} EverythingIsCounted(docs: Documents, bundle: seq<Entry>, env: Env)
    ensures AllCounted(SyncAll(docs, bundle, env).1, bundle, env)
  {
    if bundle == [] {
      assert SyncAll(docs, bundle, env).1 == Summary(0, 0, 0, 0, 0, 0);
    } else {
      var n := |bundle| - 1;
      EverythingIsCounted(docs, bundle[..n], env);
      CountedNext(SyncAll(docs, bundle[..n], env).0, SyncAll(docs, bundle[..n], env).1, bundle, n, env);
    }
  }

  // ---- Ten slots ----

  ghost predicate TenSlots(docs: Documents) {
    forall app :: |AppKeys(docs, app)| <= MAX_APP_DOCUMENTS
  }

  lemma AddedRow(docs: Documents, key: (Uuid, string), d: Document)
    requires TenSlots(docs) && |AppKeys(docs, key.0)| < MAX_APP_DOCUMENTS
    ensures TenSlots(docs[key := d])
  {
    var docs' := docs[key := d];
    forall a ensures |AppKeys(docs', a)| <= MAX_APP_DOCUMENTS {
      assert |AppKeys(docs, a)| <= MAX_APP_DOCUMENTS;
      if a == key.0 {
        assert AppKeys(docs', a) == AppKeys(docs, a) + {key};
      } else {
        assert AppKeys(docs', a) == AppKeys(docs, a);
      }
    }
  }

  lemma CreatingKeepsTenSlots(docs: Documents, app: Uuid, input: Input, env: Env)
    requires TenSlots(docs) && CreateAppDocument(docs, app, input, env).Ok?
    ensures TenSlots(CreateAppDocument(docs, app, input, env).value)
  {
    AddedRow(docs, RowKey(app, Trim(input.fileName)), Stored(env.idFor(app, Trim(input.fileName)), input, env));
  }

  lemma ReplacingKeepsTenSlots(docs: Documents, current: (Uuid, string), input: Input, env: Env)
    requires TenSlots(docs) && ReplaceAppDocument(docs, current, input, env).Ok?
    ensures TenSlots(ReplaceAppDocument(docs, current, input, env).value)
  {
    var docs' := ReplaceAppDocument(docs, current, input, env).value;
    forall a ensures |AppKeys(docs', a)| <= MAX_APP_DOCUMENTS {
      assert |AppKeys(docs, a)| <= MAX_APP_DOCUMENTS;
      RenamedRows(docs, docs', current, RowKey(current.0, Trim(input.fileName)), a);
    }
  }

  lemma OneFileKeepsTenSlots(docs: Documents, existing: Documents, app: Uuid, f: File, env: Env)
    requires TenSlots(docs)
    ensures TenSlots(SyncFile(docs, existing, app, f, env).0)
  {
    if ReadBundled(f, env).Some? {
      var input, found := ReadBundled(f, env).value, RowKey(app, f.name);
      if CreateAppDocument(docs, app, input, env).Ok? {
        CreatingKeepsTenSlots(docs, app, input, env);
      }
      if ReplaceAppDocument(docs, found, input, env).Ok? {
        ReplacingKeepsTenSlots(docs, found, input, env);
      }
    }
  }

  lemma RenamedRows(docs: Documents, docs': Documents, from: (Uuid, string), to: (Uuid, string), a: Uuid)
    requires from in docs && docs'.Keys == docs.Keys - {from} + {to} && from.0 == to.0
    ensures |AppKeys(docs', a)| <= |AppKeys(docs, a)|
  {
    if a == from.0 {
      assert AppKeys(docs', a) == AppKeys(docs, a) - {from} + {to};
    } else {
      assert AppKeys(docs', a) == AppKeys(docs, a);
    }
  }

  lemma {:induction false} AppKeepsTenSlots(docs: Documents, s: Summary, app: Uuid, files: seq<File>, env: Env)
    requires TenSlots(docs)
    ensures TenSlots(SyncFiles(docs, s, app, files, env).0)
  {
    if files != [] {
      var n := |files| - 1;
      AppKeepsTenSlots(docs, s, app, files[..n], env);
      OneFileKeepsTenSlots(SyncFiles(docs, s, app, files[..n], env).0, docs, app, files[n], env);
    }
  }

  /** However large the bundle, a pass with no other creation in progress leaves no app with more than ten documents. */
  lemma {:induction false} SyncKeepsTenSlots(docs: Documents, bundle: seq<Entry>, env: Env)
    requires TenSlots(docs)
    ensures TenSlots(SyncAll(docs, bundle, env).0)
  {
    if bundle != [] {
      var n := |bundle| - 1;
      SyncKeepsTenSlots(docs, bundle[..n], env);
      var before, e := SyncAll(docs, bundle[..n], env), bundle[n];
      if Matched(e, env).Some? {
        AppKeepsTenSlots(before.0, before.1.(apps := before.1.apps + 1), Matched(e, env).value, e.files, env);
      }
    }
  }
}
