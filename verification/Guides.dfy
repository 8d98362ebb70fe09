/** The bundled guides and the ten-slot document store they are synchronised into. Names are ASCII. */
module Guides {
  import opened Wrappers
  import opened Text
  import opened Uuids

  const MAX_APP_DOCUMENTS := 10
  const MAX_APP_DOCUMENT_BYTES := 20 * 1024 * 1024

  type Bytes = seq<bv8>

  datatype Document = Document(id: Uuid, title: string, fileName: string, contentType: string, content: Bytes,
                               checksum: string)

  /** Rows by app and lowered file name: the table's unique index. */
  type Documents = map<(Uuid, string), Document>

  datatype Input = Input(title: string, fileName: string, contentType: string, content: Bytes)

  /** A bundled file; `content` is None when it cannot be read. */
  datatype File = File(name: string, isDir: bool, content: Option<Bytes>)

  /** A top-level entry of the bundle. */
  datatype Entry = Entry(name: string, isDir: bool, files: seq<File>)

  /** What lies outside: content types by extension, titles, checksums, the identifier a new row gets, and the app
      a directory's name finds. */
  datatype Env = Env(
    typeOf: string -> Option<string>, titleOf: string -> string, digest: Bytes -> string,
    idFor: (Uuid, string) -> Uuid, appOf: string -> Option<Uuid>)

  datatype Outcome = Attached | Replaced | Unchanged | Failed

  datatype Summary = Summary(apps: nat, unmatched: nat, attached: nat, replaced: nat, kept: nat, failed: nat)

  function RowKey(app: Uuid, fileName: string): (Uuid, string) {
    (app, Lower(fileName))
  }

  function AppKeys(docs: Documents, app: Uuid): set<(Uuid, string)> {
    set k | k in docs && k.0 == app
  }

  function ReadBundled(f: File, env: Env): Option<Input> {
    if env.typeOf(f.name).None? || f.content.None? then None
    else if f.content.value == [] || |f.content.value| > MAX_APP_DOCUMENT_BYTES then None
    else Some(Input(env.titleOf(f.name), f.name, env.typeOf(f.name).value, f.content.value))
  }

  predicate Storable(input: Input) {
    Trim(input.fileName) != "" && Trim(input.contentType) != "" && input.content != []
  }

  function Stored(id: Uuid, input: Input, env: Env): Document {
    Document(id, Trim(input.title), Trim(input.fileName), Trim(input.contentType), input.content,
             env.digest(input.content))
  }

  /** The first half of a creation: the checks and the count, which nothing holds until the row is written. */
  function CountForCreate(docs: Documents, app: Uuid, input: Input): Result<()> {
    if !Storable(input) then Err(Invalid)
    else if |AppKeys(docs, app)| >= MAX_APP_DOCUMENTS then Err(Conflict)
    else Ok(())
  }

  /** The second half: the row itself, which only the unique name can stop. */
  function InsertDocument(docs: Documents, app: Uuid, input: Input, env: Env): Result<Documents> {
    var key := RowKey(app, Trim(input.fileName));
    if key in docs then Err(Conflict)
    else Ok(docs[key := Stored(env.idFor(app, Trim(input.fileName)), input, env)])
  }

  /** Both halves with nothing in between. */
  function CreateAppDocument(docs: Documents, app: Uuid, input: Input, env: Env): Result<Documents> {
    var counted := CountForCreate(docs, app, input);
    if counted.Err? then Err(counted.error) else InsertDocument(docs, app, input, env)
  }

  function DeleteAppDocument(docs: Documents, key: (Uuid, string)): Result<Documents> {
    if key in docs then Ok(docs - {key}) else Err(NotFound)
  }

  /** Replaces the row held under `current`, which may move it to another name's place in the index. */
  function ReplaceAppDocument(docs: Documents, current: (Uuid, string), input: Input, env: Env): Result<Documents> {
    var key := RowKey(current.0, Trim(input.fileName));
    if !Storable(input) then Err(Invalid)
    else if current !in docs then Err(NotFound)
    else if key != current && key in docs then Err(Conflict)
    else Ok((docs - {current})[key := Stored(docs[current].id, input, env)])
  }

  /** One file, `existing` being the rows as they were listed when the app was begun. */
  function SyncFile(docs: Documents, existing: Documents, app: Uuid, f: File, env: Env): (Documents, Outcome) {
    var read := ReadBundled(f, env);
    if read.None? then (docs, Failed)
    else
      var input, found := read.value, RowKey(app, f.name);
      if found in existing then
        if existing[found].checksum == env.digest(input.content) then (docs, Unchanged)
        else
          var r := ReplaceAppDocument(docs, found, input, env);
          if r.Ok? then (r.value, Replaced) else (docs, Failed)
      else
        var r := CreateAppDocument(docs, app, input, env);
        if r.Ok? then (r.value, Attached) else (docs, Failed)
  }

  function Counted(s: Summary, o: Outcome): Summary {
    match o
    case Attached => s.(attached := s.attached + 1)
    case Replaced => s.(replaced := s.replaced + 1)
    case Unchanged => s.(kept := s.kept + 1)
    case Failed => s.(failed := s.failed + 1)
  }

  /** The files of one app's directory. */
  function SyncFiles(docs: Documents, s: Summary, app: Uuid, files: seq<File>, env: Env): (Documents, Summary) {
    if files == [] then (docs, s)
    else
      var before, f := SyncFiles(docs, s, app, files[..|files| - 1], env), files[|files| - 1];
      if f.isDir then before
      else
        var r := SyncFile(before.0, docs, app, f, env);
        (r.0, Counted(before.1, r.1))
  }

  /** The app a directory of the bundle belongs to, if it is one and matches. */
  function Matched(e: Entry, env: Env): Option<Uuid> {
    if e.isDir then env.appOf(Lower(e.name)) else None
  }

  function SyncEntry(docs: Documents, s: Summary, e: Entry, env: Env): (Documents, Summary) {
    if Matched(e, env).Some? then SyncFiles(docs, s.(apps := s.apps + 1), Matched(e, env).value, e.files, env)
    else (docs, if e.isDir then s.(unmatched := s.unmatched + 1) else s)
  }

  /** The whole bundle. */
  function SyncAll(docs: Documents, bundle: seq<Entry>, env: Env): (Documents, Summary) {
    if bundle == [] then (docs, Summary(0, 0, 0, 0, 0, 0))
    else
      var before := SyncAll(docs, bundle[..|bundle| - 1], env);
      SyncEntry(before.0, before.1, bundle[|bundle| - 1], env)
  }

  class DocumentStore {
    var docs: Documents

    constructor ()
      ensures docs == map[]
    {
      docs := map[];
    }

    method Count(app: Uuid, input: Input) returns (reply: Result<()>)
      ensures reply == CountForCreate(docs, app, input)
    {
      if Trim(input.fileName) == "" || Trim(input.contentType) == "" || input.content == [] {
        return Err(Invalid);
      }
      var held := set k | k in docs && k.0 == app;
      if |held| >= MAX_APP_DOCUMENTS {
        return Err(Conflict);
      }
      return Ok(());
    }

    method Insert(app: Uuid, input: Input, env: Env) returns (reply: Result<()>)
      modifies this
      ensures var r := InsertDocument(old(docs), app, input, env);
              if r.Ok? then reply == Ok(()) && docs == r.value else reply == Err(r.error) && docs == old(docs)
    {
      var fileName := Trim(input.fileName);
      if RowKey(app, fileName) in docs {
        return Err(Conflict);
      }
      docs := docs[RowKey(app, fileName) := Stored(env.idFor(app, fileName), input, env)];
      return Ok(());
    }

    /** Two statements, run here with nothing in between. */
    method Create(app: Uuid, input: Input, env: Env) returns (reply: Result<()>)
      modifies this
      ensures var r := CreateAppDocument(old(docs), app, input, env);
              if r.Ok? then reply == Ok(()) && docs == r.value else reply == Err(r.error) && docs == old(docs)
    {
      reply := Count(app, input);
      if reply.Ok? {
        reply := Insert(app, input, env);
      }
    }

    method Delete(key: (Uuid, string)) returns (reply: Result<()>)
      modifies this
      ensures var r := DeleteAppDocument(old(docs), key);
              if r.Ok? then reply == Ok(()) && docs == r.value else reply == Err(r.error) && docs == old(docs)
    {
      if key !in docs {
        return Err(NotFound);
      }
      docs := docs - {key};
      return Ok(());
    }

    method Replace(current: (Uuid, string), input: Input, env: Env) returns (reply: Result<()>)
      modifies this
      ensures var r := ReplaceAppDocument(old(docs), current, input, env);
              if r.Ok? then reply == Ok(()) && docs == r.value else reply == Err(r.error) && docs == old(docs)
    {
      var fileName := Trim(input.fileName);
      if fileName == "" || Trim(input.contentType) == "" || input.content == [] {
        return Err(Invalid);
      }
      if current !in docs {
        return Err(NotFound);
      }
      var key := RowKey(current.0, fileName);
      if key != current && key in docs {
        return Err(Conflict);
      }
      docs := (docs - {current})[key := Stored(docs[current].id, input, env)];
      return Ok(());
    }
  }

  method SyncOne(store: DocumentStore, existing: Documents, app: Uuid, f: File, env: Env) returns (outcome: Outcome)
    modifies store
    ensures (store.docs, outcome) == SyncFile(old(store.docs), existing, app, f, env)
  {
    var read := ReadBundled(f, env);
    if read.None? {
      return Failed;
    }
    var input := read.value;
    if RowKey(app, f.name) in existing {
      if existing[RowKey(app, f.name)].checksum == env.digest(input.content) {
        return Unchanged;
      }
      var reply := store.Replace(RowKey(app, f.name), input, env);
      return if reply.Ok? then Replaced else Failed;
    }
    var reply := store.Create(app, input, env);
    return if reply.Ok? then Attached else Failed;
  }

  method SyncApp(store: DocumentStore, app: Uuid, files: seq<File>, before: Summary, env: Env) returns (s: Summary)
    modifies store
    ensures (store.docs, s) == SyncFiles(old(store.docs), before, app, files, env)
  {
    s := before;
    var existing := store.docs;
    for i := 0 to |files|
      invariant (store.docs, s) == SyncFiles(existing, before, app, files[..i], env)
    {
      assert files[..i + 1][..i] == files[..i];
      if files[i].isDir {
        continue;
      }
      var outcome := SyncOne(store, existing, app, files[i], env);
      s := Counted(s, outcome);
    }
    assert files[..|files|] == files;
  }

  method Sync(store: DocumentStore, bundle: seq<Entry>, env: Env) returns (s: Summary)
    modifies store
    ensures (store.docs, s) == SyncAll(old(store.docs), bundle, env)
  {
    s := Summary(0, 0, 0, 0, 0, 0);
    for i := 0 to |bundle|
      invariant (store.docs, s) == SyncAll(old(store.docs), bundle[..i], env)
    {
      assert bundle[..i + 1][..i] == bundle[..i];
      var e := bundle[i];
      if !e.isDir {
        continue;
      }
      var app := env.appOf(Lower(e.name));
      if app.None? {
        s := s.(unmatched := s.unmatched + 1);
        continue;
      }
      s := s.(apps := s.apps + 1);
      s := SyncApp(store, app.value, e.files, s, env);
    }
    assert bundle[..|bundle|] == bundle;
  }
}
