/** What storing a document answers and leaves behind, column by column, and what the sync of one file comes to. */
module DocumentEffects {
  import opened Wrappers
  import opened Text
  import opened Uuids
  import opened Guides

  /** A row holds what was sent, names and types without outer space, under the content's own checksum. */
  ghost predicate Holds(d: Document, input: Input, env: Env) {
    && d.title == Trim(input.title) && d.fileName == Trim(input.fileName) && d.contentType == Trim(input.contentType)
    && d.content == input.content && d.checksum == env.digest(input.content)
  }

  ghost predicate Complete(input: Input) {
    Trim(input.fileName) != "" && Trim(input.contentType) != "" && |input.content| > 0
  }

  /** An app's place for a file name: letter case does not tell names apart. */
  ghost function PlaceOf(app: Uuid, fileName: string): (Uuid, string) {
    (app, Lower(fileName))
  }

  /** One row was added. */
  ghost predicate Added(docs: Documents, after: Documents, app: Uuid, input: Input, env: Env) {
    var place := PlaceOf(app, Trim(input.fileName));
    && place !in docs && after.Keys == docs.Keys + {place}
    && (forall k :: k in docs ==> after[k] == docs[k])
    && Holds(after[place], input, env) && after[place].id == env.idFor(app, Trim(input.fileName))
  }

  lemma CreationExactly(docs: Documents, app: Uuid, input: Input, env: Env)
    ensures var r := CreateAppDocument(docs, app, input, env);
            && (r == Err(Invalid) <==> !Complete(input))
            && (r.Ok? <==> && Complete(input) && |set k | k in docs && k.0 == app| < 10
                           && PlaceOf(app, Trim(input.fileName)) !in docs)
            && (r.Err? ==> r.error in {Invalid, Conflict})
            && (r.Ok? ==> Added(docs, r.value, app, input, env))
  {
    assert AppKeys(docs, app) == set k | k in docs && k.0 == app;
  }

  lemma DeletionExactly(docs: Documents, key: (Uuid, string))
    ensures var r := DeleteAppDocument(docs, key);
            && (r.Ok? <==> key in docs) && (r.Err? ==> r.error == NotFound)
            && (r.Ok? ==> && key !in r.value && r.value.Keys + {key} == docs.Keys
                          && forall k :: k in r.value ==> r.value[k] == docs[k])
  {
  }

  /** One row was rewritten; it keeps its identifier and moves with its name. */
  ghost predicate Swapped(docs: Documents, after: Documents, current: (Uuid, string), input: Input, env: Env) {
    var place := PlaceOf(current.0, Trim(input.fileName));
    && current in docs && after.Keys == docs.Keys - {current} + {place}
    && (forall k :: k in docs && k != current && k != place ==> after[k] == docs[k])
    && Holds(after[place], input, env) && after[place].id == docs[current].id
  }

  lemma ReplacementExactly(docs: Documents, current: (Uuid, string), input: Input, env: Env)
    ensures var r := ReplaceAppDocument(docs, current, input, env);
            var place := PlaceOf(current.0, Trim(input.fileName));
            && (r == Err(Invalid) <==> !Complete(input))
            && (r == Err(NotFound) <==> Complete(input) && current !in docs)
            && (r.Ok? <==> Complete(input) && current in docs && (place == current || place !in docs))
            && (r.Err? ==> r.error in {Invalid, NotFound, Conflict})
            && (r.Ok? ==> Swapped(docs, r.value, current, input, env))
  {
  }

  /** A bundled file that can be read, is not empty, is at most twenty megabytes long and has a known type. */
  ghost predicate Readable(f: File, env: Env) {
    env.typeOf(f.name).Some? && f.content.Some? && 0 < |f.content.value| <= 20 * 1_048_576
  }

  ghost function InputOf(f: File, env: Env): Input
    requires Readable(f, env)
  {
    Input(env.titleOf(f.name), f.name, env.typeOf(f.name).value, f.content.value)
  }

  /** The sync of one file: left alone where its checksum is listed in its place, rewritten where another is, added
      where its place is empty, and failed, with nothing changed, where it cannot be read or the store refuses it. */
  lemma FileExactly(docs: Documents, existing: Documents, app: Uuid, f: File, env: Env)
    ensures var (after, outcome) := SyncFile(docs, existing, app, f, env);
            var place := PlaceOf(app, f.name);
            && (outcome == Unchanged <==>
                  && Readable(f, env) && place in existing
                  && existing[place].checksum == env.digest(f.content.value))
            && (outcome == Attached <==>
                  && Readable(f, env) && place !in existing
                  && CreateAppDocument(docs, app, InputOf(f, env), env).Ok?)
            && (outcome == Replaced <==>
                  && Readable(f, env) && place in existing && existing[place].checksum != env.digest(f.content.value)
                  && ReplaceAppDocument(docs, place, InputOf(f, env), env).Ok?)
            && (outcome == Attached ==> Added(docs, after, app, InputOf(f, env), env))
            && (outcome == Replaced ==> Swapped(docs, after, place, InputOf(f, env), env))
            && (outcome in {Unchanged, Failed} ==> after == docs)
  {
    hide CreateAppDocument, ReplaceAppDocument, Added, Swapped;
    if Readable(f, env) {
      CreationExactly(docs, app, InputOf(f, env), env);
      ReplacementExactly(docs, PlaceOf(app, f.name), InputOf(f, env), env);
    }
  }
}
