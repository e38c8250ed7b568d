/**
 * The project model of StorageManager (storage.js): validation, migration,
 * the metadata stamped on save, the `{_compressed, _version, d}` envelope,
 * the default project and the two comparisons the ledger and the auto-save
 * tick use.
 */
module Project {
  import opened Wrappers
  import opened Json

  /** What `new Date().toISOString()` returns: never the empty string. */
  type Timestamp = s: string | s != "" witness "1970-01-01T00:00:00.000Z"

  /**
   * The host's clock and random numbers, as one call of the storage layer
   * sees them: the current time, and the random part of each id it may
   * generate (`Math.random().toString(36)`).
   */
  datatype Env = Env(now: Timestamp, projectToken: string, historyToken: string, backupToken: string)

  const SchemaVersion := "1.0.0"
  const EnvelopeVersion := "1.0"

  /** generateProjectId: `'project_' + Date.now() + '_' + random`. */
  function NewProjectId(env: Env): (id: string)
    ensures id != ""
  {
    "project_" + env.projectToken
  }

  function Files(p: Value): Value {
    Get(p, "files")
  }

  /**
   * validateProjectData: the data is a truthy object whose `files` is a
   * truthy object with truthy `html`, `css` and `js` buffers.
   */
  function ValidateProjectData(data: Value): (ok: bool)
    ensures ok <==>
      data.Obj? && Files(data).Obj? &&
      Truthy(Get(Files(data), "html")) && Truthy(Get(Files(data), "css")) && Truthy(Get(Files(data), "js"))
  {
    if !Truthy(data) || !TypeofObject(data) then false
    else if !Truthy(Files(data)) || !TypeofObject(Files(data)) then false
    else Truthy(Get(Files(data), "html")) && Truthy(Get(Files(data), "css")) && Truthy(Get(Files(data), "js"))
  }

  /** An empty buffer makes a project invalid, whatever else it holds. */
  lemma EmptyBufferRejected(data: Value, buffer: string)
    requires buffer in {"html", "css", "js"}
    requires Get(Files(data), buffer) == Str("")
    ensures !ValidateProjectData(data)
  {
  }

  /** `if (!o[k]) o[k] = x` on an object. */
  function FillIfFalsy(o: Value, k: string, x: Value): (r: Value)
    requires o.Obj?
    ensures r.Obj? && Get(r, k) == if Truthy(Get(o, k)) then Get(o, k) else x
    ensures forall j :: j != k ==> Get(r, j) == Get(o, j)
  {
    if Truthy(Get(o, k)) then o else Set(o, k, x)
  }

  /**
   * migrateProjectData: fill a falsy `version` with the schema version, a
   * falsy `id` with a fresh id and a falsy `created` with `lastModified`
   * (or the current time); nothing else is touched.
   */
  function MigrateProjectData(data: Value, env: Env): (r: Value)
    requires data.Obj?
    ensures r.Obj?
    ensures forall k :: k != "version" && k != "id" && k != "created" ==> Get(r, k) == Get(data, k)
    ensures Get(r, "version") == if Truthy(Get(data, "version")) then Get(data, "version") else Str(SchemaVersion)
    ensures Get(r, "id") == if Truthy(Get(data, "id")) then Get(data, "id") else Str(NewProjectId(env))
    ensures Get(r, "created") ==
      if Truthy(Get(data, "created")) then Get(data, "created")
      else if Truthy(Get(data, "lastModified")) then Get(data, "lastModified")
      else Str(env.now)
    ensures Truthy(Get(r, "version")) && Truthy(Get(r, "id")) && Truthy(Get(r, "created"))
  {
    var withVersion := FillIfFalsy(data, "version", Str(SchemaVersion));
    assert Get(withVersion, "id") == Get(data, "id");
    assert Get(withVersion, "created") == Get(data, "created");
    assert Get(withVersion, "lastModified") == Get(data, "lastModified");
    var withId := FillIfFalsy(withVersion, "id", Str(NewProjectId(env)));
    assert Get(withId, "created") == Get(data, "created");
    assert Get(withId, "lastModified") == Get(data, "lastModified");
    assert Get(withId, "version") == Get(withVersion, "version");
    var lastModified := Get(withId, "lastModified");
    FillIfFalsy(withId, "created", if Truthy(lastModified) then lastModified else Str(env.now))
  }

  /** Migration keeps a project valid: it never touches `files`. */
  lemma MigrationKeepsValidity(data: Value, env: Env)
    requires ValidateProjectData(data)
    ensures ValidateProjectData(MigrateProjectData(data, env))
    ensures Files(MigrateProjectData(data, env)) == Files(data)
  {
  }

  /** Migrating an already migrated project changes nothing. */
  lemma MigrationIdempotent(data: Value, env: Env, env': Env)
    requires data.Obj?
    ensures MigrateProjectData(MigrateProjectData(data, env), env') == MigrateProjectData(data, env)
  {
  }

  /**
   * The metadata saveProject writes onto its argument before it stores it:
   * `lastModified` is now, `version` is the schema version and `id` is kept
   * when truthy, otherwise freshly generated.
   */
  function Stamp(data: Value, env: Env): (r: Value)
    requires data.Obj?
    ensures r.Obj?
    ensures forall k :: k != "lastModified" && k != "version" && k != "id" ==> Get(r, k) == Get(data, k)
    ensures Get(r, "lastModified") == Str(env.now) && Get(r, "version") == Str(SchemaVersion)
    ensures Get(r, "id") == if Truthy(Get(data, "id")) then Get(data, "id") else Str(NewProjectId(env))
  {
    var withTime := Set(data, "lastModified", Str(env.now));
    var withVersion := Set(withTime, "version", Str(SchemaVersion));
    var id := Get(withVersion, "id");
    Set(withVersion, "id", if Truthy(id) then id else Str(NewProjectId(env)))
  }

  /** Stamping keeps a project valid and its files as they were. */
  lemma StampKeepsValidity(data: Value, env: Env)
    requires ValidateProjectData(data)
    ensures ValidateProjectData(Stamp(data, env)) && Files(Stamp(data, env)) == Files(data)
  {
  }

  /** compressData: wrap the data in the `{_compressed, _version, d}` envelope. */
  function CompressData(data: Value): (r: Value)
    ensures Truthy(Get(r, "_compressed")) && Get(r, "d") == data
    ensures Get(r, "_version") == Str(EnvelopeVersion)
  {
    Obj(["_compressed", "_version", "d"],
        map["_compressed" := Bool(true), "_version" := Str(EnvelopeVersion), "d" := data])
  }

  /** The value carries a truthy `_compressed` marker. */
  predicate IsEnvelope(v: Value) {
    Truthy(Get(v, "_compressed"))
  }

  /**
   * decompressData: the payload `d` of an envelope (`undefined` when the
   * envelope has none); any other value is returned as it is. Reading
   * `_compressed` of `null`/`undefined` throws, so callers never pass them.
   */
  function DecompressData(v: Value): (r: Value)
    requires !Nullish(v)
    ensures !IsEnvelope(v) ==> r == v
    ensures IsEnvelope(v) ==> r == Get(v, "d")
  {
    if !Truthy(Get(v, "_compressed")) then v else Get(v, "d")
  }

  /** Unwrapping a wrapped value gives the value back. */
  lemma DecompressCompress(data: Value)
    ensures DecompressData(CompressData(data)) == data
  {
  }

  /**
   * Unwrapping twice is unwrapping once as long as the payload is not itself
   * an envelope, which is the case for every envelope saveProject writes.
   */
  lemma DecompressIdempotent(v: Value)
    requires !Nullish(v) && !Nullish(DecompressData(v))
    requires !IsEnvelope(DecompressData(v))
    ensures DecompressData(DecompressData(v)) == DecompressData(v)
  {
  }

  /** A doubly wrapped value shows that unwrapping is not idempotent in general. */
  lemma DecompressNotIdempotentOnNestedEnvelope()
    ensures var v := CompressData(CompressData(Num(1)));
      DecompressData(DecompressData(v)) != DecompressData(v)
  {
    var v := CompressData(CompressData(Num(1)));
    assert DecompressData(v) == CompressData(Num(1));
    assert DecompressData(DecompressData(v)) == Num(1);
  }

  function FilesObject(html: string, css: string, js: string): (r: Value)
    ensures WellFormed(r) && Get(r, "html") == Str(html) && Get(r, "css") == Str(css) && Get(r, "js") == Str(js)
  {
    Obj(["html", "css", "js"], map["html" := Str(html), "css" := Str(css), "js" := Str(js)])
  }

  /**
   * The three starter buffers of a new project. Each is non-empty; the text
   * itself lives in module Boilerplate, and proofs about loading and saving
   * only need it to be non-empty.
   */
  datatype Buffers = Buffers(html: string, css: string, js: string)
  type StarterBuffers = b: Buffers | |b.html| > 0 && |b.css| > 0 && |b.js| > 0
    witness Buffers("<", "/", "/")

  /** getDefaultProject: the starter project with a fresh id and the current time. */
  function DefaultProject(env: Env, starter: StarterBuffers): (p: Value)
    ensures p.Obj? && Get(p, "id") == Str(NewProjectId(env))
    ensures Files(p) == FilesObject(starter.html, starter.css, starter.js)
    ensures Get(p, "version") == Str(SchemaVersion)
    ensures Get(p, "created") == Str(env.now) && Get(p, "lastModified") == Str(env.now)
  {
    Obj(
      ["id", "name", "description", "files", "activeFile", "lastModified", "created", "version", "tags", "settings"],
      map[
        "id" := Str(NewProjectId(env)),
        "name" := Str("Untitled Project"),
        "description" := Str("A new project created in Hafis Code Playground"),
        "files" := FilesObject(starter.html, starter.css, starter.js),
        "activeFile" := Str("html"),
        "lastModified" := Str(env.now),
        "created" := Str(env.now),
        "version" := Str(SchemaVersion),
        "tags" := Arr([Str("starter"), Str("demo")]),
        "settings" := Obj(["livePreview", "autoSave"], map["livePreview" := Bool(true), "autoSave" := Bool(true)])
      ])
  }

  /** The default project passes validation and is already migrated, so loading can always fall back on it. */
  lemma DefaultProjectValid(env: Env, starter: StarterBuffers)
    ensures ValidateProjectData(DefaultProject(env, starter))
    ensures MigrateProjectData(DefaultProject(env, starter), env) == DefaultProject(env, starter)
  {
  }

  // ---------------------------------------------------------------------------
  // Change detection (detectChanges) and the auto-save comparison
  // ---------------------------------------------------------------------------

  const InitialVersion := "initial_version"
  const NameChanged := "name_changed"
  const DescriptionChanged := "description_changed"
  const MinorChanges := "minor_changes"
  const ModifiedSuffix := "_modified"

  /**
   * `a !== b` negated for two values that never share a reference: equal
   * primitives are identical, two objects or arrays never are.
   */
  predicate StrictEquals(a: Value, b: Value) {
    !a.Arr? && !a.Obj? && a == b
  }

  function ModifiedTag(fileType: string): string {
    fileType + ModifiedSuffix
  }

  lemma ModifiedTagInjective(f: string, g: string)
    requires ModifiedTag(f) == ModifiedTag(g)
    ensures f == g
  {
    assert f == ModifiedTag(f)[..|f|];
    assert g == ModifiedTag(g)[..|g|];
  }

  /** No metadata tag has the shape of a file tag. */
  lemma MetadataTagsAreNotFileTags(f: string)
    ensures ModifiedTag(f) !in {NameChanged, DescriptionChanged, MinorChanges, InitialVersion}
  {
    var t := ModifiedTag(f);
    assert t[|f|] == '_' && t[|f| + 1] == 'm';
    if |t| == |NameChanged| { assert NameChanged[3] != '_'; }
    if |t| == |DescriptionChanged| { assert DescriptionChanged[10] != '_'; }
    if |t| == |MinorChanges| { assert MinorChanges[4] != '_'; }
    if |t| == |InitialVersion| { assert InitialVersion[6] != '_'; }
  }

  /** One `<fileType>_modified` tag per key, in order, whose contents differ. */
  function FileTags(keys: seq<string>, oldFiles: Value, newFiles: Value): (tags: seq<string>)
    ensures |tags| <= |keys|
  {
    if keys == [] then []
    else
      var k := keys[0];
      (if StrictEquals(Get(oldFiles, k), Get(newFiles, k)) then [] else [ModifiedTag(k)])
        + FileTags(keys[1..], oldFiles, newFiles)
  }

  /** Every file tag names a key whose contents differ, and every such key is tagged. */
  lemma {:induction false} FileTagsExact(keys: seq<string>, oldFiles: Value, newFiles: Value, f: string)
    ensures ModifiedTag(f) in FileTags(keys, oldFiles, newFiles) <==>
      f in keys && !StrictEquals(Get(oldFiles, f), Get(newFiles, f))
  {
    if keys != [] {
      FileTagsExact(keys[1..], oldFiles, newFiles, f);
      var k := keys[0];
      var head := if StrictEquals(Get(oldFiles, k), Get(newFiles, k)) then [] else [ModifiedTag(k)];
      assert FileTags(keys, oldFiles, newFiles) == head + FileTags(keys[1..], oldFiles, newFiles);
      assert keys == [k] + keys[1..];
      if ModifiedTag(f) in head {
        ModifiedTagInjective(f, k);
      }
    }
  }

  /** Only `<f>_modified` tags come out of FileTags. */
  lemma {:induction false} FileTagsShape(keys: seq<string>, oldFiles: Value, newFiles: Value, t: string)
    requires t in FileTags(keys, oldFiles, newFiles)
    ensures exists f :: t == ModifiedTag(f)
  {
    var k := keys[0];
    if t == ModifiedTag(k) {
    } else {
      FileTagsShape(keys[1..], oldFiles, newFiles, t);
    }
  }

  /**
   * detectChanges: `['initial_version']` when there is no previous project;
   * otherwise a `<f>_modified` tag per file key of the new project whose
   * content differs, `name_changed`, `description_changed`, and
   * `['minor_changes']` when none of these apply. `None` is the TypeError
   * thrown when the previous project has no `files` object.
   */
  function DetectChanges(oldProject: Value, newProject: Value): (r: Option<seq<string>>)
    requires ValidateProjectData(newProject)
    ensures !Truthy(oldProject) ==> r == Some([InitialVersion])
    ensures r.None? <==> Truthy(oldProject) && Nullish(Files(oldProject))
    ensures r.Some? ==> |r.value| > 0
  {
    if !Truthy(oldProject) then Some([InitialVersion])
    else
      var oldFiles := Files(oldProject);
      var newFiles := Files(newProject);
      if Nullish(oldFiles) then None
      else
        var changes :=
          FileTags(newFiles.keys, oldFiles, newFiles)
          + (if StrictEquals(Get(oldProject, "name"), Get(newProject, "name")) then [] else [NameChanged])
          + (if StrictEquals(Get(oldProject, "description"), Get(newProject, "description")) then [] else [DescriptionChanged]);
        if |changes| > 0 then Some(changes) else Some([MinorChanges])
  }

  /** Whether some file of the new project differs from the old one, or its name or description does. */
  predicate SomethingDiffers(oldProject: Value, newProject: Value)
    requires newProject.Obj? && Files(newProject).Obj?
  {
    || (exists f | f in Files(newProject).keys :: !StrictEquals(Get(Files(oldProject), f), Get(Files(newProject), f)))
    || !StrictEquals(Get(oldProject, "name"), Get(newProject, "name"))
    || !StrictEquals(Get(oldProject, "description"), Get(newProject, "description"))
  }

  /** The tags detectChanges reports against an existing previous project, each with its meaning. */
  lemma DetectChangesExact(oldProject: Value, newProject: Value, f: string)
    requires ValidateProjectData(newProject)
    requires Truthy(oldProject) && !Nullish(Files(oldProject))
    ensures DetectChanges(oldProject, newProject).Some?
    ensures var tags := DetectChanges(oldProject, newProject).value;
      && (ModifiedTag(f) in tags <==> f in Files(newProject).keys && !StrictEquals(Get(Files(oldProject), f), Get(Files(newProject), f)))
      && (NameChanged in tags <==> !StrictEquals(Get(oldProject, "name"), Get(newProject, "name")))
      && (DescriptionChanged in tags <==> !StrictEquals(Get(oldProject, "description"), Get(newProject, "description")))
      && (tags == [MinorChanges] <==> !SomethingDiffers(oldProject, newProject))
  {
    var oldFiles, newFiles := Files(oldProject), Files(newProject);
    var keys := newFiles.keys;
    var fileTags := FileTags(keys, oldFiles, newFiles);
    var nameTag := if StrictEquals(Get(oldProject, "name"), Get(newProject, "name")) then [] else [NameChanged];
    var descTag := if StrictEquals(Get(oldProject, "description"), Get(newProject, "description")) then [] else [DescriptionChanged];
    var changes := fileTags + nameTag + descTag;
    FileTagsExact(keys, oldFiles, newFiles, f);
    MetadataTagsAreNotFileTags(f);
    if NameChanged in fileTags {
      FileTagsShape(keys, oldFiles, newFiles, NameChanged);
      var g :| NameChanged == ModifiedTag(g);
      MetadataTagsAreNotFileTags(g);
    }
    if DescriptionChanged in fileTags {
      FileTagsShape(keys, oldFiles, newFiles, DescriptionChanged);
      var g :| DescriptionChanged == ModifiedTag(g);
      MetadataTagsAreNotFileTags(g);
    }
    if |fileTags| > 0 {
      FileTagsShape(keys, oldFiles, newFiles, fileTags[0]);
      var g :| fileTags[0] == ModifiedTag(g);
      MetadataTagsAreNotFileTags(g);
      FileTagsExact(keys, oldFiles, newFiles, g);
      assert fileTags[0] in fileTags;
      assert g in keys && !StrictEquals(Get(oldFiles, g), Get(newFiles, g));
      assert changes[0] == fileTags[0] != MinorChanges;
    } else {
      forall g | g in keys ensures StrictEquals(Get(oldFiles, g), Get(newFiles, g)) {
        FileTagsExact(keys, oldFiles, newFiles, g);
      }
    }
  }

  /**
   * hasProjectChanged: true when either side is falsy, or when the
   * serialized `files` of the two projects differ.
   */
  function HasProjectChanged(oldProject: Value, newProject: Value): (changed: bool)
    ensures !changed <==> Truthy(oldProject) && Truthy(newProject) && Files(oldProject) == Files(newProject)
  {
    if !Truthy(oldProject) || !Truthy(newProject) then true
    else Member(oldProject, "files") != Member(newProject, "files")
  }
}
