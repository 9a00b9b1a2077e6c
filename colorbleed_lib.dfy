/** The scene helpers of the colorbleed configuration: whether loaded
    content is of the latest published version, whether any of it is
    outdated, and switching the session's task context to the one a scene
    path belongs to. The project database is a value (its representation and
    version documents); the host's container list, the session and the path
    template parser are inputs. */
module ColorbleedLib {
  import opened Py

  type Id = string

  /** A representation document: its id and the id of its version. */
  datatype RepresentationDoc = RepresentationDoc(id: Id, parent: Id)

  /** A version document: its id, its version number and the id of its subset. */
  datatype VersionDoc = VersionDoc(id: Id, name: int, parent: Id)

  /** The documents of the project database that the lookups can return. */
  datatype Database = Database(representations: seq<RepresentationDoc>, versions: seq<VersionDoc>)

  const NotSubscriptable := "'NoneType' object is not subscriptable"

  // ---------------------------------------------------------------------
  // Latest versions

  /** The first document whose id, as `idOf` reads it, is `id`: what a
      database lookup by id returns. */
  function FindById<D>(docs: seq<D>, idOf: D -> Id, id: Id): (r: Option<D>)
    ensures r.Some? ==> r.value in docs && idOf(r.value) == id
    ensures r.None? <==> forall k :: 0 <= k < |docs| ==> idOf(docs[k]) != id
  {
    if docs == [] then None
    else if idOf(docs[0]) == id then Some(docs[0])
    else
      FindById(docs[1..], idOf, id)
  }

  function RepresentationId(doc: RepresentationDoc): Id { doc.id }

  function VersionId(doc: VersionDoc): Id { doc.id }

  /** The highest version number among the versions of a subset, the name
      of the first document of a lookup sorted by name, descending. */
  function HighestVersionName(versions: seq<VersionDoc>, parent: Id): (r: Option<int>)
    ensures r.None? <==> forall k :: 0 <= k < |versions| ==> versions[k].parent != parent
    ensures r.Some? ==> exists k :: 0 <= k < |versions| && versions[k].parent == parent && versions[k].name == r.value
    ensures r.Some? ==> forall k :: 0 <= k < |versions| && versions[k].parent == parent ==> versions[k].name <= r.value
  {
    if versions == [] then None
    else
      var rest := HighestVersionName(versions[1..], parent);
      assert forall k :: 1 <= k < |versions| ==> versions[k] == versions[1..][k - 1];
      if versions[0].parent != parent then rest
      else if rest.Some? && rest.value > versions[0].name then rest
      else Some(versions[0].name)
  }

  /** The version a representation belongs to, when both documents exist. */
  function VersionOf(db: Database, representation: Id): Option<VersionDoc> {
    match FindById(db.representations, RepresentationId, representation)
    case None => None
    case Some(rep) => FindById(db.versions, VersionId, rep.parent)
  }

  /** Whether a representation is of the latest version of its subset; a
      lookup that finds nothing makes the next subscript fail. */
  function IsLatest(db: Database, representation: Id): Result<bool> {
    match FindById(db.representations, RepresentationId, representation)
    case None => Err(TypeError(NotSubscriptable))
    case Some(rep) =>
      match FindById(db.versions, VersionId, rep.parent)
      case None => Err(TypeError(NotSubscriptable))
      case Some(version) =>
        match HighestVersionName(db.versions, version.parent)
        case None => Err(TypeError(NotSubscriptable))
        case Some(highest) => Ok(version.name == highest)
  }

  /** No version of the same subset has a higher number than `version`. */
  predicate NoNewerSibling(versions: seq<VersionDoc>, version: VersionDoc) {
    forall k :: 0 <= k < |versions| && versions[k].parent == version.parent ==> versions[k].name <= version.name
  }

  /** The check fails exactly when the representation or its version is
      missing; otherwise it answers true exactly when the version's number
      equals the highest number among the versions of its subset, that is,
      when no sibling version is newer. */
  lemma IsLatestSpec(db: Database, representation: Id)
    ensures IsLatest(db, representation).Ok? <==> VersionOf(db, representation).Some?
    ensures IsLatest(db, representation) == Ok(true) <==>
      VersionOf(db, representation).Some? && NoNewerSibling(db.versions, VersionOf(db, representation).value)
  {
    match VersionOf(db, representation)
    case None =>
    case Some(version) =>
      var k :| 0 <= k < |db.versions| && db.versions[k] == version;
      assert db.versions[k].parent == version.parent;
  }

  // ---------------------------------------------------------------------
  // Outdated content

  /** The latest-version check against the database, as a function of the
      representation id. */
  function LatestCheck(db: Database): Id -> Result<bool> {
    (representation: Id) => IsLatest(db, representation)
  }

  /** Whether the containers hold outdated content, given the latest-version
      check: the first container found not to be latest answers true, and
      the first failing check raises. */
  function AnyOutdatedBy(isLatest: Id -> Result<bool>, containers: seq<Id>): Result<bool> {
    if containers == [] then Ok(false)
    else
      match isLatest(containers[0])
      case Err(e) => Err(e)
      case Ok(latest) => if !latest then Ok(true) else AnyOutdatedBy(isLatest, containers[1..])
  }

  /** Whether the containers hold outdated content. */
  function AnyOutdated(db: Database, containers: seq<Id>): Result<bool> {
    AnyOutdatedBy(LatestCheck(db), containers)
  }

  lemma {:induction false} AnyOutdatedBySpec(isLatest: Id -> Result<bool>, containers: seq<Id>)
    ensures AnyOutdatedBy(isLatest, containers) == Ok(true) ==>
      exists i :: 0 <= i < |containers| && isLatest(containers[i]) == Ok(false)
    ensures (forall i :: 0 <= i < |containers| ==> isLatest(containers[i]).Ok?) ==>
      AnyOutdatedBy(isLatest, containers) ==
      Ok(exists i :: 0 <= i < |containers| && isLatest(containers[i]) == Ok(false))
  {
    if containers != [] {
      var rest := containers[1..];
      AnyOutdatedBySpec(isLatest, rest);
      assert forall i :: 1 <= i < |containers| ==> containers[i] == rest[i - 1];
      if isLatest(containers[0]) == Ok(true) {
        if exists i :: 0 <= i < |containers| && isLatest(containers[i]) == Ok(false) {
          var i :| 0 <= i < |containers| && isLatest(containers[i]) == Ok(false);
          assert rest[i - 1] == containers[i];
        }
      }
    }
  }

  /** When every check succeeds, content is outdated exactly when some
      container's representation is not latest; it never is when there are
      no containers; and a true answer always names an outdated container. */
  lemma AnyOutdatedSpec(db: Database, containers: seq<Id>)
    ensures containers == [] ==> AnyOutdated(db, containers) == Ok(false)
    ensures AnyOutdated(db, containers) == Ok(true) ==>
      exists i :: 0 <= i < |containers| && IsLatest(db, containers[i]) == Ok(false)
    ensures (forall i :: 0 <= i < |containers| ==> IsLatest(db, containers[i]).Ok?) ==>
      AnyOutdated(db, containers) ==
      Ok(exists i :: 0 <= i < |containers| && IsLatest(db, containers[i]) == Ok(false))
  {
    var isLatest := LatestCheck(db);
    assert forall x :: isLatest(x) == IsLatest(db, x);
    AnyOutdatedBySpec(isLatest, containers);
  }

  /** The scan over the host's containers. It checks each distinct
      representation at most once, remembering those already found latest,
      and stops at the first one that is not. `queried` lists the
      representations checked, in order. */
  method AnyOutdatedScan(db: Database, containers: seq<Id>) returns (r: Result<bool>, queried: seq<Id>)
    ensures r == AnyOutdated(db, containers)
    ensures forall i, j :: 0 <= i < j < |queried| ==> queried[i] != queried[j]
    ensures forall i :: 0 <= i < |queried| ==> queried[i] in containers
    ensures forall i :: 0 <= i < |queried| - 1 ==> IsLatest(db, queried[i]) == Ok(true)
    ensures r == Ok(true) ==> queried != [] && IsLatest(db, queried[|queried| - 1]) == Ok(false)
  {
    var checked: set<Id> := {};
    queried := [];
    var i := 0;
    while i < |containers|
      invariant 0 <= i <= |containers|
      invariant AnyOutdated(db, containers) == AnyOutdated(db, containers[i..])
      invariant forall x :: x in checked <==> x in queried
      invariant forall x :: x in checked ==> IsLatest(db, x) == Ok(true)
      invariant forall a, b :: 0 <= a < b < |queried| ==> queried[a] != queried[b]
      invariant forall k :: 0 <= k < |queried| ==> queried[k] in containers[..i]
    {
      var representation := containers[i];
      assert containers[i..][1..] == containers[i + 1..];
      if representation in checked {
        i := i + 1;
        continue;
      }
      var latest := IsLatest(db, representation);
      queried := queried + [representation];
      if latest.Err? {
        return Err(latest.error), queried;
      }
      if !latest.value {
        return Ok(true), queried;
      }
      checked := checked + {representation};
      i := i + 1;
    }
    return Ok(false), queried;
  }

  // ---------------------------------------------------------------------
  // Task context

  /** What updating the current task from a scene path does. */
  datatype TaskUpdate =
    | SceneNotSaved          // no path: warn and return
    | PathNotParsed          // the template does not parse the path: log and return
    | TaskUnchanged          // the path's context is the session's
    | TaskUpdated(changes: map<string, string>)  // update_current_task receives `changes`

  /** The context keys, in the order they are compared. */
  const ContextKeys: set<string> := {"asset", "task", "app"}

  /** The session key holding a context key's current value. */
  function SessionKey(key: string): string {
    if key == "asset" then "AVALON_ASSET"
    else if key == "task" then "AVALON_TASK"
    else "AVALON_APP"
  }

  /** The session's current context: its asset, task and app. */
  function CurrentContext(session: map<string, string>): Result<map<string, string>> {
    if "AVALON_ASSET" !in session then Err(KeyError("AVALON_ASSET"))
    else if "AVALON_TASK" !in session then Err(KeyError("AVALON_TASK"))
    else if "AVALON_APP" !in session then Err(KeyError("AVALON_APP"))
    else Ok(map["asset" := session["AVALON_ASSET"],
                "task" := session["AVALON_TASK"],
                "app" := session["AVALON_APP"]])
  }

  /** The context keys whose parsed value differs from the current one,
      mapped to the parsed value. */
  function Changes(context: map<string, string>, current: map<string, string>): Result<map<string, string>>
    requires ContextKeys <= current.Keys
  {
    if "asset" !in context then Err(KeyError("asset"))
    else if "task" !in context then Err(KeyError("task"))
    else if "app" !in context then Err(KeyError("app"))
    else Ok(map key | key in ContextKeys && context[key] != current[key] :: context[key])
  }

  /** Update the session's task from the scene path. `template` is the
      project's work template with the registered root filled in, and
      `parse` the template parser, which either yields the path's context
      or fails. */
  function UpdateTaskFromPath(path: string, template: string,
                              parse: (string, string) -> Option<map<string, string>>,
                              session: map<string, string>): Result<TaskUpdate>
  {
    if path == "" then Ok(SceneNotSaved)
    else
      match parse(template, path)
      case None => Ok(PathNotParsed)
      case Some(context) =>
        match CurrentContext(session)
        case Err(e) => Err(e)
        case Ok(current) =>
          match Changes(context, current)
          case Err(e) => Err(e)
          case Ok(changes) => Ok(if changes == map[] then TaskUnchanged else TaskUpdated(changes))
  }

  /** No path means no update; a path that does not parse means no update
      and no error; and an update of the current task is called with
      a non-empty map of exactly the context keys whose parsed value
      differs from the session's, each mapped to its parsed value. No
      update is called exactly when the parsed context equals the
      session's on all three keys. */
  lemma UpdateTaskFromPathSpec(path: string, template: string,
                               parse: (string, string) -> Option<map<string, string>>,
                               session: map<string, string>)
    ensures path == "" ==> UpdateTaskFromPath(path, template, parse, session) == Ok(SceneNotSaved)
    ensures path != "" && parse(template, path).None? ==>
      UpdateTaskFromPath(path, template, parse, session) == Ok(PathNotParsed)
    ensures forall changes :: UpdateTaskFromPath(path, template, parse, session) == Ok(TaskUpdated(changes)) ==>
      && changes != map[]
      && changes.Keys <= ContextKeys
      && path != "" && parse(template, path).Some?
      && (forall key :: key in ContextKeys ==>
            SessionKey(key) in session && key in parse(template, path).value &&
            (key in changes <==> parse(template, path).value[key] != session[SessionKey(key)]) &&
            (key in changes ==> changes[key] == parse(template, path).value[key]))
    ensures UpdateTaskFromPath(path, template, parse, session) == Ok(TaskUnchanged) ==>
      path != "" && parse(template, path).Some? &&
      forall key :: key in ContextKeys ==>
        SessionKey(key) in session && key in parse(template, path).value &&
        parse(template, path).value[key] == session[SessionKey(key)]
    ensures path != "" && parse(template, path).Some? && ContextKeys <= parse(template, path).value.Keys &&
            (forall key :: key in ContextKeys ==> SessionKey(key) in session) ==>
      var r := UpdateTaskFromPath(path, template, parse, session);
      && r.Ok?
      && (r.value == TaskUnchanged <==>
            forall key :: key in ContextKeys ==> parse(template, path).value[key] == session[SessionKey(key)])
      && (r.value.TaskUpdated? <==>
            exists key :: key in ContextKeys && parse(template, path).value[key] != session[SessionKey(key)])
  {
    assert SessionKey("asset") == "AVALON_ASSET" && SessionKey("task") == "AVALON_TASK";
    assert SessionKey("app") == "AVALON_APP";
    assert "asset" in ContextKeys && "task" in ContextKeys && "app" in ContextKeys;
    if path != "" && parse(template, path).Some? {
      var context := parse(template, path).value;
      match CurrentContext(session)
      case Err(e) =>
      case Ok(current) =>
        match Changes(context, current)
        case Err(e) =>
        case Ok(changes) =>
          assert forall key :: key in ContextKeys ==> key in current && current[key] == session[SessionKey(key)];
          assert forall key :: key in ContextKeys ==> (key in changes <==> context[key] != current[key]);
    }
  }

  /** The session after updating the current task: each changed context key has been
      written to its session key. */
  function ApplyTaskChanges(session: map<string, string>, changes: map<string, string>): map<string, string> {
    var s1 := if "asset" in changes then session["AVALON_ASSET" := changes["asset"]] else session;
    var s2 := if "task" in changes then s1["AVALON_TASK" := changes["task"]] else s1;
    if "app" in changes then s2["AVALON_APP" := changes["app"]] else s2
  }

  /** Updating from the same path again, once the current task update has been
      applied to the session, makes no further update. */
  lemma UpdateTaskIdempotent(path: string, template: string,
                             parse: (string, string) -> Option<map<string, string>>,
                             session: map<string, string>, changes: map<string, string>)
    requires UpdateTaskFromPath(path, template, parse, session) == Ok(TaskUpdated(changes))
    ensures UpdateTaskFromPath(path, template, parse, ApplyTaskChanges(session, changes)) == Ok(TaskUnchanged)
  {
    var context := parse(template, path).value;
    var current := CurrentContext(session).value;
    assert Changes(context, current) == Ok(changes);
    assert "asset" in ContextKeys && "task" in ContextKeys && "app" in ContextKeys;
    var updated := ApplyTaskChanges(session, changes);
    assert updated["AVALON_ASSET"] == context["asset"];
    assert updated["AVALON_TASK"] == context["task"];
    assert updated["AVALON_APP"] == context["app"];
    var again := CurrentContext(updated).value;
    assert Changes(context, again) == Ok(map[]);
  }
}
