/** The application action handler: a base class that answers the
    collaboration server's "discover" events (may this action be offered for
    the selected entities?) and "launch" events (start the application's
    launcher). The server session, the project database and the file system
    are inputs: the session's schema list, the project document the database
    returns, the environment, and a predicate telling which paths are
    executable files. */
module AppActions {
  import opened Py
  import opened PyText
  import PosixPath

  /** One entry of the session's schema list; `aliasFor` is `VNone` when the
      schema has no `alias_for` key. */
  datatype Schema = Schema(id: string, aliasFor: Value)

  /** What the handler uses of the server session. */
  datatype Session = Session(schemas: seq<Schema>)

  /** An item of the event's selection; `entityType` is None when the item
      has no `entityType` key, `entityId` is `VNone` when it has no `entityId`. */
  datatype SelectionItem = SelectionItem(entityType: Option<string>, entityId: Value)

  /** An incoming event; `selection` is None when its data has no `selection` key. */
  datatype Event = Event(selection: Option<seq<SelectionItem>>)

  /** An (entity type, entity id) pair, as handed to the action's callbacks. */
  type EntityRef = (string, Value)

  /** The project document the database returns: the names of its configured apps. */
  datatype Project = Project(appNames: seq<string>)

  /** What a launch callback answers, and the launcher it started, if any. */
  datatype LaunchReply = LaunchReply(response: Value, started: Option<string>)

  const NoReplace := "'NoneType' object has no attribute 'replace'"

  /** The selection of an event, empty when the event carries none. */
  function Selection(event: Event): seq<SelectionItem> {
    if event.selection.Some? then event.selection.value else []
  }

  // ---------------------------------------------------------------------
  // Entity types

  /** The entity type with every underscore deleted, then lower-cased. */
  function NormaliseEntityType(entityType: string): string {
    Lower(RemoveChar(entityType, '_'))
  }

  lemma RemoveCharAbsent(s: string, c: char)
    requires c !in s
    ensures RemoveChar(s, c) == s
  {
    if s != [] {
      assert c !in s[1..];
      RemoveCharAbsent(s[1..], c);
      assert [s[0]] + s[1..] == s;
    }
  }

  /** A normalised entity type holds no underscore and no capital letter,
      and normalising it again changes nothing. */
  lemma {:induction false} NormalisedForm(entityType: string)
    ensures var t := NormaliseEntityType(entityType);
      '_' !in t && (forall i :: 0 <= i < |t| ==> !('A' <= t[i] <= 'Z')) &&
      NormaliseEntityType(t) == t
  {
    var removed := RemoveChar(entityType, '_');
    var t := Lower(removed);
    LowerKeeps(removed, '_');
    RemoveCharAbsent(t, '_');
    LowerIdempotent(removed);
  }

  /** Normalising works character by character: it distributes over
      concatenation, deletes an underscore and lower-cases any other
      character. So a normalised type is the input's other characters, in
      order, lower-cased. */
  lemma NormaliseByCharacter(a: string, b: string)
    ensures NormaliseEntityType(a + b) == NormaliseEntityType(a) + NormaliseEntityType(b)
    ensures |a| == 1 ==> NormaliseEntityType(a) == if a[0] == '_' then [] else [LowerChar(a[0])]
  {
    RemoveCharAppend(a, b, '_');
    LowerAppend(RemoveChar(a, '_'), RemoveChar(b, '_'));
  }

  /** A schema whose `alias_for` is a non-empty string equal, lower-cased, to `t`. */
  predicate AliasMatches(schema: Schema, t: string) {
    Truthy(schema.aliasFor) && schema.aliasFor.VStr? && Lower(schema.aliasFor.s) == t
  }

  /** A schema whose id, lower-cased, equals `t`. */
  predicate IdMatches(schema: Schema, t: string) {
    Lower(schema.id) == t
  }

  /** The API name of an entity type: the id of the first schema whose alias
      matches its normalised form, else of the first schema whose id does. */
  function ResolveEntityType(schemas: seq<Schema>, entityType: string): Result<string> {
    var t := NormaliseEntityType(entityType);
    match FirstIndex(schemas, (s: Schema) => AliasMatches(s, t))
    case Some(i) => Ok(schemas[i].id)
    case None =>
      match FirstIndex(schemas, (s: Schema) => IdMatches(s, t))
      case Some(i) => Ok(schemas[i].id)
      case None => Err(ValueError("Unable to translate entity type: " + t + "."))
  }

  /** What translating one selection item's type gives. */
  function EntityTypeOf(schemas: seq<Schema>, item: SelectionItem): Result<string> {
    if item.entityType.None? then Err(AttributeError(NoReplace))
    else ResolveEntityType(schemas, item.entityType.value)
  }

  /** Resolution always yields the id of a schema of the list; an alias match
      wins over any id match, even one earlier in the list; an id match is
      used only when no alias matches; and resolution fails exactly when
      nothing matches. */
  lemma ResolveEntityTypeSpec(schemas: seq<Schema>, entityType: string)
    ensures var t := NormaliseEntityType(entityType);
      var r := ResolveEntityType(schemas, entityType);
      && (r.Ok? ==> exists i :: 0 <= i < |schemas| && schemas[i].id == r.value)
      && (forall i :: (0 <= i < |schemas| && AliasMatches(schemas[i], t) &&
                        (forall j :: 0 <= j < i ==> !AliasMatches(schemas[j], t))) ==>
            r == Ok(schemas[i].id))
      && (forall i :: (0 <= i < |schemas| && IdMatches(schemas[i], t) &&
                        (forall j :: 0 <= j < |schemas| ==> !AliasMatches(schemas[j], t)) &&
                        (forall j :: 0 <= j < i ==> !IdMatches(schemas[j], t))) ==>
            r == Ok(schemas[i].id))
      && (r.Err? <==> forall i :: 0 <= i < |schemas| ==>
            !AliasMatches(schemas[i], t) && !IdMatches(schemas[i], t))
      && (r.Err? ==> r.error == ValueError("Unable to translate entity type: " + t + "."))
  {
  }

  /** How one selection item's type translates against the schemas. */
  function TypeOfItem(schemas: seq<Schema>): SelectionItem -> Result<string> {
    (item: SelectionItem) => EntityTypeOf(schemas, item)
  }

  /** The selection translated item by item with `typeOf`: one pair per
      item, in order; the first item whose type does not translate makes
      the whole translation fail. */
  function TranslateBy(typeOf: SelectionItem -> Result<string>, items: seq<SelectionItem>): Result<seq<EntityRef>>
  {
    if items == [] then Ok([])
    else
      match TranslateBy(typeOf, items[..|items| - 1])
      case Err(e) => Err(e)
      case Ok(init) =>
        match typeOf(items[|items| - 1])
        case Err(e) => Err(e)
        case Ok(t) => Ok(init + [(t, items[|items| - 1].entityId)])
  }

  /** The translated selection. */
  function Translate(schemas: seq<Schema>, items: seq<SelectionItem>): Result<seq<EntityRef>> {
    TranslateBy(TypeOfItem(schemas), items)
  }

  lemma {:induction false} TranslateByKeepsError(typeOf: SelectionItem -> Result<string>,
                                                  items: seq<SelectionItem>, n: nat)
    requires n <= |items| && TranslateBy(typeOf, items[..n]).Err?
    ensures TranslateBy(typeOf, items) == TranslateBy(typeOf, items[..n])
    decreases |items|
  {
    if n == |items| {
      assert items[..n] == items;
    } else {
      var init := items[..|items| - 1];
      assert init[..n] == items[..n];
      TranslateByKeepsError(typeOf, init, n);
    }
  }

  lemma {:induction false} TranslateByAt(typeOf: SelectionItem -> Result<string>,
                                         items: seq<SelectionItem>, i: nat)
    requires i < |items| && TranslateBy(typeOf, items).Ok?
    ensures |TranslateBy(typeOf, items).value| == |items|
    ensures var e := TranslateBy(typeOf, items).value[i];
      typeOf(items[i]) == Ok(e.0) && e.1 == items[i].entityId
    decreases |items|
  {
    var n := |items| - 1;
    var init := items[..n];
    if i < n {
      TranslateByAt(typeOf, init, i);
      assert init[i] == items[i];
    } else if n > 0 {
      TranslateByAt(typeOf, init, 0);
    } else {
      assert init == [];
    }
  }

  lemma {:induction false} TranslateByFirstFailure(typeOf: SelectionItem -> Result<string>,
                                                   items: seq<SelectionItem>)
    requires TranslateBy(typeOf, items).Err?
    ensures exists i :: 0 <= i < |items| && typeOf(items[i]) == Err(TranslateBy(typeOf, items).error) &&
                        forall j :: 0 <= j < i ==> typeOf(items[j]).Ok?
    decreases |items|
  {
    var n := |items| - 1;
    var init := items[..n];
    if TranslateBy(typeOf, init).Err? {
      TranslateByFirstFailure(typeOf, init);
      var i :| 0 <= i < |init| && typeOf(init[i]) == Err(TranslateBy(typeOf, init).error) &&
        forall j :: 0 <= j < i ==> typeOf(init[j]).Ok?;
      assert forall k :: 0 <= k <= i ==> init[k] == items[k];
    } else {
      forall j | 0 <= j < n
        ensures typeOf(items[j]).Ok?
      {
        TranslateByAt(typeOf, init, j);
        assert init[j] == items[j];
      }
    }
  }

  /** Once a prefix of the selection fails to translate, so does the whole
      selection, with the same error. */
  lemma TranslateKeepsError(schemas: seq<Schema>, items: seq<SelectionItem>, n: nat)
    requires n <= |items| && Translate(schemas, items[..n]).Err?
    ensures Translate(schemas, items) == Translate(schemas, items[..n])
  {
    TranslateByKeepsError(TypeOfItem(schemas), items, n);
  }

  /** A successful translation holds one pair per item, in order, each the
      item's translated type and its id. */
  lemma TranslateOkSpec(schemas: seq<Schema>, items: seq<SelectionItem>)
    ensures Translate(schemas, items).Ok? ==>
      var es := Translate(schemas, items).value;
      |es| == |items| &&
      forall i :: 0 <= i < |items| ==>
        EntityTypeOf(schemas, items[i]) == Ok(es[i].0) && es[i].1 == items[i].entityId
  {
    if items != [] && Translate(schemas, items).Ok? {
      var typeOf := TypeOfItem(schemas);
      TranslateByAt(typeOf, items, 0);
      forall i | 0 <= i < |items|
        ensures var e := Translate(schemas, items).value[i];
          EntityTypeOf(schemas, items[i]) == Ok(e.0) && e.1 == items[i].entityId
      {
        TranslateByAt(typeOf, items, i);
        assert typeOf(items[i]) == EntityTypeOf(schemas, items[i]);
      }
    }
  }

  /** Item `i` is the first of the selection whose type does not translate,
      and it fails with `e`. */
  predicate FirstFailure(schemas: seq<Schema>, items: seq<SelectionItem>, i: int, e: Exception) {
    && 0 <= i < |items|
    && EntityTypeOf(schemas, items[i]) == Err(e)
    && forall j :: 0 <= j < i ==> EntityTypeOf(schemas, items[j]).Ok?
  }

  /** When translation fails, the error is that of the first item whose
      type cannot be translated. */
  lemma TranslateErrSpec(schemas: seq<Schema>, items: seq<SelectionItem>)
    requires Translate(schemas, items).Err?
    ensures exists i :: FirstFailure(schemas, items, i, Translate(schemas, items).error)
  {
    var typeOf := TypeOfItem(schemas);
    TranslateByFirstFailure(typeOf, items);
    var i :| 0 <= i < |items| && typeOf(items[i]) == Err(TranslateBy(typeOf, items).error) &&
      forall j :: 0 <= j < i ==> typeOf(items[j]).Ok?;
    assert forall j :: 0 <= j <= i ==> typeOf(items[j]) == EntityTypeOf(schemas, items[j]);
    assert FirstFailure(schemas, items, i, Translate(schemas, items).error);
  }

  /** Translation succeeds exactly when every item's type translates. */
  lemma TranslateOkIff(schemas: seq<Schema>, items: seq<SelectionItem>)
    ensures Translate(schemas, items).Ok? <==>
      forall i :: 0 <= i < |items| ==> EntityTypeOf(schemas, items[i]).Ok?
  {
    TranslateOkSpec(schemas, items);
    if Translate(schemas, items).Err? {
      TranslateErrSpec(schemas, items);
      var i :| FirstFailure(schemas, items, i, Translate(schemas, items).error);
      assert EntityTypeOf(schemas, items[i]).Err?;
    }
  }

  // ---------------------------------------------------------------------
  // Results

  /** A response dictionary with `success` and `message` keys. */
  function Reply(success: bool, message: string): Value {
    VDict(map["success" := VBool(success), "message" := VStr(message)])
  }

  /** Normalise what a launch callback returned: a bool becomes a reply
      dictionary, a dictionary must hold `success` and `message`, anything
      else is passed on as it is. */
  function HandleResult(actionLabel: string, result: Value): Result<Value> {
    match result
    case VBool(b) => Ok(Reply(b, actionLabel + " launched successfully."))
    case VDict(d) =>
      if "success" !in d then Err(KeyError("Missing required key: success."))
      else if "message" !in d then Err(KeyError("Missing required key: message."))
      else Ok(result)
    case _ => Ok(result)
  }

  /** A bool or a dictionary that passes the check comes out as a dictionary
      holding both keys; the check fails exactly for a dictionary missing a
      key, naming `success` first and `message` when only it is missing; and a result that passed is passed on
      unchanged when checked again. */
  lemma HandleResultSpec(actionLabel: string, result: Value)
    ensures result.VBool? ==>
      HandleResult(actionLabel, result) ==
      Ok(VDict(map["success" := result, "message" := VStr(actionLabel + " launched successfully.")]))
    ensures HandleResult(actionLabel, result).Err? <==>
      result.VDict? && !("success" in result.entries && "message" in result.entries)
    ensures result.VDict? && "success" !in result.entries ==>
      HandleResult(actionLabel, result) == Err(KeyError("Missing required key: success."))
    ensures result.VDict? && "success" in result.entries && "message" !in result.entries ==>
      HandleResult(actionLabel, result) == Err(KeyError("Missing required key: message."))
    ensures !result.VBool? && HandleResult(actionLabel, result).Ok? ==> HandleResult(actionLabel, result).value == result
    ensures HandleResult(actionLabel, result).Ok? ==>
      HandleResult(actionLabel, HandleResult(actionLabel, result).value) == HandleResult(actionLabel, result)
  {
  }

  /** The `{items: ...}` wrapper of an interface, or None when the interface
      is empty. */
  function InterfaceResponse(items: Value): Value {
    if Truthy(items) then VDict(map["items" := items]) else VNone
  }

  // ---------------------------------------------------------------------
  // Apps

  /** The part of an app name before its first underscore. */
  function AppPrefix(appName: string): string {
    Split(appName, '_')[0]
  }

  /** The prefix is the name up to, and without, its first underscore; a
      name without underscore is its own prefix. */
  lemma AppPrefixSpec(appName: string)
    ensures var p := AppPrefix(appName);
      '_' !in p && |p| <= |appName| && appName[..|p|] == p &&
      ('_' in appName ==> appName[|p|] == '_') &&
      ('_' !in appName ==> p == appName)
  {
    SplitFirstPiece(appName, '_');
  }

  /** Some configured app of the project belongs to `identifier`. */
  predicate Accepts(identifier: string, project: Project) {
    exists i :: 0 <= i < |project.appNames| && AppPrefix(project.appNames[i]) == identifier
  }

  class AppAction {
    const session: Session
    const actionLabel: string
    const identifier: string
    const executable: string
    const variant: Value
    const icon: Value
    const description: Value

    constructor (session: Session, actionLabel: string, name: string, executable: string,
                 variant: Value, icon: Value, description: Value)
      ensures this.session == session && this.actionLabel == actionLabel && this.identifier == name
      ensures this.executable == executable && this.variant == variant
      ensures this.icon == icon && this.description == description
    {
      this.session := session;
      this.actionLabel := actionLabel;
      this.identifier := name;
      this.executable := executable;
      this.variant := variant;
      this.icon := icon;
      this.description := description;
    }

    /** Construction with the checks of the source's initialiser, in its
        order; None stands for an argument passed as None. */
    static method Create(session: Session, actionLabel: Option<string>, name: Option<string>,
                         executable: Option<string>, variant: Value, icon: Value,
                         description: Value) returns (r: Result<AppAction>)
      ensures actionLabel.None? ==> r == Err(ValueError("Action missing label."))
      ensures actionLabel.Some? && name.None? ==> r == Err(ValueError("Action missing identifier."))
      ensures actionLabel.Some? && name.Some? && executable.None? ==>
        r == Err(ValueError("Action missing executable."))
      ensures actionLabel.Some? && name.Some? && executable.Some? ==>
        && r.Ok? && fresh(r.value)
        && r.value.session == session && r.value.actionLabel == actionLabel.value
        && r.value.identifier == name.value && r.value.executable == executable.value
        && r.value.variant == variant && r.value.icon == icon
        && r.value.description == description
    {
      if actionLabel.None? {
        return Err(ValueError("Action missing label."));
      } else if name.None? {
        return Err(ValueError("Action missing identifier."));
      } else if executable.None? {
        return Err(ValueError("Action missing executable."));
      }
      var action := new AppAction(session, actionLabel.value, name.value, executable.value,
                                  variant, icon, description);
      return Ok(action);
    }

    /** Translate one selection item's entity type: first look for an alias
        match, then for an id match, and fail when neither exists. */
    method GetEntityType(entity: SelectionItem) returns (r: Result<string>)
      ensures r == EntityTypeOf(session.schemas, entity)
    {
      if entity.entityType.None? {
        return Err(AttributeError(NoReplace));
      }
      var entityType := NormaliseEntityType(entity.entityType.value);
      var schemas := session.schemas;
      var i := 0;
      while i < |schemas|
        invariant 0 <= i <= |schemas|
        invariant forall j :: 0 <= j < i ==> !AliasMatches(schemas[j], entityType)
      {
        var aliasFor := schemas[i].aliasFor;
        if Truthy(aliasFor) && aliasFor.VStr? && Lower(aliasFor.s) == entityType {
          return Ok(schemas[i].id);
        }
        i := i + 1;
      }
      i := 0;
      while i < |schemas|
        invariant 0 <= i <= |schemas|
        invariant forall j :: 0 <= j < i ==> !IdMatches(schemas[j], entityType)
      {
        if Lower(schemas[i].id) == entityType {
          return Ok(schemas[i].id);
        }
        i := i + 1;
      }
      return Err(ValueError("Unable to translate entity type: " + entityType + "."));
    }

    /** The event's selection as (type, id) pairs, together with the event. */
    method TranslateEvent(event: Event) returns (r: Result<(seq<EntityRef>, Event)>)
      ensures r.Ok? <==> Translate(session.schemas, Selection(event)).Ok?
      ensures r.Ok? ==> r.value == (Translate(session.schemas, Selection(event)).value, event)
      ensures r.Err? ==> r.error == Translate(session.schemas, Selection(event)).error
    {
      var items := if event.selection.Some? then event.selection.value else [];
      var entities: seq<EntityRef> := [];
      var i := 0;
      while i < |items|
        invariant 0 <= i <= |items|
        invariant Translate(session.schemas, items[..i]) == Ok(entities)
      {
        var t := GetEntityType(items[i]);
        assert items[..i + 1][..i] == items[..i];
        if t.Err? {
          TranslateKeepsError(session.schemas, items, i + 1);
          return Err(t.error);
        }
        entities := entities + [(t.value, items[i].entityId)];
        i := i + 1;
      }
      assert items[..i] == items;
      return Ok((entities, event));
    }

    /** Whether the action is offered: an empty selection fails, a missing
        project declines, otherwise the identifier must be the prefix of a
        configured app name. */
    function DiscoverVerdict(entities: seq<EntityRef>, project: Option<Project>): Result<bool> {
      if entities == [] then Err(IndexError("list index out of range"))
      else if project.None? then Ok(false)
      else Ok(Accepts(identifier, project.value))
    }

    /** The discover callback; `project` is what the database returns for
        the project of the first selected entity. */
    method Discover(entities: seq<EntityRef>, project: Option<Project>) returns (r: Result<bool>)
      ensures r == DiscoverVerdict(entities, project)
    {
      if |entities| == 0 {
        return Err(IndexError("list index out of range"));
      }
      if project.None? {
        return Ok(false);
      }
      var names := project.value.appNames;
      var apps: seq<string> := [];
      var i := 0;
      while i < |names|
        invariant 0 <= i <= |names|
        invariant |apps| == i
        invariant forall k :: 0 <= k < i ==> apps[k] == AppPrefix(names[k])
      {
        apps := apps + [Split(names[i], '_')[0]];
        i := i + 1;
      }
      if identifier !in apps {
        return Ok(false);
      }
      return Ok(true);
    }

    /** The single item offered to the server by the discover handler. */
    function DiscoverItems(): Value {
      VDict(map["items" := VList([VDict(map[
        "label" := VStr(actionLabel),
        "variant" := variant,
        "description" := description,
        "actionIdentifier" := VStr(identifier),
        "icon" := icon])])])
    }

    /** The discover handler's answer: the action's item when the discover
        callback accepts, None when it declines. */
    function DiscoverResponse(event: Event, project: Option<Project>): Result<Value> {
      match Translate(session.schemas, Selection(event))
      case Err(e) => Err(e)
      case Ok(entities) =>
        match DiscoverVerdict(entities, project)
        case Err(e) => Err(e)
        case Ok(accepts) => Ok(if accepts then DiscoverItems() else VNone)
    }

    method HandleDiscover(event: Event, project: Option<Project>) returns (r: Result<Value>)
      ensures r == DiscoverResponse(event, project)
    {
      var args := TranslateEvent(event);
      if args.Err? {
        return Err(args.error);
      }
      var accepts := Discover(args.value.0, project);
      if accepts.Err? {
        return Err(accepts.error);
      }
      if accepts.value {
        return Ok(DiscoverItems());
      }
      return Ok(VNone);
    }

    /** The action is offered exactly when the selection translates, is not
        empty, and the project exists and configures an app of this
        identifier; the offered item names this action. */
    lemma DiscoverOffersIff(event: Event, project: Option<Project>)
      ensures DiscoverResponse(event, project) == Ok(DiscoverItems()) <==>
        && Translate(session.schemas, Selection(event)).Ok?
        && Selection(event) != []
        && project.Some? && Accepts(identifier, project.value)
      ensures DiscoverItems().entries["items"].items[0].entries["actionIdentifier"] == VStr(identifier)
    {
      TranslateOkSpec(session.schemas, Selection(event));
    }

    // -------------------------------------------------------------------
    // Launch

    /** The launcher folder: `<studio templates>/bin/<platform>`, with
        quotes stripped from either end. */
    function LauncherDir(studioTemplates: string, platformName: string): string {
      Strip(PosixPath.Join(PosixPath.Join(studioTemplates, "bin"), Lower(platformName)), '"')
    }

    /** The launcher path tried for one extension. */
    function Candidate(dir: string, ext: string): string {
      PosixPath.Join(dir, executable + ext)
    }

    /** Whether the launcher path for an extension is an executable file. */
    function IsLauncher(dir: string, isExecutable: string -> bool): string -> bool {
      (ext: string) => isExecutable(Candidate(dir, ext))
    }

    lemma IsLauncherAt(dir: string, isExecutable: string -> bool, ext: string)
      ensures IsLauncher(dir, isExecutable)(ext) == isExecutable(Candidate(dir, ext))
      ensures Candidate(dir, ext) == PosixPath.Join(dir, executable + ext)
    {
    }

    /** The launcher path of the first extension, in order, whose path is an
        executable file. */
    function FirstLauncher(dir: string, exts: seq<string>, isExecutable: string -> bool): Option<string> {
      match FirstIndex(exts, IsLauncher(dir, isExecutable))
      case None => None
      case Some(i) => Some(Candidate(dir, exts[i]))
    }

    /** The launcher search of the launch callback: try each extension in
        turn and stop at the first whose launcher path is executable. */
    method FindLauncher(dir: string, exts: seq<string>, isExecutable: string -> bool)
      returns (execfile: Option<string>)
      ensures execfile == FirstLauncher(dir, exts, isExecutable)
    {
      execfile := None;
      var i := 0;
      while i < |exts|
        invariant 0 <= i <= |exts|
        invariant forall j :: 0 <= j < i ==> !IsLauncher(dir, isExecutable)(exts[j])
      {
        var fpath := PosixPath.Join(dir, executable + exts[i]);
        IsLauncherAt(dir, isExecutable, exts[i]);
        if isExecutable(fpath) {
          FirstIndexAt(exts, IsLauncher(dir, isExecutable), i);
          execfile := Some(fpath);
          return;
        }
        i := i + 1;
      }
    }

    /** What the launch callback does: read the environment, then start the
        launcher of the first extension listed in PATHEXT whose path is an
        executable file, and reply whether one was found. */
    function LaunchOutcome(env: map<string, string>, platformName: string, pathsep: char,
                           isExecutable: string -> bool): Result<LaunchReply>
    {
      if "PYPE_STUDIO_TEMPLATES" !in env then Err(KeyError("PYPE_STUDIO_TEMPLATES"))
      else if "PATHEXT" !in env then Err(KeyError("PATHEXT"))
      else
        var dir := LauncherDir(env["PYPE_STUDIO_TEMPLATES"], platformName);
        var execfile := FirstLauncher(dir, Split(env["PATHEXT"], pathsep), isExecutable);
        if execfile.None? then Ok(LaunchReply(Reply(false, "We didn't found launcher for " + actionLabel), None))
        else Ok(LaunchReply(Reply(true, "Launching " + actionLabel), execfile))
    }

    /** The launch callback: `env` is the process environment, `pathsep`
        the platform's path-list separator, `isExecutable` whether a path is
        an executable file. */
    method Launch(env: map<string, string>, platformName: string, pathsep: char,
                  isExecutable: string -> bool) returns (r: Result<LaunchReply>)
      ensures r == LaunchOutcome(env, platformName, pathsep, isExecutable)
    {
      if "PYPE_STUDIO_TEMPLATES" !in env {
        return Err(KeyError("PYPE_STUDIO_TEMPLATES"));
      }
      var path := PosixPath.Join(PosixPath.Join(env["PYPE_STUDIO_TEMPLATES"], "bin"), Lower(platformName));
      if "PATHEXT" !in env {
        return Err(KeyError("PATHEXT"));
      }
      var execfile := FindLauncher(Strip(path, '"'), Split(env["PATHEXT"], pathsep), isExecutable);
      if execfile.None? {
        return Ok(LaunchReply(Reply(false, "We didn't found launcher for " + actionLabel), None));
      }
      return Ok(LaunchReply(Reply(true, "Launching " + actionLabel), execfile));
    }

    /** The launcher search finds a launcher exactly when some extension's
        launcher path is executable, and then it is the path of the first
        such extension. */
    lemma FirstLauncherSpec(dir: string, exts: seq<string>, isExecutable: string -> bool)
      ensures var r := FirstLauncher(dir, exts, isExecutable);
        && (r.Some? <==> exists i :: 0 <= i < |exts| && isExecutable(Candidate(dir, exts[i])))
        && (r.Some? ==>
              exists i :: (0 <= i < |exts| &&
                r.value == Candidate(dir, exts[i]) && isExecutable(r.value) &&
                forall j :: 0 <= j < i ==> !isExecutable(Candidate(dir, exts[j]))))
    {
      var p := IsLauncher(dir, isExecutable);
      forall x {
        IsLauncherAt(dir, isExecutable, x);
      }
      match FirstIndex(exts, p)
      case None =>
      case Some(i) =>
        assert p(exts[i]);
    }

    /** The launch callback replies success exactly when some PATHEXT
        extension names an executable launcher; it then starts the launcher
        of the first such extension, and else starts nothing. */
    lemma LaunchPicksFirstExecutable(env: map<string, string>, platformName: string,
                                     pathsep: char, isExecutable: string -> bool)
      requires "PYPE_STUDIO_TEMPLATES" in env && "PATHEXT" in env
      ensures var dir := LauncherDir(env["PYPE_STUDIO_TEMPLATES"], platformName);
        var exts := Split(env["PATHEXT"], pathsep);
        var r := LaunchOutcome(env, platformName, pathsep, isExecutable);
        && r.Ok?
        && r.value.started == FirstLauncher(dir, exts, isExecutable)
        && (r.value.started.Some? <==> exists i :: 0 <= i < |exts| && isExecutable(Candidate(dir, exts[i])))
        && r.value.response == Reply(r.value.started.Some?,
              if r.value.started.Some? then "Launching " + actionLabel
              else "We didn't found launcher for " + actionLabel)
    {
      var dir := LauncherDir(env["PYPE_STUDIO_TEMPLATES"], platformName);
      var exts := Split(env["PATHEXT"], pathsep);
      FirstLauncherSpec(dir, exts, isExecutable);
    }

    /** The launch handler's answer: an interface that is not empty is
        returned wrapped and nothing is launched; otherwise the launch
        callback runs and its reply is normalised. */
    function LaunchResponse(event: Event, interfaceItems: Value, env: map<string, string>,
                            platformName: string, pathsep: char,
                            isExecutable: string -> bool): Result<LaunchReply>
    {
      match Translate(session.schemas, Selection(event))
      case Err(e) => Err(e)
      case Ok(_) =>
        if Truthy(InterfaceResponse(interfaceItems)) then Ok(LaunchReply(InterfaceResponse(interfaceItems), None))
        else
          match LaunchOutcome(env, platformName, pathsep, isExecutable)
          case Err(e) => Err(e)
          case Ok(reply) =>
            match HandleResult(actionLabel, reply.response)
            case Err(e) => Err(e)
            case Ok(v) => Ok(LaunchReply(v, reply.started))
    }

    /** The launch handler; `interfaceItems` is what the action's interface
        hook returns for this event (None for this base class). */
    method HandleLaunch(event: Event, interfaceItems: Value, env: map<string, string>,
                        platformName: string, pathsep: char,
                        isExecutable: string -> bool) returns (r: Result<LaunchReply>)
      ensures r == LaunchResponse(event, interfaceItems, env, platformName, pathsep, isExecutable)
    {
      var args := TranslateEvent(event);
      if args.Err? {
        return Err(args.error);
      }
      var interface := InterfaceResponse(interfaceItems);
      if Truthy(interface) {
        return Ok(LaunchReply(interface, None));
      }
      var response := Launch(env, platformName, pathsep, isExecutable);
      if response.Err? {
        return Err(response.error);
      }
      var result := HandleResult(actionLabel, response.value.response);
      if result.Err? {
        return Err(result.error);
      }
      return Ok(LaunchReply(result.value, response.value.started));
    }

    /** A non-empty interface short-circuits the launch: it is answered as
        `{items: interface}` and no launcher starts. */
    lemma InterfaceShortCircuits(event: Event, interfaceItems: Value, env: map<string, string>,
                                 platformName: string, pathsep: char, isExecutable: string -> bool)
      requires Translate(session.schemas, Selection(event)).Ok?
      requires Truthy(interfaceItems)
      ensures LaunchResponse(event, interfaceItems, env, platformName, pathsep, isExecutable) ==
        Ok(LaunchReply(VDict(map["items" := interfaceItems]), None))
    {
      var wrapped := InterfaceResponse(interfaceItems);
      assert wrapped == VDict(map["items" := interfaceItems]);
      assert "items" in wrapped.entries;
    }

    /** An empty interface is no answer at all; the handler then answers
        what the launch callback answers, which the result check passes
        on unchanged. */
    lemma EmptyInterfaceLaunches(event: Event, interfaceItems: Value, env: map<string, string>,
                                 platformName: string, pathsep: char, isExecutable: string -> bool)
      requires Translate(session.schemas, Selection(event)).Ok?
      requires !Truthy(interfaceItems)
      ensures InterfaceResponse(interfaceItems) == VNone
      ensures LaunchResponse(event, interfaceItems, env, platformName, pathsep, isExecutable) ==
        LaunchOutcome(env, platformName, pathsep, isExecutable)
    {
      match LaunchOutcome(env, platformName, pathsep, isExecutable)
      case Err(e) =>
      case Ok(reply) =>
        var b := reply.started.Some?;
        var message := if b then "Launching " + actionLabel else "We didn't found launcher for " + actionLabel;
        assert reply.response == Reply(b, message);
        assert HandleResult(actionLabel, Reply(b, message)) == Ok(Reply(b, message));
    }
  }
}
