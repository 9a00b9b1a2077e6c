# Pipeline decision logic: action handler, outdated-content check, local-render extractor

This project models three small pieces of sequential decision logic from a
VFX pipeline toolkit, and proves properties of them in Dafny.

- **The application action handler** (`AppAction`). This is a base class
  for "actions" offered on the production-tracking server. It validates its
  construction arguments in a fixed order. It translates an event's
  selection into (entity type, entity id) pairs: each type is normalised
  (underscores deleted, then lower-cased) and resolved against the
  session's schema list, where alias matches win over id matches. It
  answers a *discover* event with its menu item when the project
  configures an app whose name, cut at its first `_`, is the action's
  identifier. It answers a *launch* event in one of two ways:
  - when the interface hook returns something non-empty, it returns that
    wrapped interface and launches nothing;
  - otherwise it searches the `PATHEXT` extensions, in order, for the
    first executable launcher, then checks the callback's result (a bool
    becomes a reply dictionary, and a dictionary must hold `success` and
    `message`).
- **The colorbleed scene helpers.** `is_latest` asks whether a
  representation belongs to the highest-numbered version of its subset.
  `any_outdated` scans the loaded containers, checks each distinct
  representation once, and stops at the first outdated one.
  `update_task_from_path` parses a scene path against the work template and
  computes which of `asset`, `task` and `app` differ from the session. It
  updates the current task only when that set of changes is non-empty.
- **The After Effects local-render extractor.** It takes the extension
  from the render queue's output file name. It keeps the rendered files
  that end with that extension and records them as the instance's main
  representation: a bare name when there is one file, a list otherwise,
  tagged `review` when the instance is reviewed. It builds the ffmpeg
  command that makes a thumbnail of the first file, then appends the
  thumbnail's representation.

Every external object becomes an input value:
- the server session is its schema list;
- a database lookup is the document list it searches, or the project
  document it returns;
- the environment is a map;
- the file system's "is an executable file" test is a predicate;
- the template parser is a partial function;
- the staging directory is its listing after the render;
- the ffmpeg run is the exception it raises, if any.

Python's `os.path` functions are modelled with the semantics of
`posixpath` (module `PosixPath`). The `str` methods the code calls are in
`PyText`. Python values, exceptions and truthiness are in `Py`.

The imperative parts stay imperative:
- the entity-type loops, the selection loop, the `apps` loop and the
  launcher loop are methods of the class `AppActions.AppAction`, each
  proved equal to a specification function;
- the `checked`-set scan is a method with loop invariants;
- the extractor is a method that updates the `representations` field of
  an `Instance` object.

## Model

| member | source | states |
|---|---|---|
| AppActions.AppAction.Create | pype/vendor/ftrack_action_handler/appaction.py:21-41 | A missing label raises `ValueError("Action missing label.")`. Otherwise a missing name raises the missing-identifier error, then a missing executable raises the missing-executable error. On success a fresh action stores the label, the name as identifier, the executable, variant, icon and description. |
| AppActions.NormalisedForm | pype/vendor/ftrack_action_handler/appaction.py:153 | A normalised entity type contains no `_` and no capital letter, and normalising it again changes nothing. |
| AppActions.NormaliseByCharacter | pype/vendor/ftrack_action_handler/appaction.py:153 | Normalising works character by character: it distributes over concatenation, drops a `_` and lower-cases any other character. So the normalised type is the input's other characters, in order, lower-cased. |
| AppActions.ResolveEntityTypeSpec | pype/vendor/ftrack_action_handler/appaction.py:153-170 | A resolved type is always the id of some schema. The first alias match wins even over an earlier id match. The first id match is used only when no alias matches. Resolution fails exactly when nothing matches, with `ValueError("Unable to translate entity type: <t>.")`. |
| AppActions.AppAction.GetEntityType | pype/vendor/ftrack_action_handler/appaction.py:149-170 | The two early-returning loops give exactly the resolution above. A selection item without an entity type raises the `AttributeError` of calling `replace` on None. |
| AppActions.TranslateKeepsError | pype/vendor/ftrack_action_handler/appaction.py:137-142 | Once a prefix of the selection fails to translate, the whole selection fails with the same error. |
| AppActions.TranslateOkSpec | pype/vendor/ftrack_action_handler/appaction.py:134-147 | A successful translation has one pair per selection item, in order: the item's resolved type and its id. An absent selection gives no pairs. |
| AppActions.TranslateErrSpec | pype/vendor/ftrack_action_handler/appaction.py:137-142 | A failed translation fails with the error of the first item whose type does not resolve. |
| AppActions.TranslateOkIff | pype/vendor/ftrack_action_handler/appaction.py:137-142 | Translation succeeds exactly when every item's type resolves. |
| AppActions.AppAction.TranslateEvent | pype/vendor/ftrack_action_handler/appaction.py:131-147 | The appending loop returns the translated pairs together with the unchanged event, or raises the translation's error. |
| AppActions.AppPrefixSpec | pype/vendor/ftrack_action_handler/appaction.py:124 | An app's prefix is its name up to, and not including, the first `_`. A name without `_` is its own prefix. |
| AppActions.AppAction.Discover | pype/vendor/ftrack_action_handler/appaction.py:100-129 | An empty entity list raises `IndexError`. A missing project answers false. Otherwise the answer is true exactly when the identifier is the prefix of some configured app name. |
| AppActions.AppAction.HandleDiscover | pype/vendor/ftrack_action_handler/appaction.py:64-82 | The discover handler translates the event and asks the discover callback. It answers the action's item when the callback accepts, and None when it declines. |
| AppActions.AppAction.DiscoverOffersIff | pype/vendor/ftrack_action_handler/appaction.py:64-82 | The action's item is offered exactly when three things hold: the selection translates, it is non-empty, and the project exists and configures an app of this identifier. The item carries the action's identifier. |
| AppActions.AppAction.FindLauncher | pype/vendor/ftrack_action_handler/appaction.py:225-231 | The loop with `break` returns the launcher path of the first extension, in order, whose path is executable, or None. |
| AppActions.AppAction.FirstLauncherSpec | pype/vendor/ftrack_action_handler/appaction.py:227-231 | A launcher is found exactly when some extension's path is executable. It is then the path built from the joined launcher folder and `executable + ext`, and no earlier extension's path is executable. |
| AppActions.AppAction.Launch | pype/vendor/ftrack_action_handler/appaction.py:219-246 | A missing `PYPE_STUDIO_TEMPLATES`, then a missing `PATHEXT`, raises `KeyError`. Otherwise the callback replies success with "Launching <label>" and starts the launcher found, or replies failure with the "didn't found launcher" message when there is none. |
| AppActions.AppAction.LaunchPicksFirstExecutable | pype/vendor/ftrack_action_handler/appaction.py:227-246 | With both variables set, the launch never raises. It starts the first executable launcher and replies success exactly when one exists, with the message that matches. |
| AppActions.HandleResultSpec | pype/vendor/ftrack_action_handler/appaction.py:271-297 | A bool `b` becomes `{success: b, message: "<label> launched successfully."}`. The check fails exactly for a dictionary missing a key. It names `success` when that key is missing, and `message` when only `message` is missing. Any other value is passed on unchanged. Checking a passed result again changes nothing. |
| AppActions.AppAction.HandleLaunch | pype/vendor/ftrack_action_handler/appaction.py:172-190 | The launch handler translates the event. It answers a non-empty interface without launching. Otherwise it runs the launch callback and checks its result. |
| AppActions.AppAction.InterfaceShortCircuits | pype/vendor/ftrack_action_handler/appaction.py:248-254 | A truthy interface is answered as `{items: interface}` and no launcher starts. |
| AppActions.AppAction.EmptyInterfaceLaunches | pype/vendor/ftrack_action_handler/appaction.py:181-190 | A falsy interface wraps to None. The handler then answers exactly what the launch callback answers, because the result check passes the callback's reply through unchanged. |
| ColorbleedLib.FindById | colorbleed/lib.py:23-25 | A lookup by id, of a representation or of a version, returns a document of the list with that id, and finds nothing exactly when none has it. |
| ColorbleedLib.HighestVersionName | colorbleed/lib.py:28-31 | The result of the descending-name lookup is the name of some version of the subset, and no version of the subset has a higher one. There is none exactly when the subset has no version. |
| ColorbleedLib.IsLatestSpec | colorbleed/lib.py:23-36 | The check fails (subscripting None) exactly when the representation or its version is missing. It answers true exactly when no version of the same subset has a higher name. |
| ColorbleedLib.AnyOutdatedSpec | colorbleed/lib.py:39-53 | No containers means not outdated. A true answer names a container whose representation is not latest. When every check succeeds, the answer is true exactly when some container's representation is not latest. |
| ColorbleedLib.AnyOutdatedScan | colorbleed/lib.py:42-53 | The scan with its `checked` set computes the answer above. It queries each representation at most once, and only representations of the containers. Every query but the last found a latest representation. A true answer stops at the first outdated one. |
| ColorbleedLib.UpdateTaskFromPathSpec | colorbleed/lib.py:64-92 | An empty path updates nothing. A path that does not parse updates nothing and raises nothing. An update carries a non-empty map of exactly the `asset`/`task`/`app` keys whose parsed value differs from the session's, each mapped to the parsed value. When the path parses, the context holds the three keys and the session holds their three variables, the call never raises. It then makes no update exactly when all three keys agree, and an update exactly when one differs. |
| ColorbleedLib.UpdateTaskIdempotent | colorbleed/lib.py:87-92 | Applying the current task update to the session, then updating from the same path again, changes nothing further. |
| ExtractLocalRender.RenderedExt | openpype/hosts/aftereffects/plugins/publish/extract_local_render.py:33-34 | The extension never contains a dot or a separator. |
| ExtractLocalRender.RenderedExtSpec | openpype/hosts/aftereffects/plugins/publish/extract_local_render.py:33-34 | The base name has an extension exactly when it holds a `.` with some other character than `.` before it. The extension is then the text after the base name's last `.`, and it is empty otherwise. The base name is its root followed by the dotted extension. |
| PosixPath.SplitExt | openpype/hosts/aftereffects/plugins/publish/extract_local_render.py:33 | `splitext` cuts the path into root and extension. The extension is empty, or is a `.` and then text without `.` or `/`. It is non-empty exactly when the last component holds a `.` with some other character than `.` before it. |
| ExtractLocalRender.MatchingAppend | openpype/hosts/aftereffects/plugins/publish/extract_local_render.py:38-42 | Filtering the listing keeps listing order: it distributes over concatenation. |
| ExtractLocalRender.MatchingSpec | openpype/hosts/aftereffects/plugins/publish/extract_local_render.py:38-42 | A name is kept exactly when it is in the listing and ends with the extension. An empty extension keeps every entry. |
| ExtractLocalRender.CollectRenderedFiles | openpype/hosts/aftereffects/plugins/publish/extract_local_render.py:36-45 | The loop's `files` is the filtered listing, and `first_file_path` is the staging directory joined with its first entry, or None when nothing matched. |
| ExtractLocalRender.MainRepresentationSpec | openpype/hosts/aftereffects/plugins/publish/extract_local_render.py:51-64 | The main representation's name and extension are the extension. Its files are the bare name exactly when one file matched, and the whole list otherwise. It has the tags `["review"]` exactly when the instance is reviewed, and no tags otherwise. |
| ExtractLocalRender.ThumbnailSpec | openpype/hosts/aftereffects/plugins/publish/extract_local_render.py:86-92 | The thumbnail representation is `{name: thumbnail, ext: jpg, files: thumbnail.jpg, stagingDir, tags: [thumbnail]}` for every staging directory. |
| ExtractLocalRender.ThumbnailArgsSpec | openpype/hosts/aftereffects/plugins/publish/extract_local_render.py:70-78 | ffmpeg reads the first rendered file and writes, in the staging directory, the file that the thumbnail representation names. |
| ExtractLocalRender.ExtractRefusesEmptyName | openpype/hosts/aftereffects/plugins/publish/extract_local_render.py:27-28 | An empty output file name raises `ValueError("No file extension set in Render Queue")`, runs no ffmpeg and writes no representation. A non-empty one never ends that way. |
| ExtractLocalRender.PublishSkipsEmptyRender | openpype/hosts/aftereffects/plugins/publish/extract_local_render.py:47-49 | No representation is written exactly when no listed file ends with the extension. In that case there is also no exception and no ffmpeg run. |
| ExtractLocalRender.PublishRecords | openpype/hosts/aftereffects/plugins/publish/extract_local_render.py:51-92 | Otherwise the representations are the main one, then the thumbnail's unless ffmpeg raised. In that case its exception is raised. ffmpeg's input is the first matching file. |
| ExtractLocalRender.Process | openpype/hosts/aftereffects/plugins/publish/extract_local_render.py:21-92 | The method's exception, its ffmpeg command and the instance's new `representations` are those of the extractor's specification. An instance the extractor does not write keeps its old `representations`. |
| ExtractLocalRender.PublishRender | openpype/hosts/aftereffects/plugins/publish/extract_local_render.py:36-92 | After the extension is known, the method collects the files, assigns the main representation, and appends the thumbnail's, all as specified. |
| PyText.StripSpec | pype/vendor/ftrack_action_handler/appaction.py:228 | `strip('"')` keeps a slice of the path that neither starts nor ends with `"`, and drops only `"` around it. |
| PyText.SplitJoin | pype/vendor/ftrack_action_handler/appaction.py:124 | `str.split` with a separator loses nothing: joining the pieces again gives back the string. |
| PosixPath.BasenameOfJoin | openpype/hosts/aftereffects/plugins/publish/extract_local_render.py:89 | The base name of a directory joined with a bare file name is that file name. |

## Left out

- `register` and the event-hub subscriptions are network calls and are not modelled. The handlers are called with the event directly.
- `session.get` and the `io.install`/`find_one`/`uninstall` calls in `discover` are database calls. The project document they return is an input, given as the list of its configured app names.
- `os.environ['AVALON_PROJECT']` written in `discover` is not modelled. `os.startfile` is not modelled either: the launch returns the launcher path it would start.
- `os.path.isfile` and `os.access` are one input predicate, "is an executable file".
- `platform.system()` and `os.pathsep` are inputs.
- Logging and `print` have no modelled effect.
- The `interface` hook is an input value. The base class returns None, so pass `VNone` for it.
- `os.path` is modelled with POSIX semantics. The Windows rules of `ntpath` (drive letters, `\` separators), which `launch` meets on Windows, are not modelled.
- `str.lower()` is modelled on the ASCII letters only. Other Unicode case mappings are not modelled.
- A `selection` key that is present but holds None is not modelled. Iterating None would raise `TypeError`.
- An `alias_for` of a non-string type is a `Value` of another kind. Such an alias never matches, as in the source.
- `is_latest` looks versions up by `_id` without a type filter. The model searches only version documents for the version, and only representation documents for the representation.
- The `io.ObjectId` conversion in `is_latest` is not modelled: ids are strings, and an invalid id string is not an error path.
- `registered_host().ls()` is an input: the list of the containers' representation ids.
- The project lookup and `pather.format` in `update_task_from_path` are not modelled. The formatted work template is an input string, and `pather.parse` is an input partial function.
- A falsy `path` (None or empty) is modelled as the empty string.
- `avalon.api.update_current_task` is not modelled. The model answers the changes it would be called with, and `ApplyTaskChanges` gives the session afterwards.
- `get_stub`, `stub.render` and `comp_id` in the extractor are host-application calls. The render's effect is the staging directory listing, which is an input.
- `os.listdir` order is the order of the input listing.
- `get_ffmpeg_tool_path` is an input path. `run_subprocess` is not run: the model returns its argument list, and takes as input the exception it raises, if any.
- The extractor's `instance.data` is modelled by the fields it reads, which are assumed present. A missing key would raise `KeyError`.
- The `review` flag is a bool; other truthy values are not modelled.
- openpype/hosts/traypublisher/plugins/publish/collect_explicit_colorspace.py is not part of this model: its work is done by calls into code outside it.
