# Extension manager of the audio web UI, in Dafny

This project models the plugin manager of the web UI. Extensions are
directories under `extensions/`. Each one must hold a manifest,
`extension.json`. It may also hold hook files: `main.py`,
`requirements.py`, `style.py`, `scripts/script.js`, and a `.git`
directory. The manager keeps a process-wide registry, `states`, from names
to `Extension` objects. Which extensions are enabled is persisted in
`data/extensions.json`.

- `filesystem.dfy` (module `FileSystem`) is the filesystem as a value. Paths
  are sequences of segments. A file carries its text; a directory is known
  only to exist. `Entries` is what `os.listdir` reports. `IsListing` says
  that a sequence is one possible result of `os.listdir`, in any order.
- `extensionmanager.dfy` (module `ExtensionManager`) holds the rest:
  - `UpdateStatus`, with the source's integer values.
  - The errors that escape: missing manifest, missing state file, missing
    extensions folder.
  - The enabled-default rule and the `get_valid_extensions` filter.
  - The class `Extension`. Its hook paths are constant fields derived from
    the name, and `enabled` is its one mutable field.
  - The class `Manager`, which holds the module's global state: the
    registry `states` and the decoded contents of the state file (`None`
    when the file does not exist).

`init_extensions` gets the `os.listdir` result as a `listing` parameter.
Because of that, every result is stated for whatever order the host lists
the directory in. The manifest is the text of `extension.json`. The list the
requirements hook is meant to supply is a parameter (see "## Left out").

If a manifest were missing, the loop of `init_extensions` would keep the
entries it had already added to the registry. The filter makes that branch
unreachable: `Manager.RegisterAll`, the loop of `InitExtensions`, carries
an `assert false` there (extensionmanager.dfy:338).

## Model

| member | source | states |
|---|---|---|
| `FileSystem.Join` | webui/extensionlib/extensionmanager.py:31-37 | the joined path is the directory followed by exactly one more segment, the given name |
| `FileSystem.Entries` | webui/extensionlib/extensionmanager.py:73 | a name is listed for a directory iff a file or a directory of that name sits directly inside it |
| `FileSystem.IsFile` | webui/extensionlib/extensionmanager.py:38 | `os.path.isfile`: the path names a regular file of the tree |
| `FileSystem.IsDir` | webui/extensionlib/extensionmanager.py:67 | `os.path.isdir`: the path names a directory of the tree |
| `FileSystem.IsListing` | webui/extensionlib/extensionmanager.py:73 | a sequence is a possible `os.listdir` result: every entry of the directory, each once, in any order |
| `FileSystem.DottedName` | webui/extensionlib/extensionmanager.py:50 | the module name handed to `__import__`: the path's segments joined by dots |
| `ExtensionManager.UpdateStatus.Value` | webui/extensionlib/extensionmanager.py:20-24 | `no_git`, `unmanaged`, `updated` and `outdated` carry -1, 0, 1 and 2 |
| `ExtensionManager.ExtPath` | webui/extensionlib/extensionmanager.py:31 | an extension's directory is `extensions/<name>` |
| `ExtensionManager.ManifestFile` | webui/extensionlib/extensionmanager.py:37 | an extension's manifest is `extensions/<name>/extension.json` |
| `ExtensionManager.DefaultEnabled` | webui/extensionlib/extensionmanager.py:29 | the enabled rule: a name is enabled when the state map lacks it or stores true for it |
| `ExtensionManager.IsExtensionDir` | webui/extensionlib/extensionmanager.py:74-75 | an entry is kept when `extensions/<name>` is a directory and its `extension.json` is a file |
| `ExtensionManager.AbsentNameIsEnabled` | webui/extensionlib/extensionmanager.py:29 | a name missing from the state map is enabled |
| `ExtensionManager.StoredFlagDecides` | webui/extensionlib/extensionmanager.py:29 | a name present in the state map takes its stored flag, so a stored false always disables |
| `ExtensionManager.ValidExtensions` | webui/extensionlib/extensionmanager.py:72-75 | keeps a listed name iff it is a directory under `extensions` holding the file `extension.json`; every kept name has its manifest; never longer than the listing; keeps a listing without repetitions free of them |
| `ExtensionManager.ValidExtensionsOfTree` | webui/extensionlib/extensionmanager.py:72-75 | over a true listing of `extensions`, the filter yields exactly the extension directories: it drops every directory without a manifest and includes every directory with one |
| `ExtensionManager.Extension.constructor` | webui/extensionlib/extensionmanager.py:28-40 | with the manifest present, the name is stored, `enabled` follows the default rule, and the manifest text is kept |
| `ExtensionManager.Extension.Load` | webui/extensionlib/extensionmanager.py:28-42 | construction fails with a missing-manifest error exactly when `extension.json` is not a file, whatever other files exist; otherwise a fresh extension with the name, the default-rule flag and the manifest |
| `ExtensionManager.Extension.HookPaths` | webui/extensionlib/extensionmanager.py:31-36 | the directory and the five hook paths are `extensions/<name>` followed by `main.py`, `requirements.py`, `style.py`, `scripts/script.js` and `.git` |
| `ExtensionManager.DottedNameOfHook` | webui/extensionlib/extensionmanager.py:50-54 | the dotted name of `extensions/<name>/<file>` is `extensions.<name>.<file>` |
| `ExtensionManager.Extension.HookImportNames` | webui/extensionlib/extensionmanager.py:50-54 | the names imported for the style and requirements hooks are `extensions.<name>.style.py` and `extensions.<name>.requirements.py`, whose last component is `py`, not the hook module |
| `ExtensionManager.Extension.Activate` | webui/extensionlib/extensionmanager.py:44-46 | reports that the main hook is eligible iff enabled and `main.py` exists; changes no state, since it has no modifies clause |
| `ExtensionManager.Extension.GetStyleRules` | webui/extensionlib/extensionmanager.py:48-50 | `style.py` is handed to `__import__` iff enabled and `style.py` exists; what that import does is left out |
| `ExtensionManager.Extension.GetRequirements` | webui/extensionlib/extensionmanager.py:52-55 | the empty list when disabled or when `requirements.py` is absent; otherwise a parameter standing for the list the hook is meant to supply (the source's import is left out) |
| `ExtensionManager.Extension.GetJavascript` | webui/extensionlib/extensionmanager.py:57-60 | a path is returned iff enabled and `extensions/<name>/scripts/script.js` exists, and that path is exactly the script path; otherwise the sentinel False |
| `ExtensionManager.Extension.CheckUpdates` | webui/extensionlib/extensionmanager.py:66-69 | `unmanaged` iff there is no `.git` directory, `updated` iff there is one; never `no_git` or `outdated`; it does not read the enabled flag |
| `ExtensionManager.Extension.SetEnabled` | webui/extensionlib/extensionmanager.py:62-64 | sets the flag and rewrites the store from the registry. For a registered extension the snapshot changes only at its own name, to the new value. For an unregistered one the snapshot does not change. The registry is unchanged |
| `ExtensionManager.Manager.Valid` | webui/extensionlib/extensionmanager.py:93 | the registry files each extension under its own name |
| `ExtensionManager.Manager.constructor` | webui/extensionlib/extensionmanager.py:78 | a process starts with an empty registry over the existing state file |
| `ExtensionManager.Manager.Snapshot` | webui/extensionlib/extensionmanager.py:82 | the persisted dictionary has exactly the registry's names, each mapped to that extension's current flag |
| `ExtensionManager.Manager.GetLoadStates` | webui/extensionlib/extensionmanager.py:86-87 | fails with the missing-state-file error iff the file does not exist; otherwise yields its map |
| `ExtensionManager.Manager.SetLoadStates` | webui/extensionlib/extensionmanager.py:81-83 | the state file is replaced in full by the registry's snapshot; the registry is unchanged |
| `ExtensionManager.Manager.RegisterAll` | webui/extensionlib/extensionmanager.py:92-93 | the loop: for names that all have a manifest, no construction fails; afterwards the key set is the old one plus the names, each name has a fresh entry with the default-rule flag and its manifest, and every other entry stays |
| `ExtensionManager.Manager.InitExtensions` | webui/extensionlib/extensionmanager.py:90-93 | fails with nothing changed if the state file or the extensions folder is missing, and can never fail with a missing manifest. On success, each valid extension gets a fresh entry with the default-rule flag and its manifest. The key set is the old one plus the valid names. Every other entry, and its flag, stays |
| `ExtensionManager.SnapshotReloads` | webui/extensionlib/extensionmanager.py:81-83 | reloading a written snapshot gives every registered name its current flag, and every other name comes back enabled |
| `ExtensionManager.FlagSurvivesRestart` | webui/extensionlib/extensionmanager.py:62-93 | init, `set_enabled(v)` on a valid extension, restart over the rewritten store and init again, with `os.listdir` free to order the second listing differently: the reloaded extension's flag is `v` |
| `ExtensionManager.FooBarScenario` | webui/extensionlib/extensionmanager.py:66-93 | with `foo` (manifest, `.git`) and `bar` (no manifest), for any listing order: the filter returns `["foo"]`, init succeeds and registers only `foo`, and `foo` reports `updated` |

## Left out

- `git_ready`: it runs `git -v` as a subprocess, in a form that depends on
  the host OS. Its answer is a boolean from a foreign process, so it is not
  modelled, and nothing in the core calls it.
- GetRequirements: models only the guard and the empty-list fallback of
  line 55. When the guard holds, the source imports
  `extensions.<name>.requirements.py` (HookImportNames). Read as written,
  Python runs `requirements.py` and then finds no submodule `py` in the
  plain module `requirements`, so the call raises. Even a resolved
  `__import__` without a fromlist returns the top-level package
  `extensions`, not the hook module. The model returns the parameter
  `hookResult` there instead: the behaviour the source evidently intends,
  not the written one. This reading of Python's import rules was not
  executed.
- GetStyleRules: models only the guard of line 49. Read as written, the
  import of `extensions.<name>.style.py` runs `style.py` and then raises in
  the same way; the model reports only that the import is attempted, not
  that it fails. Not executed either.
- Any other errors the hooks' foreign code raises are not modelled.
- JSON decoding and encoding of `extension.json` and
  `data/extensions.json`: the manifest is its raw text, and the state file
  is an already-decoded map. Malformed documents and non-boolean stored
  values are not modelled.
- Real file I/O: the file handles the source leaves open, write failures
  and `os.path` details. This includes names with separators or absolute
  names, and symbolic links. Path segments compare exactly, so
  case-insensitive filesystems (Windows, and macOS by default) are not
  modelled: there `os.path.isfile` at lines 38 and 75 also accepts a
  manifest spelled `Extension.JSON`, which the model rejects. Writing the state file changes nothing in
  the `extensions` tree, so the filesystem value stays fixed.
- The order of `os.listdir` is a parameter of `InitExtensions`, which
  places no condition on it. `IsListing` ties it to the tree where a
  result needs that.
- Concurrent writers of the state file: the source has no locking and is
  used from one thread.
- Aliasing between registries: the source has one global `states`. The
  model passes a `Manager` to `SetEnabled` explicitly.
