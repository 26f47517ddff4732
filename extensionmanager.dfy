/**
  The extension manager of the web UI: it finds extension directories under
  `extensions`, builds one Extension per valid directory, remembers which
  extensions are enabled in the state file `data/extensions.json`, and
  answers the host's questions about each extension's hook files.

  The filesystem is a value (module FileSystem). The state file is held,
  already decoded, as an optional map from extension names to flags: `None`
  stands for a state file that does not exist.
 */
module ExtensionManager {
  import opened FileSystem

  /** The folder that holds one sub-directory per extension. */
  const ExtFolder: Path := ["extensions"]

  /** UpdateStatus, with the integer each member carries in the source. */
  datatype UpdateStatus = NoGit | Unmanaged | Updated | Outdated {
    function Value(): (v: int) {
      match this
      case NoGit => -1
      case Unmanaged => 0
      case Updated => 1
      case Outdated => 2
    }
  }

  /** The exceptions the manager lets escape (the OS errors that open and os.listdir raise). */
  datatype Error =
    | ManifestNotFound(name: string)  // no extension.json for this extension
    | StateFileNotFound               // data/extensions.json cannot be opened
    | ExtensionsDirNotFound           // os.listdir on the extensions folder fails

  datatype Option<T> = None | Some(value: T)

  datatype Result<T> = Success(value: T) | Failure(error: Error)

  datatype Outcome = Pass | Fail(error: Error)

  /** What get_javascript returns: the script's path, or the sentinel False. */
  datatype Javascript = ScriptPath(path: Path) | NoScript

  /** The directory of the extension called `name`. */
  function ExtPath(name: string): (p: Path)
    ensures p == ["extensions", name]
  {
    Join(ExtFolder, name)
  }

  /** The manifest every extension must have. */
  function ManifestFile(name: string): (p: Path)
    ensures p == ["extensions", name, "extension.json"]
  {
    Join(ExtPath(name), "extension.json")
  }

  /** The enabled-default rule: a name the state map does not mention is enabled. */
  predicate DefaultEnabled(name: string, loadStates: map<string, bool>) {
    name !in loadStates || loadStates[name]
  }

  lemma AbsentNameIsEnabled(name: string, loadStates: map<string, bool>)
    requires name !in loadStates
    ensures DefaultEnabled(name, loadStates)
  {
  }

  lemma StoredFlagDecides(name: string, loadStates: map<string, bool>)
    requires name in loadStates
    ensures DefaultEnabled(name, loadStates) == loadStates[name]
  {
  }

  /** A directory entry get_valid_extensions keeps. */
  predicate IsExtensionDir(fs: FileSystem, name: string) {
    IsDir(fs, ExtPath(name)) && IsFile(fs, ManifestFile(name))
  }

  /** get_valid_extensions: the entries of `listing`, in order, that are extension directories. */
  function ValidExtensions(fs: FileSystem, listing: seq<string>): (valid: seq<string>)
    ensures forall e :: e in valid <==> e in listing && IsExtensionDir(fs, e)
    ensures forall e :: e in valid ==> IsFile(fs, ManifestFile(e))
    ensures |valid| <= |listing|
    ensures (forall i, j :: 0 <= i < j < |listing| ==> listing[i] != listing[j]) ==>
              forall i, j :: 0 <= i < j < |valid| ==> valid[i] != valid[j]
  {
    if listing == [] then []
    else
      var rest := ValidExtensions(fs, listing[1..]);
      assert forall e :: e in listing <==> e == listing[0] || e in listing[1..];
      if IsExtensionDir(fs, listing[0]) then [listing[0]] + rest else rest
  }

  /**
    Over a listing of the real extensions folder, the filter keeps every
    extension directory and nothing else.
   */
  lemma ValidExtensionsOfTree(fs: FileSystem, listing: seq<string>)
    requires IsListing(fs, ExtFolder, listing)
    ensures forall e :: e in ValidExtensions(fs, listing) <==> IsExtensionDir(fs, e)
  {
  }

  lemma DottedNameOfHook(name: string, file: string)
    ensures DottedName(["extensions", name, file]) == "extensions." + name + "." + file
  {
    assert ["extensions", name, file][1..] == [name, file];
    assert [name, file][1..] == [file];
    assert DottedName([file]) == file;
    assert DottedName([name, file]) == name + "." + file;
  }

  class Extension {
    const extname: string
    const path: Path := ExtPath(extname)
    const mainFile: Path := Join(path, "main.py")
    const reqFile: Path := Join(path, "requirements.py")
    const styleFile: Path := Join(path, "style.py")
    const jsFile: Path := Join(Join(path, "scripts"), "script.js")
    const gitDir: Path := Join(path, ".git")
    /** The text of extension.json; its JSON decoding is not modelled. */
    const info: string
    var enabled: bool

    constructor (name: string, loadStates: map<string, bool>, fs: FileSystem)
      requires IsFile(fs, ManifestFile(name))
      ensures extname == name
      ensures enabled == DefaultEnabled(name, loadStates)
      ensures info == fs.files[ManifestFile(name)]
    {
      extname := name;
      enabled := DefaultEnabled(name, loadStates);
      info := fs.files[ManifestFile(name)];
    }

    /** Extension(name, load_states): fails exactly when the manifest is not a file. */
    static method Load(name: string, loadStates: map<string, bool>, fs: FileSystem) returns (r: Result<Extension>)
      ensures r.Failure? <==> !IsFile(fs, ManifestFile(name))
      ensures r.Failure? ==> r.error == ManifestNotFound(name)
      ensures r.Success? ==> fresh(r.value) && r.value.extname == name
      ensures r.Success? ==> r.value.enabled == DefaultEnabled(name, loadStates)
      ensures r.Success? ==> r.value.info == fs.files[ManifestFile(name)]
    {
      if IsFile(fs, ManifestFile(name)) {
        var e := new Extension(name, loadStates, fs);
        r := Success(e);
      } else {
        r := Failure(ManifestNotFound(name));
      }
    }

    /** Every hook path is a fixed function of the name. */
    lemma HookPaths()
      ensures path == ["extensions", extname]
      ensures mainFile == ["extensions", extname, "main.py"]
      ensures reqFile == ["extensions", extname, "requirements.py"]
      ensures styleFile == ["extensions", extname, "style.py"]
      ensures jsFile == ["extensions", extname, "scripts", "script.js"]
      ensures gitDir == ["extensions", extname, ".git"]
    {
    }

    /**
      The names get_style_rules and get_requirements pass to __import__ keep
      the file suffix, so the last dotted component is `py`, not the hook
      module.
     */
    lemma HookImportNames()
      ensures DottedName(styleFile) == "extensions." + extname + "." + "style.py"
      ensures DottedName(reqFile) == "extensions." + extname + "." + "requirements.py"
    {
      HookPaths();
      DottedNameOfHook(extname, "style.py");
      DottedNameOfHook(extname, "requirements.py");
    }

    /**
      activate: the main hook is only eligible when the extension is enabled
      and main.py exists; the hook itself does nothing. The method has no
      modifies clause, so no state changes.
     */
    method Activate(fs: FileSystem) returns (mainHookEligible: bool)
      ensures mainHookEligible <==> enabled && IsFile(fs, mainFile)
    {
      mainHookEligible := enabled && IsFile(fs, mainFile);
    }

    /**
      get_style_rules: reports whether style.py is run through __import__.
      What the import then does (see HookImportNames) is not modelled.
     */
    method GetStyleRules(fs: FileSystem) returns (styleImported: bool)
      ensures styleImported <==> enabled && IsFile(fs, styleFile)
    {
      styleImported := enabled && IsFile(fs, styleFile);
    }

    /**
      get_requirements: the guard and the empty-list fallback. `hookResult`
      stands for the list the requirements hook is meant to supply; the
      import the source performs to get it (see HookImportNames) is not
      modelled.
     */
    function GetRequirements<R>(fs: FileSystem, hookResult: seq<R>): (reqs: seq<R>)
      reads this
      ensures !enabled ==> reqs == []
      ensures !IsFile(fs, reqFile) ==> reqs == []
      ensures enabled && IsFile(fs, reqFile) ==> reqs == hookResult
    {
      if enabled && IsFile(fs, reqFile) then hookResult else []
    }

    /** get_javascript */
    function GetJavascript(fs: FileSystem): (r: Javascript)
      reads this
      ensures r.ScriptPath? <==> enabled && IsFile(fs, ["extensions", extname, "scripts", "script.js"])
      ensures r.ScriptPath? ==> r.path == ["extensions", extname, "scripts", "script.js"]
    {
      HookPaths();
      if enabled && IsFile(fs, jsFile) then ScriptPath(jsFile) else NoScript
    }

    /**
      check_updates: it reads no variable field, so it does not depend on
      the enabled flag; no_git and outdated are never returned.
     */
    function CheckUpdates(fs: FileSystem): (r: UpdateStatus)
      ensures r == Unmanaged <==> !IsDir(fs, ["extensions", extname, ".git"])
      ensures r == Updated <==> IsDir(fs, ["extensions", extname, ".git"])
      ensures r != NoGit && r != Outdated
    {
      HookPaths();
      if !IsDir(fs, gitDir) then Unmanaged else Updated
    }

    /**
      set_enabled: changes this extension's flag, then rewrites the state
      file from the registry. Only a registered extension shows up in it.
     */
    method SetEnabled(value: bool, m: Manager)
      requires m.Valid()
      modifies this, m`stored
      ensures enabled == value
      ensures m.states == old(m.states) && m.Valid()
      ensures m.stored == Some(m.Snapshot())
      ensures m.Snapshot() ==
                if extname in m.states && m.states[extname] == this
                then old(m.Snapshot())[extname := value]
                else old(m.Snapshot())
    {
      enabled := value;
      m.SetLoadStates();
      assert forall k :: k in m.states && k != extname ==> m.states[k] != this;
    }
  }

  /**
    The module-level state of the manager: the registry `states` and the
    contents of the state file.
   */
  class Manager {
    var states: map<string, Extension>
    var stored: Option<map<string, bool>>

    /** Every registered extension is filed under its own name. */
    ghost predicate Valid()
      reads this
    {
      forall k :: k in states ==> states[k].extname == k
    }

    /** A process start: an empty registry over whatever state file exists. */
    constructor (stateFile: Option<map<string, bool>>)
      ensures Valid()
      ensures states == map[] && stored == stateFile
    {
      states := map[];
      stored := stateFile;
    }

    /** The dictionary set_load_states writes: each registered name with its current flag. */
    function Snapshot(): (s: map<string, bool>)
      reads this`states, states.Values
      ensures s.Keys == states.Keys
      ensures forall k :: k in states ==> s[k] == states[k].enabled
    {
      map k | k in states :: states[k].enabled
    }

    /** get_load_states */
    function GetLoadStates(): (r: Result<map<string, bool>>)
      reads this
      ensures r.Failure? <==> stored.None?
      ensures r.Failure? ==> r.error == StateFileNotFound
      ensures r.Success? ==> stored == Some(r.value)
    {
      match stored
      case None => Failure(StateFileNotFound)
      case Some(s) => Success(s)
    }

    /** set_load_states: the whole state file is replaced by the registry's snapshot. */
    method SetLoadStates()
      modifies this`stored
      ensures stored == Some(old(Snapshot())) && stored == Some(Snapshot())
      ensures states == old(states)
    {
      stored := Some(Snapshot());
    }

    /**
      The loop of init_extensions: one fresh Extension per name in `valid`,
      each filed under its name. Every name has its manifest, so no
      construction fails.
     */
    method RegisterAll(valid: seq<string>, s: map<string, bool>, fs: FileSystem)
      requires Valid()
      requires forall e :: e in valid ==> ManifestFile(e) in fs.files
      modifies this`states
      ensures Valid()
      ensures states.Keys == old(states).Keys + set e | e in valid
      ensures forall e :: e in valid ==>
                fresh(states[e]) && states[e].enabled == DefaultEnabled(e, s) &&
                states[e].info == fs.files[ManifestFile(e)]
      ensures forall k :: k in old(states) && k !in valid ==> states[k] == old(states[k])
    {
      for i := 0 to |valid|
        invariant Valid()
        invariant forall e :: e in valid[..i] ==> e in valid
        invariant forall k :: k in states <==> k in old(states) || k in valid[..i]
        invariant forall e :: e in valid[..i] ==>
                    fresh(states[e]) && states[e].enabled == DefaultEnabled(e, s) &&
                    states[e].info == fs.files[ManifestFile(e)]
        invariant forall k :: k in old(states) && k !in valid[..i] ==> states[k] == old(states[k])
      {
        var built := Extension.Load(valid[i], s, fs);
        if built.Failure? {
          assert false;
        }
        states := states[valid[i] := built.value];
        assert valid[..i + 1] == valid[..i] + [valid[i]];
      }
      assert valid[..|valid|] == valid;
    }

    /**
      init_extensions: reads the state file, then adds or replaces one entry
      per valid extension; entries it does not touch stay as they were.
      Building an Extension cannot fail here, because the filter only keeps
      directories whose manifest exists.
     */
    method InitExtensions(fs: FileSystem, listing: seq<string>) returns (r: Outcome)
      requires Valid()
      modifies this`states
      ensures Valid()
      ensures r == if stored.None? then Fail(StateFileNotFound)
                   else if !IsDir(fs, ExtFolder) then Fail(ExtensionsDirNotFound)
                   else Pass
      ensures r.Fail? ==> states == old(states)
      ensures r.Pass? ==> states.Keys == old(states).Keys + set e | e in ValidExtensions(fs, listing)
      ensures r.Pass? ==> forall e :: e in ValidExtensions(fs, listing) ==>
                fresh(states[e]) && states[e].enabled == DefaultEnabled(e, stored.value) &&
                states[e].info == fs.files[ManifestFile(e)]
      ensures forall k :: k in old(states) && k !in ValidExtensions(fs, listing) ==>
                k in states && states[k] == old(states[k]) && states[k].enabled == old(states[k].enabled)
    {
      var loaded := GetLoadStates();
      if loaded.Failure? {
        return Fail(loaded.error);
      }
      var s := loaded.value;
      if !IsDir(fs, ExtFolder) {
        return Fail(ExtensionsDirNotFound);
      }
      var valid := ValidExtensions(fs, listing);
      RegisterAll(valid, s, fs);
      r := Pass;
    }
  }

  /**
    Reloading a snapshot gives every registered extension its current flag,
    and every other name comes back enabled.
   */
  lemma SnapshotReloads(m: Manager, name: string)
    ensures name in m.states ==> DefaultEnabled(name, m.Snapshot()) == m.states[name].enabled
    ensures name !in m.states ==> DefaultEnabled(name, m.Snapshot())
  {
  }

  /**
    The persistence round trip: initialise, set one extension's flag, then
    start a new process over the rewritten state file and initialise again,
    over a listing the host may order differently the second time.
   */
  method FlagSurvivesRestart(fs: FileSystem, listing: seq<string>, listing': seq<string>,
                             stateFile: map<string, bool>, name: string, value: bool)
    returns (reloaded: bool)
    requires IsDir(fs, ExtFolder)
    requires name in ValidExtensions(fs, listing)
    requires name in ValidExtensions(fs, listing')
    ensures reloaded == value
  {
    var m := new Manager(Some(stateFile));
    var r := m.InitExtensions(fs, listing);
    var e := m.states[name];
    e.SetEnabled(value, m);
    var restarted := new Manager(m.stored);
    var r' := restarted.InitExtensions(fs, listing');
    reloaded := restarted.states[name].enabled;
    SnapshotReloads(m, name);
  }

  /** A sequence without repetitions whose only value is `x` is `[x]`. */
  lemma OnlyElement(s: seq<string>, x: string)
    requires x in s
    requires forall e :: e in s ==> e == x
    requires forall i, j :: 0 <= i < j < |s| ==> s[i] != s[j]
    ensures s == [x]
  {
    assert (set e | e in s) == {x};
    DistinctCardinality(s);
    assert s[0] in s;
  }

  lemma {:induction false} DistinctCardinality(s: seq<string>)
    requires forall i, j :: 0 <= i < j < |s| ==> s[i] != s[j]
    ensures |(set e | e in s)| == |s|
  {
    if s != [] {
      DistinctCardinality(s[1..]);
      assert (set e | e in s) == {s[0]} + (set e | e in s[1..]);
      assert s[0] !in (set e | e in s[1..]);
    }
  }

  /**
    A tree with `foo` (manifest and .git) and `bar` (no manifest) under the
    extensions folder.
   */
  function FooBarTree(): FileSystem {
    FileSystem(
      map[["extensions", "foo", "extension.json"] := "{}"],
      {["extensions"], ["extensions", "foo"], ["extensions", "foo", ".git"], ["extensions", "bar"]})
  }

  /**
    Whatever order the listing comes in, only `foo` is valid, initialisation
    registers it alone, and it reports the placeholder status `updated`.
   */
  method FooBarScenario(listing: seq<string>) returns (valid: seq<string>, outcome: Outcome, registered: set<string>, status: UpdateStatus)
    requires IsListing(FooBarTree(), ExtFolder, listing)
    ensures valid == ["foo"]
    ensures outcome == Pass
    ensures registered == {"foo"}
    ensures status == Updated
  {
    var fs := FooBarTree();
    ValidExtensionsOfTree(fs, listing);
    assert ExtPath("foo") == ["extensions", "foo"] && ManifestFile("foo") == ["extensions", "foo", "extension.json"];
    assert IsExtensionDir(fs, "foo");
    assert ManifestFile("bar") == ["extensions", "bar", "extension.json"];
    valid := ValidExtensions(fs, listing);
    assert forall e :: e in valid <==> e == "foo";
    assert "foo" in valid;
    OnlyElement(valid, "foo");
    var m := new Manager(Some(map[]));
    outcome := m.InitExtensions(fs, listing);
    registered := m.states.Keys;
    status := m.states["foo"].CheckUpdates(fs);
  }
}
