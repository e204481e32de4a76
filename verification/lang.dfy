/** `Orange\Lang\Lang`: the registry of language directories and instances,
    and the per-instance `get` / `loadFile` with its text cache. The PHP
    class's static state is the `Registry` value; an instance is addressed by
    its factory key, which is also how PHP shares it between call sites. */
module Lang {
  import opened Wrappers
  import opened LangErrors
  import opened LangDirs
  import opened Selector
  import opened Loader

  /** One `Lang` object: its two languages and the segments loaded so far. */
  datatype Instance = Instance(
    currentLang: Option<string>,
    defaultLang: Option<string>,
    loadedTexts: map<string, Texts>)

  /** The state an instance operation leaves behind, together with what it
      returns or throws (`loadFile` can throw after caching something). */
  datatype Outcome<T> = Outcome(inst: Instance, result: Result<T, Error>)

  /** The class's static state: `$lang_files_dirs` in insertion order and
      `$instances`, whose insertion order is kept in `order`. */
  datatype Registry = Registry(
    dirs: seq<string>,
    order: seq<string>,
    instances: map<string, Instance>)

  /** The shape PHP's ordered arrays guarantee. */
  ghost predicate Valid(reg: Registry) {
    && NoDup(reg.dirs)
    && NoDup(reg.order)
    && forall k :: k in reg.order <==> k in reg.instances
  }

  /** The registry before anything was added. */
  function EmptyRegistry(): (reg: Registry)
    ensures Valid(reg) && |reg.dirs| == 0 && |reg.order| == 0
  {
    Registry([], [], map[])
  }

  // ---- instance factory -------------------------------------------------

  /** `$prefix` of `getInstance`: each language or "##" for null, joined by ':'. */
  function InstanceKey(currentLang: Option<string>, defaultLang: Option<string>): string {
    (if currentLang.Some? then currentLang.value else "##") + ":" +
    (if defaultLang.Some? then defaultLang.value else "##")
  }

  /** The protected constructor: both setters, an empty cache. */
  function NewInstance(currentLang: Option<string>, defaultLang: Option<string>): (inst: Instance)
    ensures inst.currentLang == currentLang && inst.defaultLang == defaultLang
    ensures inst.loadedTexts == map[]
  {
    ResetLoadedTexts(SetDefaultLanguage(SetCurrentLanguage(Instance(None, None, map[]), currentLang), defaultLang))
  }

  /** `getInstance`: the instance stored under the key of the two arguments,
      created on first request. Returns the new registry and the key. */
  function GetInstance(reg: Registry, currentLang: Option<string>, defaultLang: Option<string>): (r: (Registry, string))
    ensures r.1 == InstanceKey(currentLang, defaultLang) && r.1 in r.0.instances
    ensures r.0.dirs == reg.dirs
    ensures forall k :: k in reg.instances ==> k in r.0.instances && r.0.instances[k] == reg.instances[k]
    ensures r.0.instances.Keys <= reg.instances.Keys + {r.1}
    ensures r.1 in reg.instances ==> r.0 == reg
    ensures r.1 !in reg.instances ==>
      r.0.order == reg.order + [r.1] && r.0.instances[r.1] == Instance(currentLang, defaultLang, map[])
    ensures Valid(reg) ==> Valid(r.0)
  {
    var key := InstanceKey(currentLang, defaultLang);
    if key in reg.instances then (reg, key)
    else (reg.(order := reg.order + [key], instances := reg.instances[key := NewInstance(currentLang, defaultLang)]), key)
  }

  /** Writes an instance's new state back under its key (PHP mutates the
      shared object in place). */
  function StoreInstance(reg: Registry, key: string, inst: Instance): (r: Registry)
    requires key in reg.instances
    ensures r.dirs == reg.dirs && r.order == reg.order
    ensures r.instances == reg.instances[key := inst]
    ensures Valid(reg) ==> Valid(r)
  {
    reg.(instances := reg.instances[key := inst])
  }

  // ---- instance mutators ------------------------------------------------

  /** `resetLoadedTexts`: drops every cached segment, languages untouched. */
  function ResetLoadedTexts(inst: Instance): (r: Instance)
    ensures r.loadedTexts == map[]
    ensures r.currentLang == inst.currentLang && r.defaultLang == inst.defaultLang
  {
    inst.(loadedTexts := map[])
  }

  /** `setDefaultLanguage`: changes only the default language; the cache is
      kept even though it was loaded for the old language. */
  function SetDefaultLanguage(inst: Instance, lang: Option<string>): (r: Instance)
    ensures r.defaultLang == lang
    ensures r.currentLang == inst.currentLang && r.loadedTexts == inst.loadedTexts
  {
    inst.(defaultLang := lang)
  }

  /** `setCurrentLanguage`: changes only the current language; the cache is kept. */
  function SetCurrentLanguage(inst: Instance, lang: Option<string>): (r: Instance)
    ensures r.currentLang == lang
    ensures r.defaultLang == inst.defaultLang && r.loadedTexts == inst.loadedTexts
  {
    inst.(currentLang := lang)
  }

  // ---- directories --------------------------------------------------------

  /** `addLangFilesDir`; `resolved` is what `realpath` returned for the argument. */
  function AddLangFilesDir(reg: Registry, resolved: Option<string>): (r: Registry)
    ensures CanonicalDir(resolved) in r.dirs
    ensures |reg.dirs| <= |r.dirs| <= |reg.dirs| + 1
    ensures forall i :: 0 <= i < |reg.dirs| ==> r.dirs[i] == reg.dirs[i]
    ensures forall x :: x in r.dirs ==> x in reg.dirs || x == CanonicalDir(resolved)
    ensures r.order == reg.order && r.instances == reg.instances
    ensures Valid(reg) ==> Valid(r)
  {
    reg.(dirs := AddDir(reg.dirs, CanonicalDir(resolved)))
  }

  /** `excludeLangFilesDir`; `resolved` is what `realpath` returned for the argument. */
  function ExcludeLangFilesDir(reg: Registry, resolved: Option<string>): (r: Registry)
    ensures forall x :: x in r.dirs <==> x in reg.dirs && x != CanonicalDir(resolved)
    ensures CanonicalDir(resolved) !in reg.dirs ==> r == reg
    ensures Valid(reg) && CanonicalDir(resolved) in reg.dirs ==>
      exists i :: 0 <= i < |reg.dirs| && reg.dirs[i] == CanonicalDir(resolved) && r.dirs == reg.dirs[..i] + reg.dirs[i + 1..]
    ensures r.order == reg.order && r.instances == reg.instances
    ensures Valid(reg) ==> Valid(r)
  {
    var d := CanonicalDir(resolved);
    assert Valid(reg) && d in reg.dirs ==>
      exists i :: 0 <= i < |reg.dirs| && reg.dirs[i] == d && ExcludeDir(reg.dirs, d) == reg.dirs[..i] + reg.dirs[i + 1..] by {
      if Valid(reg) && d in reg.dirs {
        var i :| 0 <= i < |reg.dirs| && reg.dirs[i] == d;
        ExcludeDirRemovesOnePosition(reg.dirs, i);
      }
    }
    reg.(dirs := ExcludeDir(reg.dirs, d))
  }

  // ---- loading and lookup -----------------------------------------------

  /** The base pass of `loadFile` for an instance. */
  function BasePass(inst: Instance, dirs: seq<string>, fs: FileSystem, segment: string): Pass {
    ScanPass(fs, BasePaths(dirs, inst.defaultLang, segment))
  }

  /** The overlay pass of `loadFile`; skipped when there is no current language. */
  function OverlayPass(inst: Instance, dirs: seq<string>, fs: FileSystem, segment: string): Pass {
    if inst.currentLang.None? then NoFile
    else ScanPass(fs, OverlayPaths(dirs, inst.currentLang.value, segment))
  }

  /** The value `$file` holds after both passes found nothing: the last path
      probed, or 'Unknown file' when no directory was probed. */
  function LastProbed(inst: Instance, dirs: seq<string>, segment: string): string {
    if |dirs| == 0 then "Unknown file"
    else if inst.currentLang.Some? then OverlayPath(dirs[|dirs| - 1], inst.currentLang.value, segment)
    else BasePath(dirs[|dirs| - 1], inst.defaultLang, segment)
  }

  /** `loadFile`: the base pass stores the default-language file, the overlay
      pass merges the current-language file over it; a malformed file throws
      with whatever the earlier pass stored still cached, and finding no file
      in either pass throws. */
  function LoadFile(inst: Instance, dirs: seq<string>, fs: FileSystem, segment: string): (o: Outcome<()>)
    ensures o.inst.currentLang == inst.currentLang && o.inst.defaultLang == inst.defaultLang
    ensures forall s :: s != segment ==> (s in o.inst.loadedTexts <==> s in inst.loadedTexts)
    ensures forall s :: s != segment && s in inst.loadedTexts ==> o.inst.loadedTexts[s] == inst.loadedTexts[s]
    ensures o.result.Success? ==> segment in o.inst.loadedTexts
    ensures BasePass(inst, dirs, fs, segment).Malformed? ==>
      o == Outcome(inst, Failure(InvalidLangFile(BasePass(inst, dirs, fs, segment).path)))
    ensures o.result.Failure? && o.result.error.InvalidLangFile? ==>
      BasePass(inst, dirs, fs, segment).Malformed? || OverlayPass(inst, dirs, fs, segment).Malformed?
    ensures !BasePass(inst, dirs, fs, segment).Malformed? && OverlayPass(inst, dirs, fs, segment).Malformed? ==>
      o.result == Failure(InvalidLangFile(OverlayPass(inst, dirs, fs, segment).path))
    ensures o.result.Failure? && o.result.error.LangFileNotFound? ==> o.inst == inst
    ensures segment !in inst.loadedTexts ==>
      (o.result == Failure(LangFileNotFound(LastProbed(inst, dirs, segment))) <==>
       BasePass(inst, dirs, fs, segment).NoFile? && OverlayPass(inst, dirs, fs, segment).NoFile?)
  {
    var base := BasePass(inst, dirs, fs, segment);
    if base.Malformed? then Outcome(inst, Failure(InvalidLangFile(base.path)))
    else
      var afterBase := if base.Found? then inst.loadedTexts[segment := base.texts] else inst.loadedTexts;
      var overlay := OverlayPass(inst, dirs, fs, segment);
      if overlay.Malformed? then Outcome(inst.(loadedTexts := afterBase), Failure(InvalidLangFile(overlay.path)))
      else
        var afterOverlay :=
          if overlay.Found? then
            afterBase[segment := if segment in afterBase then ArrayMerge(afterBase[segment], overlay.texts) else overlay.texts]
          else afterBase;
        var result := if segment in afterOverlay then Success(()) else Failure(LangFileNotFound(LastProbed(inst, dirs, segment)));
        Outcome(inst.(loadedTexts := afterOverlay), result)
  }

  /** What `get` returns once the segment is loaded: the text, else the
      caller's default, else the selector put back together. */
  function Lookup(texts: Texts, file: string, key: string, default: Option<string>): string {
    if key in texts then texts[key]
    else if default.Some? then default.value
    else file + "." + key
  }

  /** `get`: checks the directory list and the selector, loads the segment
      unless it is cached, and looks the key up. */
  function Get(inst: Instance, dirs: seq<string>, fs: FileSystem, selector: string, default: Option<string>): (o: Outcome<string>)
    ensures |dirs| == 0 ==> o == Outcome(inst, Failure(NoDirectories))
    ensures |dirs| > 0 && ParseSelector(selector).Failure? ==>
      o == Outcome(inst, Failure(InvalidSelector(Explode2(selector).1)))
    ensures o.inst.currentLang == inst.currentLang && o.inst.defaultLang == inst.defaultLang
    ensures forall s :: s in inst.loadedTexts ==> s in o.inst.loadedTexts && o.inst.loadedTexts[s] == inst.loadedTexts[s]
    ensures o.result.Success? ==>
      && |dirs| > 0
      && ParseSelector(selector).Success?
      && var (file, key) := ParseSelector(selector).value;
      && file in o.inst.loadedTexts
      && o.result.value ==
           if key in o.inst.loadedTexts[file] then o.inst.loadedTexts[file][key]
           else if default.Some? then default.value
           else selector
    ensures |dirs| > 0 && ParseSelector(selector).Success? && ParseSelector(selector).value.0 in inst.loadedTexts ==>
      o.inst == inst && o.result.Success?
    ensures |dirs| > 0 && ParseSelector(selector).Success? && ParseSelector(selector).value.0 !in inst.loadedTexts ==>
      && var loaded := LoadFile(inst, dirs, fs, ParseSelector(selector).value.0);
      && o.inst == loaded.inst
      && (o.result.Failure? <==> loaded.result.Failure?)
      && (o.result.Failure? ==> o.result.error == loaded.result.error)
  {
    if |dirs| == 0 then Outcome(inst, Failure(NoDirectories))
    else
      match ParseSelector(selector)
      case Failure(e) => Outcome(inst, Failure(e))
      case Success((file, key)) =>
        var loaded := if file in inst.loadedTexts then Outcome(inst, Success(())) else LoadFile(inst, dirs, fs, file);
        if loaded.result.Failure? then Outcome(loaded.inst, Failure(loaded.result.error))
        else Outcome(loaded.inst, Success(Lookup(loaded.inst.loadedTexts[file], file, key, default)))
  }

  /** `get` on the instance stored under `key`, writing its new cache back. */
  function InstanceGet(reg: Registry, key: string, fs: FileSystem, selector: string, default: Option<string>): (r: (Registry, Result<string, Error>))
    requires key in reg.instances
    ensures r.0.dirs == reg.dirs && r.0.order == reg.order && r.0.instances.Keys == reg.instances.Keys
    ensures forall k :: k in reg.instances && k != key ==> r.0.instances[k] == reg.instances[k]
    ensures r.1 == Get(reg.instances[key], reg.dirs, fs, selector, default).result
    ensures r.0.instances[key] == Get(reg.instances[key], reg.dirs, fs, selector, default).inst
    ensures Valid(reg) ==> Valid(r.0)
  {
    var o := Get(reg.instances[key], reg.dirs, fs, selector, default);
    (StoreInstance(reg, key, o.inst), o.result)
  }

  /** `t`: `get` on the first instance ever created; throws when none exists. */
  function T(reg: Registry, fs: FileSystem, selector: string, default: Option<string>): (r: (Registry, Result<string, Error>))
    requires Valid(reg)
    ensures |reg.instances| == 0 ==> r == (reg, Failure(NoInstance))
    ensures |reg.instances| > 0 ==>
      && |reg.order| > 0
      && var first := reg.order[0];
      && var o := Get(reg.instances[first], reg.dirs, fs, selector, default);
      && r.1 == o.result
      && r.0 == reg.(instances := reg.instances[first := o.inst])
    ensures Valid(r.0)
  {
    if |reg.order| == 0 then
      assert reg.instances.Keys == {};
      (reg, Failure(NoInstance))
    else
      assert reg.order[0] in reg.instances;
      InstanceGet(reg, reg.order[0], fs, selector, default)
  }
}
