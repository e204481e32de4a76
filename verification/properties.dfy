/** Properties of `Orange\Lang\Lang` that relate several calls, or relate an
    operation to the file system it reads. */
module LangProperties {
  import opened Wrappers
  import opened LangErrors
  import opened Selector
  import opened Loader
  import opened Lang

  // ---- instance factory -------------------------------------------------

  /** Asking twice with the same languages yields the same instance and the
      second request changes nothing. */
  lemma GetInstanceSameArgsSameInstance(reg: Registry, currentLang: Option<string>, defaultLang: Option<string>)
    ensures var (reg1, key1) := GetInstance(reg, currentLang, defaultLang);
            GetInstance(reg1, currentLang, defaultLang) == (reg1, key1)
  {
  }

  /** A language of `null` and the literal language "##" share one key, so
      asking for "##" hands back the instance created for `null`. */
  lemma NullAndHashesShareInstance(reg: Registry, defaultLang: Option<string>)
    requires InstanceKey(None, defaultLang) !in reg.instances
    ensures var (reg1, key1) := GetInstance(reg, None, defaultLang);
            var (reg2, key2) := GetInstance(reg1, Some("##"), defaultLang);
            && key2 == key1 && reg2 == reg1
            && reg2.instances[key2].currentLang == None
  {
  }

  /** The key is a plain concatenation, so a ':' inside a language name can
      make two different pairs collide. */
  lemma ColonLanguagesCollide()
    ensures InstanceKey(Some("a:b"), Some("c")) == InstanceKey(Some("a"), Some("b:c"))
  {
  }

  /** Position of the first ':' in `s`, or `|s|` when there is none. */
  function ColonIndex(s: string): (i: nat)
    ensures i <= |s|
    ensures i < |s| ==> s[i] == ':'
    ensures forall j :: 0 <= j < i ==> s[j] != ':'
  {
    if |s| == 0 || s[0] == ':' then 0 else 1 + ColonIndex(s[1..])
  }

  lemma {:induction false} ColonIndexAfter(a: string, b: string)
    requires ':' !in a
    ensures ColonIndex(a + ":" + b) == |a|
  {
    if |a| > 0 {
      assert (a + ":" + b)[1..] == a[1..] + ":" + b;
      ColonIndexAfter(a[1..], b);
    }
  }

  /** Splitting at the first ':' is unique when the left part has no ':'. */
  lemma ColonSplitUnique(a: string, b: string, c: string, d: string)
    requires ':' !in a && ':' !in c
    requires a + ":" + b == c + ":" + d
    ensures a == c && b == d
  {
    var s := a + ":" + b;
    ColonIndexAfter(a, b);
    ColonIndexAfter(c, d);
    assert a == s[..|a|] == c;
    assert b == s[|a| + 1..] == d;
  }

  /** A default language the factory keeps apart from every other: not "##". */
  predicate PlainDefault(lang: Option<string>) {
    lang.Some? ==> lang.value != "##"
  }

  /** A current language the factory keeps apart from every other: not "##",
      and no ':' that could shift the split between the two names. */
  predicate PlainCurrent(lang: Option<string>) {
    PlainDefault(lang) && (lang.Some? ==> ':' !in lang.value)
  }

  /** For current languages without ':' and languages other than "##",
      different pairs get different keys, hence different instances with
      separate caches. */
  lemma InstanceKeyInjective(c1: Option<string>, d1: Option<string>, c2: Option<string>, d2: Option<string>)
    requires PlainCurrent(c1) && PlainDefault(d1) && PlainCurrent(c2) && PlainDefault(d2)
    requires InstanceKey(c1, d1) == InstanceKey(c2, d2)
    ensures c1 == c2 && d1 == d2
  {
    var l1 := if c1.Some? then c1.value else "##";
    var l2 := if c2.Some? then c2.value else "##";
    ColonSplitUnique(l1, if d1.Some? then d1.value else "##", l2, if d2.Some? then d2.value else "##");
  }

  // ---- the global accessor ----------------------------------------------

  /** Later `getInstance` calls never displace the instance `t` uses. */
  lemma GetInstanceKeepsFirstInstance(reg: Registry, currentLang: Option<string>, defaultLang: Option<string>)
    requires Valid(reg) && |reg.order| > 0
    ensures var reg1 := GetInstance(reg, currentLang, defaultLang).0;
            && |reg1.order| > 0 && reg1.order[0] == reg.order[0]
            && reg1.instances[reg.order[0]] == reg.instances[reg.order[0]]
  {
  }

  /** After the first `getInstance`, `t` behaves exactly as `get` on that
      instance. */
  lemma TUsesFirstCreatedInstance(reg: Registry, currentLang: Option<string>, defaultLang: Option<string>,
                                  fs: FileSystem, selector: string, default: Option<string>)
    requires Valid(reg) && |reg.instances| == 0
    ensures var (reg1, key) := GetInstance(reg, currentLang, defaultLang);
            var o := Get(NewInstance(currentLang, defaultLang), reg.dirs, fs, selector, default);
            T(reg1, fs, selector, default) == (reg1.(instances := reg1.instances[key := o.inst]), o.result)
  {
  }

  // ---- loadFile against the file system -----------------------------------

  /** `i` is the first directory whose candidate file exists. */
  ghost predicate FirstBaseDir(inst: Instance, dirs: seq<string>, fs: FileSystem, segment: string, i: int) {
    && 0 <= i < |dirs|
    && BasePath(dirs[i], inst.defaultLang, segment) in fs
    && forall j :: 0 <= j < i ==> BasePath(dirs[j], inst.defaultLang, segment) !in fs
  }

  ghost predicate FirstOverlayDir(inst: Instance, dirs: seq<string>, fs: FileSystem, segment: string, i: int)
    requires inst.currentLang.Some?
  {
    && 0 <= i < |dirs|
    && OverlayPath(dirs[i], inst.currentLang.value, segment) in fs
    && forall j :: 0 <= j < i ==> OverlayPath(dirs[j], inst.currentLang.value, segment) !in fs
  }

  ghost predicate NoBaseFile(inst: Instance, dirs: seq<string>, fs: FileSystem, segment: string) {
    forall j :: 0 <= j < |dirs| ==> BasePath(dirs[j], inst.defaultLang, segment) !in fs
  }

  /** No overlay pass runs, or it finds nothing. */
  ghost predicate NoOverlayFile(inst: Instance, dirs: seq<string>, fs: FileSystem, segment: string) {
    inst.currentLang.Some? ==>
      forall j :: 0 <= j < |dirs| ==> OverlayPath(dirs[j], inst.currentLang.value, segment) !in fs
  }

  lemma BasePassFirst(inst: Instance, dirs: seq<string>, fs: FileSystem, segment: string, i: nat)
    requires FirstBaseDir(inst, dirs, fs, segment, i)
    ensures BasePass(inst, dirs, fs, segment) ==
      match fs[BasePath(dirs[i], inst.defaultLang, segment)]
      case None => Malformed(BasePath(dirs[i], inst.defaultLang, segment))
      case Some(t) => Found(BasePath(dirs[i], inst.defaultLang, segment), t)
  {
    FirstHitUnique(fs, BasePaths(dirs, inst.defaultLang, segment), i);
  }

  lemma OverlayPassFirst(inst: Instance, dirs: seq<string>, fs: FileSystem, segment: string, i: nat)
    requires inst.currentLang.Some? && FirstOverlayDir(inst, dirs, fs, segment, i)
    ensures OverlayPass(inst, dirs, fs, segment) ==
      match fs[OverlayPath(dirs[i], inst.currentLang.value, segment)]
      case None => Malformed(OverlayPath(dirs[i], inst.currentLang.value, segment))
      case Some(t) => Found(OverlayPath(dirs[i], inst.currentLang.value, segment), t)
  {
    FirstHitUnique(fs, OverlayPaths(dirs, inst.currentLang.value, segment), i);
  }

  lemma NoBasePass(inst: Instance, dirs: seq<string>, fs: FileSystem, segment: string)
    requires NoBaseFile(inst, dirs, fs, segment)
    ensures BasePass(inst, dirs, fs, segment) == NoFile
  {
    var bp := BasePaths(dirs, inst.defaultLang, segment);
    assert forall j :: 0 <= j < |bp| ==> bp[j] !in fs;
  }

  lemma NoOverlayPass(inst: Instance, dirs: seq<string>, fs: FileSystem, segment: string)
    requires NoOverlayFile(inst, dirs, fs, segment)
    ensures OverlayPass(inst, dirs, fs, segment) == NoFile
  {
    if inst.currentLang.Some? {
      var op := OverlayPaths(dirs, inst.currentLang.value, segment);
      assert forall j :: 0 <= j < |op| ==> op[j] !in fs;
    }
  }

  /** Base pass only: the first default-language file becomes the segment. */
  lemma LoadFileTakesFirstBaseFile(inst: Instance, dirs: seq<string>, fs: FileSystem, segment: string, i: nat, t: Texts)
    requires FirstBaseDir(inst, dirs, fs, segment, i)
    requires fs[BasePath(dirs[i], inst.defaultLang, segment)] == Some(t)
    requires NoOverlayFile(inst, dirs, fs, segment)
    ensures LoadFile(inst, dirs, fs, segment) ==
      Outcome(inst.(loadedTexts := inst.loadedTexts[segment := t]), Success(()))
  {
    BasePassFirst(inst, dirs, fs, segment, i);
    NoOverlayPass(inst, dirs, fs, segment);
  }

  /** Both passes hit: every base key survives and the overlay wins on
      conflicts. */
  lemma LoadFileMergesOverlay(inst: Instance, dirs: seq<string>, fs: FileSystem, segment: string,
                              i: nat, t: Texts, j: nat, u: Texts)
    requires segment !in inst.loadedTexts
    requires FirstBaseDir(inst, dirs, fs, segment, i)
    requires fs[BasePath(dirs[i], inst.defaultLang, segment)] == Some(t)
    requires inst.currentLang.Some? && FirstOverlayDir(inst, dirs, fs, segment, j)
    requires fs[OverlayPath(dirs[j], inst.currentLang.value, segment)] == Some(u)
    ensures var o := LoadFile(inst, dirs, fs, segment);
            && o.result.Success? && segment in o.inst.loadedTexts
            && o.inst.loadedTexts[segment].Keys == t.Keys + u.Keys
            && (forall k :: k in u ==> o.inst.loadedTexts[segment][k] == u[k])
            && (forall k :: k in t && k !in u ==> o.inst.loadedTexts[segment][k] == t[k])
  {
    BasePassFirst(inst, dirs, fs, segment, i);
    OverlayPassFirst(inst, dirs, fs, segment, j);
  }

  /** Overlay pass only: the current-language file alone becomes the segment. */
  lemma LoadFileOverlayAlone(inst: Instance, dirs: seq<string>, fs: FileSystem, segment: string, j: nat, u: Texts)
    requires segment !in inst.loadedTexts
    requires NoBaseFile(inst, dirs, fs, segment)
    requires inst.currentLang.Some? && FirstOverlayDir(inst, dirs, fs, segment, j)
    requires fs[OverlayPath(dirs[j], inst.currentLang.value, segment)] == Some(u)
    ensures LoadFile(inst, dirs, fs, segment) ==
      Outcome(inst.(loadedTexts := inst.loadedTexts[segment := u]), Success(()))
  {
    NoBasePass(inst, dirs, fs, segment);
    OverlayPassFirst(inst, dirs, fs, segment, j);
  }

  /** A malformed overlay with no base file fails the load and caches
      nothing. */
  lemma LoadFileMalformedOverlayAlone(inst: Instance, dirs: seq<string>, fs: FileSystem, segment: string, j: nat)
    requires NoBaseFile(inst, dirs, fs, segment)
    requires inst.currentLang.Some? && FirstOverlayDir(inst, dirs, fs, segment, j)
    requires fs[OverlayPath(dirs[j], inst.currentLang.value, segment)].None?
    ensures LoadFile(inst, dirs, fs, segment) ==
      Outcome(inst, Failure(InvalidLangFile(OverlayPath(dirs[j], inst.currentLang.value, segment))))
  {
    NoBasePass(inst, dirs, fs, segment);
    OverlayPassFirst(inst, dirs, fs, segment, j);
  }

  /** A malformed base file fails the load before the overlay pass and
      caches nothing. */
  lemma LoadFileMalformedBase(inst: Instance, dirs: seq<string>, fs: FileSystem, segment: string, i: nat)
    requires FirstBaseDir(inst, dirs, fs, segment, i)
    requires fs[BasePath(dirs[i], inst.defaultLang, segment)].None?
    ensures LoadFile(inst, dirs, fs, segment) ==
      Outcome(inst, Failure(InvalidLangFile(BasePath(dirs[i], inst.defaultLang, segment))))
  {
    BasePassFirst(inst, dirs, fs, segment, i);
  }

  /** A malformed overlay fails the load but leaves the base file cached. */
  lemma LoadFileMalformedOverlayKeepsBase(inst: Instance, dirs: seq<string>, fs: FileSystem, segment: string,
                                          i: nat, t: Texts, j: nat)
    requires FirstBaseDir(inst, dirs, fs, segment, i)
    requires fs[BasePath(dirs[i], inst.defaultLang, segment)] == Some(t)
    requires inst.currentLang.Some? && FirstOverlayDir(inst, dirs, fs, segment, j)
    requires fs[OverlayPath(dirs[j], inst.currentLang.value, segment)].None?
    ensures LoadFile(inst, dirs, fs, segment) ==
      Outcome(inst.(loadedTexts := inst.loadedTexts[segment := t]),
              Failure(InvalidLangFile(OverlayPath(dirs[j], inst.currentLang.value, segment))))
  {
    BasePassFirst(inst, dirs, fs, segment, i);
    OverlayPassFirst(inst, dirs, fs, segment, j);
  }

  /** Loading an uncached segment fails as not found exactly when neither pass
      sees a file. */
  lemma LoadFileNotFoundIff(inst: Instance, dirs: seq<string>, fs: FileSystem, segment: string)
    requires segment !in inst.loadedTexts
    ensures LoadFile(inst, dirs, fs, segment).result == Failure(LangFileNotFound(LastProbed(inst, dirs, segment)))
            <==> NoBaseFile(inst, dirs, fs, segment) && NoOverlayFile(inst, dirs, fs, segment)
  {
    var bp := BasePaths(dirs, inst.defaultLang, segment);
    assert NoBaseFile(inst, dirs, fs, segment) <==> forall j :: 0 <= j < |bp| ==> bp[j] !in fs;
    if inst.currentLang.Some? {
      var op := OverlayPaths(dirs, inst.currentLang.value, segment);
      assert NoOverlayFile(inst, dirs, fs, segment) <==> forall j :: 0 <= j < |op| ==> op[j] !in fs;
    }
  }

  // ---- get and its cache ------------------------------------------------

  /** A cached segment is answered from the cache: the directory list and the
      files no longer matter. */
  lemma GetCachedIgnoresDirsAndFiles(inst: Instance, dirs1: seq<string>, dirs2: seq<string>,
                                     fs1: FileSystem, fs2: FileSystem, selector: string, default: Option<string>)
    requires |dirs1| > 0 && |dirs2| > 0
    requires ParseSelector(selector).Success? && ParseSelector(selector).value.0 in inst.loadedTexts
    ensures Get(inst, dirs1, fs1, selector, default) == Get(inst, dirs2, fs2, selector, default)
  {
  }

  /** A second identical `get` after a successful one reads no file and
      returns the same text. */
  lemma GetSecondCallHitsCache(inst: Instance, dirs: seq<string>, fs1: FileSystem, fs2: FileSystem,
                               selector: string, default: Option<string>)
    requires Get(inst, dirs, fs1, selector, default).result.Success?
    ensures var o := Get(inst, dirs, fs1, selector, default);
            Get(o.inst, dirs, fs2, selector, default) == o
  {
  }

  /** The language setters leave the cache, so a cached segment keeps
      answering in the old language until the cache is reset. */
  lemma SettersKeepStaleCache(inst: Instance, dirs: seq<string>, fs: FileSystem,
                              selector: string, default: Option<string>, c: Option<string>, d: Option<string>)
    requires |dirs| > 0
    requires ParseSelector(selector).Success? && ParseSelector(selector).value.0 in inst.loadedTexts
    ensures Get(SetDefaultLanguage(SetCurrentLanguage(inst, c), d), dirs, fs, selector, default).result
            == Get(inst, dirs, fs, selector, default).result
  {
  }

  /** After a reset the segment is read again: with no file for it, the
      lookup that the cache used to answer now fails. */
  lemma ResetForcesReload(inst: Instance, dirs: seq<string>, fs: FileSystem, selector: string, default: Option<string>)
    requires |dirs| > 0
    requires ParseSelector(selector).Success?
    requires NoBaseFile(inst, dirs, fs, ParseSelector(selector).value.0)
    requires NoOverlayFile(inst, dirs, fs, ParseSelector(selector).value.0)
    ensures Get(ResetLoadedTexts(inst), dirs, fs, selector, default).result ==
            Failure(LangFileNotFound(LastProbed(inst, dirs, ParseSelector(selector).value.0)))
  {
    var file := ParseSelector(selector).value.0;
    var cleared := ResetLoadedTexts(inst);
    LoadFileNotFoundIff(cleared, dirs, fs, file);
  }

  /** On a cache miss `get` answers from the files: the overlay's text, else
      the base file's text, else the default, else the selector. */
  lemma GetMissAnswersFromFiles(inst: Instance, dirs: seq<string>, fs: FileSystem,
                                selector: string, default: Option<string>, i: nat, t: Texts, j: nat, u: Texts)
    requires ParseSelector(selector).Success?
    requires ParseSelector(selector).value.0 !in inst.loadedTexts
    requires FirstBaseDir(inst, dirs, fs, ParseSelector(selector).value.0, i)
    requires fs[BasePath(dirs[i], inst.defaultLang, ParseSelector(selector).value.0)] == Some(t)
    requires inst.currentLang.Some? && FirstOverlayDir(inst, dirs, fs, ParseSelector(selector).value.0, j)
    requires fs[OverlayPath(dirs[j], inst.currentLang.value, ParseSelector(selector).value.0)] == Some(u)
    ensures var key := ParseSelector(selector).value.1;
            Get(inst, dirs, fs, selector, default).result ==
              Success(if key in u then u[key] else if key in t then t[key]
                      else if default.Some? then default.value else selector)
  {
    var file := ParseSelector(selector).value.0;
    LoadFileMergesOverlay(inst, dirs, fs, file, i, t, j, u);
  }

  /** After a malformed overlay made `get` fail, the base file stays cached
      and the next identical `get` quietly answers from it. */
  lemma MalformedOverlayThenBaseAnswers(inst: Instance, dirs: seq<string>, fs: FileSystem, fs2: FileSystem,
                                        selector: string, default: Option<string>, i: nat, t: Texts, j: nat)
    requires ParseSelector(selector).Success?
    requires ParseSelector(selector).value.0 !in inst.loadedTexts
    requires FirstBaseDir(inst, dirs, fs, ParseSelector(selector).value.0, i)
    requires fs[BasePath(dirs[i], inst.defaultLang, ParseSelector(selector).value.0)] == Some(t)
    requires inst.currentLang.Some? && FirstOverlayDir(inst, dirs, fs, ParseSelector(selector).value.0, j)
    requires fs[OverlayPath(dirs[j], inst.currentLang.value, ParseSelector(selector).value.0)].None?
    ensures var (file, key) := ParseSelector(selector).value;
            var o := Get(inst, dirs, fs, selector, default);
            && o.result == Failure(InvalidLangFile(OverlayPath(dirs[j], inst.currentLang.value, file)))
            && Get(o.inst, dirs, fs2, selector, default).result ==
                 Success(if key in t then t[key] else if default.Some? then default.value else selector)
  {
    var file := ParseSelector(selector).value.0;
    LoadFileMalformedOverlayKeepsBase(inst, dirs, fs, file, i, t, j);
  }

  /** The merge example's files: base {a: 1, b: 2} in English, overlay
      {b: 20, c: 30} in Spanish, under one directory "/lang". */
  function MergeExampleFiles(): FileSystem {
    map["/lang/en/messages.php" := Some(map["a" := "1", "b" := "2"]),
        "/lang/es/messages.php" := Some(map["b" := "20", "c" := "30"])]
  }

  lemma MergeExampleSelector()
    ensures ParseSelector("messages.b") == Success(("messages", "b"))
  {
    ParseSelectorJoin("messages", "b");
    assert "messages" + "." + "b" == "messages.b";
  }

  /** The example's base pass finds the English file in "/lang". */
  lemma MergeExampleBasePass()
    ensures BasePass(NewInstance(Some("es"), Some("en")), ["/lang"], MergeExampleFiles(), "messages")
            == Found("/lang/en/messages.php", map["a" := "1", "b" := "2"])
  {
    assert BasePath("/lang", Some("en"), "messages") == "/lang/en/messages.php";
    BasePassFirst(NewInstance(Some("es"), Some("en")), ["/lang"], MergeExampleFiles(), "messages", 0);
  }

  /** The example's overlay pass finds the Spanish file in "/lang". */
  lemma MergeExampleOverlayPass()
    ensures OverlayPass(NewInstance(Some("es"), Some("en")), ["/lang"], MergeExampleFiles(), "messages")
            == Found("/lang/es/messages.php", map["b" := "20", "c" := "30"])
  {
    assert OverlayPath("/lang", "es", "messages") == "/lang/es/messages.php";
    OverlayPassFirst(NewInstance(Some("es"), Some("en")), ["/lang"], MergeExampleFiles(), "messages", 0);
  }

  lemma MergeExampleMerge()
    ensures ArrayMerge(map["a" := "1", "b" := "2"], map["b" := "20", "c" := "30"])
            == map["a" := "1", "b" := "20", "c" := "30"]
  {
    var r := ArrayMerge(map["a" := "1", "b" := "2"], map["b" := "20", "c" := "30"]);
    assert r.Keys == {"a", "b", "c"};
  }

  /** Loading the example segment yields {a: 1, b: 20, c: 30}. */
  lemma MergeExampleLoad()
    ensures LoadFile(NewInstance(Some("es"), Some("en")), ["/lang"], MergeExampleFiles(), "messages") ==
      Outcome(Instance(Some("es"), Some("en"), map["messages" := map["a" := "1", "b" := "20", "c" := "30"]]), Success(()))
  {
    MergeExampleBasePass();
    MergeExampleOverlayPass();
    MergeExampleMerge();
  }

  /** A cache miss whose load succeeds answers from the freshly loaded segment. */
  lemma GetMissAfterLoad(inst: Instance, dirs: seq<string>, fs: FileSystem, selector: string, default: Option<string>,
                         file: string, key: string, loaded: Instance)
    requires |dirs| > 0
    requires ParseSelector(selector) == Success((file, key))
    requires file !in inst.loadedTexts
    requires LoadFile(inst, dirs, fs, file) == Outcome(loaded, Success(()))
    ensures file in loaded.loadedTexts
    ensures Get(inst, dirs, fs, selector, default) == Outcome(loaded, Success(Lookup(loaded.loadedTexts[file], file, key, default)))
  {
  }

  /** `get("messages.b")` on the Spanish instance answers with the overlay's
      text and caches the merged segment. */
  lemma MergeExampleGet()
    ensures Get(NewInstance(Some("es"), Some("en")), ["/lang"], MergeExampleFiles(), "messages.b", None) ==
      Outcome(Instance(Some("es"), Some("en"), map["messages" := map["a" := "1", "b" := "20", "c" := "30"]]), Success("20"))
  {
    MergeExampleSelector();
    MergeExampleLoad();
    var loaded := Instance(Some("es"), Some("en"), map["messages" := map["a" := "1", "b" := "20", "c" := "30"]]);
    GetMissAfterLoad(NewInstance(Some("es"), Some("en")), ["/lang"], MergeExampleFiles(), "messages.b", None,
                     "messages", "b", loaded);
  }
}
