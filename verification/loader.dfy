/** The file side of `loadFile`: where a language file is looked for, the
    first-match scan over the directory list, and `array_merge`. */
module Loader {
  import opened Wrappers

  /** One language file's contents: text key to translated string. */
  type Texts = map<string, string>

  /** The file system as seen by `is_file` and `include`. A path absent from
      the map is not a file; `None` is a file whose `include` is not an array. */
  type FileSystem = map<string, Option<Texts>>

  /** `$dir [. '/' . $default_lang] . '/' . $segment . '.php'`: the default
      language file, at the directory root when there is no default language. */
  function BasePath(dir: string, defaultLang: Option<string>, segment: string): string {
    dir + (if defaultLang.Some? then "/" + defaultLang.value else "") + "/" + segment + ".php"
  }

  /** `$dir . '/' . $current_lang . '/' . $segment . '.php'`. */
  function OverlayPath(dir: string, lang: string, segment: string): string {
    dir + "/" + lang + "/" + segment + ".php"
  }

  /** The base-pass candidates, one per directory, in scan order. */
  function BasePaths(dirs: seq<string>, defaultLang: Option<string>, segment: string): (ps: seq<string>)
    ensures |ps| == |dirs|
    ensures forall i :: 0 <= i < |dirs| ==> ps[i] == BasePath(dirs[i], defaultLang, segment)
  {
    seq(|dirs|, i requires 0 <= i < |dirs| => BasePath(dirs[i], defaultLang, segment))
  }

  /** The overlay-pass candidates, one per directory, in scan order. */
  function OverlayPaths(dirs: seq<string>, lang: string, segment: string): (ps: seq<string>)
    ensures |ps| == |dirs|
    ensures forall i :: 0 <= i < |dirs| ==> ps[i] == OverlayPath(dirs[i], lang, segment)
  {
    seq(|dirs|, i requires 0 <= i < |dirs| => OverlayPath(dirs[i], lang, segment))
  }

  /** `i` is where a `foreach ... if (is_file(...)) { ...; break; }` stops. */
  ghost predicate IsFirstHit(fs: FileSystem, paths: seq<string>, i: int) {
    && 0 <= i < |paths|
    && paths[i] in fs
    && forall j :: 0 <= j < i ==> paths[j] !in fs
  }

  /** The index of the first existing file, if any. */
  function FirstHit(fs: FileSystem, paths: seq<string>): (r: Option<nat>)
    ensures r.Some? ==> IsFirstHit(fs, paths, r.value)
    ensures r.None? <==> forall j :: 0 <= j < |paths| ==> paths[j] !in fs
  {
    if |paths| == 0 then None
    else if paths[0] in fs then Some(0)
    else
      match FirstHit(fs, paths[1..])
      case None => None
      case Some(i) => Some(i + 1)
  }

  /** What one pass of `loadFile` found. */
  datatype Pass =
    | NoFile                              // no candidate is a file
    | Malformed(path: string)             // the first file did not yield an array
    | Found(path: string, texts: Texts)   // the first file and its array

  /** One pass: scan the candidates, take the first file, include it. */
  function ScanPass(fs: FileSystem, paths: seq<string>): (p: Pass)
    ensures p.NoFile? <==> forall j :: 0 <= j < |paths| ==> paths[j] !in fs
    ensures !p.NoFile? ==> exists i :: IsFirstHit(fs, paths, i) && paths[i] == p.path
    ensures p.Malformed? ==> p.path in fs && fs[p.path].None?
    ensures p.Found? ==> p.path in fs && fs[p.path] == Some(p.texts)
  {
    match FirstHit(fs, paths)
    case None => NoFile
    case Some(i) =>
      match fs[paths[i]]
      case None => Malformed(paths[i])
      case Some(t) => Found(paths[i], t)
  }

  /** `array_merge($base, $overlay)` on string keys: every key of both, the
      overlay's value winning on a shared key. */
  function ArrayMerge(base: Texts, overlay: Texts): (r: Texts)
    ensures r.Keys == base.Keys + overlay.Keys
    ensures forall k :: k in overlay ==> r[k] == overlay[k]
    ensures forall k :: k in base && k !in overlay ==> r[k] == base[k]
  {
    base + overlay
  }

  /** Only the first file of a pass matters: anything behind it can change
      without changing the pass. */
  lemma {:induction false} ScanPassIgnoresLaterFiles(fs1: FileSystem, fs2: FileSystem, paths: seq<string>, i: nat)
    requires IsFirstHit(fs1, paths, i)
    requires forall j :: 0 <= j <= i ==> (paths[j] in fs1 <==> paths[j] in fs2)
    requires fs2[paths[i]] == fs1[paths[i]]
    ensures ScanPass(fs1, paths) == ScanPass(fs2, paths)
  {
    FirstHitUnique(fs1, paths, i);
    FirstHitUnique(fs2, paths, i);
  }

  /** The first hit is unique, so `FirstHit` finds exactly it. */
  lemma FirstHitUnique(fs: FileSystem, paths: seq<string>, i: nat)
    requires IsFirstHit(fs, paths, i)
    ensures FirstHit(fs, paths) == Some(i)
  {
  }
}
