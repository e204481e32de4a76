# Orange\Lang\Lang in Dafny

A model of `Orange\Lang\Lang` (src/Orange/Lang/Lang.php), a registry for looking up translations. Its parts:

- **Directory list.** An insertion-ordered list of language-file directories without duplicates.
- **Instance factory.** A memoising factory of `Lang` instances, keyed by `current:default`, where `##` stands for a null language.
- **Lookup.** Each instance splits a selector `file.key` on its first dot. It loads the file segment once per instance and caches it. Loading runs two first-match-wins passes over the directories: the default-language base file, then the current-language overlay merged over it with `array_merge`. A missing key falls back to the caller's default, and then to the selector itself.
- **`t`.** The static accessor `t` forwards to the first instance created.

Everything is a pure function. The class's static state is a `Registry` value. An instance is addressed by its factory key, which stands in for the PHP object reference. The file system is an oracle `FileSystem = map<path, Option<Texts>>`:

- a path absent from the map is not a file (`is_file` is false);
- `None` is a file whose `include` did not yield an array;
- `Some(t)` is a file that yielded the array `t`.

An instance operation returns an `Outcome`: the instance's new state together with `Success(value)` or `Failure(error)`. This is needed because `loadFile` can throw after it has already cached the base file.

Files:
- `wrappers.dfy`: `Option` and `Result`.
- `errors.dfy`: one error constructor per kind of failure the class throws. The two malformed-file throws share `InvalidLangFile`.
- `dirs.dfy`: `rtrim`, the stored directory key, and the list operations `AddDir` / `ExcludeDir` behind `addLangFilesDir` and `excludeLangFilesDir`.
- `selector.dfy`: `explode('.', …, 2)` and the `empty()` guard.
- `loader.dfy`: candidate paths, the first-match scan and `array_merge`.
- `lang.dfy`: instances, the registry, `getInstance`, the setters, `addLangFilesDir`, `excludeLangFilesDir`, `loadFile`, `get` and `t`.
- `properties.dfy`: lemmas that relate several calls, or relate an operation to the files it reads.

Behaviour of the code worth noting:
- An unresolvable directory is not rejected. `rtrim(realpath($dir), '/')` turns `false` into `""`, and `""` is stored.
- The selector guard is PHP `empty()`, so a key of `"0"` is rejected as well as an empty key.
- The factory key is the string `current:default` with `##` for null. `null` and `"##"` therefore collide, and so do current-language names that contain `:`.
- A language file only has to yield an array. Its values are modelled as strings.

## Model

| member | source | states |
|---|---|---|
| LangDirs.RTrimSlash | src/Orange/Lang/Lang.php:99 | the stored key is a prefix of the argument, does not end in '/', and only '/' characters were cut |
| LangDirs.CanonicalDir | src/Orange/Lang/Lang.php:99 | an argument `realpath` cannot resolve is stored as ""; otherwise the key is the resolved path with exactly its trailing slashes cut |
| LangDirs.AddDir | src/Orange/Lang/Lang.php:100 | afterwards the list holds exactly the old directories plus the new one; every old directory keeps its position; at most one entry is appended; no duplicates appear |
| LangDirs.ExcludeDir | src/Orange/Lang/Lang.php:111 | afterwards the list holds exactly the old directories other than the excluded one; excluding an absent directory changes nothing; no duplicates appear |
| LangDirs.AddDirIdempotent | src/Orange/Lang/Lang.php:100 | adding a directory twice is the same as adding it once |
| LangDirs.ExcludeDirRemovesOnePosition | src/Orange/Lang/Lang.php:111 | excluding the directory at position i gives the list with just position i cut out, the others in their order |
| LangDirs.ExcludeUndoesAdd | src/Orange/Lang/Lang.php:97-112 | excluding a directory that was just added for the first time restores the previous list |
| LangDirs.ReAddMovesToEnd | src/Orange/Lang/Lang.php:97-112 | excluding a directory and adding it again moves it to the end of the scan order |
| Selector.Explode2 | src/Orange/Lang/Lang.php:140 | with no dot the key is null and the file is the whole selector; otherwise the file has no dot and file + "." + key is the selector |
| Selector.ParseSelector | src/Orange/Lang/Lang.php:140-143 | a parse fails only with InvalidSelector carrying the empty key part (null, "" or "0"), and always fails without a dot; a success gives a dotless file and a key other than "" and "0" that rejoin to the selector |
| Selector.Explode2Join | src/Orange/Lang/Lang.php:140 | a dotless file joined to any key by a dot splits back into exactly that file and key |
| Selector.ParseSelectorJoin | src/Orange/Lang/Lang.php:140-143 | a selector of the shape file.key parses iff the key is neither "" nor "0", and then gives back that file and key |
| Loader.FirstHit | src/Orange/Lang/Lang.php:159-167 | the scan stops at the first candidate that is a file, with no file before it, and finds nothing iff no candidate is a file |
| Loader.ScanPass | src/Orange/Lang/Lang.php:159-168 | a pass finds nothing iff no candidate is a file; otherwise it reports the first file, as malformed iff its include is not an array, or with exactly its contents |
| Loader.ArrayMerge | src/Orange/Lang/Lang.php:176-178 | the merge has the keys of both arrays; the overlay's value wins on a shared key, and the base value is kept elsewhere |
| Loader.ScanPassIgnoresLaterFiles | src/Orange/Lang/Lang.php:159-168 | files behind the first hit do not affect a pass |
| Lang.EmptyRegistry | src/Orange/Lang/Lang.php:29-34 | the initial static state has no directories and no instances and satisfies the registry invariant |
| Lang.NewInstance | src/Orange/Lang/Lang.php:55-58 | a new instance has the requested languages and an empty cache |
| Lang.GetInstance | src/Orange/Lang/Lang.php:42-48 | the returned key is `current:default` with ## for null, and it is present afterwards; an existing entry leaves the registry unchanged; otherwise exactly one fresh instance is added at the end of the creation order; the other entries and the directories are untouched; the invariant is kept |
| Lang.ResetLoadedTexts | src/Orange/Lang/Lang.php:64-68 | the cache becomes empty and the languages are kept |
| Lang.SetDefaultLanguage | src/Orange/Lang/Lang.php:75-79 | only the default language changes; the cache is not reset |
| Lang.SetCurrentLanguage | src/Orange/Lang/Lang.php:86-90 | only the current language changes; the cache is not reset |
| Lang.AddLangFilesDir | src/Orange/Lang/Lang.php:97-101 | the canonical directory is present afterwards, after all the old directories in their positions; the instances are untouched |
| Lang.ExcludeLangFilesDir | src/Orange/Lang/Lang.php:108-112 | afterwards the list holds exactly the old directories other than the canonical one; removing a present directory cuts out just its position, the others keeping their order; an absent directory leaves the registry unchanged; the instances are untouched |
| Lang.LoadFile | src/Orange/Lang/Lang.php:156-186 | only the requested segment's cache entry can change; success means the segment is cached; a malformed base file fails before anything is cached; an InvalidLangFile error comes from a malformed first file in one of the passes, and a malformed first overlay file after a base pass that was not malformed always fails with InvalidLangFile naming that overlay path; for an uncached segment, the not-found error naming the last probed path happens iff neither pass sees a file; a not-found failure leaves the instance unchanged |
| Lang.Get | src/Orange/Lang/Lang.php:135-150 | no directories gives NoDirectories and a bad selector gives InvalidSelector with the key part, both with the state unchanged; earlier cached segments never change; a cached segment answers without any state change; an uncached one leaves the state `loadFile` leaves and fails exactly when and as `loadFile` fails; a success has the segment cached and returns the text, else the given default, else the selector itself |
| Lang.InstanceGet | src/Orange/Lang/Lang.php:135-150 | `get` called on the shared instance stored under a key: the result is that instance's `get` result, the instance's new state is written back under its key, every other instance, the directories and the creation order are unchanged, and the invariant is kept |
| Lang.T | src/Orange/Lang/Lang.php:121-126 | with no instance, NoInstance is returned and nothing changes; otherwise the result and the new cache are those of `get` on the first-created instance |
| LangProperties.GetInstanceSameArgsSameInstance | src/Orange/Lang/Lang.php:42-48 | a second request with the same languages returns the same instance and changes nothing |
| LangProperties.NullAndHashesShareInstance | src/Orange/Lang/Lang.php:43 | asking for the language "##" returns the instance created for null, whose current language is null |
| LangProperties.ColonLanguagesCollide | src/Orange/Lang/Lang.php:43 | the pairs ("a:b", "c") and ("a", "b:c") share one key |
| LangProperties.ColonSplitUnique | src/Orange/Lang/Lang.php:43 | a string splits at its first ':' in only one way |
| LangProperties.InstanceKeyInjective | src/Orange/Lang/Lang.php:43-45 | current languages without ':' and languages other than "##" get distinct keys, and so distinct instances with separate caches |
| LangProperties.GetInstanceKeepsFirstInstance | src/Orange/Lang/Lang.php:44-45 | later requests never change which instance was created first, nor its state |
| LangProperties.TUsesFirstCreatedInstance | src/Orange/Lang/Lang.php:121-126 | after the first getInstance, `t` gives the result and cache of `get` on that fresh instance |
| LangProperties.BasePassFirst | src/Orange/Lang/Lang.php:159-168 | the base pass returns the file of the first directory holding dir[/default]/segment.php |
| LangProperties.OverlayPassFirst | src/Orange/Lang/Lang.php:170-181 | the overlay pass returns the file of the first directory holding dir/current/segment.php |
| LangProperties.NoBasePass | src/Orange/Lang/Lang.php:159-168 | with no base candidate on disk, the base pass finds nothing |
| LangProperties.NoOverlayPass | src/Orange/Lang/Lang.php:169-182 | with no current language, or no overlay candidate on disk, the overlay pass finds nothing |
| LangProperties.LoadFileTakesFirstBaseFile | src/Orange/Lang/Lang.php:159-168 | without an overlay, the segment becomes exactly the first directory's default-language file, and the load succeeds |
| LangProperties.LoadFileMergesOverlay | src/Orange/Lang/Lang.php:169-182 | with both files present, the segment holds every base key and every overlay key, with the overlay winning on conflicts |
| LangProperties.LoadFileOverlayAlone | src/Orange/Lang/Lang.php:176-178 | with no base file, the segment is exactly the first overlay file |
| LangProperties.LoadFileMalformedOverlayAlone | src/Orange/Lang/Lang.php:169-175 | with no base file, a malformed first overlay fails naming its path and leaves the instance unchanged |
| LangProperties.LoadFileMalformedBase | src/Orange/Lang/Lang.php:160-164 | a malformed first base file fails naming that path, and leaves the instance unchanged |
| LangProperties.LoadFileMalformedOverlayKeepsBase | src/Orange/Lang/Lang.php:171-175 | a malformed first overlay fails naming that path, but the base file stays cached |
| LangProperties.LoadFileNotFoundIff | src/Orange/Lang/Lang.php:183-185 | an uncached segment fails as not found iff neither pass sees a file |
| LangProperties.GetCachedIgnoresDirsAndFiles | src/Orange/Lang/Lang.php:144-149 | for a cached segment, `get` does not depend on the directory list or on the files |
| LangProperties.GetSecondCallHitsCache | src/Orange/Lang/Lang.php:144-149 | repeating a successful `get` reads no file and returns the same text with the same state |
| LangProperties.SettersKeepStaleCache | src/Orange/Lang/Lang.php:61-90 | after either setter, a cached segment still answers as before the language change |
| LangProperties.ResetForcesReload | src/Orange/Lang/Lang.php:64-68 | after a reset the segment is looked up on disk again; with no file for it, `get` now fails as not found |
| LangProperties.GetMissAnswersFromFiles | src/Orange/Lang/Lang.php:144-182 | on a cache miss with both files present, `get` returns the overlay's text, else the base file's text, else the default, else the selector |
| LangProperties.GetMissAfterLoad | src/Orange/Lang/Lang.php:144-149 | a cache miss whose load succeeds leaves the state the load left and answers from the freshly loaded segment: its text, else the default, else the selector |
| LangProperties.MalformedOverlayThenBaseAnswers | src/Orange/Lang/Lang.php:160-182 | a `get` that failed on a malformed overlay leaves the base cached, and the next `get` answers from the base alone |
| LangProperties.MergeExampleGet | src/Orange/Lang/Lang.php:135-186 | a base {a:1, b:2} under the overlay {b:20, c:30} caches {a:1, b:20, c:30}, and `messages.b` returns "20" |

## Left out

- `realpath` and the file system's idea of a canonical path: `realpath`'s result is an input of `AddLangFilesDir` / `ExcludeLangFilesDir`. `rtrim` is modelled.
- `is_file` and executing a PHP file with `include`: these are the `FileSystem` oracle.
- `array_merge` renumbering integer keys: keys are strings only. Values are strings, although a PHP language file may return other values.
- Exception message texts: each kind of failure is an `Error` constructor that carries the key part or path its message names.
- PHP's internal array pointer behind `key()` in `t`: the model uses the first-created instance, which is where the pointer of a never-iterated array sits.
- The "undefined offset" notice PHP raises for a selector without a dot: only the exception that follows is modelled.
- Method chaining (`return $this`) and object identity: instances are values addressed by their factory key, and an instance operation returns the new instance state.
- example/example.php: a demo that echoes HTML and has no logic of its own.
