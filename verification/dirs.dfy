/** The process-wide set of language-file directories. PHP keeps it as an
    array keyed by the directory path, so it is insertion-ordered and holds
    each path at most once; here it is a sequence without duplicates. */
module LangDirs {
  import opened Wrappers

  /** No path occurs twice. */
  ghost predicate NoDup(ds: seq<string>) {
    forall i, j :: 0 <= i < j < |ds| ==> ds[i] != ds[j]
  }

  /** `rtrim($s, '/')`: drops every trailing slash. */
  function RTrimSlash(s: string): (r: string)
    ensures r <= s
    ensures |r| == 0 || r[|r| - 1] != '/'
    ensures forall i :: |r| <= i < |s| ==> s[i] == '/'
    decreases |s|
  {
    if |s| > 0 && s[|s| - 1] == '/' then RTrimSlash(s[..|s| - 1]) else s
  }

  /** The key a directory argument is stored under: `rtrim(realpath($dir), '/')`.
      `resolved` is what `realpath` returned, `None` standing for `false`;
      `rtrim(false, '/')` is the empty string, so an unresolvable directory
      is stored as "" instead of being rejected. */
  function CanonicalDir(resolved: Option<string>): (r: string)
    ensures resolved.None? ==> r == ""
    ensures resolved.Some? ==> r <= resolved.value && (|r| == 0 || r[|r| - 1] != '/')
    ensures resolved.Some? ==> forall i :: |r| <= i < |resolved.value| ==> resolved.value[i] == '/'
  {
    match resolved
    case None => ""
    case Some(p) => RTrimSlash(p)
  }

  /** `$dirs[$dir] = $dir`: a new path goes to the end, a known path keeps
      its place. */
  function AddDir(ds: seq<string>, d: string): (r: seq<string>)
    ensures forall x :: x in r <==> x in ds || x == d
    ensures |ds| <= |r| <= |ds| + 1
    ensures forall i :: 0 <= i < |ds| ==> r[i] == ds[i]
    ensures NoDup(ds) ==> NoDup(r)
  {
    if d in ds then ds else ds + [d]
  }

  /** `unset($dirs[$dir])`: removes that path and keeps the others in order. */
  function ExcludeDir(ds: seq<string>, d: string): (r: seq<string>)
    ensures forall x :: x in r <==> x in ds && x != d
    ensures d !in ds ==> r == ds
    ensures |r| <= |ds|
    ensures NoDup(ds) ==> NoDup(r)
  {
    if |ds| == 0 then []
    else if ds[0] == d then ExcludeDir(ds[1..], d)
    else
      var rest := ExcludeDir(ds[1..], d);
      assert NoDup(ds) ==> NoDup(ds[1..]) && ds[0] !in rest by {
        if NoDup(ds) {
          forall j | 0 <= j < |ds[1..]| ensures ds[1..][j] != ds[0] {
            assert ds[1..][j] == ds[j + 1];
          }
        }
      }
      [ds[0]] + rest
  }

  /** Adding a directory twice is the same as adding it once. */
  lemma AddDirIdempotent(ds: seq<string>, d: string)
    ensures AddDir(AddDir(ds, d), d) == AddDir(ds, d)
  {
  }

  /** Excluding a path removes exactly the one position that held it and
      keeps every other directory in its order. */
  lemma {:induction false} ExcludeDirRemovesOnePosition(ds: seq<string>, i: nat)
    requires NoDup(ds) && i < |ds|
    ensures ExcludeDir(ds, ds[i]) == ds[..i] + ds[i + 1..]
  {
    var d := ds[i];
    if i == 0 {
      assert d !in ds[1..] by {
        forall j | 0 <= j < |ds[1..]| ensures ds[1..][j] != d {
          assert ds[1..][j] == ds[j + 1];
        }
      }
    } else {
      assert ds[0] != d;
      assert NoDup(ds[1..]) by {
        forall a, b | 0 <= a < b < |ds[1..]| ensures ds[1..][a] != ds[1..][b] {
          assert ds[1..][a] == ds[a + 1] && ds[1..][b] == ds[b + 1];
        }
      }
      assert ds[1..][i - 1] == d;
      ExcludeDirRemovesOnePosition(ds[1..], i - 1);
      assert ds[..i] == [ds[0]] + ds[1..][..i - 1];
      assert ds[i + 1..] == ds[1..][i..];
    }
  }

  /** Excluding a directory that was just added for the first time restores
      the directory set. */
  lemma {:induction false} ExcludeUndoesAdd(ds: seq<string>, d: string)
    requires d !in ds
    ensures ExcludeDir(AddDir(ds, d), d) == ds
  {
    ExcludeAppended(ds, d);
  }

  lemma {:induction false} ExcludeAppended(ds: seq<string>, d: string)
    requires d !in ds
    ensures ExcludeDir(ds + [d], d) == ds
  {
    if |ds| == 0 {
      assert ExcludeDir([d], d) == ExcludeDir([d][1..], d);
    } else {
      assert (ds + [d])[1..] == ds[1..] + [d];
      ExcludeAppended(ds[1..], d);
      assert ds == [ds[0]] + ds[1..];
    }
  }

  /** Re-adding an excluded directory moves it to the end of the scan order. */
  lemma ReAddMovesToEnd(ds: seq<string>, d: string)
    requires d in ds
    ensures AddDir(ExcludeDir(ds, d), d) == ExcludeDir(ds, d) + [d]
  {
  }
}
