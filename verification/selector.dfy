/** Selector parsing: `list($file, $key) = explode('.', $selector, 2)`
    followed by the `empty($key)` guard. */
module Selector {
  import opened Wrappers
  import opened LangErrors

  /** `explode('.', s, 2)` destructured into two variables: the part before
      the first dot and, when there is a dot, the whole rest after it. Without
      a dot the second variable is `null`. */
  function Explode2(s: string): (r: (string, Option<string>))
    ensures r.1.None? <==> '.' !in s
    ensures r.1.None? ==> r.0 == s
    ensures '.' !in r.0
    ensures r.1.Some? ==> r.0 + "." + r.1.value == s
    decreases |s|
  {
    if |s| == 0 then (s, None)
    else if s[0] == '.' then ("", Some(s[1..]))
    else
      var rest := Explode2(s[1..]);
      assert s == [s[0]] + s[1..];
      ([s[0]] + rest.0, rest.1)
  }

  /** PHP `empty()` on a string-or-null: null, "" and "0" are all empty. */
  predicate PhpEmpty(v: Option<string>) {
    v.None? || v.value == "" || v.value == "0"
  }

  /** Splits a selector into its file segment and text key, rejecting a
      selector whose key part is missing or PHP-empty. */
  function ParseSelector(selector: string): (r: Result<(string, string), Error>)
    ensures r.Failure? ==> r.error == InvalidSelector(Explode2(selector).1) && PhpEmpty(Explode2(selector).1)
    ensures r.Success? ==> '.' !in r.value.0 && r.value.0 + "." + r.value.1 == selector
    ensures r.Success? ==> r.value.1 != "" && r.value.1 != "0"
    ensures '.' !in selector ==> r.Failure?
  {
    var (file, key) := Explode2(selector);
    if PhpEmpty(key) then Failure(InvalidSelector(key)) else Success((file, key.value))
  }

  /** The split is on the first dot: a dotless segment followed by a dot and
      any key comes back apart exactly. */
  lemma {:induction false} Explode2Join(file: string, key: string)
    requires '.' !in file
    ensures Explode2(file + "." + key) == (file, Some(key))
    decreases |file|
  {
    var s := file + "." + key;
    if |file| == 0 {
      assert s == "." + key;
      assert s[1..] == key;
    } else {
      assert s[0] == file[0] && s[1..] == file[1..] + "." + key;
      Explode2Join(file[1..], key);
      assert [file[0]] + file[1..] == file;
    }
  }

  /** A selector of that shape parses iff its key is neither "" nor "0";
      with `ParseSelector`'s own contract (no dot means failure) this decides
      every selector. */
  lemma ParseSelectorJoin(file: string, key: string)
    requires '.' !in file
    ensures ParseSelector(file + "." + key).Success? <==> key != "" && key != "0"
    ensures ParseSelector(file + "." + key).Success? ==> ParseSelector(file + "." + key).value == (file, key)
  {
    Explode2Join(file, key);
  }
}
