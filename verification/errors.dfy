/** The exceptions `Orange\Lang\Lang` throws: one constructor per kind of
    failure. The two malformed-file throws of `loadFile` (base pass and
    overlay pass) share `InvalidLangFile`. Message texts are not modelled; a
    constructor keeps the datum its message names. */
module LangErrors {
  import opened Wrappers

  datatype Error =
    | NoInstance                         // `t` before any instance exists
    | NoDirectories                      // `get` with no language directory
    | InvalidSelector(key: Option<string>)  // the key part (null, "" or "0"), which is what
                                            // `$selector` holds once `explode` has reassigned it
    | InvalidLangFile(path: string)      // the file exists but did not yield an array
    | LangFileNotFound(path: string)     // neither pass found a file; the last probed path
}
