/** Foundation's `URL`, reduced to what the preset layer observes of it. */
module Urls {
  import opened Wrappers

  /** A URL as the program sees it: whether it is a `file:` URL (`isFileURL`) and its
      `absoluteString`. */
  datatype Url = Url(isFile: bool, str: string)

  /** Foundation's `URL(string:)`: a partial function from text to URLs, left uninterpreted
      and passed around as a parameter. */
  type Parser = string -> Option<Url>

  predicate IsPrefix(prefix: string, s: string)
  {
    |prefix| <= |s| && s[..|prefix|] == prefix
  }

  /** `lastPathComponent`: the text after the last `/` of the string. The result is the
      longest suffix without a `/`, so it is either all of `s` or preceded by a `/`. */
  function LastPathComponent(s: string): (r: string)
    ensures '/' !in r
    ensures |r| <= |s| && r == s[|s| - |r|..]
    ensures |r| == |s| || s[|s| - |r| - 1] == '/'
    decreases |s|
  {
    if |s| == 0 || s[|s| - 1] == '/' then ""
    else
      var init := s[..|s| - 1];
      var r := LastPathComponent(init) + [s[|s| - 1]];
      assert s == init + [s[|s| - 1]];
      r
  }

  /** A component without `/` appended after a `/` is the last path component. */
  lemma {:induction false} LastOfAppended(s: string, component: string)
    requires |s| > 0 && s[|s| - 1] == '/'
    requires '/' !in component
    ensures LastPathComponent(s + component) == component
  {
    if |component| > 0 {
      var init := component[..|component| - 1];
      assert '/' !in init by {
        forall i | 0 <= i < |init| ensures init[i] != '/' {
          assert init[i] == component[i];
        }
      }
      LastOfAppended(s, init);
      assert (s + component)[..|s + component| - 1] == s + init;
    } else {
      assert s + component == s;
    }
  }

  /** `appendingPathComponent`: joins with a `/` unless the URL already ends in one. */
  function AppendingPathComponent(u: Url, component: string): (r: Url)
    ensures r.isFile == u.isFile
    ensures IsPrefix(u.str, r.str) && |r.str| >= |u.str| + |component|
  {
    var base := if |u.str| > 0 && u.str[|u.str| - 1] == '/' then u.str else u.str + "/";
    Url(u.isFile, base + component)
  }

  /** Appending a plain file name makes it the last path component of the new URL. */
  lemma AppendedComponentIsLast(u: Url, component: string)
    requires '/' !in component
    ensures LastPathComponent(AppendingPathComponent(u, component).str) == component
  {
    var base := if |u.str| > 0 && u.str[|u.str| - 1] == '/' then u.str else u.str + "/";
    LastOfAppended(base, component);
  }
}
