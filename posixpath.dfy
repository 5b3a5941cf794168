/**
 * The two functions of Python's `posixpath` that ffhrd calls: `join` and `expanduser`
 * (the latter for the case where the home directory is known, given here as `home`).
 */
module PosixPath {
  import opened Text

  /** `a.rstrip("/")` */
  function RStripSlash(a: string): (r: string)
    ensures |r| <= |a|
    ensures r == [] || r[|r| - 1] != '/'
    decreases |a|
  {
    if |a| > 0 && a[|a| - 1] == '/' then RStripSlash(a[..|a| - 1]) else a
  }

  /** `rstrip` removes exactly the trailing slashes: what is left is a prefix, followed only by `/`. */
  lemma {:induction false} RStripSlashSpec(a: string)
    ensures var r := RStripSlash(a);
      StartsWith(a, r) && forall i :: |r| <= i < |a| ==> a[i] == '/'
    decreases |a|
  {
    if |a| > 0 && a[|a| - 1] == '/' {
      RStripSlashSpec(a[..|a| - 1]);
    }
  }

  /** `os.path.join(a, b)`: an absolute `b` replaces `a`; otherwise one `/` separates them unless `a` is empty or already ends with one. */
  function Join(a: string, b: string): string {
    if StartsWith(b, "/") then b
    else if a == [] || EndsWith(a, "/") then a + b
    else a + "/" + b
  }

  /** The joined path ends with `b`, and starts with `a` unless `b` is absolute. */
  lemma JoinSpec(a: string, b: string)
    ensures EndsWith(Join(a, b), b)
    ensures !StartsWith(b, "/") ==> StartsWith(Join(a, b), a)
  {
    var r := Join(a, b);
    if !StartsWith(b, "/") {
      if a == [] || EndsWith(a, "/") {
        assert r == a + b;
      } else {
        assert r == a + ("/" + b);
      }
    }
  }

  /**
   * `os.path.expanduser(path)` for a `path` that is `~` or starts with `~/`, with the home
   * directory `home`: trailing slashes of `home` are dropped, the rest of `path` is appended,
   * and an empty outcome becomes the root `/`.
   */
  function ExpandUser(home: string, path: string): (r: string)
    requires StartsWith(path, "~") && (|path| == 1 || path[1] == '/')
    ensures r != []
    ensures |path| > 1 ==> EndsWith(r, path[1..])
  {
    var expanded := RStripSlash(home) + path[1..];
    if expanded == [] then "/" else expanded
  }
}
