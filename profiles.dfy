/** Discovery of Firefox profile directories under the configuration root (`get_ff_profiles`). */
module Profiles {
  import opened Text

  /** One entry of `os.scandir(root)`: its full path (`f.path`) and whether `f.is_dir()` holds. */
  datatype DirEntry = DirEntry(path: string, isDir: bool)

  /** The name test of the loop body, applied to the FULL path of the entry. */
  predicate IsProfilePath(path: string) {
    EndsWith(path, ".default") || Contains(path, "profile")
  }

  /** `[f.path for f in listing if f.is_dir()]` */
  function Subfolders(listing: seq<DirEntry>): (r: seq<string>)
    ensures |r| <= |listing|
    ensures forall i :: 0 <= i < |r| ==> DirEntry(r[i], true) in listing
    decreases |listing|
  {
    if listing == [] then []
    else (if listing[0].isDir then [listing[0].path] else []) + Subfolders(listing[1..])
  }

  /** The folders that pass the name test, in their original order. */
  function MatchingProfiles(folders: seq<string>): (r: seq<string>)
    ensures |r| <= |folders|
    ensures forall i :: 0 <= i < |r| ==> r[i] in folders && IsProfilePath(r[i])
    decreases |folders|
  {
    if folders == [] then []
    else (if IsProfilePath(folders[0]) then [folders[0]] else []) + MatchingProfiles(folders[1..])
  }

  /** The result of `get_ff_profiles` for a scan that returned `listing`. */
  function ProfilesOf(listing: seq<DirEntry>): (r: seq<string>)
    ensures |r| <= |listing|
    ensures forall i :: 0 <= i < |r| ==> DirEntry(r[i], true) in listing && IsProfilePath(r[i])
  {
    MatchingProfiles(Subfolders(listing))
  }

  /** `get_ff_profiles(root)`, with the scan of `root` given as `listing`: one pass appending each match. */
  method GetProfiles(listing: seq<DirEntry>) returns (profiles: seq<string>)
    ensures profiles == ProfilesOf(listing)
  {
    var subfolders := Subfolders(listing);
    profiles := [];
    for i := 0 to |subfolders|
      invariant profiles == MatchingProfiles(subfolders[..i])
    {
      var folder := subfolders[i];
      MatchingAppend(subfolders[..i], [folder]);
      assert subfolders[..i + 1] == subfolders[..i] + [folder];
      if IsProfilePath(folder) {
        profiles := profiles + [folder];
      }
    }
    assert subfolders[..|subfolders|] == subfolders;
  }

  /** Filtering a concatenation filters each part and keeps them in order. */
  lemma {:induction false} MatchingAppend(a: seq<string>, b: seq<string>)
    ensures MatchingProfiles(a + b) == MatchingProfiles(a) + MatchingProfiles(b)
    decreases |a|
  {
    if a == [] {
      assert a + b == b;
    } else {
      var head := if IsProfilePath(a[0]) then [a[0]] else [];
      assert (a + b)[0] == a[0] && (a + b)[1..] == a[1..] + b;
      assert MatchingProfiles(a + b) == head + MatchingProfiles(a[1..] + b);
      MatchingAppend(a[1..], b);
      assert MatchingProfiles(a) == head + MatchingProfiles(a[1..]);
    }
  }

  /** A folder is kept exactly when it is among the input and passes the name test. */
  lemma {:induction false} MatchingMembership(folders: seq<string>, p: string)
    ensures p in MatchingProfiles(folders) <==> p in folders && IsProfilePath(p)
    decreases |folders|
  {
    if folders != [] {
      MatchingMembership(folders[1..], p);
      assert folders == [folders[0]] + folders[1..];
    }
  }

  /** The subfolders are exactly the paths of directory entries. */
  lemma {:induction false} SubfoldersMembership(listing: seq<DirEntry>, p: string)
    ensures p in Subfolders(listing) <==> DirEntry(p, true) in listing
    decreases |listing|
  {
    if listing != [] {
      SubfoldersMembership(listing[1..], p);
      assert listing == [listing[0]] + listing[1..];
    }
  }

  /**
   * A path is reported as a profile exactly when the scan holds a directory with that full path
   * and the path ends with `.default` or contains `profile`.
   */
  lemma ProfilesMembership(listing: seq<DirEntry>, p: string)
    ensures p in ProfilesOf(listing) <==> DirEntry(p, true) in listing && IsProfilePath(p)
  {
    MatchingMembership(Subfolders(listing), p);
    SubfoldersMembership(listing, p);
  }

  /** A path that only non-directories carry is never reported, whatever its name. */
  lemma NonDirectoryExcluded(listing: seq<DirEntry>, p: string)
    requires forall e :: e in listing && e.path == p ==> !e.isDir
    ensures p !in ProfilesOf(listing)
  {
    ProfilesMembership(listing, p);
  }

  /** `a` is `b` with some elements dropped, order kept. */
  predicate IsSubsequence<T(==)>(a: seq<T>, b: seq<T>)
    decreases |b|
  {
    if a == [] then true
    else if b == [] then false
    else (a[0] == b[0] && IsSubsequence(a[1..], b[1..])) || IsSubsequence(a, b[1..])
  }

  /** The full path of every entry, in scan order. */
  function Paths(listing: seq<DirEntry>): (r: seq<string>)
    ensures |r| == |listing| && forall i :: 0 <= i < |listing| ==> r[i] == listing[i].path
    decreases |listing|
  {
    if listing == [] then [] else [listing[0].path] + Paths(listing[1..])
  }

  lemma {:induction false} SubsequenceOfTail<T>(a: seq<T>, b: seq<T>, x: T)
    requires IsSubsequence(a, b)
    ensures IsSubsequence(a, [x] + b)
  {
    if a != [] {
      assert ([x] + b)[1..] == b;
    }
  }

  lemma {:induction false} SubsequenceTrans<T>(a: seq<T>, b: seq<T>, c: seq<T>)
    requires IsSubsequence(a, b) && IsSubsequence(b, c)
    ensures IsSubsequence(a, c)
    decreases |c|
  {
    if a != [] && b != [] && c != [] {
      if b[0] == c[0] && IsSubsequence(b[1..], c[1..]) {
        if a[0] == b[0] && IsSubsequence(a[1..], b[1..]) {
          SubsequenceTrans(a[1..], b[1..], c[1..]);
        } else {
          SubsequenceTrans(a, b[1..], c[1..]);
        }
      } else {
        SubsequenceTrans(a, b, c[1..]);
      }
    }
  }

  lemma {:induction false} MatchingIsSubsequence(folders: seq<string>)
    ensures IsSubsequence(MatchingProfiles(folders), folders)
    decreases |folders|
  {
    if folders != [] {
      MatchingIsSubsequence(folders[1..]);
      var rest := MatchingProfiles(folders[1..]);
      if IsProfilePath(folders[0]) {
        assert MatchingProfiles(folders) == [folders[0]] + rest;
        assert ([folders[0]] + rest)[1..] == rest;
      } else {
        assert MatchingProfiles(folders) == rest;
        SubsequenceOfTail(rest, folders[1..], folders[0]);
        assert folders == [folders[0]] + folders[1..];
      }
    }
  }

  lemma {:induction false} SubfoldersIsSubsequence(listing: seq<DirEntry>)
    ensures IsSubsequence(Subfolders(listing), Paths(listing))
    decreases |listing|
  {
    if listing != [] {
      SubfoldersIsSubsequence(listing[1..]);
      var rest := Subfolders(listing[1..]);
      assert Paths(listing) == [listing[0].path] + Paths(listing[1..]);
      if listing[0].isDir {
        assert ([listing[0].path] + rest)[1..] == rest;
      } else {
        assert Subfolders(listing) == rest;
        SubsequenceOfTail(rest, Paths(listing[1..]), listing[0].path);
      }
    }
  }

  /** The profiles keep the scan's relative order: they are a subsequence of the scanned paths. */
  lemma ProfilesPreserveScanOrder(listing: seq<DirEntry>)
    ensures IsSubsequence(ProfilesOf(listing), Paths(listing))
  {
    MatchingIsSubsequence(Subfolders(listing));
    SubfoldersIsSubsequence(listing);
    SubsequenceTrans(ProfilesOf(listing), Subfolders(listing), Paths(listing));
  }

  /**
   * The test runs on the full path, so a configuration root whose own path contains `profile`
   * makes every directory below it a profile.
   */
  lemma {:induction false} RootNamedProfileSelectsAll(root: string, names: seq<string>)
    requires Contains(root, "profile")
    ensures MatchingProfiles(seq(|names|, i requires 0 <= i < |names| => root + "/" + names[i]))
        == seq(|names|, i requires 0 <= i < |names| => root + "/" + names[i])
    decreases |names|
  {
    if names != [] {
      var all := seq(|names|, i requires 0 <= i < |names| => root + "/" + names[i]);
      var tail := seq(|names| - 1, i requires 0 <= i < |names| - 1 => root + "/" + names[1..][i]);
      assert all[1..] == tail;
      RootNamedProfileSelectsAll(root, names[1..]);
      ContainsIff(root, "profile");
      var k: nat :| OccursAt(root, "profile", k);
      assert all[0][k..k + 7] == root[k..k + 7];
      assert OccursAt(all[0], "profile", k);
      ContainsIff(all[0], "profile");
    }
  }
}
