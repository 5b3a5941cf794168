/**
 * The decisions around the write: which file of the profile receives the settings
 * (`harden_profile`) and where the profile's backup goes (`harden`).
 */
module Writer {
  import opened Text
  import opened PosixPath

  const UserJs: string := "user.js"
  const UserTempJs: string := "user_temp.js"

  /** What `harden_profile` decides before it writes. */
  datatype FileChoice =
    | WriteTo(fileName: string)   // write the settings to this file of the profile
    | WrongFileChoice             // "Wrong choice." and return without writing

  /**
   * The target file, given whether `user.js` is already a file in the profile and the answer to
   * the overwrite / temp prompt (only read when it is).
   */
  function ChooseTargetFile(userJsExists: bool, answer: string): (r: FileChoice)
    ensures r.WriteTo? ==> r.fileName == UserJs || r.fileName == UserTempJs
  {
    if !userJsExists then WriteTo(UserJs)
    else match Lower(answer)
      case "overwrite" => WriteTo(UserJs)
      case "temp" => WriteTo(UserTempJs)
      case _ => WrongFileChoice
  }

  /** Without an existing `user.js` the target is `user.js`, whatever was typed. */
  lemma FreshProfileGetsUserJs(answer: string)
    ensures ChooseTargetFile(false, answer) == WriteTo(UserJs)
  {
  }

  /**
   * With an existing `user.js`: `user.js` is kept only on `overwrite`, `user_temp.js` is used
   * only on `temp`, and every other answer writes nothing (all compared after lower-casing).
   */
  lemma ExistingUserJsNeedsConsent(answer: string)
    ensures ChooseTargetFile(true, answer) == WriteTo(UserJs) <==> Lower(answer) == "overwrite"
    ensures ChooseTargetFile(true, answer) == WriteTo(UserTempJs) <==> Lower(answer) == "temp"
    ensures ChooseTargetFile(true, answer) == WrongFileChoice
        <==> Lower(answer) != "overwrite" && Lower(answer) != "temp"
  {
  }

  /** The answer is compared case-insensitively: `TEMP`, `Temp` and `temp` all pick `user_temp.js`. */
  lemma AnswerCaseInsensitive(a: string, b: string)
    requires Lower(a) == Lower(b)
    ensures ChooseTargetFile(true, a) == ChooseTargetFile(true, b)
  {
  }

  /** But it is not stripped: a space-padded `temp` is a wrong choice. */
  lemma PaddedAnswerRejected()
    ensures ChooseTargetFile(true, "TEMP") == WriteTo(UserTempJs)
    ensures ChooseTargetFile(true, " temp") == WrongFileChoice
  {
    assert Lower("TEMP") == "temp";
    assert Lower(" temp") != "temp" by {
      assert |Lower(" temp")| == 5;
    }
    assert Lower(" temp") != "overwrite" by {
      assert Lower(" temp")[0] == ' ';
    }
  }

  /** `os.path.join(os.path.expanduser("~"), "ffhrd", f"{profile_name}-backup")` with `profile_name = profile.split("/")[-1]`. */
  function BackupDir(home: string, profile: string): (r: string)
    ensures r == RStripSlash(home) + "/ffhrd/" + LastSegment(profile, '/') + "-backup"
  {
    var profileName := LastSegment(profile, '/');
    LastSegmentSpec(profile, '/');
    ToolDir(home);
    var dir := RStripSlash(home) + "/ffhrd";
    assert dir[|dir| - 1] == 'd';
    LeafJoin(dir, profileName);
    Join(Join(ExpandUser(home, "~"), "ffhrd"), profileName + "-backup")
  }

  /**
   * The backup lands in `<home>/ffhrd/<name>-backup`, where `<home>` has its trailing slashes
   * dropped and `<name>` is the text after the profile path's last `/` (so `/` itself as home
   * gives `/ffhrd/<name>-backup`).
   */
  lemma BackupDirShape(home: string, profile: string)
    ensures var name := LastSegment(profile, '/');
      BackupDir(home, profile) == RStripSlash(home) + "/ffhrd" + "/" + name + "-backup"
      && '/' !in name && EndsWith(profile, name)
  {
    LastSegmentSpec(profile, '/');
  }

  /** `os.path.join(os.path.expanduser("~"), "ffhrd")` */
  lemma ToolDir(home: string)
    ensures Join(ExpandUser(home, "~"), "ffhrd") == RStripSlash(home) + "/ffhrd"
  {
    var h := RStripSlash(home);
    var root := ExpandUser(home, "~");
    assert "~"[1..] == [] && h + [] == h;
    assert !StartsWith("ffhrd", "/") by {
      assert "ffhrd"[0] == 'f';
    }
    if h == [] {
      assert root == "/" && EndsWith(root, "/");
    } else {
      assert root == h && !EndsWith(h, "/");
    }
  }

  /** Joining a directory that does not end in `/` with `<name>-backup`, for a name without `/`. */
  lemma LeafJoin(dir: string, name: string)
    requires dir != [] && dir[|dir| - 1] != '/' && '/' !in name
    ensures Join(dir, name + "-backup") == dir + "/" + name + "-backup"
  {
    var leaf := name + "-backup";
    assert !StartsWith(leaf, "/") by {
      if |name| > 0 {
        assert leaf[0] == name[0];
      } else {
        assert leaf[0] == '-';
      }
    }
    assert !EndsWith(dir, "/") by {
      assert dir[|dir| - 1..] != "/";
    }
  }
}
