/**
 * One run of `harden()` followed by `harden_profile()`, over the answers the operating system
 * and the user give. The run is a function of those answers: what it does to the file system
 * is returned as a list of effects, and how it ends as a `Stop`.
 */
module Harden {
  import opened Text
  import opened PosixPath
  import opened Platform
  import opened Profiles
  import opened Settings
  import Selection
  import opened Writer

  /** Everything the run learns from outside. */
  datatype Env = Env(
    system: string,                     // `platform.system()`
    home: string,                       // the home directory `~` expands to
    scans: map<string, seq<DirEntry>>,  // `os.scandir(path)` for each readable directory
    files: set<string>,                 // paths for which `os.path.isfile` holds
    profileAnswer: string,              // the line typed at the profile prompt
    fileAnswer: string,                 // the line typed at the overwrite / temp prompt
    backupSucceeds: bool,               // `shutil.copytree` completes
    writeSucceeds: bool                 // `open(..., "w")` and `write` complete
  )

  /** A completed change to the file system. */
  datatype Effect =
    | CopyTree(src: string, dst: string)     // backup of a profile directory
    | WriteFile(path: string, content: string)

  /** How the run ends. */
  datatype Stop =
    | Hardened             // "[+] '<path>' created"
    | UnknownOs            // exit status 1
    | DarwinUnsupported    // `NotImplementedError` propagates
    | ConfigDirMissing     // empty configuration path: exit status 1
    | ScanFailed           // `os.scandir` raises (root missing or unreadable)
    | NoProfiles           // exit status 1
    | BadProfileInput      // `int()` raised `ValueError`: exit status 1
    | ProfileOutOfRange    // "Wrong choice." and return
    | ProfileUnbound       // `profile` read before assignment: `UnboundLocalError` propagates
    | BackupFailed         // `shutil.copytree` raises
    | FileChoiceRejected   // "Wrong choice." and return
    | WriteFailed          // `OSError` or another exception while writing: exit status 1

  datatype Outcome = Outcome(effects: seq<Effect>, stop: Stop)

  /** The process exit status each ending gives (an uncaught exception gives 1). */
  function ExitStatus(stop: Stop): (code: int)
    ensures code == 0 || code == 1
    ensures code == 0 <==> stop in {Hardened, ProfileOutOfRange, FileChoiceRejected}
  {
    match stop
    case Hardened => 0
    case ProfileOutOfRange => 0
    case FileChoiceRejected => 0
    case _ => 1
  }

  /** `harden_profile(profile)`: choose the target file, then write the serialised table to it. */
  function HardenProfile(env: Env, profile: string, table: seq<Setting>): (r: Outcome)
    ensures r.stop in {Hardened, FileChoiceRejected, WriteFailed}
    ensures |r.effects| <= 1 && (r.effects != [] <==> r.stop == Hardened)
    ensures r.effects != [] ==> r.effects[0].WriteFile? && r.effects[0].content == Serialize(table)
    ensures r.effects != [] ==> r.effects[0].path in {Join(profile, UserJs), Join(profile, UserTempJs)}
  {
    match ChooseTargetFile(Join(profile, UserJs) in env.files, env.fileAnswer)
    case WrongFileChoice => Outcome([], FileChoiceRejected)
    case WriteTo(name) =>
      if env.writeSucceeds then Outcome([WriteFile(Join(profile, name), Serialize(table))], Hardened)
      else Outcome([], WriteFailed)
  }

  /** The profiles found under the configuration root, or how the run stopped before any prompt. */
  datatype Discovery = Found(profiles: seq<string>) | Halted(stop: Stop)

  /** Lines 210-218 of `harden`: resolve the configuration root and scan it for profiles. */
  function Discover(env: Env): (d: Discovery)
    ensures d.Found? ==> d.profiles != []
    ensures d.Halted? ==> d.stop in {UnknownOs, DarwinUnsupported, ConfigDirMissing, ScanFailed, NoProfiles}
    ensures var c := GetConfigPath(env.system, env.home);
      && (d.Found? <==> c.ConfigPath? && c.path in env.scans && ProfilesOf(env.scans[c.path]) != [])
      && (d.Found? ==> d.profiles == ProfilesOf(env.scans[c.path]))
      && (d == Halted(NoProfiles) <==> c.ConfigPath? && c.path in env.scans && ProfilesOf(env.scans[c.path]) == [])
  {
    match GetConfigPath(env.system, env.home)
    case UnknownSystem => Halted(UnknownOs)
    case NotImplemented => Halted(DarwinUnsupported)
    case ConfigPath(root) =>
      if root == [] then Halted(ConfigDirMissing)
      else if root !in env.scans then Halted(ScanFailed)
      else
        var profiles := ProfilesOf(env.scans[root]);
        if profiles == [] then Halted(NoProfiles) else Found(profiles)
  }

  /** The profiles found under the configuration root, when it resolves and can be scanned. */
  function FoundProfiles(env: Env): seq<string> {
    match Discover(env)
    case Found(profiles) => profiles
    case Halted(_) => []
  }

  /**
   * A path is among the found profiles exactly when the configuration root's scan holds a
   * directory with that full path and the path passes the profile name test.
   */
  lemma FoundProfilesMembership(env: Env, p: string)
    requires GetConfigPath(env.system, env.home).ConfigPath?
    requires GetConfigPath(env.system, env.home).path in env.scans
    ensures var root := GetConfigPath(env.system, env.home).path;
      p in FoundProfiles(env) <==> DirEntry(p, true) in env.scans[root] && IsProfilePath(p)
  {
    var root := GetConfigPath(env.system, env.home).path;
    ProfilesMembership(env.scans[root], p);
  }

  /** Either the profile `harden` goes on with, or how it stopped before reaching the backup. */
  datatype Selected = Profile(path: string) | Stopped(stop: Stop)

  /** How each ending of the profile choice carries the run on. */
  function AfterChoice(choice: Selection.Choice): Selected {
    match choice
    case IncorrectInput => Stopped(BadProfileInput)
    case WrongChoice => Stopped(ProfileOutOfRange)
    case ProfileUnbound => Stopped(ProfileUnbound)
    case Chosen(profile) => Profile(profile)
  }

  /** Lines 210-238 of `harden` as written: resolve the configuration root, scan it, and pick a profile. */
  function SelectedProfile(env: Env): Selected {
    match Discover(env)
    case Halted(stop) => Stopped(stop)
    case Found(profiles) => AfterChoice(Selection.SelectProfile(profiles, env.profileAnswer))
  }

  /** The same steps with the corrected choice, which takes a single profile without asking. */
  function SelectedProfileFixed(env: Env): Selected {
    match Discover(env)
    case Halted(stop) => Stopped(stop)
    case Found(profiles) => AfterChoice(Selection.SelectProfileFixed(profiles, env.profileAnswer))
  }

  /** Lines 241-247 of `harden`: back up the chosen profile, then harden it. */
  function BackupAndHarden(env: Env, profile: string, table: seq<Setting>): (r: Outcome)
    ensures r.stop == BackupFailed <==> !env.backupSucceeds
    ensures env.backupSucceeds <==> r.effects != []
    ensures r.effects != [] ==> r.effects[0] == CopyTree(profile, BackupDir(env.home, profile))
    ensures r.stop == Hardened <==> |r.effects| == 2
  {
    if !env.backupSucceeds then Outcome([], BackupFailed)
    else
      var after := HardenProfile(env, profile, table);
      Outcome([CopyTree(profile, BackupDir(env.home, profile))] + after.effects, after.stop)
  }

  /** `harden()` as written, with the settings table `table`: select, back up, then harden the profile. */
  function Run(env: Env, table: seq<Setting>): (r: Outcome)
    ensures |r.effects| <= 2
    ensures r.effects != [] ==> SelectedProfile(env).Profile? && r.effects[0].CopyTree?
    ensures r.effects != [] ==> r.effects[0].src == SelectedProfile(env).path
    ensures r.stop == Hardened <==> |r.effects| == 2
    ensures r.stop == Hardened ==> r.effects[1].WriteFile? && r.effects[1].content == Serialize(table)
  {
    match SelectedProfile(env)
    case Stopped(stop) => Outcome([], stop)
    case Profile(profile) => BackupAndHarden(env, profile, table)
  }

  /** `harden()` with the corrected profile choice. */
  function RunFixed(env: Env, table: seq<Setting>): Outcome {
    match SelectedProfileFixed(env)
    case Stopped(stop) => Outcome([], stop)
    case Profile(profile) => BackupAndHarden(env, profile, table)
  }

  /**
   * The profile that goes on to the backup is one of several found profiles, the one whose index
   * was typed; the configuration path is never empty, so that check never stops the run.
   */
  lemma SelectedIsFound(env: Env)
    ensures Discover(env) != Halted(ConfigDirMissing)
    ensures SelectedProfile(env).Profile? ==>
      && 1 < |FoundProfiles(env)|
      && Selection.ParseInt(env.profileAnswer).Int?
      && 0 <= Selection.ParseInt(env.profileAnswer).value < |FoundProfiles(env)|
      && SelectedProfile(env).path == FoundProfiles(env)[Selection.ParseInt(env.profileAnswer).value]
  {
  }

  /**
   * `harden_profile` either writes nothing or writes exactly the serialised table to the chosen
   * file; a rejected answer returns, and only a failed write is an error.
   */
  lemma HardenProfileEffects(env: Env, profile: string, table: seq<Setting>)
    ensures var o := HardenProfile(env, profile, table);
      var choice := ChooseTargetFile(Join(profile, UserJs) in env.files, env.fileAnswer);
      && (o.stop == Hardened <==> choice.WriteTo? && env.writeSucceeds)
      && (o.stop == FileChoiceRejected <==> choice.WrongFileChoice?)
      && (o.stop == WriteFailed <==> choice.WriteTo? && !env.writeSucceeds)
      && o.effects == (if o.stop == Hardened then [WriteFile(Join(profile, choice.fileName), Serialize(table))] else [])
  {
  }

  /**
   * Every change a run makes: nothing, or a backup of the selected profile into its backup
   * directory, followed (and only then) by the write of the serialised table into that profile.
   */
  lemma RunEffects(env: Env, table: seq<Setting>)
    ensures var o := Run(env, table);
      o.effects == [] ||
      (SelectedProfile(env).Profile? && env.backupSucceeds &&
       var p := SelectedProfile(env).path;
       var choice := ChooseTargetFile(Join(p, UserJs) in env.files, env.fileAnswer);
       && o.effects[0] == CopyTree(p, BackupDir(env.home, p))
       && (o.stop == Hardened <==> |o.effects| == 2)
       && (o.stop == Hardened ==> choice.WriteTo? && o.effects[1] == WriteFile(Join(p, choice.fileName), Serialize(table)))
       && (o.stop != Hardened ==> |o.effects| == 1))
  {
    match SelectedProfile(env)
    case Stopped(_) =>
    case Profile(p) =>
      HardenProfileEffects(env, p, table);
  }

  /** A run writes something exactly when it ends in `Hardened`. */
  lemma WritesOnlyWhenHardened(env: Env, table: seq<Setting>)
    ensures var o := Run(env, table);
      o.stop == Hardened <==> exists e :: e in o.effects && e.WriteFile?
  {
    RunEffects(env, table);
    var o := Run(env, table);
    if o.stop == Hardened {
      assert o.effects[1] in o.effects;
    } else if o.effects != [] {
      assert o.effects == [o.effects[0]];
    }
  }

  /** Whatever a run writes is the serialised table. */
  lemma WritesSerializedTable(env: Env, table: seq<Setting>, e: Effect)
    requires e in Run(env, table).effects && e.WriteFile?
    ensures e.content == Serialize(table)
  {
    match SelectedProfile(env)
    case Stopped(_) =>
    case Profile(p) =>
      var after := HardenProfile(env, p, table);
      HardenProfileEffects(env, p, table);
      assert Run(env, table).effects == [CopyTree(p, BackupDir(env.home, p))] + after.effects;
      assert e in after.effects;
  }

  /** The write always follows the backup of the very profile it writes into. */
  lemma BackupBeforeWrite(env: Env, table: seq<Setting>)
    requires Run(env, table).stop == Hardened
    ensures var o := Run(env, table);
      exists p, name :: p in FoundProfiles(env) && (name == UserJs || name == UserTempJs) &&
        o.effects == [CopyTree(p, BackupDir(env.home, p)), WriteFile(Join(p, name), Serialize(table))]
  {
    RunEffects(env, table);
    SelectedIsFound(env);
    var o := Run(env, table);
    var p := SelectedProfile(env).path;
    var name := ChooseTargetFile(Join(p, UserJs) in env.files, env.fileAnswer).fileName;
    assert o.effects == [CopyTree(p, BackupDir(env.home, p)), WriteFile(Join(p, name), Serialize(table))];
  }

  /** `.../user_temp.js` and `.../user.js` are never the same path. */
  lemma TargetPathsDiffer(q: string, p: string)
    ensures Join(q, UserTempJs) != Join(p, UserJs)
  {
    assert !StartsWith(UserJs, "/") by { assert UserJs[0] == 'u'; }
    assert !StartsWith(UserTempJs, "/") by { assert UserTempJs[0] == 'u'; }
    var a, b := Join(q, UserTempJs), Join(p, UserJs);
    assert a[|a| - 7] == UserTempJs[5] == 't';
    assert b[|b| - 7] == UserJs[0] == 'u';
  }

  /**
   * An existing `user.js` is replaced only when the user typed `overwrite` (in any case);
   * with `temp` the run writes `user_temp.js` beside it instead.
   */
  lemma NoClobberWithoutConsent(env: Env, table: seq<Setting>, path: string, content: string)
    requires path in env.files && EndsWith(path, UserJs)
    requires WriteFile(path, content) in Run(env, table).effects
    ensures Lower(env.fileAnswer) == "overwrite"
  {
    RunEffects(env, table);
    var o := Run(env, table);
    var p := SelectedProfile(env).path;
    var choice := ChooseTargetFile(Join(p, UserJs) in env.files, env.fileAnswer);
    assert o.effects[1] == WriteFile(path, content);
    assert path == Join(p, choice.fileName);
    if choice.fileName == UserTempJs {
      TempPathNotUserJs(p, path);
    }
    assert Join(p, UserJs) in env.files;
    ExistingUserJsNeedsConsent(env.fileAnswer);
  }

  lemma TempPathNotUserJs(p: string, path: string)
    requires path == Join(p, UserTempJs)
    ensures !EndsWith(path, UserJs)
  {
    assert path[|path| - 7] == UserTempJs[5] == 't';
  }

  /**
   * Nothing is touched, not even by a backup, when the platform is unusable, no or exactly one
   * profile is found, the profile answer is not an integer or out of range, or the backup fails.
   */
  lemma EarlyStopsChangeNothing(env: Env, table: seq<Setting>)
    requires Run(env, table).stop in {UnknownOs, DarwinUnsupported, ScanFailed, NoProfiles,
                                      BadProfileInput, ProfileOutOfRange, ProfileUnbound, BackupFailed}
    ensures Run(env, table).effects == []
  {
    RunEffects(env, table);
    if Run(env, table).effects != [] {
      HardenProfileEffects(env, SelectedProfile(env).path, table);
    }
  }

  /**
   * With exactly one profile found the run never hardens it: it stops on the unassigned
   * `profile` before any backup.
   */
  lemma SingleProfileNeverHardened(env: Env, table: seq<Setting>)
    requires |FoundProfiles(env)| == 1
    ensures Run(env, table) == Outcome([], ProfileUnbound)
  {
    Selection.SingleProfileUnbound(FoundProfiles(env)[0], env.profileAnswer);
    assert FoundProfiles(env) == [FoundProfiles(env)[0]];
  }

  /**
   * With the corrected choice, a single profile found is backed up and hardened without any
   * prompt, exactly as an explicit choice of it would be.
   */
  lemma {:induction false} FixedHardensSingleProfile(env: Env, table: seq<Setting>)
    requires |FoundProfiles(env)| == 1
    ensures RunFixed(env, table) == BackupAndHarden(env, FoundProfiles(env)[0], table)
    ensures var p := FoundProfiles(env)[0];
      env.backupSucceeds ==>
        |RunFixed(env, table).effects| >= 1 && RunFixed(env, table).effects[0] == CopyTree(p, BackupDir(env.home, p))
  {
    var profiles := FoundProfiles(env);
    assert Discover(env) == Found(profiles);
    assert Selection.SelectProfileFixed(profiles, env.profileAnswer) == Selection.Chosen(profiles[0]);
  }

  /** The correction changes nothing when several profiles are found or none is. */
  lemma FixedAgreesOtherwise(env: Env, table: seq<Setting>)
    requires |FoundProfiles(env)| != 1
    ensures RunFixed(env, table) == Run(env, table)
  {
  }

  /**
   * With several profiles, an answer `int()` rejects ends the run with exit status 1, while an
   * integer outside the listed indices only returns, with status 0; neither touches anything.
   */
  lemma ProfileAnswerStops(env: Env, table: seq<Setting>)
    requires 1 < |FoundProfiles(env)|
    ensures Selection.ParseInt(env.profileAnswer) == Selection.ValueError ==>
      Run(env, table) == Outcome([], BadProfileInput) && ExitStatus(BadProfileInput) == 1
    ensures var parsed := Selection.ParseInt(env.profileAnswer);
      parsed.Int? && !(0 <= parsed.value < |FoundProfiles(env)|) ==>
        Run(env, table) == Outcome([], ProfileOutOfRange) && ExitStatus(ProfileOutOfRange) == 0
  {
  }

  /**
   * When the selected profile already has a `user.js` and the answer is neither `overwrite` nor
   * `temp`, the run stops after the backup, writes nothing, and exits with status 0.
   */
  lemma RejectedFileAnswerReturns(env: Env, table: seq<Setting>)
    requires SelectedProfile(env).Profile? && env.backupSucceeds
    requires Join(SelectedProfile(env).path, UserJs) in env.files
    requires Lower(env.fileAnswer) != "overwrite" && Lower(env.fileAnswer) != "temp"
    ensures var p := SelectedProfile(env).path;
      Run(env, table) == Outcome([CopyTree(p, BackupDir(env.home, p))], FileChoiceRejected)
    ensures ExitStatus(Run(env, table).stop) == 0
  {
    ExistingUserJsNeedsConsent(env.fileAnswer);
  }
}
