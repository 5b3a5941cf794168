/** Where ffhrd looks for Firefox's configuration root, by operating system (`get_ff_config_path`). */
module Platform {
  import opened Text
  import opened PosixPath

  /** The Linux (snap) location, before the home directory is substituted. */
  const LinuxConfigTemplate: string := "~" + LinuxConfigSuffix

  /** The part of the Linux location below the home directory. */
  const LinuxConfigSuffix: string := "/snap/firefox/common/.mozilla/firefox"

  /** The Windows location, used literally: `%APPDATA%` is never expanded. */
  const WindowsConfigPath: string := "%APPDATA%\\Mozilla\\Firefox\\Profiles\\"

  /** How the dispatch on `platform.system()` ends. */
  datatype ConfigPathOutcome =
    | ConfigPath(path: string)   // the function returns this path
    | NotImplemented             // `raise NotImplementedError` (Darwin)
    | UnknownSystem              // "[-] Unknown operating system detected!" and exit status 1

  /** `get_ff_config_path()` for the system name `system` and the user's home directory `home`. */
  function GetConfigPath(system: string, home: string): (r: ConfigPathOutcome)
    ensures r.ConfigPath? ==> r.path != []
  {
    match system
    case "Linux" =>
      assert LinuxConfigTemplate[..1] == "~" && LinuxConfigTemplate[1..] == LinuxConfigSuffix;
      ConfigPath(ExpandUser(home, LinuxConfigTemplate))
    case "Windows" => ConfigPath(WindowsConfigPath)
    case "Darwin" => NotImplemented
    case _ => UnknownSystem
  }

  /**
   * Linux and Windows give a path, Darwin gives `NotImplementedError`, any other name is
   * unknown; the Windows path is the literal one, the Linux path is the snap location under
   * the home directory.
   */
  lemma GetConfigPathSpec(system: string, home: string)
    ensures var r := GetConfigPath(system, home);
      && (r.ConfigPath? <==> system == "Linux" || system == "Windows")
      && (r.NotImplemented? <==> system == "Darwin")
      && (r.UnknownSystem? <==> system != "Linux" && system != "Windows" && system != "Darwin")
      && (system == "Windows" ==> r.path == WindowsConfigPath)
      && (system == "Linux" ==> EndsWith(r.path, LinuxConfigSuffix))
      && (system == "Linux" ==> StartsWith(r.path, RStripSlash(home)))
  {
    if system == "Linux" {
      LinuxConfigPathShape(home);
      var h := RStripSlash(home);
      assert (h + LinuxConfigSuffix)[..|h|] == h;
    }
  }

  /**
   * The Linux root is the home directory (without trailing slashes) followed by the snap
   * location, whatever the home directory is.
   */
  lemma {:induction false} LinuxConfigPathShape(home: string)
    ensures GetConfigPath("Linux", home)
         == ConfigPath(RStripSlash(home) + LinuxConfigSuffix)
  {
    assert LinuxConfigTemplate[1..] == LinuxConfigSuffix;
  }
}
