# ffhrd, modelled in Dafny

`ffhrd.py` hardens a Firefox profile. It finds Firefox's configuration root for the running
operating system and lists the profile directories under it. When there are several it asks the
user which one to use. It copies that profile to a backup directory, then writes a `user.js` file
of `user_pref(...)` lines into it. If a `user.js` already exists, it asks the user first.

This project models the decisions in that script as Dafny functions and methods over the answers
the operating system and the user give, and proves properties about them:

- `Platform.GetConfigPath`: the dispatch on `platform.system()`.
- `Profiles.GetProfiles`: the profile filter over a directory scan.
  It is a method with a loop, proved against `Profiles.ProfilesOf`.
- `Settings.GetHardenSettings`: the serialiser of an arbitrary `(key, value)` table.
  It is a method with a loop, proved against `Settings.Serialize`.
  A parser `Settings.ParseSettings` is given beside it for the round trip.
- `Selection.SelectProfile`: the profile choice of `harden`.
  It includes a model of Python's `int()` on ASCII text (`Selection.ParseInt`).
- `Writer.ChooseTargetFile` and `Writer.BackupDir`: the choice of target file in `harden_profile`
  and the backup directory name.
- `Harden.Run`: one whole run. It is a function of an `Env` record holding the system name,
  the home directory, the directory scans, the existing files and the typed answers.
  It returns the file-system effects (a tree copy, a file write) and how the run stopped.
- `Text` and `PosixPath`: the Python string and `posixpath` operations these rely on
  (`endswith`, `in`, `split`, `lower`, `os.path.join`, `os.path.expanduser`).

Four behaviours of the code that are easy to misread:

- The profile test runs on the full path `f.path`. A configuration root whose own path contains
  `profile` therefore makes every directory under it a profile
  (`Profiles.RootNamedProfileSelectsAll`).
- With exactly one profile found, nothing is selected. `profile` is assigned only inside the
  `len(ff_profiles) > 1` branch, so line 241 raises `UnboundLocalError`. This is listed under
  Findings.
- A non-integer answer exits with status 1. An out-of-range integer prints "Wrong choice." and
  returns normally, with status 0.
- The table value `en-US, en` is stored without quotes, so it is emitted as a bare token list.

## Model

| member | source | states |
|---|---|---|
| `Platform.GetConfigPath` | ffhrd.py:131-145 | a returned configuration path is never empty |
| `Platform.GetConfigPathSpec` | ffhrd.py:134-145 | only Linux and Windows give a path, only Darwin gives `NotImplementedError`, every other name is an unknown system; the Windows path is the literal `%APPDATA%\Mozilla\Firefox\Profiles\`, the Linux path is the home directory followed by `/snap/firefox/common/.mozilla/firefox` |
| `Platform.LinuxConfigPathShape` | ffhrd.py:136 | the Linux path is exactly the home directory, trailing slashes dropped, followed by the snap location |
| `PosixPath.ExpandUser` | ffhrd.py:136 | `~`-expansion never gives an empty path and keeps the part after `~` at the end |
| `PosixPath.RStripSlashSpec` | ffhrd.py:242 | stripping the home directory's trailing slashes leaves a prefix followed only by `/` |
| `PosixPath.JoinSpec` | ffhrd.py:174 | `os.path.join(a, b)` ends with `b` and, for a relative `b`, starts with `a` |
| `Profiles.Subfolders` | ffhrd.py:150 | every path kept is the path of a directory entry of the scan, and no more paths than entries are kept |
| `Profiles.ProfilesOf` | ffhrd.py:150-156 | every reported profile is a directory entry of the scan whose full path passes the name test; `ProfilesMembership` gives the converse |
| `Profiles.GetProfiles` | ffhrd.py:148-156 | the loop appending matching folders returns exactly the filter of the scan's directories |
| `Profiles.ProfilesMembership` | ffhrd.py:150-154 | a path is reported exactly when the scan holds a directory with that full path and the path ends with `.default` or contains `profile` |
| `Profiles.NonDirectoryExcluded` | ffhrd.py:150 | a path carried only by non-directory entries is never reported, whatever its name |
| `Profiles.ProfilesPreserveScanOrder` | ffhrd.py:150-156 | the reported profiles are a subsequence of the scanned paths, in scan order |
| `Profiles.MatchingAppend` | ffhrd.py:152-154 | filtering a concatenation is the concatenation of the filtered parts |
| `Profiles.RootNamedProfileSelectsAll` | ffhrd.py:153 | because the test sees the full path, a root containing `profile` makes every directory under it a profile |
| `Settings.PrefLine` | ffhrd.py:167 | a preference line ends with `);` and a newline and is 17 characters longer than key and value together; `ParsePrefLineSpec` reads it back |
| `Settings.ParsePrefLineSpec` | ffhrd.py:167 | a line `user_pref("<key>", <value>);` is read back as exactly its key and value, for a key without `"` and a value without a newline |
| `Settings.Serialize` | ffhrd.py:159-169 | the text starts with the header and, when the table is non-empty, ends with `);` and a newline; `RoundTrip` gives its inverse |
| `Settings.GetHardenSettings` | ffhrd.py:159-169 | the header followed by one appended line per entry equals the serialisation of the whole table |
| `Settings.SerializeShape` | ffhrd.py:160-167 | the output always starts with the header `// Created by ffhrd - github.com/jxdv/ffhrd` and a blank line, then the first entry's `user_pref("<key>", <value>);` line, then the rest in order |
| `Settings.LinesAppend` | ffhrd.py:162-167 | the lines of a concatenated table are the lines of each part, first part first |
| `Settings.NewlineCount` | ffhrd.py:160-167 | with no newline in any key or value, the output holds exactly N + 2 newlines for N entries |
| `Settings.RoundTrip` | ffhrd.py:162-167 | reading the output back recovers the table, provided no key holds `"` and no value holds a newline |
| `Settings.SerializeInjective` | ffhrd.py:162-167 | two such tables give the same output only if they are equal |
| `Settings.UnescapedKeyForgesLine` | ffhrd.py:167 | nothing is escaped: a key holding `", x);` and a newline produces the same file as a two-entry table |
| `Settings.ValueNotQuoted` | ffhrd.py:167 | the value `en-US, en` is emitted bare, without quotes |
| `Selection.ParseInt` | ffhrd.py:229 | `int()` of the answer can give an integer only if the answer holds an ASCII digit; `ParseDecimal` gives its inverse |
| `Selection.ParseDecimal` | ffhrd.py:229 | `int()` reads the decimal form of any integer within CPython's 4300-digit bound back as that integer |
| `Selection.NoDigitNoInt` | ffhrd.py:229-232 | an answer without an ASCII digit raises `ValueError` |
| `Selection.TooManyDigits` | ffhrd.py:229 | more than 4300 digits raise `ValueError` |
| `Selection.FileSeparatorNotSkipped` | ffhrd.py:229 | `int()` skips only space and `\t` to `\r`, so an answer starting with the control character `\x1c` raises `ValueError` |
| `Selection.SelectProfile` | ffhrd.py:221-238 | a chosen profile is one of the profiles; a choice, an input error or a wrong choice can only happen with more than one profile |
| `Selection.SelectByIndex` | ffhrd.py:234-238 | typing index i of several profiles selects exactly the i-th one |
| `Selection.SelectOutOfRange` | ffhrd.py:234-236 | any integer outside `0..len-1`, negative ones included, is a wrong choice, not an input error |
| `Selection.SelectIncorrectIff` | ffhrd.py:228-232 | with several profiles, the run ends with "Incorrect input.." exactly when `int()` raises `ValueError` on the answer |
| `Selection.SelectNonInteger` | ffhrd.py:228-232 | with several profiles, an answer with no ASCII digit is an input error |
| `Selection.SingleProfileUnbound` | ffhrd.py:221 | with exactly one profile no profile is bound, whatever was typed |
| `Selection.SelectProfileFixed` | ffhrd.py:221-238 | the corrected choice takes a single profile without asking, agrees with the code for several, and binds nothing only when there are no profiles |
| `Writer.ChooseTargetFile` | ffhrd.py:173-187 | the target, when there is one, is `user.js` or `user_temp.js` |
| `Writer.FreshProfileGetsUserJs` | ffhrd.py:173-177 | with no existing `user.js` the target is `user.js`, whatever was typed |
| `Writer.ExistingUserJsNeedsConsent` | ffhrd.py:177-187 | with an existing `user.js`: `user.js` exactly on `overwrite`, `user_temp.js` exactly on `temp`, and no write on anything else, all after lower-casing |
| `Writer.AnswerCaseInsensitive` | ffhrd.py:179 | answers equal after lower-casing lead to the same choice |
| `Writer.PaddedAnswerRejected` | ffhrd.py:179-187 | `TEMP` picks `user_temp.js`, but a space-padded ` temp` is a wrong choice, since the answer is not stripped |
| `Writer.BackupDir` | ffhrd.py:241-242 | the backup directory is the home directory without trailing slashes, then `/ffhrd/`, the profile path's last `/`-segment and `-backup` |
| `Writer.BackupDirShape` | ffhrd.py:241-242 | the backup directory is `<home>/ffhrd/<name>-backup`, where `<name>` is the text after the profile path's last `/` |
| `Writer.ToolDir` | ffhrd.py:242 | `os.path.join(os.path.expanduser("~"), "ffhrd")` is the home directory, trailing slashes dropped, followed by `/ffhrd` |
| `Text.Lower` | ffhrd.py:179 | lower-casing keeps the length, turns each ASCII capital into its lower-case letter, and changes no other character |
| `Text.ContainsIff` | ffhrd.py:153 | `sub in s` holds exactly when `sub` occurs at some position of `s` |
| `Text.LastSegmentSpec` | ffhrd.py:241 | `split("/")[-1]` holds no `/`, ends the string, and is the whole string or follows a `/` |
| `Text.SplitJoin` | ffhrd.py:241 | joining the pieces of a split with the separator gives the original string |
| `Harden.ExitStatus` | ffhrd.py:204-247 | the exit status is 0 exactly for a hardened profile and for the two "Wrong choice." returns, and 1 otherwise |
| `Harden.Discover` | ffhrd.py:210-218 | profiles are found exactly when the configuration root resolves, was scanned and its filter is non-empty, and then they are that filter's result; `NoProfiles` means the filter is empty; every other early stop is a platform, configuration-root or scan failure |
| `Harden.FoundProfilesMembership` | ffhrd.py:150-218 | a path is a found profile exactly when the configuration root's scan holds a directory with that full path that passes the name test |
| `Harden.SelectedIsFound` | ffhrd.py:210-238 | the configuration-root emptiness check never fires; a selected profile is the found profile at the typed index, and several were found |
| `Harden.HardenProfile` | ffhrd.py:172-201 | `harden_profile` ends hardened, rejected or with a write error; it writes at most once, exactly when it ends hardened, and then the serialised table into the profile's `user.js` or `user_temp.js` |
| `Harden.HardenProfileEffects` | ffhrd.py:172-201 | `harden_profile` writes nothing, or writes exactly the serialised table to the chosen file, and reports success exactly then; it ends "Wrong choice." exactly on a rejected answer and with a write error exactly when the chosen file cannot be written |
| `Harden.BackupAndHarden` | ffhrd.py:240-247 | the run stops with a backup failure exactly when the copy fails; otherwise the backup of the profile into its backup directory comes first, and a hardened run makes exactly two changes |
| `Harden.Run` | ffhrd.py:204-247 | a run makes at most two changes; the first is a backup of the selected profile, and a hardened run's second is the write of the serialised table; `RunEffects` gives the full shape |
| `Harden.ProfileAnswerStops` | ffhrd.py:228-236 | with several profiles, an answer `int()` rejects stops the run with nothing touched and exit status 1, and an integer outside the indices stops it with nothing touched and exit status 0 |
| `Harden.RejectedFileAnswerReturns` | ffhrd.py:177-187 | with an existing `user.js` and an answer that is neither `overwrite` nor `temp`, the run makes only the backup, writes nothing and exits with status 0 |
| `Harden.RunEffects` | ffhrd.py:204-247 | a run changes nothing, or backs up the selected profile to its backup directory and only then writes the serialised table into that profile |
| `Harden.WritesOnlyWhenHardened` | ffhrd.py:189-201 | in the model, where a failed write changes nothing, a run writes a file exactly when it ends hardened |
| `Harden.WritesSerializedTable` | ffhrd.py:189-193 | whatever a run writes is the serialised table |
| `Harden.BackupBeforeWrite` | ffhrd.py:240-247 | a hardened run backs up a found profile and then writes `user.js` or `user_temp.js` into that same profile |
| `Harden.TargetPathsDiffer` | ffhrd.py:184-190 | the `user_temp.js` path is never the `user.js` path |
| `Harden.NoClobberWithoutConsent` | ffhrd.py:177-193 | an existing `user.js` is written over only when the answer, lower-cased, is `overwrite` |
| `Harden.EarlyStopsChangeNothing` | ffhrd.py:210-243 | in the model, where a failed copy changes nothing, platform, scan, selection and backup failures leave the file system untouched |
| `Harden.SingleProfileNeverHardened` | ffhrd.py:221-241 | with exactly one profile found the run stops on the unbound `profile` before any backup |
| `Harden.FixedHardensSingleProfile` | ffhrd.py:221-247 | with the corrected choice a single profile is backed up and hardened without a prompt |
| `Harden.FixedAgreesOtherwise` | ffhrd.py:221-238 | the correction changes nothing unless exactly one profile is found |

## Findings

| source | as written | input that shows it | evidently intended | confidence | as-written member | corrected member |
|---|---|---|---|---|---|---|
| ffhrd.py:221-241 | `profile` is assigned only inside `if len(ff_profiles) > 1`, and line 241 reads it unconditionally | a configuration root holding exactly one directory named `abc.default` | a single profile is backed up and hardened without a prompt | high; not executed | `Harden.SingleProfileNeverHardened` | `Harden.FixedHardensSingleProfile` |

`Harden.Run` keeps the code's behaviour, so this case ends in `ProfileUnbound`.
`Harden.RunFixed` is the same run with `Selection.SelectProfileFixed` in place of
`Selection.SelectProfile`. `Harden.FixedAgreesOtherwise` shows it differs only in that case.

## Left out

- Terminal I/O (`input`, `print`, the colour escapes, the logo) is not modelled. Typed answers are
  fields of `Harden.Env`; messages become the `Harden.Stop` values.
- File-system and OS calls are inputs, not operations:
  - `platform.system()` is `Env.system`, and the home directory is `Env.home`.
  - `os.scandir` results are `Env.scans`, and `os.path.isfile` facts are `Env.files`.
  - Whether `shutil.copytree` and the file write succeed is given as two booleans.
- `shutil.copytree` is reduced to one `CopyTree` effect. Symlink preservation, merging into an
  existing backup and partial copies are not modelled.
- A failed or interrupted write is modelled as writing nothing. A partial file left behind by a
  crash is not modelled.
- Process control is not modelled: the Python version check, `KeyboardInterrupt` with exit status
  130, and the `sys.exit` calls. Exits are `Harden.Stop` values with `Harden.ExitStatus`.
- The 66 literal entries of `FIREFOX_CONFIG_SETTINGS` are not modelled. The serialiser is proved for
  any table. The description strings are never emitted, so the table is a sequence of `(key, value)`.
- `Text.Lower`: `str.lower()` is modelled for ASCII letters only. Other Unicode case mappings are
  not modelled.
- `Harden.WritesOnlyWhenHardened`: a failed write is modelled as no change. In Python,
  `open(fullpath, "w")` at line 192 creates or truncates the file before `f.write` can fail, so a
  `WriteFailed` run can leave an empty `user.js` behind after `overwrite`.
- `Harden.EarlyStopsChangeNothing`: a failed backup is modelled as no change. `shutil.copytree`
  raises only after copying every file it could, so a `BackupFailed` run can leave a partial backup.
- `Selection.TooManyDigits`: the 4300-digit bound is CPython's default only from 3.10.7 on, and
  it can be configured. The version check at line 206 admits 3.10.0 to 3.10.6, where a
  5000-digit answer is read as an integer and so is a wrong choice with exit status 0.
- `Selection.ParseInt`: `int()` is modelled for ASCII text. Non-ASCII digits and non-ASCII
  whitespace, which Python also accepts, are not modelled.
- `PosixPath.ExpandUser`: only the `~` and `~/...` forms with a known home directory are modelled.
  The `~user` form and the password-database fallback are not modelled.
- `PosixPath.Join`: path joining follows POSIX rules. On Windows, `ntpath.join` and backslash
  separators apply; they are not modelled.
- Scan order is whatever order `Env.scans` lists. It is kept, not sorted.
