# JYAutotest core, modelled in Dafny

JYAutotest is a UI-automation scaffold for iOS, Android and Windows apps. It is
built on Airtest and pytest. Under its calls into the device driver, `adb` and
the report tooling lie small pieces of logic of its own. This project models
that logic and proves properties of it. Whatever the outside world supplies is
a parameter of the model: shell output, the `adb devices` listing, directory
listings, `list_app` results, clock readings and importable module names.

The modules follow the repository's files:

| module | file | what it models |
|---|---|---|
| `DeviceManager` | `device_manager.dfy` | `utils/device_manager.py`: parsing the `adb devices` listing, choosing the device to connect, resolving the platform and per-script log directory, the wait-for-device poll loop |
| `AndroidShell` | `android.dfy` | `core/andriod.py`: the parsers of `wm size`, `dumpsys battery`, `dumpsys wifi`, `pm list packages`, `dumpsys package`, `pm clear` and the window dump |
| `Installer` | `installer.dfy` | `utils/installer.py`: the `AppInstaller` class; platform validation, package selection, skip-if-not-installed uninstall, post-install version check |
| `TestHooks` | `conftest.dfy` | `conftest.py`: the `setup_test` fixture's platform inference and log directory; the report hook's report path and zip walk |
| `FileHeaders` | `file_headers.dfy` | `utils/add_file_headers.py`: the header decision, the rewrite, the `.py` walk |
| `TimeManagement` | `time_manager.dfy` | `utils/time_manager.py`: the once-only timestamp singleton and its `strftime` format |
| `EnvCheck` | `env_check.dfy` | `check_android_env.py`: the Python-version predicate, the missing-package list, the pass count of `main` |
| `DeviceConfig` | `device_config.dfy` | the `DEVICE_CONFIG` table of `config.py` |

Supporting modules model the Python built-ins the code relies on:
- `Wrappers`: `Option` and `Result`.
- `Text`: `str` operations, namely `in`, `split`/`join`, `strip`, `lower`/`upper`, `replace`, `startswith`/`endswith`, and decimal digits.
- `PosixPath`: `os.path.basename`, `dirname`, `join` and `splitext`.
- `Lists`: the filter-and-map that every append loop computes.
- `Patterns`: the regular expressions used, as leftmost, greedy matchers.

Methods that loop or update state are written as imperative Dafny. Each is
proved against a specification function, and the properties of the
specification are proved as lemmas. Shell output is an `Option<String>`, where
`None` stands for a shell call that raised.

## Model

| member | source | states |
|---|---|---|
| `DeviceManager.DeviceIdOf` | utils/device_manager.py:74 | the id is a tab-free prefix of the line, followed in the line by the first tab when shorter than the line |
| `DeviceManager.GetAndroidDevices` | utils/device_manager.py:57-85 | the loop returns the ids of the device lines after the header, in line order; a failed or missing `adb` gives `[]` |
| `DeviceManager.ListingBody` | utils/device_manager.py:72 | the lines after the header line of the stripped output; none iff that output has no newline, and no line holds a newline |
| `DeviceManager.ListedDevices` | utils/device_manager.py:71-75 | the ids of the device lines: at most one per line after the header, none holding a tab or a newline |
| `DeviceManager.DeviceListedIff` | utils/device_manager.py:72-75 | an id is listed iff some line after the header contains a tab and "device" and its text before the first tab is that id |
| `DeviceManager.DeviceIdsOfConcat` | utils/device_manager.py:71-75 | ids keep the order of their lines: the ids of two blocks of lines are the first block's ids followed by the second's |
| `DeviceManager.HeaderLineIgnored` | utils/device_manager.py:72 | whatever the first line says, the listing equals the ids of the lines after it; a header such as "x\tdevice" never contributes |
| `DeviceManager.SerialMentioningDeviceIsListed` | utils/device_manager.py:73-74 | a serial that itself contains "device" is listed whatever state follows its tab, e.g. "offline" |
| `DeviceManager.ConnectAndroidDevice` | utils/device_manager.py:97-119 | no devices gives False; the target is the truthy given id, else the first device; success iff the target is listed and the driver connects; a connected serial is always listed |
| `DeviceManager.ConnectedDeviceIsListed` | utils/device_manager.py:98-108 | only a serial named by a device line of the `adb devices` listing can be connected |
| `DeviceManager.InitDevice` | utils/device_manager.py:30-54 | succeeds iff the directory is made, the upper-cased platform is a table key and `cli_setup` holds or `auto_setup` returns, giving the key's URI and the log directory `log_dir/<script name>`; otherwise it fails with the first of: directory not made, platform rejected, set-up raised |
| `DeviceManager.InitDeviceRejectsMacOS` | utils/device_manager.py:34-42 | "macOS" never succeeds; once the directory is made it is rejected as a platform, since "MACOS" is not in the table |
| `DeviceManager.InitDeviceAcceptsKnownPlatforms` | utils/device_manager.py:38-49 | when the directory is made and the set-up succeeds, "iOS", "Android" and "Windows" are accepted; Android connects to "Android:///" |
| `DeviceManager.ScriptLogDirOf` | utils/device_manager.py:31-34 | for `dir/name.py`, when the set-up succeeds, the per-script log directory is `log_dir/name` |
| `DeviceManager.FirstExpired` | utils/device_manager.py:229 | the first clock reading at which the timeout has passed; every earlier reading is within it |
| `DeviceManager.WaitForDevice` | utils/device_manager.py:217-239 | returns True iff some poll before the deadline lists a device; it stops at the first such poll, and every poll before it was empty |
| `AndroidShell.ScreenResolution` | core/andriod.py:55-65 | "WxH" from the first `digits x digits` match; "unknown" iff no match or the shell call raised |
| `AndroidShell.ScreenResolutionIdempotent` | core/andriod.py:59-62 | parsing a reported resolution ("WxH" or "unknown") gives it back |
| `AndroidShell.ScreenResolutionOfSize` | core/andriod.py:58-61 | "Physical size"-style decimal width and height are read back exactly |
| `AndroidShell.BatteryLevel` | core/andriod.py:75-85 | the decimal value of the digit run after the first "level: " that is followed by a digit (for "level: x level: 42" that is 42); -1 iff no such occurrence or the call raised; never below -1 |
| `AndroidShell.BatteryLevelRoundTrip` | core/andriod.py:79-81 | a level printed after "level: " is read back |
| `AndroidShell.WifiEnabled` | core/andriod.py:95-101 | True iff the call returned and its lower-cased output contains "enabled" |
| `AndroidShell.WifiEnabledIgnoresCase` | core/andriod.py:98 | upper-casing the output does not change the answer |
| `AndroidShell.GetInstalledApps` | core/andriod.py:111-122 | the loop keeps the lines starting with "package:", in order, each with "package:" replaced; `[]` when the call raised |
| `AndroidShell.InstalledAppIff` | core/andriod.py:115-118 | a package is reported iff some "package:" line yields it |
| `AndroidShell.InstalledAppsOfConcat` | core/andriod.py:115-118 | packages keep the order of their lines |
| `AndroidShell.PackageEntryOfLine` | core/andriod.py:116-117 | the line "package:name" is kept and yields "name" |
| `AndroidShell.PackageEntryRemovesEveryTag` | core/andriod.py:117 | a second "package:" inside the line is removed as well, not only the prefix |
| `AndroidShell.GetAppInfo` | core/andriod.py:135-159 | `package_name` is always present; `version`, `version_code` and `install_path` are present iff their pattern matches, with the matched group; exactly `{package_name}` when the call raised |
| `AndroidShell.ClearAppCache` | core/andriod.py:191-197 | succeeds iff the call returned and its output contains "Success" |
| `AndroidShell.CurrentActivity` | core/andriod.py:247-257 | the first `[\w.]+/[\w.]+` match, which contains '/', or "unknown" iff there is none or the call raised |
| `AndroidShell.CurrentActivityIdempotent` | core/andriod.py:251-254 | parsing a reported activity gives it back |
| `AndroidShell.CurrentActivityOfName` | core/andriod.py:251-253 | "package/activity" of word characters and dots is read back whole |
| `Patterns.SearchTagRoundTrip` | core/andriod.py:79 | `tag` followed by a run of the class, then text not of the class, matches that run |
| `Patterns.SearchPairRoundTrip` | core/andriod.py:59 | a run, the separator and a run, alone, match as those two groups |
| `Patterns.SearchSpanIdempotent` | core/andriod.py:251 | searching the text of a match again finds that same text |
| `Installer.Connection` | utils/installer.py:44-55 | rejects "WINDOWS" without Windows support and every upper-cased platform outside the table; fails with the table URI when the driver's connect raises; otherwise connects to the table URI and sets the table options |
| `Installer.ConnectionIgnoresCase` | utils/installer.py:44-50 | the platform name's case does not matter |
| `Installer.FirstPackage` | utils/installer.py:82-86 | some file is a package of the version iff a result is returned; the result is the first listed file with the extension that contains the version |
| `Installer.LocatePackage` | utils/installer.py:68-88 | ios/android/windows map to .ipa/.apk/.exe regardless of case; other platforms are rejected; a raising `os.listdir` is reported; otherwise the first matching file joined to the packages directory, or not found |
| `Installer.ConnectAndLocateAgree` | utils/installer.py:47-48 | with Windows support on, `connect_device` and `find_package` accept the same platforms |
| `Installer.InstalledVersion` | utils/installer.py:144-147 | the version of the first entry whose bundle id matches, and none iff no entry matches |
| `Installer.LeadingFields` | utils/installer.py:163 | `version.split('.')[:3]` has one to three fields, none holding a dot |
| `Installer.VersionPrefix` | utils/installer.py:163 | the joined prefix starts the requested version, and splitting it on dots gives back the version's first three fields |
| `Installer.VersionPrefixOfShort` | utils/installer.py:163 | a version with at most three fields is its own prefix |
| `Installer.VersionPrefixOfRelease` | utils/installer.py:163 | for "a.b.c.rest" the check demands "a.b.c" |
| `Installer.VersionCheckIsTextual` | utils/installer.py:162-164 | requesting 2.9.2.19736 accepts an installed 2.9.26.1, although their third fields differ |
| `Installer.LeadingFieldsMatchIff` | utils/installer.py:162-163 | the field-wise check the comment describes holds iff the two three-field prefixes are equal |
| `Installer.LeadingFieldsMatchStricter` | utils/installer.py:162-163 | every installed version the field-wise check accepts also passes the textual check |
| `Installer.LeadingFieldsOfRelease` | utils/installer.py:163 | the first three fields of "a.b.c.rest" are a, b and c |
| `Installer.ThirdFieldDiffers` | utils/installer.py:162 | versions whose third fields differ fail the field-wise check, whatever follows |
| `Installer.FieldCheckRejectsOtherField` | utils/installer.py:162-164 | for 2.9.2.19736 the field-wise check rejects the installed 2.9.26.1 that the textual check accepts |
| `Installer.IsInstalled` | utils/installer.py:182-200 | on iOS, installed iff `list_app` returned and some entry has the bundle id; on Android, iff `check_app` returned True; never on Windows |
| `Installer.AppInstaller.constructor` | utils/installer.py:36-39 | no device yet; the packages directory is `BASE_DIR/pkgs`; the bundle id is "com.vv.work" |
| `Installer.AppInstaller.ConnectDevice` | utils/installer.py:41-62 | returns `Connection`'s outcome, including a failed driver connect; the device is replaced on success and unchanged on error |
| `Installer.AppInstaller.FindPackage` | utils/installer.py:64-92 | the for/return scan returns exactly `LocatePackage` |
| `Installer.AppInstaller.ScanInstalled` | utils/installer.py:140-147 | the for/break scan returns exactly `InstalledVersion` |
| `Installer.AppInstaller.UninstallApp` | utils/installer.py:172-205 | connects only when no device is set, and a failed connect is reported; a failed probe counts as not installed; it skips iff the app is not installed; iOS reports the found version |
| `Installer.AppInstaller.InstallApp` | utils/installer.py:115-170 | connection errors, a failed driver connect among them, and package errors, a raising `os.listdir` among them, propagate; Windows never succeeds; a raising post-install `list_app` is reported; succeeds iff a non-empty installed version starts with the requested version's first three fields, and returns it |
| `TestHooks.InferredPlatform` | conftest.py:30-37 | "Android" iff the lower-cased path has "android" or "andriod"; otherwise "Windows" iff it has "win"; otherwise "macOS" iff it has "mac"; otherwise "iOS" |
| `TestHooks.AndroidFolderWins` | conftest.py:32-33 | a path under an "andriod" folder runs on Android, whatever else it mentions |
| `TestHooks.WinFolderIsWindows` | conftest.py:34-35 | a path mentioning "win" in any case, and no Android keyword, is a Windows test |
| `TestHooks.LogDir` | conftest.py:24-25 | the log directory starts with the test file's directory and is "log" or ends in "/log" |
| `TestHooks.LogDirOf` | conftest.py:24-25 | the log directory of `dir/file` is `dir/log` |
| `TestHooks.SetupTest` | conftest.py:20-42 | device set-up fails iff the inferred platform is "macOS" or a directory or the Airtest set-up fails; a failed `makedirs` of the log directory is reported with that directory, then one of the per-script directory with `<log dir>/<script name>`, then a rejected platform; otherwise the script log directory is `<test dir>/log/<script name>` |
| `TestHooks.ReportFile` | conftest.py:56-72 | a report path exists iff the phase is "call" and `TEST_TIMESTAMP` is set and non-empty |
| `TestHooks.ReportFileLayout` | conftest.py:59-72 | the report of `dir/stem.py` is `EXPORT_DIR/stem.py/<timestamp>/stem.log/log.html` |
| `TestHooks.Pruned` | conftest.py:93-94 | pruning keeps a subset of the subdirectories, dropping at most one |
| `TestHooks.PruneCache` | conftest.py:93-94 | the conditional removal returns the subdirectory list the walk then descends into, exactly `Pruned` |
| `TestHooks.PrunedKeeps` | conftest.py:93-94 | with unique names, pruning keeps exactly the subdirectories not named `__pycache__` |
| `TestHooks.ListFiles` | conftest.py:96-99 | one entry per file of the current directory, in order |
| `TestHooks.ZipWalk` | conftest.py:91-101 | the walk writes exactly the entries of `ZipEntries`, top-down and in listing order |
| `TestHooks.ZipEntryIff` | conftest.py:91-99 | in a tree with unique names, the zip holds exactly the files under no `__pycache__` directory, each by its path relative to the report directory |
| `TestHooks.ZipEntryNonEmpty` | conftest.py:96-99 | every entry names a file |
| `TestHooks.NoCacheInZip` | conftest.py:92-94 | no zip entry passes through a `__pycache__` directory |
| `FileHeaders.FirstTwoLines` | utils/add_file_headers.py:17-20 | the first two lines of the split content, or all lines when there are fewer |
| `FileHeaders.NeedsHeader` | utils/add_file_headers.py:20-25 | the header is written unless the content has two lines and both carry a marker |
| `FileHeaders.WithHeader` | utils/add_file_headers.py:25-27 | the result always passes the marker test, and differs from the content iff the content failed it |
| `FileHeaders.AddHeaderToFile` | utils/add_file_headers.py:10-30 | the loop over the first two lines rewrites iff fewer than two carry a marker; the new content is the header followed by the old |
| `FileHeaders.HeaderSatisfiesCheck` | utils/add_file_headers.py:11-25 | content behind the tool's own header passes the test |
| `FileHeaders.WithHeaderIdempotent` | utils/add_file_headers.py:11-30 | a second run leaves the file unchanged |
| `FileHeaders.WithHeaderKeepsContent` | utils/add_file_headers.py:11-27 | the original content is kept whole, as a suffix |
| `FileHeaders.ShebangOnlyGetsFullHeader` | utils/add_file_headers.py:20-27 | a file with only the shebang line gets the whole header again |
| `FileHeaders.ProcessDirectory` | utils/add_file_headers.py:32-37 | every `.py` file the walk reaches gets the header treatment; every other file and the set of paths are unchanged |
| `FileHeaders.OnlyPythonFilesTouched` | utils/add_file_headers.py:35-37 | a file whose name does not end in ".py" is never touched |
| `TimeManagement.Padded` | utils/time_manager.py:15 | a strftime field is `width` digits |
| `TimeManagement.PaddedRoundTrip` | utils/time_manager.py:15 | a number below `10^width` is read back from its padded field |
| `TimeManagement.Format` | utils/time_manager.py:15 | the timestamp has 19 characters |
| `TimeManagement.ParseFormat` | utils/time_manager.py:14-15 | the timestamp "YYYY-mm-dd-HH_MM_SS" determines the clock reading it came from |
| `TimeManagement.TimeManager.constructor` | utils/time_manager.py:8-9 | before first use, neither the instance nor the timestamp is set |
| `TimeManagement.TimeManager.New` | utils/time_manager.py:11-16 | the first call creates the instance and records the time; every later call returns that instance and keeps the timestamp |
| `TimeManagement.TimeManager.GetTimestamp` | utils/time_manager.py:18-22 | returns the recorded timestamp, so every call returns the same value; before any instantiation it creates the instance, and the result is always set |
| `EnvCheck.CheckRequiredPackages` | check_android_env.py:73-102 | the missing list is the required packages whose import name fails, in list order; True iff nothing is missing |
| `EnvCheck.CollectMissing` | check_android_env.py:87-95 | the loop appends exactly the packages whose `-`→`_` module name is not importable |
| `EnvCheck.MissingIff` | check_android_env.py:78-95 | a package is missing iff it is required and its module name cannot be imported |
| `EnvCheck.NothingMissing` | check_android_env.py:97-102 | with every module name importable nothing is missing |
| `EnvCheck.PillowLookedUpAsPillow` | check_android_env.py:83-91 | "pillow" is imported under the name "pillow" and is missing whenever no module of that name imports |
| `EnvCheck.OpenCvLookedUpByDistributionName` | check_android_env.py:82-91 | "opencv-contrib-python" is imported as "opencv_contrib_python" and is missing whenever no module of that name imports |
| `EnvCheck.MissingByImportNameIff` | check_android_env.py:87-95 | with the modules the packages install (`PIL`, `cv2`), a package is missing iff it is required and that module cannot be imported |
| `EnvCheck.PillowAndOpenCvFound` | check_android_env.py:82-91 | with those module names, installed Pillow and OpenCV are not reported missing |
| `EnvCheck.CountTrue` | check_android_env.py:237 | `sum(results)` is at most the number of results |
| `EnvCheck.AllPassedIff` | check_android_env.py:237-240 | passed equals total iff every result is True |
| `EnvCheck.RunChecks` | check_android_env.py:222-245 | one result per check; a raising check records False; "all passed" iff every check returned True |
| `EnvCheck.PythonVersionAccepted` | check_android_env.py:24 | the check as written is the intended "3.7 or later" test restricted to minor versions of at least 7 |
| `EnvCheck.PythonFourZeroRejected` | check_android_env.py:24 | as written, 4.0 (and every x.y with x ≥ 4, y < 7) is rejected although it is later than 3.7 |
| `EnvCheck.CheckAgreesOnPython3` | check_android_env.py:24 | for Python 3 the check as written and the intended one agree |
| `EnvCheck.AtLeastPython37Monotone` | check_android_env.py:24-29 | the intended test accepts every version at or after an accepted one |

## Left out

- I/O and foreign calls are inputs, not models. This covers the `adb` subprocess, `device.shell`, the Airtest driver (`connect_device`, `list_app`, `check_app`, `install_app`, `uninstall_app`), `cli_setup`/`auto_setup`, `os.listdir`, `os.walk`, `os.makedirs`, `time.time`/`sleep`, `datetime.now` and `__import__`. Their results are parameters: whether the driver's connect succeeds is `connects`; whether the fixture's `makedirs` succeeds is `logDirMade`, and whether `init_device`'s `makedirs`, `cli_setup` and `auto_setup` succeed is a `SetupEnv`; `os.listdir` of the packages directory and the post-install `list_app` are `Option`s, `None` when the call raised.
- Logging, `print`, zip writing, the temporary zip file and `allure.attach` are not modelled. They do not affect the values the model computes.
- Installer.AppInstaller.InstallApp: the driver's install and uninstall calls are taken to succeed. An exception raised by them is not modelled.
- Installer.AppInstaller.InstallApp: `list_app` entries are taken to be records whose first field is the bundle id and whose third is the version, on Android as on iOS. If the Android driver returns bare package-name strings, `app[0]` is a single character and the Android install never finds its app; that outcome is not modelled.
- EnvCheck.CheckRequiredPackages: it keeps the import names as written (see Findings); the corrected names are stated beside it as `ImportName`.
- Installer.AppInstaller.InstallApp: the version check is modelled as written, textually (see Findings); the field-wise check is stated beside it.
- Installer.AppInstaller.UninstallApp: what the device reports before the uninstall comes in as an `AppProbe`. On iOS, `list_app` entries are records whose first and third fields the code reads.
- `get_installed_version`, the module-level `install_app`/`uninstall_app` wrappers, `get_device_info`, `check_adb_connection`, `restart_adb` and `disconnect` are not modelled. They are calls into the driver or `adb` with no logic of their own.
- The other helpers of `core/andriod.py` are not modelled: `get_device_info`, `force_stop_app`, `grant_permission`, `revoke_permission`, `enable_wifi`, `disable_wifi`, `set_airplane_mode` and `take_bug_report`. They run a shell command and return success.
- `get_memory_info` is not modelled, because its MB conversion is floating-point arithmetic.
- The other environment checks are not modelled: `check_adb_installation`, `check_android_devices`, `check_device_capabilities`, `check_airtest_capabilities` and `print_environment_summary`. They probe the machine, and `main` sees only what each returned or that it raised (`CheckOutcome`).
- `check_python_version` reads `sys.version_info`; the model takes major and minor as inputs.
- Case mapping (`lower`/`upper`) covers ASCII letters only. Python also maps other Unicode letters.
- AndroidShell.BatteryLevel: `\d` is modelled as the ASCII digits; Python's `\d` also matches other Unicode decimal digits.
- AndroidShell.ScreenResolution: the same ASCII reading of `\d` in the `wm size` pattern.
- AndroidShell.GetAppInfo: the same ASCII reading of `\d` in the `versionCode` pattern.
- AndroidShell.BatteryLevelRoundTrip: Python 3.11 and later refuse `int()` of more than 4300 digits, so the source would return -1 for such a level; the model reads every digit run back.
- AndroidShell.CurrentActivity: `\w` is modelled as ASCII letters, digits and `_`; Python's `\w` matches all Unicode word characters.
- `core/base.py`, `core/ios.py`, `core/popup_handler.py`, `utils/downloader.py`, `utils/logger.py`, the test scripts, `learn_airtest.py`, `launch.py` and `runner.py` are not part of this model. They are driver, process and network plumbing.
- The rest of `config.py` is not modelled; only the device table is.
- DeviceManager.WaitForDevice: it requires that some clock reading reaches the timeout. This is true of a real clock, but a finite sequence of readings has to state it.
- DeviceManager.InitDevice: `makedirs`, `cli_setup` and `auto_setup` are reduced to their success or failure; their side effects on the file system and on Airtest's global state are not modelled.
- TestHooks.PruneCache: the source removes `__pycache__` from `os.walk`'s list in place; the model returns the pruned list as a new value.
- TestHooks.ZipEntryIff: it assumes subdirectory names are unique within a directory (`WellFormed`), as they are on disk. `os.walk`'s tree is a `Dir` value, so links and errors during the walk are not modelled.
- TestHooks.ReportFile: the `os.path.exists` test on the report, and the handling when it is missing, are not modelled. The model gives only the path looked up.
- FileHeaders.ProcessDirectory: files are opened in text mode as UTF-8, and a file that does not decode raises out of the walk, which has no `try`; the model takes every file to decode and does not model that abort.
- FileHeaders.WithHeaderKeepsContent: the content is the decoded text after universal-newline reading, so a CRLF file is kept with LF line ends, not byte for byte.
- FileHeaders.ProcessDirectory: it requires every walked file to be in the file map (`WalkInFiles`), as `os.walk` lists existing files. A walk is a sequence of `(root, files)` steps.
- TimeManagement.ParseFormat: it is stated for four-digit years (1000–9999), where `%Y` gives exactly four digits.
- TimeManagement.TimeManager.GetTimestamp: the class-level attributes are the fields of one `TimeManager` object. Python's `cls()` re-entry through `__new__` is the call to `New`.

## Findings

| source | as written | input that shows it | evidently intended | confidence | as-written member | corrected member |
|---|---|---|---|---|---|---|
| check_android_env.py:78-91 | `__import__(package.replace('-', '_'))` imports "pillow" and "opencv_contrib_python" | an environment with Pillow and opencv-contrib-python installed, whose modules are `PIL` and `cv2`: both are reported missing | each package is looked up under the module it installs, `PIL` and `cv2` | not executed | `EnvCheck.PillowLookedUpAsPillow` and `EnvCheck.OpenCvLookedUpByDistributionName` (about `EnvCheck.MissingPackages`) | `EnvCheck.PillowAndOpenCvFound` and `EnvCheck.MissingByImportNameIff` (about `EnvCheck.MissingByImportName`) |
| utils/installer.py:162-164 | the installed version must start with `'.'.join(version.split('.')[:3])`, a textual prefix | requested 2.9.2.19736, installed 2.9.26.1: accepted, though the third fields are 2 and 26 | the first three dot-separated fields are equal, as the comment at line 162 says | not executed | `Installer.VersionCheckIsTextual` (about `Installer.VersionPrefix`) | `Installer.LeadingFieldsMatchStricter` and `Installer.FieldCheckRejectsOtherField` (about `Installer.LeadingFieldsMatch`, with `Installer.LeadingFieldsMatchIff`) |
| check_android_env.py:24 | accepts iff `major >= 3 and minor >= 7` | Python 4.0 (and any 4.x with x < 7) is rejected | Python 3.7 or later, as the failure message "Python 3.7+" says | not executed | `EnvCheck.PythonFourZeroRejected` (about `EnvCheck.PythonVersionAccepted`) | `EnvCheck.AtLeastPython37Monotone` (about `EnvCheck.AtLeastPython37`, with `EnvCheck.CheckAgreesOnPython3`) |
