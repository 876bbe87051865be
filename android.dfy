/**
 * The Android helpers that read a value out of an `adb shell` command's
 * output: screen resolution, battery level, Wi-Fi state, third-party
 * packages, package details, the result of clearing an app's data and the
 * focused activity. The output is an input: `Some(text)`, or `None` when the
 * shell call raised (every helper catches that and returns its fallback).
 */
module AndroidShell {
  import opened Wrappers
  import opened Text
  import opened Lists
  import opened Patterns

  /** The fallback of the resolution and activity helpers. */
  const Unknown: String := "unknown"

  // ---------------------------------------------------------------------------
  // get_screen_resolution

  /** `get_screen_resolution` over the output of `wm size`: "WxH" from the first `(\d+)x(\d+)` match. */
  function ScreenResolution(output: Option<String>): (r: String)
    ensures r == Unknown <==> output.None? || SearchPair(output.value, Digit, 'x').None?
    ensures output.Some? && SearchPair(output.value, Digit, 'x').Some? ==>
              r == SearchPair(output.value, Digit, 'x').value.0 + "x" + SearchPair(output.value, Digit, 'x').value.1
  {
    if output.None? then Unknown
    else match SearchPair(output.value, Digit, 'x')
      case None => Unknown
      case Some(groups) =>
        var r := groups.0 + "x" + groups.1;
        assert r[0] != Unknown[0];
        r
  }

  /** A reported resolution reads back as itself: parsing "WxH" gives "WxH", parsing "unknown" gives "unknown". */
  lemma ScreenResolutionIdempotent(output: Option<String>)
    ensures ScreenResolution(Some(ScreenResolution(output))) == ScreenResolution(output)
  {
    var r := ScreenResolution(output);
    if r == Unknown {
      NoSeparatorNoPair(Unknown, Digit, 'x');
    } else {
      var groups := SearchPair(output.value, Digit, 'x').value;
      SearchPairRoundTrip(groups.0, groups.1, Digit, 'x');
    }
  }

  /** The width and height printed as decimals are read back. */
  lemma ScreenResolutionOfSize(width: nat, height: nat)
    ensures ScreenResolution(Some(DecimalString(width) + "x" + DecimalString(height)))
         == DecimalString(width) + "x" + DecimalString(height)
  {
    SearchPairRoundTrip(DecimalString(width), DecimalString(height), Digit, 'x');
  }

  // ---------------------------------------------------------------------------
  // get_battery_level

  /** `get_battery_level` over the output of `dumpsys battery | grep level`: `int` of the digits after the first "level: ", else -1. */
  function BatteryLevel(output: Option<String>): (r: int)
    ensures r >= -1
    ensures r == -1 <==> output.None? || SearchTag(output.value, "level: ", Digit).None?
    ensures r >= 0 ==> r == DecimalValue(SearchTag(output.value, "level: ", Digit).value)
  {
    if output.None? then -1
    else match SearchTag(output.value, "level: ", Digit)
      case None => -1
      case Some(digits) => DecimalValue(digits)
  }

  /** A level printed after "level: " is read back. */
  lemma BatteryLevelRoundTrip(level: nat)
    ensures BatteryLevel(Some("level: " + DecimalString(level))) == level
  {
    SearchTagRoundTrip("level: ", DecimalString(level), [], Digit);
    assert "level: " + DecimalString(level) + [] == "level: " + DecimalString(level);
    DecimalRoundTrip(level);
  }

  // ---------------------------------------------------------------------------
  // get_wifi_status

  /** `get_wifi_status`: the lower-cased output of `dumpsys wifi | grep "Wi-Fi is"` contains "enabled". */
  function WifiEnabled(output: Option<String>): (r: bool)
    ensures r <==> output.Some? && exists i :: OccursAt(Lower(output.value), "enabled", i)
  {
    output.Some? && Contains(Lower(output.value), "enabled")
  }

  /** The test ignores case: upper-cased output gives the same answer. */
  lemma WifiEnabledIgnoresCase(text: String)
    ensures WifiEnabled(Some(Upper(text))) == WifiEnabled(Some(text))
  {
    LowerOfUpper(text);
  }

  // ---------------------------------------------------------------------------
  // get_installed_apps

  /** A line of `pm list packages -3` names a package when it starts with "package:". */
  predicate IsPackageLine(line: String) {
    StartsWith(line, "package:")
  }

  /** `line.replace('package:', '')`: every occurrence removed, not only the leading one. */
  function PackageEntry(line: String): String {
    Replace(line, "package:", "")
  }

  /** `output.strip().split('\n')` */
  function OutputLines(output: String): seq<String> {
    Split(Strip(output), '\n')
  }

  /** `get_installed_apps` over the output of `pm list packages -3`. */
  method GetInstalledApps(output: Option<String>) returns (packages: seq<String>)
    ensures output.None? ==> packages == []
    ensures output.Some? ==> packages == FilterMap(OutputLines(output.value), IsPackageLine, PackageEntry)
  {
    packages := [];
    if output.Some? {
      var lines := OutputLines(output.value);
      for i := 0 to |lines|
        invariant packages == FilterMap(lines[..i], IsPackageLine, PackageEntry)
      {
        var line := lines[i];
        if StartsWith(line, "package:") {
          packages := packages + [PackageEntry(line)];
        }
        assert lines[..i + 1][..i] == lines[..i];
      }
      assert lines[..|lines|] == lines;
    }
  }

  /** A package is reported exactly when some line starting with "package:" yields it. */
  lemma InstalledAppIff(output: String, package: String)
    ensures package in FilterMap(OutputLines(output), IsPackageLine, PackageEntry) <==>
            exists i :: 0 <= i < |OutputLines(output)| && IsPackageLine(OutputLines(output)[i])
                        && PackageEntry(OutputLines(output)[i]) == package
  {
    FilterMapMember(OutputLines(output), IsPackageLine, PackageEntry, package);
  }

  /** Packages keep the order of their lines. */
  lemma InstalledAppsOfConcat(a: seq<String>, b: seq<String>)
    ensures FilterMap(a + b, IsPackageLine, PackageEntry)
         == FilterMap(a, IsPackageLine, PackageEntry) + FilterMap(b, IsPackageLine, PackageEntry)
  {
    FilterMapAppend(a, b, IsPackageLine, PackageEntry);
  }

  /** The usual line "package:<name>" yields `<name>`. */
  lemma PackageEntryOfLine(name: String)
    requires !Contains(name, "package:")
    ensures IsPackageLine("package:" + name)
    ensures PackageEntry("package:" + name) == name
  {
    ReplaceAtStart("package:", name, "");
    ReplaceAbsent(name, "package:", "");
  }

  /** A second "package:" inside the line is removed too. */
  lemma PackageEntryRemovesEveryTag(a: String, b: String)
    requires 'p' !in a && !Contains(b, "package:")
    ensures PackageEntry("package:" + a + "package:" + b) == a + b
  {
    ReplaceAtStart("package:", a + "package:" + b, "");
    assert "package:" + (a + "package:" + b) == "package:" + a + "package:" + b;
    ReplaceAfterPlain(a, "package:", b, "");
    ReplaceAbsent(b, "package:", "");
  }

  // ---------------------------------------------------------------------------
  // get_app_info

  /** `if m: info[key] = m.group(1)`: the entry is added only when the pattern matched. */
  function PutMatch(info: map<String, String>, key: String, m: Option<String>): (r: map<String, String>)
    ensures r.Keys == if m.Some? then info.Keys + {key} else info.Keys
    ensures forall k :: k in info && k != key ==> r[k] == info[k]
    ensures m.Some? ==> r[key] == m.value
  {
    if m.Some? then info[key := m.value] else info
  }

  /**
   * `get_app_info` over the output of `dumpsys package <name>`: the dict
   * always holds `package_name`; `version`, `version_code` and `install_path`
   * are added, one after the other, when their pattern matches.
   */
  method GetAppInfo(packageName: String, output: Option<String>) returns (info: map<String, String>)
    ensures "package_name" in info && info["package_name"] == packageName
    ensures info.Keys <= {"package_name", "version", "version_code", "install_path"}
    ensures output.None? ==> info == map["package_name" := packageName]
    ensures output.Some? ==>
              && ("version" in info <==> SearchTag(output.value, "versionName=", NonSpace).Some?)
              && ("version_code" in info <==> SearchTag(output.value, "versionCode=", Digit).Some?)
              && ("install_path" in info <==> SearchTag(output.value, "codePath=", NonSpace).Some?)
    ensures output.Some? && "version" in info ==>
              info["version"] == SearchTag(output.value, "versionName=", NonSpace).value
    ensures output.Some? && "version_code" in info ==>
              info["version_code"] == SearchTag(output.value, "versionCode=", Digit).value
    ensures output.Some? && "install_path" in info ==>
              info["install_path"] == SearchTag(output.value, "codePath=", NonSpace).value
  {
    assert "package_name"[0] != "install_path"[0];
    info := map["package_name" := packageName];
    if output.Some? {
      var text := output.value;
      info := PutMatch(info, "version", SearchTag(text, "versionName=", NonSpace));
      info := PutMatch(info, "version_code", SearchTag(text, "versionCode=", Digit));
      info := PutMatch(info, "install_path", SearchTag(text, "codePath=", NonSpace));
    }
  }

  // ---------------------------------------------------------------------------
  // clear_app_cache

  /** `clear_app_cache`: succeeds exactly when the output of `pm clear` contains "Success". */
  function ClearAppCache(result: Option<String>): (r: bool)
    ensures r <==> result.Some? && exists i :: OccursAt(result.value, "Success", i)
  {
    result.Some? && Contains(result.value, "Success")
  }

  // ---------------------------------------------------------------------------
  // get_current_activity

  /** `get_current_activity`: the first `[\w.]+/[\w.]+` in the window dump, else "unknown". */
  function CurrentActivity(output: Option<String>): (r: String)
    ensures r == Unknown <==> output.None? || SearchSpan(output.value, WordOrDot, '/').None?
    ensures r != Unknown ==> r == SearchSpan(output.value, WordOrDot, '/').value && '/' in r
  {
    if output.None? then Unknown
    else match SearchSpan(output.value, WordOrDot, '/')
      case None => Unknown
      case Some(activity) =>
        var groups := SearchPair(output.value, WordOrDot, '/').value;
        assert activity[|groups.0|] == '/';
        assert '/' !in Unknown;
        activity
  }

  /** A reported activity reads back as itself. */
  lemma CurrentActivityIdempotent(output: Option<String>)
    ensures CurrentActivity(Some(CurrentActivity(output))) == CurrentActivity(output)
  {
    if CurrentActivity(output) == Unknown {
      NoSeparatorNoPair(Unknown, WordOrDot, '/');
    } else {
      SearchSpanIdempotent(output.value, WordOrDot, '/');
    }
  }

  /** "package/activity" names are read back whole. */
  lemma CurrentActivityOfName(package: String, activity: String)
    requires package != [] && AllInClass(package, WordOrDot)
    requires activity != [] && AllInClass(activity, WordOrDot)
    ensures CurrentActivity(Some(package + "/" + activity)) == package + "/" + activity
  {
    SearchPairRoundTrip(package, activity, WordOrDot, '/');
  }
}
