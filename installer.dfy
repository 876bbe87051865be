/**
 * The app installer: connecting to the device of a platform, picking the
 * install package for a platform and version out of the packages directory,
 * skipping the uninstall when the app is not there, and checking after the
 * install that the installed version starts with the first three fields of
 * the requested one.
 *
 * The driver is an input: what `list_app` and `check_app` report before the
 * install comes in as an `AppProbe`, the `list_app` entries after the install
 * and the listing of the packages directory as optional sequences, `None`
 * standing for a call that raised. The driver's own install and uninstall
 * calls are taken to succeed.
 */
module Installer {
  import opened Wrappers
  import opened Text
  import opened PosixPath
  import opened DeviceConfig

  /** The app the installer manages. */
  const BundleId: String := "com.vv.work"

  /** The device kinds the driver creates, one per device-table key. */
  datatype DeviceKind = IOSDevice | AndroidDevice | WindowsDevice

  /** A connected device: its kind, the URI it was connected with and the attributes set on it. */
  datatype Device = Device(kind: DeviceKind, uri: String, attributes: seq<(String, String)>)

  /** One `list_app` entry; the installer reads its first and third fields. */
  datatype App = App(bundleId: String, name: String, version: String)

  /** What the device reports when asked whether the app is installed; `None` when the call raised. */
  datatype AppProbe = AppProbe(listApp: Option<seq<App>>, checkApp: Option<bool>)

  /** The outcome of an uninstall that did not raise. */
  datatype Uninstall = Skipped | Uninstalled(version: Option<String>)

  /** The exceptions the installer raises. */
  datatype InstallError =
    | WindowsUnsupported
    | UnsupportedPlatform(platform: String)
    | ConnectFailed(uri: String)
    | UnsupportedPackageType(platform: String)
    | ListingFailed(dir: String)         // `os.listdir` of the packages directory raised
    | PackageNotFound(platform: String, version: String, extension: String)
    | NotImplementedOnWindows
    | AppListFailed                      // the post-install `list_app` raised
    | InstallFailed(bundleId: String)
    | VersionMismatch(expected: String, actual: String)

  // ---------------------------------------------------------------------------
  // connect_device

  function KindOf(key: String): DeviceKind {
    if key == "IOS" then IOSDevice else if key == "ANDROID" then AndroidDevice else WindowsDevice
  }

  /**
   * What `connect_device(platform)` connects to, or the error it raises.
   * `connects` is false when the driver's own connect call raises.
   */
  function Connection(platform: String, windowsSupport: bool, connects: bool): (r: Result<Device, InstallError>)
    ensures r.Err? <==> (Upper(platform) == "WINDOWS" && !windowsSupport) || Upper(platform) !in DeviceTable || !connects
    ensures Upper(platform) == "WINDOWS" && !windowsSupport ==> r == Err(WindowsUnsupported)
    ensures Upper(platform) !in DeviceTable ==> r == Err(UnsupportedPlatform(platform))
    ensures Upper(platform) in DeviceTable && !(Upper(platform) == "WINDOWS" && !windowsSupport) && !connects ==>
              r == Err(ConnectFailed(DeviceTable[Upper(platform)].uri))
    ensures r.Ok? ==> && r.value.uri == DeviceTable[Upper(platform)].uri
                      && r.value.attributes == DeviceTable[Upper(platform)].options
                      && (r.value.kind == WindowsDevice <==> Upper(platform) == "WINDOWS")
  {
    var key := Upper(platform);
    if key == "WINDOWS" && !windowsSupport then Err(WindowsUnsupported)
    else if key !in DeviceTable then Err(UnsupportedPlatform(platform))
    else if !connects then Err(ConnectFailed(DeviceTable[key].uri))
    else Ok(Device(KindOf(key), DeviceTable[key].uri, DeviceTable[key].options))
  }

  /** The platform name is matched without regard to case. */
  lemma ConnectionIgnoresCase(platform: String, windowsSupport: bool, connects: bool)
    ensures Connection(Upper(platform), windowsSupport, connects).Ok? == Connection(platform, windowsSupport, connects).Ok?
    ensures Connection(Upper(platform), windowsSupport, connects).Ok? ==>
              Connection(Upper(platform), windowsSupport, connects) == Connection(platform, windowsSupport, connects)
  {
    UpperOfUpper(platform);
  }

  lemma UpperOfUpper(s: String)
    ensures Upper(Upper(s)) == Upper(s)
  {
    forall i | 0 <= i < |s|
      ensures Upper(Upper(s))[i] == Upper(s)[i]
    {
      var c := s[i];
      if 'a' <= c <= 'z' {
        assert UpperChar(c) as int == c as int - 32;
      }
    }
  }

  // ---------------------------------------------------------------------------
  // find_package

  /** The package file extension of each platform, keyed by lower-case platform name. */
  const PackageExtensions: map<String, String> := map["ios" := ".ipa", "android" := ".apk", "windows" := ".exe"]

  /** A file is a package of the version when it has the extension and mentions the version. */
  predicate IsPackageFor(file: String, extension: String, version: String) {
    EndsWith(file, extension) && Contains(file, version)
  }

  /** The first file of the listing that is a package of the version. */
  function FirstPackage(files: seq<String>, extension: String, version: String): (r: Option<String>)
    ensures r.Some? <==> exists i :: 0 <= i < |files| && IsPackageFor(files[i], extension, version)
    ensures r.Some? ==> exists i :: && 0 <= i < |files| && files[i] == r.value
                                    && IsPackageFor(files[i], extension, version)
                                    && forall j :: 0 <= j < i ==> !IsPackageFor(files[j], extension, version)
    decreases |files|
  {
    if files == [] then None
    else if IsPackageFor(files[0], extension, version) then Some(files[0])
    else
      var r := FirstPackage(files[1..], extension, version);
      assert forall i :: 1 <= i < |files| ==> files[i] == files[1..][i - 1];
      if r.Some? then
        var i :| && 0 <= i < |files[1..]| && files[1..][i] == r.value
                 && IsPackageFor(files[1..][i], extension, version)
                 && forall j :: 0 <= j < i ==> !IsPackageFor(files[1..][j], extension, version);
        assert forall j :: 0 <= j < i + 1 ==> !IsPackageFor(files[j], extension, version) by {
          forall j | 0 <= j < i + 1
            ensures !IsPackageFor(files[j], extension, version)
          {
            if j > 0 {
              assert files[j] == files[1..][j - 1];
            }
          }
        }
        r
      else
        r
  }

  /**
   * The path `find_package` returns, or the error it raises; `listing` is
   * what `os.listdir` of the packages directory gives, `None` when it raised.
   */
  function LocatePackage(pkgsDir: String, platform: String, version: String, listing: Option<seq<String>>)
    : (r: Result<String, InstallError>)
    ensures Lower(platform) !in PackageExtensions ==> r == Err(UnsupportedPackageType(platform))
    ensures Lower(platform) in PackageExtensions && listing.None? ==> r == Err(ListingFailed(pkgsDir))
    ensures Lower(platform) in PackageExtensions && listing.Some? ==>
              var files := listing.value;
              var extension := PackageExtensions[Lower(platform)];
              && (r.Ok? <==> exists i :: 0 <= i < |files| && IsPackageFor(files[i], extension, version))
              && (r.Ok? ==> exists i :: && 0 <= i < |files| && r.value == Join(pkgsDir, files[i])
                                        && IsPackageFor(files[i], extension, version)
                                        && forall j :: 0 <= j < i ==> !IsPackageFor(files[j], extension, version))
              && (r.Err? ==> r.error == PackageNotFound(platform, version, extension))
  {
    var key := Lower(platform);
    if key !in PackageExtensions then Err(UnsupportedPackageType(platform))
    else if listing.None? then Err(ListingFailed(pkgsDir))
    else
      var extension := PackageExtensions[key];
      match FirstPackage(listing.value, extension, version)
      case None => Err(PackageNotFound(platform, version, extension))
      case Some(file) => Ok(Join(pkgsDir, file))
  }

  /** `connect_device` and `find_package` accept the same platform names (with Windows support on and a driver that connects). */
  lemma ConnectAndLocateAgree(platform: String)
    ensures Connection(platform, true, true).Ok? <==> Lower(platform) in PackageExtensions
  {
    assert Upper("ios") == "IOS" && Lower("ios") == "ios";
    assert Upper("android") == "ANDROID" && Lower("android") == "android";
    assert Upper("windows") == "WINDOWS" && Lower("windows") == "windows";
    CaseFoldAgree(platform, "ios");
    CaseFoldAgree(platform, "android");
    CaseFoldAgree(platform, "windows");
  }

  // ---------------------------------------------------------------------------
  // the install verification scan

  /** The version of the first `list_app` entry for the app, if there is one. */
  function InstalledVersion(apps: seq<App>, bundleId: String): (r: Option<String>)
    ensures r.Some? <==> exists i :: 0 <= i < |apps| && apps[i].bundleId == bundleId
    ensures r.Some? ==> exists i :: && 0 <= i < |apps| && apps[i].bundleId == bundleId
                                    && apps[i].version == r.value
                                    && forall j :: 0 <= j < i ==> apps[j].bundleId != bundleId
    decreases |apps|
  {
    if apps == [] then None
    else if apps[0].bundleId == bundleId then Some(apps[0].version)
    else
      var r := InstalledVersion(apps[1..], bundleId);
      assert forall i :: 1 <= i < |apps| ==> apps[i] == apps[1..][i - 1];
      if r.Some? then
        var i :| && 0 <= i < |apps[1..]| && apps[1..][i].bundleId == bundleId
                 && apps[1..][i].version == r.value
                 && forall j :: 0 <= j < i ==> apps[1..][j].bundleId != bundleId;
        assert forall j :: 0 <= j < i + 1 ==> apps[j].bundleId != bundleId by {
          forall j | 0 <= j < i + 1
            ensures apps[j].bundleId != bundleId
          {
            if j > 0 {
              assert apps[j] == apps[1..][j - 1];
            }
          }
        }
        r
      else
        r
  }

  /** `version.split('.')[:3]`: the first three dot-separated fields, or all of them when there are fewer. */
  function LeadingFields(version: String): (fields: seq<String>)
    ensures 1 <= |fields| <= 3
    ensures forall k :: 0 <= k < |fields| ==> '.' !in fields[k]
  {
    var all := Split(version, '.');
    all[..if |all| < 3 then |all| else 3]
  }

  /**
   * `'.'.join(version.split('.')[:3])`: a prefix of the version whose own
   * fields are the version's first three.
   */
  function VersionPrefix(version: String): (p: String)
    ensures StartsWith(version, p)
    ensures Split(p, '.') == LeadingFields(version)
  {
    var fields := Split(version, '.');
    var n := if |fields| < 3 then |fields| else 3;
    JoinSplit(version, '.');
    JoinPrefix(fields, n, '.');
    SplitJoin(fields[..n], '.');
    JoinWith(fields[..n], '.')
  }

  /** A version with at most three fields is its own prefix. */
  lemma VersionPrefixOfShort(version: String)
    requires |Split(version, '.')| <= 3
    ensures VersionPrefix(version) == version
  {
    var fields := Split(version, '.');
    assert fields[..|fields|] == fields;
    JoinSplit(version, '.');
  }

  /** Splitting "a.b.c.rest" on dots gives a, b and c, then the pieces of rest. */
  lemma SplitRelease(a: String, b: String, c: String, rest: String)
    requires '.' !in a && '.' !in b && '.' !in c
    ensures Split(a + "." + b + "." + c + "." + rest, '.') == [a, b, c] + Split(rest, '.')
  {
    SplitPeel(c, rest);
    SplitPeel(b, c + "." + rest);
    SplitPeel(a, b + "." + (c + "." + rest));
    DotsNest(a, b, c, rest);
  }

  /** Dot-joining four pieces left to right equals nesting them to the right. */
  lemma DotsNest(a: String, b: String, c: String, rest: String)
    ensures a + "." + b + "." + c + "." + rest == a + "." + (b + "." + (c + "." + rest))
  {
  }

  /** Splitting "a.rest" on dots peels off the dot-free `a`. */
  lemma SplitPeel(a: String, rest: String)
    requires '.' !in a
    ensures Split(a + "." + rest, '.') == [a] + Split(rest, '.')
  {
    SplitFirst(a, rest, '.');
    assert a + "." + rest == a + ['.'] + rest;
  }

  /** For "a.b.c.rest" the check wants "a.b.c". */
  lemma VersionPrefixOfRelease(a: String, b: String, c: String, rest: String)
    requires '.' !in a && '.' !in b && '.' !in c
    ensures VersionPrefix(a + "." + b + "." + c + "." + rest) == a + "." + b + "." + c
  {
    var tail := Split(rest, '.');
    SplitRelease(a, b, c, rest);
    var fields := [a, b, c] + tail;
    assert fields[..3] == [a, b, c];
    assert [a, b, c][1..] == [b, c] && [b, c][1..] == [c];
    assert JoinWith([b, c], '.') == b + ['.'] + c;
    assert JoinWith([a, b, c], '.') == a + ['.'] + (b + ['.'] + c);
  }

  /**
   * The check is textual: asking for 2.9.2.19736 accepts an installed
   * 2.9.26.1, since "2.9.26.1" starts with "2.9.2".
   */
  lemma VersionCheckIsTextual()
    ensures VersionPrefix("2.9.2.19736") == "2.9.2"
    ensures StartsWith("2.9.26.1", VersionPrefix("2.9.2.19736"))
  {
    ExampleVersions();
    VersionPrefixOfRelease("2", "9", "2", "19736");
  }

  /**
   * The version check as its comment describes it: the first three fields
   * of the installed version are those of the requested one.
   */
  predicate LeadingFieldsMatch(installed: String, version: String) {
    LeadingFields(installed) == LeadingFields(version)
  }

  /** The field-wise check is the comparison of the two three-field prefixes. */
  lemma LeadingFieldsMatchIff(installed: String, version: String)
    ensures LeadingFieldsMatch(installed, version) <==> VersionPrefix(installed) == VersionPrefix(version)
  {
  }

  /** The field-wise check only rejects more: every version it accepts also passes the textual check. */
  lemma LeadingFieldsMatchStricter(installed: String, version: String)
    requires LeadingFieldsMatch(installed, version)
    ensures StartsWith(installed, VersionPrefix(version))
  {
    LeadingFieldsMatchIff(installed, version);
  }

  /** The first three fields of "a.b.c.rest" are a, b and c. */
  lemma LeadingFieldsOfRelease(a: String, b: String, c: String, rest: String)
    requires '.' !in a && '.' !in b && '.' !in c
    ensures LeadingFields(a + "." + b + "." + c + "." + rest) == [a, b, c]
  {
    SplitRelease(a, b, c, rest);
    assert ([a, b, c] + Split(rest, '.'))[..3] == [a, b, c];
  }

  /** Two versions whose third fields differ fail the field-wise check, whatever follows. */
  lemma ThirdFieldDiffers(a: String, b: String, c: String, rest: String, c': String, rest': String)
    requires '.' !in a && '.' !in b && '.' !in c && '.' !in c'
    requires c != c'
    ensures !LeadingFieldsMatch(a + "." + b + "." + c + "." + rest, a + "." + b + "." + c' + "." + rest')
  {
    LeadingFieldsOfRelease(a, b, c, rest);
    LeadingFieldsOfRelease(a, b, c', rest');
    assert [a, b, c][2] != [a, b, c'][2];
  }

  /**
   * The field-wise check turns down the installed 2.9.26.1 for 2.9.2.19736,
   * which `VersionCheckIsTextual` shows the textual check lets through.
   */
  lemma FieldCheckRejectsOtherField()
    ensures !LeadingFieldsMatch("2.9.26.1", "2.9.2.19736")
  {
    ExampleVersions();
    ThirdFieldDiffers("2", "9", "26", "1", "2", "19736");
  }

  /** The two versions of the example, assembled from their fields. */
  lemma ExampleVersions()
    ensures "2" + "." + "9" + "." + "26" + "." + "1" == "2.9.26.1"
    ensures "2" + "." + "9" + "." + "2" + "." + "19736" == "2.9.2.19736"
    ensures "2" + "." + "9" + "." + "2" == "2.9.2"
  {
  }

  /** Whether `uninstall_app` finds the app installed; any failure of the probe counts as not installed. */
  predicate IsInstalled(kind: DeviceKind, probe: AppProbe, bundleId: String)
    ensures IsInstalled(kind, probe, bundleId) <==>
              || (&& kind == IOSDevice && probe.listApp.Some?
                  && exists i :: 0 <= i < |probe.listApp.value| && probe.listApp.value[i].bundleId == bundleId)
              || (kind == AndroidDevice && probe.checkApp == Some(true))
  {
    match kind
    case IOSDevice => probe.listApp.Some? && InstalledVersion(probe.listApp.value, bundleId).Some?
    case AndroidDevice => probe.checkApp == Some(true)
    case WindowsDevice => false
  }

  // ---------------------------------------------------------------------------
  // AppInstaller

  class AppInstaller {
    /** The connected device, `None` until `connect_device` succeeds. */
    var device: Option<Device>
    const pkgsDir: String
    const bundleId: String
    /** Whether the host runs Windows, so that the Windows driver is available. */
    const windowsSupport: bool

    constructor(baseDir: String, windowsSupport: bool)
      ensures device == None
      ensures pkgsDir == Join(baseDir, "pkgs") && bundleId == BundleId
      ensures this.windowsSupport == windowsSupport
    {
      device := None;
      pkgsDir := Join(baseDir, "pkgs");
      bundleId := BundleId;
      this.windowsSupport := windowsSupport;
    }

    /** `connect_device`: on success the device is replaced; on error nothing changes. */
    method ConnectDevice(platform: String, connects: bool) returns (r: Result<Device, InstallError>)
      modifies this
      ensures r == Connection(platform, windowsSupport, connects)
      ensures device == (if r.Ok? then Some(r.value) else old(device))
    {
      r := Connection(platform, windowsSupport, connects);
      if r.Ok? {
        device := Some(r.value);
      }
    }

    /** `find_package`: the first listed file with the platform's extension that mentions the version. */
    method FindPackage(platform: String, version: String, listing: Option<seq<String>>) returns (r: Result<String, InstallError>)
      ensures r == LocatePackage(pkgsDir, platform, version, listing)
    {
      var key := Lower(platform);
      if key !in PackageExtensions {
        return Err(UnsupportedPackageType(platform));
      }
      if listing.None? {
        return Err(ListingFailed(pkgsDir));
      }
      var files := listing.value;
      var extension := PackageExtensions[key];
      for i := 0 to |files|
        invariant FirstPackage(files[i..], extension, version) == FirstPackage(files, extension, version)
      {
        assert files[i..][1..] == files[i + 1..];
        if EndsWith(files[i], extension) && Contains(files[i], version) {
          return Ok(Join(pkgsDir, files[i]));
        }
      }
      return Err(PackageNotFound(platform, version, extension));
    }

    /** The for/break scan of `list_app` for the app's entry. */
    method ScanInstalled(apps: seq<App>) returns (version: Option<String>)
      ensures version == InstalledVersion(apps, bundleId)
    {
      version := None;
      var i := 0;
      while i < |apps|
        invariant 0 <= i <= |apps|
        invariant InstalledVersion(apps[i..], bundleId) == InstalledVersion(apps, bundleId)
      {
        assert apps[i..][1..] == apps[i + 1..];
        if apps[i].bundleId == bundleId {
          version := Some(apps[i].version);
          break;
        }
        i := i + 1;
      }
    }

    /**
     * `uninstall_app`: connects only when no device is set; skips the
     * uninstall when the app is not found installed.
     */
    method UninstallApp(platform: String, connects: bool, probe: AppProbe) returns (r: Result<Uninstall, InstallError>)
      modifies this
      ensures old(device).Some? ==> device == old(device)
      ensures old(device).None? ==>
                device == (if Connection(platform, windowsSupport, connects).Ok? then Some(Connection(platform, windowsSupport, connects).value) else None)
      ensures device.None? ==> r == Err(Connection(platform, windowsSupport, connects).error)
      ensures device.Some? ==> r.Ok? && (r.value.Skipped? <==> !IsInstalled(device.value.kind, probe, bundleId))
      ensures r.Ok? && r.value.Uninstalled? && device.value.kind == IOSDevice ==>
                r.value.version == InstalledVersion(probe.listApp.value, bundleId)
    {
      if device.None? {
        var c := ConnectDevice(platform, connects);
        if c.Err? {
          return Err(c.error);
        }
      }
      var kind := device.value.kind;
      var installed := false;
      var appVersion: Option<String> := None;
      match kind {
        case IOSDevice =>
          if probe.listApp.Some? {
            appVersion := ScanInstalled(probe.listApp.value);
            installed := appVersion.Some?;
          }
        case AndroidDevice =>
          installed := probe.checkApp == Some(true);
        case WindowsDevice =>
          installed := false;
      }
      if !installed {
        return Ok(Skipped);
      }
      r := Ok(Uninstalled(appVersion));
    }

    /**
     * `install_app`: connect, uninstall, find the package, install, then
     * accept only an installed version that is non-empty and starts with the
     * first three fields of the requested one. Returns the installed version.
     */
    method InstallApp(platform: String, connects: bool, version: String, listing: Option<seq<String>>, probe: AppProbe,
                      appsAfter: Option<seq<App>>)
      returns (r: Result<String, InstallError>)
      modifies this
      ensures Connection(platform, windowsSupport, connects).Err? ==>
                r == Err(Connection(platform, windowsSupport, connects).error) && device == old(device)
      ensures Connection(platform, windowsSupport, connects).Ok? ==> device == Some(Connection(platform, windowsSupport, connects).value)
      ensures Connection(platform, windowsSupport, connects).Ok? && LocatePackage(pkgsDir, platform, version, listing).Err? ==>
                r == Err(LocatePackage(pkgsDir, platform, version, listing).error)
      ensures Upper(platform) == "WINDOWS" ==> r.Err?
      ensures && Connection(platform, windowsSupport, connects).Ok?
              && Connection(platform, windowsSupport, connects).value.kind != WindowsDevice
              && LocatePackage(pkgsDir, platform, version, listing).Ok? && appsAfter.None? ==>
                r == Err(AppListFailed)
      ensures r.Ok? <==> && Connection(platform, windowsSupport, connects).Ok?
                         && Connection(platform, windowsSupport, connects).value.kind != WindowsDevice
                         && LocatePackage(pkgsDir, platform, version, listing).Ok?
                         && appsAfter.Some?
                         && InstalledVersion(appsAfter.value, bundleId).Some?
                         && InstalledVersion(appsAfter.value, bundleId).value != []
                         && StartsWith(InstalledVersion(appsAfter.value, bundleId).value, VersionPrefix(version))
      ensures r.Ok? ==> appsAfter.Some? && InstalledVersion(appsAfter.value, bundleId) == Some(r.value)
    {
      var c := ConnectDevice(platform, connects);
      if c.Err? {
        return Err(c.error);
      }
      var u := UninstallApp(platform, connects, probe);
      var package := FindPackage(platform, version, listing);
      if package.Err? {
        return Err(package.error);
      }
      if device.value.kind == WindowsDevice {
        return Err(NotImplementedOnWindows);
      }
      if appsAfter.None? {
        return Err(AppListFailed);
      }
      var installed := ScanInstalled(appsAfter.value);
      if installed.None? || installed.value == [] {
        return Err(InstallFailed(bundleId));
      }
      var expected := VersionPrefix(version);
      if !StartsWith(installed.value, expected) {
        return Err(VersionMismatch(expected, installed.value));
      }
      r := Ok(installed.value);
    }
  }
}
