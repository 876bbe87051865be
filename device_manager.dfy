/**
 * `DeviceManager`: listing the Android devices `adb devices` reports,
 * choosing which one to connect to, resolving the platform and per-script
 * log directory of a test file, and waiting for a device to appear.
 * The `adb` process, the driver's connect call and the clock are inputs.
 */
module DeviceManager {
  import opened Wrappers
  import opened Text
  import opened Lists
  import opened PosixPath
  import opened DeviceConfig

  // ---------------------------------------------------------------------------
  // get_android_devices

  /** What running `adb devices` gave: its standard output, a non-zero exit status, or no `adb` on the path. */
  datatype AdbRun = Completed(stdout: String) | CalledProcessError | AdbNotFound

  /** A line of the listing names a device when it holds a tab and the text "device". */
  predicate IsDeviceLine(line: String) {
    Contains(line, "\t") && Contains(line, "device")
  }

  /** `line.split('\t')[0]`: the text before the first tab. */
  function DeviceIdOf(line: String): (id: String)
    ensures '\t' !in id && StartsWith(line, id)
    ensures |id| < |line| ==> line[|id|] == '\t'
  {
    SplitHead(line, '\t');
    Split(line, '\t')[0]
  }

  /**
   * The lines of the listing after the header line: none when the stripped
   * output is a single line, and none of them holds a newline.
   */
  function ListingBody(stdout: String): (lines: seq<String>)
    ensures lines == [] <==> '\n' !in Strip(stdout)
    ensures forall k :: 0 <= k < |lines| ==> '\n' !in lines[k]
  {
    SingleLineSplit(Strip(stdout), '\n');
    Split(Strip(stdout), '\n')[1..]
  }

  /** A split has a second piece exactly when the text holds the separator. */
  lemma SingleLineSplit(s: String, sep: char)
    ensures |Split(s, sep)| == 1 <==> sep !in s
  {
  }

  /**
   * The ids of the device lines of the listing, in the order of their lines:
   * at most one per line, each free of tabs and newlines.
   */
  function ListedDevices(stdout: String): (ids: seq<String>)
    ensures |ids| <= |ListingBody(stdout)|
    ensures forall k :: 0 <= k < |ids| ==> '\t' !in ids[k] && '\n' !in ids[k]
  {
    DeviceIdsAreClean(ListingBody(stdout));
    FilterMap(ListingBody(stdout), IsDeviceLine, DeviceIdOf)
  }

  /** The id taken from a newline-free line holds neither a tab nor a newline. */
  lemma DeviceIdsAreClean(lines: seq<String>)
    requires forall k :: 0 <= k < |lines| ==> '\n' !in lines[k]
    ensures forall k :: 0 <= k < |FilterMap(lines, IsDeviceLine, DeviceIdOf)| ==>
              '\t' !in FilterMap(lines, IsDeviceLine, DeviceIdOf)[k] && '\n' !in FilterMap(lines, IsDeviceLine, DeviceIdOf)[k]
  {
  }

  /** `get_android_devices`, fed with the outcome of running `adb devices`. */
  method GetAndroidDevices(run: AdbRun) returns (devices: seq<String>)
    ensures run.Completed? ==> devices == ListedDevices(run.stdout)
    ensures !run.Completed? ==> devices == []
  {
    devices := [];
    if run.Completed? {
      devices := DeviceIdsOf(ListingBody(run.stdout));
    }
  }

  /** The loop of `get_android_devices` over the lines after the header. */
  method DeviceIdsOf(lines: seq<String>) returns (devices: seq<String>)
    ensures devices == FilterMap(lines, IsDeviceLine, DeviceIdOf)
  {
    devices := [];
    for i := 0 to |lines|
      invariant devices == FilterMap(lines[..i], IsDeviceLine, DeviceIdOf)
    {
      var line := lines[i];
      if Contains(line, "\t") && Contains(line, "device") {
        devices := devices + [DeviceIdOf(line)];
      }
      assert lines[..i + 1][..i] == lines[..i];
    }
    assert lines[..|lines|] == lines;
  }

  /** An id is listed exactly when some line after the header holds a tab and "device" and starts with that id. */
  lemma DeviceListedIff(stdout: String, id: String)
    ensures id in ListedDevices(stdout) <==>
            exists i :: 0 <= i < |ListingBody(stdout)| && IsDeviceLine(ListingBody(stdout)[i])
                        && DeviceIdOf(ListingBody(stdout)[i]) == id
  {
    FilterMapMember(ListingBody(stdout), IsDeviceLine, DeviceIdOf, id);
  }

  /** Ids keep the order of their lines: the ids of two blocks of lines are the first block's, then the second's. */
  lemma DeviceIdsOfConcat(a: seq<String>, b: seq<String>)
    ensures FilterMap(a + b, IsDeviceLine, DeviceIdOf)
         == FilterMap(a, IsDeviceLine, DeviceIdOf) + FilterMap(b, IsDeviceLine, DeviceIdOf)
  {
    FilterMapAppend(a, b, IsDeviceLine, DeviceIdOf);
  }

  /** Stripping a listing whose first line holds text starts the result at that line. */
  lemma LStripListing(header: String, rest: String)
    requires '\n' !in header && HasNonSpace(header)
    ensures '\n' !in LStrip(header)
    ensures LStrip(header + "\n" + rest) == (LStrip(header) + "\n") + rest
  {
    LStripKeepsLine(header);
    var i :| 0 <= i < |header| && !IsSpace(header[i]);
    assert (header + "\n")[i] == header[i];
    LStripAppend(header, "\n");
    LStripAppend(header + "\n", rest);
  }

  /** Left-stripping a single line leaves a single line. */
  lemma LStripKeepsLine(line: String)
    requires '\n' !in line
    ensures '\n' !in LStrip(line)
  {
    var h := LStrip(line);
    SliceAvoids(line, |line| - |h|, |line|, '\n');
    assert line[|line| - |h|..|line|] == h;
  }

  /** When text follows the first line, stripping keeps the line break after it. */
  lemma StripListingWithBody(header: String, rest: String)
    requires '\n' !in header && HasNonSpace(header) && HasNonSpace(rest)
    ensures Strip(header + "\n" + rest) == LStrip(header) + "\n" + RStrip(rest)
  {
    LStripListing(header, rest);
    RStripAppend(LStrip(header) + "\n", rest);
  }

  /** When only blanks follow the first line, stripping leaves that line alone. */
  lemma StripListingBlankBody(header: String, rest: String)
    requires '\n' !in header && HasNonSpace(header) && !HasNonSpace(rest)
    ensures Strip(header + "\n" + rest) == RStrip(LStrip(header))
    ensures RStrip(rest) == []
  {
    LStripListing(header, rest);
    var h := LStrip(header);
    calc {
      Strip(header + "\n" + rest);
      RStrip((h + "\n") + rest);
      { RStripBlankTail(h + "\n", rest); }
      RStrip(h + "\n");
      { assert !HasNonSpace("\n") by { assert IsSpace("\n"[0]); }
        RStripBlankTail(h, "\n"); }
      RStrip(h);
    }
    assert [] + rest == rest;
    RStripBlankTail([], rest);
  }

  /**
   * The header line never contributes: whatever the first line says (even
   * "x\tdevice"), the listing is decided by the lines after it.
   */
  lemma HeaderLineIgnored(header: String, rest: String)
    requires '\n' !in header && HasNonSpace(header)
    ensures ListedDevices(header + "\n" + rest)
         == FilterMap(Split(RStrip(rest), '\n'), IsDeviceLine, DeviceIdOf)
  {
    if HasNonSpace(rest) {
      BodyAfterHeader(header, rest);
    } else {
      BlankBodyAfterHeader(header, rest);
      assert !IsDeviceLine([]);
      assert FilterMap([[]], IsDeviceLine, DeviceIdOf) == [];
    }
  }

  /** With text after the header line, the lines after the header are those of the right-stripped rest. */
  lemma BodyAfterHeader(header: String, rest: String)
    requires '\n' !in header && HasNonSpace(header) && HasNonSpace(rest)
    ensures ListingBody(header + "\n" + rest) == Split(RStrip(rest), '\n')
  {
    LStripListing(header, rest);
    StripListingWithBody(header, rest);
    SplitFirst(LStrip(header), RStrip(rest), '\n');
  }

  /** With only blanks after the header line, there are no lines after the header. */
  lemma BlankBodyAfterHeader(header: String, rest: String)
    requires '\n' !in header && HasNonSpace(header) && !HasNonSpace(rest)
    ensures ListingBody(header + "\n" + rest) == []
    ensures Split(RStrip(rest), '\n') == [[]]
  {
    LStripListing(header, rest);
    StripListingBlankBody(header, rest);
    var h := LStrip(header);
    var hr := RStrip(h);
    SliceAvoids(h, 0, |hr|, '\n');
    assert h[0..|hr|] == hr;
    SplitNoSep(hr, '\n');
    SplitNoSep([], '\n');
  }

  /** A serial that itself contains "device" is listed whatever state follows its tab (for example "offline"). */
  lemma SerialMentioningDeviceIsListed(serial: String, state: String)
    requires '\t' !in serial && Contains(serial, "device")
    ensures IsDeviceLine(serial + "\t" + state)
    ensures DeviceIdOf(serial + "\t" + state) == serial
  {
    var line := serial + "\t" + state;
    var i :| OccursAt(serial, "device", i);
    assert line[..|serial|] == serial;
    OccursInSlice(line, 0, |serial|, "device", i);
    assert OccursAt(line, "\t", |serial|);
    SplitFirst(serial, state, '\t');
  }

  // ---------------------------------------------------------------------------
  // connect_android_device

  /** Python truthiness of the optional `device_id`: given and non-empty. */
  predicate Truthy(deviceId: Option<String>) {
    deviceId.Some? && deviceId.value != []
  }

  /**
   * `connect_android_device`: `Some(serial)` when it connects `serial` and
   * returns True, `None` when it returns False. `devices` is what
   * `get_android_devices` returned; `driverOk` is false when the driver's
   * connect call raises.
   */
  function ConnectAndroidDevice(devices: seq<String>, deviceId: Option<String>, driverOk: bool): (r: Option<String>)
    ensures devices == [] ==> r == None
    ensures r.Some? <==> devices != [] && driverOk && (Truthy(deviceId) ==> deviceId.value in devices)
    ensures r.Some? ==> r.value in devices
    ensures r.Some? && Truthy(deviceId) ==> r.value == deviceId.value
    ensures r.Some? && !Truthy(deviceId) ==> r.value == devices[0]
  {
    if devices == [] then None
    else
      var target := if Truthy(deviceId) then deviceId.value else devices[0];
      if target !in devices then None
      else if !driverOk then None
      else Some(target)
  }

  /** Only a device that a line of the `adb devices` listing names can be connected. */
  lemma ConnectedDeviceIsListed(stdout: String, deviceId: Option<String>, driverOk: bool)
    requires ConnectAndroidDevice(ListedDevices(stdout), deviceId, driverOk).Some?
    ensures exists i :: 0 <= i < |ListingBody(stdout)| && IsDeviceLine(ListingBody(stdout)[i])
                        && DeviceIdOf(ListingBody(stdout)[i]) == ConnectAndroidDevice(ListedDevices(stdout), deviceId, driverOk).value
  {
    DeviceListedIff(stdout, ConnectAndroidDevice(ListedDevices(stdout), deviceId, driverOk).value);
  }

  // ---------------------------------------------------------------------------
  // init_device

  /** A resolved device session: the per-script log directory and the driver URI. */
  datatype Session = Session(scriptLogDir: String, uri: String)

  /** Why `init_device` raised. */
  datatype InitError =
    | LogDirFailed(dir: String)          // `os.makedirs` raised
    | UnsupportedPlatform(platform: String)
    | SetupFailed(uri: String)           // Airtest's `auto_setup` raised

  /**
   * What the calls `init_device` makes outside this model do: whether its
   * `os.makedirs` of the per-script directory succeeds, what `cli_setup()` returns, and whether
   * `auto_setup` returns rather than raising.
   */
  datatype SetupEnv = SetupEnv(makedirsOk: bool, cliSetup: bool, autoSetupOk: bool)

  /** The directory is made and the Airtest set-up either is done from the command line or succeeds. */
  predicate Ready(env: SetupEnv) {
    env.makedirsOk && (env.cliSetup || env.autoSetupOk)
  }

  /** `os.path.splitext(os.path.basename(test_file))[0]` */
  function ScriptName(testFile: String): String {
    SplitExtRoot(Basename(testFile))
  }

  /**
   * `init_device`: the log directory `log_dir/<script name>` is created; the
   * platform is looked up upper-cased in the device table, and any other key
   * raises; unless `cli_setup()` holds, `auto_setup` runs on the device URI.
   */
  function InitDevice(testFile: String, logDir: String, platform: String, env: SetupEnv): (r: Result<Session, InitError>)
    ensures r.Ok? <==> Ready(env) && Upper(platform) in DeviceTable
    ensures r.Ok? ==> r.value == Session(Join(logDir, ScriptName(testFile)), DeviceTable[Upper(platform)].uri)
    ensures !env.makedirsOk ==> r == Err(LogDirFailed(Join(logDir, ScriptName(testFile))))
    ensures env.makedirsOk && Upper(platform) !in DeviceTable ==> r == Err(UnsupportedPlatform(platform))
    ensures env.makedirsOk && Upper(platform) in DeviceTable && !Ready(env) ==>
              r == Err(SetupFailed(DeviceTable[Upper(platform)].uri))
  {
    var scriptLogDir := Join(logDir, ScriptName(testFile));
    var key := Upper(platform);
    if !env.makedirsOk then Err(LogDirFailed(scriptLogDir))
    else if key !in DeviceTable then Err(UnsupportedPlatform(platform))
    else if !env.cliSetup && !env.autoSetupOk then Err(SetupFailed(DeviceTable[key].uri))
    else Ok(Session(scriptLogDir, DeviceTable[key].uri))
  }

  /** How the four platform names upper-case, and which of them the device table holds. */
  lemma PlatformKeys()
    ensures Upper("iOS") == "IOS" && Upper("Android") == "ANDROID" && Upper("Windows") == "WINDOWS"
    ensures Upper("macOS") !in DeviceTable
  {
  }

  /** "macOS" upper-cases to "MACOS", which the table lacks: the platform is rejected once the directory is made. */
  lemma InitDeviceRejectsMacOS(testFile: String, logDir: String, env: SetupEnv)
    ensures InitDevice(testFile, logDir, "macOS", env).Err?
    ensures env.makedirsOk ==> InitDevice(testFile, logDir, "macOS", env) == Err(UnsupportedPlatform("macOS"))
  {
    assert |Upper("macOS")| == 5;
    assert Upper("macOS") !in DeviceTable;
  }

  /** The three platform names the fixture infers besides "macOS" are accepted, with their table URIs. */
  lemma InitDeviceAcceptsKnownPlatforms(testFile: String, logDir: String, env: SetupEnv)
    requires Ready(env)
    ensures InitDevice(testFile, logDir, "iOS", env).Ok?
    ensures InitDevice(testFile, logDir, "Android", env).Ok?
    ensures InitDevice(testFile, logDir, "Windows", env).Ok?
    ensures InitDevice(testFile, logDir, "Android", env).value.uri == "Android:///"
  {
    assert Upper("iOS") == "IOS";
    assert Upper("Android") == "ANDROID";
    assert Upper("Windows") == "WINDOWS";
  }

  /** For `dir/name.py` the per-script log directory is `log_dir/name`. */
  lemma ScriptLogDirOf(dir: String, name: String, logDir: String, env: SetupEnv)
    requires '/' !in name && exists k :: 0 <= k < |name| && name[k] != '.'
    requires logDir != [] && !EndsWith(logDir, "/")
    requires Ready(env)
    ensures InitDevice(dir + "/" + name + ".py", logDir, "Android", env).Ok?
    ensures InitDevice(dir + "/" + name + ".py", logDir, "Android", env).value.scriptLogDir == logDir + "/" + name
  {
    PythonFileName(dir, name);
    InitDeviceAcceptsKnownPlatforms(dir + "/" + name + ".py", logDir, env);
  }

  // ---------------------------------------------------------------------------
  // wait_for_device

  /** The index of the first clock reading at or after `from` at which `timeout` seconds have passed since `start`. */
  function FirstExpired(clock: seq<int>, start: int, timeout: int, from: nat): (n: nat)
    requires exists i :: from <= i < |clock| && clock[i] - start >= timeout
    ensures from <= n < |clock| && clock[n] - start >= timeout
    ensures forall i :: from <= i < n ==> clock[i] - start < timeout
    decreases |clock| - from
  {
    if clock[from] - start >= timeout then from else FirstExpired(clock, start, timeout, from + 1)
  }

  /**
   * `wait_for_device`: `clock` holds the successive readings of the clock
   * that the loop condition takes, `polls` the device lists the successive
   * `get_android_devices` calls return. The loop polls while less than
   * `timeout` seconds have passed and stops at the first non-empty list;
   * `polled` counts the polls made.
   */
  method WaitForDevice(timeout: int, start: int, clock: seq<int>, polls: seq<seq<String>>)
      returns (found: bool, polled: nat)
    requires exists i :: 0 <= i < |clock| && clock[i] - start >= timeout
    requires |polls| >= FirstExpired(clock, start, timeout, 0)
    ensures polled <= FirstExpired(clock, start, timeout, 0)
    ensures forall i :: 0 <= i < polled - 1 ==> polls[i] == []
    ensures found <==> polled > 0 && polls[polled - 1] != []
    ensures !found ==> polled == FirstExpired(clock, start, timeout, 0) && forall i :: 0 <= i < polled ==> polls[i] == []
    ensures found <==> exists i :: 0 <= i < FirstExpired(clock, start, timeout, 0) && polls[i] != []
  {
    ghost var deadline := FirstExpired(clock, start, timeout, 0);
    var round := 0;
    while clock[round] - start < timeout
      invariant 0 <= round <= deadline
      invariant forall i :: 0 <= i < round ==> polls[i] == []
      decreases deadline - round
    {
      var devices := polls[round];
      if devices != [] {
        return true, round + 1;
      }
      round := round + 1;
    }
    return false, round;
  }
}
