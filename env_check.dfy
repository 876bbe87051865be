/**
 * The Android environment check script: the Python version test, the
 * required-package test and the summary that counts the checks that passed.
 * The interpreter version, the importable module names and what each check
 * returned (or that it raised) are inputs.
 */
module EnvCheck {
  import opened Text
  import opened Lists

  // ---------------------------------------------------------------------------
  // check_python_version

  /**
   * `version.major >= 3 and version.minor >= 7`, as the check is written: it
   * accepts exactly the versions from 3.7 on whose minor number is at least 7.
   */
  predicate PythonVersionAccepted(major: nat, minor: nat)
    ensures PythonVersionAccepted(major, minor) <==> AtLeastPython37(major, minor) && minor >= 7
  {
    major >= 3 && minor >= 7
  }

  /** Python 3.7 or later, as the check's own message ("Python 3.7+") asks for. */
  predicate AtLeastPython37(major: nat, minor: nat) {
    major > 3 || (major == 3 && minor >= 7)
  }

  /** As written, the check turns down 4.0 (and every x.y with y < 7), although it is later than 3.7. */
  lemma PythonFourZeroRejected()
    ensures !PythonVersionAccepted(4, 0) && AtLeastPython37(4, 0)
    ensures forall major: nat, minor: nat :: major >= 4 && minor < 7 ==>
              !PythonVersionAccepted(major, minor) && AtLeastPython37(major, minor)
  {
  }

  /** For Python 3 the check as written and the intended one agree. */
  lemma CheckAgreesOnPython3(minor: nat)
    ensures PythonVersionAccepted(3, minor) == AtLeastPython37(3, minor)
  {
  }

  /** The intended test accepts every version at or after an accepted one. */
  lemma AtLeastPython37Monotone(major: nat, minor: nat, major': nat, minor': nat)
    requires AtLeastPython37(major, minor)
    requires major < major' || (major == major' && minor <= minor')
    ensures AtLeastPython37(major', minor')
  {
  }

  // ---------------------------------------------------------------------------
  // check_required_packages

  /** `required_packages`, in order. */
  const RequiredPackages: seq<String> :=
    ["airtest", "pytest", "allure-pytest", "opencv-contrib-python", "pillow", "requests"]

  /** `package.replace('-', '_')`: the name handed to `__import__`. */
  function ModuleName(package: String): String {
    Replace(package, "-", "_")
  }

  /** The required packages whose module name cannot be imported, in list order. */
  function MissingPackages(importable: set<String>): seq<String> {
    FilterMap(RequiredPackages, (package: String) => ModuleName(package) !in importable, Identity)
  }

  /** `check_required_packages`: the missing list, and whether it is empty. */
  method CheckRequiredPackages(importable: set<String>) returns (ok: bool, missing: seq<String>)
    ensures missing == MissingPackages(importable)
    ensures ok <==> missing == []
  {
    missing := CollectMissing(RequiredPackages, importable);
    ok := missing == [];
  }

  /** The loop of `check_required_packages`: each package whose module name fails to import is appended. */
  method CollectMissing(packages: seq<String>, importable: set<String>) returns (missing: seq<String>)
    ensures missing == FilterMap(packages, (package: String) => ModuleName(package) !in importable, Identity)
  {
    missing := [];
    for i := 0 to |packages|
      invariant missing == FilterMap(packages[..i], (package: String) => ModuleName(package) !in importable, Identity)
    {
      var package := packages[i];
      if Replace(package, "-", "_") !in importable {
        missing := missing + [package];
      }
      assert packages[..i + 1][..i] == packages[..i];
    }
    assert packages[..|packages|] == packages;
  }

  /** A package is reported missing exactly when it is required and its module name is not importable. */
  lemma MissingIff(importable: set<String>, package: String)
    ensures package in MissingPackages(importable) <==>
              package in RequiredPackages && ModuleName(package) !in importable
  {
    var unimportable := (p: String) => ModuleName(p) !in importable;
    FilterMapMember(RequiredPackages, unimportable, Identity, package);
  }

  /** With every module name importable the check passes. */
  lemma NothingMissing(importable: set<String>)
    requires forall package :: package in RequiredPackages ==> ModuleName(package) in importable
    ensures MissingPackages(importable) == []
  {
    if MissingPackages(importable) != [] {
      MissingIff(importable, MissingPackages(importable)[0]);
    }
  }

  /**
   * Pillow is looked up under the module name "pillow": it is reported
   * missing unless a module of that name imports, whatever else does.
   */
  lemma PillowLookedUpAsPillow(importable: set<String>)
    requires "pillow" !in importable
    ensures "pillow" in MissingPackages(importable)
  {
    var pillow := "pillow";
    forall i
      ensures !OccursAt(pillow, "-", i)
    {
      if 0 <= i < |pillow| {
        assert pillow[i..i + 1][0] == pillow[i] != '-';
      }
    }
    ReplaceAbsent("pillow", "-", "_");
    MissingIff(importable, "pillow");
  }

  /**
   * OpenCV is looked up under the module name "opencv_contrib_python": it is
   * reported missing unless a module of that name imports, whatever else does.
   */
  lemma OpenCvLookedUpByDistributionName(importable: set<String>)
    requires "opencv_contrib_python" !in importable
    ensures "opencv-contrib-python" in MissingPackages(importable)
  {
    OpenCvModuleName();
    MissingIff(importable, "opencv-contrib-python");
  }

  /** "opencv-contrib-python" with each `-` replaced is "opencv_contrib_python". */
  lemma OpenCvModuleName()
    ensures ModuleName("opencv-contrib-python") == "opencv_contrib_python"
  {
    OpenCvParts();
    ThreePartModuleName("opencv-contrib-python", "opencv", "contrib", "python");
  }

  /** The dash-free parts of the OpenCV package name, joined with `-` and with `_`. */
  lemma OpenCvParts()
    ensures "opencv" + "-" + "contrib" + "-" + "python" == "opencv-contrib-python"
    ensures "opencv" + "_" + "contrib" + "_" + "python" == "opencv_contrib_python"
  {
  }

  /** The module name of `a-b-c`, for dash-free parts, is `a_b_c`. */
  lemma ThreePartModuleName(package: String, a: String, b: String, c: String)
    requires '-' !in a && '-' !in b && '-' !in c
    requires package == a + "-" + b + "-" + c
    ensures ModuleName(package) == a + "_" + b + "_" + c
  {
    DashesReplaced(a, b, c);
  }

  /** In a name of three dash-free parts joined by `-`, both dashes become `_`. */
  lemma DashesReplaced(a: String, b: String, c: String)
    requires '-' !in a && '-' !in b && '-' !in c
    ensures Replace(a + "-" + b + "-" + c, "-", "_") == a + "_" + b + "_" + c
  {
    DashReplaced(b, c);
    ReplaceAfterPlain(a, "-", b + "-" + c, "_");
    assert a + "-" + b + "-" + c == a + "-" + (b + "-" + c);
    assert a + "_" + (b + "_" + c) == a + "_" + b + "_" + c;
  }

  /** In a name of two dash-free parts joined by `-`, the dash becomes `_`. */
  lemma DashReplaced(b: String, c: String)
    requires '-' !in b && '-' !in c
    ensures Replace(b + "-" + c, "-", "_") == b + "_" + c
  {
    NoDashOccurs(c);
    ReplaceAbsent(c, "-", "_");
    ReplaceAfterPlain(b, "-", c, "_");
  }

  /** A text without the character `-` has no occurrence of the pattern "-". */
  lemma NoDashOccurs(c: String)
    requires '-' !in c
    ensures !Contains(c, "-")
  {
    forall i
      ensures !OccursAt(c, "-", i)
    {
      if 0 <= i < |c| {
        assert c[i..i + 1][0] == c[i];
      }
    }
  }

  /**
   * The name each required package is imported under once installed:
   * Pillow installs the module `PIL` and opencv-contrib-python installs
   * `cv2`; for the others the `-` to `_` rule gives the module.
   */
  function ImportName(package: String): String {
    if package == "pillow" then "PIL"
    else if package == "opencv-contrib-python" then "cv2"
    else ModuleName(package)
  }

  /** The required packages whose import name cannot be imported, in list order. */
  function MissingByImportName(importable: set<String>): seq<String> {
    FilterMap(RequiredPackages, (package: String) => ImportName(package) !in importable, Identity)
  }

  /** With import names, a package is missing exactly when it is required and its import name is not importable. */
  lemma MissingByImportNameIff(importable: set<String>, package: String)
    ensures package in MissingByImportName(importable) <==>
              package in RequiredPackages && ImportName(package) !in importable
  {
    var unimportable := (p: String) => ImportName(p) !in importable;
    FilterMapMember(RequiredPackages, unimportable, Identity, package);
  }

  /** With import names, installed Pillow and OpenCV (modules `PIL` and `cv2`) are not reported missing. */
  lemma PillowAndOpenCvFound(importable: set<String>)
    requires "PIL" in importable && "cv2" in importable
    ensures "pillow" !in MissingByImportName(importable)
    ensures "opencv-contrib-python" !in MissingByImportName(importable)
  {
    MissingByImportNameIff(importable, "pillow");
    MissingByImportNameIff(importable, "opencv-contrib-python");
  }

  // ---------------------------------------------------------------------------
  // main

  /** What a check did: returned a value, or raised. */
  datatype CheckOutcome = Returned(value: bool) | Raised

  /** `sum(results)` over booleans: how many are true. */
  function CountTrue(results: seq<bool>): (n: nat)
    ensures n <= |results|
  {
    if results == [] then 0 else CountTrue(results[..|results| - 1]) + (if results[|results| - 1] then 1 else 0)
  }

  /** All checks passed exactly when every result is true. */
  lemma {:induction false} AllPassedIff(results: seq<bool>)
    ensures CountTrue(results) == |results| <==> forall i :: 0 <= i < |results| ==> results[i]
  {
    if results != [] {
      var init := results[..|results| - 1];
      AllPassedIff(init);
      if CountTrue(results) == |results| {
        assert CountTrue(init) == |init| && results[|results| - 1];
        forall i | 0 <= i < |results|
          ensures results[i]
        {
          if i < |init| {
            assert results[i] == init[i];
          }
        }
      } else if results[|results| - 1] {
        var k :| 0 <= k < |init| && !init[k];
        assert results[k] == init[k];
      }
    }
  }

  /**
   * The loop and summary of `main`: one result per check, `False` for a
   * check that raised, the number that passed, and whether all did.
   */
  method RunChecks(outcomes: seq<CheckOutcome>) returns (results: seq<bool>, passed: nat, allPassed: bool)
    ensures |results| == |outcomes|
    ensures forall i :: 0 <= i < |outcomes| ==> results[i] == (outcomes[i] == Returned(true))
    ensures passed == CountTrue(results)
    ensures allPassed <==> forall i :: 0 <= i < |outcomes| ==> outcomes[i] == Returned(true)
  {
    results := [];
    for i := 0 to |outcomes|
      invariant |results| == i
      invariant forall k :: 0 <= k < i ==> results[k] == (outcomes[k] == Returned(true))
    {
      match outcomes[i] {
        case Returned(value) => results := results + [value];
        case Raised => results := results + [false];
      }
    }
    passed := CountTrue(results);
    allPassed := passed == |results|;
    AllPassedIff(results);
  }
}
