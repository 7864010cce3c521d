/**
 * The browser-side install service: what it uploads, which manifest it sends to
 * the device for each kind of file, how it turns upload and install progress
 * into one percentage, and the state an installation ends in.
 */
module InstallService {
  import opened Wrappers
  import opened Text
  import opened DeviceInstall

  /** One installation as the UI shows it; each update also notifies listeners, which is not modelled. */
  class Installation {
    var progress: int
    var state: string
    var settled: bool
    var success: bool
    var error: Option<string>
    var href: Option<string>
    var manifest: Option<Manifest>
    var launch: bool

    constructor(initialState: string)
      ensures progress == 0 && state == initialState
      ensures !settled && !success && error.None? && href.None? && manifest.None? && launch
    {
      progress := 0;
      state := initialState;
      settled := false;
      success := false;
      error := None;
      href := None;
      manifest := None;
      launch := true;
    }

    /** Progress is shown as a whole percentage, rounded down. */
    method Update(p: real, newState: string)
      modifies this
      ensures progress == p.Floor && progress as real <= p < progress as real + 1.0
      ensures state == newState
      ensures settled == old(settled) && success == old(success) && error == old(error)
      ensures href == old(href) && manifest == old(manifest) && launch == old(launch)
    {
      progress := p.Floor;
      state := newState;
    }

    method Okay(finalState: string)
      modifies this
      ensures settled && success && progress == 100 && state == finalState
      ensures error == old(error) && href == old(href) && manifest == old(manifest) && launch == old(launch)
    {
      settled := true;
      progress := 100;
      success := true;
      state := finalState;
    }

    /** A failure keeps the last state shown and records the error text. */
    method Fail(err: Option<string>)
      modifies this
      ensures settled && !success && progress == 100 && error == err
      ensures state == old(state) && href == old(href) && manifest == old(manifest) && launch == old(launch)
    {
      settled := true;
      progress := 100;
      success := false;
      error := err;
    }
  }

  /** What a failed promise carries: `err.code || err.message` is shown. */
  datatype ErrorInfo = ErrorInfo(code: Option<string>, message: Option<string>)

  function FailureText(err: ErrorInfo): (text: Option<string>)
    ensures err.code.Some? && err.code.value != [] ==> text == err.code
    ensures (err.code.None? || err.code.value == []) ==> text == err.message
  {
    if err.code.Some? && err.code.value != "" then err.code else err.message
  }

  // ---------------------------------------------------------------------------
  // Choosing what to do with a file
  // ---------------------------------------------------------------------------

  /** The name of the first selected file, `unknown` when nothing was selected. */
  function OriginalFileName(files: seq<string>): (name: string)
    ensures files != [] ==> name == files[0]
  {
    if files != [] then files[0] else "unknown"
  }

  predicate IsApkFile(name: string) {
    EndsWithIgnoringCase(name, ".apk") || EndsWithIgnoringCase(name, ".aab")
  }

  predicate IsIpaFile(name: string) {
    EndsWithIgnoringCase(name, ".ipa")
  }

  /** What is asked of the device after the upload. */
  datatype Plan = InstallIpa | InstallPackage | PushOnly

  function ChoosePlan(isIOS: bool, name: string): (p: Plan)
    ensures p == InstallIpa <==> isIOS && IsIpaFile(name)
    ensures p == InstallPackage <==> !(isIOS && IsIpaFile(name)) && IsApkFile(name)
    ensures p == PushOnly <==> !(isIOS && IsIpaFile(name)) && !IsApkFile(name)
  {
    if isIOS && IsIpaFile(name) then InstallIpa
    else if IsApkFile(name) then InstallPackage
    else PushOnly
  }

  /**
   * The manifest sent with the install request. An iOS package gets an empty one;
   * an Android package gets the one read from storage (or a stand-in when that
   * read fails) with the file name added; anything else is marked push-only.
   * A stored manifest is passed on untouched apart from its file name, so a
   * push-only flag in it would reach the device.
   */
  function RequestManifest(plan: Plan, name: string, stored: Option<Manifest>): (m: Manifest)
    ensures plan == PushOnly ==> IsPushOnly(m) && m.package == name
    ensures plan == InstallIpa ==> !IsPushOnly(m)
    ensures plan == InstallPackage ==> (IsPushOnly(m) <==> stored.Some? && IsPushOnly(stored.value))
    ensures plan == InstallPackage && stored.Some? ==>
      m.package == stored.value.package && m.launcherActivities == stored.value.launcherActivities
    ensures plan != InstallIpa ==> m.originalFileName == Some(name)
  {
    match plan
    case InstallIpa => Manifest("", None, None, None)
    case InstallPackage =>
      if stored.Some? then stored.value.(originalFileName := Some(name))
      else Manifest("unknown", None, Some(name), Some([]))
    case PushOnly => Manifest(name, Some(true), Some(name), Some([]))
  }

  /**
   * The storage unit's manifest is what the APK reader finds in `AndroidManifest.xml`;
   * `isPushOnly` is a key only the upload flow writes, so a stored manifest does not carry it.
   */
  predicate FromApkReader(stored: Option<Manifest>) {
    stored.Some? ==> !IsPushOnly(stored.value)
  }

  /** Push-only on the request exactly for the push plan, given a manifest as the APK reader yields it. */
  lemma PushOnlyExactlyOnPushPlan(plan: Plan, name: string, stored: Option<Manifest>)
    requires FromApkReader(stored)
    ensures plan == PushOnly <==> IsPushOnly(RequestManifest(plan, name, stored))
  {
  }

  /** A stored manifest that did carry the flag would turn an `.apk` install into a push. */
  lemma StoredPushOnlyFlagIsForwarded(name: string, stored: Manifest, now: nat)
    requires IsPushOnly(stored)
    ensures ChooseBranch(RequestManifest(InstallPackage, name, Some(stored)), now).PushFile?
  {
  }

  /** A pushed file is never launched; installs use the installation's `launch` flag. */
  function RequestLaunch(plan: Plan, launch: bool): (l: bool)
    ensures l <==> plan != PushOnly && launch
  {
    if plan == PushOnly then false else launch
  }

  /**
   * How the device treats the request: a pushed file lands under its own name in
   * the device's temporary directory, an `.apk` is installed from a timestamped
   * path and an `.aab` from the fixed path, never pushed.
   */
  lemma PlanReachesDeviceBranch(isIOS: bool, name: string, stored: Option<Manifest>, now: nat)
    requires name != [] && FromApkReader(stored)
    ensures var plan := ChoosePlan(isIOS, name);
      var b := ChooseBranch(RequestManifest(plan, name, stored), now);
      && (plan == PushOnly <==> b.PushFile?)
      && (plan == PushOnly ==> b.target == DeviceTempDir + name)
      && (plan == InstallPackage ==> (b.InstallApk? <==> IsApkName(name)))
  {
  }

  // ---------------------------------------------------------------------------
  // Progress
  // ---------------------------------------------------------------------------

  /** The upload fills the first half of the bar, and only when the browser knows the total. */
  function UploadProgress(loaded: nat, total: nat, lengthComputable: bool): (p: Option<real>)
    ensures p.Some? <==> lengthComputable && total > 0
    ensures p.Some? && loaded <= total ==> 0.0 <= p.value <= 50.0
  {
    if lengthComputable && total > 0 then
      var ratio := loaded as real / total as real;
      assert loaded <= total ==> ratio <= 1.0;
      Some(ratio * 100.0 / 2.0)
    else None
  }

  /** The device's own 0..100 progress fills the second half. */
  function InstallStepProgress(deviceProgress: real): (p: real)
    ensures 0.0 <= deviceProgress <= 100.0 ==> 50.0 <= p <= 100.0
    ensures p - 50.0 == deviceProgress / 2.0
  {
    50.0 + deviceProgress / 2.0
  }

  /** The whole bar never goes backwards when the upload ends and the install begins. */
  lemma ProgressContinuesAcrossHalves(loaded: nat, total: nat, deviceProgress: real)
    requires 0 < total && loaded <= total && 0.0 <= deviceProgress
    ensures UploadProgress(loaded, total, true).value <= 50.0 <= InstallStepProgress(deviceProgress)
  {
  }

  // ---------------------------------------------------------------------------
  // Final state
  // ---------------------------------------------------------------------------

  /** The state an uploaded file settles in, as written: decided by the file name alone. */
  function FinalStateAsWritten(name: string): string {
    if IsApkFile(name) || IsIpaFile(name) then "installed" else "pushed"
  }

  /** An `.ipa` chosen on an Android device is pushed, yet reported as installed. */
  lemma IpaOnAndroidReportedInstalled()
    ensures ChoosePlan(false, "app.ipa") == PushOnly
    ensures FinalStateAsWritten("app.ipa") == "installed"
  {
    var name := "app.ipa";
    assert name[|name| - 4..] == ".ipa";
    assert IsIpaFile(name);
    assert !EndsWithIgnoringCase(name, ".apk") by {
      assert LowerAscii(name[|name| - 4..][1]) == 'i';
    }
    assert !EndsWithIgnoringCase(name, ".aab") by {
      assert LowerAscii(name[|name| - 4..][1]) == 'i';
    }
  }

  /** The state an installation settles in: `pushed` exactly when the file was pushed. */
  function FinalState(plan: Plan): (state: string)
    ensures state == "pushed" <==> plan == PushOnly
    ensures state == "installed" <==> plan != PushOnly
  {
    if plan == PushOnly then "pushed" else "installed"
  }

  /** The corrected state agrees with what the device did with the file. */
  lemma FinalStateMatchesDevice(isIOS: bool, name: string, stored: Option<Manifest>, now: nat)
    requires FromApkReader(stored)
    ensures var plan := ChoosePlan(isIOS, name);
      FinalState(plan) == "pushed" <==> ChooseBranch(RequestManifest(plan, name, stored), now).PushFile?
  {
  }

  /** The name-based state differs from the corrected one only for an `.ipa` that was not on iOS. */
  lemma FinalStateAsWrittenDiffers(isIOS: bool, name: string)
    ensures FinalStateAsWritten(name) != FinalState(ChoosePlan(isIOS, name)) <==>
      !isIOS && IsIpaFile(name) && !IsApkFile(name)
  {
  }
}
