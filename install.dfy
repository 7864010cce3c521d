/**
 * The decisions the device-side install plugin takes around its adb and HTTP
 * calls: which branch and device path a file goes to, how the `pm install`
 * output is read, which reply code a failure becomes, how progress is reported,
 * which activity is launched afterwards and which storage blob is cleaned up.
 * The calls themselves are not modelled; their outcomes are parameters.
 */
module DeviceInstall {
  import opened Wrappers
  import opened Text

  // ---------------------------------------------------------------------------
  // Errors
  // ---------------------------------------------------------------------------

  /** A rejected promise's error, as far as the plugin looks at it: its `code`. */
  datatype ErrorValue = ErrorValue(code: Option<string>)

  /** Why a step of the install chain failed. */
  datatype Failure = TimedOut | Thrown(error: ErrorValue)

  /** `InstallationError(err)`: the error carries a code that begins with `INSTALL_`. */
  function IsInstallationError(err: ErrorValue): (r: bool)
    ensures r <==> err.code.Some? && StartsWith(err.code.value, "INSTALL_")
  {
    err.code.Some? && err.code.value != "" && StartsWith(err.code.value, "INSTALL_")
  }

  // ---------------------------------------------------------------------------
  // Branch and target choice
  // ---------------------------------------------------------------------------

  /** The fields of the install message's manifest that the plugin reads. */
  datatype Manifest = Manifest(
    package: string,
    isPushOnly: Option<bool>,
    originalFileName: Option<string>,
    launcherActivities: Option<seq<string>>)

  /** `manifest.originalFileName || 'file'`. */
  function FileName(m: Manifest): (name: string)
    ensures name != []
    ensures m.originalFileName.Some? && m.originalFileName.value != [] ==> name == m.originalFileName.value
  {
    if m.originalFileName.Some? && m.originalFileName.value != "" then m.originalFileName.value else "file"
  }

  /** `manifest.isPushOnly === true`: only a boolean true selects the push branch. */
  predicate IsPushOnly(m: Manifest) {
    m.isPushOnly == Some(true)
  }

  predicate IsApkName(name: string) {
    EndsWithIgnoringCase(name, ".apk")
  }

  const DeviceTempDir: string := "/data/local/tmp/"

  /** `Date.now()` written in decimal. */
  function Decimal(n: nat): (s: string)
    ensures |s| >= 1
    ensures forall k :: 0 <= k < |s| ==> '0' <= s[k] <= '9'
    ensures n < 10 <==> |s| == 1
  {
    (if n < 10 then "" else Decimal(n / 10)) + [('0' as int + n % 10) as char]
  }

  /** Different instants give different names. */
  lemma {:induction false} DecimalInjective(a: nat, b: nat)
    requires Decimal(a) == Decimal(b)
    ensures a == b
  {
    var da, db := Decimal(a), Decimal(b);
    assert da[|da| - 1] == db[|db| - 1];
    if a >= 10 {
      assert da[..|da| - 1] == Decimal(a / 10);
      assert db[..|db| - 1] == Decimal(b / 10);
      DecimalInjective(a / 10, b / 10);
    }
  }

  /** Where the file goes: pushed as is, installed from a timestamped APK path, or installed from a fixed path. */
  datatype Branch = PushFile(target: string) | InstallApk(target: string) | InstallApp(target: string)

  function ChooseBranch(m: Manifest, now: nat): (b: Branch)
    ensures b.PushFile? <==> IsPushOnly(m)
    ensures b.InstallApk? <==> !IsPushOnly(m) && IsApkName(FileName(m))
    ensures b.InstallApp? <==> !IsPushOnly(m) && !IsApkName(FileName(m))
    ensures StartsWith(b.target, DeviceTempDir)
    ensures b.PushFile? ==> b.target == DeviceTempDir + FileName(m)
    ensures b.InstallApk? ==> b.target == DeviceTempDir + "_install_" + Decimal(now) + ".apk"
    ensures b.InstallApp? ==> b.target == DeviceTempDir + "_app.apk"
  {
    if IsPushOnly(m) then PushFile(DeviceTempDir + FileName(m))
    else if IsApkName(FileName(m)) then InstallApk(DeviceTempDir + "_install_" + Decimal(now) + ".apk")
    else InstallApp(DeviceTempDir + "_app.apk")
  }

  /** Two APK installs started at different milliseconds push to different device paths. */
  lemma ApkTargetsDiffer(m: Manifest, now: nat, later: nat)
    requires !IsPushOnly(m) && IsApkName(FileName(m)) && now != later
    ensures ChooseBranch(m, now).target != ChooseBranch(m, later).target
  {
    var prefix := DeviceTempDir + "_install_";
    var a, b := ChooseBranch(m, now).target, ChooseBranch(m, later).target;
    if a == b {
      assert a == prefix + Decimal(now) + ".apk";
      assert b == prefix + Decimal(later) + ".apk";
      assert |Decimal(now)| == |Decimal(later)|;
      assert Decimal(now) == a[|prefix|..|a| - 4];
      assert Decimal(later) == b[|prefix|..|b| - 4];
      DecimalInjective(now, later);
    }
  }

  // ---------------------------------------------------------------------------
  // Reading `pm install` output
  // ---------------------------------------------------------------------------

  /** Output that makes the plugin uninstall the old package and try once more. */
  predicate NeedsReinstall(result: string) {
    Contains(result, "INSTALL_PARSE_FAILED_INCONSISTENT_CERTIFICATES") || Contains(result, "INSTALL_FAILED_VERSION_DOWNGRADE")
  }

  datatype InstallResult = Installed(output: string) | InstallFailed(failure: Failure)

  /**
   * The install step: the trimmed output of the first `pm install`; if it asks for
   * it, the uninstall (which may fail) and the trimmed output of the second one.
   * An output without `Success` fails with the output itself as the error code.
   */
  function PmInstall(firstOutput: string, uninstallFailure: Option<Failure>, retryOutput: string): (r: InstallResult) {
    var result := Trim(firstOutput);
    if Contains(result, "Success") then Installed(result)
    else if NeedsReinstall(result) then
      if uninstallFailure.Some? then InstallFailed(uninstallFailure.value)
      else
        var second := Trim(retryOutput);
        if Contains(second, "Success") then Installed(second)
        else InstallFailed(Thrown(ErrorValue(Some(second))))
    else InstallFailed(Thrown(ErrorValue(Some(result))))
  }

  /**
   * `Success` anywhere in the first output installs; output that does not ask for
   * a reinstall fails with its trimmed text as the code, whatever the retry would
   * have said; a reinstall happens at most once, the second output being final
   * even when it asks for another one.
   */
  lemma PmInstallClassifies(firstOutput: string, uninstallFailure: Option<Failure>, retryOutput: string)
    ensures var result := Trim(firstOutput);
      var r := PmInstall(firstOutput, uninstallFailure, retryOutput);
      && (Contains(result, "Success") ==> r == Installed(result))
      && (!Contains(result, "Success") && !NeedsReinstall(result) ==>
            r == InstallFailed(Thrown(ErrorValue(Some(result)))) && r == PmInstall(firstOutput, None, ""))
      && (!Contains(result, "Success") && NeedsReinstall(result) && uninstallFailure.None? ==>
            var second := Trim(retryOutput);
            r == if Contains(second, "Success") then Installed(second) else InstallFailed(Thrown(ErrorValue(Some(second)))))
      && (r.Installed? ==> Contains(r.output, "Success"))
  {
  }

  // ---------------------------------------------------------------------------
  // Replies
  // ---------------------------------------------------------------------------

  datatype Reply = Okay(code: string) | Fail(code: string)

  /** The failure reply: timeouts and other errors by branch, an installation error's own code on install branches. */
  function FailureCode(b: Branch, f: Failure): (code: string)
    ensures b.PushFile? ==> code == (if f.TimedOut? then "PUSH_ERROR_TIMEOUT" else "PUSH_ERROR_UNKNOWN")
    ensures !b.PushFile? && f.TimedOut? ==> code == "INSTALL_ERROR_TIMEOUT"
    ensures !b.PushFile? && f.Thrown? && IsInstallationError(f.error) ==> code == f.error.code.value
    ensures !b.PushFile? && f.Thrown? && !IsInstallationError(f.error) ==> code == "INSTALL_ERROR_UNKNOWN"
  {
    if b.PushFile? then
      if f.TimedOut? then "PUSH_ERROR_TIMEOUT" else "PUSH_ERROR_UNKNOWN"
    else if f.TimedOut? then "INSTALL_ERROR_TIMEOUT"
    else if IsInstallationError(f.error) then f.error.code.value
    else "INSTALL_ERROR_UNKNOWN"
  }

  /** The reply sent at the end of the chain: okay when no step failed, otherwise the failure's code. */
  function FinalReply(b: Branch, failure: Option<Failure>): (r: Reply)
    ensures failure.None? <==> r.Okay?
    ensures r.Okay? ==> r.code == if b.PushFile? then "PUSH_SUCCEEDED" else "INSTALL_SUCCEEDED"
    ensures r.Fail? ==> r.code == FailureCode(b, failure.value)
  {
    if failure.None? then Okay(if b.PushFile? then "PUSH_SUCCEEDED" else "INSTALL_SUCCEEDED")
    else Fail(FailureCode(b, failure.value))
  }

  /** Every reply of a push names the push, and every reply of an install begins with `INSTALL_`. */
  lemma ReplyCodesNameTheirBranch(b: Branch, failure: Option<Failure>)
    ensures b.PushFile? ==> StartsWith(FinalReply(b, failure).code, "PUSH_")
    ensures !b.PushFile? ==> StartsWith(FinalReply(b, failure).code, "INSTALL_")
  {
    var code := FinalReply(b, failure).code;
    if b.PushFile? {
      assert code[..5] == "PUSH_";
    } else if failure.Some? && failure.value.Thrown? && IsInstallationError(failure.value.error) {
    } else {
      assert code[..8] == "INSTALL_";
    }
  }

  /**
   * `pm` reports a failure as `Failure [CODE]`; the whole trimmed text becomes the
   * code, which does not begin with `INSTALL_`, so the reply is the generic one and
   * the bracketed code is not passed on.
   */
  lemma FailureOutputRepliesUnknown(firstOutput: string, b: Branch)
    requires !b.PushFile?
    requires var result := Trim(firstOutput);
      StartsWith(result, "Failure") && !Contains(result, "Success") && !NeedsReinstall(result)
    ensures var r := PmInstall(firstOutput, None, "");
      && r == InstallFailed(Thrown(ErrorValue(Some(Trim(firstOutput)))))
      && FinalReply(b, Some(r.failure)) == Fail("INSTALL_ERROR_UNKNOWN")
  {
    var result := Trim(firstOutput);
    assert result[0] == result[..7][0] == 'F';
  }

  // ---------------------------------------------------------------------------
  // Progress
  // ---------------------------------------------------------------------------

  /** The stage of the first report, at 0%. */
  function InitialStage(b: Branch): string {
    if b.PushFile? then "pushing_file" else "downloading"
  }

  /** The download reports 25·received/length, and only while the length is known and non-zero. */
  function DownloadProgress(received: nat, contentLength: Option<int>): (p: Option<real>)
    ensures p.Some? <==> contentLength.Some? && contentLength.value != 0
  {
    if contentLength.None? || contentLength.value == 0 then None
    else Some(25.0 * (received as real / contentLength.value as real))
  }

  lemma DownloadProgressBounds(received: nat, length: nat)
    requires 0 < length && received <= length
    ensures var p := DownloadProgress(received, Some(length)).value; 0.0 <= p <= 25.0
  {
    var r, l := received as real, length as real;
    var q := r / l;
    assert q * l == r;
    assert (1.0 - q) * l == l - r;
  }

  function Clamp01(x: real): (y: real)
    ensures 0.0 <= y <= 1.0
  {
    if x < 0.0 then 0.0 else if x > 1.0 then 1.0 else x
  }

  /**
   * The push reports 25 + 25·clamp(transferred/size, 0, 1). An empty file makes the
   * ratio 0/0 (no number, so no meaningful report) or x/0 (infinity, clamped to 1).
   */
  function PushProgress(transferred: nat, size: nat): (p: Option<real>)
    ensures p.Some? ==> 25.0 <= p.value <= 50.0
    ensures p.None? <==> size == 0 && transferred == 0
  {
    if size == 0 then (if transferred == 0 then None else Some(50.0))
    else Some(25.0 + 25.0 * Clamp01(transferred as real / size as real))
  }

  /** More bytes transferred never lowers the reported push progress, and a finished push reports 50. */
  lemma PushProgressMonotone(a: nat, b: nat, size: nat)
    requires 0 < size && a <= b
    ensures PushProgress(a, size).value <= PushProgress(b, size).value
    ensures b >= size ==> PushProgress(b, size).value == 50.0
  {
    var s := size as real;
    assert a as real / s <= b as real / s;
    if b >= size {
      assert b as real / s >= 1.0;
    }
  }

  const GuessStart: real := 50.0
  const GuessEnd: real := 90.0

  /** One tick of the install guesstimate: 1.5/40 of the remaining distance to 90, capped at 90. */
  function NextGuess(g: real): real {
    var step := g + 1.5 * (GuessEnd - g) / (GuessEnd - GuessStart);
    if step < GuessEnd then step else GuessEnd
  }

  /** The guesstimate stays in [50, 90], never decreases, and below 90 it strictly grows yet never reaches 90. */
  lemma NextGuessBounds(g: real)
    requires GuessStart <= g <= GuessEnd
    ensures GuessStart <= g <= NextGuess(g) <= GuessEnd
    ensures g < GuessEnd ==> g < NextGuess(g) < GuessEnd
  {
    assert 1.5 * (GuessEnd - g) / (GuessEnd - GuessStart) == (GuessEnd - g) * 0.0375;
  }

  /** The `guesstimate` of one install, moved by each `progressed` tick. */
  class InstallProgress {
    var guesstimate: real

    predicate Valid()
      reads this
    {
      GuessStart <= guesstimate <= GuessEnd
    }

    constructor()
      ensures guesstimate == GuessStart
      ensures Valid()
    {
      guesstimate := GuessStart;
    }

    /** One tick: the new guesstimate, which is also the value reported. */
    method Tick() returns (report: real)
      requires Valid()
      modifies this
      ensures guesstimate == NextGuess(old(guesstimate)) && report == guesstimate
      ensures old(guesstimate) <= guesstimate < GuessEnd || old(guesstimate) == guesstimate == GuessEnd
      ensures Valid()
    {
      NextGuessBounds(guesstimate);
      guesstimate := NextGuess(guesstimate);
      report := guesstimate;
    }
  }

  // ---------------------------------------------------------------------------
  // Launching the installed app
  // ---------------------------------------------------------------------------

  datatype LaunchActivity = LaunchActivity(action: string, component: string, category: seq<string>, flags: int)

  /** `FLAG_ACTIVITY_NEW_TASK | FLAG_ACTIVITY_RESET_TASK_IF_NEEDED`. */
  const LaunchFlags: int := 0x10200000

  /** An activity name without a dot is relative to the package and gets a leading dot. */
  function ActivityPart(name: string): (part: string)
    ensures '.' in part
    ensures '.' in name ==> part == name
    ensures '.' !in name ==> part == "." + name
  {
    if '.' in name then name else "." + name
  }

  /** The launch after a successful install: only when asked for and a launcher activity is known, using the first. */
  function LaunchRequest(launch: bool, pkg: string, activities: Option<seq<string>>): (r: Option<LaunchActivity>)
    ensures r.Some? <==> launch && activities.Some? && |activities.value| > 0
    ensures r.Some? ==>
      && r.value.component == pkg + "/" + ActivityPart(activities.value[0])
      && r.value.action == "android.intent.action.MAIN"
      && r.value.category == ["android.intent.category.LAUNCHER"]
      && r.value.flags == LaunchFlags
  {
    if launch && activities.Some? && |activities.value| > 0 then
      Some(LaunchActivity("android.intent.action.MAIN", pkg + "/" + ActivityPart(activities.value[0]),
                          ["android.intent.category.LAUNCHER"], LaunchFlags))
    else None
  }

  /** The progress reported just before launching: 95 on the APK branch, 90 on the other install branch. */
  function LaunchProgress(b: Branch): (p: int)
    requires !b.PushFile?
    ensures b.InstallApk? <==> p == 95
  {
    if b.InstallApk? then 95 else 90
  }

  // ---------------------------------------------------------------------------
  // Storage cleanup
  // ---------------------------------------------------------------------------

  /** `href.split('/')[3]`, when there are at least four parts. */
  function BlobId(href: string): (id: Option<string>)
    ensures id.Some? ==> '/' !in id.value
  {
    var parts := Split(href, '/');
    if |parts| >= 4 then Some(parts[3]) else None
  }

  /**
   * The storage service's temporary hrefs are `/s/<plugin>/<id>` followed by
   * `/<name>` when the file has a name; for any plugin and id free of slashes the
   * fourth part is the id.
   */
  lemma BlobIdOfTempHref(plugin: string, id: string, name: Option<string>)
    requires '/' !in plugin && '/' !in id
    ensures BlobId("/s/" + (plugin + ("/" + (id + (if name.Some? then "/" + name.value else ""))))) == Some(id)
  {
    var tail := if name.Some? then "/" + name.value else "";
    FirstPiece(id, tail);
    TempHrefParts(plugin, id + tail);
  }

  /** The leading slash, `s` and the plugin name are the first three parts of a temporary href. */
  lemma TempHrefParts(plugin: string, rest: string)
    requires '/' !in plugin
    ensures Split("/s/" + (plugin + ("/" + rest)), '/') == ["", "s", plugin] + Split(rest, '/')
  {
    var h2 := plugin + ("/" + rest);
    SplitAfterName(plugin, rest);
    SplitAfterS(h2);
    SlashThenS(h2);
    SplitAfterSlash("s/" + h2);
  }

  lemma SlashThenS(t: string)
    ensures "/s/" + t == "/" + ("s/" + t)
  {
    Associative("/", "s/", t);
  }

  lemma SplitAfterName(a: string, t: string)
    requires '/' !in a
    ensures Split(a + ("/" + t), '/') == [a] + Split(t, '/')
  {
    SplitAfterPiece(a, '/', t);
    assert a + ['/'] + t == a + ("/" + t);
  }

  lemma SplitAfterSlash(t: string)
    ensures Split("/" + t, '/') == [""] + Split(t, '/')
  {
    SplitAfterPiece("", '/', t);
    assert "" + ['/'] + t == "/" + t;
  }

  lemma SplitAfterS(t: string)
    ensures Split("s/" + t, '/') == ["s"] + Split(t, '/')
  {
    SplitAfterPiece("s", '/', t);
    assert "s" + ['/'] + t == "s/" + t;
  }

  /** A piece free of the separator, followed by nothing or by the separator, is the first part. */
  lemma FirstPiece(a: string, b: string)
    requires '/' !in a && (b == [] || b[0] == '/')
    ensures Split(a + b, '/')[0] == a
  {
    if b == [] {
      assert a + b == a;
    } else {
      calc {
        Split(a + b, '/');
        { assert a + b == a + ['/'] + b[1..]; }
        Split(a + ['/'] + b[1..], '/');
        { SplitAfterPiece(a, '/', b[1..]); }
        [a] + Split(b[1..], '/');
      }
    }
  }

  /** Where the plugin asks the storage service to drop the blob. */
  function CleanupPath(href: string): (path: Option<string>)
    ensures path.Some? <==> BlobId(href).Some?
  {
    var id := BlobId(href);
    if id.Some? then Some("/s/blob/" + id.value + "/cleanup") else None
  }
}
