/** The installer's result channel: the broadcast the platform sends when an
    install session ends is decoded into a typed result, and a session that
    cannot even be written or committed reports its own failure. */
module Installer {
  import opened Util

  /** The status codes of `android.content.pm.PackageInstaller`. */
  const STATUS_PENDING_USER_ACTION: int := -1
  const STATUS_SUCCESS: int := 0
  const STATUS_FAILURE: int := 1
  const STATUS_FAILURE_BLOCKED: int := 2
  const STATUS_FAILURE_ABORTED: int := 3
  const STATUS_FAILURE_INVALID: int := 4
  const STATUS_FAILURE_CONFLICT: int := 5
  const STATUS_FAILURE_STORAGE: int := 6
  const STATUS_FAILURE_INCOMPATIBLE: int := 7

  const UNKNOWN_PACKAGE: string := "Unknown package"
  const UNKNOWN_REASON: string := "Unknown reason"

  /** `InstallationResult`; `Failed.statusCode` defaults to -1. */
  datatype InstallationResult =
    | Success(packageName: string, message: string)
    | Failed(packageName: string, error: string, statusCode: int)
    | PendingUserAction(packageName: string, message: string)

  /** The six failure codes that have their own error text. */
  predicate HasFixedText(status: int)
  {
    status == STATUS_FAILURE_ABORTED || status == STATUS_FAILURE_BLOCKED || status == STATUS_FAILURE_CONFLICT
    || status == STATUS_FAILURE_INCOMPATIBLE || status == STATUS_FAILURE_INVALID || status == STATUS_FAILURE_STORAGE
  }

  /** The error text of a failed install: a fixed text for the six known
      failure codes, the platform's message for any other code. */
  function ErrorText(status: int, message: string): (error: string)
    ensures !HasFixedText(status) ==> error == message
  {
    if status == STATUS_FAILURE_ABORTED then "Installation was aborted"
    else if status == STATUS_FAILURE_BLOCKED then "Installation was blocked"
    else if status == STATUS_FAILURE_CONFLICT then "Package conflict detected"
    else if status == STATUS_FAILURE_INCOMPATIBLE then "Package is incompatible"
    else if status == STATUS_FAILURE_INVALID then "Invalid package"
    else if status == STATUS_FAILURE_STORAGE then "Insufficient storage"
    else message
  }

  /** The six fixed texts are pairwise different, so the error text of a
      known failure names its code. */
  lemma FixedTextsDistinct(a: int, b: int, m: string, n: string)
    requires HasFixedText(a) && HasFixedText(b) && a != b
    ensures ErrorText(a, m) != ErrorText(b, n)
  {
    var ta, tb := ErrorText(a, m), ErrorText(b, n);
    if |ta| == |tb| {
      assert {a, b} == {STATUS_FAILURE_ABORTED, STATUS_FAILURE_BLOCKED};
      assert ta[17] != tb[17];
    }
  }

  /** `InstallReceiver.onReceive`: the three extras, each possibly missing,
      decoded into exactly one result. A missing package name or message
      gets a placeholder; a missing status reads as -1, which is the
      pending-user-action code. */
  function Decode(packageExtra: Option<string>, statusExtra: Option<int>, messageExtra: Option<string>): (r: InstallationResult)
    ensures r.packageName == (if packageExtra.Some? then packageExtra.value else UNKNOWN_PACKAGE)
    ensures r.PendingUserAction? <==> statusExtra.None? || statusExtra.value == STATUS_PENDING_USER_ACTION
    ensures r.Success? <==> statusExtra == Some(STATUS_SUCCESS)
    ensures r.Failed? ==> r.statusCode == statusExtra.value && r.error == ErrorText(statusExtra.value, MessageOf(messageExtra))
    ensures !r.Failed? ==> r.message == MessageOf(messageExtra)
  {
    var packageName := if packageExtra.Some? then packageExtra.value else UNKNOWN_PACKAGE;
    var status := if statusExtra.Some? then statusExtra.value else STATUS_PENDING_USER_ACTION;
    var message := MessageOf(messageExtra);
    if status == STATUS_PENDING_USER_ACTION then PendingUserAction(packageName, message)
    else if status == STATUS_SUCCESS then Success(packageName, message)
    else Failed(packageName, ErrorText(status, message), status)
  }

  function MessageOf(messageExtra: Option<string>): string
  {
    if messageExtra.Some? then messageExtra.value else UNKNOWN_REASON
  }

  /** The status code a result stands for. */
  function StatusOf(r: InstallationResult): int
  {
    match r
    case Success(_, _) => STATUS_SUCCESS
    case PendingUserAction(_, _) => STATUS_PENDING_USER_ACTION
    case Failed(_, _, code) => code
  }

  /** Decoding loses nothing about the outcome: the status code and the
      package name can be read back from every decoded result, and so can
      the message unless a fixed error text replaced it. */
  lemma {:induction false} DecodeRoundTrip(pkg: string, status: int, message: string)
    ensures StatusOf(Decode(Some(pkg), Some(status), Some(message))) == status
    ensures Decode(Some(pkg), Some(status), Some(message)).packageName == pkg
    ensures !HasFixedText(status) ==> match Decode(Some(pkg), Some(status), Some(message))
      case Failed(_, error, _) => error == message
      case Success(_, m) => m == message
      case PendingUserAction(_, m) => m == message
  {
    var r := Decode(Some(pkg), Some(status), Some(message));
    if status != STATUS_PENDING_USER_ACTION && status != STATUS_SUCCESS {
      assert r.Failed? && r.statusCode == status;
    }
  }

  /** A broadcast without a status is taken for a request to confirm with
      the user, whatever else it carries. */
  lemma MissingStatusIsPending(pkg: Option<string>, message: Option<string>)
    ensures Decode(pkg, None, message) == Decode(pkg, Some(STATUS_PENDING_USER_ACTION), message)
    ensures Decode(pkg, None, message).PendingUserAction?
  {
  }

  /** How writing and committing the install session ended: committed, an
      `IOException`, or any other exception; `message` is the exception's
      message, which may be null. */
  datatype SessionOutcome = Committed | IoError(message: Option<string>) | OtherError(message: Option<string>)

  /** What `installApp` returns and what it emits on its own. */
  datatype InstallAttempt = InstallAttempt(started: bool, emitted: seq<InstallationResult>)

  /** A possibly-null message as a string template renders it. */
  function Rendered(message: Option<string>): string
  {
    if message.Some? then message.value else "null"
  }

  /** `installApp(packageName, apkPath)` given how the session I/O ended. */
  function InstallApp(packageName: string, outcome: SessionOutcome): (a: InstallAttempt)
    ensures a.started <==> outcome.Committed?
    ensures a.started ==> a.emitted == []
    ensures !a.started ==> (
      && |a.emitted| == 1 && a.emitted[0].Failed?
      && a.emitted[0].packageName == packageName && a.emitted[0].statusCode == -1)
    ensures outcome.IoError? ==> (
      && StartsWith(a.emitted[0].error, "Installation failed: ")
      && a.emitted[0].error == "Installation failed: " + Rendered(outcome.message))
    ensures outcome.OtherError? ==> (
      && StartsWith(a.emitted[0].error, "Unexpected error: ")
      && a.emitted[0].error == "Unexpected error: " + Rendered(outcome.message))
  {
    match outcome
    case Committed => InstallAttempt(true, [])
    case IoError(m) =>
      var error := "Installation failed: " + Rendered(m);
      assert error[..21] == "Installation failed: ";
      InstallAttempt(false, [Failed(packageName, error, -1)])
    case OtherError(m) =>
      var error := "Unexpected error: " + Rendered(m);
      assert error[..18] == "Unexpected error: ";
      InstallAttempt(false, [Failed(packageName, error, -1)])
  }

  /** The failure `installApp` reports itself carries status -1, the
      pending-user-action code; the receiver never produces a Failed with
      that code, so the two sources of failures can be told apart. */
  lemma SessionFailureDistinguishable(packageName: string, outcome: SessionOutcome,
                                      pkg: Option<string>, status: Option<int>, message: Option<string>)
    requires !outcome.Committed?
    ensures InstallApp(packageName, outcome).emitted[0] != Decode(pkg, status, message)
  {
  }
}
