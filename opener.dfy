/**
 * `open_in_safari(url)`: the one action the relay performs. The URL must use the
 * http or https scheme; in dry-run mode nothing is attempted; otherwise
 * `/usr/bin/open -a Safari <url>` is handed to `subprocess.run` and what that
 * came to becomes the reply.
 *
 * The child process is not modelled: what `subprocess.run` came to is the
 * `Launch` parameter, which is consulted only when the launch is attempted.
 * `Raised` covers an exception before any child exists (a missing
 * `/usr/bin/open`) as well as one after it (the timeout).
 */
module Opener {
  import opened Wrappers
  import opened Text

  /** What `subprocess.run` came to: the child exited with a code and its error output, or the call raised. */
  datatype Launch = Exited(code: int, stderr: string) | Raised(message: string)

  /**
   * The `(ok, message)` pair `open_in_safari` returns, together with the URL it
   * handed to `subprocess.run`, if the launch was attempted at all.
   */
  datatype Outcome = Outcome(ok: bool, message: string, launched: Option<string>)

  const SchemeRefused := "Only http/https URLs are permitted."
  const DryRunDone := "DRY_RUN: OK"
  const Opened := "Opened in Safari"
  const UnknownError := "Unknown error from 'open'"

  /** `url.startswith("http://") or url.startswith("https://")`. */
  predicate PermittedScheme(url: string) {
    StartsWith(url, "http://") || StartsWith(url, "https://")
  }

  /** `open` succeeded: it ran and exited with status 0. */
  predicate Succeeded(launch: Launch) {
    launch.Exited? && launch.code == 0
  }

  /** The text of a failed launch: the trimmed error output, a fixed text when that is empty, or the exception's text. */
  function FailureMessage(launch: Launch): string {
    match launch
    case Exited(_, stderr) => if Strip(stderr) == "" then UnknownError else Strip(stderr)
    case Raised(message) => message
  }

  /** `open_in_safari(url)` with `CONFIG["DRY_RUN"] == dryRun`, where `subprocess.run` comes to `launch`. */
  function OpenInSafari(url: string, dryRun: bool, launch: Launch): Outcome {
    if !PermittedScheme(url) then Outcome(false, SchemeRefused, None)
    else if dryRun then Outcome(true, DryRunDone, None)
    else if Succeeded(launch) then Outcome(true, Opened, Some(url))
    else Outcome(false, FailureMessage(launch), Some(url))
  }

  /** The launch is attempted exactly for a permitted URL outside dry-run mode, and with that very URL. */
  lemma LaunchesOnlyPermitted(url: string, dryRun: bool, launch: Launch)
    ensures OpenInSafari(url, dryRun, launch).launched.Some? <==> PermittedScheme(url) && !dryRun
    ensures OpenInSafari(url, dryRun, launch).launched.Some? ==> OpenInSafari(url, dryRun, launch).launched.value == url
  {
  }

  /** A permitted URL starts with either scheme prefix, so it is never empty. */
  lemma PermittedNonEmpty(url: string)
    requires PermittedScheme(url)
    ensures |url| >= 7 && url[..4] == "http"
  {
    if StartsWith(url, "http://") {
      assert url[..4] == url[..7][..4];
    } else {
      assert url[..4] == url[..8][..4];
    }
  }

  /** The reply is a success exactly when the URL is permitted and either nothing is run or `open` exits with 0. */
  lemma OkExactly(url: string, dryRun: bool, launch: Launch)
    ensures OpenInSafari(url, dryRun, launch).ok <==> PermittedScheme(url) && (dryRun || Succeeded(launch))
  {
  }

  /**
   * The scheme is checked before the dry-run flag: a refused URL gets the same
   * reply in every mode and whatever `open` would have done.
   */
  lemma RefusalIgnoresMode(url: string, dryRun: bool, launch: Launch, dryRun': bool, launch': Launch)
    requires !PermittedScheme(url)
    ensures OpenInSafari(url, dryRun, launch) == OpenInSafari(url, dryRun', launch')
    ensures !OpenInSafari(url, dryRun, launch).ok && OpenInSafari(url, dryRun, launch).message == SchemeRefused
  {
  }

  /** When no launch is attempted, what it would have come to cannot matter. */
  lemma UnlaunchedIgnoresLaunch(url: string, dryRun: bool, launch: Launch, launch': Launch)
    requires OpenInSafari(url, dryRun, launch).launched.None?
    ensures OpenInSafari(url, dryRun, launch) == OpenInSafari(url, dryRun, launch')
  {
  }

  /** Success carries one of the two success texts, and which one tells whether the launch was attempted. */
  lemma SuccessMessages(url: string, dryRun: bool, launch: Launch)
    requires OpenInSafari(url, dryRun, launch).ok
    ensures var r := OpenInSafari(url, dryRun, launch);
      (r.message == DryRunDone <==> r.launched.None?) && (r.message == Opened <==> r.launched.Some?)
  {
  }

  /**
   * A failed `open` is always explained: the reply text is the trimmed error
   * output when there is any, and never empty when the command exited.
   */
  lemma ExitFailureExplained(url: string, code: int, stderr: string)
    requires PermittedScheme(url) && code != 0
    ensures var r := OpenInSafari(url, false, Exited(code, stderr));
      !r.ok && r.message != "" && (Strip(stderr) != "" ==> r.message == Strip(stderr))
      && (r.message == Strip(stderr) || (AllSpace(stderr) && r.message == UnknownError))
  {
    StripEmpty(stderr);
  }
}
