/**
 * verify_git_auth: probes the repository with git ls-remote through bash
 * and turns what the probe did into the (ok, message) pair push_to_git
 * acts on.  Running the probe is outside the model: what it did is given
 * as a ProbeResult.
 */
module Auth {
  import opened Text
  import opened Shell
  import opened Validators

  /**
   * What subprocess.run did with the probe: it exited with a return code
   * and the captured stderr text, it exceeded the 10-second timeout, or it
   * raised another exception, whose str() is given.
   */
  datatype ProbeResult = Exited(returnCode: int, stderr: string) | TimedOut | Raised(error: string)

  const MaxStderrShown := 200

  // The two longer messages are written in two pieces, which lets the
  // verifier look at their first characters.
  const AuthRefused := "Authentication failed. " + "Check your SSH keys or credentials."
  const RepoNotFound := "Repository not found " + "or you don't have access."
  const CannotAccess := "Cannot access repository: "
  const ProbeTimedOut := "Connection timeout. Check your internet connection."
  const ProbeError := "Error verifying access: "

  /** The argument vector of the probe: bash -c and the probe command line. */
  function ProbeArgv(bash: string, repo: string): (argv: seq<string>)
    ensures |argv| == 3 && argv[0] == bash && argv[1] == "-c"
    ensures HasPrefix(argv[2], "git ls-remote --heads ")
  {
    [bash, "-c", ProbeCommand(repo)]
  }

  /** The words of a refused login, looked for in the lower-cased stderr. */
  predicate MentionsAuth(lowered: string) {
    HasInfix(lowered, "permission denied") || HasInfix(lowered, "authentication")
  }

  predicate MentionsNotFound(lowered: string) {
    HasInfix(lowered, "not found")
  }

  /**
   * verify_git_auth's classification of the probe.  The lower-casing folds
   * ASCII letters only: no other character lower-cases to text of the
   * ASCII-only phrases looked for, so the tests agree with str.lower().
   */
  function ClassifyProbe(probe: ProbeResult): (r: Verdict)
    ensures r.ok <==> probe.Exited? && probe.returnCode == 0
    ensures r.ok ==> r.message == []
    ensures probe.TimedOut? ==> r.message == ProbeTimedOut
    ensures probe.Raised? ==> r.message == ProbeError + probe.error
  {
    match probe
    case Exited(code, stderr) =>
      if code != 0 then
        var lowered := Lower(stderr);
        if MentionsAuth(lowered) then Verdict(false, AuthRefused)
        else if MentionsNotFound(lowered) then Verdict(false, RepoNotFound)
        else Verdict(false, CannotAccess + Take(stderr, MaxStderrShown))
      else Accepted
    case TimedOut => Verdict(false, ProbeTimedOut)
    case Raised(e) => Verdict(false, ProbeError + e)
  }

  /**
   * A failed probe is sorted by its stderr: a refused login first, then a
   * missing repository, then the first 200 characters of the stderr.
   */
  lemma ProbeFailureMessages(code: int, stderr: string)
    requires code != 0
    ensures var r := ClassifyProbe(Exited(code, stderr)); var low := Lower(stderr);
      && !r.ok
      && (r.message == AuthRefused <==>
            (exists i :: OccursAt(low, "permission denied", i)) || (exists i :: OccursAt(low, "authentication", i)))
      && (r.message == RepoNotFound <==>
            !MentionsAuth(low) && exists i :: OccursAt(low, "not found", i))
      && (!MentionsAuth(low) && !MentionsNotFound(low) ==>
            r.message == CannotAccess + Take(stderr, MaxStderrShown) && |r.message| <= |CannotAccess| + MaxStderrShown)
  {
    var low := Lower(stderr);
    HasInfixIff(low, "permission denied");
    HasInfixIff(low, "authentication");
    HasInfixIff(low, "not found");
    assert AuthRefused[0] == 'A' && RepoNotFound[0] == 'R';
    var shown := CannotAccess + Take(stderr, MaxStderrShown);
    assert shown[0] == 'C';
  }

  /**
   * The probe sends its error output to stdout (2>&1), so the stderr that
   * subprocess.run captures is empty: a failed probe then always reports
   * "Cannot access repository: " with nothing after it, whatever git said.
   */
  lemma RedirectedProbeFailure(code: int)
    requires code != 0
    ensures ClassifyProbe(Exited(code, [])) == Verdict(false, CannotAccess)
  {
    var empty: string := [];
    assert Lower(empty) == [];
    assert !HasInfix([], "permission denied") && !HasInfix([], "authentication") && !HasInfix([], "not found");
    assert CannotAccess + Take(empty, MaxStderrShown) == CannotAccess;
  }
}
