/**
 * push_to_git, the handler behind the Push button: it reads the form,
 * validates it field by field, cleans the commit message, finds bash and
 * the push script, probes the repository, and then runs the push script
 * with every value quoted.  The first failing check ends the attempt.
 *
 * The handler works on the window's state: the button, the inline error
 * labels, and the processes it starts.  The Dispatcher class holds that
 * state; Expected is the pure specification its PushToGit method is proved
 * against, and the lemmas below state what Expected promises.
 */
module Dispatch {
  import opened Text
  import opened Shell
  import opened Validators
  import opened Sanitize
  import opened Auth

  // ================================================================ inputs

  /** The text of the form's fields when the button is pressed. */
  datatype Form = Form(project: string, version: string, repo: string, branch: string, commit: string, notes: string)

  /** What the push process did: it exited with a return code and its stderr, timed out after 300 seconds, or raised. */
  datatype RunResult = Finished(returnCode: int, stderr: string) | RunTimedOut | RunRaised(error: string)

  /**
   * The world outside the handler: the file system, what find_git_bash
   * returned (the empty string standing for None), the path of the push
   * script, what the authentication probe and the push process do, and the
   * process environment.
   */
  datatype System = System(
    host: Host,
    bash: string,
    script: string,
    probe: ProbeResult,
    run: RunResult,
    environ: map<string, string>)

  const DefaultVersion := "v1.0"
  const DefaultBranch := "main"
  const FallbackCommit := "Git Pusher "
  const RequiredText := "Required"
  const NotesVariable := "WHATS_NEW"

  /** The form's values as the handler uses them: stripped, with the default version and branch filled in. */
  datatype Inputs = Inputs(project: string, version: string, repo: string, branch: string, commit: string, notes: string)

  function OrDefault(s: string, default: string): string {
    if s == [] then default else s
  }

  /** The handler's reading of the form: every field stripped, a blank tag read as v1.0 and a blank branch as main. */
  function ReadForm(form: Form): (vals: Inputs)
    ensures vals.version != [] && vals.branch != []
    ensures Strip(form.version) == [] ==> vals.version == DefaultVersion
    ensures Strip(form.branch) == [] ==> vals.branch == DefaultBranch
    ensures Strip(form.version) != [] ==> vals.version == Strip(form.version)
    ensures Strip(form.branch) != [] ==> vals.branch == Strip(form.branch)
    ensures && vals.project == Strip(form.project) && vals.repo == Strip(form.repo)
            && vals.commit == Strip(form.commit) && vals.notes == Strip(form.notes)
  {
    Inputs(
      Strip(form.project),
      OrDefault(Strip(form.version), DefaultVersion),
      Strip(form.repo),
      OrDefault(Strip(form.branch), DefaultBranch),
      Strip(form.commit),
      Strip(form.notes))
  }

  // =============================================================== outputs

  datatype Button = Normal | Disabled

  /** A process the handler starts, with the state of the button at that moment. */
  datatype Effect =
    | Probe(argv: seq<string>, button: Button)
    | Push(argv: seq<string>, env: map<string, string>, button: Button)

  /** The fields with an inline error label. */
  datatype Field = ProjectField | RepoField

  /** The validation steps, in the order the handler takes them. */
  datatype Step = ProjectStep | RepoStep | BranchStep | VersionStep

  /** How the attempt ended. */
  datatype Outcome =
    | Missing(field: Field)
    | Invalid(step: Step, reason: string)
    | BashNotFound
    | ScriptNotFound(path: string)
    | AuthFailed(reason: string)
    | Pushed(humanCommit: string, repo: string, branch: string, tag: string, notesSaved: bool)
    | PushTimedOut
    | PushFailed(returnCode: int, stderr: string)
    | Unexpected(error: string)

  /** An inline error shown next to a field. */
  datatype FieldError = FieldError(field: Field, text: string)

  /**
   * What the checks of one press said: the four validators' verdicts, the
   * cleaned commit message, the probe's verdict and the sanitised notes.
   */
  datatype Verdicts = Verdicts(
    path: Verdict,
    url: Call<Verdict>,
    branch: Verdict,
    version: Verdict,
    commit: string,
    auth: Verdict,
    notes: string)

  /** Everything one press of the button does. */
  datatype Trace = Trace(outcome: Outcome, effects: seq<Effect>, shown: Option<FieldError>)

  /** The error labels after an attempt that showed `shown`. */
  function Show(errors: map<Field, string>, shown: Option<FieldError>): map<Field, string> {
    if shown.Some? then errors[shown.value.field := shown.value.text] else errors
  }

  // ========================================================= specification

  /** The checks of one press, each run on the values it is given in push_to_git. */
  function Check(vals: Inputs, sys: System): Verdicts
  {
    Verdicts(
      ValidateProjectPath(sys.host, vals.project),
      ValidateRepoUrl(vals.repo),
      ValidateBranchName(vals.branch),
      ValidateVersionTag(vals.version),
      SanitizeCommit(vals.commit).text,
      ClassifyProbe(sys.probe),
      SanitizeEnvVar(vals.notes))
  }

  /** The argument vector of the push: bash -c and the quoted command line. */
  function PushArgv(bash: string, vals: Inputs, script: string): seq<string>
  {
    [bash, "-c", PushCommand(script, vals.project, vals.version, vals.repo, vals.branch, vals.commit)]
  }

  /** The push's environment: the handler's own, with WHATS_NEW set to the sanitised notes when there are notes. */
  function PushEnv(environ: map<string, string>, notes: string, sanitised: string): map<string, string>
  {
    if notes != [] then environ[NotesVariable := sanitised] else environ
  }

  /** The commit line of the success summary: the message, or "Git Pusher <tag>" when it is empty after clean-up. */
  function HumanCommit(commit: string, version: string): string {
    if commit != [] then commit else FallbackCommit + version
  }

  /** How the run of the push ends the attempt. */
  function RunOutcome(run: RunResult, vals: Inputs): Outcome
  {
    match run
    case Finished(code, stderr) =>
      if code == 0 then Pushed(HumanCommit(vals.commit, vals.version), vals.repo, vals.branch, vals.version, vals.notes != [])
      else PushFailed(code, stderr)
    case RunTimedOut => PushTimedOut
    case RunRaised(e) => Unexpected(e)
  }

  /** What one press of the button does, given the form's values and what the checks said about them. */
  function Decide(vals: Inputs, c: Verdicts, sys: System): (t: Trace)
    ensures t.effects != [] ==> ValidationsPass(vals, c)
    ensures t.shown.Some? ==> t.effects == [] && (t.outcome.Missing? || t.outcome.Invalid?)
    ensures t.outcome.Pushed? ==>
      |t.effects| == 2 && t.outcome.repo == vals.repo && t.outcome.branch == vals.branch && t.outcome.tag == vals.version
  {
    if vals.project == [] then
      Trace(Missing(ProjectField), [], Some(FieldError(ProjectField, RequiredText)))
    else
      DecidePath(vals, c, sys)
  }

  /** The attempt from the project path's verdict on. */
  function DecidePath(vals: Inputs, c: Verdicts, sys: System): Trace
  {
    if !c.path.ok then
      Trace(Invalid(ProjectStep, c.path.message), [], Some(FieldError(ProjectField, c.path.message)))
    else
      DecideRepo(vals, c, sys)
  }

  /** The attempt from the repository check on. */
  function DecideRepo(vals: Inputs, c: Verdicts, sys: System): Trace
  {
    if vals.repo == [] then
      Trace(Missing(RepoField), [], Some(FieldError(RepoField, RequiredText)))
    else if c.url.Raises? then
      Trace(Unexpected(c.url.error), [], None)
    else if !c.url.value.ok then
      Trace(Invalid(RepoStep, c.url.value.message), [], Some(FieldError(RepoField, c.url.value.message)))
    else
      DecideTag(vals, c, sys)
  }

  /** The attempt from the branch check on; the absolute project path and the cleaned commit go forward. */
  function DecideTag(vals: Inputs, c: Verdicts, sys: System): Trace
  {
    if !c.branch.ok then
      Trace(Invalid(BranchStep, c.branch.message), [], None)
    else if !c.version.ok then
      Trace(Invalid(VersionStep, c.version.message), [], None)
    else
      Launch(vals.(project := c.path.message, commit := c.commit), c.auth, c.notes, sys)
  }

  /** The attempt once the fields have passed: find bash and the script, probe, push. */
  function Launch(vals: Inputs, auth: Verdict, notes: string, sys: System): (t: Trace)
    ensures t.shown == None && |t.effects| <= 2
    ensures t.effects != [] <==> sys.bash != [] && sys.host.pathExists(sys.script)
    ensures t.effects != [] ==> t.effects[0] == Probe(ProbeArgv(sys.bash, vals.repo), Disabled)
    ensures |t.effects| == 2 <==> t.effects != [] && auth.ok
    ensures t.outcome.Pushed? <==> |t.effects| == 2 && sys.run.Finished? && sys.run.returnCode == 0
  {
    if sys.bash == [] then Trace(BashNotFound, [], None)
    else if !sys.host.pathExists(sys.script) then Trace(ScriptNotFound(sys.script), [], None)
    else
      var probe := Probe(ProbeArgv(sys.bash, vals.repo), Disabled);
      if !auth.ok then Trace(AuthFailed(auth.message), [probe], None)
      else
        var push := Push(PushArgv(sys.bash, vals, sys.script), PushEnv(sys.environ, vals.notes, notes), Disabled);
        Trace(RunOutcome(sys.run, vals), [probe, push], None)
  }

  /** What one press of the button does, from the form and the world. */
  function Expected(form: Form, sys: System): (t: Trace)
    ensures t.outcome.Pushed? ==> |t.effects| == 2 && t.outcome.repo == Strip(form.repo)
    ensures t.outcome.Pushed? && Strip(form.branch) == [] ==> t.outcome.branch == DefaultBranch
    ensures t.outcome.Pushed? && Strip(form.version) == [] ==> t.outcome.tag == DefaultVersion
  {
    var vals := ReadForm(form);
    Decide(vals, Check(vals, sys), sys)
  }

  /** What the checks after the repository URL say, as Check computes them. */
  predicate LaterChecks(vals: Inputs, c: Verdicts, sys: System) {
    && c.branch == ValidateBranchName(vals.branch)
    && c.version == ValidateVersionTag(vals.version)
    && c.commit == SanitizeCommit(vals.commit).text
    && c.auth == ClassifyProbe(sys.probe)
    && c.notes == SanitizeEnvVar(vals.notes)
  }

  // ================================================================ handler

  class Dispatcher {
    /** The Push button's state. */
    var button: Button
    /** The inline error labels, by field (the source's `errors` dictionary). */
    var errors: map<Field, string>
    /** The processes started so far, in order. */
    var effects: seq<Effect>

    constructor()
      ensures button == Normal && errors == map[] && effects == []
    {
      button := Normal;
      errors := map[];
      effects := [];
    }

    /**
     * push_to_git: the attempt, then the finally clause that puts the
     * button back to normal on every way out.
     */
    method PushToGit(form: Form, sys: System) returns (outcome: Outcome)
      modifies this
      ensures var t := Expected(form, sys);
        && outcome == t.outcome
        && effects == old(effects) + t.effects
        && errors == Show(old(errors), t.shown)
      ensures button == Normal
    {
      outcome := Attempt(form, sys);
      EnableButton();
    }

    /** The finally clause: the button is enabled, nothing else changes. */
    method EnableButton()
      modifies this
      ensures button == Normal && effects == old(effects) && errors == old(errors)
    {
      button := Normal;
    }

    /** show_error: the field's inline label shows msg; entry colours and the status line are not modelled. */
    method ShowError(field: Field, msg: string)
      modifies this
      ensures errors == old(errors)[field := msg] && effects == old(effects) && button == old(button)
    {
      errors := errors[field := msg];
    }

    /** The body of push_to_git's try block: read the form, then check it. */
    method Attempt(form: Form, sys: System) returns (outcome: Outcome)
      modifies this
      ensures var t := Expected(form, sys);
        && outcome == t.outcome
        && effects == old(effects) + t.effects
        && errors == Show(old(errors), t.shown)
    {
      var vals := ReadForm(form);
      outcome := ProjectStage(vals, sys, Check(vals, sys));
    }

    // The stage methods below follow Decide, DecidePath, DecideRepo,
    // DecideTag and Launch branch for branch: each is proved against the function it
    // mirrors, which keeps every proof to one stage.

    /**
     * The try block from the project check on; c is what the checks say
     * about the values, each computed where the handler reaches it.
     */
    method ProjectStage(vals: Inputs, sys: System, ghost c: Verdicts) returns (outcome: Outcome)
      requires c.path == ValidateProjectPath(sys.host, vals.project)
      requires c.url == ValidateRepoUrl(vals.repo) && LaterChecks(vals, c, sys)
      modifies this
      ensures var t := Decide(vals, c, sys);
        && outcome == t.outcome
        && effects == old(effects) + t.effects
        && errors == Show(old(errors), t.shown)
    {
      if vals.project == [] {
        ShowError(ProjectField, RequiredText);
        return Missing(ProjectField);
      }
      outcome := PathStage(vals, sys, c);
    }

    /** The project path is validated, and its verdict decides whether the attempt goes on. */
    method PathStage(vals: Inputs, sys: System, ghost c: Verdicts) returns (outcome: Outcome)
      requires vals.project != [] && c.path == ValidateProjectPath(sys.host, vals.project)
      requires c.url == ValidateRepoUrl(vals.repo) && LaterChecks(vals, c, sys)
      modifies this
      ensures var t := DecidePath(vals, c, sys);
        && outcome == t.outcome
        && effects == old(effects) + t.effects
        && errors == Show(old(errors), t.shown)
    {
      var pathCheck := ValidateProjectPath(sys.host, vals.project);
      if !pathCheck.ok {
        ShowError(ProjectField, pathCheck.message);
        return Invalid(ProjectStep, pathCheck.message);
      }
      outcome := RepoStage(vals, pathCheck.message, sys, c);
    }

    /** The try block from the repository check on; project is the validated absolute path. */
    method RepoStage(vals: Inputs, project: string, sys: System, ghost c: Verdicts) returns (outcome: Outcome)
      requires vals.project != [] && c.path == Verdict(true, project)
      requires c.url == ValidateRepoUrl(vals.repo) && LaterChecks(vals, c, sys)
      modifies this
      ensures var t := DecideRepo(vals, c, sys);
        && outcome == t.outcome
        && effects == old(effects) + t.effects
        && errors == Show(old(errors), t.shown)
    {
      if vals.repo == [] {
        ShowError(RepoField, RequiredText);
        return Missing(RepoField);
      }
      var urlCheck := ValidateRepoUrl(vals.repo);
      outcome := UrlStage(vals, project, sys, urlCheck, c);
    }

    /**
     * The repository URL's verdict decides whether the attempt goes on; c
     * is what the checks say about the values, the later ones included.
     */
    method UrlStage(vals: Inputs, project: string, sys: System, urlCheck: Call<Verdict>, ghost c: Verdicts)
      returns (outcome: Outcome)
      requires vals.project != [] && vals.repo != [] && c.path == Verdict(true, project)
      requires c.url == urlCheck && LaterChecks(vals, c, sys)
      modifies this
      ensures var t := DecideRepo(vals, c, sys);
        && outcome == t.outcome
        && effects == old(effects) + t.effects
        && errors == Show(old(errors), t.shown)
    {
      if urlCheck.Raises? {
        return Unexpected(urlCheck.error);
      }
      if !urlCheck.value.ok {
        ShowError(RepoField, urlCheck.value.message);
        return Invalid(RepoStep, urlCheck.value.message);
      }
      outcome := TagStage(vals, project, sys, c);
    }

    /** The try block from the branch check on: branch, tag, then the commit clean-up. */
    method TagStage(vals: Inputs, project: string, sys: System, ghost c: Verdicts) returns (outcome: Outcome)
      requires c.path == Verdict(true, project) && LaterChecks(vals, c, sys)
      modifies this
      ensures var t := DecideTag(vals, c, sys);
        && outcome == t.outcome
        && effects == old(effects) + t.effects
        && errors == old(errors)
    {
      var branchCheck := ValidateBranchName(vals.branch);
      if !branchCheck.ok {
        return Invalid(BranchStep, branchCheck.message);
      }
      var versionCheck := ValidateVersionTag(vals.version);
      if !versionCheck.ok {
        return Invalid(VersionStep, versionCheck.message);
      }
      var commit := vals.commit;
      if commit != [] {
        commit := SanitizeCommit(commit).text;
      }
      outcome := Start(vals.(project := project, commit := commit), sys);
    }

    /**
     * The rest of the try block: find bash and the script, disable the
     * button, probe the repository (enabling the button again when access
     * is refused), then run the push with the notes in the environment.
     */
    method Start(vals: Inputs, sys: System) returns (outcome: Outcome)
      modifies this
      ensures var t := Launch(vals, ClassifyProbe(sys.probe), SanitizeEnvVar(vals.notes), sys);
        && outcome == t.outcome
        && effects == old(effects) + t.effects
        && errors == old(errors)
        && button == (if |t.effects| == 0 then old(button) else if |t.effects| == 1 then Normal else Disabled)
    {
      if sys.bash == [] {
        return BashNotFound;
      }
      if !sys.host.pathExists(sys.script) {
        return ScriptNotFound(sys.script);
      }
      button := Disabled;
      effects := effects + [Probe(ProbeArgv(sys.bash, vals.repo), button)];
      var auth := ClassifyProbe(sys.probe);
      if !auth.ok {
        button := Normal;
        return AuthFailed(auth.message);
      }
      var cmd := PushArgv(sys.bash, vals, sys.script);
      var env := sys.environ;
      if vals.notes != [] {
        env := env[NotesVariable := SanitizeEnvVar(vals.notes)];
      }
      effects := effects + [Push(cmd, env, button)];
      match sys.run {
        case Finished(code, stderr) =>
          if code == 0 {
            outcome := Pushed(HumanCommit(vals.commit, vals.version), vals.repo, vals.branch, vals.version, vals.notes != []);
          } else {
            outcome := PushFailed(code, stderr);
          }
        case RunTimedOut =>
          outcome := PushTimedOut;
        case RunRaised(e) =>
          outcome := Unexpected(e);
      }
    }
  }

  // ============================================================ properties

  /** The four fields pass their validators. */
  predicate ValidationsPass(vals: Inputs, c: Verdicts) {
    && vals.project != [] && c.path.ok
    && vals.repo != [] && c.url.Returns? && c.url.value.ok
    && c.branch.ok && c.version.ok
  }

  /** Every check before any process is started, as one condition. */
  predicate ChecksPass(vals: Inputs, c: Verdicts, sys: System) {
    ValidationsPass(vals, c) && sys.bash != [] && sys.host.pathExists(sys.script)
  }

  /**
   * No process is started unless every validation passed and bash and the
   * script were found; then the probe comes first, and the push is started
   * exactly when the probe grants access.  Both are started while the
   * button is disabled.
   */
  lemma EffectsFollowChecks(vals: Inputs, c: Verdicts, sys: System)
    ensures var effects := Decide(vals, c, sys).effects;
      && (effects != [] <==> ChecksPass(vals, c, sys))
      && (effects != [] ==> effects[0].Probe? && effects[0].argv == ProbeArgv(sys.bash, vals.repo))
      && (|effects| == 2 <==> ChecksPass(vals, c, sys) && c.auth.ok)
      && (|effects| == 2 ==> effects[1].Push?)
      && |effects| <= 2
      && forall e :: e in effects ==> e.button == Disabled
  {
  }

  /**
   * The push runs bash -c on a command line the shell reads as bash, the
   * script path and the five values in the script's order, each one word
   * exactly as validated (the project path in the absolute form its
   * validator returned, the commit message cleaned), whatever characters
   * they hold.
   */
  lemma PushArgvAtomic(vals: Inputs, c: Verdicts, sys: System)
    requires |Decide(vals, c, sys).effects| == 2
    ensures var argv := Decide(vals, c, sys).effects[1].argv;
      && |argv| == 3 && argv[0] == sys.bash && argv[1] == "-c"
      && Words(argv[2]) == Some(["bash", sys.script, c.path.message, vals.version, vals.repo, vals.branch, c.commit])
  {
    EffectsFollowChecks(vals, c, sys);
    PushCommandWords(sys.script, c.path.message, vals.version, vals.repo, vals.branch, c.commit);
  }

  /**
   * The push inherits the handler's environment; when notes were given
   * WHATS_NEW holds them sanitised, and when none were given an inherited
   * WHATS_NEW passes through untouched.
   */
  lemma PushEnvironment(vals: Inputs, c: Verdicts, sys: System)
    requires |Decide(vals, c, sys).effects| == 2
    ensures var env := Decide(vals, c, sys).effects[1].env;
      && (forall k :: k in sys.environ && k != NotesVariable ==> k in env && env[k] == sys.environ[k])
      && (forall k :: k in env ==> k in sys.environ || k == NotesVariable)
      && (vals.notes != [] ==> NotesVariable in env && env[NotesVariable] == c.notes)
      && (vals.notes == [] ==> env == sys.environ)
  {
    EffectsFollowChecks(vals, c, sys);
  }

  /**
   * When notes were typed, the push's WHATS_NEW holds them with NUL and CR
   * removed and cut to at most 10000 characters.
   */
  lemma PushNotesClean(vals: Inputs, c: Verdicts, sys: System)
    requires c.notes == SanitizeEnvVar(vals.notes)
    requires |Decide(vals, c, sys).effects| == 2 && vals.notes != []
    ensures var env := Decide(vals, c, sys).effects[1].env;
      && NotesVariable in env
      && |env[NotesVariable]| <= MaxEnvLength
      && HasPrefix(Remove(vals.notes, EnvDropped), env[NotesVariable])
      && forall i :: 0 <= i < |env[NotesVariable]| ==> env[NotesVariable][i] != '\0' && env[NotesVariable][i] != '\r'
  {
    PushEnvironment(vals, c, sys);
  }

  /**
   * The checks are taken in order: a rejection at one step means every
   * earlier step passed, and a missing bash or script or a refused probe
   * means every validation passed.
   */
  lemma ValidationOrder(vals: Inputs, c: Verdicts, sys: System)
    ensures var o := Decide(vals, c, sys).outcome;
      && (o == Missing(RepoField) || (o.Invalid? && o.step != ProjectStep) ==> vals.project != [] && c.path.ok)
      && (o.Invalid? && o.step in {BranchStep, VersionStep} ==> vals.repo != [] && c.url.Returns? && c.url.value.ok)
      && (o.Invalid? && o.step == VersionStep ==> c.branch.ok)
      && (o.BashNotFound? ==> ValidationsPass(vals, c))
      && (o.ScriptNotFound? ==> ValidationsPass(vals, c) && sys.bash != [] && o.path == sys.script)
      && (o.AuthFailed? ==> ChecksPass(vals, c, sys) && !c.auth.ok && o.reason == c.auth.message)
  {
  }

  /**
   * Inline error labels are set only for the project and the repository:
   * "Required" when the field is blank, otherwise the validator's message.
   */
  lemma InlineErrors(vals: Inputs, c: Verdicts, sys: System)
    ensures var t := Decide(vals, c, sys);
      && (t.shown.Some? <==> t.outcome.Missing? || (t.outcome.Invalid? && t.outcome.step in {ProjectStep, RepoStep}))
      && (t.outcome.Missing? ==> t.shown == Some(FieldError(t.outcome.field, RequiredText)))
      && (t.outcome.Invalid? && t.outcome.step == ProjectStep ==> t.shown == Some(FieldError(ProjectField, t.outcome.reason)))
      && (t.outcome.Invalid? && t.outcome.step == RepoStep ==> t.shown == Some(FieldError(RepoField, t.outcome.reason)))
  {
  }

  /**
   * A completed push reports the cleaned commit message, or "Git Pusher"
   * and the tag when the message is empty after clean-up, together with
   * the repository, branch and tag that were pushed.
   */
  lemma PushedSummary(vals: Inputs, c: Verdicts, sys: System)
    requires Decide(vals, c, sys).outcome.Pushed?
    ensures var o := Decide(vals, c, sys).outcome;
      && ChecksPass(vals, c, sys) && c.auth.ok
      && sys.run.Finished? && sys.run.returnCode == 0
      && (c.commit != [] ==> o.humanCommit == c.commit)
      && (c.commit == [] ==> o.humanCommit == FallbackCommit + vals.version)
      && o.repo == vals.repo && o.branch == vals.branch && o.tag == vals.version
      && o.notesSaved == (vals.notes != [])
  {
  }

  /**
   * Once every check has passed and the probe has granted access, the push
   * run alone decides how the attempt ends: exit code 0 reports the push
   * with the cleaned commit line and the values pushed, another exit code
   * reports the failure with its code and stderr, the 300-second timeout
   * reports the timeout, and any other exception is reported as unexpected.
   */
  lemma PushOutcome(vals: Inputs, c: Verdicts, sys: System)
    requires ChecksPass(vals, c, sys) && c.auth.ok
    ensures var o := Decide(vals, c, sys).outcome;
      && (sys.run.Finished? && sys.run.returnCode == 0 ==>
            o == Pushed(HumanCommit(c.commit, vals.version), vals.repo, vals.branch, vals.version, vals.notes != []))
      && (sys.run.Finished? && sys.run.returnCode != 0 ==> o == PushFailed(sys.run.returnCode, sys.run.stderr))
      && (sys.run.RunTimedOut? ==> o == PushTimedOut)
      && (sys.run.RunRaised? ==> o == Unexpected(sys.run.error))
  {
  }

  const NotesSavedLine := "\n\nWhat's new saved to WHATS_NEW.txt"

  /** The lines of the success message that name where the push went. */
  function TargetLines(repo: string, branch: string, tag: string): string {
    "\n\nPushed to:\n" + (repo + ("\nBranch: " + (branch + ("\nTag: " + tag))))
  }

  /** The text of the success message box for a completed push. */
  function SuccessMessage(o: Outcome): string
    requires o.Pushed?
  {
    "Commit:\n" + o.humanCommit + TargetLines(o.repo, o.branch, o.tag) + (if o.notesSaved then NotesSavedLine else "")
  }

  /**
   * The success message of a completed push opens with the commit line (the
   * cleaned message, or "Git Pusher" and the tag), then names the
   * repository, branch and tag that were pushed, and ends with the line
   * about WHATS_NEW.txt exactly when notes were typed.
   */
  lemma PushedMessage(vals: Inputs, c: Verdicts, sys: System)
    requires Decide(vals, c, sys).outcome.Pushed?
    ensures var m := SuccessMessage(Decide(vals, c, sys).outcome);
      var head := "Commit:\n" + HumanCommit(c.commit, vals.version);
      var target := TargetLines(vals.repo, vals.branch, vals.version);
      && HasPrefix(m, head)
      && OccursAt(m, target, |head|)
      && (vals.notes != [] ==> m[|head| + |target|..] == NotesSavedLine)
      && (vals.notes == [] ==> |m| == |head| + |target|)
  {
    var o := Decide(vals, c, sys).outcome;
    PushedSummary(vals, c, sys);
    var head := "Commit:\n" + HumanCommit(c.commit, vals.version);
    var target := TargetLines(vals.repo, vals.branch, vals.version);
    var tail := if vals.notes != [] then NotesSavedLine else "";
    var m := SuccessMessage(o);
    assert m == head + target + tail;
    assert m[..|head|] == head;
    assert m[|head|..|head| + |target|] == target;
    assert m[|head| + |target|..] == tail;
  }

  // ============================================ properties of a whole press

  /**
   * The summary's fallback: a commit message that is empty once ` and $
   * are removed is reported as "Git Pusher" and the tag.
   */
  lemma PressSummaryFallback(form: Form, sys: System)
    requires Expected(form, sys).outcome.Pushed?
    requires SanitizeCommit(Strip(form.commit)).text == []
    ensures Expected(form, sys).outcome.humanCommit == FallbackCommit + ReadForm(form).version
  {
    var vals := ReadForm(form);
    PushedSummary(vals, Check(vals, sys), sys);
  }
}
