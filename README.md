# Git Pusher: the push handler and its input checks

Git Pusher is a small desktop tool. It takes a project folder, a repository
URL, a branch, a version tag, a commit message and release notes, and runs a
bash script that commits, tags and pushes the folder. This project models the
safety core of `gui/main.py` and proves properties of it:

- the four input validators (`validate_repo_url`, `validate_branch_name`,
  `validate_version_tag`, `validate_project_path`);
- the two sanitisers (`sanitize_env_var` and the commit-message clean-up);
- the classification of the `git ls-remote` access probe (`verify_git_auth`);
- `shlex.quote` and the command lines built from it, together with a POSIX
  shell tokenizer (section 2.2 of the POSIX Shell Command Language) that
  shows every quoted value comes back as exactly one word;
- `push_to_git`, the button handler, as the `Dispatcher` class. It updates
  the button state, the inline error labels (the source's `errors`
  dictionary) and the list of processes started.

Files, one module each:

- `text.dfy` (`Text`): Python string helpers (`strip`, `lower`, `in`,
  `startswith`, slicing, `replace`).
- `shell.dfy` (`Shell`): `shlex.quote`, the tokenizer and the round trip.
- `validators.dfy` (`Validators`): the four validators.
- `sanitize.dfy` (`Sanitize`): the two sanitisers.
- `auth.dfy` (`Auth`): the probe command and its classification.
- `dispatch.dfy` (`Dispatch`): the handler.

The handler is proved against a pure specification. `Expected(form, sys)`
gives the outcome, the processes started and the error label shown for a
form and a `System`. A `System` holds the file system, what `find_git_bash`
returned, the script path, what the probe and the push did, and the
environment. `Dispatcher.PushToGit` is proved to do exactly what `Expected`
says and to leave the button enabled. Further lemmas state what `Expected`
guarantees: the order of the checks, when processes start, the argument
vector, the environment and the success summary.

Where the code and its written description differ, the model follows the
code:

- The SSH-shorthand branch of `validate_repo_url` returns before the
  deny-list is consulted. A URL such as `git@host:a;b` is accepted.
  `Validators.SshShorthandAccepted` proves this for every `user@host:path`
  with a well-formed host, a user part free of '@' that does not start with
  "http", no whitespace at either end, and no "//" authority where
  `urlparse` would look for one. Three lemmas show which user parts meet
  the last condition. `Validators.PlainUserNoAuthority` covers a user part
  that starts with a letter and is free of ':'.
  `Validators.SymbolUserNoAuthority` covers an empty user part and one that
  starts with a printable character other than an ASCII letter or '/',
  such as `;x`. `Validators.SchemeUserNoAuthority` covers one that starts
  with a scheme not followed by '/', such as `a:b`, and holds no tab or
  line break. The deny-list is therefore not a
  pre-check independent of the URL form.
- When no notes are typed, the push inherits the caller's `WHATS_NEW`
  unchanged (`Dispatch.PushEnvironment`). So the handler does not always
  control that value.
- The probe's command ends in `2>&1`. Git's error text therefore arrives on
  stdout, and the captured stderr is empty. A failed probe then reports
  "Cannot access repository: " with nothing after it
  (`Auth.RedirectedProbeFailure`). The keyword tests for refused logins and
  missing repositories only apply when stderr is not empty.

## Model

| member | source | states |
|---|---|---|
| Text.Strip | gui/main.py:206-211 | str.strip(): the result is a contiguous slice of the input, everything before and after it is whitespace, and it neither starts nor ends with whitespace (so it is empty exactly when the input is all whitespace) |
| Text.RemoveOne | gui/main.py:146 | character removal (str.replace with '' and re.sub of a class) drops one character exactly when it is to be removed; with RemoveAppend this fixes removal on every text |
| Text.HasInfixIff | gui/main.py:82 | the substring test `sub in s` holds exactly when sub occurs at some index of s |
| Shell.Quote | gui/main.py:158 | shlex.quote: a non-empty value of safe characters is returned unchanged, anything else (the empty value included) comes back wrapped in single quotes; the meaning is stated by QuoteRoundTrip |
| Shell.QuoteRoundTrip | gui/main.py:158 | the shell reads shlex.quote(s) back as exactly one word, equal to s, for every string s |
| Shell.ScanQuoted | gui/main.py:158 | a quoted value at the start of a word is read as that value, whatever follows |
| Shell.QuoteAllWords | gui/main.py:293-296 | space-joined quoted values are read back as one word per value, in order |
| Shell.PushCommandWords | gui/main.py:291-297 | the push command line is read as the words bash, script, project, version, repo, branch, commit, each exactly the value given |
| Validators.CleanUrl | gui/main.py:37 | urlsplit's clean-up before parsing: the text after the leading run of characters at or below space, with every tab, CR and LF removed and the other characters kept in order; so none of those three is left, the text starts above space, and a URL that already starts above space and holds none of them is unchanged |
| Validators.CleanUrlDropsTab | gui/main.py:37 | a tab inside a URL is dropped and the text around it kept in order ("f\ttp://x" is read as "ftp://x") |
| Validators.UrlScheme | gui/main.py:37 | urlparse raises "Invalid IPv6 URL" exactly when the text after the scheme has an unbalanced square bracket in a "//" authority; otherwise the scheme is non-empty exactly when the cleaned URL opens with a letter and scheme characters up to a ':', and is then that text lower-cased |
| Validators.ValidateRepoUrl | gui/main.py:28-67 | the only exception the model raises is urlparse's "Invalid IPv6 URL" (see Left out); an accepted URL has an empty message |
| Validators.RepoUrlVerdicts | gui/main.py:28-67 | a URL is rejected as "required" exactly when it is blank after stripping, and every rejection carries one of the four messages of validate_repo_url |
| Validators.RepoUrlDenyList | gui/main.py:52-67 | outside the SSH shorthand, a URL is accepted exactly when its scheme is empty or one of https/http/git/ssh and it holds no ;&\|`$, no "../" and no "%00"; the protocol check comes before the deny-list |
| Validators.ParsedUrlVerdict | gui/main.py:52-67 | outside the SSH shorthand, once urlparse has read a scheme, a scheme outside https/http/git/ssh gives the protocol message, then the deny-list decides |
| Validators.ForeignSchemeRejected | gui/main.py:52-54 | outside the SSH shorthand, a URL that opens with a scheme outside https/http/git/ssh is rejected with "Invalid protocol. Only HTTPS, SSH, or HTTP allowed." unless urlparse raises first |
| Validators.SchemeUrlVerdict | gui/main.py:28-67 | scheme://rest, with a lower-case scheme and a rest free of '@', brackets, tabs and line breaks, is judged by the allow-list and then the deny-list alone |
| Validators.ForeignSchemeUrl | gui/main.py:52-54 | such a scheme://rest whose scheme is not https, http, git or ssh is rejected with the protocol message |
| Validators.FtpRejected | gui/main.py:52-54 | ftp://rest (ftp://example.com/r.git among them) is rejected with the protocol message |
| Validators.FileUrlRejected | gui/main.py:52-54 | file://rest (file:///etc/passwd among them) is rejected with the protocol message |
| Validators.PlainUrlNotDangerous | gui/main.py:56-65 | a URL made of a lower-case scheme, "://" and letters, digits, '.', '/', '-' and '_' without ".." matches none of the three dangerous patterns |
| Validators.HttpsUrlAccepted | gui/main.py:28-67 | https://github.com/acme/app.git is accepted |
| Validators.SshHostDecides | gui/main.py:39-50 | in the SSH branch only the host between '@' and ':' decides, by the host pattern |
| Validators.SshParts | gui/main.py:40-46 | user@host:path takes the SSH branch and its host is exactly host |
| Validators.NoSchemeBeforeAt | gui/main.py:37 | a URL that starts with a letter and has an '@' before its first ':' parses with an empty scheme |
| Validators.SshShorthandAccepted | gui/main.py:37-50 | user@host:path with a well-formed host is accepted, even when user or path hold shell metacharacters, "../" or "%00", whenever the user part holds no '@', does not start with "http", the URL has no whitespace at its ends, and urlparse finds no "//" authority |
| Validators.PlainUserNoAuthority | gui/main.py:37 | a user part that starts with a letter and holds no ':' leaves urlparse no "//" authority to read |
| Validators.SymbolUserNoAuthority | gui/main.py:37 | an empty user part, or one starting with a printable character that is neither an ASCII letter nor '/', leaves urlparse no scheme and no "//" authority |
| Validators.SchemeUserNoAuthority | gui/main.py:37 | a user part free of tabs and line breaks that starts with a scheme whose ':' is not followed by '/' (as in a:b) leaves urlparse no "//" authority |
| Validators.SplitScheme | gui/main.py:37 | urlsplit's scheme is non-empty exactly when the text starts with a letter and a run of scheme characters up to a ':'; it is then that run lower-cased and the rest follows the ':'; with no scheme the rest is the whole text |
| Validators.LStripControls | gui/main.py:37 | urlsplit's clean-up drops a prefix made only of characters at or below space and leaves text starting with a character above space |
| Validators.ValidateBranchName | gui/main.py:69-87 | an empty name is rejected as empty; a rejection carries one of the five messages and an acceptance an empty one; the full rule is BranchAcceptedIff and BranchVerdicts |
| Validators.BranchAcceptedIff | gui/main.py:69-87 | a branch is accepted exactly when it is 1..255 characters long, holds none of ~^:?*[]\\, neither starts nor ends with '.', and contains neither ".." nor "@{" |
| Validators.BranchVerdicts | gui/main.py:69-87 | which message each failing rule gives, in the source's order: empty; then a reserved character; otherwise a '.' at either end; otherwise ".." or "@{"; otherwise more than 255 characters, each stated as an iff by position |
| Validators.DotDotRejected | gui/main.py:81-82 | a branch holding ".." anywhere is rejected |
| Validators.DefaultBranchAccepted | gui/main.py:209 | the default branch "main" passes |
| Validators.ValidateVersionTag | gui/main.py:89-102 | an empty tag is accepted, and an accepted tag has an empty message |
| Validators.DangerousVersionUnreachable | gui/main.py:93-102 | the tag is accepted exactly when it is empty or matches the version pattern, and is otherwise rejected with the format message: the metacharacter rejection can never be reached |
| Validators.VersionAcceptedIff | gui/main.py:94-95 | a non-empty tag without a final newline is accepted exactly when it renders some well-formed tag (optional v, major.minor, optional .patch, optional -label) |
| Validators.RenderHasShape | gui/main.py:95 | every well-formed tag renders to text of the pattern's shape |
| Validators.ParseTag | gui/main.py:95 | every text of the pattern's shape is the rendering of a well-formed tag |
| Validators.ShapeChars | gui/main.py:94-99 | text of the pattern's shape holds only ASCII letters, digits, '.' and '-' |
| Validators.DefaultVersionAccepted | gui/main.py:207 | the default tag "v1.0" passes |
| Validators.FirstProtected | gui/main.py:119-130 | picks the first protected directory the lower-cased path starts with, and no earlier one matches |
| Validators.ValidateProjectPath | gui/main.py:104-141 | an empty path is rejected as required; an accepted path's message is its absolute form, which exists and is a directory |
| Validators.ProjectPathVerdicts | gui/main.py:104-141 | each rejection of validate_project_path in order: required, format, missing, not a directory, then "Cannot use system directories: " with the first protected entry the path starts with, then traversal only for an unprotected path; a path is accepted exactly when it exists, is a directory, is under no protected directory and is not a traversal that survives normalisation; an accepted path carries its absolute form |
| Validators.ProgramFilesX86Reported | gui/main.py:119-132 | an existing directory under "C:\Program Files (x86)" is rejected with "Cannot use system directories: C:\Program Files", the first entry it starts with |
| Validators.ProgramFilesX86First | gui/main.py:119-130 | "C:\Program Files" is the first protected entry such a path starts with |
| Sanitize.SanitizeEnvVar | gui/main.py:143-150 | the input with NUL and CR removed, whole when that has at most 10000 characters and otherwise its first exactly 10000 characters |
| Sanitize.SanitizeEnvVarKeepsClean | gui/main.py:143-150 | a short value free of NUL and CR passes through unchanged |
| Sanitize.SanitizeEnvVarIdempotent | gui/main.py:143-150 | sanitising twice gives the same as sanitising once |
| Sanitize.SanitizeCommit | gui/main.py:254-259 | the message with every ` and $ removed, whole when that has at most 500 characters and otherwise its first exactly 500 characters, marked cut exactly in the second case; an empty message stays empty |
| Sanitize.SanitizeCommitDropsDollar | gui/main.py:256 | a dollar sign between two clean parts of at most 500 characters in all is dropped and the parts are kept in order with no cut ("fix $HOME" becomes "fix HOME") |
| Sanitize.SanitizeCommitKeepsClean | gui/main.py:254-259 | a message of at most 500 characters without ` or $ is used as typed |
| Sanitize.SanitizeCommitCanEmpty | gui/main.py:254-259 | a message made only of ` and $ becomes empty |
| Sanitize.SanitizeCommitIdempotent | gui/main.py:254-259 | cleaning a cleaned message changes nothing and reports no cut |
| Auth.ProbeArgv | gui/main.py:155-159 | the probe runs bash -c on a command line starting with "git ls-remote --heads " |
| Auth.ClassifyProbe | gui/main.py:152-181 | access is granted exactly when the probe exits with code 0, and then the message is empty; a timeout and a raised exception give their own messages |
| Auth.ProbeFailureMessages | gui/main.py:168-176 | a failed probe reports refused authentication exactly when the lower-cased stderr contains "permission denied" or "authentication"; otherwise "not found" gives the missing-repository message; otherwise the first 200 characters of stderr are shown |
| Auth.RedirectedProbeFailure | gui/main.py:158-176 | with stderr empty (it is redirected by 2>&1), any failed probe reports "Cannot access repository: " alone |
| Dispatch.Expected | gui/main.py:198-352 | what one press does, from the form and the world; a completed push started two processes and reports the stripped repository, and "main" or "v1.0" when the branch or tag was left blank |
| Dispatch.Decide | gui/main.py:214-287 | the press once the form is read: a process is started only when all four validations passed, and an error label is shown only for a missing or invalid field with no process started; a completed push reports the values it was given |
| Dispatch.Launch | gui/main.py:261-329 | once the fields pass: no process without bash and the script, the probe first with the button disabled, the push second exactly when access is granted, no error label; a push is reported exactly when the push was started and exited with code 0 |
| Dispatch.ReadForm | gui/main.py:206-211 | every field is stripped; a typed version or branch is used as stripped, a blank version is read as "v1.0" and a blank branch as "main", so neither is ever empty |
| Dispatch.Dispatcher.constructor | gui/main.py:620 | the button starts enabled, with no error labels and no processes |
| Dispatch.Dispatcher.PushToGit | gui/main.py:198-352 | a press does what Expected says (outcome, processes started in order, error label shown), and the button is enabled on every way out |
| Dispatch.Dispatcher.EnableButton | gui/main.py:351-352 | the finally clause enables the button and changes nothing else |
| Dispatch.Dispatcher.Attempt | gui/main.py:200-350 | the try block reads the form and then acts as Expected says |
| Dispatch.Dispatcher.ShowError | gui/main.py:620-622 | show_error: the field's label holds the message, and the processes and the button are unchanged |
| Dispatch.Dispatcher.ProjectStage | gui/main.py:214-217 | a blank project is labelled "Required" and ends the attempt; otherwise the attempt goes on as Decide says |
| Dispatch.Dispatcher.PathStage | gui/main.py:219-226 | a rejected path labels the project field with the validator's message; an accepted one goes forward as its absolute form |
| Dispatch.Dispatcher.RepoStage | gui/main.py:228-234 | a blank URL is labelled "Required"; otherwise the URL validator runs |
| Dispatch.Dispatcher.UrlStage | gui/main.py:234-238 | a rejected URL labels the repository field; an exception from urlparse ends the attempt as unexpected |
| Dispatch.Dispatcher.TagStage | gui/main.py:240-259 | branch, then tag, then the commit clean-up of a non-empty message, with no labels changed |
| Dispatch.Dispatcher.Start | gui/main.py:261-325 | bash and the script must exist; the probe starts with the button disabled; a refused probe re-enables it; otherwise the push starts with the quoted command and the notes in WHATS_NEW |
| Dispatch.EffectsFollowChecks | gui/main.py:214-311 | no process starts unless every validation passed and bash and the script were found; the probe comes first; the push starts exactly when the probe grants access; at most two processes; both start with the button disabled |
| Dispatch.PushArgvAtomic | gui/main.py:290-297 | the push runs bash -c on a line the shell reads as bash, the script and the five values in the script's order (absolute project path, tag, URL, branch, cleaned commit), each one word whatever it holds |
| Dispatch.PushEnvironment | gui/main.py:298-300 | the push inherits the environment; WHATS_NEW holds the sanitised notes when notes were typed; with no notes the environment is passed unchanged |
| Dispatch.PushNotesClean | gui/main.py:298-300 | when notes were typed, the push's WHATS_NEW has at most 10000 characters, no NUL and no CR, and is a prefix of the notes with those removed |
| Dispatch.ValidationOrder | gui/main.py:214-287 | a rejection at one step means every earlier step passed; a missing bash or script, or a refused probe, means every validation passed |
| Dispatch.InlineErrors | gui/main.py:214-238 | error labels are set only for the project and repository fields: "Required" for a blank field, otherwise the validator's message |
| Dispatch.PushedSummary | gui/main.py:306-316 | a completed push means every check passed and the script exited 0; the summary names the cleaned commit (or "Git Pusher" and the tag), the repository, branch and tag, and whether notes were saved |
| Dispatch.PushOutcome | gui/main.py:306-329 | once every check passed and access was granted, the push run decides the outcome: exit 0 is a completed push naming the cleaned commit (or the fallback), repository, branch, tag and whether notes were saved; another exit code is a failure with that code and stderr; the timeout is reported as such; any other exception is unexpected |
| Dispatch.PushedMessage | gui/main.py:315-318 | the success message of a completed push starts with "Commit:" and the cleaned commit (or "Git Pusher" and the tag), then has the lines naming the pushed repository, branch and tag, and ends with the WHATS_NEW.txt line exactly when notes were typed |
| Dispatch.PressSummaryFallback | gui/main.py:255-315 | a press whose commit message is empty after clean-up reports "Git Pusher" and the tag as its commit |

## Left out

- The user interface is not modelled: status line text, message boxes,
  the entry borders that `show_error` sets, `update_idletasks`, the folder
  dialog and the widgets. The outcome of a press is a value (`Outcome`)
  instead of a dialog.
- Processes are not run. What the probe and the push do is given as
  `ProbeResult` and `RunResult` in `System`. The script's own git commands
  are not modelled.
- `find_git_bash` and `resource_path` are given: the bash path (empty for
  None) and the script path are fields of `System`.
- The file system is given as functions in `Host`: normpath, abspath (None
  where it raises), exists and isdir. Windows path semantics are not
  modelled.
- Text.Lower folds only ASCII letters, where Python's `str.lower()` folds
  all of Unicode. This does not change any result here. The scheme is
  lower-cased only after a check that it is ASCII. The protected
  directories and the probe keywords hold no letter that a non-ASCII
  character lower-cases to. U+0130 lower-cases to two characters, "i" and a
  combining dot, and the dot cannot match.
- `\d` in the version pattern means ASCII digits only. Python's `\d` also
  matches other Unicode decimal digits, so a tag such as "v١.٠" is
  rejected here but accepted by the source.
- Validators.UrlScheme models only the part of `urlparse` that the
  validator uses: the scheme rule and the "Invalid IPv6 URL" error for a
  netloc with one square bracket. Two other `ValueError`s are not
  modelled. Newer Python releases check bracketed hosts further. Python's
  netloc check also raises when a non-ASCII netloc turns, under NFKC
  normalisation, into text holding '/', '?', '#', '@' or ':'. For example,
  `ssh://a＠b` (a fullwidth '@') raises in the source, and push_to_git
  reports an unexpected error, while ValidateRepoUrl accepts it. Unicode
  normalisation is outside this model. Both checks apply only when there is
  a "//" authority, so SshShorthandAccepted, which requires there is none,
  is not affected.
- Validators.ValidateRepoUrl: accepts URLs that the source's NFKC netloc
  check rejects by raising (the line above), because that check is not
  modelled.
- Dispatch.RunOutcome reports the stderr of a failed push. When that
  stderr is empty, the source shows `str(e)` instead, and that text is not
  modelled.
- The `NameError` and `AttributeError` handlers of `push_to_git` are not
  modelled. They only guard against UI set-up errors, which the model has
  none of. Any other exception, including the `ValueError` from
  `urlparse`, ends the attempt as `Unexpected`.
- Auth.ProbeArgv states only the start of the probe command line. Its
  trailing `2>&1` is a redirection, which the tokenizer does not read.
  The repository operand is quoted with the same `Quote` that
  `Shell.QuoteRoundTrip` covers.
