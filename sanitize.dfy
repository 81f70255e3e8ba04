/**
 * The two text sanitisers of gui/main.py: sanitize_env_var, applied to the
 * "what's new" notes before they are put in the environment, and the
 * commit-message clean-up inside push_to_git.
 */
module Sanitize {
  import opened Text

  const MaxEnvLength := 10000
  const MaxCommitLength := 500

  /** The characters sanitize_env_var removes: NUL and carriage return. */
  const EnvDropped := {'\0', '\r'}

  /** The characters the commit clean-up removes: backtick and dollar. */
  const CommitDropped := {'`', '$'}

  /** sanitize_env_var: NUL and CR removed, then cut to 10000 characters. */
  function SanitizeEnvVar(value: string): (r: string)
    ensures |r| <= MaxEnvLength
    ensures forall i :: 0 <= i < |r| ==> r[i] != '\0' && r[i] != '\r'
    ensures HasPrefix(Remove(value, EnvDropped), r)
    ensures |Remove(value, EnvDropped)| <= MaxEnvLength ==> r == Remove(value, EnvDropped)
    ensures |Remove(value, EnvDropped)| > MaxEnvLength ==> |r| == MaxEnvLength
  {
    var cleaned := Remove(value, EnvDropped);
    var r := Take(cleaned, MaxEnvLength);
    assert forall i :: 0 <= i < |r| ==> r[i] == cleaned[i];
    r
  }

  /** A short value free of NUL and CR passes through unchanged. */
  lemma SanitizeEnvVarKeepsClean(value: string)
    requires |value| <= MaxEnvLength
    requires forall i :: 0 <= i < |value| ==> value[i] != '\0' && value[i] != '\r'
    ensures SanitizeEnvVar(value) == value
  {
    assert forall i :: 0 <= i < |value| ==> value[i] !in EnvDropped;
  }

  /** Sanitising twice is sanitising once. */
  lemma SanitizeEnvVarIdempotent(value: string)
    ensures SanitizeEnvVar(SanitizeEnvVar(value)) == SanitizeEnvVar(value)
  {
    SanitizeEnvVarKeepsClean(SanitizeEnvVar(value));
  }

  /** The commit message after clean-up, and whether it was cut (the source then warns in the status line). */
  datatype Sanitized = Sanitized(text: string, truncated: bool)

  /**
   * The clean-up push_to_git applies to a non-empty commit message: every `
   * and $ removed, then cut to 500 characters.  An empty message is left alone.
   */
  function SanitizeCommit(commit: string): (r: Sanitized)
    ensures commit == [] ==> r == Sanitized([], false)
    ensures |r.text| <= MaxCommitLength
    ensures forall i :: 0 <= i < |r.text| ==> r.text[i] != '`' && r.text[i] != '$'
    ensures HasPrefix(Remove(commit, CommitDropped), r.text)
    ensures |Remove(commit, CommitDropped)| <= MaxCommitLength ==> r.text == Remove(commit, CommitDropped)
    ensures |Remove(commit, CommitDropped)| > MaxCommitLength ==> |r.text| == MaxCommitLength
    ensures r.truncated <==> |Remove(commit, CommitDropped)| > MaxCommitLength
  {
    if commit == [] then Sanitized([], false)
    else
      var cleaned := Remove(commit, CommitDropped);
      var r := Take(cleaned, MaxCommitLength);
      assert forall i :: 0 <= i < |r| ==> r[i] == cleaned[i];
      Sanitized(r, |cleaned| > MaxCommitLength)
  }

  /**
   * A dollar sign is dropped from the message and the text around it is
   * kept in order: "fix $HOME" becomes "fix HOME".
   */
  lemma SanitizeCommitDropsDollar(head: string, tail: string)
    requires |head| + |tail| <= MaxCommitLength
    requires forall i :: 0 <= i < |head| ==> head[i] != '`' && head[i] != '$'
    requires forall i :: 0 <= i < |tail| ==> tail[i] != '`' && tail[i] != '$'
    ensures SanitizeCommit(head + ("$" + tail)) == Sanitized(head + tail, false)
  {
    assert forall i :: 0 <= i < |head| ==> head[i] !in CommitDropped;
    assert forall i :: 0 <= i < |tail| ==> tail[i] !in CommitDropped;
    RemoveAppend(head, "$" + tail, CommitDropped);
    assert ("$" + tail)[1..] == tail;
  }

  /** A message with no ` or $ and at most 500 characters is used as typed. */
  lemma SanitizeCommitKeepsClean(commit: string)
    requires |commit| <= MaxCommitLength
    requires forall i :: 0 <= i < |commit| ==> commit[i] != '`' && commit[i] != '$'
    ensures SanitizeCommit(commit) == Sanitized(commit, false)
  {
    assert forall i :: 0 <= i < |commit| ==> commit[i] !in CommitDropped;
  }

  /**
   * A message made only of ` and $ becomes empty, so the success summary
   * falls back to the default text although a message was typed.
   */
  lemma SanitizeCommitCanEmpty(commit: string)
    requires forall i :: 0 <= i < |commit| ==> commit[i] == '`' || commit[i] == '$'
    ensures SanitizeCommit(commit).text == []
  {
    RemoveAll(commit, CommitDropped);
  }

  /** Cleaning an already cleaned message changes nothing and reports no cut. */
  lemma SanitizeCommitIdempotent(commit: string)
    ensures var once := SanitizeCommit(commit).text; SanitizeCommit(once) == Sanitized(once, false)
  {
    SanitizeCommitKeepsClean(SanitizeCommit(commit).text);
  }
}
