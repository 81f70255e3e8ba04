/**
 * The four input validators of gui/main.py.  Each returns the (ok, message)
 * pair of the source: a rejection carries the message shown to the user,
 * an acceptance an empty message, except that an accepted project path
 * carries its absolute form.
 */
module Validators {
  import opened Text

  /** The (ok, message) pair every validator returns. */
  datatype Verdict = Verdict(ok: bool, message: string)

  const Accepted := Verdict(true, "")

  // ======================================================= repository URL

  const UrlRequired := "Repository URL is required"
  const BadSshHost := "Invalid SSH host format"
  const BadProtocol := "Invalid protocol. Only HTTPS, SSH, or HTTP allowed."
  const DangerousUrl := "URL contains potentially dangerous characters"
  const AllowedSchemes := ["https", "http", "git", "ssh"]
  const InvalidIPv6 := "Invalid IPv6 URL"

  /** urlsplit first drops leading C0 control characters and spaces. */
  function LStripControls(s: string): (r: string)
    ensures |r| <= |s| && r == s[|s| - |r|..]
    ensures r == [] || r[0] > ' '
    ensures forall i :: 0 <= i < |s| - |r| ==> s[i] <= ' '
  {
    if s != [] && s[0] <= ' ' then LStripControls(s[1..]) else s
  }

  /** urlsplit's clean-up before parsing: leading controls go, and every tab, CR and LF. */
  function CleanUrl(url: string): (r: string)
    ensures |r| <= |url|
    ensures forall i :: 0 <= i < |r| ==> r[i] != '\t' && r[i] != '\r' && r[i] != '\n'
    ensures r == [] || r[0] > ' '
    ensures (url == [] || url[0] > ' ') && (forall i :: 0 <= i < |url| ==> url[i] != '\t' && url[i] != '\r' && url[i] != '\n') ==> r == url
    ensures r == Remove(url[|url| - |LStripControls(url)|..], {'\t', '\r', '\n'})
  {
    CleanedText(url);
    Remove(LStripControls(url), {'\t', '\r', '\n'})
  }

  /** The facts CleanUrl states, about the text after the leading controls with tabs, CR and LF removed. */
  lemma CleanedText(url: string)
    ensures var l := LStripControls(url); var r := Remove(l, {'\t', '\r', '\n'});
      && |r| <= |url| && (r == [] || r[0] > ' ')
      && ((url == [] || url[0] > ' ') && (forall i :: 0 <= i < |url| ==> url[i] != '\t' && url[i] != '\r' && url[i] != '\n') ==> r == url)
  {
    RemoveKeepsFirst(LStripControls(url), {'\t', '\r', '\n'});
  }

  /**
   * A tab inside a URL is dropped and the text around it is kept in order:
   * "f\ttp://x" is cleaned to "ftp://x".
   */
  lemma CleanUrlDropsTab(a: string, b: string)
    requires a != [] && a[0] > ' '
    requires forall i :: 0 <= i < |a| ==> a[i] != '\t' && a[i] != '\r' && a[i] != '\n'
    requires forall i :: 0 <= i < |b| ==> b[i] != '\t' && b[i] != '\r' && b[i] != '\n'
    ensures CleanUrl(a + ("\t" + b)) == a + b
  {
    var u := a + ("\t" + b);
    assert u[0] == a[0];
    assert LStripControls(u) == u;
    RemoveAppend(a, "\t" + b, {'\t', '\r', '\n'});
    assert ("\t" + b)[1..] == b;
  }

  /** A first character that is not dropped stays first. */
  lemma RemoveKeepsFirst(s: string, drop: set<char>)
    ensures s != [] && s[0] !in drop ==> Remove(s, drop) != [] && Remove(s, drop)[0] == s[0]
  {
  }

  /** The characters of a scheme (section 3.1 of RFC 3986). */
  predicate IsSchemeChar(c: char) {
    IsAsciiAlnum(c) || c in "+-."
  }

  datatype SchemeSplit = SchemeSplit(scheme: string, rest: string)

  /**
   * urlsplit's scheme rule: the text before the first ':' is the scheme,
   * lower-cased, when it is non-empty, starts with an ASCII letter and holds
   * only scheme characters; otherwise there is no scheme.
   */
  function SplitScheme(u: string): (r: SchemeSplit)
    ensures r.scheme != [] <==> exists n :: SchemeEndsAt(u, n)
    ensures forall n :: SchemeEndsAt(u, n) ==> r == SchemeSplit(Lower(u[..n]), u[n + 1..])
    ensures r.scheme == [] ==> r.rest == u
  {
    SchemeEndsAtFirstColon(u);
    var i := IndexOf(u, ':');
    if 0 < i < |u| && IsAsciiLetter(u[0]) && forall j :: 0 <= j < i ==> IsSchemeChar(u[j])
    then assert SchemeEndsAt(u, i); SchemeSplit(Lower(u[..i]), u[i + 1..])
    else SchemeSplit([], u)
  }

  /** A scheme holds no ':', so the ':' that ends it is the first one. */
  lemma SchemeEndsAtFirstColon(u: string)
    ensures forall n :: SchemeEndsAt(u, n) ==> IndexOf(u, ':') == n
  {
    forall n | SchemeEndsAt(u, n) ensures IndexOf(u, ':') == n {
      forall j | 0 <= j < n ensures u[j] != ':' {
        assert IsSchemeChar(u[j]);
      }
    }
  }

  /**
   * u[..n] is a scheme followed by a ':': non-empty, starting with an ASCII
   * letter and made of scheme characters, none of which is ':'.
   */
  predicate SchemeEndsAt(u: string, n: int) {
    0 < n < |u| && u[n] == ':' && IsAsciiLetter(u[0]) && forall j :: 0 <= j < n ==> IsSchemeChar(u[j])
  }

  /** urlsplit raises "Invalid IPv6 URL" when the authority part holds one square bracket but not the other. */
  predicate UnbalancedBrackets(rest: string) {
    HasPrefix(rest, "//") &&
    var netloc := UpTo(rest[2..], {'/', '?', '#'});
    ('[' in netloc) != (']' in netloc)
  }

  /**
   * urlparse(url).scheme, or the ValueError urlparse raises.  A scheme is
   * returned lower-cased, so "HTTPS" compares equal to "https"; the only
   * error is the bracket check of an authority part.
   */
  function UrlScheme(url: string): (r: Call<string>)
    ensures r.Raises? ==> r.error == InvalidIPv6 && HasAuthority(url)
    ensures r.Raises? <==> UnbalancedBrackets(SplitScheme(CleanUrl(url)).rest)
    ensures r.Returns? ==> (r.value != [] <==> exists n :: SchemeEndsAt(CleanUrl(url), n))
    ensures forall n :: SchemeEndsAt(CleanUrl(url), n) && r.Returns? ==> r.value == Lower(CleanUrl(url)[..n])
    ensures r.Returns? ==> forall i :: 0 <= i < |r.value| ==> IsSchemeChar(r.value[i]) && !('A' <= r.value[i] <= 'Z')
  {
    var parts := SplitScheme(CleanUrl(url));
    SchemeIsLower(CleanUrl(url));
    if UnbalancedBrackets(parts.rest) then Raises(InvalidIPv6) else Returns(parts.scheme)
  }

  /** The scheme SplitScheme finds is made of lower-case scheme characters. */
  lemma SchemeIsLower(u: string)
    ensures var sc := SplitScheme(u).scheme;
      forall i :: 0 <= i < |sc| ==> IsSchemeChar(sc[i]) && !('A' <= sc[i] <= 'Z')
  {
    var sc := SplitScheme(u).scheme;
    if sc != [] {
      var n :| SchemeEndsAt(u, n);
      forall i | 0 <= i < |sc| ensures IsSchemeChar(sc[i]) && !('A' <= sc[i] <= 'Z') {
        assert sc[i] == LowerChar(u[i]);
        assert IsSchemeChar(u[i]);
      }
    }
  }

  /** The text after the first '@' (empty when there is none). */
  function AfterAt(u: string): string
  {
    if '@' in u then u[IndexOf(u, '@') + 1..] else []
  }

  /** The SSH shorthand branch applies: '@' and ':' present, no "http" prefix, and a ':' after the first '@'. */
  predicate SshShaped(u: string) {
    '@' in u && ':' in u && !HasPrefix(u, "http") && ':' in AfterAt(u)
  }

  /** The host of an SSH shorthand: between the first '@' and the next ':'. */
  function SshHost(u: string): string
  {
    var rest := AfterAt(u);
    rest[..IndexOf(rest, ':')]
  }

  predicate IsHostChar(c: char) {
    IsAsciiAlnum(c) || c == '.' || c == '-'
  }

  predicate AllHostChars(s: string) {
    forall i :: 0 <= i < |s| ==> IsHostChar(s[i])
  }

  /** re.match(r'^[a-zA-Z0-9\.\-]+$', h): Python's $ also matches just before a final newline. */
  predicate HostMatches(h: string) {
    || (h != [] && AllHostChars(h))
    || (|h| >= 2 && h[|h| - 1] == '\n' && AllHostChars(h[..|h| - 1]))
  }

  const UrlMetachars := {';', '&', '|', '`', '$'}

  /** The deny-list: a shell metacharacter, a "../" or an encoded NUL "%00". */
  predicate Dangerous(u: string) {
    AnyIn(u, UrlMetachars) || HasInfix(u, "../") || HasInfix(u, "%00")
  }

  /** validate_repo_url; Raises when urlparse raises, which validate_repo_url does not catch. */
  function ValidateRepoUrl(url: string): (r: Call<Verdict>)
    ensures r.Raises? ==> r.error == InvalidIPv6
    ensures r.Returns? && r.value.ok ==> r.value.message == []
  {
    if url == [] || Strip(url) == [] then Returns(Verdict(false, UrlRequired))
    else
      var u := Strip(url);
      match UrlScheme(u)
      case Raises(e) => Raises(e)
      case Returns(scheme) =>
        if SshShaped(u) then
          (if HostMatches(SshHost(u)) then Returns(Accepted) else Returns(Verdict(false, BadSshHost)))
        else if scheme != [] && scheme !in AllowedSchemes then Returns(Verdict(false, BadProtocol))
        else if Dangerous(u) then Returns(Verdict(false, DangerousUrl))
        else Returns(Accepted)
  }

  /**
   * A URL is rejected as "required" exactly when it is blank, and every
   * rejection carries one of the four messages of validate_repo_url.
   */
  lemma RepoUrlVerdicts(url: string)
    ensures ValidateRepoUrl(url) == Returns(Verdict(false, UrlRequired)) <==> Strip(url) == []
    ensures var r := ValidateRepoUrl(url);
      r.Returns? && !r.value.ok ==> r.value.message in {UrlRequired, BadSshHost, BadProtocol, DangerousUrl}
  {
    if url != [] && Strip(url) != [] {
      var u := Strip(url);
      assert |BadSshHost| != |UrlRequired| && |BadProtocol| != |UrlRequired| && |DangerousUrl| != |UrlRequired|;
      match UrlScheme(u)
      case Raises(e) =>
        assert ValidateRepoUrl(url) == Raises(e);
      case Returns(scheme) =>
        var m := if SshShaped(u) then BadSshHost else if scheme != [] && scheme !in AllowedSchemes then BadProtocol else DangerousUrl;
        assert ValidateRepoUrl(url) == Returns(Accepted) || ValidateRepoUrl(url) == Returns(Verdict(false, m));
    }
  }

  /**
   * Outside the SSH shorthand, a URL is accepted exactly when its scheme is
   * empty or allowed and it holds no metacharacter, no "../" and no "%00";
   * an accepted URL has an empty message.
   */
  lemma RepoUrlDenyList(url: string, scheme: string)
    requires Strip(url) != [] && !SshShaped(Strip(url))
    requires UrlScheme(Strip(url)) == Returns(scheme)
    ensures var u := Strip(url);
      ValidateRepoUrl(url) == Returns(Verdict(
        (scheme == [] || scheme in AllowedSchemes)
        && !(exists i :: 0 <= i < |u| && u[i] in UrlMetachars)
        && !(exists i :: OccursAt(u, "../", i))
        && !(exists i :: OccursAt(u, "%00", i)),
        if scheme != [] && scheme !in AllowedSchemes then BadProtocol
        else if Dangerous(u) then DangerousUrl
        else []))
  {
    var u := Strip(url);
    ParsedUrlVerdict(url, scheme);
    HasInfixIff(u, "../");
    HasInfixIff(u, "%00");
  }

  /**
   * Outside the SSH shorthand, a URL whose text opens with a scheme that,
   * lower-cased, is not https, http, git or ssh is rejected with the
   * protocol message, unless urlparse raises first on its authority.
   */
  lemma ForeignSchemeRejected(url: string, n: nat)
    requires Strip(url) != [] && !SshShaped(Strip(url))
    requires SchemeEndsAt(CleanUrl(Strip(url)), n) && Lower(CleanUrl(Strip(url))[..n]) !in AllowedSchemes
    ensures ValidateRepoUrl(url) ==
      if UnbalancedBrackets(SplitScheme(CleanUrl(Strip(url))).rest) then Raises(InvalidIPv6)
      else Returns(Verdict(false, BadProtocol))
  {
  }

  /** A stripped URL outside the shorthand whose scheme urlparse reads is judged by the allow-list, then the deny-list. */
  lemma ParsedUrlVerdict(url: string, scheme: string)
    requires Strip(url) != [] && !SshShaped(Strip(url)) && UrlScheme(Strip(url)) == Returns(scheme)
    ensures var u := Strip(url); ValidateRepoUrl(url) == Returns(
        if scheme != [] && scheme !in AllowedSchemes then Verdict(false, BadProtocol)
        else if Dangerous(u) then Verdict(false, DangerousUrl)
        else Accepted)
  {
    assert url != [];
  }

  /** A character that is not '@', a square bracket, a tab, a CR or an LF. */
  predicate PlainUrlChar(c: char) {
    c != '@' && c != '[' && c != ']' && c != '\t' && c != '\r' && c != '\n'
  }

  /**
   * A URL scheme://rest with a lower-case scheme and a rest free of '@',
   * brackets, tabs, CR, LF and whitespace at its end is judged by the
   * protocol allow-list and then the deny-list alone: urlparse reads
   * exactly that scheme and does not raise, and the SSH shorthand does not
   * apply.
   */
  lemma SchemeUrlVerdict(scheme: string, rest: string)
    requires scheme != [] && forall i :: 0 <= i < |scheme| ==> 'a' <= scheme[i] <= 'z'
    requires forall i :: 0 <= i < |rest| ==> PlainUrlChar(rest[i])
    requires rest == [] || !IsSpace(rest[|rest| - 1])
    ensures var u := scheme + ("://" + rest);
      ValidateRepoUrl(u) == Returns(
        if scheme !in AllowedSchemes then Verdict(false, BadProtocol)
        else if Dangerous(u) then Verdict(false, DangerousUrl)
        else Accepted)
  {
    var u := scheme + ("://" + rest);
    SchemeUrlText(scheme, rest);
    SchemeUrlParses(scheme, rest);
    StripStripped(u);
    ParsedUrlVerdict(u, scheme);
  }

  /** scheme://rest holds no '@' and has no whitespace at its ends. */
  lemma SchemeUrlText(scheme: string, rest: string)
    requires scheme != [] && forall i :: 0 <= i < |scheme| ==> 'a' <= scheme[i] <= 'z'
    requires forall i :: 0 <= i < |rest| ==> PlainUrlChar(rest[i])
    requires rest == [] || !IsSpace(rest[|rest| - 1])
    ensures var u := scheme + ("://" + rest); '@' !in u && Trimmed(u)
  {
    var u := scheme + ("://" + rest);
    forall i | 0 <= i < |u| ensures u[i] != '@' {
      if i >= |scheme| + 3 { assert u[i] == rest[i - |scheme| - 3]; }
    }
    assert u[0] == scheme[0];
    assert u[|u| - 1] == (if rest == [] then '/' else rest[|rest| - 1]);
  }

  /** urlparse reads the lower-case scheme of scheme://rest, and with no bracket in rest it does not raise. */
  lemma SchemeUrlParses(scheme: string, rest: string)
    requires scheme != [] && forall i :: 0 <= i < |scheme| ==> 'a' <= scheme[i] <= 'z'
    requires forall i :: 0 <= i < |rest| ==> PlainUrlChar(rest[i])
    ensures UrlScheme(scheme + ("://" + rest)) == Returns(scheme)
  {
    var u := scheme + ("://" + rest);
    var n := |scheme|;
    SchemeUrlNoBrackets(scheme, rest);
    CleanUrlAbsent(u, '[');
    CleanUrlAbsent(u, ']');
    CleanSchemeUrl(scheme, rest);
    NoBracketsBalanced(CleanUrl(u), n + 1);
    assert Lower(scheme) == scheme;
    CleanSchemeRead(u, n);
  }

  /** When the cleaned text has a scheme ending at n and no unbalanced bracket after it, urlparse returns that scheme. */
  lemma CleanSchemeRead(u: string, n: nat)
    requires SchemeEndsAt(CleanUrl(u), n) && !UnbalancedBrackets(CleanUrl(u)[n + 1..])
    ensures UrlScheme(u) == Returns(Lower(CleanUrl(u)[..n]))
  {
  }

  /** scheme://rest holds no square bracket when rest holds none. */
  lemma SchemeUrlNoBrackets(scheme: string, rest: string)
    requires forall i :: 0 <= i < |scheme| ==> 'a' <= scheme[i] <= 'z'
    requires forall i :: 0 <= i < |rest| ==> PlainUrlChar(rest[i])
    ensures var u := scheme + ("://" + rest); '[' !in u && ']' !in u
  {
    var u := scheme + ("://" + rest);
    forall i | 0 <= i < |u| ensures u[i] != '[' && u[i] != ']' {
      if i >= |scheme| + 3 { assert u[i] == rest[i - |scheme| - 3]; }
    }
  }

  /** After clean-up, scheme://rest still opens with its scheme, a ':' and "//". */
  lemma CleanSchemeUrl(scheme: string, rest: string)
    requires scheme != [] && forall i :: 0 <= i < |scheme| ==> 'a' <= scheme[i] <= 'z'
    requires forall i :: 0 <= i < |rest| ==> PlainUrlChar(rest[i])
    ensures var c := CleanUrl(scheme + ("://" + rest)); var n := |scheme|;
      SchemeEndsAt(c, n) && c[..n] == scheme && HasPrefix(c[n + 1..], "//")
  {
    var x := scheme + "://";
    SchemeOpener(scheme);
    assert scheme + ("://" + rest) == x + rest;
    CleanUrlPrefix(x, rest);
    SchemeOpensWith(CleanUrl(x + rest), x, |scheme|);
  }

  /** The text scheme:// is clean, starts with a letter and is a scheme followed by ':' and "//". */
  lemma SchemeOpener(scheme: string)
    requires scheme != [] && forall i :: 0 <= i < |scheme| ==> 'a' <= scheme[i] <= 'z'
    ensures var x := scheme + "://"; var n := |scheme|;
      && IsAsciiLetter(x[0]) && (forall i :: 0 <= i < |x| ==> x[i] != '\t' && x[i] != '\r' && x[i] != '\n')
      && SchemeEndsAt(x, n) && x[..n] == scheme && x[n + 1] == '/' && x[n + 2] == '/'
  {
    var x := scheme + "://";
    forall j | 0 <= j < |scheme| ensures x[j] == scheme[j] && IsSchemeChar(x[j]) { }
  }

  /** A text that opens with scheme:// has that scheme followed by "//". */
  lemma SchemeOpensWith(c: string, x: string, n: nat)
    requires |x| == n + 3 && |x| <= |c| && c[..|x|] == x
    requires SchemeEndsAt(x, n) && x[n + 1] == '/' && x[n + 2] == '/'
    ensures SchemeEndsAt(c, n) && c[..n] == x[..n] && HasPrefix(c[n + 1..], "//")
  {
    forall j | 0 <= j < n + 3 ensures c[j] == x[j] { assert c[j] == c[..|x|][j]; }
    assert c[n + 1..][..2] == "//";
  }

  /** A text with no square bracket has no unbalanced one in any suffix. */
  lemma NoBracketsBalanced(c: string, k: nat)
    requires '[' !in c && ']' !in c && k <= |c|
    ensures !UnbalancedBrackets(c[k..])
  {
    var rest := c[k..];
    if HasPrefix(rest, "//") {
      var netloc := UpTo(rest[2..], {'/', '?', '#'});
      forall i | 0 <= i < |netloc| ensures netloc[i] != '[' && netloc[i] != ']' {
        assert netloc[i] == rest[2 + i] == c[k + 2 + i];
      }
    }
  }

  /** Clean-up removes characters and adds none. */
  lemma CleanUrlAbsent(u: string, ch: char)
    requires ch !in u
    ensures ch !in CleanUrl(u)
  {
    var l := LStripControls(u);
    assert ch !in l by {
      forall i | 0 <= i < |l| ensures l[i] != ch { assert l[i] == u[|u| - |l| + i]; }
    }
    RemoveAbsent(l, {'\t', '\r', '\n'}, ch);
  }

  /** A URL scheme://rest whose scheme is not on the allow-list is refused for its protocol. */
  lemma ForeignSchemeUrl(scheme: string, rest: string)
    requires scheme != [] && forall i :: 0 <= i < |scheme| ==> 'a' <= scheme[i] <= 'z'
    requires scheme !in AllowedSchemes
    requires forall i :: 0 <= i < |rest| ==> PlainUrlChar(rest[i])
    requires rest == [] || !IsSpace(rest[|rest| - 1])
    ensures ValidateRepoUrl(scheme + ("://" + rest)) == Returns(Verdict(false, BadProtocol))
  {
    SchemeUrlVerdict(scheme, rest);
  }

  /** An ftp:// URL such as ftp://example.com/r.git is refused for its protocol. */
  lemma FtpRejected(rest: string)
    requires forall i :: 0 <= i < |rest| ==> PlainUrlChar(rest[i])
    requires rest == [] || !IsSpace(rest[|rest| - 1])
    ensures ValidateRepoUrl("ftp" + ("://" + rest)) == Returns(Verdict(false, BadProtocol))
  {
    ForeignSchemeUrl("ftp", rest);
  }

  /** A file:// URL such as file:///etc/passwd is refused for its protocol. */
  lemma FileUrlRejected(rest: string)
    requires forall i :: 0 <= i < |rest| ==> PlainUrlChar(rest[i])
    requires rest == [] || !IsSpace(rest[|rest| - 1])
    ensures ValidateRepoUrl("file" + ("://" + rest)) == Returns(Verdict(false, BadProtocol))
  {
    ForeignSchemeUrl("file", rest);
  }

  /** The characters of a plain host and path: ASCII letters and digits, '.', '/', '-' and '_'. */
  predicate PathChar(c: char) {
    IsAsciiAlnum(c) || c == '.' || c == '/' || c == '-' || c == '_'
  }

  /**
   * A URL scheme://rest whose rest is made of letters, digits, '.', '/',
   * '-' and '_', with no two '.' in a row, hits nothing on the deny-list.
   */
  lemma PlainUrlNotDangerous(scheme: string, rest: string)
    requires forall i :: 0 <= i < |scheme| ==> 'a' <= scheme[i] <= 'z'
    requires forall i :: 0 <= i < |rest| ==> PathChar(rest[i])
    requires forall i :: 0 <= i < |rest| - 1 ==> !(rest[i] == '.' && rest[i + 1] == '.')
    ensures !Dangerous(scheme + ("://" + rest))
  {
    var u := scheme + ("://" + rest);
    var n := |scheme|;
    forall i | 0 <= i < |u| ensures u[i] !in UrlMetachars && u[i] != '%' && (i < n + 3 ==> u[i] != '.') {
      if i >= n + 3 { assert u[i] == rest[i - n - 3]; }
    }
    forall i | 0 <= i < |u| - 1 ensures !(u[i] == '.' && u[i + 1] == '.') {
      if i >= n + 3 { assert u[i] == rest[i - n - 3] && u[i + 1] == rest[i + 1 - n - 3]; }
    }
    MissingCharNoInfix(u, "%00", 0);
    HasPairIff(u, '.', '.');
    if HasInfix(u, "../") {
      InfixOfPrefix(u, "../", "..");
    }
  }

  /** The usual HTTPS clone URL, https://github.com/acme/app.git, is accepted. */
  lemma HttpsUrlAccepted()
    ensures ValidateRepoUrl("https" + ("://" + "github.com/acme/app.git")) == Returns(Accepted)
  {
    PlainUrlNotDangerous("https", "github.com/acme/app.git");
    SchemeUrlVerdict("https", "github.com/acme/app.git");
  }

  /** In the SSH shorthand branch only the host decides, whatever the rest of the URL holds. */
  lemma SshHostDecides(url: string)
    requires Strip(url) != [] && SshShaped(Strip(url))
    requires UrlScheme(Strip(url)).Returns?
    ensures ValidateRepoUrl(url) == Returns(if HostMatches(SshHost(Strip(url))) then Accepted else Verdict(false, BadSshHost))
  {
  }

  /** The shorthand user@host:path. */
  function SshUrl(user: string, host: string, path: string): string {
    user + ("@" + (host + (":" + path)))
  }

  /** The shorthand user@host:path takes the SSH branch with exactly that host. */
  lemma SshParts(user: string, host: string, path: string)
    requires !HasPrefix(user, "http")
    requires '@' !in user && ':' !in host
    ensures SshShaped(SshUrl(user, host, path))
    ensures SshHost(SshUrl(user, host, path)) == host
  {
    var u := SshUrl(user, host, path);
    SshAfterAt(user, host, path);
    SshNotHttp(user, host + (":" + path));
    IndexOfSplit(host, ':', path);
    assert ':' in u by {
      assert u[|user| + 1 + |host|] == ':';
    }
  }

  /** What follows the first '@' of user@host:path is host:path. */
  lemma SshAfterAt(user: string, host: string, path: string)
    requires '@' !in user
    ensures '@' in SshUrl(user, host, path)
    ensures AfterAt(SshUrl(user, host, path)) == host + (":" + path)
  {
    IndexOfSplit(user, '@', host + (":" + path));
  }

  /** user@rest starts with "http" only when user does. */
  lemma SshNotHttp(user: string, rest: string)
    requires !HasPrefix(user, "http") && '@' !in user
    ensures !HasPrefix(user + ("@" + rest), "http")
  {
    var u := user + ("@" + rest);
    if |user| >= 4 {
      assert u[..4] == user[..4];
    } else if |u| >= 4 {
      assert u[|user|] == '@';
      assert u[..4][|user|] == '@';
    }
  }

  /** After clean-up, a URL that starts with a letter and has an '@' before any ':' still does. */
  lemma CleanUrlKeepsShape(u: string, at: nat)
    requires at < |u| && u[at] == '@' && IsAsciiLetter(u[0])
    requires forall j :: 0 <= j < at ==> u[j] != ':'
    ensures var c := CleanUrl(u); c != [] && c[0] == u[0] && exists k :: AtBeforeColon(c, k)
  {
    assert u[0] > ' ';
    assert LStripControls(u) == u;
    var drop := {'\t', '\r', '\n'};
    assert u[0] !in drop;
    assert Remove(u, drop) == [u[0]] + Remove(u[1..], drop);
    RemoveKeepsOrder(u, drop, at);
  }

  /** Text whose first ':' comes after an '@' has no scheme. */
  lemma NoSchemeBeforeColon(c: string, k: nat)
    requires AtBeforeColon(c, k)
    ensures SplitScheme(c) == SchemeSplit([], c)
  {
    var i := IndexOf(c, ':');
    assert i > k;
    assert !IsSchemeChar(c[k]);
  }

  /** A URL that starts with a letter and has an '@' before its first ':' has no scheme and parses. */
  lemma NoSchemeBeforeAt(u: string, at: nat)
    requires at < |u| && u[at] == '@' && IsAsciiLetter(u[0])
    requires forall j :: 0 <= j < at ==> u[j] != ':'
    ensures UrlScheme(u) == Returns([])
  {
    CleanNoScheme(u, at);
  }

  /**
   * After clean-up, a URL that starts with a letter and has an '@' before
   * any ':' has no scheme and no "//" authority.
   */
  lemma CleanNoScheme(u: string, at: nat)
    requires at < |u| && u[at] == '@' && IsAsciiLetter(u[0])
    requires forall j :: 0 <= j < at ==> u[j] != ':'
    ensures SplitScheme(CleanUrl(u)) == SchemeSplit([], CleanUrl(u)) && !HasPrefix(CleanUrl(u), "//")
  {
    CleanUrlKeepsShape(u, at);
    var c := CleanUrl(u);
    var k :| AtBeforeColon(c, k);
    NoSchemeBeforeColon(c, k);
    NoDoubleSlash(c);
  }

  /**
   * Every user@host:path with a well-formed host is accepted, metacharacters
   * in the user or path part included: the shorthand branch returns before
   * the deny-list is consulted.  The user part may be empty or hold ':' or
   * any other character but '@'; what is asked is that urlparse finds no
   * "//" authority after the scheme it reads, so that it cannot raise.
   */
  lemma SshShorthandAccepted(user: string, host: string, path: string)
    requires '@' !in user && !HasPrefix(user, "http")
    requires host != [] && AllHostChars(host)
    requires (user == [] || !IsSpace(user[0])) && (path == [] || !IsSpace(path[|path| - 1]))
    requires !HasAuthority(SshUrl(user, host, path))
    ensures ValidateRepoUrl(SshUrl(user, host, path)) == Returns(Accepted)
  {
    var u := SshUrl(user, host, path);
    WellFormedHostParts(user, host, path);
    ShorthandEnds(user, host, path);
    StripStripped(u);
    ShorthandWithoutAuthority(u);
  }

  /** With a well-formed host, user@host:path takes the SSH branch and its host passes the host pattern. */
  lemma WellFormedHostParts(user: string, host: string, path: string)
    requires '@' !in user && !HasPrefix(user, "http")
    requires host != [] && AllHostChars(host)
    ensures SshShaped(SshUrl(user, host, path)) && HostMatches(SshHost(SshUrl(user, host, path)))
  {
    forall i | 0 <= i < |host| ensures host[i] != ':' {
      assert IsHostChar(host[i]);
    }
    SshParts(user, host, path);
  }

  /** A stripped shorthand URL with a well-formed host and no authority is accepted. */
  lemma ShorthandWithoutAuthority(u: string)
    requires u != [] && Strip(u) == u && SshShaped(u)
    requires HostMatches(SshHost(u)) && !HasAuthority(u)
    ensures ValidateRepoUrl(u) == Returns(Accepted)
  {
    NoAuthorityParses(u);
    SshHostDecides(u);
  }

  /** urlparse finds a "//" authority after the scheme it reads. */
  predicate HasAuthority(u: string) {
    HasPrefix(SplitScheme(CleanUrl(u)).rest, "//")
  }

  /** Without an authority urlparse does not raise. */
  lemma NoAuthorityParses(u: string)
    requires !HasAuthority(u)
    ensures UrlScheme(u).Returns?
  {
  }

  /**
   * A user part that starts with a letter and holds no ':' leaves urlparse
   * no scheme, and so no authority, to read.
   */
  lemma PlainUserNoAuthority(user: string, host: string, path: string)
    requires user != [] && IsAsciiLetter(user[0])
    requires '@' !in user && ':' !in user
    ensures !HasAuthority(SshUrl(user, host, path))
  {
    ShorthandPrefix(user, host, path);
    CleanNoScheme(SshUrl(user, host, path), |user|);
  }

  /**
   * A user part that is empty, or starts with a printable character that is
   * neither an ASCII letter nor '/', leaves urlparse no scheme and no "//"
   * authority.
   */
  lemma SymbolUserNoAuthority(user: string, host: string, path: string)
    requires user == [] || (user[0] > ' ' && !IsAsciiLetter(user[0]) && user[0] != '/')
    ensures !HasAuthority(SshUrl(user, host, path))
  {
    var u := SshUrl(user, host, path);
    assert u[0] == (if user == [] then '@' else user[0]);
    CleanUrlStart(u);
    NoSchemeNoAuthority(u);
  }

  /**
   * A user part that starts with a scheme, as in a:b@host:path, leaves no
   * authority either when no '/' follows the scheme's ':'.
   */
  lemma SchemeUserNoAuthority(user: string, host: string, path: string, n: nat)
    requires SchemeEndsAt(user, n) && n + 1 < |user| && user[n + 1] != '/'
    requires forall i :: 0 <= i < |user| ==> user[i] != '\t' && user[i] != '\r' && user[i] != '\n'
    ensures !HasAuthority(SshUrl(user, host, path))
  {
    var u := SshUrl(user, host, path);
    CleanUrlPrefix(user, "@" + (host + (":" + path)));
    var c := CleanUrl(u);
    assert SchemeEndsAt(c, n) by {
      forall j | 0 <= j <= n ensures c[j] == user[j] { assert c[j] == c[..|user|][j]; }
    }
    assert c[n + 1] == c[..|user|][n + 1];
    SchemeThenNoAuthority(u, n);
  }

  /** Clean-up keeps a first part that starts with a letter and holds no tab, CR or LF. */
  lemma CleanUrlPrefix(x: string, y: string)
    requires x != [] && IsAsciiLetter(x[0])
    requires forall i :: 0 <= i < |x| ==> x[i] != '\t' && x[i] != '\r' && x[i] != '\n'
    ensures |x| <= |CleanUrl(x + y)| && CleanUrl(x + y)[..|x|] == x
  {
    var drop := {'\t', '\r', '\n'};
    assert (x + y)[0] == x[0];
    assert LStripControls(x + y) == x + y;
    RemoveAppend(x, y, drop);
    assert Remove(x, drop) == x;
    assert (x + Remove(y, drop))[..|x|] == x;
  }

  /** Clean-up keeps a first character above space. */
  lemma CleanUrlStart(u: string)
    requires u != [] && u[0] > ' '
    ensures CleanUrl(u) != [] && CleanUrl(u)[0] == u[0]
  {
    assert LStripControls(u) == u;
    var drop := {'\t', '\r', '\n'};
    assert u[0] !in drop;
    assert Remove(u, drop) == [u[0]] + Remove(u[1..], drop);
  }

  /** Cleaned text that starts with neither an ASCII letter nor '/' has no scheme and no authority. */
  lemma NoSchemeNoAuthority(u: string)
    requires CleanUrl(u) != [] && !IsAsciiLetter(CleanUrl(u)[0]) && CleanUrl(u)[0] != '/'
    ensures !HasAuthority(u)
  {
    NoSchemeText(CleanUrl(u));
  }

  /** Text that starts with neither an ASCII letter nor '/' has no scheme and no "//" after it. */
  lemma NoSchemeText(c: string)
    requires c != [] && !IsAsciiLetter(c[0]) && c[0] != '/'
    ensures !HasPrefix(SplitScheme(c).rest, "//")
  {
    assert SplitScheme(c).scheme == [];
  }

  /** Cleaned text whose scheme ends at n, with no '/' right after the ':', has no authority. */
  lemma SchemeThenNoAuthority(u: string, n: nat)
    requires SchemeEndsAt(CleanUrl(u), n) && n + 1 < |CleanUrl(u)| && CleanUrl(u)[n + 1] != '/'
    ensures !HasAuthority(u)
  {
    SchemeRest(CleanUrl(u), n);
    NoDoubleSlash(SplitScheme(CleanUrl(u)).rest);
  }

  /** What follows the scheme's ':' is the rest. */
  lemma SchemeRest(c: string, n: nat)
    requires SchemeEndsAt(c, n)
    ensures SplitScheme(c).rest == c[n + 1..]
  {
  }

  /** Text that does not start with '/' does not start with "//". */
  lemma NoDoubleSlash(s: string)
    requires s != [] && s[0] != '/'
    ensures !HasPrefix(s, "//")
  {
    assert |s| >= 2 ==> s[..2][0] == s[0];
  }

  /** The user part comes first, then the '@'. */
  lemma ShorthandPrefix(user: string, host: string, path: string)
    requires ':' !in user && '@' !in user
    ensures var u := SshUrl(user, host, path);
      |user| < |u| && u[|user|] == '@' && forall j :: 0 <= j < |user| ==> u[j] == user[j] && u[j] != ':'
  {
    IndexOfSplit(user, '@', host + (":" + path));
  }

  lemma ShorthandEnds(user: string, host: string, path: string)
    requires user == [] || !IsSpace(user[0])
    requires path == [] || !IsSpace(path[|path| - 1])
    ensures var u := SshUrl(user, host, path); u != [] && !IsSpace(u[0]) && !IsSpace(u[|u| - 1])
  {
    var u := SshUrl(user, host, path);
    assert u[0] == (if user == [] then '@' else user[0]);
    var tail := ":" + path;
    assert u[|u| - 1] == tail[|tail| - 1];
  }

  /** s[k] is an '@' with no ':' before it. */
  predicate AtBeforeColon(s: string, k: int) {
    0 <= k < |s| && s[k] == '@' && forall j :: 0 <= j < k ==> s[j] != ':'
  }

  /**
   * Removing characters keeps every earlier kept character before a kept
   * '@': if position at of s is '@', some position of the result at or before
   * at is '@' and no ':' of s before at survives past it.
   */
  lemma {:induction false} RemoveKeepsOrder(s: string, drop: set<char>, at: nat)
    requires at < |s| && s[at] == '@' && '@' !in drop
    requires forall j :: 0 <= j < at ==> s[j] != ':'
    ensures exists k :: AtBeforeColon(Remove(s, drop), k)
  {
    if at == 0 {
      assert Remove(s, drop) == [s[0]] + Remove(s[1..], drop);
      assert AtBeforeColon(Remove(s, drop), 0);
    } else {
      RemoveKeepsOrder(s[1..], drop, at - 1);
      var rest := Remove(s[1..], drop);
      var k :| AtBeforeColon(rest, k);
      if s[0] in drop {
        assert Remove(s, drop) == rest;
      } else {
        var r := Remove(s, drop);
        assert r == [s[0]] + rest;
        assert r[k + 1] == '@';
        forall j | 0 <= j < k + 1 ensures r[j] != ':' {
          if j > 0 { assert r[j] == rest[j - 1]; }
        }
        assert AtBeforeColon(r, k + 1);
      }
    }
  }

  // ======================================================== branch name

  const EmptyBranch := "Branch name cannot be empty"
  const BadBranchChars := "Branch name contains invalid characters"
  const BranchDots := "Branch name cannot start or end with a dot"
  const BranchPatterns := "Branch name contains dangerous patterns"
  const BranchTooLong := "Branch name too long (max 255 characters)"
  const ReservedBranchChars := {'~', '^', ':', '?', '*', '[', ']', '\\'}
  const MaxBranchLength := 255

  /** validate_branch_name: the checks in the source's order, the first failing one naming the rejection. */
  function ValidateBranchName(branch: string): (r: Verdict)
    ensures r.ok ==> r.message == []
    ensures branch == [] ==> r == Verdict(false, EmptyBranch)
    ensures !r.ok ==> r.message in {EmptyBranch, BadBranchChars, BranchDots, BranchPatterns, BranchTooLong}
  {
    if branch == [] then Verdict(false, EmptyBranch)
    else if AnyIn(branch, ReservedBranchChars) then Verdict(false, BadBranchChars)
    else if branch[0] == '.' || branch[|branch| - 1] == '.' then Verdict(false, BranchDots)
    else if HasInfix(branch, "..") || HasInfix(branch, "@{") then Verdict(false, BranchPatterns)
    else if |branch| > MaxBranchLength then Verdict(false, BranchTooLong)
    else Accepted
  }

  /** A branch name is accepted exactly when it satisfies git's rules as the source states them. */
  lemma BranchAcceptedIff(branch: string)
    ensures ValidateBranchName(branch).ok <==>
      && 0 < |branch| <= MaxBranchLength
      && (forall i :: 0 <= i < |branch| ==> branch[i] !in ReservedBranchChars)
      && branch[0] != '.' && branch[|branch| - 1] != '.'
      && (forall i :: 0 <= i < |branch| - 1 ==> !(branch[i] == '.' && branch[i + 1] == '.'))
      && (forall i :: 0 <= i < |branch| - 1 ==> !(branch[i] == '@' && branch[i + 1] == '{'))
  {
    HasPairIff(branch, '.', '.');
    HasPairIff(branch, '@', '{');
  }

  /**
   * Which rule names a rejection, by position and in the source's order: a
   * reserved character comes first, then a '.' at either end, then an
   * adjacent ".." or "@{", then a length over 255.
   */
  lemma BranchVerdicts(branch: string)
    ensures var r := ValidateBranchName(branch);
      var reserved := exists i :: 0 <= i < |branch| && branch[i] in ReservedBranchChars;
      var dots := branch != [] && (branch[0] == '.' || branch[|branch| - 1] == '.');
      var pattern := exists i :: (0 <= i < |branch| - 1 &&
        ((branch[i] == '.' && branch[i + 1] == '.') || (branch[i] == '@' && branch[i + 1] == '{')));
      && (r == Verdict(false, EmptyBranch) <==> branch == [])
      && (r == Verdict(false, BadBranchChars) <==> reserved)
      && (r == Verdict(false, BranchDots) <==> !reserved && dots)
      && (r == Verdict(false, BranchPatterns) <==> !reserved && !dots && pattern)
      && (r == Verdict(false, BranchTooLong) <==> !reserved && !dots && !pattern && |branch| > MaxBranchLength)
  {
    HasPairIff(branch, '.', '.');
    HasPairIff(branch, '@', '{');
    assert |BadBranchChars| != |BranchDots| && BadBranchChars[21] != BranchPatterns[21];
    assert |EmptyBranch| != |BadBranchChars| && |EmptyBranch| != |BranchDots| && |EmptyBranch| != |BranchTooLong|;
    assert |EmptyBranch| != |BranchPatterns|;
    assert |BadBranchChars| != |BranchTooLong| && |BranchDots| != |BranchPatterns|;
    assert |BranchDots| != |BranchTooLong| && |BranchPatterns| != |BranchTooLong|;
  }

  /** A name holding ".." is rejected whatever else it holds. */
  lemma DotDotRejected(branch: string, i: nat)
    requires i + 1 < |branch| && branch[i] == '.' && branch[i + 1] == '.'
    ensures !ValidateBranchName(branch).ok
  {
    HasPairIff(branch, '.', '.');
  }

  /** The default branch "main" passes. */
  lemma DefaultBranchAccepted()
    ensures ValidateBranchName("main") == Accepted
  {
    HasPairIff("main", '.', '.');
    HasPairIff("main", '@', '{');
    assert !AnyIn("main", ReservedBranchChars);
    assert !HasInfix("main", "..") && !HasInfix("main", "@{");
  }

  // ======================================================== version tag

  const BadVersion := "Invalid version format. Use: v1.0, v1.2.3, etc."
  const DangerousVersion := "Version tag contains dangerous characters"
  const VersionMetachars := {';', '&', '|', '`', '$', '<', '>'}

  /** The number of leading ASCII digits. */
  function DigitRun(s: string): (n: nat)
    ensures n <= |s|
    ensures forall i :: 0 <= i < n ==> IsAsciiDigit(s[i])
    ensures n < |s| ==> !IsAsciiDigit(s[n])
  {
    if s != [] && IsAsciiDigit(s[0]) then 1 + DigitRun(s[1..]) else 0
  }

  predicate AllAlnum(s: string) {
    forall i :: 0 <= i < |s| ==> IsAsciiAlnum(s[i])
  }

  /** `(-[a-zA-Z0-9]+)?` reaching the end of the text. */
  predicate LabelTail(s: string) {
    s == [] || (s[0] == '-' && |s| > 1 && AllAlnum(s[1..]))
  }

  /** `\d+(-[a-zA-Z0-9]+)?` reaching the end of the text. */
  predicate DigitsLabelTail(s: string) {
    DigitRun(s) > 0 && LabelTail(s[DigitRun(s)..])
  }

  /** `(\.\d+)?(-[a-zA-Z0-9]+)?` reaching the end of the text. */
  predicate PatchTail(s: string) {
    LabelTail(s) || (s != [] && s[0] == '.' && DigitsLabelTail(s[1..]))
  }

  /** `\d+(\.\d+)?(-[a-zA-Z0-9]+)?` reaching the end of the text. */
  predicate MinorTail(s: string) {
    DigitRun(s) > 0 && PatchTail(s[DigitRun(s)..])
  }

  /** `\d+\.\d+(\.\d+)?(-[a-zA-Z0-9]+)?` reaching the end of the text. */
  predicate NumbersTail(s: string) {
    0 < DigitRun(s) < |s| && s[DigitRun(s)] == '.' && MinorTail(s[DigitRun(s) + 1..])
  }

  /**
   * The whole text has the shape v?\d+\.\d+(\.\d+)?(-[a-zA-Z0-9]+)?.  Each
   * digit run is followed by a non-digit, so greedy matching is the only
   * way to match and no backtracking is needed.
   */
  predicate SemVerShape(s: string) {
    if s != [] && s[0] == 'v' then NumbersTail(s[1..]) else NumbersTail(s)
  }

  /** re.match(r'^...$', v) of the version pattern: the $ also matches just before a final newline. */
  predicate VersionMatches(v: string) {
    SemVerShape(v) || (v != [] && v[|v| - 1] == '\n' && SemVerShape(v[..|v| - 1]))
  }

  /** validate_version_tag: empty is accepted, otherwise the shape decides, then the metacharacter check. */
  function ValidateVersionTag(version: string): (r: Verdict)
    ensures r.ok ==> r.message == []
    ensures version == [] ==> r.ok
  {
    if version == [] then Accepted
    else if !VersionMatches(version) then Verdict(false, BadVersion)
    else if AnyIn(version, VersionMetachars) then Verdict(false, DangerousVersion)
    else Accepted
  }

  /** A version tag taken apart: the optional v, the numbers and the optional label. */
  datatype Tag = Tag(v: bool, major: string, minor: string, patch: Option<string>, suffix: Option<string>)

  predicate IsNumber(d: string) {
    d != [] && forall i :: 0 <= i < |d| ==> IsAsciiDigit(d[i])
  }

  predicate IsLabel(l: Option<string>) {
    l.Some? ==> l.value != [] && AllAlnum(l.value)
  }

  predicate WellFormed(t: Tag) {
    && IsNumber(t.major) && IsNumber(t.minor)
    && (t.patch.Some? ==> IsNumber(t.patch.value))
    && IsLabel(t.suffix)
  }

  function LabelText(l: Option<string>): string {
    if l.Some? then "-" + l.value else ""
  }

  function PatchText(p: Option<string>): string {
    if p.Some? then "." + p.value else ""
  }

  /** MINOR[.PATCH][-LABEL] */
  function MinorText(minor: string, p: Option<string>, l: Option<string>): string {
    minor + (PatchText(p) + LabelText(l))
  }

  /** MAJOR.MINOR[.PATCH][-LABEL] */
  function NumbersText(t: Tag): string {
    t.major + ("." + MinorText(t.minor, t.patch, t.suffix))
  }

  /** The text of a tag: [v]MAJOR.MINOR[.PATCH][-LABEL]. */
  function Render(t: Tag): string
  {
    if t.v then "v" + NumbersText(t) else NumbersText(t)
  }

  lemma {:induction false} DigitRunOfNumber(d: string, rest: string)
    requires forall i :: 0 <= i < |d| ==> IsAsciiDigit(d[i])
    requires rest == [] || !IsAsciiDigit(rest[0])
    ensures DigitRun(d + rest) == |d|
    ensures (d + rest)[|d|..] == rest
  {
    if d != [] {
      assert (d + rest)[1..] == d[1..] + rest;
      DigitRunOfNumber(d[1..], rest);
    } else {
      assert d + rest == rest;
    }
  }

  // ---- rendering has the shape, stage by stage

  lemma LabelShape(l: Option<string>)
    requires IsLabel(l)
    ensures LabelTail(LabelText(l))
  {
    if l.Some? {
      assert ("-" + l.value)[1..] == l.value;
    }
  }

  lemma PatchShape(p: Option<string>, l: Option<string>)
    requires (p.Some? ==> IsNumber(p.value)) && IsLabel(l)
    ensures PatchTail(PatchText(p) + LabelText(l))
  {
    LabelShape(l);
    if p.Some? {
      DotNumberShape(p.value, LabelText(l));
    }
  }

  /** ".PATCH" followed by an optional label has the patch shape. */
  lemma DotNumberShape(patch: string, suffix: string)
    requires IsNumber(patch) && LabelTail(suffix)
    ensures PatchTail(PatchText(Some(patch)) + suffix)
  {
    var y := patch + suffix;
    DigitRunOfNumber(patch, suffix);
    assert DigitsLabelTail(y);
    var d := PatchText(Some(patch));
    assert d[0] == '.' && d[1..] == patch;
    assert (d + suffix)[1..] == d[1..] + suffix;
  }

  lemma MinorShape(minor: string, rest: string)
    requires IsNumber(minor) && PatchTail(rest) && (rest == [] || rest[0] in ".-")
    ensures MinorTail(minor + rest)
  {
    DigitRunOfNumber(minor, rest);
  }

  lemma NumbersShape(major: string, rest: string)
    requires IsNumber(major) && MinorTail(rest)
    ensures NumbersTail(major + ("." + rest))
  {
    DigitRunOfNumber(major, "." + rest);
    assert ("." + rest)[1..] == rest;
  }

  /** Every well-formed tag renders to text of the version shape. */
  lemma RenderHasShape(t: Tag)
    requires WellFormed(t)
    ensures SemVerShape(Render(t))
  {
    var tail := PatchText(t.patch) + LabelText(t.suffix);
    PatchShape(t.patch, t.suffix);
    assert tail == [] || tail[0] in ".-";
    MinorShape(t.minor, tail);
    NumbersShape(t.major, MinorText(t.minor, t.patch, t.suffix));
    var nums := NumbersText(t);
    assert NumbersTail(nums);
    assert nums[0] == t.major[0] && IsAsciiDigit(nums[0]);
    if t.v {
      assert ("v" + nums)[0] == 'v' && ("v" + nums)[1..] == nums;
    }
  }

  // ---- text of the shape taken apart, stage by stage

  function ParseLabel(s: string): (l: Option<string>)
    requires LabelTail(s)
    ensures IsLabel(l) && LabelText(l) == s
  {
    if s == [] then None else assert s == "-" + s[1..]; Some(s[1..])
  }

  function ParsePatch(s: string): (r: (Option<string>, Option<string>))
    requires PatchTail(s)
    ensures (r.0.Some? ==> IsNumber(r.0.value)) && IsLabel(r.1)
    ensures PatchText(r.0) + LabelText(r.1) == s
  {
    if s != [] && s[0] == '.' && DigitsLabelTail(s[1..]) then
      var d := s[1..];
      var c := DigitRun(d);
      var l := ParseLabel(d[c..]);
      assert d == d[..c] + d[c..];
      assert s == "." + d;
      assert ("." + d[..c]) + d[c..] == "." + (d[..c] + d[c..]);
      (Some(d[..c]), l)
    else
      var l := ParseLabel(s);
      assert PatchText(None) + s == s;
      (None, l)
  }

  function ParseMinor(s: string): (r: (string, Option<string>, Option<string>))
    requires MinorTail(s)
    ensures IsNumber(r.0) && (r.1.Some? ==> IsNumber(r.1.value)) && IsLabel(r.2)
    ensures MinorText(r.0, r.1, r.2) == s
  {
    var b := DigitRun(s);
    var minor, rest := s[..b], s[b..];
    assert s == minor + rest;
    assert IsNumber(minor) by {
      forall i | 0 <= i < |minor| ensures IsAsciiDigit(minor[i]) { assert minor[i] == s[i]; }
    }
    var pl := ParsePatch(rest);
    (minor, pl.0, pl.1)
  }

  function ParseNumbers(s: string): (t: Tag)
    requires NumbersTail(s)
    ensures WellFormed(t) && !t.v && NumbersText(t) == s
  {
    var a := DigitRun(s);
    var m := ParseMinor(s[a + 1..]);
    assert s[a..] == "." + s[a + 1..];
    assert s == s[..a] + s[a..];
    Tag(false, s[..a], m.0, m.1, m.2)
  }

  /** Text of the version shape taken apart into the one well-formed tag that renders it. */
  function ParseTag(s: string): (t: Tag)
    requires SemVerShape(s)
    ensures WellFormed(t) && Render(t) == s
  {
    if s != [] && s[0] == 'v' then
      var t := ParseNumbers(s[1..]);
      assert s == "v" + s[1..];
      t.(v := true)
    else
      ParseNumbers(s)
  }

  // ---- consequences

  /** Characters that can appear in text of the version shape. */
  predicate AllTagChars(s: string) {
    forall i :: 0 <= i < |s| ==> IsAsciiAlnum(s[i]) || s[i] == '.' || s[i] == '-'
  }

  lemma TagCharsConcat(x: string, y: string)
    requires AllTagChars(x) && AllTagChars(y)
    ensures AllTagChars(x + y)
  {
    forall i | 0 <= i < |x + y| ensures IsAsciiAlnum((x + y)[i]) || (x + y)[i] == '.' || (x + y)[i] == '-' {
      if i >= |x| { assert (x + y)[i] == y[i - |x|]; }
    }
  }

  lemma RenderChars(t: Tag)
    requires WellFormed(t)
    ensures AllTagChars(Render(t))
  {
    if t.patch.Some? { TagCharsConcat(".", t.patch.value); }
    if t.suffix.Some? { TagCharsConcat("-", t.suffix.value); }
    TagCharsConcat(PatchText(t.patch), LabelText(t.suffix));
    TagCharsConcat(t.minor, PatchText(t.patch) + LabelText(t.suffix));
    TagCharsConcat(".", MinorText(t.minor, t.patch, t.suffix));
    TagCharsConcat(t.major, "." + MinorText(t.minor, t.patch, t.suffix));
    if t.v { TagCharsConcat("v", NumbersText(t)); }
  }

  lemma ShapeChars(s: string)
    requires SemVerShape(s)
    ensures AllTagChars(s)
  {
    RenderChars(ParseTag(s));
  }

  /** Tag characters, possibly followed by newlines, hold no shell metacharacter. */
  lemma TagCharsNoMeta(s: string, n: nat)
    requires n <= |s| && AllTagChars(s[..n])
    requires forall i :: n <= i < |s| ==> s[i] == '\n'
    ensures !AnyIn(s, VersionMetachars)
  {
    forall i | 0 <= i < |s| ensures s[i] !in VersionMetachars {
      if i < n { assert s[i] == s[..n][i]; }
    }
  }

  /**
   * A tag of the version shape holds none of ;&|`$<>, so the metacharacter
   * rejection of validate_version_tag is never reached: the shape alone decides.
   */
  lemma DangerousVersionUnreachable(version: string)
    ensures ValidateVersionTag(version)
         == if version == [] || VersionMatches(version) then Accepted else Verdict(false, BadVersion)
  {
    if version != [] && VersionMatches(version) {
      MatchedVersionNoMeta(version);
    }
  }

  /** A tag the version pattern matches holds none of ;&|`$<>. */
  lemma MatchedVersionNoMeta(version: string)
    requires version != [] && VersionMatches(version)
    ensures !AnyIn(version, VersionMetachars)
  {
    if SemVerShape(version) {
      ShapedNoMeta(version);
    } else {
      ShapedLineNoMeta(version);
    }
  }

  /** A tag of the version shape holds no metacharacter. */
  lemma ShapedNoMeta(version: string)
    requires SemVerShape(version)
    ensures !AnyIn(version, VersionMetachars)
  {
    assert version[..|version|] == version;
    ShapeChars(version);
    TagCharsNoMeta(version, |version|);
  }

  /** A tag of the version shape followed by one newline holds no metacharacter. */
  lemma ShapedLineNoMeta(version: string)
    requires version != [] && version[|version| - 1] == '\n' && SemVerShape(version[..|version| - 1])
    ensures !AnyIn(version, VersionMetachars)
  {
    ShapeChars(version[..|version| - 1]);
    TagCharsNoMeta(version, |version| - 1);
  }

  /**
   * A non-empty tag without a trailing newline is accepted exactly when it
   * renders a well-formed tag.
   */
  lemma VersionAcceptedIff(version: string)
    requires version != [] && version[|version| - 1] != '\n'
    ensures ValidateVersionTag(version).ok <==> exists t :: WellFormed(t) && Render(t) == version
  {
    DangerousVersionUnreachable(version);
    if ValidateVersionTag(version).ok {
      var t := ParseTag(version);
    }
    if exists t :: WellFormed(t) && Render(t) == version {
      var t :| WellFormed(t) && Render(t) == version;
      RenderHasShape(t);
    }
  }

  /** The default tag "v1.0" passes. */
  lemma DefaultVersionAccepted()
    ensures ValidateVersionTag("v1.0") == Accepted
  {
    var t := Tag(true, "1", "0", None, None);
    assert Render(t) == "v1.0";
    VersionAcceptedIff("v1.0");
  }

  // ======================================================== project path

  /**
   * The file system as validate_project_path sees it: normpath, abspath
   * (None where it raises), exists and isdir.
   */
  datatype Host = Host(
    normPath: string -> string,
    absPath: string -> Option<string>,
    pathExists: string -> bool,
    isDir: string -> bool)

  const PathRequired := "Path is required"
  const BadPathFormat := "Invalid path format"
  const PathMissing := "Path does not exist"
  const NotADirectory := "Path is not a directory"
  const SystemDirectory := "Cannot use system directories: "
  const Traversal := "Path contains invalid traversal characters"
  const ProtectedDirs := ["C:\\Windows", "C:\\Program Files", "C:\\Program Files (x86)", "C:\\System32"]

  /** Index of the first protected directory the path starts with, case-insensitively; |dirs| when none. */
  function FirstProtected(abs: string, dirs: seq<string>): (j: nat)
    ensures j <= |dirs|
    ensures j < |dirs| ==> HasPrefix(Lower(abs), Lower(dirs[j]))
    ensures forall k :: 0 <= k < j ==> !HasPrefix(Lower(abs), Lower(dirs[k]))
  {
    if dirs == [] then 0
    else if HasPrefix(Lower(abs), Lower(dirs[0])) then 0
    else 1 + FirstProtected(abs, dirs[1..])
  }

  /** validate_project_path; an accepted path carries its absolute form as the message. */
  function ValidateProjectPath(host: Host, path: string): (r: Verdict)
    ensures path == [] ==> r == Verdict(false, PathRequired)
    ensures r.ok ==> host.absPath(host.normPath(path)) == Some(r.message)
    ensures r.ok ==> host.pathExists(r.message) && host.isDir(r.message)
  {
    if path == [] then Verdict(false, PathRequired)
    else match host.absPath(host.normPath(path))
      case None => Verdict(false, BadPathFormat)
      case Some(abs) =>
        if !host.pathExists(abs) then Verdict(false, PathMissing)
        else if !host.isDir(abs) then Verdict(false, NotADirectory)
        else
          var j := FirstProtected(abs, ProtectedDirs);
          if j < |ProtectedDirs| then Verdict(false, SystemDirectory + ProtectedDirs[j])
          else if HasInfix(path, "..") && HasInfix(host.normPath(abs), "..") then Verdict(false, Traversal)
          else Verdict(true, abs)
  }

  /**
   * What each outcome of validate_project_path means, in the order the
   * checks run: a missing path and a non-directory are told apart, a
   * protected directory is named in the message before any traversal test,
   * and an accepted path is its existing, unprotected absolute directory.
   */
  lemma ProjectPathVerdicts(host: Host, path: string)
    ensures path == [] ==> ValidateProjectPath(host, path) == Verdict(false, PathRequired)
    ensures path != [] ==> match host.absPath(host.normPath(path))
      case None => ValidateProjectPath(host, path) == Verdict(false, BadPathFormat)
      case Some(abs) =>
        var j := FirstProtected(abs, ProtectedDirs);
        && (!host.pathExists(abs) ==> ValidateProjectPath(host, path) == Verdict(false, PathMissing))
        && (host.pathExists(abs) && !host.isDir(abs) ==> ValidateProjectPath(host, path) == Verdict(false, NotADirectory))
        && (host.pathExists(abs) && host.isDir(abs) && j < |ProtectedDirs| ==>
              ValidateProjectPath(host, path) == Verdict(false, SystemDirectory + ProtectedDirs[j]))
        && (host.pathExists(abs) && host.isDir(abs) && j == |ProtectedDirs|
              && HasInfix(path, "..") && HasInfix(host.normPath(abs), "..") ==>
              ValidateProjectPath(host, path) == Verdict(false, Traversal))
        && (ValidateProjectPath(host, path).ok <==>
              && host.pathExists(abs) && host.isDir(abs)
              && (forall k :: 0 <= k < |ProtectedDirs| ==> !HasPrefix(Lower(abs), Lower(ProtectedDirs[k])))
              && !(HasInfix(path, "..") && HasInfix(host.normPath(abs), "..")))
        && (ValidateProjectPath(host, path).ok ==> ValidateProjectPath(host, path).message == abs)
  {
  }

  /**
   * An existing directory under "C:\Program Files (x86)" is rejected as a
   * system directory named "C:\Program Files", the first protected entry
   * it starts with.
   */
  lemma ProgramFilesX86Reported(host: Host, path: string, abs: string)
    requires path != [] && host.absPath(host.normPath(path)) == Some(abs)
    requires host.pathExists(abs) && host.isDir(abs)
    requires HasPrefix(Lower(abs), Lower("C:\\Program Files (x86)"))
    ensures ValidateProjectPath(host, path) == Verdict(false, "Cannot use system directories: C:\\Program Files")
  {
    ProgramFilesX86First(abs);
    assert SystemDirectory + ProtectedDirs[1] == "Cannot use system directories: C:\\Program Files";
  }

  /** "C:\Program Files (x86)" starts with "C:\Program Files" and not with "C:\Windows". */
  lemma ProgramFilesX86First(abs: string)
    requires HasPrefix(Lower(abs), Lower("C:\\Program Files (x86)"))
    ensures FirstProtected(abs, ProtectedDirs) == 1
  {
    var low := Lower(abs);
    var x86 := Lower("C:\\Program Files (x86)");
    var pf := Lower("C:\\Program Files");
    assert x86[..|pf|] == pf;
    assert low[..|pf|] == pf;
    assert low[3] == x86[3] == 'p';
    assert Lower("C:\\Windows")[3] == 'w';
    assert !HasPrefix(low, Lower("C:\\Windows"));
    assert HasPrefix(low, Lower(ProtectedDirs[1]));
  }
}
