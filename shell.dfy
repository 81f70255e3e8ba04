/**
 * Python's shlex.quote, and the shell's reading of a quoted command line.
 *
 * Words is a tokenizer for the part of the shell command language that
 * quoting is about: blanks separate words, a single-quoted span is taken
 * literally, a double-quoted span is taken literally except for the
 * backslash escapes of section 2.2.3 of the POSIX Shell Command Language
 * (IEEE Std 1003.1), and an unquoted backslash escapes the next character.
 * Any unquoted character that would start an operator, an expansion, a
 * pattern, a comment or a tilde prefix makes Words give None: the
 * tokenizer claims nothing about text that uses those features.
 */
module Shell {
  import opened Text

  // ---------------------------------------------------------------- quoting

  /** The characters shlex.quote leaves unquoted: ASCII word characters and @%+=:,./- */
  predicate IsSafe(c: char) {
    IsAsciiAlnum(c) || c in {'_', '@', '%', '+', '=', ':', ',', '.', '/', '-'}
  }

  predicate AllSafe(s: string) {
    forall i :: 0 <= i < |s| ==> IsSafe(s[i])
  }

  /** s with every ' replaced by '"'"' (close the quote, a double-quoted ', reopen). */
  function Escape(s: string): string
  {
    if s == [] then []
    else (if s[0] == '\'' then "'\"'\"'" else [s[0]]) + Escape(s[1..])
  }

  /**
   * Python's shlex.quote: a non-empty value of safe characters is left as
   * it is, anything else is wrapped in single quotes.  What the shell makes
   * of the result is stated by QuoteRoundTrip.
   */
  function Quote(s: string): (r: string)
    ensures s != [] && AllSafe(s) ==> r == s
    ensures s == [] || !AllSafe(s) ==> |r| >= 2 && r[0] == '\'' && r[|r| - 1] == '\''
  {
    if s == [] then "''"
    else if AllSafe(s) then s
    else "'" + Escape(s) + "'"
  }

  // ------------------------------------------------------ reading the words

  /**
   * Where the scanner stands: between words, inside an unquoted part of a
   * word, right after an unquoted backslash, inside single quotes, inside
   * double quotes, or right after a backslash inside double quotes.
   */
  datatype Mode = Between | Bare | BareEscape | Single | Double | DoubleEscape

  predicate IsBlank(c: char) { c == ' ' || c == '\t' }

  /** Unquoted characters with a meaning beyond the quoting rules (section 2.2 of POSIX). */
  predicate IsSpecial(c: char) {
    c in {'|', '&', ';', '<', '>', '(', ')', '$', '`', '*', '?', '[', ']', '#', '~', '{', '}', '!', '\n'}
  }

  /** The characters a backslash escapes inside double quotes (section 2.2.3). */
  predicate IsDoubleEscapable(c: char) {
    c in {'$', '`', '"', '\\'}
  }

  /**
   * Scans s in the given mode; words are the finished words and cur the
   * text of the word in progress.  None: unterminated quoting or a feature
   * this tokenizer does not model.
   */
  function Scan(s: string, mode: Mode, words: seq<string>, cur: string): Option<seq<string>>
    decreases |s|
  {
    if s == [] then
      (if mode == Between then Some(words)
       else if mode == Bare then Some(words + [cur])
       else None)
    else
      var c, t := s[0], s[1..];
      if mode == Between || mode == Bare then
        if IsBlank(c) then Scan(t, Between, if mode == Bare then words + [cur] else words, [])
        else if c == '\'' then Scan(t, Single, words, cur)
        else if c == '"' then Scan(t, Double, words, cur)
        else if c == '\\' then Scan(t, BareEscape, words, cur)
        else if IsSpecial(c) then None
        else Scan(t, Bare, words, cur + [c])
      else if mode == BareEscape then
        if c == '\n' then None else Scan(t, Bare, words, cur + [c])
      else if mode == Single then
        if c == '\'' then Scan(t, Bare, words, cur) else Scan(t, Single, words, cur + [c])
      else if mode == Double then
        if c == '"' then Scan(t, Bare, words, cur)
        else if c == '\\' then Scan(t, DoubleEscape, words, cur)
        else if c == '$' || c == '`' then None
        else Scan(t, Double, words, cur + [c])
      else
        if IsDoubleEscapable(c) then Scan(t, Double, words, cur + [c])
        else if c == '\n' then Scan(t, Double, words, cur)
        else Scan(t, Double, words, cur + ['\\', c])
  }

  /** The words a shell reads from a command line, after quote removal. */
  function Words(line: string): Option<seq<string>>
  {
    Scan(line, Between, [], [])
  }

  // ------------------------------------------------------- one character

  // Each lemma below reads one character in one mode.

  /** An unquoted safe character extends the current word. */
  lemma ReadSafe(c: char, t: string, mode: Mode, words: seq<string>, cur: string)
    requires mode == Between || mode == Bare
    requires IsSafe(c)
    ensures Scan([c] + t, mode, words, cur) == Scan(t, Bare, words, cur + [c])
  {
    assert ([c] + t)[0] == c && ([c] + t)[1..] == t;
    assert !IsBlank(c) && !IsSpecial(c) && c != '\'' && c != '"' && c != '\\';
  }

  /** An unquoted blank ends the word in progress. */
  lemma ReadBlank(t: string, words: seq<string>, cur: string)
    ensures Scan([' '] + t, Bare, words, cur) == Scan(t, Between, words + [cur], [])
  {
    assert ([' '] + t)[0] == ' ' && ([' '] + t)[1..] == t;
  }

  /** An unquoted ' opens single quotes. */
  lemma OpenSingle(t: string, mode: Mode, words: seq<string>, cur: string)
    requires mode == Between || mode == Bare
    ensures Scan(['\''] + t, mode, words, cur) == Scan(t, Single, words, cur)
  {
    assert (['\''] + t)[0] == '\'' && (['\''] + t)[1..] == t;
  }

  /** Inside single quotes, ' closes them. */
  lemma CloseSingle(t: string, words: seq<string>, cur: string)
    ensures Scan(['\''] + t, Single, words, cur) == Scan(t, Bare, words, cur)
  {
    assert (['\''] + t)[0] == '\'' && (['\''] + t)[1..] == t;
  }

  /** Inside single quotes, any other character is taken literally. */
  lemma ReadSingle(c: char, t: string, words: seq<string>, cur: string)
    requires c != '\''
    ensures Scan([c] + t, Single, words, cur) == Scan(t, Single, words, cur + [c])
  {
    assert ([c] + t)[0] == c && ([c] + t)[1..] == t;
  }

  /** An unquoted " opens double quotes. */
  lemma OpenDouble(t: string, words: seq<string>, cur: string)
    ensures Scan(['"'] + t, Bare, words, cur) == Scan(t, Double, words, cur)
  {
    assert (['"'] + t)[0] == '"' && (['"'] + t)[1..] == t;
  }

  /** Inside double quotes, a ' is taken literally. */
  lemma ReadQuoteInDouble(t: string, words: seq<string>, cur: string)
    ensures Scan(['\''] + t, Double, words, cur) == Scan(t, Double, words, cur + ['\''])
  {
    assert (['\''] + t)[0] == '\'' && (['\''] + t)[1..] == t;
  }

  /** Inside double quotes, " closes them. */
  lemma CloseDouble(t: string, words: seq<string>, cur: string)
    ensures Scan(['"'] + t, Double, words, cur) == Scan(t, Bare, words, cur)
  {
    assert (['"'] + t)[0] == '"' && (['"'] + t)[1..] == t;
  }

  // ------------------------------------------------------------ round trip

  /** Unquoted safe characters extend the current word. */
  lemma {:induction false} ScanSafe(s: string, rest: string, mode: Mode, words: seq<string>, cur: string)
    requires mode == Between || mode == Bare
    requires s != [] && AllSafe(s)
    ensures Scan(s + rest, mode, words, cur) == Scan(rest, Bare, words, cur + s)
  {
    assert s + rest == [s[0]] + (s[1..] + rest);
    ReadSafe(s[0], s[1..] + rest, mode, words, cur);
    if |s| == 1 {
      assert s[1..] + rest == rest;
      assert cur + [s[0]] == cur + s;
    } else {
      ScanSafe(s[1..], rest, Bare, words, cur + [s[0]]);
      assert cur + [s[0]] + s[1..] == cur + s;
    }
  }

  /** Inside single quotes, '"'"' reads as one literal ' and leaves the scanner inside single quotes again. */
  lemma ScanQuoteOfQuote(tail: string, words: seq<string>, cur: string)
    ensures Scan("'\"'\"'" + tail, Single, words, cur) == Scan(tail, Single, words, cur + ['\''])
  {
    var s4 := ['\''] + tail;
    var s3 := ['"'] + s4;
    var s2 := ['\''] + s3;
    var s1 := ['"'] + s2;
    assert "'\"'\"'" + tail == ['\''] + s1;
    CloseSingle(s1, words, cur);
    OpenDouble(s2, words, cur);
    ReadQuoteInDouble(s3, words, cur);
    CloseDouble(s4, words, cur + ['\'']);
    OpenSingle(tail, Bare, words, cur + ['\'']);
  }

  /** Inside single quotes, an escaped text followed by the closing quote yields the original text. */
  lemma {:induction false} ScanEscaped(s: string, rest: string, words: seq<string>, cur: string)
    ensures Scan(Escape(s) + "'" + rest, Single, words, cur) == Scan(rest, Bare, words, cur + s)
  {
    if s == [] {
      assert Escape(s) + "'" + rest == ['\''] + rest;
      CloseSingle(rest, words, cur);
      assert cur + s == cur;
    } else {
      var tail := Escape(s[1..]) + "'" + rest;
      ScanEscaped(s[1..], rest, words, cur + [s[0]]);
      if s[0] == '\'' {
        assert Escape(s) + "'" + rest == "'\"'\"'" + tail;
        ScanQuoteOfQuote(tail, words, cur);
      } else {
        assert Escape(s) + "'" + rest == [s[0]] + tail;
        ReadSingle(s[0], tail, words, cur);
      }
      assert cur + [s[0]] + s[1..] == cur + s;
    }
  }

  /** A quoted value read from the start of a word is exactly that value. */
  lemma {:induction false} ScanQuoted(s: string, rest: string, words: seq<string>)
    ensures Scan(Quote(s) + rest, Between, words, []) == Scan(rest, Bare, words, s)
  {
    if s == [] {
      assert Quote(s) + rest == ['\''] + (['\''] + rest);
      OpenSingle(['\''] + rest, Between, words, []);
      CloseSingle(rest, words, []);
    } else if AllSafe(s) {
      ScanSafe(s, rest, Between, words, []);
      assert [] + s == s;
    } else {
      var inner := Escape(s) + "'" + rest;
      assert Quote(s) + rest == ['\''] + inner;
      OpenSingle(inner, Between, words, []);
      ScanEscaped(s, rest, words, []);
      assert [] + s == s;
    }
  }

  /** shlex.quote round-trips: the shell reads a quoted value back as exactly one word, the value itself. */
  lemma QuoteRoundTrip(s: string)
    ensures Words(Quote(s)) == Some([s])
  {
    ScanQuoted(s, [], []);
    assert Quote(s) + [] == Quote(s);
    assert [] + [s] == [s];
  }

  /** Quoted values joined by single spaces, as an f-string of quoted arguments builds them. */
  function QuoteAll(args: seq<string>): string
    decreases |args|
  {
    if |args| == 0 then []
    else if |args| == 1 then Quote(args[0])
    else Quote(args[0]) + ([' '] + QuoteAll(args[1..]))
  }

  /** Each value quoted and joined is read back as one word per value, in order. */
  lemma {:induction false} QuoteAllWords(args: seq<string>, words: seq<string>)
    requires args != []
    ensures Scan(QuoteAll(args), Between, words, []) == Some(words + args)
    decreases |args|
  {
    if |args| == 1 {
      ScanQuoted(args[0], [], words);
      assert Quote(args[0]) + [] == QuoteAll(args);
      assert words + [args[0]] == words + args;
    } else {
      var tail := QuoteAll(args[1..]);
      ScanQuoted(args[0], [' '] + tail, words);
      ReadBlank(tail, words, args[0]);
      QuoteAllWords(args[1..], words + [args[0]]);
      assert words + [args[0]] + args[1..] == words + args;
    }
  }

  /**
   * The shell command line push_to_git hands to bash -c: the word bash, then
   * the quoted script path and the five quoted values, separated by spaces.
   */
  function PushCommand(script: string, project: string, version: string, repo: string, branch: string, commit: string): string
  {
    "bash" + ([' '] + QuoteAll([script, project, version, repo, branch, commit]))
  }

  /**
   * The push command is read as bash, the script path and the five values
   * in the order project, version, repository, branch, commit, each as one
   * word whatever characters it holds.
   */
  lemma PushCommandWords(script: string, project: string, version: string, repo: string, branch: string, commit: string)
    ensures Words(PushCommand(script, project, version, repo, branch, commit))
         == Some(["bash", script, project, version, repo, branch, commit])
  {
    var args := [script, project, version, repo, branch, commit];
    var all := QuoteAll(args);
    var noWords: seq<string> := [];
    ScanSafe("bash", [' '] + all, Between, noWords, []);
    assert [] + "bash" == "bash";
    ReadBlank(all, noWords, "bash");
    assert noWords + ["bash"] == ["bash"];
    QuoteAllWords(args, ["bash"]);
    assert ["bash"] + args == ["bash", script, project, version, repo, branch, commit];
  }

  /** The probe command verify_git_auth hands to bash -c; its repository operand is quoted the same way. */
  function ProbeCommand(repo: string): string
  {
    "git ls-remote --heads " + Quote(repo) + " 2>&1"
  }
}
