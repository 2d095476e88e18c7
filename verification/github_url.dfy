/**
  The repository-URL guard of the form: the anchored pattern

      (https?://)?(www.)?github.com/OWNER/REPO(/)?

  with OWNER over [a-zA-Z0-9-] and REPO over [a-zA-Z0-9_.-], both non-empty,
  matched case-sensitively against the whole input.

  The pattern's language is described by `Render` over well-formed `RepoUrl`
  values; the recognizer is the hand-written parser `Parse`, and
  `IsValidGitHubUrl` accepts exactly what `Parse` can read. The pattern is
  deterministic: the optional scheme, the optional `www.` and the host start
  with different letters, and neither segment class contains `/`, so at most
  one way of reading a string exists (`ParseRender`, `RenderInjective`).
*/
module GitHubUrl {
  import opened Wrappers

  // ---------------------------------------------------------------------------
  // Character classes and segments
  // ---------------------------------------------------------------------------

  /** [a-zA-Z0-9-] */
  predicate IsOwnerChar(c: char) {
    ('a' <= c <= 'z') || ('A' <= c <= 'Z') || ('0' <= c <= '9') || c == '-'
  }

  /** [a-zA-Z0-9_.-] */
  predicate IsRepoChar(c: char) {
    IsOwnerChar(c) || c == '_' || c == '.'
  }

  /** One or more owner characters. */
  predicate IsOwner(s: string) {
    |s| > 0 && forall i :: 0 <= i < |s| ==> IsOwnerChar(s[i])
  }

  /** One or more repository-name characters. */
  predicate IsRepo(s: string) {
    |s| > 0 && forall i :: 0 <= i < |s| ==> IsRepoChar(s[i])
  }

  // ---------------------------------------------------------------------------
  // The language of the pattern
  // ---------------------------------------------------------------------------

  /** The optional group `(https?://)?`. */
  datatype Scheme = NoScheme | Http | Https

  function SchemeText(sc: Scheme): string {
    match sc
    case NoScheme => ""
    case Http => "http://"
    case Https => "https://"
  }

  /** The optional group `(www\.)?`. */
  function WwwText(www: bool): string {
    if www then "www." else ""
  }

  /** The literal `github\.com\/`. */
  const Host: string := "github.com/"

  /** Everything in front of the owner segment. */
  function Authority(sc: Scheme, www: bool): string {
    SchemeText(sc) + WwwText(www) + Host
  }

  /** One way of filling in the pattern's groups. */
  datatype RepoUrl = RepoUrl(scheme: Scheme, www: bool, owner: string, repo: string, trailingSlash: bool)
  {
    /** The segments satisfy their `+` character classes. */
    predicate Valid() {
      IsOwner(owner) && IsRepo(repo)
    }
  }

  /** The part after the host: `OWNER/REPO`, then the optional `/`. */
  function PathText(owner: string, repo: string, trailingSlash: bool): string {
    owner + "/" + repo + (if trailingSlash then "/" else "")
  }

  /** The string the pattern matches for the given choice of groups. */
  function Render(u: RepoUrl): string {
    Authority(u.scheme, u.www) + PathText(u.owner, u.repo, u.trailingSlash)
  }

  /** The whole input is in the language of the anchored pattern. */
  ghost predicate MatchesPattern(url: string) {
    exists u: RepoUrl :: u.Valid() && Render(u) == url
  }

  // ---------------------------------------------------------------------------
  // The recognizer
  // ---------------------------------------------------------------------------

  predicate HasPrefix(s: string, p: string) {
    |p| <= |s| && s[..|p|] == p
  }

  /** Reads the optional scheme off the front of `s`. */
  function SplitScheme(s: string): (r: (Scheme, string))
    ensures SchemeText(r.0) + r.1 == s
  {
    if HasPrefix(s, "https://") then (Https, s[8..])
    else if HasPrefix(s, "http://") then (Http, s[7..])
    else (NoScheme, s)
  }

  /** Reads the optional `www.` off the front of `s`. */
  function SplitWww(s: string): (r: (bool, string))
    ensures WwwText(r.0) + r.1 == s
  {
    if HasPrefix(s, "www.") then (true, s[4..]) else (false, s)
  }

  /** Index of the first `/` in `s`, or `|s|` when there is none. */
  function FirstSlash(s: string): (k: nat)
    ensures k <= |s|
    ensures forall i :: 0 <= i < k ==> s[i] != '/'
    ensures k < |s| ==> s[k] == '/'
  {
    if s == [] then 0
    else if s[0] == '/' then 0
    else 1 + FirstSlash(s[1..])
  }

  /** Reads the optional `/` off the end of `s`. */
  function SplitTrailingSlash(s: string): (r: (string, bool))
    ensures r.0 + (if r.1 then "/" else "") == s
  {
    if |s| > 0 && s[|s| - 1] == '/' then (s[..|s| - 1], true) else (s, false)
  }

  /** Reads the text after the host as `OWNER/REPO(/)?`, if it is one. */
  function ParsePath(path: string): (r: Option<(string, string, bool)>)
    ensures r.Some? ==> IsOwner(r.value.0) && IsRepo(r.value.1)
    ensures r.Some? ==> PathText(r.value.0, r.value.1, r.value.2) == path
  {
    var k := FirstSlash(path);
    if k == |path| then None
    else
      var owner := path[..k];
      var (repo, slash) := SplitTrailingSlash(path[k + 1..]);
      if IsOwner(owner) && IsRepo(repo) then
        assert path == owner + "/" + path[k + 1..];
        Some((owner, repo, slash))
      else None
  }

  /** Reads the host and the path that follow an already-read scheme and `www.`. */
  function ParseFromHost(sc: Scheme, www: bool, rest: string): (r: Option<RepoUrl>)
    ensures r.Some? ==> r.value.Valid()
    ensures r.Some? ==> Render(r.value) == SchemeText(sc) + (WwwText(www) + rest)
  {
    if !HasPrefix(rest, Host) then None
    else
      var path := rest[|Host|..];
      assert rest == Host + path;
      match ParsePath(path)
      case None => None
      case Some((owner, repo, slash)) => Some(RepoUrl(sc, www, owner, repo, slash))
  }

  /** Reads `url` as a filling of the pattern's groups, if it is one. */
  function Parse(url: string): (r: Option<RepoUrl>)
    ensures r.Some? ==> r.value.Valid()
    ensures r.Some? ==> Render(r.value) == url
  {
    var scheme := SplitScheme(url);
    var www := SplitWww(scheme.1);
    ParseFromHost(scheme.0, www.0, www.1)
  }

  /** `isValidGitHubUrl`: the pattern's `test` on the whole string. */
  function IsValidGitHubUrl(url: string): (ok: bool)
    ensures ok ==> MatchesPattern(url)
  {
    Parse(url).Some?
  }

  // ---------------------------------------------------------------------------
  // The recognizer decides the pattern
  // ---------------------------------------------------------------------------

  /** A scheme in front of `x` is read back exactly, provided that, when
      there is none, `x` does not itself begin with one. */
  lemma SchemeRead(sc: Scheme, x: string)
    requires sc == NoScheme ==> !HasPrefix(x, "http://") && !HasPrefix(x, "https://")
    ensures SplitScheme(SchemeText(sc) + x) == (sc, x)
  {
    var s := SchemeText(sc) + x;
    match sc
    case NoScheme =>
      assert s == x;
    case Http =>
      assert s[4] == ':';
      assert !HasPrefix(s, "https://");
      assert s[..7] == "http://" && s[7..] == x;
    case Https =>
      assert s[..8] == "https://" && s[8..] == x;
  }

  /** An optional `www.` in front of `rest` is read back exactly, provided
      that, when there is none, `rest` does not itself begin with one. */
  lemma WwwRead(www: bool, rest: string)
    requires !www ==> !HasPrefix(rest, "www.")
    ensures SplitWww(WwwText(www) + rest) == (www, rest)
  {
    var s := WwwText(www) + rest;
    if www {
      assert s[..4] == "www." && s[4..] == rest;
    } else {
      assert s == rest;
    }
  }

  /** Text starting with `w` begins with no scheme. */
  lemma NoSchemeBeforeW(x: string)
    requires |x| > 0 && x[0] == 'w'
    ensures !HasPrefix(x, "http://") && !HasPrefix(x, "https://")
  {
    if |x| >= 7 { assert x[..7][0] == 'w'; }
    if |x| >= 8 { assert x[..8][0] == 'w'; }
  }

  /** Text starting with neither `h` nor `w` begins with no scheme and no `www.`. */
  lemma NoPrefixBeforeOther(x: string)
    requires |x| > 0 && x[0] != 'h' && x[0] != 'w'
    ensures !HasPrefix(x, "http://") && !HasPrefix(x, "https://") && !HasPrefix(x, "www.")
  {
    if |x| >= 4 { assert x[..4][0] == x[0]; }
    if |x| >= 7 { assert x[..7][0] == x[0]; }
    if |x| >= 8 { assert x[..8][0] == x[0]; }
  }

  /** A scheme and `www.` in front of `rest` are read back exactly, provided
      that `rest` does not begin with a `www.` or a scheme the splitters
      would take for the missing groups. */
  lemma SplitAuthority(sc: Scheme, www: bool, rest: string)
    requires !www ==> !HasPrefix(rest, "www.")
    requires sc == NoScheme && !www ==> !HasPrefix(rest, "http://") && !HasPrefix(rest, "https://")
    ensures SplitScheme(SchemeText(sc) + WwwText(www) + rest) == (sc, WwwText(www) + rest)
    ensures SplitWww(WwwText(www) + rest) == (www, rest)
  {
    var afterScheme := WwwText(www) + rest;
    WwwRead(www, rest);
    if www {
      assert afterScheme[0] == 'w';
      NoSchemeBeforeW(afterScheme);
    } else {
      assert afterScheme == rest;
    }
    SchemeRead(sc, afterScheme);
    assert SchemeText(sc) + WwwText(www) + rest == SchemeText(sc) + afterScheme;
  }

  /** When the scheme and `www.` are read back as given, parsing continues
      at the host with them. */
  lemma ParseAfterPrefixes(sc: Scheme, www: bool, rest: string)
    requires !www ==> !HasPrefix(rest, "www.")
    requires sc == NoScheme && !www ==> !HasPrefix(rest, "http://") && !HasPrefix(rest, "https://")
    ensures Parse(SchemeText(sc) + WwwText(www) + rest) == ParseFromHost(sc, www, rest)
  {
    SplitAuthority(sc, www, rest);
  }

  /** Once the scheme and `www.` are read, the host decides whether the path is parsed. */
  lemma ParseFromHostPath(sc: Scheme, www: bool, path: string)
    ensures ParseFromHost(sc, www, Host + path) ==
      match ParsePath(path)
      case None => None
      case Some(t) => Some(RepoUrl(sc, www, t.0, t.1, t.2))
  {
    var rest := Host + path;
    assert HasPrefix(rest, Host) && rest[|Host|..] == path;
  }

  /** With the authority fixed, acceptance depends on the path alone. */
  lemma ParseAfterAuthority(sc: Scheme, www: bool, path: string)
    ensures Parse(Authority(sc, www) + path) ==
      match ParsePath(path)
      case None => None
      case Some(t) => Some(RepoUrl(sc, www, t.0, t.1, t.2))
  {
    var rest := Host + path;
    AuthorityThenPath(sc, www, path);
    NoPrefixBeforeOther(rest);
    ParseAfterPrefixes(sc, www, rest);
    ParseFromHostPath(sc, www, path);
  }

  /** The authority followed by a path is the scheme, the `www.`, then the host and the path. */
  lemma AuthorityThenPath(sc: Scheme, www: bool, path: string)
    ensures Authority(sc, www) + path == SchemeText(sc) + WwwText(www) + (Host + path)
  {
  }

  /** The first `/` of `a + "/" + b`, when `a` has none, follows `a`. */
  lemma FirstSlashAfter(a: string, b: string)
    requires '/' !in a
    ensures FirstSlash(a + "/" + b) == |a|
  {
    var s := a + "/" + b;
    assert s[|a|] == '/';
  }

  /** `ParsePath` reads back a rendered path whose segments contain no `/`,
      exactly when the segments satisfy their character classes. */
  lemma ParsePathText(owner: string, repo: string, slash: bool)
    requires '/' !in owner && '/' !in repo
    ensures ParsePath(PathText(owner, repo, slash)) ==
      if IsOwner(owner) && IsRepo(repo) then Some((owner, repo, slash)) else None
  {
    var path := PathText(owner, repo, slash);
    var tail := repo + (if slash then "/" else "");
    assert path == owner + "/" + tail;
    FirstSlashAfter(owner, tail);
    assert path[..|owner|] == owner && path[|owner| + 1..] == tail;
    if slash {
      assert tail[|tail| - 1] == '/' && tail[..|tail| - 1] == repo;
    } else if |repo| > 0 {
      assert tail == repo && repo[|repo| - 1] in repo;
    }
  }

  /** A filling whose segments contain no `/` is accepted exactly when the
      owner is over [a-zA-Z0-9-] and the repository name over [a-zA-Z0-9_.-]
      (both non-empty), and is then read back as itself. */
  lemma ParseRenderShape(u: RepoUrl)
    requires '/' !in u.owner && '/' !in u.repo
    ensures Parse(Render(u)) == if u.Valid() then Some(u) else None
  {
    ParseAfterAuthority(u.scheme, u.www, PathText(u.owner, u.repo, u.trailingSlash));
    ParsePathText(u.owner, u.repo, u.trailingSlash);
  }

  /** Parsing a rendered well-formed filling gives it back. */
  lemma ParseRender(u: RepoUrl)
    requires u.Valid()
    ensures Parse(Render(u)) == Some(u)
  {
    ParseRenderShape(u);
  }

  /** The recognizer accepts exactly the language of the anchored pattern. */
  lemma ValidIffMatchesPattern(url: string)
    ensures IsValidGitHubUrl(url) <==> MatchesPattern(url)
  {
    if MatchesPattern(url) {
      var u: RepoUrl :| u.Valid() && Render(u) == url;
      ParseRender(u);
    }
  }

  /** The pattern is unambiguous: a matching string fixes every group. */
  lemma RenderInjective(u: RepoUrl, v: RepoUrl)
    requires u.Valid() && v.Valid()
    ensures Render(u) == Render(v) ==> u == v
  {
    ParseRender(u);
    ParseRender(v);
  }

  // ---------------------------------------------------------------------------
  // Consequences: what the guard rejects
  // ---------------------------------------------------------------------------

  /** The shortest accepted input is `github.com/a/b`. */
  lemma MinimumLength(url: string)
    ensures IsValidGitHubUrl(url) ==> |url| >= |Host| + 3
  {
    if IsValidGitHubUrl(url) {
      var u := Parse(url).value;
      assert |Authority(u.scheme, u.www)| >= |Host|;
      assert |PathText(u.owner, u.repo, u.trailingSlash)| >= 3;
    }
  }

  /** The empty string is rejected, so the form's separate emptiness test
      adds nothing to the pattern test. */
  lemma EmptyGuardSubsumed(url: string)
    ensures !IsValidGitHubUrl("")
    ensures (url == "" || !IsValidGitHubUrl(url)) <==> !IsValidGitHubUrl(url)
  {
    MinimumLength("");
    MinimumLength(url);
  }

  /** A rendered well-formed filling ends in a repository-name character or in `/`. */
  lemma RenderLastCharacter(u: RepoUrl)
    requires u.Valid()
    ensures var url := Render(u); url[|url| - 1] == '/' || IsRepoChar(url[|url| - 1])
  {
    var url := Render(u);
    var tail := u.repo + (if u.trailingSlash then "/" else "");
    assert url == Authority(u.scheme, u.www) + u.owner + "/" + tail;
    assert url[|url| - 1] == tail[|tail| - 1];
    if !u.trailingSlash {
      assert tail[|tail| - 1] == u.repo[|u.repo| - 1];
    }
  }

  /** The characters at which JavaScript's `$` matches without the
      multi-line flag only at the very end: line feed, carriage return, line
      separator and paragraph separator. */
  predicate IsLineTerminator(c: char) {
    c == '\n' || c == '\r' || c == '\U{2028}' || c == '\U{2029}'
  }

  /** Neither `/` nor a line terminator belongs to a segment character class. */
  lemma SeparatorsInNoClass(c: char)
    requires c == '/' || IsLineTerminator(c)
    ensures !IsRepoChar(c)
  {}

  /** `$` without the multi-line flag: an input ending in a line terminator is rejected. */
  lemma TrailingLineTerminatorRejected(url: string)
    requires |url| > 0 && IsLineTerminator(url[|url| - 1])
    ensures !IsValidGitHubUrl(url)
  {
    if IsValidGitHubUrl(url) {
      var u := Parse(url).value;
      RenderLastCharacter(u);
      SeparatorsInNoClass(url[|url| - 1]);
    }
  }

  /** Whatever the scheme and `www.`, text that does not begin with the exact
      lower-case host `github.com/` is rejected: another host, a look-alike
      host, an upper-case host, or an upper-case scheme read as no scheme at
      all. The only texts set aside are those the recognizer would read
      differently: a `www.` where none was given, or a scheme where neither a
      scheme nor `www.` was given. */
  lemma OtherHostRejected(sc: Scheme, www: bool, rest: string)
    requires !HasPrefix(rest, Host)
    requires !www ==> !HasPrefix(rest, "www.")
    requires sc == NoScheme && !www ==> !HasPrefix(rest, "http://") && !HasPrefix(rest, "https://")
    ensures !IsValidGitHubUrl(SchemeText(sc) + WwwText(www) + rest)
  {
    ParseAfterPrefixes(sc, www, rest);
  }

  /** Text without `/` has its first `/` at the end. */
  lemma FirstSlashNone(s: string)
    requires '/' !in s
    ensures FirstSlash(s) == |s|
  {
  }

  /** A path of one segment, with or without a trailing `/`, does not parse. */
  lemma ParsePathSingleSegment(owner: string)
    requires '/' !in owner
    ensures ParsePath(owner) == None
    ensures ParsePath(owner + "/") == None
  {
    FirstSlashNone(owner);
    assert owner + "/" == owner + "/" + "";
    FirstSlashAfter(owner, "");
    assert (owner + "/")[|owner| + 1..] == "";
  }

  /** A path that does not parse is rejected behind any authority. */
  lemma PathRejected(sc: Scheme, www: bool, path: string)
    requires ParsePath(path) == None
    ensures !IsValidGitHubUrl(Authority(sc, www) + path)
  {
    ParseAfterAuthority(sc, www, path);
  }

  /** A single path segment, with or without a trailing `/`, is rejected. */
  lemma SingleSegmentRejected(sc: Scheme, www: bool, owner: string)
    requires '/' !in owner
    ensures !IsValidGitHubUrl(Authority(sc, www) + owner)
    ensures !IsValidGitHubUrl(Authority(sc, www) + owner + "/")
  {
    ParsePathSingleSegment(owner);
    PathRejected(sc, www, owner);
    PathRejected(sc, www, owner + "/");
    assert Authority(sc, www) + owner + "/" == Authority(sc, www) + (owner + "/");
  }

  /** A path with text after `OWNER/REPO/` does not parse. */
  lemma ParsePathExtraSegment(owner: string, repo: string, extra: string)
    requires '/' !in owner && '/' !in repo
    requires |extra| > 0
    ensures ParsePath(owner + "/" + (repo + "/" + extra)) == None
  {
    var tail := repo + "/" + extra;
    var path := owner + "/" + tail;
    FirstSlashAfter(owner, tail);
    assert path[|owner| + 1..] == tail;
    var split := SplitTrailingSlash(tail);
    assert |split.0| > |repo| && split.0[|repo|] == '/';
    SeparatorsInNoClass('/');
  }

  /** Anything after `OWNER/REPO/` is rejected: a third segment, or a second
      trailing `/`. */
  lemma ExtraSegmentRejected(sc: Scheme, www: bool, owner: string, repo: string, extra: string)
    requires '/' !in owner && '/' !in repo
    requires |extra| > 0
    ensures !IsValidGitHubUrl(Authority(sc, www) + owner + "/" + repo + "/" + extra)
  {
    var url := Authority(sc, www) + owner + "/" + repo + "/" + extra;
    var path := owner + "/" + (repo + "/" + extra);
    assert url == Authority(sc, www) + path;
    ParsePathExtraSegment(owner, repo, extra);
    PathRejected(sc, www, path);
  }

  /** The owner and repository-name character classes differ: `_` and `.`
      are allowed in the repository name only. */
  lemma SegmentCharacterClasses(sc: Scheme, www: bool, owner: string, repo: string, slash: bool)
    requires '/' !in owner && '/' !in repo
    ensures IsValidGitHubUrl(Render(RepoUrl(sc, www, owner, repo, slash))) <==> IsOwner(owner) && IsRepo(repo)
  {
    ParseRenderShape(RepoUrl(sc, www, owner, repo, slash));
  }
}
