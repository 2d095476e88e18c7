/**
  Representative inputs for the repository-URL guard, each derived from the
  general lemmas of `GitHubUrl`.
*/
module GitHubUrlExamples {
  import opened GitHubUrl

  lemma AcceptsHttpsUrl()
    ensures IsValidGitHubUrl("https://github.com/a/b")
  {
    var u := RepoUrl(Https, false, "a", "b", false);
    assert Render(u) == "https://github.com/a/b";
    ParseRender(u);
  }

  lemma AcceptsTrailingSlash()
    ensures IsValidGitHubUrl("github.com/a/b/")
  {
    var u := RepoUrl(NoScheme, false, "a", "b", true);
    assert Render(u) == "github.com/a/b/";
    ParseRender(u);
  }

  /** `-` in the owner; `_` and `.` in the repository name. */
  lemma AcceptsWwwAndPunctuation()
    ensures IsValidGitHubUrl("www.github.com/a-b/c_d.e")
  {
    var u := RepoUrl(NoScheme, true, "a-b", "c_d.e", false);
    assert Render(u) == "www.github.com/a-b/c_d.e";
    ParseRender(u);
  }

  lemma RejectsOtherHost()
    ensures !IsValidGitHubUrl("https://gitlab.com/a/b")
  {
    assert "https://gitlab.com/a/b" == SchemeText(Https) + WwwText(false) + "gitlab.com/a/b";
    assert "gitlab.com/a/b"[..|Host|][3] == 'l' && Host[3] == 'h';
    NoPrefixBeforeOther("gitlab.com/a/b");
    OtherHostRejected(Https, false, "gitlab.com/a/b");
  }

  /** A host that differs from `github.com` only in its first letter. */
  lemma RejectsLookalikeHost()
    ensures !IsValidGitHubUrl("https://hithub.com/a/b")
  {
    assert "https://hithub.com/a/b" == SchemeText(Https) + WwwText(false) + "hithub.com/a/b";
    assert "hithub.com/a/b"[..4][0] == 'h';
    assert "hithub.com/a/b"[..|Host|][0] == 'h' && Host[0] == 'g';
    OtherHostRejected(Https, false, "hithub.com/a/b");
  }

  /** A carriage return at the end is refused like a line feed. */
  lemma RejectsTrailingCarriageReturn()
    ensures !IsValidGitHubUrl("github.com/a/b\r")
  {
    TrailingLineTerminatorRejected("github.com/a/b\r");
  }

  lemma RejectsUpperCaseScheme()
    ensures !IsValidGitHubUrl("HTTPS://github.com/a/b")
  {
    assert "HTTPS://github.com/a/b" == SchemeText(NoScheme) + WwwText(false) + "HTTPS://github.com/a/b";
    assert "HTTPS://github.com/a/b"[..|Host|][0] == 'H' && Host[0] == 'g';
    NoPrefixBeforeOther("HTTPS://github.com/a/b");
    OtherHostRejected(NoScheme, false, "HTTPS://github.com/a/b");
  }

  lemma RejectsUpperCaseHost()
    ensures !IsValidGitHubUrl("https://GitHub.com/a/b")
  {
    assert "https://GitHub.com/a/b" == SchemeText(Https) + WwwText(false) + "GitHub.com/a/b";
    assert "GitHub.com/a/b"[..|Host|][0] == 'G' && Host[0] == 'g';
    NoPrefixBeforeOther("GitHub.com/a/b");
    OtherHostRejected(Https, false, "GitHub.com/a/b");
  }

  lemma RejectsOneSegment()
    ensures !IsValidGitHubUrl("github.com/a")
  {
    assert "github.com/a" == Authority(NoScheme, false) + "a";
    SingleSegmentRejected(NoScheme, false, "a");
  }

  lemma RejectsThreeSegments()
    ensures !IsValidGitHubUrl("github.com/a/b/c")
  {
    assert "github.com/a/b/c" == Authority(NoScheme, false) + "a" + "/" + "b" + "/" + "c";
    ExtraSegmentRejected(NoScheme, false, "a", "b", "c");
  }

  lemma RejectsTwoTrailingSlashes()
    ensures !IsValidGitHubUrl("github.com/a/b//")
  {
    assert "github.com/a/b//" == Authority(NoScheme, false) + "a" + "/" + "b" + "/" + "/";
    ExtraSegmentRejected(NoScheme, false, "a", "b", "/");
  }

  lemma RejectsTrailingLineBreak()
    ensures !IsValidGitHubUrl("github.com/a/b\n")
  {
    TrailingLineTerminatorRejected("github.com/a/b\n");
  }

  /** `_` is not an owner character. */
  lemma RejectsOwnerUnderscore()
    ensures !IsValidGitHubUrl("github.com/a_b/c")
  {
    assert "github.com/a_b/c" == Render(RepoUrl(NoScheme, false, "a_b", "c", false));
    assert !IsOwnerChar("a_b"[1]);
    SegmentCharacterClasses(NoScheme, false, "a_b", "c", false);
  }

  /** `.` is not an owner character. */
  lemma RejectsOwnerDot()
    ensures !IsValidGitHubUrl("github.com/a.b/c")
  {
    assert "github.com/a.b/c" == Render(RepoUrl(NoScheme, false, "a.b", "c", false));
    assert !IsOwnerChar("a.b"[1]);
    SegmentCharacterClasses(NoScheme, false, "a.b", "c", false);
  }
}
