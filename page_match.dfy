/** The page matcher, `SiteDeployer.normalizePageName` and `SiteDeployer.isPageMatch`. */
module PageMatch {
  import opened Text

  /** `pageName.toLowerCase().trim()`. */
  function NormalizePageName(pageName: string): string
  {
    Trim(LowerStr(pageName))
  }

  /** `isPageMatch(pageName, targetPageName)`: equal after normalising (the target is only
      lower-cased), or equal once every whitespace and '-' is removed. */
  function IsPageMatch(pageName: string, targetPageName: string): bool
  {
    var normalized := NormalizePageName(pageName);
    var target := LowerStr(targetPageName);
    normalized == target || StripSpaceDash(normalized) == StripSpaceDash(target)
  }

  /** The matcher is exactly "equal after lower-casing and removing whitespace and dashes":
      the exact comparison is subsumed, and the trim makes no difference. */
  lemma IsPageMatchSpec(pageName: string, targetPageName: string)
    ensures IsPageMatch(pageName, targetPageName) <==>
              StripSpaceDash(LowerStr(pageName)) == StripSpaceDash(LowerStr(targetPageName))
  {
    StripTrim(LowerStr(pageName));
  }

  /** Although the code normalises its two arguments differently, the match is symmetric. */
  lemma IsPageMatchSymmetric(a: string, b: string)
    ensures IsPageMatch(a, b) <==> IsPageMatch(b, a)
  {
    IsPageMatchSpec(a, b);
    IsPageMatchSpec(b, a);
  }

  /** "Notre Histoire" matches the token "notre-histoire" (the strings are passed as
      parameters so that the solver does not unfold the string functions on literals). */
  lemma NotreHistoireMatches(pageName: string, token: string)
    requires pageName == "Notre Histoire" && token == "notre-histoire"
    ensures IsPageMatch(pageName, token)
  {
    IsPageMatchSpec(pageName, token);
    assert LowerStr(pageName) == "notre" + " " + "histoire";
    assert LowerStr(token) == "notre" + "-" + "histoire";
    SeparatorIgnored(LowerStr(pageName), "notre", ' ', "histoire");
    SeparatorIgnored(LowerStr(token), "notre", '-', "histoire");
  }

  /** Two words joined by one space or dash strip to the two words side by side. */
  lemma SeparatorIgnored(joined: string, first: string, separator: char, second: string)
    requires joined == first + [separator] + second && IsSpaceOrDash(separator)
    requires forall i :: 0 <= i < |first| ==> !IsSpaceOrDash(first[i])
    requires forall i :: 0 <= i < |second| ==> !IsSpaceOrDash(second[i])
    ensures StripSpaceDash(joined) == first + second
  {
    StripIdentity(first);
    StripIdentity(second);
    StripAppend(first + [separator], second);
    StripAppend(first, [separator]);
  }

  /** "Home" matches the token "home". */
  lemma HomeMatches(pageName: string, token: string)
    requires pageName == "Home" && token == "home"
    ensures IsPageMatch(pageName, token)
  {
    IsPageMatchSpec(pageName, token);
    assert LowerStr(pageName) == LowerStr(token);
  }

  /** A token that is only a prefix of the page name does not match. */
  lemma HomepageDoesNotMatchHome(pageName: string, token: string)
    requires pageName == "Homepage" && token == "home"
    ensures !IsPageMatch(pageName, token)
  {
    IsPageMatchSpec(pageName, token);
    var a, b := LowerStr(pageName), LowerStr(token);
    assert a == "homepage";
    assert b == "home";
    StripIdentity(a);
    StripIdentity(b);
  }
}
