/** The literal spellings `help_handler_sub` falls back on when the platform
    has no POSIX regular expressions (c/help_handler.h:445-462). */
module Lexicon {
  import opened CLib

  /** `help_lex`: the first three entries are the abbreviated forms. */
  const HelpLex: seq<string> := [
    "h", "-h", "--h",
    "help", "-help", "--help",
    "hhelp", "heelp", "hellp", "helpp",
    "-hhelp", "-heelp", "-hellp", "-helpp",
    "--hhelp", "--heelp", "--hellp", "--helpp"]

  /** `ver_lex`: the first three entries are the abbreviated forms. */
  const VerLex: seq<string> := [
    "v", "-v", "--v",
    "version", "-version", "--version",
    "vversion", "veersion", "verrsion", "verssion", "versiion", "versioon", "versionn",
    "-vversion", "-veersion", "-verrsion", "-verssion", "-versiion", "-versioon", "-versionn",
    "--vversion", "--veersion", "--verrsion", "--verssion", "--versiion", "--versioon", "--versionn"]

  /** The entries the loops visit: without extra strings the first three are
      blanked and the scan starts at the fourth (c/help_handler.h:459-462). */
  function Enabled(lex: seq<string>, extra: bool): (r: seq<string>)
    requires |lex| >= 3
    ensures extra ==> r == lex
    ensures !extra ==> lex == lex[..3] + r
  {
    if extra then lex else lex[3..]
  }

  /** `s` equals, ignoring case, one of the entries the loops visit. */
  predicate Listed(lex: seq<string>, extra: bool, s: string)
    requires |lex| >= 3
  {
    exists k :: 0 <= k < |Enabled(lex, extra)| && SameIgnoringCase(s, Enabled(lex, extra)[k])
  }

  predicate OneOf3(s: string, a: string, b: string, c: string) {
    SameIgnoringCase(s, a) || SameIgnoringCase(s, b) || SameIgnoringCase(s, c)
  }

  /** Clearing extra strings removes exactly the first three entries. */
  lemma ExtraStringsAddFirstThree(lex: seq<string>, s: string)
    requires |lex| >= 3
    ensures Listed(lex, true, s) <==> Listed(lex, false, s) || OneOf3(s, lex[0], lex[1], lex[2])
  {
    var rest := Enabled(lex, false);
    if Listed(lex, true, s) {
      var k :| 0 <= k < |lex| && SameIgnoringCase(s, lex[k]);
      if k >= 3 {
        assert rest[k - 3] == lex[k];
      }
    }
    if Listed(lex, false, s) {
      var k :| 0 <= k < |rest| && SameIgnoringCase(s, rest[k]);
      assert lex[k + 3] == rest[k];
    }
    var all := Enabled(lex, true);
    if SameIgnoringCase(s, lex[0]) {
      assert SameIgnoringCase(s, all[0]);
    } else if SameIgnoringCase(s, lex[1]) {
      assert SameIgnoringCase(s, all[1]);
    } else if SameIgnoringCase(s, lex[2]) {
      assert SameIgnoringCase(s, all[2]);
    }
  }

  /** Nothing of at most three characters is listed without extra strings:
      every entry from the fourth on is longer. */
  lemma ShortFormsGone(s: string)
    requires |s| <= 3
    ensures !Listed(HelpLex, false, s) && !Listed(VerLex, false, s)
  {
    var help := Enabled(HelpLex, false);
    forall k | 0 <= k < |help|
      ensures |help[k]| >= 4
    {
      assert help[k] == HelpLex[k + 3];
    }
    var ver := Enabled(VerLex, false);
    forall k | 0 <= k < |ver|
      ensures |ver[k]| >= 7
    {
      assert ver[k] == VerLex[k + 3];
    }
  }

  /** For the help list the first three are "h", "-h" and "--h", and they are
      listed only with extra strings. */
  lemma ExtraStringsAddHelpShortForms(s: string)
    ensures Listed(HelpLex, true, s) <==> Listed(HelpLex, false, s) || OneOf3(s, "h", "-h", "--h")
    ensures OneOf3(s, "h", "-h", "--h") ==> !Listed(HelpLex, false, s)
  {
    ExtraStringsAddFirstThree(HelpLex, s);
    if |s| <= 3 {
      ShortFormsGone(s);
    }
  }

  /** For the version list the first three are "v", "-v" and "--v", and they
      are listed only with extra strings. */
  lemma ExtraStringsAddVersionShortForms(s: string)
    ensures Listed(VerLex, true, s) <==> Listed(VerLex, false, s) || OneOf3(s, "v", "-v", "--v")
    ensures OneOf3(s, "v", "-v", "--v") ==> !Listed(VerLex, false, s)
  {
    ExtraStringsAddFirstThree(VerLex, s);
    if |s| <= 3 {
      ShortFormsGone(s);
    }
  }

  /** Without extra strings "h" is not accepted; with them "H" is. */
  lemma HelpShortFormListed()
    ensures !Listed(HelpLex, false, "h") && Listed(HelpLex, true, "H")
  {
    assert SameIgnoringCase("H", Enabled(HelpLex, true)[0]);
    var rest := Enabled(HelpLex, false);
    forall k | 0 <= k < |rest|
      ensures |rest[k]| >= 4
    {
      assert rest[k] == HelpLex[k + 3];
    }
  }

  /** Without extra strings "-v" is not accepted; with them "--V" is. */
  lemma VersionShortFormListed()
    ensures !Listed(VerLex, false, "-v") && Listed(VerLex, true, "--V")
  {
    assert SameIgnoringCase("--V", Enabled(VerLex, true)[2]);
    var rest := Enabled(VerLex, false);
    forall k | 0 <= k < |rest|
      ensures |rest[k]| >= 7
    {
      assert rest[k] == VerLex[k + 3];
    }
  }
}
