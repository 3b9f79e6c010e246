/** The two POSIX extended regular expressions of `help_handler_sub`
    (c/help_handler.h:483-488), compiled with REG_EXTENDED|REG_ICASE|REG_NOSUB
    and applied with `regexec`, which succeeds when SOME substring matches.

    Every alternative in them is a chain of letters, each written once, as
    `x{0,}` or as `x{1,}`, optionally anchored with `^` or `$` and optionally
    followed by the group `(.*)`. `Match` recognises exactly such a chain;
    it is not a general regular-expression engine. */
module Patterns {
  import opened CLib

  /** One link of a chain: a letter once, `x{0,}`, or `x{1,}`. */
  datatype Atom = One(letter: char) | Star(letter: char) | Plus(letter: char)

  /** Does `s` start with a match of the chain `rs`, letters compared after
      case folding (REG_ICASE)? When `open` is false the match must use all of
      `s` (the alternative ends in `$`); when it is true anything may follow. */
  predicate Match(rs: seq<Atom>, s: string, open: bool)
    decreases |s|, |rs|
  {
    if rs == [] then open || s == []
    else match rs[0]
      case One(c) => |s| > 0 && Fold(s[0]) == c && Match(rs[1..], s[1..], open)
      case Star(c) =>
        Match(rs[1..], s, open) || (|s| > 0 && Fold(s[0]) == c && Match(rs, s[1..], open))
      case Plus(c) => |s| > 0 && Fold(s[0]) == c && Match([Star(c)] + rs[1..], s[1..], open)
  }

  /** `regexec` of an alternative without `^`: a match may start anywhere. */
  predicate Search(rs: seq<Atom>, s: string, open: bool) {
    exists i :: 0 <= i <= |s| && Match(rs, s[i..], open)
  }

  /** `-{0,}h{1,}e{1,}l{1,}p{1,}(.*)` */
  const HelpWord: seq<Atom> := [Star('-'), Plus('h'), Plus('e'), Plus('l'), Plus('p')]
  /** `-{0,}h{1,}$` */
  const HelpEnd: seq<Atom> := [Star('-'), Plus('h')]
  /** `-{0,}v{1,}e{1,}r{1,}s{0,}i{0,}o{0,}n{0,}(.*)` */
  const VerWord: seq<Atom> :=
    [Star('-'), Plus('v'), Plus('e'), Plus('r'), Star('s'), Star('i'), Star('o'), Star('n')]
  /** `^-{0,}v$` */
  const VerAlone: seq<Atom> := [Star('-'), One('v')]

  /** The help expression: with extra strings the alternative `-{0,}h{1,}$`
      is added (c/help_handler.h:484), without them it is not (487). */
  predicate HelpLike(extra: bool, s: string) {
    Search(HelpWord, s, true) || (extra && Search(HelpEnd, s, false))
  }

  /** The version expression: with extra strings the alternative `^-{0,}v$`
      is added (c/help_handler.h:485), without them it is not (488). */
  predicate VersionLike(extra: bool, s: string) {
    Search(VerWord, s, true) || (extra && Match(VerAlone, s, false))
  }

  // The plain descriptions the expressions boil down to.

  /** `h e+ l+ p` */
  const HelpCore: seq<Atom> := [One('h'), Plus('e'), Plus('l'), One('p')]
  /** `v e+ r` */
  const VerCore: seq<Atom> := [One('v'), Plus('e'), One('r')]

  predicate EndsWith(s: string, c: char) {
    |s| > 0 && Fold(s[|s| - 1]) == c
  }

  /** `s` is some dashes and then the letter `c`. */
  predicate DashesThen(s: string, c: char) {
    |s| > 0 && Fold(s[|s| - 1]) == c && forall k :: 0 <= k < |s| - 1 ==> s[k] == '-'
  }

  // Algebra of chains.

  lemma SkipStar(c: char, rest: seq<Atom>, s: string, open: bool)
    requires Match(rest, s, open)
    ensures Match([Star(c)] + rest, s, open)
  {
    assert ([Star(c)] + rest)[1..] == rest;
  }

  /** A `x{0,}` link only ever eats a prefix. */
  lemma {:induction false} StarSplit(c: char, rest: seq<Atom>, s: string, open: bool)
    requires Match([Star(c)] + rest, s, open)
    ensures exists k :: 0 <= k <= |s| && Match(rest, s[k..], open)
    decreases |s|
  {
    var rs := [Star(c)] + rest;
    assert rs[0] == Star(c) && rs[1..] == rest;
    if Match(rest, s, open) {
      assert s[0..] == s;
    } else {
      StarSplit(c, rest, s[1..], open);
      var k :| 0 <= k <= |s[1..]| && Match(rest, s[1..][k..], open);
      assert s[1..][k..] == s[k + 1..];
    }
  }

  lemma OneToPlus(c: char, rest: seq<Atom>, s: string, open: bool)
    requires Match([One(c)] + rest, s, open)
    ensures Match([Plus(c)] + rest, s, open)
  {
    assert ([One(c)] + rest)[1..] == rest;
    assert ([Plus(c)] + rest)[1..] == rest;
    SkipStar(c, rest, s[1..], open);
  }

  /** A match of `x{1,}` followed by `rest` contains, further on, a match of
      a single `x` followed by `rest`. */
  lemma {:induction false} PlusSplit(c: char, rest: seq<Atom>, s: string, open: bool)
    requires Match([Plus(c)] + rest, s, open)
    ensures exists k :: 0 <= k < |s| && Match([One(c)] + rest, s[k..], open)
    decreases |s|
  {
    var ps := [Plus(c)] + rest;
    var ss := [Star(c)] + rest;
    var one := [One(c)] + rest;
    assert ps[1..] == rest && ss[1..] == rest && one[1..] == rest;
    if Match(rest, s[1..], open) {
      assert s[0..] == s;
      assert Match(one, s, open);
    } else {
      var t := s[1..];
      assert |t| > 0 && Fold(t[0]) == c && Match(ss, t[1..], open);
      assert Match(ps, t, open);
      PlusSplit(c, rest, t, open);
      var k :| 0 <= k < |t| && Match(one, t[k..], open);
      assert t[k..] == s[k + 1..];
    }
  }

  /** Under search a leading `x{0,}` makes no difference. */
  lemma SearchDropStar(c: char, rest: seq<Atom>, s: string, open: bool)
    ensures Search([Star(c)] + rest, s, open) <==> Search(rest, s, open)
  {
    if Search([Star(c)] + rest, s, open) {
      var i :| 0 <= i <= |s| && Match([Star(c)] + rest, s[i..], open);
      StarSplit(c, rest, s[i..], open);
      var k :| 0 <= k <= |s[i..]| && Match(rest, s[i..][k..], open);
      assert s[i..][k..] == s[i + k..];
    }
    if Search(rest, s, open) {
      var i :| 0 <= i <= |s| && Match(rest, s[i..], open);
      SkipStar(c, rest, s[i..], open);
    }
  }

  /** Under search a leading `x{1,}` may as well be a single `x`. */
  lemma SearchPlusAsOne(c: char, rest: seq<Atom>, s: string, open: bool)
    ensures Search([Plus(c)] + rest, s, open) <==> Search([One(c)] + rest, s, open)
  {
    if Search([Plus(c)] + rest, s, open) {
      var i :| 0 <= i <= |s| && Match([Plus(c)] + rest, s[i..], open);
      PlusSplit(c, rest, s[i..], open);
      var k :| 0 <= k < |s[i..]| && Match([One(c)] + rest, s[i..][k..], open);
      assert s[i..][k..] == s[i + k..];
    }
    if Search([One(c)] + rest, s, open) {
      var i :| 0 <= i <= |s| && Match([One(c)] + rest, s[i..], open);
      OneToPlus(c, rest, s[i..], open);
    }
  }

  predicate AllStars(rs: seq<Atom>) {
    forall k :: 0 <= k < |rs| ==> rs[k].Star?
  }

  lemma {:induction false} StarsAcceptAll(rs: seq<Atom>, s: string)
    requires AllStars(rs)
    ensures Match(rs, s, true)
    decreases |rs|
  {
    if rs != [] {
      StarsAcceptAll(rs[1..], s);
    }
  }

  /** When anything may follow, trailing `x{0,}` links make no difference. */
  lemma {:induction false} OpenDropStars(rs: seq<Atom>, stars: seq<Atom>, s: string)
    requires AllStars(stars)
    ensures Match(rs + stars, s, true) <==> Match(rs, s, true)
    decreases |s|, |rs|
  {
    if rs == [] {
      assert rs + stars == stars;
      StarsAcceptAll(stars, s);
    } else {
      var all := rs + stars;
      assert all[0] == rs[0];
      assert all[1..] == rs[1..] + stars;
      match rs[0]
      case One(c) =>
        if |s| > 0 {
          OpenDropStars(rs[1..], stars, s[1..]);
        }
      case Star(c) =>
        OpenDropStars(rs[1..], stars, s);
        if |s| > 0 {
          OpenDropStars(rs, stars, s[1..]);
        }
      case Plus(c) =>
        var next := [Star(c)] + rs[1..];
        assert [Star(c)] + all[1..] == next + stars;
        if |s| > 0 {
          OpenDropStars(next, stars, s[1..]);
        }
    }
  }

  /** When anything may follow, a last `x{1,}` may as well be a single `x`. */
  lemma {:induction false} OpenLastPlus(rs: seq<Atom>, c: char, s: string)
    ensures Match(rs + [Plus(c)], s, true) <==> Match(rs + [One(c)], s, true)
    decreases |s|, |rs|
  {
    if rs == [] {
      assert rs + [Plus(c)] == [Plus(c)] && rs + [One(c)] == [One(c)];
      assert [Plus(c)][1..] == [] && [One(c)][1..] == [];
      if |s| > 0 {
        assert [Star(c)] + [Plus(c)][1..] == [Star(c)];
        StarsAcceptAll([Star(c)], s[1..]);
      }
    } else {
      var withPlus := rs + [Plus(c)];
      var withOne := rs + [One(c)];
      assert withPlus[0] == rs[0] && withOne[0] == rs[0];
      assert withPlus[1..] == rs[1..] + [Plus(c)];
      assert withOne[1..] == rs[1..] + [One(c)];
      match rs[0]
      case One(d) =>
        if |s| > 0 {
          OpenLastPlus(rs[1..], c, s[1..]);
        }
      case Star(d) =>
        OpenLastPlus(rs[1..], c, s);
        if |s| > 0 {
          OpenLastPlus(rs, c, s[1..]);
        }
      case Plus(d) =>
        var next := [Star(d)] + rs[1..];
        assert [Star(d)] + withPlus[1..] == next + [Plus(c)];
        assert [Star(d)] + withOne[1..] == next + [One(c)];
        if |s| > 0 {
          OpenLastPlus(next, c, s[1..]);
        }
    }
  }

  // What the expressions mean.

  /** `-{0,}h{1,}e{1,}l{1,}p{1,}(.*)` finds a match exactly when the argument
      contains `h`, one or more `e`, one or more `l`, then `p`. */
  lemma HelpWordMeans(s: string)
    ensures Search(HelpWord, s, true) <==> Search(HelpCore, s, true)
  {
    var tail := [Plus('e'), Plus('l'), Plus('p')];
    assert HelpWord == [Star('-')] + ([Plus('h')] + tail);
    SearchDropStar('-', [Plus('h')] + tail, s, true);
    SearchPlusAsOne('h', tail, s, true);
    var pre := [One('h'), Plus('e'), Plus('l')];
    assert [One('h')] + tail == pre + [Plus('p')];
    assert HelpCore == pre + [One('p')];
    forall x: string
      ensures Match(pre + [Plus('p')], x, true) <==> Match(pre + [One('p')], x, true)
    {
      OpenLastPlus(pre, 'p', x);
    }
  }

  /** `-{0,}h{1,}$` finds a match exactly when the last character is `h`. */
  lemma HelpEndMeans(s: string)
    ensures Search(HelpEnd, s, false) <==> EndsWith(s, 'h')
  {
    var none: seq<Atom> := [];
    assert HelpEnd == [Star('-')] + [Plus('h')];
    assert [Plus('h')] == [Plus('h')] + none && [One('h')] == [One('h')] + none;
    SearchDropStar('-', [Plus('h')], s, false);
    SearchPlusAsOne('h', none, s, false);
    if EndsWith(s, 'h') {
      assert Match([One('h')], s[|s| - 1..], false);
    }
    if Search([One('h')], s, false) {
      var i :| 0 <= i <= |s| && Match([One('h')], s[i..], false);
      assert [One('h')][0] == One('h') && [One('h')][1..] == none;
      assert Match(none, s[i..][1..], false);
      assert s[i..][1..] == [];
      assert i == |s| - 1 && s[i..][0] == s[|s| - 1];
    }
  }

  /** `-{0,}v{1,}e{1,}r{1,}s{0,}i{0,}o{0,}n{0,}(.*)` finds a match exactly
      when the argument contains `v`, one or more `e`, then `r`. */
  lemma VersionWordMeans(s: string)
    ensures Search(VerWord, s, true) <==> Search(VerCore, s, true)
  {
    var stars := [Star('s'), Star('i'), Star('o'), Star('n')];
    var tail := [Plus('e'), Plus('r')];
    assert VerWord == [Star('-')] + ([Plus('v')] + tail + stars);
    assert [Plus('v')] + tail + stars == [Plus('v')] + (tail + stars);
    SearchDropStar('-', [Plus('v')] + tail + stars, s, true);
    SearchPlusAsOne('v', tail + stars, s, true);
    var pre := [One('v'), Plus('e')];
    assert [One('v')] + (tail + stars) == (pre + [Plus('r')]) + stars;
    assert VerCore == pre + [One('r')];
    forall x: string
      ensures Match((pre + [Plus('r')]) + stars, x, true) <==> Match(pre + [One('r')], x, true)
    {
      OpenDropStars(pre + [Plus('r')], stars, x);
      OpenLastPlus(pre, 'r', x);
    }
  }

  /** `^-{0,}v$` matches exactly the strings made of dashes and one `v`. */
  lemma {:induction false} VersionAloneMeans(s: string)
    ensures Match(VerAlone, s, false) <==> DashesThen(s, 'v')
    decreases |s|
  {
    var last := [One('v')];
    assert VerAlone[0] == Star('-') && VerAlone[1..] == last && last[1..] == [];
    if |s| == 0 {
    } else if |s| == 1 {
      assert s[1..] == [];
      assert Match(last, s, false) <==> Fold(s[0]) == 'v';
      assert !Match(last, s[1..], false);
      assert !Match(VerAlone, s[1..], false);
    } else {
      VersionAloneMeans(s[1..]);
      assert !Match(last, s, false);
      assert Fold(s[0]) == '-' <==> s[0] == '-';
      if DashesThen(s, 'v') {
        assert DashesThen(s[1..], 'v');
      }
      if s[0] == '-' && DashesThen(s[1..], 'v') {
        forall k | 0 <= k < |s| - 1
          ensures s[k] == '-'
        {
          if k > 0 {
            assert s[k] == s[1..][k - 1];
          }
        }
      }
    }
  }

  /** The help expression in plain words (the POSIX strategy of
      `help_handler_sub`). */
  lemma HelpLikeMeans(extra: bool, s: string)
    ensures HelpLike(extra, s) <==> Search(HelpCore, s, true) || (extra && EndsWith(s, 'h'))
  {
    HelpWordMeans(s);
    HelpEndMeans(s);
  }

  /** The version expression in plain words. */
  lemma VersionLikeMeans(extra: bool, s: string)
    ensures VersionLike(extra, s) <==> Search(VerCore, s, true) || (extra && DashesThen(s, 'v'))
  {
    VersionWordMeans(s);
    VersionAloneMeans(s);
  }

  // The examples the expressions are meant for, and two they catch as well.

  /** "--HELP" is help-like, with or without extra strings. */
  lemma HelpUpperExample()
    ensures HelpLike(false, "--HELP")
  {
    var afterH := [Plus('e'), Plus('l'), One('p')];
    assert HelpCore[0] == One('h') && HelpCore[1..] == afterH;
    assert Match([One('p')], "P", true);
    assert Match([Plus('l'), One('p')], "LP", true);
    assert Match(afterH, "ELP", true);
    assert Match(HelpCore, "--HELP"[2..], true);
    HelpLikeMeans(false, "--HELP");
  }

  /** "heellp", a doubled letter, is help-like too. */
  lemma HelpDoubledExample()
    ensures HelpLike(false, "heellp")
  {
    var afterH := [Plus('e'), Plus('l'), One('p')];
    assert HelpCore[0] == One('h') && HelpCore[1..] == afterH;
    assert Match(HelpCore, "heellp"[0..], true) by {
      assert Match([One('p')], "p", true);
      assert Match([Star('l'), One('p')], "p", true);
      assert Match([Plus('l'), One('p')], "llp", true) by {
        assert Match([Star('l'), One('p')], "lp", true);
      }
      assert Match([Star('e'), Plus('l'), One('p')], "llp", true);
      assert Match([Star('e'), Plus('l'), One('p')], "ellp", true);
      assert Match(afterH, "eellp", true);
      assert Match(HelpCore, "heellp", true);
      assert "heellp"[0..] == "heellp";
    }
    HelpLikeMeans(false, "heellp");
  }

  /** "h" is help-like only with extra strings. */
  lemma HelpShortForm()
    ensures HelpLike(true, "h") && !HelpLike(false, "h")
  {
    var afterH := [Plus('e'), Plus('l'), One('p')];
    assert HelpCore[0] == One('h') && HelpCore[1..] == afterH;
    HelpLikeMeans(true, "h");
    HelpLikeMeans(false, "h");
    assert !Match(afterH, "", true);
    assert !Match(HelpCore, "h"[0..], true) by {
      assert "h"[0..][1..] == "";
    }
    assert !Match(HelpCore, "h"[1..], true);
  }

  /** "bash" ends in `h`, so it is help-like with extra strings, and only then. */
  lemma HelpLastLetter()
    ensures HelpLike(true, "bash") && !HelpLike(false, "bash")
  {
    var afterH := [Plus('e'), Plus('l'), One('p')];
    assert HelpCore[0] == One('h') && HelpCore[1..] == afterH;
    HelpLikeMeans(true, "bash");
    HelpLikeMeans(false, "bash");
    assert !Match(afterH, "", true);
    assert !Match(HelpCore, "bash"[0..], true);
    assert !Match(HelpCore, "bash"[1..], true);
    assert !Match(HelpCore, "bash"[2..], true);
    assert !Match(HelpCore, "bash"[3..], true) by {
      assert "bash"[3..][1..] == "";
    }
    assert !Match(HelpCore, "bash"[4..], true);
  }

  /** "--version", "ver" and "--verbose" are version-like, with or without
      extra strings. */
  lemma VersionExamples()
    ensures VersionLike(false, "--version") && VersionLike(false, "ver")
    ensures VersionLike(false, "--verbose")
  {
    var afterV := [Plus('e'), One('r')];
    assert VerCore[0] == One('v') && VerCore[1..] == afterV;
    assert Match([One('r')], "r", true);
    assert Match([Star('e'), One('r')], "r", true);
    assert Match(afterV, "er", true);
    assert Match(VerCore, "ver", true);
    assert "--version"[2..][..3] == "ver";
    assert Match(VerCore, "--version"[2..], true);
    assert Match(VerCore, "--verbose"[2..], true);
    assert Match(VerCore, "ver"[0..], true);
    VersionLikeMeans(false, "--version");
    VersionLikeMeans(false, "ver");
    VersionLikeMeans(false, "--verbose");
  }

  /** "v" and "--v" are version-like only with extra strings. */
  lemma VersionShortForm()
    ensures VersionLike(true, "v") && !VersionLike(false, "v")
    ensures VersionLike(true, "--v") && !VersionLike(false, "--v")
  {
    var afterV := [Plus('e'), One('r')];
    assert VerCore[0] == One('v') && VerCore[1..] == afterV;
    VersionLikeMeans(true, "v");
    VersionLikeMeans(false, "v");
    assert !Match(afterV, "", true);
    assert !Match(VerCore, "v"[0..], true) by {
      assert "v"[0..][1..] == "";
    }
    assert !Match(VerCore, "v"[1..], true);
    VersionLikeMeans(true, "--v");
    VersionLikeMeans(false, "--v");
    assert !Match(VerCore, "--v"[0..], true);
    assert !Match(VerCore, "--v"[1..], true);
    assert !Match(VerCore, "--v"[2..], true) by {
      assert "--v"[2..][1..] == "";
    }
    assert !Match(VerCore, "--v"[3..], true);
  }

  /** "-vv" is not version-like: only one `v` may follow the dashes. */
  lemma VersionRejectsDoubleV()
    ensures !VersionLike(true, "-vv")
  {
    var afterV := [Plus('e'), One('r')];
    assert VerCore[0] == One('v') && VerCore[1..] == afterV;
    VersionLikeMeans(true, "-vv");
    assert !Match(afterV, "", true);
    assert !Match(afterV, "v", true);
    assert !Match(VerCore, "-vv"[0..], true);
    assert !Match(VerCore, "-vv"[1..], true) by {
      assert "-vv"[1..][1..] == "v";
    }
    assert !Match(VerCore, "-vv"[2..], true) by {
      assert "-vv"[2..][1..] == "";
    }
    assert !Match(VerCore, "-vv"[3..], true);
    assert "-vv"[1] != '-';
  }
}
