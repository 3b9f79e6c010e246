/** `help_handler_sub` and the output of `help_handler_s` as values
    (c/help_handler.h:356-362, 442-508, 518-521, 676-714): which dialog an
    argument vector selects and the text printed for it. */
module Dispatch {
  import opened CLib
  import opened ErrorLog
  import opened Patterns
  import opened Lexicon
  import opened Matcher

  const Success: int := 0
  const Failure: int := -1

  /** `enum returnVal`: note that "help and version" is 0, the same value as
      "nothing matched". */
  const DialogHelpVer: int := 0
  const DialogHelp: int := 1
  const DialogVer: int := 2

  /** `options_t`. */
  datatype Options = Options(noArgHelp: bool, extraStrings: bool, unknownArgHelp: bool)

  /** `help_handler_is_err`. */
  predicate IsErr(code: int) {
    code < 0
  }

  /** `help_handler_is_err` tells a fault from a dialog code: the value of
      `help_handler_sub` before its notice is an error exactly when
      `arg_match` reported a fault. */
  lemma IsErrMeansAbort(regex: bool, extra: bool, argc: int32, argv: Argv)
    requires Readable(argc, argv)
    ensures IsErr(SubCode(Sub(regex, extra, argc, argv))) <==> Sub(regex, extra, argc, argv).Abort?
  {
    var l := Sub(regex, extra, argc, argv);
    if l.Result? {
      assert 0 <= l.code <= 2;
    }
  }

  /** `return_result`: only positive indices count as found. */
  function ReturnResult(help: int, ver: int): (r: int)
    ensures 0 <= r <= 2 && !IsErr(r)
    ensures r == DialogHelp <==> help > 0 && ver <= 0
    ensures r == DialogVer <==> ver > 0 && help <= 0
    ensures r == DialogHelpVer <==> (help > 0) == (ver > 0)
  {
    if help > 0 && ver > 0 then DialogHelpVer
    else if help > 0 then DialogHelp
    else if ver > 0 then DialogVer
    else if help == 0 && ver == 0 then 0
    else 0
  }

  /** The result of `help_handler_sub` before the unknown-argument notice: a
      fault reported by `arg_match`, or a dialog code. */
  datatype Lookup = Abort(fault: Fault) | Result(code: int)

  /** One step of a literal loop (c/help_handler.h:466-470): a positive index
      overwrites the running result, a fault ends the loop. */
  function WordStep(acc: int, w: string, argc: int32, argv: Argv): (r: Lookup)
    requires Readable(argc, argv)
    ensures r.Abort? <==> ArgMatch(argc, argv, ByWord(w)).Failed?
    ensures r.Result? ==> r.code == acc || (r.code > 0 && r.code < argc as int)
  {
    match ArgMatch(argc, argv, ByWord(w))
    case Failed(f) => Abort(f)
    case Index(i) => Result(if i > 0 then i else acc)
  }

  /** A literal loop over `words`, starting from 0. */
  function WordsFold(words: seq<string>, argc: int32, argv: Argv): (r: Lookup)
    requires Readable(argc, argv)
    ensures r.Result? ==> r.code >= 0
  {
    if words == [] then Result(0)
    else match WordsFold(words[..|words| - 1], argc, argv)
      case Abort(f) => Abort(f)
      case Result(acc) => WordStep(acc, words[|words| - 1], argc, argv)
  }

  /** Some argument from 1 on equals `w` ignoring case. */
  predicate WordGiven(words: seq<string>, argc: int32, argv: Argv)
    requires WellFormed(argc, argv)
  {
    exists k, i :: 0 <= k < |words| && 1 <= i < argc as int && SameIgnoringCase(argv.value[i].value, words[k])
  }

  /** On a well-formed `argv` the loop finds something iff some argument is
      one of the words. */
  lemma {:induction false} WordsFoldMeans(words: seq<string>, argc: int32, argv: Argv)
    requires WellFormed(argc, argv)
    ensures WordsFold(words, argc, argv).Result?
    ensures WordsFold(words, argc, argv).code >= 0
    ensures WordsFold(words, argc, argv).code > 0 <==> WordGiven(words, argc, argv)
  {
    if words != [] {
      var init := words[..|words| - 1];
      var w := words[|words| - 1];
      WordsFoldMeans(init, argc, argv);
      FoundIffAccepted(argc, argv, ByWord(w));
      if WordGiven(words, argc, argv) {
        var k, i :| 0 <= k < |words| && 1 <= i < argc as int && SameIgnoringCase(argv.value[i].value, words[k]);
        if k < |init| {
          assert init[k] == words[k];
        }
      }
      if WordGiven(init, argc, argv) {
        var k, i :| 0 <= k < |init| && 1 <= i < argc as int && SameIgnoringCase(argv.value[i].value, init[k]);
        assert words[k] == init[k];
      }
    }
  }

  /** A fault ends the loop: it stays the loop's result whatever follows. */
  lemma {:induction false} AbortSticks(words: seq<string>, n: nat, argc: int32, argv: Argv)
    requires Readable(argc, argv)
    requires n <= |words| && WordsFold(words[..n], argc, argv).Abort?
    ensures WordsFold(words, argc, argv) == WordsFold(words[..n], argc, argv)
    decreases |words| - n
  {
    if n < |words| {
      assert words[..n + 1][..n] == words[..n];
      AbortSticks(words, n + 1, argc, argv);
    } else {
      assert words[..n] == words;
    }
  }

  /** The literal strategy (c/help_handler.h:443-479): the help loop, then the
      version loop, over the enabled entries. */
  function LiteralSub(extra: bool, argc: int32, argv: Argv): (r: Lookup)
    requires Readable(argc, argv)
    ensures r.Result? ==> 0 <= r.code <= 2
    ensures r.Result? <==>
      WordsFold(Enabled(HelpLex, extra), argc, argv).Result? && WordsFold(Enabled(VerLex, extra), argc, argv).Result?
  {
    match WordsFold(Enabled(HelpLex, extra), argc, argv)
    case Abort(f) => Abort(f)
    case Result(h) =>
      match WordsFold(Enabled(VerLex, extra), argc, argv)
      case Abort(f) => Abort(f)
      case Result(v) => Result(ReturnResult(h, v))
  }

  /** The regex strategy (c/help_handler.h:480-496). */
  function PatternSub(extra: bool, argc: int32, argv: Argv): (r: Lookup)
    requires Readable(argc, argv)
    ensures r.Result? ==> 0 <= r.code <= 2
    ensures r.Abort? ==> r.fault.severity == Error
  {
    match ArgMatch(argc, argv, ByPattern(Help, extra))
    case Failed(f) => Abort(f)
    case Index(h) =>
      match ArgMatch(argc, argv, ByPattern(Version, extra))
      case Failed(f) => Abort(f)
      case Index(v) => Result(ReturnResult(h, v))
  }

  function Sub(regex: bool, extra: bool, argc: int32, argv: Argv): (r: Lookup)
    requires Readable(argc, argv)
    ensures r.Result? ==> 0 <= r.code <= 2
  {
    if regex then PatternSub(extra, argc, argv) else LiteralSub(extra, argc, argv)
  }

  /** The fault a lookup reported, if any. */
  function LookupFault(l: Lookup): Option<Fault> {
    if l.Abort? then Some(l.fault) else None
  }

  /** The value `help_handler_sub` returns. */
  function SubCode(l: Lookup): int {
    if l.Abort? then Failure else l.code
  }

  /** The notice of c/help_handler.h:498-505, printed when the result is 0. */
  function Notice(opts: Options, argc: int32, l: Lookup): (r: string)
    ensures r != [] <==> l == Result(0) && opts.unknownArgHelp && argc > 1
  {
    if l == Result(0) && opts.unknownArgHelp && argc > 1 then
      if argc > 2 then "Unknown arguments given\n" else "Unknown argument given\n"
    else ""
  }

  /** Whether `arg` asks for `family` under the chosen strategy. */
  predicate Asks(regex: bool, family: Family, extra: bool, arg: string) {
    if regex then Accepts(ByPattern(family, extra), arg)
    else Listed(if family == Help then HelpLex else VerLex, extra, arg)
  }

  predicate AnyAsks(regex: bool, family: Family, extra: bool, argc: int32, argv: Argv)
    requires WellFormed(argc, argv)
  {
    exists i :: 1 <= i < argc as int && Asks(regex, family, extra, argv.value[i].value)
  }

  function Flag(b: bool): int {
    if b then 1 else 0
  }

  lemma ListedMeansWordGiven(lex: seq<string>, extra: bool, argc: int32, argv: Argv)
    requires |lex| >= 3 && WellFormed(argc, argv)
    ensures WordGiven(Enabled(lex, extra), argc, argv) <==>
      exists i :: 1 <= i < argc as int && Listed(lex, extra, argv.value[i].value)
  {
    var ws := Enabled(lex, extra);
    if WordGiven(ws, argc, argv) {
      var k, i :| 0 <= k < |ws| && 1 <= i < argc as int && SameIgnoringCase(argv.value[i].value, ws[k]);
      assert Listed(lex, extra, argv.value[i].value);
    }
  }

  /** On a well-formed `argv` both strategies pick the dialog from whether
      any argument asks for help and whether any asks for the version. */
  lemma SubMeans(regex: bool, extra: bool, argc: int32, argv: Argv)
    requires WellFormed(argc, argv)
    ensures Sub(regex, extra, argc, argv) ==
      Result(ReturnResult(Flag(AnyAsks(regex, Help, extra, argc, argv)), Flag(AnyAsks(regex, Version, extra, argc, argv))))
  {
    if regex {
      FoundIffAccepted(argc, argv, ByPattern(Help, extra));
      FoundIffAccepted(argc, argv, ByPattern(Version, extra));
    } else {
      WordsFoldMeans(Enabled(HelpLex, extra), argc, argv);
      WordsFoldMeans(Enabled(VerLex, extra), argc, argv);
      ListedMeansWordGiven(HelpLex, extra, argc, argv);
      ListedMeansWordGiven(VerLex, extra, argc, argv);
    }
  }

  /** Asking for both and asking for neither give the same result, so the
      caller prints the same text for both (and the notice too). */
  lemma BothLooksLikeNeither(regex: bool, extra: bool, argc: int32, both: Argv, neither: Argv)
    requires WellFormed(argc, both) && WellFormed(argc, neither)
    requires AnyAsks(regex, Help, extra, argc, both) && AnyAsks(regex, Version, extra, argc, both)
    requires !AnyAsks(regex, Help, extra, argc, neither) && !AnyAsks(regex, Version, extra, argc, neither)
    ensures Sub(regex, extra, argc, both) == Sub(regex, extra, argc, neither) == Result(DialogHelpVer)
  {
    SubMeans(regex, extra, argc, both);
    SubMeans(regex, extra, argc, neither);
  }

  /** A fault comes only from a broken `argv`: head checks or a NULL entry. */
  lemma SubFaults(regex: bool, extra: bool, argc: int32, argv: Argv)
    requires Readable(argc, argv)
    requires !HeadOk(argc, argv)
    ensures Sub(regex, extra, argc, argv) == Abort(HeadFault(argc, argv).value)
  {
    if !regex {
      var ws := Enabled(HelpLex, extra);
      assert ws[..1][..0] == [];
      assert WordsFold(ws[..1], argc, argv).Abort?;
      AbortSticks(ws, 1, argc, argv);
    }
  }

  /** `print_name` followed by its separator: nothing when no name is set. */
  function Named(name: string, sep: string): (r: string)
    ensures name == [] ==> r == []
    ensures name != [] ==> r == name + sep
  {
    if name == [] then "" else name + sep
  }

  /** The text printed for an argument vector without arguments. */
  function NoArgsText(name: string, help: string): string {
    Named(name, " ") + help + "\n"
  }

  /** What `help_handler_s` prints after `help_handler_sub`
      (c/help_handler.h:694-710): nothing more after a fault. */
  function Dialog(l: Lookup, name: string, version: string, help: string): (r: string)
    ensures l.Abort? ==> r == []
    ensures l == Result(DialogHelpVer) ==> r == Named(name, " Version ") + version + "\n" + help + "\n"
    ensures l == Result(DialogHelp) ==> r == Named(name, " ") + help + "\n"
    ensures l == Result(DialogVer) ==> r == version + "\n"
  {
    match l
    case Abort(_) => ""
    case Result(code) =>
      (if code == DialogHelpVer then Named(name, " Version ") + version + "\n" + help
       else if code == DialogHelp then Named(name, " ") + help
       else if code == DialogVer then version
       else "")
      + "\n"
  }

  /** Example: "--HELP --version" and "foo bar" print the same text. */
  lemma BothAndNeitherExample()
    ensures var both := Some([Some("prog"), Some("--HELP"), Some("--version")]);
      var neither := Some([Some("prog"), Some("foo"), Some("bar")]);
      Sub(true, true, 3, both) == Sub(true, true, 3, neither) == Result(DialogHelpVer)
  {
    var both := Some([Some("prog"), Some("--HELP"), Some("--version")]);
    var neither := Some([Some("prog"), Some("foo"), Some("bar")]);
    assert both.value[1].value == "--HELP";
    HelpUpperExample();
    VersionExamples();
    assert Accepts(ByPattern(Help, true), both.value[1].value);
    assert Accepts(ByPattern(Version, true), both.value[2].value);
    NeitherFooNorBar();
    assert !AnyAsks(true, Help, true, 3, neither);
    assert !AnyAsks(true, Version, true, 3, neither);
    BothLooksLikeNeither(true, true, 3, both, neither);
  }

  lemma NeitherFooNorBar()
    ensures !HelpLike(true, "foo") && !HelpLike(true, "bar")
    ensures !VersionLike(true, "foo") && !VersionLike(true, "bar")
  {
    HelpLikeMeans(true, "foo");
    HelpLikeMeans(true, "bar");
    VersionLikeMeans(true, "foo");
    VersionLikeMeans(true, "bar");
    NoCoreIn("foo");
    NoCoreIn("bar");
  }

  lemma NoCoreIn(s: string)
    requires |s| == 3 && forall k :: 0 <= k < 3 ==> Fold(s[k]) != 'h' && Fold(s[k]) != 'v'
    ensures !Search(HelpCore, s, true) && !Search(VerCore, s, true)
  {
    forall i | 0 <= i <= |s|
      ensures !Match(HelpCore, s[i..], true) && !Match(VerCore, s[i..], true)
    {
      if i < |s| {
        assert s[i..][0] == s[i];
      }
    }
  }
}
