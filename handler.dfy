/** The state of c/help_handler.h and its public operations: one object
    whose fields are the header's globals (c/help_handler.h:135-183) and
    whose methods are the setters, `arg_match`, `help_handler_sub`,
    `help_handler_s` and the error-log functions. What the library writes to
    stdout or stderr is appended to the one trace `out`. */
module Handler {
  import opened CLib
  import opened ErrorLog
  import opened Trimming
  import opened Lexicon
  import opened Matcher
  import opened Dispatch

  /** The `ver` member of `most_recent_t`: which version field is printed. */
  datatype VersionKind = VersionStr | VersionInt | VersionDouble

  /** `info_t` without the wide-character name. */
  datatype Info = Info(name: string, verStr: string, verInt: uint32, verDouble: real)

  /** `sizeof(info_t.name)` and `sizeof(info_t.ver_str)`. */
  const InfoLen: nat := 512

  const DefaultVersion: string := "No version is available"

  /** The checks of a string setter (c/help_handler.h:589-592, 617-620): NULL
      or empty, then too long for its 512-byte field. */
  function SetterFault(s: Option<string>, checkLine: nat, varName: string, tooLong: Fault): (r: Option<Fault>)
    requires tooLong.severity == Error
    ensures r.None? <==> s.Some? && 0 < |s.value| && |s.value| + 1 < InfoLen
    ensures r.Some? ==> r.value.severity == Error
  {
    var c := ErrorLog.StringCheck(s, checkLine, Error, varName);
    if c.Some? then c
    else if |s.value| + 1 >= InfoLen then Some(tooLong)
    else None
  }

  function VersionFault(ver: Option<string>): Option<Fault> {
    SetterFault(ver, 589, "ver", Fault("given version string is larger than allowed", 591, Error))
  }

  function NameFault(name: Option<string>): Option<Fault> {
    SetterFault(name, 617, "app_name", Fault("given app name is larger than allowed", 619, Error))
  }

  /** `help_handler_pipe_s` after its check (c/help_handler.h:562-565). */
  function PipeFromName(s: string): (r: int)
    ensures r == 1 <==> SameIgnoringCase(s, "stdout")
    ensures r == 2 <==> SameIgnoringCase(s, "stderr")
    ensures r == 0 <==> !SameIgnoringCase(s, "stdout") && !SameIgnoringCase(s, "stderr")
  {
    if SameIgnoringCase(s, "stdout") then
      assert Fold(s[3]) == Fold("stdout"[3]) != Fold("stderr"[3]);
      1
    else if SameIgnoringCase(s, "stderr") then 2
    else 0
  }

  /** `trim` into a fresh buffer one longer than `s`: nothing is cut. */
  method TrimCopy(s: string) returns (t: string)
    requires !Blank(s)
    ensures t == Trimmed(s)
  {
    var buf := new char[|s| + 1];
    var n := Trim(buf, |s| + 1, s);
    t := buf[..n];
  }

  class HelpHandler {
    /** Whether the platform has POSIX regular expressions. */
    const regexSupport: bool
    /** `sprintf("%lf", ...)`, which is not part of this model. */
    const formatDouble: real -> string

    var options: Options
    var info: Info
    var verKind: VersionKind
    var outputPipe: int
    var printErr: bool
    const errs: array<string>
    var errCount: nat
    /** Every message stored so far, oldest first. */
    ghost var history: seq<string>
    /** Everything printed so far. */
    var out: string

    ghost predicate Valid()
      reads this, errs
    {
      errs.Length == MaxStringCount && errCount == |history|
      && errs[..] == Slots(history)
      && |info.name| < InfoLen && |info.verStr| < InfoLen
      && 0 <= outputPipe <= 2
    }

    /** The static initialisers of c/help_handler.h:135-183. */
    constructor (regexSupport: bool, formatDouble: real -> string)
      ensures Valid() && fresh(errs)
      ensures this.regexSupport == regexSupport && this.formatDouble == formatDouble
      ensures options == Options(true, true, false)
      ensures info == Info("", DefaultVersion, 0, 0.0) && verKind == VersionStr
      ensures outputPipe == 0 && printErr && history == [] && out == ""
    {
      this.regexSupport := regexSupport;
      this.formatDouble := formatDouble;
      options := Options(true, true, false);
      info := Info("", DefaultVersion, 0, 0.0);
      verKind := VersionStr;
      outputPipe := 0;
      printErr := true;
      var slots := new string[MaxStringCount](_ => "");
      assert slots[..] == Slots([]);
      errs := slots;
      errCount := 0;
      history := [];
      out := "";
    }

    /** `print_ver`: the active version as text. */
    function VersionText(): string
      reads this`verKind, this`info
    {
      match verKind
      case VersionStr => info.verStr
      case VersionInt => PercentD(info.verInt)
      case VersionDouble => formatDouble(info.verDouble)
    }

    /** `store_err`: one slot written, the count incremented. */
    method StoreErr(s: string)
      requires Valid()
      modifies this`errCount, this`history, errs
      ensures Valid() && history == old(history) + [s]
      ensures errs[old(errCount) % MaxStringCount] == s
      ensures forall k :: 0 <= k < MaxStringCount && k != old(errCount) % MaxStringCount ==> errs[k] == old(errs[k])
    {
      errs[errCount % MaxStringCount] := s;
      SlotsAfterStore(history, s);
      errCount := errCount + 1;
      history := history + [s];
    }

    /** `print_err`. */
    method PrintErr(f: Fault)
      requires Valid()
      modifies this`errCount, this`history, this`out, errs
      ensures Valid()
      ensures out == old(out) + Report(f, printErr)
      ensures history == old(history) + Logged(f, printErr)
    {
      if printErr {
        if f.severity == Silent {
          return;
        }
        out := out + Diagnostic(f);
      }
      StoreErr(f.msg);
    }

    /** `string_check`. */
    method CheckString(s: Option<string>, line: nat, sev: Severity, varName: string) returns (failed: bool)
      requires Valid()
      modifies this`errCount, this`history, this`out, errs
      ensures Valid()
      ensures var f := ErrorLog.StringCheck(s, line, sev, varName);
        failed == f.Some? && out == old(out) + ReportIf(f, printErr)
        && history == old(history) + LoggedIf(f, printErr)
    {
      if s.None? {
        PrintErr(Fault(varName + " is NULL", line, sev));
        return true;
      }
      if s.value == [] {
        PrintErr(Fault(varName + "is empty", line, sev));
        return true;
      }
      return false;
    }

    /** `arg_match`. */
    method ArgMatch(argc: int32, argv: Argv, q: Query) returns (r: int)
      requires Valid() && Readable(argc, argv)
      modifies this`errCount, this`history, this`out, errs
      ensures Valid()
      ensures var o := Matcher.ArgMatch(argc, argv, q);
        r == Code(o) && out == old(out) + ReportIf(OutcomeFault(o), printErr)
        && history == old(history) + LoggedIf(OutcomeFault(o), printErr)
    {
      if argc < 1 {
        PrintErr(Fault(ArgcMessage, 405, Error));
        return Failure;
      }
      if argv.None? {
        PrintErr(Fault(ArgvMessage, 410, Error));
        return Failure;
      }
      var bad := CheckString(argv.value[0], 412, Error, "argument value (argv)");
      if bad {
        return Failure;
      }
      assert HeadFault(argc, argv).None?;
      assert out == old(out) && history == old(history);
      var scan := FindArg(argv.value, argc, q);
      ghost var o := Matcher.ArgMatch(argc, argv, q);
      match scan
      case NullEntry(_) =>
        assert o == Failed(Fault(ExceedsMessage, 417, Error));
        PrintErr(Fault(ExceedsMessage, 417, Error));
        r := Failure;
      case Hit(i) =>
        assert o == Index(i);
        r := i;
      case NoHit =>
        assert o == Index(0);
        r := 0;
    }

    /** One literal loop of `help_handler_sub` (c/help_handler.h:465-476). */
    method LiteralLoop(words: seq<string>, argc: int32, argv: Argv) returns (r: int)
      requires Valid() && Readable(argc, argv)
      modifies this`errCount, this`history, this`out, errs
      ensures Valid()
      ensures var l := WordsFold(words, argc, argv);
        r == SubCode(l) && out == old(out) + ReportIf(LookupFault(l), printErr)
        && history == old(history) + LoggedIf(LookupFault(l), printErr)
    {
      r := 0;
      var k := 0;
      while k < |words|
        invariant 0 <= k <= |words| && Valid()
        invariant WordsFold(words[..k], argc, argv) == Result(r)
        invariant out == old(out) && history == old(history)
      {
        ghost var o := Matcher.ArgMatch(argc, argv, ByWord(words[k]));
        var res := ArgMatch(argc, argv, ByWord(words[k]));
        assert words[..k + 1][..k] == words[..k];
        assert WordsFold(words[..k + 1], argc, argv) == WordStep(r, words[k], argc, argv);
        if IsErr(res) {
          AbortSticks(words, k + 1, argc, argv);
          return res;
        }
        assert o.Index? && out == old(out) && history == old(history);
        if res > 0 {
          r := res;
        }
        k := k + 1;
      }
      assert words[..k] == words;
    }

    /** The regex branch of `help_handler_sub` (c/help_handler.h:480-495). */
    method PatternLookup(extra: bool, argc: int32, argv: Argv) returns (r: int)
      requires Valid() && Readable(argc, argv)
      modifies this`errCount, this`history, this`out, errs
      ensures Valid()
      ensures var l := PatternSub(extra, argc, argv);
        r == SubCode(l) && out == old(out) + ReportIf(LookupFault(l), printErr)
        && history == old(history) + LoggedIf(LookupFault(l), printErr)
    {
      ghost var oh := Matcher.ArgMatch(argc, argv, ByPattern(Help, extra));
      var help := ArgMatch(argc, argv, ByPattern(Help, extra));
      if IsErr(help) {
        return help;
      }
      assert oh == Index(help) && out == old(out) && history == old(history);
      var ver := ArgMatch(argc, argv, ByPattern(Version, extra));
      if IsErr(ver) {
        return ver;
      }
      r := ReturnResult(help, ver);
    }

    /** The literal branch of `help_handler_sub` (c/help_handler.h:443-479),
        with the two loops one after the other. */
    method LiteralLookup(extra: bool, argc: int32, argv: Argv) returns (r: int)
      requires Valid() && Readable(argc, argv)
      modifies this`errCount, this`history, this`out, errs
      ensures Valid()
      ensures var l := LiteralSub(extra, argc, argv);
        r == SubCode(l) && out == old(out) + ReportIf(LookupFault(l), printErr)
        && history == old(history) + LoggedIf(LookupFault(l), printErr)
    {
      ghost var lh := WordsFold(Enabled(HelpLex, extra), argc, argv);
      var help := LiteralLoop(Enabled(HelpLex, extra), argc, argv);
      if IsErr(help) {
        return help;
      }
      assert lh == Result(help) && out == old(out) && history == old(history);
      var ver := LiteralLoop(Enabled(VerLex, extra), argc, argv);
      if IsErr(ver) {
        return ver;
      }
      r := ReturnResult(help, ver);
    }

    /** `help_handler_sub`. */
    method HelpHandlerSub(argc: int32, argv: Argv) returns (r: int)
      requires Valid() && Readable(argc, argv)
      modifies this`errCount, this`history, this`out, errs
      ensures Valid()
      ensures var l := Sub(regexSupport, options.extraStrings, argc, argv);
        r == SubCode(l)
        && out == old(out) + ReportIf(LookupFault(l), printErr) + Notice(options, argc, l)
        && history == old(history) + LoggedIf(LookupFault(l), printErr)
    {
      ghost var l := Sub(regexSupport, options.extraStrings, argc, argv);
      if regexSupport {
        r := PatternLookup(options.extraStrings, argc, argv);
      } else {
        r := LiteralLookup(options.extraStrings, argc, argv);
      }
      if r != 0 {
        assert Notice(options, argc, l) == [];
        return r;
      }
      assert l == Result(0);
      PrintNotice(argc);
      return Success;
    }

    /** The notice of c/help_handler.h:498-505 when nothing was asked for. */
    method PrintNotice(argc: int32)
      modifies this`out
      ensures out == old(out) + Notice(options, argc, Result(0))
    {
      if options.unknownArgHelp && argc > 1 {
        if argc > 2 {
          out := out + "Unknown arguments given\n";
        } else {
          out := out + "Unknown argument given\n";
        }
      }
    }

    /** `help_handler_s`, for a non-empty help text. */
    method HandleS(argc: int32, argv: Argv, help: string) returns (r: int)
      requires Valid() && Readable(argc, argv) && help != []
      modifies this`errCount, this`history, this`out, errs
      ensures Valid()
      ensures argc == 1 && options.noArgHelp ==>
        r == Success && out == old(out) + NoArgsText(info.name, help) && history == old(history)
      ensures !(argc == 1 && options.noArgHelp) ==>
        var l := Sub(regexSupport, options.extraStrings, argc, argv);
        r == (if l.Abort? then Failure else Success)
        && out == old(out) + ReportIf(LookupFault(l), printErr) + Notice(options, argc, l)
             + Dialog(l, info.name, VersionText(), help)
        && history == old(history) + LoggedIf(LookupFault(l), printErr)
    {
      if argc == 1 && options.noArgHelp {
        out := out + Named(info.name, " ") + help + "\n";
        return Success;
      }
      var result := HelpHandlerSub(argc, argv);
      if IsErr(result) {
        return result;
      }
      PrintDialog(result, help);
      return Success;
    }

    /** The output of `help_handler_s` for a dialog code
        (c/help_handler.h:694-710). */
    method PrintDialog(result: int, help: string)
      requires 0 <= result <= 2
      modifies this`out
      ensures out == old(out) + Dialog(Result(result), info.name, VersionText(), help)
    {
      var text: string;
      if result == DialogHelpVer {
        text := Named(info.name, " Version ") + VersionText() + "\n" + help;
      } else if result == DialogHelp {
        text := Named(info.name, " ") + help;
      } else {
        text := VersionText();
      }
      out := out + (text + "\n");
    }

    /** `help_handler_version_s`. An all-space version string is left out:
        `trim` would read before its start. */
    method VersionS(ver: Option<string>) returns (r: int)
      requires Valid()
      requires VersionFault(ver).None? ==> !Blank(ver.value)
      modifies this`info, this`verKind, this`errCount, this`history, this`out, errs
      ensures Valid()
      ensures var f := VersionFault(ver);
        out == old(out) + ReportIf(f, printErr) && history == old(history) + LoggedIf(f, printErr)
        && (f.Some? ==> r == Failure && info == old(info) && verKind == old(verKind))
        && (f.None? ==> r == Success && info == old(info).(verStr := Trimmed(ver.value)) && verKind == VersionStr)
    {
      var bad := CheckString(ver, 589, Error, "ver");
      if bad {
        return Failure;
      }
      assert out == old(out) && history == old(history);
      var v := ver.value;
      if |v| + 1 >= InfoLen {
        PrintErr(Fault("given version string is larger than allowed", 591, Error));
        return Failure;
      }
      var t := TrimCopy(v);
      info := info.(verStr := t);
      verKind := VersionStr;
      return Success;
    }

    /** `help_handler_version_i`. */
    method VersionI(ver: uint32)
      modifies this`info, this`verKind
      ensures info == old(info).(verInt := ver) && verKind == VersionInt
    {
      info := info.(verInt := ver);
      verKind := VersionInt;
    }

    /** `help_handler_version_d`. */
    method VersionD(ver: real)
      modifies this`info, this`verKind
      ensures info == old(info).(verDouble := ver) && verKind == VersionDouble
    {
      info := info.(verDouble := ver);
      verKind := VersionDouble;
    }

    /** `help_handler_name_s`. */
    method NameS(name: Option<string>) returns (r: int)
      requires Valid()
      requires NameFault(name).None? ==> !Blank(name.value)
      modifies this`info, this`errCount, this`history, this`out, errs
      ensures Valid()
      ensures var f := NameFault(name);
        out == old(out) + ReportIf(f, printErr) && history == old(history) + LoggedIf(f, printErr)
        && (f.Some? ==> r == Failure && info == old(info))
        && (f.None? ==> r == Success && info == old(info).(name := Trimmed(name.value)))
    {
      var bad := CheckString(name, 617, Error, "app_name");
      if bad {
        return Failure;
      }
      assert out == old(out) && history == old(history);
      var s := name.value;
      if |s| + 1 >= InfoLen {
        PrintErr(Fault("given app name is larger than allowed", 619, Error));
        return Failure;
      }
      var t := TrimCopy(s);
      info := info.(name := t);
      return Success;
    }

    /** `help_handler_info_s`: the version first; the name only if that
        succeeded. */
    method InfoS(name: Option<string>, ver: Option<string>) returns (r: int)
      requires Valid()
      requires VersionFault(ver).None? ==> !Blank(ver.value)
      requires VersionFault(ver).None? && NameFault(name).None? ==> !Blank(name.value)
      modifies this`info, this`verKind, this`errCount, this`history, this`out, errs
      ensures Valid()
      ensures var vf := VersionFault(ver);
        var f := if vf.Some? then vf else NameFault(name);
        out == old(out) + ReportIf(f, printErr) && history == old(history) + LoggedIf(f, printErr)
        && (vf.Some? ==> r == Failure && info == old(info) && verKind == old(verKind))
        && (vf.None? ==> verKind == VersionStr && info.verStr == Trimmed(ver.value))
        && (vf.None? && f.Some? ==> r == Failure && info == old(info).(verStr := Trimmed(ver.value)))
        && (f.None? ==>
              r == Success && info == old(info).(verStr := Trimmed(ver.value), name := Trimmed(name.value)))
    {
      r := VersionS(ver);
      if IsErr(r) {
        return r;
      }
      assert VersionFault(ver).None? && out == old(out) && history == old(history);
      r := NameS(name);
    }

    /** `help_handler_info_i`: it calls `help_handler_version_d`
        (c/help_handler.h:652), so the double version becomes active and the
        integer field is left alone. */
    method InfoI(name: Option<string>, ver: uint32) returns (r: int)
      requires Valid()
      requires NameFault(name).None? ==> !Blank(name.value)
      modifies this`info, this`verKind, this`errCount, this`history, this`out, errs
      ensures Valid()
      ensures var f := NameFault(name);
        out == old(out) + ReportIf(f, printErr) && history == old(history) + LoggedIf(f, printErr)
        && verKind == VersionDouble && info.verDouble == ver as real && info.verInt == old(info).verInt
        && (f.Some? ==> r == Failure && info == old(info).(verDouble := ver as real))
        && (f.None? ==> r == Success && info == old(info).(verDouble := ver as real, name := Trimmed(name.value)))
    {
      VersionD(ver as real);
      r := NameS(name);
    }

    /** `help_handler_info_d`. */
    method InfoD(name: Option<string>, ver: real) returns (r: int)
      requires Valid()
      requires NameFault(name).None? ==> !Blank(name.value)
      modifies this`info, this`verKind, this`errCount, this`history, this`out, errs
      ensures Valid()
      ensures var f := NameFault(name);
        out == old(out) + ReportIf(f, printErr) && history == old(history) + LoggedIf(f, printErr)
        && verKind == VersionDouble
        && (f.Some? ==> r == Failure && info == old(info).(verDouble := ver))
        && (f.None? ==> r == Success && info == old(info).(verDouble := ver, name := Trimmed(name.value)))
    {
      VersionD(ver);
      r := NameS(name);
    }

    /** `help_handler_pipe_s`: a failed check is only a warning. */
    method PipeS(p: Option<string>)
      requires Valid()
      modifies this`outputPipe, this`errCount, this`history, this`out, errs
      ensures Valid()
      ensures var f := ErrorLog.StringCheck(p, 548, Warning, "output_pipe");
        out == old(out) + ReportIf(f, printErr) && history == old(history) + LoggedIf(f, printErr)
        && (f.Some? ==> outputPipe == old(outputPipe))
        && (f.None? ==> outputPipe == PipeFromName(p.value))
    {
      var bad := CheckString(p, 548, Warning, "output_pipe");
      if bad {
        return;
      }
      assert out == old(out) && history == old(history);
      outputPipe := PipeFromName(p.value);
    }

    /** `help_handler_pipe_i`: anything but 1 and 2 selects the default. */
    method PipeI(p: int32)
      modifies this`outputPipe
      ensures outputPipe == if p == 1 || p == 2 then p as int else 0
    {
      if p == 1 {
        outputPipe := 1;
      } else if p == 2 {
        outputPipe := 2;
      } else {
        outputPipe := 0;
      }
    }

    /** `help_handler_config`. */
    method Config(extraStrings: bool, noArgHelp: bool, unknownArgHelp: bool)
      modifies this`options
      ensures options == Options(noArgHelp, extraStrings, unknownArgHelp)
    {
      options := Options(noArgHelp, extraStrings, unknownArgHelp);
    }

    /** `help_handler_disable_err`: it stores its argument as it is, so
        passing true keeps error output on. */
    method DisableErr(disableErrorOutput: bool)
      modifies this`printErr
      ensures printErr == disableErrorOutput
    {
      printErr := disableErrorOutput;
    }

    /** `help_handler_print_err`, while no slot has been reused. */
    method PrintErrors()
      requires Valid() && errCount <= MaxStringCount
      modifies this`out
      ensures out == old(out) + Listing(history)
    {
      SlotsPrefix(history);
      assert errs[..errCount] == history;
      ListSlots(errCount);
    }

    /** The loop of c/help_handler.h:529-532 over the first `n` slots. */
    method ListSlots(n: nat)
      requires n <= errs.Length
      modifies this`out
      ensures out == old(out) + Listing(errs[..n])
    {
      var i := 0;
      while i < n
        invariant 0 <= i <= n
        invariant out == old(out) + Listing(errs[..i])
      {
        ListingSnoc(errs[..i], errs[i]);
        assert errs[..i + 1] == errs[..i] + [errs[i]];
        out := out + Entry(errs[i]);
        i := i + 1;
      }
    }
  }
}
