/** `arg_match` (c/help_handler.h:394-440): check the `argc`/`argv` contract,
    then return the first index from 1 whose argument is accepted, by one of
    the fixed regular expressions or by one literal spelling. */
module Matcher {
  import opened CLib
  import opened ErrorLog
  import opened Patterns

  datatype Family = Help | Version

  /** What one `arg_match` call looks for: a `regex_string` (one of the
      patterns of c/help_handler.h:484-488, chosen by family and by whether
      extra strings are on) or a `fallback_string` compared with `strcasecmp`. */
  datatype Query = ByPattern(family: Family, extra: bool) | ByWord(word: string)

  predicate Accepts(q: Query, arg: string) {
    match q
    case ByPattern(Help, extra) => HelpLike(extra, arg)
    case ByPattern(Version, extra) => VersionLike(extra, arg)
    case ByWord(w) => SameIgnoringCase(arg, w)
  }

  /** `char** argv`: NULL, or an array of possibly-NULL strings. */
  type Argv = Option<seq<Option<string>>>

  /** The entries `arg_match` may read exist: `argv[i]` for every `i < argc`
      (a too-large `argc` is caught at the NULL that ends a real `argv`). */
  predicate Readable(argc: int32, argv: Argv) {
    argv.Some? ==> argc as int <= |argv.value|
  }

  /** How the loop of c/help_handler.h:415-437 ends. */
  datatype Scan = Hit(index: nat) | NullEntry(index: nat) | NoHit

  /** The loop from index `i` on. */
  function ScanFrom(args: seq<Option<string>>, argc: int32, q: Query, i: nat): (r: Scan)
    requires argc as int <= |args|
    ensures r.Hit? ==> i <= r.index < argc as int && args[r.index].Some? && Accepts(q, args[r.index].value)
    ensures r.NullEntry? ==> i <= r.index < argc as int && args[r.index].None?
    decreases argc as int - i
  {
    if i >= argc as int then NoHit
    else if args[i].None? then NullEntry(i)
    else if Accepts(q, args[i].value) then Hit(i)
    else ScanFrom(args, argc, q, i + 1)
  }

  /** Every entry in `from..to` is present and not accepted. */
  predicate NoneAccepted(args: seq<Option<string>>, q: Query, from: nat, to: nat)
    requires to <= |args|
  {
    forall j :: from <= j < to ==> args[j].Some? && !Accepts(q, args[j].value)
  }

  /** The loop stops at the first entry that is NULL or accepted. */
  lemma {:induction false} ScanFromSpec(args: seq<Option<string>>, argc: int32, q: Query, i: nat)
    requires argc as int <= |args|
    ensures var r := ScanFrom(args, argc, q, i);
      (r.Hit? ==>
         i <= r.index < argc as int && args[r.index].Some?
         && Accepts(q, args[r.index].value) && NoneAccepted(args, q, i, r.index))
      && (r.NullEntry? ==>
         i <= r.index < argc as int && args[r.index].None? && NoneAccepted(args, q, i, r.index))
      && (r.NoHit? <==> (i < argc as int ==> NoneAccepted(args, q, i, argc as nat)))
    decreases argc as int - i
  {
    if i < argc as int && args[i].Some? && !Accepts(q, args[i].value) {
      ScanFromSpec(args, argc, q, i + 1);
    }
  }

  /** The loop itself, with its early returns. */
  method FindArg(args: seq<Option<string>>, argc: int32, q: Query) returns (r: Scan)
    requires argc as int <= |args|
    ensures r == ScanFrom(args, argc, q, 1)
  {
    var i: nat := 1;
    while i < argc as int
      invariant ScanFrom(args, argc, q, i) == ScanFrom(args, argc, q, 1)
      decreases argc as int - i
    {
      if args[i].None? {
        return NullEntry(i);
      }
      if Accepts(q, args[i].value) {
        return Hit(i);
      }
      i := i + 1;
    }
    return NoHit;
  }

  const ArgcMessage: string := "argument count (argc) is 0 or less (should always be at least 1).."
  const ArgvMessage: string := "argument value (argv) is NULL"
  const ExceedsMessage: string := "argument count (argc) exceeds actual number of arguments"

  /** The checks before the loop (c/help_handler.h:398-413). */
  function HeadFault(argc: int32, argv: Argv): (r: Option<Fault>)
    requires Readable(argc, argv)
    ensures r.None? <==> argc >= 1 && argv.Some? && argv.value[0].Some? && argv.value[0].value != []
    ensures r.Some? ==> r.value.severity == Error
  {
    if argc < 1 then Some(Fault(ArgcMessage, 405, Error))
    else if argv.None? then Some(Fault(ArgvMessage, 410, Error))
    else StringCheck(argv.value[0], 412, Error, "argument value (argv)")
  }

  /** What `arg_match` returns: a fault it reported (and the caller sees -1)
      or an index, 0 meaning no match. */
  datatype Outcome = Failed(fault: Fault) | Index(i: nat)

  function ArgMatch(argc: int32, argv: Argv, q: Query): (r: Outcome)
    requires Readable(argc, argv)
    ensures r.Failed? ==> r.fault.severity == Error
    ensures r.Index? ==> HeadOk(argc, argv) && r.i < argc as int
    ensures r.Index? && r.i > 0 ==> argv.value[r.i].Some? && Accepts(q, argv.value[r.i].value)
  {
    var head := HeadFault(argc, argv);
    if head.Some? then Failed(head.value)
    else match ScanFrom(argv.value, argc, q, 1)
      case Hit(i) => Index(i)
      case NullEntry(_) => Failed(Fault(ExceedsMessage, 417, Error))
      case NoHit => Index(0)
  }

  /** The fault `arg_match` reported, if any. */
  function OutcomeFault(o: Outcome): Option<Fault> {
    if o.Failed? then Some(o.fault) else None
  }

  /** The return value of `arg_match`. */
  function Code(o: Outcome): int {
    if o.Failed? then -1 else o.i
  }

  /** `argv[0]` is a non-empty string, `argc >= 1`. */
  predicate HeadOk(argc: int32, argv: Argv) {
    argc >= 1 && argv.Some? && 1 <= |argv.value| && argv.value[0].Some? && argv.value[0].value != []
  }

  /** The contract of `arg_match`: -1 exactly when the head checks fail or a
      NULL entry comes before any accepted one; otherwise 0 when nothing is
      accepted, else the smallest accepted index, never 0. */
  lemma ArgMatchContract(argc: int32, argv: Argv, q: Query)
    requires Readable(argc, argv)
    ensures var o := ArgMatch(argc, argv, q);
      (o.Failed? <==>
        (!HeadOk(argc, argv) ||
         exists i :: 1 <= i < argc as int && argv.value[i].None? && NoneAccepted(argv.value, q, 1, i)))
      && (o.Failed? ==> o.fault.severity == Error)
      && (o == Index(0) <==> HeadOk(argc, argv) && NoneAccepted(argv.value, q, 1, argc as nat))
      && (o.Index? && o.i != 0 ==>
        HeadOk(argc, argv) && 1 <= o.i < argc as int
        && argv.value[o.i].Some? && Accepts(q, argv.value[o.i].value)
        && NoneAccepted(argv.value, q, 1, o.i))
  {
    if HeadOk(argc, argv) {
      var args := argv.value;
      ScanFromSpec(args, argc, q, 1);
      var r := ScanFrom(args, argc, q, 1);
      if r.NullEntry? {
        assert 1 <= r.index < argc as int && args[r.index].None? && NoneAccepted(args, q, 1, r.index);
      }
    }
  }

  /** Every argument from 1 to `argc - 1` is present. */
  predicate WellFormed(argc: int32, argv: Argv) {
    HeadOk(argc, argv) && argc as int <= |argv.value|
    && forall i :: 1 <= i < argc as int ==> argv.value[i].Some?
  }

  /** On a well-formed `argv`, accepted at some index iff the result is
      positive. */
  lemma FoundIffAccepted(argc: int32, argv: Argv, q: Query)
    requires WellFormed(argc, argv)
    ensures ArgMatch(argc, argv, q).Index?
    ensures ArgMatch(argc, argv, q).i > 0 <==>
      exists i :: 1 <= i < argc as int && Accepts(q, argv.value[i].value)
  {
    var args := argv.value;
    ScanFromSpec(args, argc, q, 1);
    var r := ScanFrom(args, argc, q, 1);
    if r.Hit? {
      assert Accepts(q, args[r.index].value);
    } else if r.NoHit? {
      assert NoneAccepted(args, q, 1, argc as nat);
    }
  }
}
