/** The error log of c/help_handler.h: `print_err` writes a diagnostic and
    `store_err` copies the message into a ring of 32 slots of 64 bytes
    (c/help_handler.h:135-141, 237-289). The slots themselves live in
    `Handler.HelpHandler`; this module holds the values and texts. */
module ErrorLog {
  import opened CLib

  const MaxStringLen: nat := 64
  const MaxStringCount: nat := 32
  const FuncName: string := "help_handler"

  /** `enum errTypes`. */
  datatype Severity = Silent | Warning | Error

  /** One `print_err` call: the message, the source line it reports and its
      severity. */
  datatype Fault = Fault(msg: string, line: nat, severity: Severity)

  const WarnAdvice: string :=
    ". Call help_handler_disable_err() or define HELP_HANDLER_IGNORE_WARN to ignore this warning"
  const ErrAdvice: string :=
    ". Call help_handler_disable_err() or define HELP_HANDLER_IGNORE_ERR to ignore this error"

  /** "help_handler:<line>": the part every diagnostic starts with. */
  function Header(line: nat): string {
    FuncName + ":" + NatDigits(line)
  }

  /** The text `print_err` writes when error output is on. */
  function Diagnostic(f: Fault): (r: string)
    ensures f.severity == Silent <==> r == []
    ensures f.severity != Silent ==> Header(f.line) <= r && r[|r| - 1] == '\n'
  {
    match f.severity
    case Silent => ""
    case Warning => Header(f.line) + (" warning: " + f.msg + WarnAdvice + "\n")
    case Error => Header(f.line) + (" error: " + f.msg + ErrAdvice + "\n")
  }

  /** The line number printed after "help_handler:" reads back as the line,
      and a space follows it. */
  lemma DiagnosticLine(f: Fault)
    requires f.severity != Silent
    ensures var d := Diagnostic(f); var n := |FuncName| + 1 + |NatDigits(f.line)|;
      n < |d| && DigitsValue(d[|FuncName| + 1..n]) == f.line && d[n] == ' '
  {
    var d := Diagnostic(f);
    var digits := NatDigits(f.line);
    var h := Header(f.line);
    var tail := d[|h|..];
    assert d == h + tail;
    assert tail[0] == ' ';
    assert h[|FuncName| + 1..] == digits;
    assert d[|FuncName| + 1..|h|] == digits;
    DigitsRoundTrip(f.line);
  }

  /** What `print_err` writes: nothing at all while error output is off. */
  function Report(f: Fault, printErr: bool): (r: string)
    ensures !printErr ==> r == []
    ensures printErr ==> r == Diagnostic(f)
  {
    if printErr then Diagnostic(f) else ""
  }

  /** What `print_err` appends to the log: with error output on, a silent
      fault returns before `store_err` (c/help_handler.h:245-246). */
  function Logged(f: Fault, printErr: bool): (r: seq<string>)
    ensures |r| <= 1
    ensures r == [] <==> printErr && f.severity == Silent
    ensures r != [] ==> r[0] == f.msg
  {
    if printErr && f.severity == Silent then [] else [f.msg]
  }

  /** `Report` and `Logged` of a fault that may not have happened. */
  function ReportIf(f: Option<Fault>, printErr: bool): string {
    if f.None? then "" else Report(f.value, printErr)
  }

  function LoggedIf(f: Option<Fault>, printErr: bool): seq<string> {
    if f.None? then [] else Logged(f.value, printErr)
  }

  /** A warning or an error is always logged, whatever `printErr` is. */
  lemma LoudFaultsLogged(f: Fault, printErr: bool)
    requires f.severity != Silent
    ensures Logged(f, printErr) == [f.msg]
  {
  }

  /** `string_check`: the fault for a NULL or empty string, if any. Note the
      missing space in "is empty" (c/help_handler.h:284). */
  function StringCheck(s: Option<string>, line: nat, sev: Severity, varName: string): (r: Option<Fault>)
    ensures r.None? <==> s.Some? && s.value != []
    ensures r.Some? ==> r.value.line == line && r.value.severity == sev
    ensures r.Some? ==> |r.value.msg| > |varName| && r.value.msg[..|varName|] == varName
  {
    if s.None? then Some(Fault(varName + " is NULL", line, sev))
    else if s.value == [] then Some(Fault(varName + "is empty", line, sev))
    else None
  }

  /** The 32 slots of `errs` after storing `h` in order into initially
      empty slots. */
  function Slots(h: seq<string>): (r: seq<string>)
    ensures |r| == MaxStringCount
  {
    if h == [] then seq(MaxStringCount, _ => "")
    else Slots(h[..|h| - 1])[(|h| - 1) % MaxStringCount := h[|h| - 1]]
  }

  /** `store_err` overwrites exactly slot `|h| % 32`. */
  lemma SlotsAfterStore(h: seq<string>, s: string)
    ensures Slots(h + [s]) == Slots(h)[|h| % MaxStringCount := s]
  {
    assert (h + [s])[..|h|] == h;
  }

  /** The last 32 messages are all still in their slots. */
  lemma {:induction false} RecentRetained(h: seq<string>, j: nat)
    requires |h| - MaxStringCount <= j < |h|
    ensures Slots(h)[j % MaxStringCount] == h[j]
  {
    if j != |h| - 1 {
      var p := h[..|h| - 1];
      assert (|h| - 1) % MaxStringCount != j % MaxStringCount;
      RecentRetained(p, j);
      assert p[j] == h[j];
    }
  }

  /** While no slot has been reused, the slots start with the messages in
      order. */
  lemma {:induction false} SlotsPrefix(h: seq<string>)
    requires |h| <= MaxStringCount
    ensures Slots(h)[..|h|] == h
  {
    forall k | 0 <= k < |h|
      ensures Slots(h)[k] == h[k]
    {
      RecentRetained(h, k);
      assert k % MaxStringCount == k;
    }
  }

  /** A message more than 32 calls old is gone from its slot: the slot holds
      the newest message with the same index mod 32. */
  lemma Overwritten(h: seq<string>, j: nat)
    requires j + MaxStringCount < |h|
    ensures Slots(h)[j % MaxStringCount] == h[j + MaxStringCount * ((|h| - 1 - j) / MaxStringCount)]
  {
    var d := |h| - 1 - j;
    var q := d / MaxStringCount;
    assert d == MaxStringCount * q + d % MaxStringCount;
    var m := j + MaxStringCount * q;
    SameSlot(j, q);
    RecentRetained(h, m);
  }

  /** Indices `q` rounds of 32 apart share a slot. */
  lemma {:induction false} SameSlot(j: nat, q: nat)
    ensures (j + MaxStringCount * q) % MaxStringCount == j % MaxStringCount
  {
    if q > 0 {
      SameSlot(j, q - 1);
      assert j + MaxStringCount * q == (j + MaxStringCount * (q - 1)) + MaxStringCount;
    }
  }

  /** A slot no message reached yet is still empty. */
  lemma {:induction false} UnwrittenEmpty(h: seq<string>, k: nat)
    requires |h| <= k < MaxStringCount
    ensures Slots(h)[k] == ""
  {
    if h != [] {
      assert (|h| - 1) % MaxStringCount == |h| - 1;
      UnwrittenEmpty(h[..|h| - 1], k);
    }
  }

  /** `strcpy` into a 64-byte slot needs the message and its terminator
      to fit. */
  predicate FitsSlot(msg: string) {
    |msg| < MaxStringLen
  }

  /** The argc message of c/help_handler.h:405 is 66 characters long and
      overruns its slot. */
  lemma ArgcMessageOverruns()
    ensures !FitsSlot("argument count (argc) is 0 or less (should always be at least 1)..")
  {
  }

  /** `help_handler_print_err` with at most 32 messages logged: each one
      prefixed by "help_handler ERROR ", without a newline. */
  function Listing(h: seq<string>): string {
    if h == [] then "" else Entry(h[0]) + Listing(h[1..])
  }

  function Entry(msg: string): string {
    FuncName + " ERROR " + msg
  }

  function SumLengths(h: seq<string>): nat {
    if h == [] then 0 else |h[0]| + SumLengths(h[1..])
  }

  /** Each message adds its own length and the 19 characters of
      "help_handler ERROR ". */
  lemma {:induction false} ListingLength(h: seq<string>)
    ensures |Listing(h)| == 19 * |h| + SumLengths(h)
  {
    if h != [] {
      ListingLength(h[1..]);
    }
  }

  /** The listing of two runs of messages is the two listings one after
      the other. */
  lemma {:induction false} ListingAppend(h1: seq<string>, h2: seq<string>)
    ensures Listing(h1 + h2) == Listing(h1) + Listing(h2)
  {
    if h1 != [] {
      assert (h1 + h2)[1..] == h1[1..] + h2;
      ListingAppend(h1[1..], h2);
    } else {
      assert h1 + h2 == h2;
    }
  }

  /** Listing one more message extends the listing by its entry. */
  lemma ListingSnoc(h: seq<string>, s: string)
    ensures Listing(h + [s]) == Listing(h) + Entry(s)
  {
    ListingAppend(h, [s]);
    assert Listing([s]) == Entry(s) + Listing([]);
  }
}
