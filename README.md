# help_handler in Dafny

A model of the single-header C library `help_handler.h`. A program passes the
library its `argc`/`argv`. The library decides whether the arguments ask for
help, for the version, or for both, and prints the configured name, version
and usage text.

The header's globals (`options_t`, `info_t`, `most_recent_t.ver`,
`outputPipe`, `printErr`, `errs`, `errCount`) are the fields of one class,
`Handler.HelpHandler`. The functions that read or change the globals are its
members. Everything the library writes to stdout or stderr is appended to
one string field, `out`.

Modules, in dependency order:

- `CLib` (clib.dfy): NULL-able strings, the 32-bit `int` and `unsigned int`
  ranges, `isspace` and `strcasecmp` in the C locale, and `printf("%d")`.
- `Trimming` (trim.dfy): `trim`, as a function on strings and as the C
  loops over a `char` array.
- `Patterns` (patterns.dfy): the two POSIX extended regular expressions, as
  hand-written predicates over chains of letters. This is not a general
  regular-expression engine. Lemmas reduce each expression to a plain
  description, such as "contains `h e+ l+ p`, ignoring case".
- `Lexicon` (lexicon.dfy): the literal spelling lists used when there is no
  regex support.
- `ErrorLog` (errorlog.dfy): severities, the diagnostic text of `print_err`,
  and the 32-slot ring of stored messages as a function of message history.
- `Matcher` (argmatch.dfy): `arg_match`, as a function and as its loop.
- `Dispatch` (dispatch.dfy): `return_result`, `help_handler_sub` and the text
  `help_handler_s` prints, all as values.
- `Handler` (handler.dfy): the class holding the state, with all setters and
  entry points as methods. Each method is proved against the functions
  above.

Behaviour kept exactly as the code has it:

- `print_err` with error output on and a `silent` fault returns before
  `store_err`. So that message is not logged (`ErrorLog.Logged`). Warnings
  and errors are always logged.
- `dialogHelpVer` is 0, the same value as "nothing matched". Asking for both
  help and version therefore gives the same result as asking for neither.
  `help_handler_s` prints the help-and-version block in both cases and, when
  unknown-argument help is on, the notice is printed as well
  (`Dispatch.BothLooksLikeNeither` for the lookup; `Handler.HelpHandler.HandleS`,
  `Dispatch.Notice` and `Dispatch.Dialog` for the text).
- `help_handler_info_i` calls `help_handler_version_d`. The double version
  becomes active, and `ver_int` is left alone (`Handler.HelpHandler.InfoI`).
- `help_handler_disable_err(b)` stores `b` as given, so `true` keeps error
  output on (`Handler.HelpHandler.DisableErr`).
- The empty-string message of `string_check` has no space before "is
  empty": it is the variable name followed directly by "is empty", for
  example "veris empty" (`ErrorLog.StringCheck`).
- `%d` is applied to the `unsigned int` version, so values from 2^31 up print
  as negative numbers (`CLib.PercentD`).
- The message at c/help_handler.h:405 is 66 characters long. It does not fit
  a 64-byte slot (`ErrorLog.ArgcMessageOverruns`). The model stores messages
  as whole strings.

The literal branch of `help_handler_sub` does not compile as written (see
"## Left out"). The model implements what it evidently intends: a help loop
over the enabled `help_lex` entries, then a version loop over the enabled
`ver_lex` entries. Each loop starts from 0, keeps the last positive index,
and returns the first fault.

## Model

| member | source | states |
|---|---|---|
| CLib.SameIgnoringCase | c/help_handler.h:558-564 | `strcasecmp(a, b) == 0`: equal lengths and equal characters after folding ASCII capitals |
| CLib.IsSpace | c/help_handler.h:336 | `isspace` in the C locale: space, and tab through carriage return |
| CLib.NatDigits | c/help_handler.h:212-224 | the decimal digits `print_pipe_i` writes for a non-negative number: at least one, all digits, no leading zero |
| CLib.DigitsRoundTrip | c/help_handler.h:212-224 | reading the printed digits back gives the number again |
| CLib.PercentD | c/help_handler.h:368-372 | `%d` of the unsigned `ver_int`: the digits below 2^31, otherwise "-" and the digits of 2^32 minus the value |
| CLib.LargestUnsignedPrintsMinusOne | c/help_handler.h:368-372 | the largest unsigned version prints as "-1" |
| Trimming.LeadCount | c/help_handler.h:336 | the forward scan stops at the first non-space; everything before it is space |
| Trimming.TrailCount | c/help_handler.h:338-340 | the backward scan stops at the last non-space; everything after it is space |
| Trimming.Trimmed | c/help_handler.h:330-351 | the trimmed text is a non-empty contiguous piece of the input: blank before it, blank after it, and it starts and ends with a non-space |
| Trimming.TrimmedIdempotent | c/help_handler.h:330-351 | trimming a trimmed string changes nothing |
| Trimming.MemCopy | c/help_handler.h:346 | `memcpy`: the first `n` cells get the source's first `n` characters; the rest of the buffer is unchanged |
| Trimming.SkipLeading | c/help_handler.h:336 | the forward loop ends at `LeadCount` |
| Trimming.SkipTrailing | c/help_handler.h:338-340 | the backward loop, stopped by the first non-space, ends one past the last non-space |
| Trimming.CopyBounded | c/help_handler.h:343-347 | copies the smaller of the length and `len - 1` characters, then writes the terminator after them; the rest of the buffer is unchanged |
| Trimming.Trim | c/help_handler.h:330-351 | `trim` writes the trimmed input, cut to `len - 1` characters and terminated, and returns its length |
| Patterns.Match | c/help_handler.h:320 | a chain of letters, each once, `x{0,}` or `x{1,}`, matches a prefix of the argument after case folding; the whole argument when the alternative ends in `$` |
| Patterns.Search | c/help_handler.h:320 | `regexec` of an unanchored alternative: some suffix of the argument starts with a match |
| Patterns.HelpLike | c/help_handler.h:484-487 | the help expression: `-{0,}h{1,}e{1,}l{1,}p{1,}(.*)`, and with extra strings also `-{0,}h{1,}$` |
| Patterns.VersionLike | c/help_handler.h:485-488 | the version expression: `-{0,}v{1,}e{1,}r{1,}s{0,}i{0,}o{0,}n{0,}(.*)`, and with extra strings also `^-{0,}v$` |
| Patterns.HelpWordMeans | c/help_handler.h:484 | `-{0,}h{1,}e{1,}l{1,}p{1,}(.*)` finds a match iff the argument contains `h e+ l+ p`, ignoring case |
| Patterns.HelpEndMeans | c/help_handler.h:484 | `-{0,}h{1,}$` finds a match iff the argument's last character is `h` or `H` |
| Patterns.VersionWordMeans | c/help_handler.h:485 | `-{0,}v{1,}e{1,}r{1,}s{0,}i{0,}o{0,}n{0,}(.*)` finds a match iff the argument contains `v e+ r`, ignoring case |
| Patterns.VersionAloneMeans | c/help_handler.h:485 | `^-{0,}v$` matches iff the argument is some dashes followed by one `v` or `V` |
| Patterns.HelpLikeMeans | c/help_handler.h:484-487 | help-like iff it contains `h e+ l+ p`, or (extra strings only) it ends in `h` |
| Patterns.VersionLikeMeans | c/help_handler.h:485-488 | version-like iff it contains `v e+ r`, or (extra strings only) it is dashes then `v` |
| Patterns.HelpUpperExample | c/help_handler.h:487 | "--HELP" is help-like without extra strings |
| Patterns.HelpDoubledExample | c/help_handler.h:487 | "heellp" is help-like without extra strings |
| Patterns.HelpShortForm | c/help_handler.h:484-487 | "h" is help-like only with extra strings |
| Patterns.HelpLastLetter | c/help_handler.h:484-487 | "bash" is help-like only with extra strings, because it ends in `h` |
| Patterns.VersionExamples | c/help_handler.h:488 | "--version", "ver" and "--verbose" are version-like without extra strings |
| Patterns.VersionShortForm | c/help_handler.h:485-488 | "v" and "--v" are version-like only with extra strings |
| Patterns.VersionRejectsDoubleV | c/help_handler.h:485 | "-vv" is not version-like even with extra strings |
| Lexicon.Enabled | c/help_handler.h:459-462 | with extra strings every entry is visited; without them, exactly the first three are dropped |
| Lexicon.ExtraStringsAddFirstThree | c/help_handler.h:445-462 | an argument is listed with extra strings iff it is listed without them or equals one of the first three entries, ignoring case |
| Lexicon.Listed | c/help_handler.h:445-462 | an argument is listed iff it equals, ignoring case, an entry of `help_lex` or `ver_lex` (the constants `HelpLex` and `VerLex`) that the loops visit |
| Lexicon.ShortFormsGone | c/help_handler.h:445-462 | without extra strings no argument of at most three characters is listed, so "h", "-h", "--h", "v", "-v" and "--v" no longer match |
| Lexicon.ExtraStringsAddHelpShortForms | c/help_handler.h:445-462 | for `help_lex` the three extra entries are "h", "-h" and "--h", and none of them is listed without extra strings |
| Lexicon.ExtraStringsAddVersionShortForms | c/help_handler.h:450-462 | for `ver_lex` the three extra entries are "v", "-v" and "--v", and none of them is listed without extra strings |
| Lexicon.HelpShortFormListed | c/help_handler.h:445-462 | "h" is not listed without extra strings; "H" is listed with them |
| Lexicon.VersionShortFormListed | c/help_handler.h:450-462 | "-v" is not listed without extra strings; "--V" is listed with them |
| ErrorLog.Diagnostic | c/help_handler.h:242-269 | the text of a warning or an error starts with "help_handler:" and the line number, and ends with a newline; a silent fault prints nothing |
| ErrorLog.DiagnosticLine | c/help_handler.h:247-249 | the digits after "help_handler:" read back as the reported line number, and a space follows them |
| ErrorLog.Report | c/help_handler.h:243-270 | nothing is printed while error output is off |
| ErrorLog.Logged | c/help_handler.h:244-272 | at most one message is stored, and it is the fault's own message; none exactly when error output is on and the fault is silent |
| ErrorLog.LoudFaultsLogged | c/help_handler.h:242-272 | a warning or an error is always stored, whatever `printErr` is |
| ErrorLog.StringCheck | c/help_handler.h:274-289 | a fault iff the string is NULL or empty; it keeps the line and severity, and its message starts with the variable name |
| ErrorLog.Slots | c/help_handler.h:237-240 | the ring always has 32 slots |
| ErrorLog.SlotsAfterStore | c/help_handler.h:237-240 | storing writes slot `errCount % 32` and no other slot |
| ErrorLog.RecentRetained | c/help_handler.h:237-240 | each of the last 32 messages is still in slot `index % 32` |
| ErrorLog.SlotsPrefix | c/help_handler.h:237-240 | with at most 32 messages, the first slots hold them in order |
| ErrorLog.Overwritten | c/help_handler.h:237-240 | after more than 32 calls an old message's slot holds the newest message with the same index mod 32 |
| ErrorLog.UnwrittenEmpty | c/help_handler.h:137 | a slot no message has reached is still empty |
| ErrorLog.ArgcMessageOverruns | c/help_handler.h:405 | the argc message does not fit a 64-byte slot |
| ErrorLog.Entry | c/help_handler.h:529-531 | one iteration of the listing loop: "help_handler ERROR " followed by the message |
| ErrorLog.Listing | c/help_handler.h:527-533 | the text `help_handler_print_err` prints: "help_handler ERROR " and the message for each stored message, oldest first, with no newline |
| ErrorLog.ListingLength | c/help_handler.h:527-533 | each listed message adds its own length plus the 19 characters of "help_handler ERROR " |
| ErrorLog.ListingAppend | c/help_handler.h:527-533 | the listing of two runs of messages is the two listings one after the other |
| ErrorLog.ListingSnoc | c/help_handler.h:527-533 | one more message extends the listing by its entry |
| Matcher.Accepts | c/help_handler.h:420-436 | the per-argument test: the help or version expression finds a match, or for a literal word `strcasecmp` gives 0 |
| Matcher.ScanFrom | c/help_handler.h:415-437 | the loop from index `i`: a hit is an accepted entry in range, a NULL entry is a NULL in range |
| Matcher.ScanFromSpec | c/help_handler.h:415-437 | the loop stops at the first NULL or accepted entry and reports which; when it reports no hit, no entry in range is accepted |
| Matcher.FindArg | c/help_handler.h:415-439 | the loop with its early returns computes `ScanFrom` from index 1 |
| Matcher.HeadFault | c/help_handler.h:398-413 | no fault iff `argc >= 1`, `argv` is not NULL and `argv[0]` is a non-empty string; every fault is an error |
| Matcher.ArgMatch | c/help_handler.h:394-440 | `arg_match` as a value: every fault is an error; an index needs the head checks to pass, is below `argc`, and when positive names an accepted argument |
| Matcher.ArgMatchContract | c/help_handler.h:394-440 | -1 iff the head checks fail or a NULL entry comes before any accepted one; 0 iff everything is present and none is accepted; otherwise the smallest accepted index, never 0 |
| Matcher.FoundIffAccepted | c/help_handler.h:394-440 | on a well-formed `argv` the result is an index, positive iff some argument is accepted |
| Dispatch.IsErr | c/help_handler.h:518-521 | `help_handler_is_err`: a code is an error iff it is negative |
| Dispatch.IsErrMeansAbort | c/help_handler.h:518-521 | on the value `help_handler_sub` computes before its notice, `help_handler_is_err` holds iff `arg_match` reported a fault |
| Dispatch.ReturnResult | c/help_handler.h:356-362 | help only gives 1, version only gives 2, anything else gives 0 (both found included) |
| Dispatch.WordStep | c/help_handler.h:466-470 | one step of a literal loop: a fault iff `arg_match` fails; otherwise the running result, or a new positive index below `argc` |
| Dispatch.WordsFold | c/help_handler.h:464-476 | a literal loop that finishes yields a non-negative index |
| Dispatch.WordsFoldMeans | c/help_handler.h:464-476 | on a well-formed `argv` a literal loop finishes, and finds something iff some argument equals one of its words, ignoring case |
| Dispatch.AbortSticks | c/help_handler.h:467-468 | a fault ends the loop: it stays the result whatever words follow |
| Dispatch.LiteralSub | c/help_handler.h:443-479 | the literal strategy: a dialog code in 0..2 iff neither loop reported a fault |
| Dispatch.PatternSub | c/help_handler.h:480-496 | the regex strategy: a dialog code in 0..2, or a fault, which is an error |
| Dispatch.Sub | c/help_handler.h:442-496 | a finished lookup yields one of the three dialog codes |
| Dispatch.Notice | c/help_handler.h:498-505 | a notice is printed iff the lookup gave 0, unknown-argument help is on and there are arguments |
| Dispatch.ListedMeansWordGiven | c/help_handler.h:445-476 | a literal loop's words are matched iff some argument is in the enabled list |
| Dispatch.SubMeans | c/help_handler.h:442-496 | on a well-formed `argv` each strategy returns `return_result` of "some argument asks for help" and "some argument asks for the version" |
| Dispatch.BothLooksLikeNeither | c/help_handler.h:356-362 | asking for both and asking for neither give the same lookup, `dialogHelpVer` |
| Dispatch.SubFaults | c/help_handler.h:398-413 | with a broken head, both strategies report the head fault |
| Dispatch.Named | c/help_handler.h:382-391 | `print_name` and its separator: nothing when no name is set |
| Dispatch.NoArgsText | c/help_handler.h:684-688 | the output with no arguments: the name and a space when one is set, the help text, and a newline |
| Dispatch.Dialog | c/help_handler.h:694-710 | the text for each code: name, " Version ", version, a newline, help and a newline for 0; name and help for 1; the version for 2; nothing after a fault |
| Dispatch.BothAndNeitherExample | c/help_handler.h:484-505 | "prog --HELP --version" and "prog foo bar" give the same lookup |
| Dispatch.NeitherFooNorBar | c/help_handler.h:484-488 | "foo" and "bar" are neither help-like nor version-like |
| Handler.SetterFault | c/help_handler.h:589-592 | the version setter (and the name setter, at lines 617-620) accepts its string iff it is non-NULL, non-empty and shorter than 511 characters; every fault is an error |
| Handler.PipeFromName | c/help_handler.h:550-565 | 1 iff the name is "stdout", 2 iff it is "stderr", ignoring case; 0 otherwise |
| Handler.TrimCopy | c/help_handler.h:594-595 | `trim` into a buffer one longer than the input yields the whole trimmed string |
| Handler.HelpHandler.constructor | c/help_handler.h:134-183 | the static initial values: default options, no name, "No version is available" as the active string version, default pipe, error output on, empty log |
| Handler.HelpHandler.VersionText | c/help_handler.h:364-380 | `print_ver`: the string version, `%d` of the integer version, or the formatted double, by which one is active |
| Handler.HelpHandler.StoreErr | c/help_handler.h:237-240 | `store_err` writes slot `errCount % 32`, leaves every other slot, and appends the message to the history |
| Handler.HelpHandler.PrintErr | c/help_handler.h:242-272 | `print_err` prints `Report` and stores `Logged` |
| Handler.HelpHandler.CheckString | c/help_handler.h:274-289 | `string_check` fails iff `StringCheck` reports a fault, and prints and logs exactly that fault |
| Handler.HelpHandler.ArgMatch | c/help_handler.h:394-440 | returns the code of `Matcher.ArgMatch`, and prints and logs exactly its fault |
| Handler.HelpHandler.LiteralLoop | c/help_handler.h:464-476 | one literal loop computes `WordsFold`, printing and logging only the fault that ends it |
| Handler.HelpHandler.PatternLookup | c/help_handler.h:480-496 | the regex branch computes `PatternSub` |
| Handler.HelpHandler.LiteralLookup | c/help_handler.h:443-479 | the literal branch computes `LiteralSub` |
| Handler.HelpHandler.HelpHandlerSub | c/help_handler.h:442-508 | `help_handler_sub` returns the code of `Sub`, then prints the fault, if any, and the notice |
| Handler.HelpHandler.PrintNotice | c/help_handler.h:498-505 | prints the notice for a lookup of 0 |
| Handler.HelpHandler.HandleS | c/help_handler.h:676-714 | with no arguments and no-arg help on, it prints name and help; otherwise -1 after a fault, else the `Sub` output followed by `Dialog` |
| Handler.HelpHandler.PrintDialog | c/help_handler.h:694-710 | prints `Dialog` for the code, with the active version text |
| Handler.HelpHandler.VersionS | c/help_handler.h:585-601 | after a fault: -1, version unchanged, the fault logged; otherwise the trimmed input becomes the active string version |
| Handler.HelpHandler.VersionI | c/help_handler.h:602-605 | stores the integer and makes it active |
| Handler.HelpHandler.VersionD | c/help_handler.h:606-609 | stores the double and makes it active |
| Handler.HelpHandler.NameS | c/help_handler.h:613-628 | after a fault: -1, name unchanged, the fault logged; otherwise the trimmed input becomes the name |
| Handler.HelpHandler.InfoS | c/help_handler.h:643-650 | the version first; the name only after the version is accepted; a rejected version leaves the name and version unchanged |
| Handler.HelpHandler.InfoI | c/help_handler.h:651-654 | makes the double version active with the integer's value, leaves `ver_int` alone, then sets the name |
| Handler.HelpHandler.InfoD | c/help_handler.h:655-658 | stores and activates the double version, then sets the name |
| Handler.HelpHandler.PipeS | c/help_handler.h:544-566 | a NULL or empty name is a warning and leaves the pipe unchanged; otherwise the pipe is `PipeFromName` |
| Handler.HelpHandler.PipeI | c/help_handler.h:568-576 | 1 and 2 are kept; anything else selects the default |
| Handler.HelpHandler.Config | c/help_handler.h:578-582 | sets the three options |
| Handler.HelpHandler.DisableErr | c/help_handler.h:523-525 | `printErr` becomes the argument as given |
| Handler.HelpHandler.PrintErrors | c/help_handler.h:527-533 | prints `Listing` of every stored message, oldest first |
| Handler.HelpHandler.ListSlots | c/help_handler.h:528-532 | the loop prints the entries of the first `n` slots in order |

## Left out

- Stream output (`print_pipe`, `print_pipe_i`, `print_pipe_w`, c/help_handler.h:200-235): everything goes to the one trace `out`. `outputPipe` is kept as a field that records the chosen stream.
- `regcomp`/`regexec` and the compile-failure path (c/help_handler.h:314-327): the two fixed expressions are hand-written predicates, so they cannot fail to compile.
- The literal branch as written (c/help_handler.h:464-476): it does not compile. It increments an undeclared `j`, nests the version loop inside the help loop over `ver_lex[i]`, and has no `""` sentinel to end either loop. `result_help` is also uninitialised. The model uses the evidently intended two loops described above.
- The wide-character functions `help_handler_w`, `help_handler_name_w`, `string_check_w` and `help_handler_info_w*`, and the `most_recent_t.name` tag they set: `wchar_t` text is not modelled. Only `nameChar` can be active, so `print_name` tests only for a non-empty name.
- `help_handler_f` (c/help_handler.h:751-783): file I/O.
- `sprintf("%lf")` of the double version (c/help_handler.h:375): floating-point formatting is the constructor parameter `formatDouble`.
- `_Generic` dispatch, platform detection, the `HELP_HANDLER_IGNORE_*` macros, and `malloc`/`realloc`/`free`, including the name buffer that is never freed (c/help_handler.h:622).
- The `argc > INT_MAX` and `argc < INT_MIN` branches (c/help_handler.h:398-403): `argc` is a 32-bit `int`, so they cannot be taken.
- `help_handler_get_err` (c/help_handler.h:535-541): it compares with `'0'` instead of `'\0'` and reads `errs[errCount]`, one slot past the newest message.
- `string_check` with a NULL `var_name` (c/help_handler.h:277-278): the message buffer is then uninitialised. Every caller in the model passes a name.
- `errCount` wrap-around at `SIZE_MAX`: the count is unbounded.
- One Dafny `char` stands for one C byte: `strlen` checks (c/help_handler.h:590, 618) and the 64-byte slots compare character counts. Text whose characters take more than one byte in C is not modelled.
- `ver_double` is a Dafny `real`, so NaN, the infinities and -0 are not modelled.
- Strings are taken to contain no NUL character. A C argument vector whose real length is below `argc` is modelled as one whose entries from the terminating NULL on are `None`; `Matcher.Readable` asks only that `argc` entries can be looked at.
- Handler.HelpHandler.HandleS: requires a non-empty help text. For a NULL or empty one, the source prints a buffer it never filled (c/help_handler.h:680-683).
- Handler.HelpHandler.VersionS: requires a version with a non-space character. On an all-space string, `trim`'s backward scan reads before the start of the buffer (c/help_handler.h:338-339).
- Handler.HelpHandler.NameS: requires a name with a non-space character, for the same reason.
- Handler.HelpHandler.InfoS: the same requirement, through the setters it calls. The name must have a non-space character only when the version is accepted, since a rejected version returns before the name is trimmed.
- Handler.HelpHandler.InfoI, Handler.HelpHandler.InfoD: the same requirement of the name, which they always set.
- Handler.HelpHandler.PrintErrors: modelled only while at most 32 messages have been stored. After that, the source's loop indexes `errs[i]` past the 32 slots (c/help_handler.h:528-531).
- ErrorLog.Logged: follows the code, where a silent fault with error output on is not stored. The source's own comment at c/help_handler.h:136 speaks of counting and printing all errors.
- The 64-byte slot limit: messages are stored whole. `ErrorLog.ArgcMessageOverruns` records the one message that overruns its slot.
