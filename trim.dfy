/** `trim` (c/help_handler.h:330-351): strip leading and trailing whitespace
    and copy what is left into a caller's buffer of `len` bytes. */
module Trimming {
  import opened CLib

  /** How many whitespace characters `s` starts with. */
  function LeadCount(s: string): (n: nat)
    ensures n <= |s|
    ensures forall k :: 0 <= k < n ==> IsSpace(s[k])
    ensures n < |s| ==> !IsSpace(s[n])
  {
    if s != [] && IsSpace(s[0]) then 1 + LeadCount(s[1..]) else 0
  }

  /** How many whitespace characters `s` ends with. */
  function TrailCount(s: string): (n: nat)
    ensures n <= |s|
    ensures forall k :: |s| - n <= k < |s| ==> IsSpace(s[k])
    ensures n < |s| ==> !IsSpace(s[|s| - 1 - n])
  {
    if s != [] && IsSpace(s[|s| - 1]) then 1 + TrailCount(s[..|s| - 1]) else 0
  }

  /** `s` without its leading and trailing whitespace. Defined only when `s`
      has a non-space character: on an all-space string the backward scan of
      `trim` walks off the front of the buffer. */
  function Trimmed(s: string): (r: string)
    requires !Blank(s)
    ensures 0 < |r| && LeadCount(s) + |r| <= |s|
    ensures !IsSpace(r[0]) && !IsSpace(r[|r| - 1])
    ensures s == s[..LeadCount(s)] + r + s[LeadCount(s) + |r|..]
    ensures Blank(s[..LeadCount(s)]) && Blank(s[LeadCount(s) + |r|..])
  {
    s[LeadCount(s)..|s| - TrailCount(s)]
  }

  /** Trimming a trimmed string changes nothing. */
  lemma TrimmedIdempotent(s: string)
    requires !Blank(s)
    ensures !Blank(Trimmed(s)) && Trimmed(Trimmed(s)) == Trimmed(s)
  {
    var r := Trimmed(s);
    assert !IsSpace(r[0]);
    assert LeadCount(r) == 0;
    assert TrailCount(r) == 0;
  }

  /** A count of leading spaces followed by a non-space is `LeadCount`. */
  lemma {:induction false} LeadCountIs(s: string, n: nat)
    requires n <= |s| && (forall k :: 0 <= k < n ==> IsSpace(s[k]))
    requires n < |s| ==> !IsSpace(s[n])
    ensures LeadCount(s) == n
  {
    if n > 0 {
      LeadCountIs(s[1..], n - 1);
    }
  }

  /** A count of trailing spaces preceded by a non-space is `TrailCount`. */
  lemma {:induction false} TrailCountIs(s: string, n: nat)
    requires n <= |s| && (forall k :: |s| - n <= k < |s| ==> IsSpace(s[k]))
    requires n < |s| ==> !IsSpace(s[|s| - 1 - n])
    ensures TrailCount(s) == n
  {
    if n > 0 {
      TrailCountIs(s[..|s| - 1], n - 1);
    }
  }

  /** `memcpy(dest, src, n)`. */
  method MemCopy(dest: array<char>, src: string, n: nat)
    requires n <= |src| && n <= dest.Length
    modifies dest
    ensures dest[..n] == src[..n]
    ensures dest[n..] == old(dest[n..])
  {
    var k := 0;
    while k < n
      invariant 0 <= k <= n
      invariant forall j :: 0 <= j < k ==> dest[j] == src[j]
      invariant forall j :: k <= j < dest.Length ==> dest[j] == old(dest[j])
    {
      dest[k] := src[k];
      k := k + 1;
    }
  }

  /** The forward scan of `trim`: the index of the first non-space. */
  method SkipLeading(str: string) returns (start: nat)
    ensures start == LeadCount(str)
  {
    start := 0;
    while start < |str| && IsSpace(str[start])
      invariant start <= |str|
      invariant forall k :: 0 <= k < start ==> IsSpace(str[k])
    {
      start := start + 1;
    }
    LeadCountIs(str, start);
  }

  /** The backward scan of `trim` from the last character, stopped by the
      non-space at `start`: one past the last non-space. */
  method SkipTrailing(str: string, start: nat) returns (end: nat)
    requires start < |str| && !IsSpace(str[start])
    ensures start < end <= |str| && end == |str| - TrailCount(str)
  {
    end := |str| - 1;
    while IsSpace(str[end])
      invariant start <= end < |str|
      invariant forall k :: end < k < |str| ==> IsSpace(str[k])
      decreases end
    {
      end := end - 1;
    }
    end := end + 1;
    TrailCountIs(str, |str| - end);
  }

  /** The end of `trim`: copy at most `len - 1` characters of `src` and
      terminate them. */
  method CopyBounded(dest: array<char>, len: nat, src: string) returns (outSize: nat)
    requires 1 <= len <= dest.Length
    modifies dest
    ensures outSize == Min(|src|, len - 1)
    ensures dest[..outSize] == src[..outSize]
    ensures dest[outSize] == '\0'
    ensures dest[outSize + 1..] == old(dest[outSize + 1..])
  {
    outSize := if |src| < len - 1 then |src| else len - 1;
    MemCopy(dest, src, outSize);
    ghost var copied := dest[..];
    assert copied[..outSize] == src[..outSize] && copied[outSize..] == old(dest[outSize..]);
    dest[outSize] := '\0';
    assert dest[..] == copied[outSize := '\0'];
  }

  /** The C `trim`: two scans, then a bounded copy and a terminator. */
  method Trim(dest: array<char>, len: nat, str: string) returns (outSize: nat)
    requires 1 <= len <= dest.Length
    requires !Blank(str)
    modifies dest
    ensures outSize == Min(|Trimmed(str)|, len - 1)
    ensures dest[..outSize] == Trimmed(str)[..outSize]
    ensures dest[outSize] == '\0'
    ensures dest[outSize + 1..] == old(dest[outSize + 1..])
  {
    var start := SkipLeading(str);
    var end := SkipTrailing(str, start);
    assert Trimmed(str) == str[start..end];
    outSize := CopyBounded(dest, len, str[start..end]);
  }
}
