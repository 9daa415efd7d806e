/**
 A C string is modelled by the characters before its terminating NUL, and a
 `const char *` into it by the suffix that starts at the pointer: reading at
 the end of a suffix reads the terminator.
 */
module CText {

  datatype Option<+T> = None | Some(value: T)

  /** Bytes 1 to 255 only: what can stand before the terminator. */
  ghost predicate CString(s: string) {
    forall i | 0 <= i < |s| :: 0 < s[i] as int < 256
  }

  /** `s[i]` in C, for an index up to and including the terminator. */
  function At(s: string, i: nat): char {
    if i < |s| then s[i] else '\0'
  }

  /** The buffer `a` holds the C string `s` from its start. */
  ghost predicate Holds(a: seq<char>, s: string) {
    CString(s) && |s| < |a| && a[..|s|] == s && a[|s|] == '\0'
  }

  lemma HoldsAt(was: seq<char>, text: string, at: nat)
    requires Holds(was, text) && at <= |text|
    ensures |text| < |was|
    ensures was[at] == At(text, at) && (was[at] == '\0' <==> at == |text|)
  {
    if at < |text| { assert was[..|text|][at] == text[at]; }
  }

  predicate IsDigit(c: char) {
    '0' <= c <= '9'
  }

  /** What `skip` passes over: every byte from 1 to 32. */
  predicate IsBlank(c: char) {
    0 < c as int <= 32
  }

  /** The cursor `skip` returns. */
  function Skip(s: string): (r: string)
    ensures |r| <= |s|
    ensures !IsBlank(At(r, 0))
  {
    if s != "" && IsBlank(s[0]) then Skip(s[1..]) else s
  }

  lemma SkipStops(s: string)
    requires !IsBlank(At(s, 0))
    ensures Skip(s) == s
  {
  }

  /** The outcome of reading a `T` at a cursor: the value and the cursor after it,
      a failure with the error pointer, or an access outside the memory the text
      or the output owns, after which C promises nothing. */
  datatype Parse<+T> =
    | Ok(value: T, rest: string)
    | Fail(at: string)
    | Overrun
  {
    predicate IsFailure() {
      !Ok?
    }

    function PropagateFailure<U>(): Parse<U>
      requires !Ok?
    {
      if Fail? then Fail(at) else Overrun
    }

    function Extract(): (T, string)
      requires Ok?
    {
      (value, rest)
    }
  }

  /** `rest` is what is left of `s` after at least `n` bytes. */
  ghost predicate Consumed(s: string, rest: string, n: nat) {
    |rest| + n <= |s| && rest == s[|s| - |rest|..]
  }
}
