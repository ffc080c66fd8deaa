/** Bytes and NUL-terminated C strings, as the samples' `char`/`uint8_t`
    buffers are read by `strcmp`, `printk("%s")` and `strlen`. */
module CStrings {

  newtype byte = b: int | 0 <= b < 256

  const NUL: byte := 0

  /** The C string stored at the start of `s`: every byte before the first
      NUL, or all of `s` when it holds no NUL. */
  function CStr(s: seq<byte>): (r: seq<byte>)
    ensures |r| <= |s| && r == s[..|r|]
    ensures NUL !in r
    ensures |r| < |s| ==> s[|r|] == NUL
  {
    if s == [] || s[0] == NUL then [] else [s[0]] + CStr(s[1..])
  }

  /** The three properties of CStr's contract pin its result down. */
  lemma CStrUnique(s: seq<byte>, r: seq<byte>)
    requires |r| <= |s| && r == s[..|r|] && NUL !in r
    requires |r| < |s| ==> s[|r|] == NUL
    ensures CStr(s) == r
  {
  }

  /** A buffer without NUL bytes is its own C string. */
  lemma CStrOfNulFree(s: seq<byte>)
    requires NUL !in s
    ensures CStr(s) == s
  {
    CStrUnique(s, s);
  }

  /** Reading a C string stops at a NUL stored at index `k`. */
  lemma CStrStopsAtNul(s: seq<byte>, k: nat)
    requires k < |s| && s[k] == NUL
    ensures CStr(s) == CStr(s[..k])
  {
    var c := CStr(s[..k]);
    assert c == s[..|c|];
    if |c| < k {
      assert s[|c|] == s[..k][|c|] == NUL;
    }
    CStrUnique(s, c);
  }

  /** Whatever follows a terminator is invisible to the C string in front of it. */
  lemma CStrBeforeTerminator(x: seq<byte>, y: seq<byte>)
    ensures CStr(x + [NUL] + y) == CStr(x)
  {
    var s := x + [NUL] + y;
    assert s[..|x|] == x;
    CStrStopsAtNul(s, |x|);
  }
}
