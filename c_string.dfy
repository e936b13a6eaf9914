/** The two C string functions the readers rely on: strlen and strlcpy.
    A C string is a byte sequence read up to its first NUL character. */
module CString {
  import opened CTypes

  /** strlen: the number of characters before the first NUL (all of them
      when the sequence holds no NUL, which C would read past). */
  function StrLen(s: seq<char>): (n: nat)
    ensures n <= |s|
    ensures forall j :: 0 <= j < n ==> s[j] != '\0'
    ensures n < |s| ==> s[n] == '\0'
  {
    if s == [] || s[0] == '\0' then 0 else 1 + StrLen(s[1..])
  }

  /** The C string that `s` holds: its characters before the first NUL. */
  function CStr(s: seq<char>): (t: seq<char>)
    ensures '\0' !in t
    ensures t <= s
  {
    s[..StrLen(s)]
  }

  /** The position of the first NUL is the only one with no NUL before it. */
  lemma StrLenAt(s: seq<char>, k: nat)
    requires k < |s| && s[k] == '\0'
    requires forall j :: 0 <= j < k ==> s[j] != '\0'
    ensures StrLen(s) == k
  {
  }

  /** A sequence with no NUL is its own C string. */
  lemma CStrNoNul(s: seq<char>)
    requires '\0' !in s
    ensures StrLen(s) == |s| && CStr(s) == s
  {
  }

  /** A NUL-free prefix followed by a NUL reads as that prefix. */
  lemma CStrTerminated(t: seq<char>, rest: seq<char>)
    requires '\0' !in t
    requires rest != [] && rest[0] == '\0'
    ensures StrLen(t + rest) == |t| && CStr(t + rest) == t
  {
    var s := t + rest;
    forall j | 0 <= j < |t| ensures s[j] != '\0' {
      assert s[j] == t[j] && t[j] in t;
    }
    StrLenAt(s, |t|);
  }

  /** strlcpy(dst, src, dsize) as BSD libc defines it, on the bytes `dst`
      held before the call: at most dsize-1 characters of the C string in
      `src` are copied, a NUL follows them when dsize > 0, the bytes after
      it are left as they were, and the result is strlen(src). */
  function Strlcpy(dst: seq<char>, src: seq<char>, dsize: nat): (r: (seq<char>, nat))
    requires dsize <= |dst|
    ensures |r.0| == |dst|
    ensures r.1 == StrLen(src)
    ensures dsize == 0 ==> r.0 == dst
    ensures dsize > 0 ==>
      var k := Min(StrLen(src), dsize - 1);
      CStr(r.0) == CStr(src)[..k] && r.0[k] == '\0' && r.0[k + 1..] == dst[k + 1..]
  {
    if dsize == 0 then (dst, StrLen(src))
    else
      var k := Min(StrLen(src), dsize - 1);
      var copied := src[..k];
      assert '\0' !in copied by {
        forall j | 0 <= j < k ensures copied[j] != '\0' { }
      }
      CStrTerminated(copied, ['\0'] + dst[k + 1..]);
      assert copied + (['\0'] + dst[k + 1..]) == copied + ['\0'] + dst[k + 1..];
      (copied + ['\0'] + dst[k + 1..], StrLen(src))
  }
}
