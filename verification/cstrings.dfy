/**
 * C strings and the libc string routines the server relies on.
 * Every char of the model stands for one octet of the C `char` buffers.
 * A pointer into a buffer is an index into an array; the C string at a
 * pointer is everything up to (not including) the first NUL.
 */
module CStrings {
  const NUL: char := '\0'

  /** The longest prefix of `s` that does not contain `c` (strcspn with one delimiter). */
  function Until(s: string, c: char): (r: string)
    ensures |r| <= |s| && r == s[..|r|]
    ensures c !in r
    ensures |r| < |s| ==> s[|r|] == c
  {
    if s == [] || s[0] == c then [] else [s[0]] + Until(s[1..], c)
  }

  /** The three facts of Until's contract determine its result. */
  lemma UntilUnique(s: string, c: char, r: string)
    requires |r| <= |s| && r == s[..|r|] && c !in r
    requires |r| < |s| ==> s[|r|] == c
    ensures Until(s, c) == r
  {
  }

  /** A stop character after the prefix hides whatever follows it. */
  lemma UntilStops(t: string, c: char, rest: string)
    requires c !in t
    ensures Until(t + [c] + rest, c) == t
  {
    UntilUnique(t + [c] + rest, c, t);
  }

  /** strlen-bounded view of a sequence: the characters before the first NUL. */
  function UpToNul(s: string): string
  {
    Until(s, NUL)
  }

  /** The C string that starts at index `p` of buffer `a`. */
  function CString(a: array<char>, p: nat): (s: string)
    requires p <= a.Length
    reads a
    ensures p + |s| <= a.Length && a[p..p + |s|] == s && NUL !in s
    ensures p + |s| < a.Length ==> a[p + |s|] == NUL
  {
    UpToNul(a[p..])
  }

  /** `w` is stored at index `p` of `buf`, followed by its terminating NUL. */
  ghost predicate StoredAt(buf: seq<char>, p: nat, w: string)
  {
    p + |w| < |buf| && (forall k :: 0 <= k < |w| ==> buf[p + k] == w[k]) && buf[p + |w|] == NUL && NUL !in w
  }

  /** `w` is stored at index `p` of array `a`, followed by its terminating NUL. */
  ghost predicate NulTerminatedAt(a: array<char>, p: nat, w: string)
    reads a
  {
    StoredAt(a[..], p, w)
  }

  /** Reading a C string back from a buffer yields exactly what was stored there. */
  lemma CStringAt(a: array<char>, p: nat, w: string)
    requires NulTerminatedAt(a, p, w)
    ensures CString(a, p) == w
  {
    assert a[p..p + |w|] == w;
    assert a[p..] == w + [NUL] + a[p + |w| + 1..];
    UntilStops(w, NUL, a[p + |w| + 1..]);
  }

  /** Writing outside a stored string and its NUL leaves it stored. */
  lemma StoredElsewhere(a: array<char>, before: seq<char>, p: nat, w: string, i: nat, c: char)
    requires StoredAt(before, p, w) && i < |before| && (i < p || p + |w| < i)
    requires a[..] == before[i := c]
    ensures CString(a, p) == w
  {
    CStringAt(a, p, w);
  }

  /** A buffer left as it was still holds what was stored in it. */
  lemma StillStored(a: array<char>, before: seq<char>, p: nat, w: string)
    requires StoredAt(before, p, w) && a[..] == before
    ensures CString(a, p) == w
  {
    CStringAt(a, p, w);
  }

  /** A buffer holding `text` and then a NUL reads back as the C string of `text`. */
  lemma CStringOfStored(a: array<char>, text: string)
    requires |text| < a.Length && a[..|text|] == text && a[|text|] == NUL
    ensures CString(a, 0) == UpToNul(text)
  {
    var r := UpToNul(text);
    assert a[0..] == text + [NUL] + a[|text| + 1..];
    UntilUnique(a[0..], NUL, r);
  }

  /** ASCII tolower in the C locale: only 'A'..'Z' change. */
  function ToLower(c: char): (l: char)
    ensures 'A' <= c <= 'Z' ==> 'a' <= l <= 'z' && l as int - c as int == 32
    ensures !('A' <= c <= 'Z') ==> l == c
  {
    if 'A' <= c <= 'Z' then (c as int + 32) as char else c
  }

  /** strcasecmp(a, b) == 0 for NUL-free strings. */
  predicate EqualsIgnoreCase(a: string, b: string)
  {
    |a| == |b| && forall i :: 0 <= i < |a| ==> ToLower(a[i]) == ToLower(b[i])
  }

  /** The string with every letter lower-cased. */
  function Lowered(s: string): (r: string)
    ensures |r| == |s|
  {
    if s == [] then [] else [ToLower(s[0])] + Lowered(s[1..])
  }

  /** strcasecmp finds two strings equal exactly when their lower-cased forms are equal. */
  lemma {:induction false} EqualsIgnoreCaseLowered(a: string, b: string)
    ensures EqualsIgnoreCase(a, b) <==> Lowered(a) == Lowered(b)
  {
    if a != [] && b != [] {
      EqualsIgnoreCaseLowered(a[1..], b[1..]);
      if EqualsIgnoreCase(a, b) {
        assert EqualsIgnoreCase(a[1..], b[1..]) by {
          forall i | 0 <= i < |a| - 1
            ensures ToLower(a[1..][i]) == ToLower(b[1..][i])
          {
            assert ToLower(a[i + 1]) == ToLower(b[i + 1]);
          }
        }
      }
      if Lowered(a) == Lowered(b) {
        assert ToLower(a[0]) == Lowered(a)[0] == Lowered(b)[0] == ToLower(b[0]);
        assert Lowered(a[1..]) == Lowered(a)[1..] == Lowered(b)[1..] == Lowered(b[1..]);
        forall i | 0 <= i < |a|
          ensures ToLower(a[i]) == ToLower(b[i])
        {
          if i > 0 {
            assert ToLower(a[1..][i - 1]) == ToLower(b[1..][i - 1]);
          }
        }
      }
    } else if a != [] || b != [] {
      assert |Lowered(a)| != |Lowered(b)|;
    }
  }

  /** strncmp(s, prefix, strlen(prefix)) == 0 for NUL-free strings. */
  predicate StartsWith(s: string, prefix: string)
  {
    |prefix| <= |s| && s[..|prefix|] == prefix
  }
}
