/**
 * The request line "METHOD TARGET VERSION": Split, a strtok_r loop that cuts
 * the line in place, and ParseFirstLine, which wants exactly three tokens.
 */
module RequestLine {
  import opened Wrappers
  import opened CStrings

  const SP: char := ' '
  /** Capacity of the token table in ParseFirstLine (char* tokens[100]). */
  const MAX_TOKENS: nat := 100

  /** The tokens of `s`: its maximal runs of characters other than `d`, in order. */
  function Tokens(s: string, d: char): seq<string>
    decreases |s|
  {
    if s == [] then []
    else if s[0] == d then Tokens(s[1..], d)
    else var w := Until(s, d); [w] + Tokens(s[|w|..], d)
  }

  /** Every token is non-empty and holds no delimiter. */
  lemma {:induction false} TokensAreWords(s: string, d: char)
    ensures forall k :: 0 <= k < |Tokens(s, d)| ==> Tokens(s, d)[k] != [] && d !in Tokens(s, d)[k]
    decreases |s|
  {
    if s != [] {
      if s[0] == d {
        TokensAreWords(s[1..], d);
      } else {
        TokensAreWords(s[|Until(s, d)|..], d);
      }
    }
  }

  /** The tokens joined again with one delimiter between neighbours. */
  function Join(ts: seq<string>, d: char): string
  {
    if ts == [] then [] else if |ts| == 1 then ts[0] else ts[0] + [d] + Join(ts[1..], d)
  }

  /** All of `s` but its delimiters, in order. */
  function Without(s: string, d: char): string
  {
    if s == [] then [] else (if s[0] == d then [] else [s[0]]) + Without(s[1..], d)
  }

  function Concat(ts: seq<string>): string
  {
    if ts == [] then [] else ts[0] + Concat(ts[1..])
  }

  /** Delimiters before a token produce no token. */
  lemma {:induction false} TokensSkipDelimiters(s: string, d: char, i: nat, j: nat)
    requires i <= j <= |s| && forall k :: i <= k < j ==> s[k] == d
    ensures Tokens(s[i..], d) == Tokens(s[j..], d)
    decreases j - i
  {
    if i < j {
      assert s[i..][1..] == s[i + 1..];
      TokensSkipDelimiters(s, d, i + 1, j);
    }
  }

  /** The token that starts at `b` runs to the next delimiter or the end. */
  lemma TokenAt(s: string, d: char, b: nat, e: nat)
    requires b < e <= |s| && d !in s[b..e] && (e < |s| ==> s[e] == d)
    ensures Tokens(s[b..], d) == [s[b..e]] + Tokens(s[e..], d)
  {
    UntilUnique(s[b..], d, s[b..e]);
    assert s[b..][e - b..] == s[e..];
  }

  /** Joining non-empty, delimiter-free words and splitting again gives the words back. */
  lemma {:induction false} TokensOfJoin(ts: seq<string>, d: char)
    requires forall k :: 0 <= k < |ts| ==> ts[k] != [] && d !in ts[k]
    ensures Tokens(Join(ts, d), d) == ts
  {
    if |ts| == 1 {
      UntilUnique(ts[0], d, ts[0]);
      assert ts[0][|ts[0]|..] == [];
    } else if |ts| > 1 {
      var s := ts[0] + [d] + Join(ts[1..], d);
      UntilUnique(s, d, ts[0]);
      assert s[|ts[0]|..] == [d] + Join(ts[1..], d);
      assert s[|ts[0]|..][1..] == Join(ts[1..], d);
      TokensOfJoin(ts[1..], d);
      assert ts == [ts[0]] + ts[1..];
    }
  }

  /** Splitting loses and duplicates nothing but the delimiters. */
  lemma {:induction false} TokensKeepEverythingElse(s: string, d: char)
    ensures Concat(Tokens(s, d)) == Without(s, d)
    decreases |s|
  {
    if s != [] {
      if s[0] == d {
        TokensKeepEverythingElse(s[1..], d);
      } else {
        var w := Until(s, d);
        TokensKeepEverythingElse(s[|w|..], d);
        WithoutOfWord(s, d, |w|);
      }
    }
  }

  lemma {:induction false} WithoutOfWord(s: string, d: char, n: nat)
    requires n <= |s| && d !in s[..n]
    ensures Without(s, d) == s[..n] + Without(s[n..], d)
    decreases n
  {
    if n > 0 {
      assert s[1..][..n - 1] == s[1..n];
      WithoutOfWord(s[1..], d, n - 1);
      assert s[1..][n - 1..] == s[n..];
      assert s[..n] == [s[0]] + s[1..n];
    }
  }

  /**
   * The line `s` sits at index 0 of `buf` with its NUL at |s|; from index
   * `from` on it is still as it was before any cut.
   */
  ghost predicate Uncut(buf: seq<char>, s: string, from: nat)
  {
    from <= |s| < |buf| && NUL !in s && (forall k :: from <= k < |s| ==> buf[k] == s[k]) && buf[|s|] == NUL
  }

  /** `b2` is `b1` with some delimiters overwritten by NUL, and nothing else changed. */
  ghost predicate Cut(b1: seq<char>, b2: seq<char>, d: char)
  {
    |b2| == |b1| && forall j :: 0 <= j < |b1| ==> b2[j] == b1[j] || (b1[j] == d && b2[j] == NUL)
  }

  /** `b1` and `b2` agree below index `n`. */
  ghost predicate AgreeBelow(b1: seq<char>, b2: seq<char>, n: nat)
  {
    forall j :: 0 <= j < n && j < |b1| && j < |b2| ==> b2[j] == b1[j]
  }

  lemma CutTwice(b1: seq<char>, b2: seq<char>, b3: seq<char>, d: char)
    requires d != NUL && Cut(b1, b2, d) && Cut(b2, b3, d)
    ensures Cut(b1, b3, d)
  {
  }

  /** strspn(line + from, delim): the first index at or after `from` that is not a delimiter. */
  method SpanDelims(line: array<char>, d: char, from: nat, ghost s: string) returns (p: nat)
    requires d != NUL && Uncut(line[..], s, from)
    ensures from <= p <= |s| && (forall k :: from <= k < p ==> s[k] == d) && (p < |s| ==> s[p] != d)
  {
    p := from;
    while line[p] != NUL && line[p] == d
      invariant from <= p <= |s| && forall k :: from <= k < p ==> s[k] == d
      decreases |s| - p
    {
      p := p + 1;
    }
  }

  /** strcspn(line + from, delim): the first index after `from` that is a delimiter or the NUL. */
  method SpanWord(line: array<char>, d: char, from: nat, ghost s: string) returns (e: nat)
    requires d != NUL && Uncut(line[..], s, from) && from < |s| && s[from] != d
    ensures from < e <= |s| && d !in s[from..e] && (e < |s| ==> s[e] == d)
  {
    e := from + 1;
    while line[e] != NUL && line[e] != d
      invariant from < e <= |s| && d !in s[from..e]
      decreases |s| - e
    {
      e := e + 1;
    }
  }

  /**
   * One strtok_r call resumed at `save` took the line from `b1` to `b2`. It
   * skipped the delimiters from `save` on and then either reached the end
   * (tok is None, for NULL) or returned the start of the word `w` that runs
   * to the next delimiter or the end. A delimiter after `w` became its NUL
   * and `next` is just past it; nothing else changed.
   */
  ghost predicate Resumed(b1: seq<char>, b2: seq<char>, s: string, d: char, save: nat,
                          tok: Option<nat>, next: nat, w: string)
  {
    && save <= next && Uncut(b2, s, next)
    && Cut(b1, b2, d) && AgreeBelow(b1, b2, save)
    && (tok.None? ==> next == |s| && forall k :: save <= k < |s| ==> s[k] == d)
    && (tok.Some? ==>
      && save <= tok.value < tok.value + |w| <= |s|
      && (forall k :: save <= k < tok.value ==> s[k] == d)
      && w == s[tok.value..tok.value + |w|] && d !in w
      && (tok.value + |w| < |s| ==> s[tok.value + |w|] == d && next == tok.value + |w| + 1)
      && (tok.value + |w| == |s| ==> next == |s|)
      && StoredAt(b2, tok.value, w))
    && (b2 == b1 || (tok.Some? && tok.value + |w| < |b1| && b2 == b1[tok.value + |w| := NUL]))
  }

  /** What one strtok_r call means for the tokens still to come. */
  lemma ResumedTokens(b1: seq<char>, b2: seq<char>, s: string, d: char, save: nat,
                      tok: Option<nat>, next: nat, w: string)
    requires Resumed(b1, b2, s, d, save, tok, next, w)
    ensures tok.None? ==> Tokens(s[save..], d) == []
    ensures tok.Some? ==> Tokens(s[save..], d) == [w] + Tokens(s[next..], d)
  {
    if tok.None? {
      NoMoreTokens(s, d, save, next);
    } else if tok.value + |w| == |s| {
      LastToken(s, d, save, tok.value, next);
    } else {
      InnerToken(s, d, save, tok.value, tok.value + |w|);
    }
  }

  /**
   * char* strtok_r(char* str, const char* delim, char** saveptr), resumed at
   * `save`: skips delimiters, returns the start of the next token (None for
   * NULL) and overwrites the delimiter that ends it with NUL.
   */
  method StrtokR(line: array<char>, d: char, save: nat, ghost s: string)
    returns (tok: Option<nat>, next: nat, ghost w: string)
    requires d != NUL && Uncut(line[..], s, save)
    modifies line
    ensures Resumed(old(line[..]), line[..], s, d, save, tok, next, w)
  {
    var p := SpanDelims(line, d, save, s);
    if line[p] == NUL {
      NoToken(line[..], s, d, save, p);
      return None, p, [];
    }
    var e := SpanWord(line, d, p, s);
    w := s[p..e];
    if line[e] == NUL {
      TokenAtEnd(line[..], s, d, save, p, e);
      return Some(p), e, w;
    }
    ghost var before := line[..];
    TokenCut(before, s, d, save, p, e);
    line[e] := NUL;
    assert line[..] == before[e := NUL];
    return Some(p), e + 1, w;
  }

  /** Only delimiters from `save` on: strtok_r returns NULL and cuts nothing. */
  lemma NoToken(b: seq<char>, s: string, d: char, save: nat, p: nat)
    requires Uncut(b, s, save) && save <= p == |s| && forall k :: save <= k < p ==> s[k] == d
    ensures Resumed(b, b, s, d, save, None, p, [])
  {
  }

  /** The last token runs to the end of the line: it is returned without a cut. */
  lemma TokenAtEnd(b: seq<char>, s: string, d: char, save: nat, p: nat, e: nat)
    requires Uncut(b, s, save) && save <= p < e == |s| && forall k :: save <= k < p ==> s[k] == d
    requires d !in s[p..e]
    ensures Resumed(b, b, s, d, save, Some(p), e, s[p..e])
  {
  }

  /** A token followed by a delimiter: the delimiter at `e` becomes its NUL. */
  lemma TokenCut(b: seq<char>, s: string, d: char, save: nat, p: nat, e: nat)
    requires d != NUL && Uncut(b, s, save) && save <= p < e < |s| && forall k :: save <= k < p ==> s[k] == d
    requires d !in s[p..e] && s[e] == d
    ensures Resumed(b, b[e := NUL], s, d, save, Some(p), e + 1, s[p..e])
  {
  }

  /** Only delimiters remain after `save`: no more tokens. */
  lemma NoMoreTokens(s: string, d: char, save: nat, p: nat)
    requires save <= p == |s| && forall k :: save <= k < p ==> s[k] == d
    ensures Tokens(s[save..], d) == []
  {
    TokensSkipDelimiters(s, d, save, p);
    assert s[p..] == [];
  }

  /** After delimiters from `save` to `p`, the last token is s[p..e], which runs to the end. */
  lemma LastToken(s: string, d: char, save: nat, p: nat, e: nat)
    requires save <= p < e == |s| && forall k :: save <= k < p ==> s[k] == d
    requires d !in s[p..e]
    ensures Tokens(s[save..], d) == [s[p..e]] + Tokens(s[e..], d)
  {
    TokensSkipDelimiters(s, d, save, p);
    TokenAt(s, d, p, e);
  }

  /** After delimiters from `save` to `p`, the next token is s[p..e]; splitting resumes after the delimiter at `e`. */
  lemma InnerToken(s: string, d: char, save: nat, p: nat, e: nat)
    requires save <= p < e < |s| && forall k :: save <= k < p ==> s[k] == d
    requires d !in s[p..e] && s[e] == d
    ensures Tokens(s[save..], d) == [s[p..e]] + Tokens(s[e + 1..], d)
  {
    ghost var rest := Tokens(s[e + 1..], d);
    TokensSkipDelimiters(s, d, e, e + 1);
    assert Tokens(s[e..], d) == rest;
    TokenAt(s, d, p, e);
    assert Tokens(s[p..], d) == [s[p..e]] + rest;
    TokensSkipDelimiters(s, d, save, p);
  }

  /**
   * Token `k` is stored at `starts[k]` with its NUL, every NUL lies at or
   * before `limit`, and the tokens lie in order without overlapping.
   */
  ghost predicate Placed(buf: seq<char>, starts: seq<nat>, words: seq<string>, limit: nat)
  {
    && |starts| == |words|
    && (forall k :: 0 <= k < |starts| ==> StoredAt(buf, starts[k], words[k]) && starts[k] + |words[k]| <= limit)
    && (forall k, k' :: 0 <= k < k' < |starts| ==> starts[k] + |words[k]| < starts[k'])
  }

  /** Cuts made at or after `limit` that only turn delimiters into NULs leave placed tokens intact. */
  lemma PlacedSurvivesCut(b1: seq<char>, b2: seq<char>, d: char, starts: seq<nat>, words: seq<string>, limit: nat)
    requires d != NUL && Placed(b1, starts, words, limit)
    requires Cut(b1, b2, d) && AgreeBelow(b1, b2, limit)
    ensures Placed(b2, starts, words, limit)
  {
    forall k | 0 <= k < |starts|
      ensures StoredAt(b2, starts[k], words[k])
    {
      var p, w := starts[k], words[k];
      forall i | 0 <= i < |w|
        ensures b2[p + i] == w[i]
      {
        assert b1[p + i] == w[i];
      }
    }
  }

  /** Every placed token ends before position `p`. */
  ghost predicate AllBefore(starts: seq<nat>, words: seq<string>, p: nat)
    requires |starts| == |words|
  {
    forall k :: 0 <= k < |starts| ==> starts[k] + |words[k]| < p
  }

  /** A token stored after all placed ones extends the placement. */
  lemma PlacedAppend(buf: seq<char>, starts: seq<nat>, words: seq<string>, limit: nat, p: nat, w: string, limit': nat)
    requires Placed(buf, starts, words, limit) && StoredAt(buf, p, w)
    requires limit <= limit' && p + |w| <= limit'
    requires AllBefore(starts, words, p)
    ensures Placed(buf, starts + [p], words + [w], limit')
  {
  }

  /** Tokens placed before `p`, followed by one ending before `q`, all end before `q`. */
  lemma AllBeforeAppend(starts: seq<nat>, words: seq<string>, p: nat, w: string, q: nat)
    requires |starts| == |words| && AllBefore(starts, words, p)
    requires p + |w| < q
    ensures AllBefore(starts + [p], words + [w], q)
  {
  }

  /**
   * The state of Split between two strtok_r calls, over a snapshot `buf` of
   * the line: `found` are the tokens handed out so far, stored at `starts`;
   * `tok` and `cur` are the token just returned, and the tokens still to come
   * are those of `s` from `pos` on. Together they are all the tokens `ts`.
   */
  ghost predicate Progress(buf: seq<char>, orig: seq<char>, s: string, d: char, ts: seq<string>,
                           starts: seq<nat>, found: seq<string>, tok: Option<nat>, pos: nat, cur: string)
  {
    && Uncut(buf, s, pos) && Cut(orig, buf, d)
    && |starts| == |found|
    && ts == found + (if tok.Some? then [cur] else []) + Tokens(s[pos..], d)
    && Placed(buf, starts, found, pos)
    && (tok.None? ==> pos == |s|)
    && (tok.Some? ==>
      && StoredAt(buf, tok.value, cur) && tok.value + |cur| <= pos
      && (tok.value + |cur| < pos || pos == |s|)
      && AllBefore(starts, found, tok.value))
  }

  /** The first strtok_r call starts the split. */
  lemma ProgressStart(orig: seq<char>, buf: seq<char>, s: string, d: char, tok: Option<nat>, pos: nat, cur: string)
    requires d != NUL && Uncut(orig, s, 0)
    requires Resumed(orig, buf, s, d, 0, tok, pos, cur)
    ensures Progress(buf, orig, s, d, Tokens(s, d), [], [], tok, pos, cur)
  {
    ResumedTokens(orig, buf, s, d, 0, tok, pos, cur);
    assert s[0..] == s;
    if tok.None? {
      assert s[pos..] == [];
    }
  }

  /** Handing out the current token and calling strtok_r again keeps the state. */
  lemma ProgressStep(b1: seq<char>, b2: seq<char>, orig: seq<char>, s: string, d: char, ts: seq<string>,
                     starts: seq<nat>, found: seq<string>, p: nat, pos: nat, cur: string,
                     tok': Option<nat>, pos': nat, cur': string)
    requires d != NUL && Progress(b1, orig, s, d, ts, starts, found, Some(p), pos, cur)
    requires Resumed(b1, b2, s, d, pos, tok', pos', cur')
    ensures Progress(b2, orig, s, d, ts, starts + [p], found + [cur], tok', pos', cur')
  {
    ResumedTokens(b1, b2, s, d, pos, tok', pos', cur');
    PlacedAppend(b1, starts, found, pos, p, cur, pos);
    PlacedSurvivesCut(b1, b2, d, starts + [p], found + [cur], pos);
    CutTwice(orig, b1, b2, d);
    assert ts == (found + [cur]) + Tokens(s[pos..], d);
    if tok'.Some? {
      AllBeforeAppend(starts, found, p, cur, tok'.value);
    } else {
      assert s[pos'..] == [];
    }
  }

  /** Once strtok_r has returned NULL, every token has been handed out. */
  lemma ProgressEnd(buf: seq<char>, orig: seq<char>, s: string, d: char, ts: seq<string>,
                    starts: seq<nat>, found: seq<string>, tok: Option<nat>, pos: nat, cur: string)
    requires Progress(buf, orig, s, d, ts, starts, found, tok, pos, cur) && tok.None?
    ensures found == ts && Placed(buf, starts, ts, pos) && Cut(orig, buf, d)
  {
    assert s[pos..] == [];
  }

  /** While a token is pending, fewer than all tokens have been handed out. */
  lemma ProgressRoom(buf: seq<char>, orig: seq<char>, s: string, d: char, ts: seq<string>,
                     starts: seq<nat>, found: seq<string>, tok: Option<nat>, pos: nat, cur: string)
    requires Progress(buf, orig, s, d, ts, starts, found, tok, pos, cur) && tok.Some?
    ensures |found| < |ts|
  {
  }

  /** One turn of Split's loop: records the pending token and asks strtok_r for the next. */
  method Advance(line: array<char>, d: char, output: array<nat>, count: nat, tok: nat, tmp: nat,
                 ghost s: string, ghost orig: seq<char>, ghost ts: seq<string>,
                 ghost starts: seq<nat>, ghost found: seq<string>, ghost cur: string)
    returns (tok': Option<nat>, tmp': nat, ghost cur': string)
    requires d != NUL && count == |found| <= output.Length && output[..count] == starts
    requires Progress(line[..], orig, s, d, ts, starts, found, Some(tok), tmp, cur)
    requires |ts| <= output.Length
    modifies line, output
    ensures count < output.Length && output[..count + 1] == starts + [tok]
    ensures forall k :: count < k < output.Length ==> output[k] == old(output[k])
    ensures Progress(line[..], orig, s, d, ts, starts + [tok], found + [cur], tok', tmp', cur')
    ensures tmp <= tmp' <= |s| && (tmp' == tmp ==> tok'.None?)
  {
    ProgressRoom(line[..], orig, s, d, ts, starts, found, Some(tok), tmp, cur);
    ghost var before := line[..];
    output[count] := tok;
    assert output[..count + 1] == starts + [tok];
    tok', tmp', cur' := StrtokR(line, d, tmp, s);
    ProgressStep(before, line[..], orig, s, d, ts, starts, found, tok, tmp, cur, tok', tmp', cur');
  }

  /**
   * ssize_t Split(char first_line[], const char* split_char, char* output[]):
   * stores the start of every token of the C string in `line` in `output` and
   * returns how many there are. The caller's table must be large enough.
   */
  method Split(line: array<char>, d: char, output: array<nat>) returns (n: int)
    requires d != NUL && NUL in line[..]
    requires |Tokens(CString(line, 0), d)| <= output.Length
    modifies line, output
    ensures var ts := Tokens(old(CString(line, 0)), d);
      && n == |ts|
      && (forall k :: n <= k < output.Length ==> output[k] == old(output[k]))
      && (forall k :: 0 <= k < n ==> NulTerminatedAt(line, output[k], ts[k]))
      && (forall k, k' :: 0 <= k < k' < n ==> output[k] + |ts[k]| < output[k'])
    ensures Cut(old(line[..]), line[..], d)
  {
    ghost var s := CString(line, 0);
    ghost var ts := Tokens(s, d);
    ghost var orig := line[..];
    ghost var out0 := output[..];
    assert forall k :: 0 <= k < |s| ==> line[k] == s[k] by {
      assert line[0..|s|] == s;
    }
    var count := 0;
    var tok: Option<nat>, tmp: nat;
    ghost var cur: string;
    ghost var found: seq<string> := [];
    ghost var starts: seq<nat> := [];
    tok, tmp, cur := StrtokR(line, d, 0, s);
    ProgressStart(orig, line[..], s, d, tok, tmp, cur);
    while tok.Some?
      invariant count == |found| <= output.Length && output[..count] == starts
      invariant forall k :: count <= k < output.Length ==> output[k] == out0[k]
      invariant Progress(line[..], orig, s, d, ts, starts, found, tok, tmp, cur)
      decreases |s| - tmp, if tok.Some? then 1 else 0
    {
      ghost var p, word := tok.value, cur;
      tok, tmp, cur := Advance(line, d, output, count, tok.value, tmp, s, orig, ts, starts, found, cur);
      count := count + 1;
      found := found + [word];
      starts := starts + [p];
    }
    ProgressEnd(line[..], orig, s, d, ts, starts, found, tok, tmp, cur);
    forall k | 0 <= k < count
      ensures output[k] == starts[k]
    {
      assert output[..count][k] == starts[k];
    }
    return count;
  }

  /**
   * int ParseFirstLine(char first_line[], char** method_ptr, char** url_ptr):
   * 0 and the starts of the first two tokens when the line has exactly
   * three tokens, -1 otherwise.
   */
  method ParseFirstLine(line: array<char>) returns (r: int, verb: nat, url: nat)
    requires NUL in line[..]
    requires |Tokens(CString(line, 0), SP)| <= MAX_TOKENS
    modifies line
    ensures var ts := Tokens(old(CString(line, 0)), SP);
      && (r == 0 || r == -1)
      && (r == 0 <==> |ts| == 3)
      && (r == 0 ==> NulTerminatedAt(line, verb, ts[0]) && NulTerminatedAt(line, url, ts[1]) && verb + |ts[0]| < url)
    ensures Cut(old(line[..]), line[..], SP)
  {
    var tokens := new nat[MAX_TOKENS];
    var n := Split(line, SP, tokens);
    if n != 3 {
      return -1, 0, 0;
    }
    return 0, tokens[0], tokens[1];
  }
}
