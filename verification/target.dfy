/**
 * The request target: a path, optionally followed by '?' and a query
 * string. ParseQueryString cuts the target in place at its first '?'.
 */
module Target {
  import opened Wrappers
  import opened CStrings

  const QUERY_MARK: char := '?'

  /** A request target taken apart: the query is None when there is no '?'. */
  datatype Target = Target(path: string, query: Option<string>)

  /** The target written out again: the path, then '?' and the query if there is one. */
  function Rejoin(t: Target): string
  {
    t.path + (if t.query.Some? then [QUERY_MARK] + t.query.value else [])
  }

  /**
   * The path is everything before the first '?'; the query, present exactly
   * when there is a '?', is everything after it (possibly empty).
   */
  function SplitTarget(u: string): (t: Target)
    ensures QUERY_MARK !in t.path
    ensures t.query.None? <==> QUERY_MARK !in u
    ensures |t.path| <= |u| && t.path == u[..|t.path|]
    ensures Rejoin(t) == u
  {
    var path := Until(u, QUERY_MARK);
    if |path| == |u| then Target(u, None)
    else
      assert u == path + [QUERY_MARK] + u[|path| + 1..];
      Target(path, Some(u[|path| + 1..]))
  }

  /** Splitting a rejoined target gives it back, whenever its path has no '?'. */
  lemma SplitRejoin(t: Target)
    requires QUERY_MARK !in t.path
    ensures SplitTarget(Rejoin(t)) == t
  {
    if t.query.Some? {
      var u := Rejoin(t);
      assert u == t.path + [QUERY_MARK] + t.query.value;
      UntilStops(t.path, QUERY_MARK, t.query.value);
      assert u[|t.path| + 1..] == t.query.value;
    } else {
      UntilUnique(t.path, QUERY_MARK, t.path);
    }
  }

  /** A target without '?' is all path. */
  lemma WithoutMark(u: string)
    requires QUERY_MARK !in u
    ensures SplitTarget(u) == Target(u, None)
  {
    UntilUnique(u, QUERY_MARK, u);
  }

  /** An empty query after a trailing '?' is still a query. */
  lemma TrailingMarkIsQuery(path: string)
    requires QUERY_MARK !in path
    ensures SplitTarget(path + [QUERY_MARK]) == Target(path, Some([]))
  {
    SplitRejoin(Target(path, Some([])));
  }

  /**
   * int ParseQueryString(char url[], char** url_path_ptr, char** query_string_ptr):
   * scans the C string `u` stored at `url` for '?'. At the first one it writes a NUL,
   * so that `url` now reads as the path, and returns the index just after
   * it as the query string; without one the query string is None (NULL).
   * Always returns 0. The url_path out-parameter is never written by the
   * source, so it has no counterpart here.
   */
  method ParseQueryString(line: array<char>, url: nat, ghost u: string) returns (r: int, query: Option<nat>)
    requires NulTerminatedAt(line, url, u)
    modifies line
    ensures r == 0
    ensures var t := SplitTarget(u);
      && CString(line, url) == t.path
      && (query.None? <==> t.query.None?)
      && (query.Some? ==>
        && query.value == url + |t.path| + 1 <= line.Length
        && CString(line, query.value) == t.query.value
        && line[..] == old(line[..])[query.value - 1 := NUL])
    ensures query.None? ==> line[..] == old(line[..])
  {
    var p := FindMark(line, url, u);
    if line[p] == QUERY_MARK {
      CutQuery(line, url, p, u);
      return 0, Some(p + 1);
    }
    WithoutMark(u);
    CStringAt(line, url, u);
    return 0, None;
  }

  /** The scan of ParseQueryString: the index of the first '?' of `u`, or of its NUL. */
  method FindMark(line: array<char>, url: nat, ghost u: string) returns (p: nat)
    requires NulTerminatedAt(line, url, u)
    ensures url <= p <= url + |u| && p < line.Length && QUERY_MARK !in u[..p - url]
    ensures p < url + |u| ==> u[p - url] == QUERY_MARK && line[p] == QUERY_MARK
    ensures p == url + |u| ==> line[p] == NUL && u[..p - url] == u
  {
    p := url;
    while line[p] != NUL && line[p] != QUERY_MARK
      invariant url <= p <= url + |u| && QUERY_MARK !in u[..p - url]
      decreases url + |u| - p
    {
      assert u[..p + 1 - url] == u[..p - url] + [u[p - url]];
      p := p + 1;
    }
  }

  /** *p = '\0' at the first '?' of the target `u` stored at `url`. */
  method CutQuery(line: array<char>, url: nat, p: nat, ghost u: string)
    requires NulTerminatedAt(line, url, u) && url <= p < url + |u|
    requires u[p - url] == QUERY_MARK && QUERY_MARK !in u[..p - url]
    modifies line
    ensures line[..] == old(line[..])[p := NUL]
    ensures SplitTarget(u) == Target(u[..p - url], Some(u[p - url + 1..]))
    ensures CString(line, url) == u[..p - url] && CString(line, p + 1) == u[p - url + 1..]
  {
    ghost var before := line[..];
    CutAtMark(before, url, u, p);
    line[p] := NUL;
    assert line[..] == before[p := NUL];
    CStringAt(line, url, u[..p - url]);
    CStringAt(line, p + 1, u[p - url + 1..]);
  }

  /** Overwriting the first '?' of a stored target with NUL leaves its path and its query stored. */
  lemma CutAtMark(buf: seq<char>, url: nat, u: string, p: nat)
    requires StoredAt(buf, url, u) && url <= p < url + |u|
    requires u[p - url] == QUERY_MARK && QUERY_MARK !in u[..p - url]
    ensures StoredAt(buf[p := NUL], url, u[..p - url])
    ensures StoredAt(buf[p := NUL], p + 1, u[p - url + 1..])
    ensures SplitTarget(u) == Target(u[..p - url], Some(u[p - url + 1..]))
  {
    UntilUnique(u, QUERY_MARK, u[..p - url]);
  }
}
