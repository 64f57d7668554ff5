/**
 Where a request goes: the two ways of stripping a prefix and joining what is
 left to a target, and when they agree.
 */
module Paths {
  import opened Basics

  /** A parsed target. As with `Uri::path`, the path is at least "/" and holds no '?'. */
  datatype Target = Target(scheme: Option<string>, authority: Option<string>, path: string, query: Option<string>)

  datatype Uri = Uri(scheme: string, authority: string, pathAndQuery: string)

  predicate PathText(path: string) { path != "" && path[0] == '/' && '?' !in path }

  /** `trim_end_matches('/')`. */
  function TrimSlashes(s: string): (t: string)
    ensures t <= s
  {
    if s != "" && s[|s| - 1] == '/' then TrimSlashes(s[..|s| - 1]) else s
  }

  /** `find`, or the length. */
  function Find(s: string, c: char): (i: nat)
    ensures i <= |s| && c !in s[..i] && (i < |s| ==> s[i] == c)
  {
    if s == "" || s[0] == c then 0 else 1 + Find(s[1..], c)
  }

  function WithQuery(path: string, query: Option<string>): string {
    match query
    case Some(q) => path + "?" + q
    case None => path
  }

  function SplitQuery(pathAndQuery: string): (string, Option<string>) {
    var i := Find(pathAndQuery, '?');
    if i < |pathAndQuery| then (pathAndQuery[..i], Some(pathAndQuery[i + 1..])) else (pathAndQuery, None)
  }

  // ----- ReverseProxy

  datatype ReverseProxy = ReverseProxy(path: string, scheme: string, authority: string,
                                       targetBase: string, targetTrailingSlash: bool)

  /** None where construction panics: the target has no authority. */
  function NewProxy(path: string, target: Target): Option<ReverseProxy> {
    match target.authority
    case None => None
    case Some(authority) =>
      Some(ReverseProxy(path, match target.scheme case Some(s) => s case None => "http", authority,
                        if target.path == "/" then "" else TrimSlashes(target.path),
                        target.path != "" && target.path[|target.path| - 1] == '/' && target.path != "/"))
  }

  /** What is left of a request path after the proxy's own path. */
  function RemainingPath(proxyPath: string, path: string): string {
    var base := TrimSlashes(proxyPath);
    if path == "/" && proxyPath != "" then ""
    else if base != "" && base <= path then
      var rest := path[|base|..];
      if rest == "" || rest[0] == '/' then rest else path
    else path
  }

  function JoinedPath(proxy: ReverseProxy, remaining: string): string {
    if remaining != "" then proxy.targetBase + remaining
    else if proxy.targetBase == "" then "/"
    else if proxy.targetTrailingSlash then proxy.targetBase + "/"
    else proxy.targetBase
  }

  function TransformUri(proxy: ReverseProxy, pathAndQuery: string): Uri {
    var (path, query) := SplitQuery(pathAndQuery);
    Uri(proxy.scheme, proxy.authority, WithQuery(JoinedPath(proxy, RemainingPath(proxy.path, path)), query))
  }

  // ----- proxy routes

  /** Everything before the first path parameter, without trailing slashes. */
  function RouteLiteralPrefix(pattern: string): string { TrimSlashes(pattern[..Find(pattern, '{')]) }

  function StripRoutePrefix(path: string, prefix: string): string {
    if prefix == "" then path
    else if prefix <= path && (path[|prefix|..] == "" || path[|prefix|] == '/') then path[|prefix|..]
    else path
  }

  /** None where the target has no authority. */
  function BuildUpstreamUri(target: Target, originalQuery: Option<string>, append: Option<string>): Option<Uri> {
    match target.authority
    case None => None
    case Some(authority) =>
      var path := if append == None || append == Some("") then target.path else TrimSlashes(target.path) + append.value;
      var query := if target.query.Some? then target.query else originalQuery;
      Some(Uri(match target.scheme case Some(s) => s case None => "http", authority, WithQuery(path, query)))
  }

  // ----- strings

  lemma {:induction false} TrimmedEnd(s: string)
    ensures TrimSlashes(s) == "" || TrimSlashes(s)[|TrimSlashes(s)| - 1] != '/'
    ensures forall i | |TrimSlashes(s)| <= i < |s| :: s[i] == '/'
  {
    if s != "" && s[|s| - 1] == '/' { TrimmedEnd(s[..|s| - 1]); }
  }

  lemma TrimFixed(s: string)
    requires s == "" || s[|s| - 1] != '/'
    ensures TrimSlashes(s) == s
  {
  }

  lemma TrimRoot()
    ensures TrimSlashes("/") == ""
  {
    assert "/"[..0] == "";
  }

  lemma {:induction false} FindFirst(a: string, b: string, c: char)
    requires c !in a && (b == "" || b[0] == c)
    ensures Find(a + b, c) == |a|
  {
    if a == "" {
      assert a + b == b;
    } else {
      assert (a + b)[1..] == a[1..] + b;
      FindFirst(a[1..], b, c);
    }
  }

  /** A path without '?' and a query can be told apart again. */
  lemma SplitWithQuery(path: string, query: Option<string>)
    requires '?' !in path
    ensures SplitQuery(WithQuery(path, query)) == (path, query)
  {
    var tail := match query case Some(q) => "?" + q case None => "";
    assert WithQuery(path, query) == path + tail;
    FindFirst(path, tail, '?');
    assert (path + tail)[..|path|] == path;
    if query.Some? {
      assert (path + tail)[|path| + 1..] == query.value;
    } else {
      assert path + tail == path;
    }
  }

  lemma SameWithQuery(path: string, query: Option<string>, path': string, query': Option<string>)
    requires '?' !in path && '?' !in path'
    ensures WithQuery(path, query) == WithQuery(path', query') <==> path == path' && query == query'
  {
    SplitWithQuery(path, query);
    SplitWithQuery(path', query');
  }

  // ----- prefixes that apply

  /** A proxy path or route prefix in canonical form: leading slash, no trailing slash. */
  predicate Prefix(b: string) { PathText(b) && b[|b| - 1] != '/' }

  /** The path lies at or under the prefix, at a segment boundary. */
  predicate Under(path: string, b: string) { b <= path && (|path| == |b| || path[|b|] == '/') }

  /** Both strippers take a prefix off at a segment boundary and nowhere else; they differ only on "/". */
  lemma StrippersAgree(path: string, b: string)
    requires Prefix(b) && PathText(path)
    ensures StripRoutePrefix(path, b) == if Under(path, b) then path[|b|..] else path
    ensures RemainingPath(b, path) == if path == "/" then "" else StripRoutePrefix(path, b)
  {
    TrimFixed(b);
  }

  /** A route pattern `b/{...}` has the literal prefix `b`. */
  lemma PatternPrefix(b: string, rest: string)
    requires Prefix(b) && '{' !in b
    ensures RouteLiteralPrefix(b + "/{" + rest) == b
  {
    var pattern := b + "/{" + rest;
    assert pattern == (b + "/") + ("{" + rest);
    FindFirst(b + "/", "{" + rest, '{');
    assert pattern[..|b| + 1] == b + "/";
    assert (b + "/")[..|b|] == b;
    TrimFixed(b);
  }

  /** In general: the pattern up to its first parameter, without trailing slashes; all of it if it has none. */
  lemma PatternWithout(literal: string, rest: string)
    requires '{' !in literal && (rest == "" || rest[0] == '{')
    ensures RouteLiteralPrefix(literal + rest) == TrimSlashes(literal)
  {
    FindFirst(literal, rest, '{');
    assert (literal + rest)[..|literal|] == literal;
  }

  // ----- the target

  /** How many slashes the target path ends in. */
  function TrailingSlashes(path: string): nat { |path| - |TrimSlashes(path)| }

  lemma TargetShape(proxyPath: string, target: Target)
    requires PathText(target.path) && target.authority.Some?
    ensures var proxy := NewProxy(proxyPath, target).value;
            && proxy.targetBase == TrimSlashes(target.path)
            && (JoinedPath(proxy, "") == target.path <==> TrailingSlashes(target.path) <= 1)
            && (JoinedPath(proxy, "") == proxy.targetBase + "/" <==> TrailingSlashes(target.path) >= 1)
            && '?' !in JoinedPath(proxy, "") && '?' !in proxy.targetBase
  {
    hide TrimSlashes;
    var path, base := target.path, TrimSlashes(target.path);
    TrimmedEnd(path);
    assert base == path[..|base|];
    TrimRoot();
    if TrailingSlashes(path) == 1 {
      assert path == base + "/";
    }
  }

  // ----- the two joiners

  /** The paths on which the two joiners agree. */
  predicate PathsAgree(target: Target, b: string, path: string) {
    if path == "/" then TrailingSlashes(target.path) >= 1
    else if path == b then TrailingSlashes(target.path) <= 1
    else true
  }

  /**
   A proxy mounted at `b` and a proxy route with prefix `b` send a request to
   the same URI exactly if the paths agree and the target's own query, which
   only the route uses, is absent or the request's.
   */
  lemma JoinersAgree(target: Target, b: string, path: string, query: Option<string>)
    requires PathText(target.path) && target.authority.Some? && Prefix(b) && PathText(path)
    ensures var proxy := NewProxy(b, target).value;
            TransformUri(proxy, WithQuery(path, query)) ==
            BuildUpstreamUri(target, query, Some(StripRoutePrefix(path, b))).value
            <==> PathsAgree(target, b, path) && (target.query.None? || target.query == query)
  {
    hide WithQuery, SplitQuery, TrimSlashes;
    var proxy := NewProxy(b, target).value;
    SplitWithQuery(path, query);
    StrippersAgree(path, b);
    TargetShape(b, target);
    var stripped := StripRoutePrefix(path, b);
    var joined := JoinedPath(proxy, RemainingPath(b, path));
    var built := if stripped == "" then target.path else proxy.targetBase + stripped;
    var query' := if target.query.Some? then target.query else query;
    SameWithQuery(joined, query, built, query');
    assert stripped == "" <==> path == b;
  }

  // ----- every mount path

  lemma {:induction false} TrimTwice(s: string)
    ensures TrimSlashes(TrimSlashes(s)) == TrimSlashes(s)
  {
    TrimmedEnd(s);
    TrimFixed(TrimSlashes(s));
  }

  /** Trailing slashes of the mount path make no difference, unless nothing else is left. */
  lemma MountTrimmed(target: Target, p: string, pathAndQuery: string)
    requires target.authority.Some? && TrimSlashes(p) != ""
    ensures TransformUri(NewProxy(p, target).value, pathAndQuery) ==
            TransformUri(NewProxy(TrimSlashes(p), target).value, pathAndQuery)
  {
    hide TrimSlashes, SplitQuery, WithQuery;
    TrimTwice(p);
    assert p != "" by { TrimmedEmpty(); }
  }

  lemma TrimmedEmpty()
    ensures TrimSlashes("") == ""
  {
  }

  /**
   A proxy mounted at the root, written "" or "/" or with more slashes, sends
   every path but "/" whole, to where a route without a literal prefix sends it.
   */
  lemma RootMount(target: Target, p: string, path: string, query: Option<string>)
    requires PathText(target.path) && target.authority.Some?
    requires TrimSlashes(p) == "" && PathText(path) && path != "/"
    ensures var got := TransformUri(NewProxy(p, target).value, WithQuery(path, query));
            && got.pathAndQuery == WithQuery(TrimSlashes(target.path) + path, query)
            && (got == BuildUpstreamUri(target, query, Some(StripRoutePrefix(path, ""))).value
                <==> target.query.None? || target.query == query)
  {
    hide TrimSlashes, SplitQuery, WithQuery;
    var proxy := NewProxy(p, target).value;
    SplitWithQuery(path, query);
    TargetShape(p, target);
    var joined := proxy.targetBase + path;
    var query' := if target.query.Some? then target.query else query;
    SameWithQuery(joined, query, joined, query');
  }

  /** The path "/" gives the target's path with its trailing slashes cut to at most one; the mount "" adds one. */
  lemma RootPath(target: Target, p: string, query: Option<string>)
    requires PathText(target.path) && target.authority.Some?
    ensures var base := TrimSlashes(target.path);
            TransformUri(NewProxy(p, target).value, WithQuery("/", query)).pathAndQuery ==
            WithQuery(base + (if p == "" || TrailingSlashes(target.path) >= 1 then "/" else ""), query)
  {
    hide TrimSlashes, SplitQuery, WithQuery;
    var proxy := NewProxy(p, target).value;
    var base := TrimSlashes(target.path);
    SplitWithQuery("/", query);
    TargetShape(p, target);
    TrimmedEmpty();
    TrimmedEnd(target.path);
    assert base == target.path[..|base|];
    assert base + "" == base;
    if TrailingSlashes(target.path) == 0 {
      assert JoinedPath(proxy, "") == target.path;
      assert |base| == |target.path|;
    }
  }

  /** Scheme and authority are the target's; the scheme is http if it has none. */
  lemma DestinationKept(target: Target, p: string, pathAndQuery: string, query: Option<string>, append: Option<string>)
    requires target.authority.Some?
    ensures var scheme := if target.scheme == None then "http" else target.scheme.value;
            var sent := TransformUri(NewProxy(p, target).value, pathAndQuery);
            var built := BuildUpstreamUri(target, query, append);
            && (sent.scheme, sent.authority) == (scheme, target.authority.value)
            && built.Some? && (built.value.scheme, built.value.authority) == (scheme, target.authority.value)
  {
    hide TrimSlashes, SplitQuery, WithQuery, RemainingPath;
  }

  /** Without an authority neither gives a URI. */
  lemma NoDestination(target: Target, p: string, query: Option<string>, append: Option<string>)
    requires target.authority == None
    ensures NewProxy(p, target) == None && BuildUpstreamUri(target, query, append) == None
  {
  }

  /** A target that is no base URL, as every template is, is used with its own path as it stands. */
  lemma OwnPathKept(target: Target, query: Option<string>)
    requires PathText(target.path) && target.authority.Some?
    ensures SplitQuery(BuildUpstreamUri(target, query, None).value.pathAndQuery) ==
            (target.path, if target.query.Some? then target.query else query)
  {
    hide TrimSlashes, SplitQuery, WithQuery;
    SplitWithQuery(target.path, if target.query.Some? then target.query else query);
  }

  // ----- mounting styles

  /** The paths for which nesting, which strips the mount path first, makes no difference. */
  predicate NestingAgrees(target: Target, b: string, rest: string) {
    || rest == ""
    || (rest == "/" && TrailingSlashes(target.path) >= 1)
    || (rest != "/" && !Under(rest, b))
  }

  /**
   A proxy that gets the full path and one that gets the path without its mount
   point (as "/" when nothing is left) use the same URI exactly in these cases;
   the documentation promises it for all.
   */
  lemma MountingStyles(target: Target, b: string, rest: string, query: Option<string>)
    requires PathText(target.path) && target.authority.Some? && Prefix(b)
    requires rest == "" || PathText(rest)
    ensures var proxy := NewProxy(b, target).value;
            TransformUri(proxy, WithQuery(b + rest, query)) ==
            TransformUri(proxy, WithQuery(if rest == "" then "/" else rest, query))
            <==> NestingAgrees(target, b, rest)
  {
    hide WithQuery, SplitQuery, TrimSlashes, JoinedPath, RemainingPath, NestingAgrees, Find;
    var proxy := NewProxy(b, target).value;
    var inner := if rest == "" then "/" else rest;
    NestedJoin(target, b, rest);
    SplitWithQuery(b + rest, query);
    SplitWithQuery(inner, query);
    var full, nested := RemainingPath(b, b + rest), RemainingPath(b, inner);
    SameWithQuery(JoinedPath(proxy, full), query, JoinedPath(proxy, nested), query);
  }

  /** The joined paths of the two styles. */
  lemma NestedJoin(target: Target, b: string, rest: string)
    requires PathText(target.path) && target.authority.Some? && Prefix(b)
    requires rest == "" || PathText(rest)
    ensures var full, nested := RemainingPath(b, b + rest), RemainingPath(b, if rest == "" then "/" else rest);
            var proxy := NewProxy(b, target).value;
            && (JoinedPath(proxy, full) == JoinedPath(proxy, nested) <==> NestingAgrees(target, b, rest))
            && '?' !in JoinedPath(proxy, full) && '?' !in JoinedPath(proxy, nested)
  {
    hide TrimSlashes, StripRoutePrefix, Find;
    var proxy := NewProxy(b, target).value;
    var inner := if rest == "" then "/" else rest;
    StrippersAgree(b + rest, b);
    StrippersAgree(inner, b);
    TargetShape(b, target);
    assert (b + rest)[|b|..] == rest;
    assert RemainingPath(b, b + rest) == rest;
    if Under(rest, b) && rest != "/" && rest != "" {
      StripTwiceDiffers(proxy, rest, RemainingPath(b, inner));
    }
  }

  lemma StripTwiceDiffers(proxy: ReverseProxy, rest: string, nested: string)
    requires |rest| >= |nested| + 2
    ensures JoinedPath(proxy, rest) != JoinedPath(proxy, nested)
  {
    assert |JoinedPath(proxy, rest)| == |proxy.targetBase| + |rest|;
  }

  /** A concrete case in which the documented consistency fails: a path below the mount point that repeats it. */
  lemma NestedRepeatDiffers(target: Target)
    requires PathText(target.path) && target.authority.Some?
    ensures var proxy := NewProxy("/api", target).value;
            TransformUri(proxy, "/api/api/x") != TransformUri(proxy, "/api/x")
  {
    hide TransformUri;
    assert "/api" + "/api/x" == "/api/api/x";
    assert Prefix("/api") && PathText("/api/x");
    assert Under("/api/x", "/api");
    MountingStyles(target, "/api", "/api/x", None);
    assert WithQuery("/api/api/x", None) == "/api/api/x" && WithQuery("/api/x", None) == "/api/x";
  }

  // ----- what a join keeps

  predicate DoubleSlash(s: string) { exists i | 0 <= i < |s| - 1 :: s[i] == '/' && s[i + 1] == '/' }

  lemma ConcatSlash(a: string, b: string)
    requires a == "" || a[|a| - 1] != '/'
    requires DoubleSlash(a + b)
    ensures DoubleSlash(a) || DoubleSlash(b)
  {
    var s := a + b;
    var i :| 0 <= i < |s| - 1 && s[i] == '/' && s[i + 1] == '/';
    if i + 1 < |a| {
      assert a[i] == '/' && a[i + 1] == '/';
    } else {
      assert i >= |a|;
      assert b[i - |a|] == '/' && b[i - |a| + 1] == '/';
    }
  }

  /** Joining makes no double slash that is in neither part, and carries the request's query verbatim. */
  lemma JoinKeeps(target: Target, proxyPath: string, pathAndQuery: string)
    requires PathText(target.path) && target.authority.Some?
    ensures var proxy := NewProxy(proxyPath, target).value;
            var (path, query) := SplitQuery(pathAndQuery);
            var (path', query') := SplitQuery(TransformUri(proxy, pathAndQuery).pathAndQuery);
            && query' == query
            && path' == JoinedPath(proxy, RemainingPath(proxyPath, path))
            && (DoubleSlash(path') ==> DoubleSlash(target.path) || DoubleSlash(path))
  {
    hide DoubleSlash, WithQuery, TrimSlashes, SplitQuery, RemainingPath, JoinedPath;
    var proxy := NewProxy(proxyPath, target).value;
    var (path, query) := SplitQuery(pathAndQuery);
    PathHasNoQuery(pathAndQuery);
    var k := RemainingIsSuffix(proxyPath, path);
    var rest := RemainingPath(proxyPath, path);
    assert '?' !in rest;
    JoinedShape(target, proxyPath, rest);
    SplitWithQuery(JoinedPath(proxy, rest), query);
    if DoubleSlash(JoinedPath(proxy, rest)) {
      JoinedSlash(target, proxyPath, rest);
      if DoubleSlash(rest) {
        assert path[k..|path|] == rest;
        SliceSlash(path, k, |path|);
      }
    }
  }

  /** So does a route's join; its query is the target's own or else the request's. */
  lemma RouteJoinKeeps(target: Target, query: Option<string>, append: string)
    requires PathText(target.path) && target.authority.Some?
    requires append == "" || PathText(append)
    ensures var (path', query') := SplitQuery(BuildUpstreamUri(target, query, Some(append)).value.pathAndQuery);
            && query' == (if target.query.Some? then target.query else query)
            && (append == "" ==> path' == target.path)
            && (append != "" ==> path' == TrimSlashes(target.path) + append)
            && (DoubleSlash(path') ==> DoubleSlash(target.path) || DoubleSlash(append))
  {
    hide DoubleSlash, WithQuery, TrimSlashes, SplitQuery;
    var base := TrimSlashes(target.path);
    var path' := if append == "" then target.path else base + append;
    TrimmedEnd(target.path);
    assert target.path[0..|base|] == base;
    SplitWithQuery(path', if target.query.Some? then target.query else query);
    if append != "" && DoubleSlash(path') {
      ConcatSlash(base, append);
      if DoubleSlash(base) { SliceSlash(target.path, 0, |base|); }
    }
  }

  lemma PathHasNoQuery(pathAndQuery: string)
    ensures '?' !in SplitQuery(pathAndQuery).0
  {
  }

  lemma RemainingIsSuffix(proxyPath: string, path: string) returns (k: nat)
    ensures k <= |path| && RemainingPath(proxyPath, path) == path[k..]
  {
    var rest := RemainingPath(proxyPath, path);
    k := |path| - |rest|;
  }

  lemma JoinedShape(target: Target, proxyPath: string, rest: string)
    requires PathText(target.path) && target.authority.Some? && '?' !in rest
    ensures '?' !in JoinedPath(NewProxy(proxyPath, target).value, rest)
  {
    TargetShape(proxyPath, target);
  }

  lemma JoinedSlash(target: Target, proxyPath: string, rest: string)
    requires PathText(target.path) && target.authority.Some?
    requires DoubleSlash(JoinedPath(NewProxy(proxyPath, target).value, rest))
    ensures DoubleSlash(target.path) || DoubleSlash(rest)
  {
    hide DoubleSlash, TrimSlashes;
    var base := NewProxy(proxyPath, target).value.targetBase;
    TargetShape(proxyPath, target);
    TrimmedEnd(target.path);
    if rest == "" {
      EmptyRestSlash(proxyPath, target);
    } else {
      ConcatSlash(base, rest);
      if DoubleSlash(base) {
        assert target.path[0..|base|] == base;
        SliceSlash(target.path, 0, |base|);
      }
    }
  }

  lemma SliceSlash(s: string, lo: nat, hi: nat)
    requires lo <= hi <= |s| && DoubleSlash(s[lo..hi])
    ensures DoubleSlash(s)
  {
    var part := s[lo..hi];
    var i :| 0 <= i < |part| - 1 && part[i] == '/' && part[i + 1] == '/';
    assert s[lo + i] == '/' && s[lo + i + 1] == '/';
  }

  lemma EmptyRestSlash(proxyPath: string, target: Target)
    requires PathText(target.path) && target.authority.Some?
    requires DoubleSlash(JoinedPath(NewProxy(proxyPath, target).value, ""))
    ensures DoubleSlash(target.path)
  {
    hide TrimSlashes;
    var proxy := NewProxy(proxyPath, target).value;
    var joined := JoinedPath(proxy, "");
    TargetShape(proxyPath, target);
    TrimmedEnd(target.path);
    assert joined <= target.path;
    SliceSlash(target.path, 0, |joined|);
  }
}
