/** Endpoint normal form of extensions/microsoft-foundry/shared.ts, on http(s) URLs. */
module FoundryEndpoint {
  import opened Base

  /** The parts of a parsed URL that the code reads; `origin` is scheme, "://" and host with port. */
  datatype Url = Url(scheme: string, host: string, pathname: string, search: string, hash: string)

  function Origin(u: Url): string {
    u.scheme + "://" + u.host
  }

  predicate EndsPart(c: char) {
    c == '/' || c == '?' || c == '#'
  }

  /** The shape the URL parser gives to every http(s) URL. */
  predicate IsParsed(u: Url) {
    && (u.scheme == "http" || u.scheme == "https")
    && u.host != "" && (forall c | c in u.host :: !EndsPart(c))
    && u.pathname != "" && u.pathname[0] == '/' && '?' !in u.pathname && '#' !in u.pathname
    && (u.search == "" || (u.search[0] == '?' && '#' !in u.search))
    && (u.hash == "" || u.hash[0] == '#')
  }

  // ---------------------------------------------------------------- the two path rewrites

  function Lower(c: char): char {
    if 'A' <= c <= 'Z' then (c as int - 'A' as int + 'a' as int) as char else c
  }

  const OPENAI := "/openai"

  // The pattern /\/openai(?:$|\/)/i matches at the start of the text.
  predicate OpenaiHere(s: string) {
    |s| >= |OPENAI| && (forall i | 0 <= i < |OPENAI| :: Lower(s[i]) == OPENAI[i])
    && (|s| == |OPENAI| || s[|OPENAI|] == '/')
  }

  // The first replacement: everything from the first match of that pattern on is cut.
  function CutOpenai(s: string): (r: string)
    ensures r <= s
  {
    if s == "" || OpenaiHere(s) then "" else [s[0]] + CutOpenai(s[1..])
  }

  // The second replacement: trailing slashes go.
  function StripSlashes(s: string): (r: string)
    ensures r <= s
    ensures r != "" ==> r[|r| - 1] != '/'
    ensures forall i | |r| <= i < |s| :: s[i] == '/'
  {
    if s != "" && s[|s| - 1] == '/' then StripSlashes(s[..|s| - 1]) else s
  }

  function NormalizedPath(pathname: string): string {
    StripSlashes(CutOpenai(pathname))
  }

  /** `normalizeFoundryEndpoint`, once the endpoint has been parsed. */
  function Normalize(u: Url): string {
    var path := NormalizedPath(u.pathname);
    Origin(u) + if path != "" && path != "/" then path else ""
  }

  const V1_SUFFIX := "/openai/v1"

  predicate EndsWith(s: string, suffix: string) {
    |s| >= |suffix| && s[|s| - |suffix|..] == suffix
  }

  /** `buildFoundryV1BaseUrl`. */
  function BuildV1(u: Url): string {
    var base := Normalize(u);
    if EndsWith(base, V1_SUFFIX) then base else base + V1_SUFFIX
  }

  // ---------------------------------------------------------------- reading the results back

  function FirstOf(s: string, stops: set<char>): (i: nat)
    ensures i <= |s| && (i < |s| ==> s[i] in stops) && forall j | 0 <= j < i :: s[j] !in stops
  {
    if s == "" || s[0] in stops then 0 else 1 + FirstOf(s[1..], stops)
  }

  /** `new URL(s)` on a text that is already in the parser's own notation. */
  function Parse(s: string): Option<Url> {
    if "http://" <= s then ParseRest("http", s[7..])
    else if "https://" <= s then ParseRest("https", s[8..])
    else None
  }

  function ParseRest(scheme: string, s: string): Option<Url> {
    var h := FirstOf(s, {'/', '?', '#'});
    var afterHost := s[h..];
    var p := FirstOf(afterHost, {'?', '#'});
    var afterPath := afterHost[p..];
    var q := FirstOf(afterPath, {'#'});
    if h == 0 then None
    else Some(Url(scheme, s[..h], if p == 0 then "/" else afterHost[..p], afterPath[..q], afterPath[q..]))
  }

  lemma FirstOfConcat(a: string, b: string, stops: set<char>)
    requires (forall c | c in a :: c !in stops) && (b != "" ==> b[0] in stops)
    ensures FirstOf(a + b, stops) == |a|
    ensures (a + b)[..|a|] == a && (a + b)[|a|..] == b
  {
  }

  lemma ParseRestHref(u: Url, pathname: string)
    requires IsParsed(u.(pathname := if pathname == "" then "/" else pathname))
    ensures ParseRest(u.scheme, u.host + (pathname + (u.search + u.hash))) ==
            Some(u.(pathname := if pathname == "" then "/" else pathname))
  {
    FirstOfConcat(u.search, u.hash, {'#'});
    FirstOfConcat(pathname, u.search + u.hash, {'?', '#'});
    FirstOfConcat(u.host, pathname + (u.search + u.hash), {'/', '?', '#'});
  }

  lemma ParseScheme(rest: string)
    ensures Parse("http" + "://" + rest) == ParseRest("http", rest)
    ensures Parse("https" + "://" + rest) == ParseRest("https", rest)
  {
    var plain, secure := "http" + "://" + rest, "https" + "://" + rest;
    assert plain == "http://" + rest && plain[7..] == rest;
    assert secure == "https://" + rest && secure[8..] == rest;
    assert secure[4] == 's' && "http://"[4] == ':';
  }

  /** Parsing the text of a URL gives the URL back; a missing path is the root path. */
  lemma ParseHref(u: Url, pathname: string)
    requires IsParsed(u.(pathname := if pathname == "" then "/" else pathname))
    ensures Parse(Origin(u) + (pathname + (u.search + u.hash))) ==
            Some(u.(pathname := if pathname == "" then "/" else pathname))
  {
    var rest := u.host + (pathname + (u.search + u.hash));
    ParseRestHref(u, pathname);
    ParseScheme(rest);
    SchemeFirst(u, pathname + (u.search + u.hash));
  }

  lemma SchemeFirst(u: Url, rest: string)
    ensures Origin(u) + rest == u.scheme + "://" + (u.host + rest)
  {
  }

  // ---------------------------------------------------------------- paths

  /** No position of the path starts an openai match. */
  predicate OpenaiFree(s: string) {
    forall i | 0 <= i < |s| :: !OpenaiHere(s[i..])
  }

  lemma {:induction false} CutFixpoint(s: string)
    ensures OpenaiFree(s) ==> CutOpenai(s) == s
  {
    if s != "" && OpenaiFree(s) {
      assert s[0..] == s;
      assert forall i | 0 <= i < |s[1..]| :: s[1..][i..] == s[i + 1..];
      CutFixpoint(s[1..]);
    }
  }

  /** What is kept in front of the first match holds no match, nor does it once its trailing slashes are gone. */
  lemma {:induction false} CutIsFree(s: string, i: nat)
    requires i < |CutOpenai(s)|
    ensures !OpenaiHere(s[i..])
  {
    if i > 0 {
      CutIsFree(s[1..], i - 1);
      assert s[1..][i - 1..] == s[i..];
    } else {
      assert s[0..] == s;
    }
  }

  lemma {:induction false} CutStopsAtMatch(s: string)
    ensures |CutOpenai(s)| < |s| ==> OpenaiHere(s[|CutOpenai(s)|..])
  {
    if s != "" && !OpenaiHere(s) {
      CutStopsAtMatch(s[1..]);
      assert s[1..][|CutOpenai(s[1..])|..] == s[|CutOpenai(s)|..];
    } else {
      assert s[0..] == s;
    }
  }

  /** A match in a shortened text whose next character is a slash in the full text is a match there. */
  lemma MatchExtends(s: string, n: nat, i: nat)
    requires i < n <= |s| && OpenaiHere(s[..n][i..]) && (n == |s| || s[n] == '/')
    ensures OpenaiHere(s[i..])
  {
  }

  /** Behind the path that is left comes a slash: a trailing one, or that of the match. */
  lemma SlashBehind(pathname: string)
    ensures var r := NormalizedPath(pathname);
            r <= pathname && (|r| < |pathname| ==> pathname[|r|] == '/')
  {
    var cut := CutOpenai(pathname);
    var r := StripSlashes(cut);
    if |r| < |cut| {
      assert cut[|r|] == '/';
    } else if |r| < |pathname| {
      CutStopsAtMatch(pathname);
      assert Lower(pathname[|cut|..][0]) == '/';
    }
  }

  /** What is left is the front of the path, without a trailing slash and free of "/openai" segments. */
  lemma NormalizedPathShape(pathname: string)
    ensures var r := NormalizedPath(pathname);
            && r <= pathname && (r != "" ==> r[|r| - 1] != '/') && OpenaiFree(r)
  {
    var r := NormalizedPath(pathname);
    SlashBehind(pathname);
    assert r == pathname[..|r|];
    forall i | 0 <= i < |r| ensures !OpenaiHere(r[i..]) {
      CutIsFree(pathname, i);
      if OpenaiHere(r[i..]) {
        MatchExtends(pathname, |r|, i);
      }
    }
  }

  /** A free path that does not end in a slash is its own normal form. */
  lemma FreePathFixpoint(r: string)
    requires OpenaiFree(r) && (r != "" ==> r[|r| - 1] != '/')
    ensures NormalizedPath(r) == r
  {
    CutFixpoint(r);
  }

  lemma {:induction false} CutBefore(r: string, rest: string)
    requires OpenaiFree(r) && OpenaiHere(rest)
    requires forall i | 0 <= i < |r| :: !OpenaiHere((r + rest)[i..])
    ensures CutOpenai(r + rest) == r
  {
    if r == "" {
      assert r + rest == rest;
    } else {
      assert (r + rest)[0..] == r + rest && (r + rest)[1..] == r[1..] + rest;
      assert forall i | 0 <= i < |r[1..]| :: r[1..][i..] == r[i + 1..];
      assert forall i | 0 <= i < |r[1..]| :: (r[1..] + rest)[i..] == (r + rest)[i + 1..];
      CutBefore(r[1..], rest);
    }
  }

  // ---------------------------------------------------------------- the laws

  /** The URL that a normalized endpoint is the text of. */
  function NormalUrl(u: Url): Url {
    var r := NormalizedPath(u.pathname);
    Url(u.scheme, u.host, if r == "" then "/" else r, "", "")
  }

  lemma NormalizeIsOriginAndPath(u: Url)
    requires IsParsed(u)
    ensures Normalize(u) == Origin(u) + NormalizedPath(u.pathname)
    ensures Parse(Normalize(u)) == Some(NormalUrl(u)) && IsParsed(NormalUrl(u))
  {
    var r := NormalizedPath(u.pathname);
    NormalizedPathShape(u.pathname);
    assert r != "/";
    assert Normalize(u) == Origin(u) + r;
    assert r + ("" + "") == r;
    ParseHref(Url(u.scheme, u.host, r, "", ""), r);
  }

  lemma RootPathNormalizesToNothing()
    ensures NormalizedPath("/") == ""
  {
  }

  /** Normalizing a normalized endpoint changes nothing. */
  lemma NormalizeIsIdempotent(u: Url)
    requires IsParsed(u)
    ensures Parse(Normalize(u)).Some? && Normalize(Parse(Normalize(u)).value) == Normalize(u)
  {
    NormalizeIsOriginAndPath(u);
    NormalizeIsOriginAndPath(NormalUrl(u));
    NormalPathAgain(u.pathname);
    assert Origin(NormalUrl(u)) == Origin(u);
  }

  lemma NormalPathAgain(pathname: string)
    ensures var r := NormalizedPath(pathname); NormalizedPath(if r == "" then "/" else r) == r
  {
    NormalizedPathShape(pathname);
    RootPathNormalizesToNothing();
    FreePathFixpoint(NormalizedPath(pathname));
  }

  /** The host is the one word "openai" and the path the one segment "v1". */
  predicate LooksBuilt(u: Url) {
    u.host == "openai" && NormalizedPath(u.pathname) == "/v1"
  }

  lemma BuiltEnds(prefix: string)
    ensures EndsWith(prefix + "://" + "openai" + "/v1", V1_SUFFIX)
  {
  }

  /** The suffix test succeeds on exactly one kind of endpoint: its slash-openai is the host. */
  lemma SuffixTestMeaning(u: Url)
    requires IsParsed(u)
    ensures EndsWith(Normalize(u), V1_SUFFIX) <==> LooksBuilt(u)
  {
    NormalizeIsOriginAndPath(u);
    NormalizedPathShape(u.pathname);
    if LooksBuilt(u) {
      BuiltEnds(u.scheme);
    } else if EndsWith(Normalize(u), V1_SUFFIX) {
      SuffixTestPath(u, NormalizedPath(u.pathname));
    }
  }

  /** The slashes of a text that ends in the suffix. */
  lemma SlashPlaces(base: string, m: nat)
    requires EndsWith(base, V1_SUFFIX) && 1 <= m <= 10
    ensures base[|base| - m] == '/' <==> m == 3 || m == 10
  {
  }

  /** Where the slash before the host, the host and what follows stand, counted from the end. */
  lemma HostPlaces(scheme: string, host: string, r: string)
    requires host != ""
    ensures var base := scheme + "://" + host + r;
            var n, m := |base|, |host| + |r|;
            && n >= m + 3 && base[n - m - 1] == '/' && base[n - m - 2] == '/'
            && (forall i | 0 <= i < |host| :: base[n - m + i] == host[i])
            && (r != "" ==> base[n - |r|] == r[0])
  {
  }

  lemma SlashesFromEnd(base: string, m: nat)
    requires EndsWith(base, V1_SUFFIX) && 1 <= m <= 10 && base[|base| - m] == '/'
    ensures m == 3 || m == 10
  {
    SlashPlaces(base, m);
  }

  lemma NoSlashIn(host: string)
    requires '/' !in host
    ensures forall i | 0 <= i < |host| :: host[i] != '/'
  {
  }

  lemma HostIsNotLast(scheme: string, host: string)
    requires host != "" && '/' !in host
    ensures !EndsWith(scheme + "://" + host, V1_SUFFIX)
  {
    var base := scheme + "://" + host;
    HostPlaces(scheme, host, "");
    assert base + "" == base;
    NoSlashIn(host);
    if EndsWith(base, V1_SUFFIX) {
      SlashPlaces(base, if |host| <= 2 then 2 * |host| else 3);
    }
  }

  lemma SuffixTestLengths(scheme: string, host: string, r: string)
    requires host != "" && '/' !in host && r != "" && r[0] == '/' && |r| < 10
    requires EndsWith(scheme + "://" + host + r, V1_SUFFIX)
    ensures |r| == 3 && |host| == 6
  {
    var base := scheme + "://" + host + r;
    HostPlaces(scheme, host, r);
    SlashesFromEnd(base, |r|);
    SlashPlaces(base, 10);
    NoSlashIn(host);
    if |host| < 7 {
      SlashesFromEnd(base, |host| + |r| + 1);
    }
  }

  /** Scheme, separator, host and path, where only the path may hold slashes: the path must be "/v1". */
  lemma SuffixTestPath(u: Url, r: string)
    requires IsParsed(u) && OpenaiFree(r) && (r != "" ==> r[0] == '/')
    requires EndsWith(u.scheme + "://" + u.host + r, V1_SUFFIX)
    ensures u.host == "openai" && r == "/v1"
  {
    var base := u.scheme + "://" + u.host + r;
    var n := |base|;
    if |r| >= 10 {
      assert r[|r| - 10..] == base[n - 10..];
      OpenaiInPath(r);
    } else {
      assert '/' !in u.host;
      HostIsNotLast(u.scheme, u.host);
      PathIsThere(u.scheme + "://" + u.host, r);
      SuffixTestLengths(u.scheme, u.host, r);
      SuffixParts(u.scheme + "://", u.host, r);
    }
  }

  lemma PathIsThere(origin: string, r: string)
    requires EndsWith(origin + r, V1_SUFFIX) && !EndsWith(origin, V1_SUFFIX)
    ensures r != ""
  {
    assert origin + "" == origin;
  }

  lemma SuffixParts(prefix: string, host: string, r: string)
    requires |host| == 6 && |r| == 3 && EndsWith(prefix + host + r, V1_SUFFIX)
    ensures host == "openai" && r == "/v1"
  {
    var base := prefix + host + r;
    var suffix := base[|prefix| - 1..];
    assert suffix == V1_SUFFIX;
    assert forall i | 0 <= i < 6 :: host[i] == suffix[1 + i];
    assert forall i | 0 <= i < 3 :: r[i] == suffix[7 + i];
    assert host == V1_SUFFIX[1..7] && r == V1_SUFFIX[7..];
  }

  lemma OpenaiInPath(r: string)
    requires EndsWith(r, V1_SUFFIX)
    ensures !OpenaiFree(r)
  {
  }

  lemma NoMatchAcrossSuffix(r: string, i: nat)
    requires OpenaiFree(r) && i < |r|
    ensures !OpenaiHere((r + V1_SUFFIX)[i..])
  {
    var t := (r + V1_SUFFIX)[i..];
    var k := |r| - i;
    assert forall j | 0 <= j < k :: t[j] == r[i..][j];
    assert t[k] == '/' && Lower(t[k]) == '/';
    assert k < |OPENAI| ==> OPENAI[k] != '/';
    assert !OpenaiHere(r[i..]);
  }

  lemma SuffixIsCutOff(r: string)
    requires OpenaiFree(r) && (r != "" ==> r[|r| - 1] != '/')
    ensures NormalizedPath(r + V1_SUFFIX) == r
  {
    forall i | 0 <= i < |r| ensures !OpenaiHere((r + V1_SUFFIX)[i..]) {
      NoMatchAcrossSuffix(r, i);
    }
    assert OpenaiHere(V1_SUFFIX);
    CutBefore(r, V1_SUFFIX);
  }

  /** The URL that a built base URL is the text of. */
  function BuiltUrl(u: Url): Url {
    if LooksBuilt(u) then NormalUrl(u)
    else Url(u.scheme, u.host, NormalizedPath(u.pathname) + V1_SUFFIX, "", "")
  }

  lemma PathWithSuffix(u: Url)
    requires IsParsed(u)
    ensures IsParsed(Url(u.scheme, u.host, NormalizedPath(u.pathname) + V1_SUFFIX, "", ""))
  {
    var r := NormalizedPath(u.pathname);
    NormalizedPathShape(u.pathname);
    assert forall c | c in r :: c in u.pathname;
    assert forall c | c in V1_SUFFIX :: c != '?' && c != '#';
  }

  lemma SuffixedParses(u: Url, path: string)
    requires IsParsed(Url(u.scheme, u.host, path, "", ""))
    ensures Parse(Origin(u) + path) == Some(Url(u.scheme, u.host, path, "", ""))
  {
    assert path + ("" + "") == path;
    ParseHref(Url(u.scheme, u.host, path, "", ""), path);
  }

  /** What building writes. */
  lemma BuildWrites(u: Url)
    requires IsParsed(u)
    ensures BuildV1(u) ==
            if LooksBuilt(u) then Normalize(u) else Origin(u) + (NormalizedPath(u.pathname) + V1_SUFFIX)
  {
    NormalizeIsOriginAndPath(u);
    SuffixTestMeaning(u);
    Regroup(Origin(u), NormalizedPath(u.pathname), V1_SUFFIX);
    AddSuffix(Normalize(u), Origin(u), NormalizedPath(u.pathname));
  }

  lemma Regroup(a: string, b: string, c: string)
    ensures a + b + c == a + (b + c)
  {
  }

  lemma AddSuffix(base: string, origin: string, path: string)
    requires base == origin + path
    ensures (if EndsWith(base, V1_SUFFIX) then base else base + V1_SUFFIX) ==
            if EndsWith(base, V1_SUFFIX) then base else origin + (path + V1_SUFFIX)
  {
  }

  lemma BuiltIsParsed(u: Url)
    requires IsParsed(u)
    ensures IsParsed(BuiltUrl(u)) && Parse(BuildV1(u)) == Some(BuiltUrl(u))
  {
    BuildWrites(u);
    if LooksBuilt(u) {
      NormalizeIsOriginAndPath(u);
    } else {
      PathWithSuffix(u);
      SuffixedParses(u, NormalizedPath(u.pathname) + V1_SUFFIX);
    }
  }

  /** Normalizing a built base URL gives the normalized endpoint back. */
  lemma NormalizeUndoesBuild(u: Url)
    requires IsParsed(u)
    ensures Parse(BuildV1(u)).Some? && Normalize(Parse(BuildV1(u)).value) == Normalize(u)
  {
    BuiltIsParsed(u);
    NormalizeIsOriginAndPath(u);
    if LooksBuilt(u) {
      NormalizeIsIdempotent(u);
    } else {
      NormalizedPathShape(u.pathname);
      SuffixIsCutOff(NormalizedPath(u.pathname));
      NormalizeIsOriginAndPath(BuiltUrl(u));
    }
  }

  /** Building from a built base URL changes nothing. */
  lemma BuildIsIdempotent(u: Url)
    requires IsParsed(u)
    ensures Parse(BuildV1(u)).Some? && BuildV1(Parse(BuildV1(u)).value) == BuildV1(u)
  {
    NormalizeUndoesBuild(u);
  }

  /** The one case in which no suffix is added: https://openai/v1 already ends in it. */
  lemma HostNamedOpenai()
    ensures var u := Url("https", "openai", "/v1", "", "");
            IsParsed(u) && LooksBuilt(u) && BuildV1(u) == Normalize(u)
  {
    OpenaiUrl();
    ShortPathIsFree("/v1");
    FreePathFixpoint("/v1");
    SuffixTestMeaning(Url("https", "openai", "/v1", "", ""));
  }

  lemma OpenaiUrl()
    ensures IsParsed(Url("https", "openai", "/v1", "", ""))
  {
  }

  lemma ShortPathIsFree(path: string)
    requires |path| < |OPENAI|
    ensures OpenaiFree(path)
  {
  }

  // ---------------------------------------------------------------- the path, told in characters

  /** A slash and the word "openai" in any case, at the end of the text or before another slash. */
  lemma OpenaiMeaning(s: string)
    ensures OpenaiHere(s) <==>
            && |s| >= 7 && s[0] == '/' && s[1] in {'o', 'O'} && s[2] in {'p', 'P'} && s[3] in {'e', 'E'}
            && s[4] in {'n', 'N'} && s[5] in {'a', 'A'} && s[6] in {'i', 'I'} && (|s| == 7 || s[7] == '/')
  {
  }

  /** The path is what stands before the slashes in front of the first match, or at the end when there is none. */
  lemma PathIsCut(pathname: string)
    ensures var r, cut := NormalizedPath(pathname), CutOpenai(pathname);
            && r <= cut && (forall i | |r| <= i < |cut| :: cut[i] == '/') && (r != "" ==> r[|r| - 1] != '/')
            && cut <= pathname && (forall i | 0 <= i < |cut| :: !OpenaiHere(pathname[i..]))
            && (cut == pathname || OpenaiHere(pathname[|cut|..]))
  {
    forall i | 0 <= i < |CutOpenai(pathname)| ensures !OpenaiHere(pathname[i..]) {
      CutIsFree(pathname, i);
    }
    CutStopsAtMatch(pathname);
  }

  /** Every endpoint but one is built as its scheme, host and path with "/openai/v1" behind. */
  lemma BuildAppends(u: Url)
    requires IsParsed(u)
    ensures u.host == "openai" && NormalizedPath(u.pathname) == "/v1" ==>
              BuildV1(u) == u.scheme + "://" + "openai" + "/v1"
    ensures !(u.host == "openai" && NormalizedPath(u.pathname) == "/v1") ==>
              BuildV1(u) == u.scheme + "://" + u.host + (NormalizedPath(u.pathname) + "/openai/v1")
  {
    BuildWrites(u);
    NormalizeIsOriginAndPath(u);
  }

  lemma FooPath()
    ensures NormalizedPath("/foo/OpenAI/x") == "/foo"
  {
    var rest := "/OpenAI/x";
    assert "/foo" + rest == "/foo/OpenAI/x";
    ShortPathIsFree("/foo");
    forall i | 0 <= i < 4 ensures !OpenaiHere(("/foo" + rest)[i..]) {
      assert ("/foo" + rest)[1] == 'f' && ("/foo" + rest)[2] == 'o' && ("/foo" + rest)[3] == 'o';
      OpenaiMeaning(("/foo" + rest)[i..]);
    }
    OpenaiMeaning(rest);
    CutBefore("/foo", rest);
  }
}
