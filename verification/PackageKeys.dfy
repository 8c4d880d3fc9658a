/** Keys under which docker/install-dynamic-plugins.py files its plugins: the regular expressions
    of NPMPackageMerger and OciPackageMerger written as functions on strings.  `.` does not match
    a newline and `$` also matches before a final one. */
module PackageKeys {
  import opened Wrappers

  /** Length of the longest prefix none of whose characters is a stop character. */
  function Run(s: string, stop: char -> bool): (n: nat)
    ensures n <= |s| && (n < |s| ==> stop(s[n]))
    ensures forall i :: 0 <= i < n ==> !stop(s[i])
  {
    if s == "" || stop(s[0]) then 0 else 1 + Run(s[1..], stop)
  }

  lemma {:induction false} RunIs(s: string, stop: char -> bool, n: nat)
    requires n <= |s| && (n < |s| ==> stop(s[n]))
    requires forall i :: 0 <= i < n ==> !stop(s[i])
    ensures Run(s, stop) == n
  {
    if n > 0 {
      RunIs(s[1..], stop, n - 1);
    }
  }

  predicate IsSpace(c: char) {
    || c in {' ', '\t', '\n', '\r', '\U{0B}', '\U{0C}', '\U{85}', '\U{A0}', '\U{1680}'}
    || '\U{1C}' <= c <= '\U{1F}'
    || '\U{2000}' <= c <= '\U{200A}'
    || c in {'\U{2028}', '\U{2029}', '\U{202F}', '\U{205F}', '\U{3000}'}
  }

  /** The run and what follows it. */
  function Split(s: string, stop: char -> bool): (r: (string, string))
    ensures s == r.0 + r.1
    ensures (forall i :: 0 <= i < |r.0| ==> !stop(r.0[i])) && (r.1 != "" ==> stop(r.1[0]))
  {
    (s[..Run(s, stop)], s[Run(s, stop)..])
  }

  lemma SplitIs(head: string, tail: string, stop: char -> bool)
    requires forall i :: 0 <= i < |head| ==> !stop(head[i])
    requires tail != "" ==> stop(tail[0])
    ensures Split(head + tail, stop) == (head, tail)
  {
    RunIs(head + tail, stop, |head|);
  }

  // ----- OCI packages

  datatype Version = Tag(tag: string) | Digest(algorithm: string, hash: string) {
    /** Groups 2 and 3 of the pattern */
    function Text(): string {
      if Tag? then tag else algorithm + hash
    }

    function Suffix(): string {
      (if Tag? then ":" else "@") + Text()
    }

    predicate Valid() {
      if Tag? then Word(tag) else algorithm in ["sha256:", "sha512:", "blake3:"] && Word(hash)
    }
  }

  /** What the pattern captures; the host stands between "oci://" and the version. */
  datatype OciRef = OciRef(host: string, version: Version, path: string) {
    predicate Valid() {
      && host != "" && (forall i :: 0 <= i < |host| ==> !HostEnd(host[i]))
      && version.Valid()
      && path != "" && forall i :: 0 <= i < |path| ==> !IsSpace(path[i])
    }

    function Render(): string {
      "oci://" + (host + (version.Suffix() + ("!" + path)))
    }
  }

  predicate HostEnd(c: char) { IsSpace(c) || c == ':' || c == '@' }

  predicate VersionEnd(c: char) { IsSpace(c) || c == '!' || c == '@' || c == ':' }

  /** `[^\s!@:]+` */
  predicate Word(s: string) {
    s != "" && forall i :: 0 <= i < |s| ==> !VersionEnd(s[i])
  }

  function DropPrefix(prefix: string, s: string): (rest: Option<string>)
    ensures rest.Some? ==> s == prefix + rest.value
  {
    if prefix <= s then Some(s[|prefix|..]) else None
  }

  lemma DropPrefixOf(prefix: string, rest: string)
    ensures DropPrefix(prefix, prefix + rest) == Some(rest)
  {
  }

  /** The text of a tag or hash up to the `!`, and what follows the `!`. */
  function BeforeBang(s: string): (r: Option<(string, string)>)
    ensures r.Some? ==> s == r.value.0 + ("!" + r.value.1) && Word(r.value.0)
  {
    var (head, tail) := Split(s, VersionEnd);
    if head != "" && tail != "" && tail[0] == '!' then Some((head, tail[1..])) else None
  }

  lemma BeforeBangIs(head: string, rest: string)
    requires Word(head)
    ensures BeforeBang(head + ("!" + rest)) == Some((head, rest))
  {
    SplitIs(head, "!" + rest, VersionEnd);
  }

  function ParseDigest(algorithm: string, s: string): (r: Option<(Version, string)>)
    requires algorithm in ["sha256:", "sha512:", "blake3:"]
    ensures r.Some? ==> r.value.0.Valid() && "@" + s == r.value.0.Suffix() + ("!" + r.value.1)
  {
    match DropPrefix(algorithm, s)
    case None => None
    case Some(rest) =>
      match BeforeBang(rest)
      case None => None
      case Some((hash, tail)) =>
        assert algorithm + (hash + ("!" + tail)) == (algorithm + hash) + ("!" + tail);
        Some((Digest(algorithm, hash), tail))
  }

  /** From the character after the host to the character after the `!`. */
  function ParseVersion(s: string): (r: Option<(Version, string)>)
    ensures r.Some? ==> r.value.0.Valid() && s == r.value.0.Suffix() + ("!" + r.value.1)
  {
    if s == "" then None
    else if s[0] == ':' then
      match BeforeBang(s[1..])
      case None => None
      case Some((tag, tail)) => Some((Tag(tag), tail))
    else if s[0] == '@' then
      assert s == "@" + s[1..];
      var a := ParseDigest("sha256:", s[1..]);
      var b := ParseDigest("sha512:", s[1..]);
      if a.Some? then a else if b.Some? then b else ParseDigest("blake3:", s[1..])
    else None
  }

  lemma ParseDigestIs(algorithm: string, hash: string, rest: string)
    requires Digest(algorithm, hash).Valid()
    ensures ParseDigest(algorithm, algorithm + (hash + ("!" + rest))) == Some((Digest(algorithm, hash), rest))
    ensures forall other :: other in ["sha256:", "sha512:", "blake3:"] && other != algorithm ==>
              ParseDigest(other, algorithm + (hash + ("!" + rest))) == None
  {
    BeforeBangIs(hash, rest);
    DropPrefixOf(algorithm, hash + ("!" + rest));
    var s := algorithm + (hash + ("!" + rest));
    assert s[..7] == algorithm;
    forall other | other in ["sha256:", "sha512:", "blake3:"] && other != algorithm
      ensures !(other <= s)
    {
      assert |other| == 7 <= |s| && s[..|other|] != other;
    }
  }

  lemma ParseVersionColon(t: string)
    ensures ParseVersion(":" + t) ==
            if BeforeBang(t).None? then None else Some((Tag(BeforeBang(t).value.0), BeforeBang(t).value.1))
  {
    hide BeforeBang, ParseDigest;
    assert (":" + t)[1..] == t;
  }

  lemma ParseVersionAt(t: string)
    ensures ParseVersion("@" + t) ==
            if ParseDigest("sha256:", t).Some? then ParseDigest("sha256:", t)
            else if ParseDigest("sha512:", t).Some? then ParseDigest("sha512:", t)
            else ParseDigest("blake3:", t)
  {
    hide BeforeBang, ParseDigest;
    assert ("@" + t)[1..] == t;
  }

  lemma ParseVersionIs(v: Version, rest: string)
    requires v.Valid()
    ensures ParseVersion(v.Suffix() + ("!" + rest)) == Some((v, rest))
  {
    hide ParseVersion, BeforeBang, ParseDigest;
    if v.Tag? {
      BeforeBangIs(v.tag, rest);
      ParseVersionColon(v.tag + ("!" + rest));
      Associate(":", v.tag, "!" + rest);
    } else {
      ParseDigestIs(v.algorithm, v.hash, rest);
      ParseVersionAt(v.algorithm + (v.hash + ("!" + rest)));
      Associate(v.algorithm, v.hash, "!" + rest);
      Associate("@", v.algorithm + v.hash, "!" + rest);
    }
  }

  /** `[^\s]+$` */
  function ParsePath(s: string): (r: Option<string>)
    ensures r.Some? ==> s == r.value || s == r.value + "\n"
    ensures r.Some? ==> r.value != "" && forall i :: 0 <= i < |r.value| ==> !IsSpace(r.value[i])
  {
    var path := if s != "" && s[|s| - 1] == '\n' then s[..|s| - 1] else s;
    if path != "" && Run(path, IsSpace) == |path| then Some(path) else None
  }

  /** re.match(EXPECTED_OCI_PATTERN, package) */
  function ParseOci(package: string): (r: Option<OciRef>)
    ensures r.Some? ==> r.value.Valid()
    ensures r.Some? ==> package == r.value.Render() || package == r.value.Render() + "\n"
  {
    match DropPrefix("oci://", package)
    case None => None
    case Some(s) =>
      var (host, rest) := Split(s, HostEnd);
      if host == "" then None else
      match ParseVersion(rest)
      case None => None
      case Some((version, tail)) =>
        match ParsePath(tail)
        case None => None
        case Some(path) =>
          NewlineLast(OciRef(host, version, path));
          Some(OciRef(host, version, path))
  }

  lemma NewlineLast(r: OciRef)
    ensures "oci://" + (r.host + (r.version.Suffix() + ("!" + (r.path + "\n")))) == r.Render() + "\n"
  {
    Associate("!", r.path, "\n");
    Associate(r.version.Suffix(), "!" + r.path, "\n");
    Associate(r.host, r.version.Suffix() + ("!" + r.path), "\n");
    Associate("oci://", r.host + (r.version.Suffix() + ("!" + r.path)), "\n");
  }

  lemma Associate(a: string, b: string, c: string)
    ensures a + (b + c) == (a + b) + c
  {
  }

  /** Parsing inverts rendering, so the pattern accepts exactly the renderings of valid
      references, with or without a final newline, and takes each apart in one way. */
  lemma ParseRender(r: OciRef)
    requires r.Valid()
    ensures ParseOci(r.Render()) == Some(r)
  {
    var tail := r.version.Suffix() + ("!" + r.path);
    DropPrefixOf("oci://", r.host + tail);
    SplitIs(r.host, tail, HostEnd);
    ParseVersionIs(r.version, r.path);
    RunIs(r.path, IsSpace, |r.path|);
  }

  function OciKey(r: OciRef): string {
    "oci://" + (r.host + (":!" + r.path))
  }

  /** `{{inherit}}` in place of the tag */
  predicate Inherits(r: OciRef) {
    r.version == Tag("{{inherit}}")
  }

  /** No other version has that text: a digest's has a colon in it. */
  lemma InheritText(r: OciRef)
    requires r.Valid()
    ensures r.version.Text() == "{{inherit}}" <==> Inherits(r)
  {
    if r.version.Digest? {
      assert r.version.Text()[0] == r.version.algorithm[0];
    }
  }

  /** Two OCI packages share a key exactly when registry and path are equal; their tags and
      digests play no part. */
  lemma OciKeyIdentifies(a: OciRef, b: OciRef)
    requires a.Valid() && b.Valid()
    ensures OciKey(a) == OciKey(b) <==> a.host == b.host && a.path == b.path
  {
    if OciKey(a) == OciKey(b) {
      assert OciKey(a)[6..] == OciKey(b)[6..];
      SplitIs(a.host, ":!" + a.path, HostEnd);
      SplitIs(b.host, ":!" + b.path, HostEnd);
      assert a.path == (":!" + a.path)[2..] == (":!" + b.path)[2..] == b.path;
    }
  }

  // ----- NPM, alias, git and local packages

  /** `(.+)$` */
  predicate DotsToEnd(s: string) {
    && s != ""
    && (forall i :: 0 <= i < |s| - 1 ==> s[i] != '\n')
    && (s[|s| - 1] == '\n' ==> |s| > 1)
  }

  predicate AtSign(c: char) { c == '@' }
  predicate Slash(c: char) { c == '/' }
  predicate Hash(c: char) { c == '#' }
  predicate SlashOrAt(c: char) { c == '/' || c == '@' }
  predicate SlashOrHash(c: char) { c == '/' || c == '#' }

  /** Length of `(@[^/]+/)?` */
  function ScopeLength(s: string): (n: nat)
    ensures n <= |s|
  {
    if s == "" || s[0] != '@' then 0 else
    var n := Run(s[1..], Slash);
    if n == 0 || n + 1 == |s| then 0 else n + 2
  }

  /** NPM_PACKAGE_PATTERN matched on all of `s`: the length of scope and name together. */
  function NpmNameLength(s: string): (n: Option<nat>)
    ensures n.Some? ==> 0 < n.value <= |s|
    ensures n.Some? && n.value < |s| ==> s[n.value] == '@'
  {
    var scope := ScopeLength(s);
    var name := Run(s[scope..], AtSign);
    if name == 0 then None
    else if scope + name == |s| || DotsToEnd(s[scope + name + 1..]) then Some(scope + name)
    else None
  }

  /** _strip_npm_package_version */
  function StripVersion(package: string): (key: string)
    ensures key <= package
  {
    match NpmNameLength(package)
    case Some(n) => package[..n]
    case None => package
  }

  /** A stripped name has nothing left to strip. */
  lemma StripTwice(s: string)
    requires NpmNameLength(s).Some?
    ensures StripVersion(s[..NpmNameLength(s).value]) == s[..NpmNameLength(s).value]
  {
    var scope := ScopeLength(s);
    var n := NpmNameLength(s).value;
    var t := s[..n];
    if scope > 0 {
      RunIs(t[1..], Slash, Run(s[1..], Slash));
    }
    assert s[scope..][0] != '@';
    assert ScopeLength(t) == scope;
    assert t[scope..] == s[scope..][..n - scope];
    RunIs(t[scope..], AtSign, n - scope);
  }

  /** NPM_ALIAS_PATTERN: where the target package starts. */
  function AliasTarget(package: string): (n: Option<nat>)
    ensures n.Some? ==> n.value <= |package| && NpmNameLength(package[n.value..]).Some?
  {
    var n := Run(package, AtSign);
    if n > 0 && "@npm:" <= package[n..] && NpmNameLength(package[n + 5..]).Some? then Some(n + 5) else None
  }

  /** `(?:#(.+))?$` */
  predicate RefToEnd(s: string) {
    s == "" || (s[0] == '#' && DotsToEnd(s[1..]))
  }

  /** `[^#]+(?:#(.+))?$` after the given prefix */
  predicate GitUrl(prefix: string, s: string) {
    && prefix <= s
    && var n := Run(s[|prefix|..], Hash);
       n > 0 && RefToEnd(s[|prefix| + n..])
  }

  /** `<user>/<repository>(?:#(.+))?$` after the given prefix */
  predicate Repository(prefix: string, userEnd: char -> bool, s: string) {
    && prefix <= s
    && var user := Run(s[|prefix|..], userEnd);
       var slash := |prefix| + user;
       && user > 0 && slash < |s| && s[slash] == '/'
       && var name := Run(s[slash + 1..], SlashOrHash);
          name > 0 && RefToEnd(s[slash + 1 + name..])
  }

  /** One of GIT_URL_PATTERNS matches. */
  predicate IsGit(s: string) {
    || GitUrl("git+http://", s) || GitUrl("git+https://", s)
    || GitUrl("git+ssh://", s)
    || GitUrl("git://", s)
    || Repository("https://github.com/", Slash, s)
    || Repository("git@github.com:", Slash, s)
    || Repository("github:", SlashOrAt, s)
    || Repository("", SlashOrAt, s)
  }

  predicate EndsWith(s: string, suffix: string) {
    |suffix| <= |s| && s[|s| - |suffix|..] == suffix
  }

  /** NPMPackageMerger.parse_plugin_key: the key is a prefix of the package. */
  function NpmKey(package: string): (key: string)
    ensures key <= package
  {
    if "./" <= package || EndsWith(package, ".tgz") then package
    else match AliasTarget(package)
      case Some(target) => AliasKey(package, target)
      case None =>
        if IsGit(package) then package[..Run(package, Hash)] else StripVersion(package)
  }

  function AliasKey(package: string, target: nat): (key: string)
    requires target <= |package| && NpmNameLength(package[target..]).Some?
    ensures key <= package
  {
    var rest := package[target..];
    var name := rest[..NpmNameLength(rest).value];
    assert package == package[..target] + (name + rest[|name|..]);
    StripTwice(rest);
    package[..target] + StripVersion(name)
  }

  // ----- All packages

  predicate IsOci(package: string) { "oci://" <= package }

  /** What the mergers get out of a package: its key, and for OCI packages the tag or digest and
      whether that is to be inherited. */
  datatype PackageId = PackageId(key: string, version: Option<string>, inherits: bool)

  type Parser = string -> Option<PackageId>

  /** parse_plugin_key of the merger for the kind of package; None where it raises. */
  function Identify(package: string): Option<PackageId> {
    if IsOci(package) then
      match ParseOci(package)
      case Some(r) => Some(PackageId(OciKey(r), Some(r.version.Text()), Inherits(r)))
      case None => None
    else
      Some(PackageId(NpmKey(package), None, false))
  }

  /** Packages of one key are both OCI packages or neither is. */
  ghost predicate KeysTellKinds(parse: Parser) {
    forall p, q :: parse(p).Some? && parse(q).Some? && parse(p).value.key == parse(q).value.key ==>
      (parse(p).value.version.Some? <==> parse(q).value.version.Some?)
  }

  /** An OCI plugin and any other plugin never meet under one key. */
  lemma KindsNeverCollide(a: string, b: string)
    requires IsOci(a) && !IsOci(b) && Identify(a).Some?
    ensures Identify(a).value.key != Identify(b).value.key
  {
    assert IsOci(OciKey(ParseOci(a).value));
    assert NpmKey(b) <= b;
  }

  lemma IdentifyTellsKinds()
    ensures KeysTellKinds(Identify)
  {
    forall p, q | Identify(p).Some? && Identify(q).Some? && Identify(p).value.key == Identify(q).value.key
      ensures Identify(p).value.version.Some? <==> Identify(q).value.version.Some?
    {
      hide ParseOci, NpmKey;
      if IsOci(p) && !IsOci(q) {
        KindsNeverCollide(p, q);
      } else if IsOci(q) && !IsOci(p) {
        KindsNeverCollide(q, p);
      }
    }
  }

  /** Changing nothing but the version of an OCI package keeps its key. */
  lemma KeyIgnoresVersion(r: OciRef, version: Version)
    requires r.Valid() && version.Valid()
    ensures Identify(r.Render()) == Some(PackageId(OciKey(r), Some(r.version.Text()), Inherits(r)))
    ensures Identify(r.(version := version).Render()).Some?
    ensures Identify(r.(version := version).Render()).value.key == OciKey(r)
  {
    ParseRender(r);
    ParseRender(r.(version := version));
  }
}
