/** What the key of a package that is no OCI image keeps and what it drops: the patterns of
    NPMPackageMerger in docker/install-dynamic-plugins.py, said by taking packages apart. */
module NpmKeys {
  import opened Wrappers
  import opened PackageKeys

  ghost predicate Lacks(s: string, stops: set<char>) {
    forall i :: 0 <= i < |s| ==> s[i] !in stops
  }

  /** `(.+)$`: a line, the end of the line included or not. */
  ghost predicate IsLine(s: string) {
    exists line :: line != "" && Lacks(line, {'\n'}) && (s == line || s == line + "\n")
  }

  /** Nothing, or `@scope/`. */
  ghost predicate IsScope(scope: string) {
    scope == "" || exists s :: s != "" && Lacks(s, {'/'}) && scope == "@" + (s + "/")
  }

  /** A mark and a line after it, or nothing. */
  ghost predicate IsSuffix(mark: char, suffix: string) {
    suffix == "" || exists line :: IsLine(line) && suffix == [mark] + line
  }

  /** [@scope/]name[@version] */
  ghost predicate IsNpm(s: string, scope: string, name: string, version: string) {
    && s == scope + (name + version)
    && IsScope(scope) && name != "" && Lacks(name, {'@'}) && IsSuffix('@', version)
  }

  /** Local packages and tarballs */
  ghost predicate IsWhole(package: string) {
    "./" <= package || exists front :: package == front + ".tgz"
  }

  ghost predicate IsAliasOf(package: string, alias: string, scope: string, name: string, version: string) {
    && alias != "" && Lacks(alias, {'@'})
    && exists target :: package == alias + ("@npm:" + target) && IsNpm(target, scope, name, version)
  }

  ghost predicate IsAlias(package: string) {
    exists alias, scope, name, version :: IsAliasOf(package, alias, scope, name, version)
  }

  ghost predicate IsRepository(body: string, userStops: set<char>) {
    exists user, name ::
      && body == user + ("/" + name)
      && user != "" && Lacks(user, userStops) && name != "" && Lacks(name, {'/', '#'})
  }

  ghost predicate GitBody(prefix: string, body: string) {
    || (prefix in {"git+http://", "git+https://", "git+ssh://", "git://"} && body != "" && Lacks(body, {'#'}))
    || (prefix in {"https://github.com/", "git@github.com:"} && IsRepository(body, {'/'}))
    || (prefix in {"github:", ""} && IsRepository(body, {'/', '@'}))
  }

  ghost predicate IsGitParts(package: string, prefix: string, body: string, reference: string) {
    package == prefix + (body + reference) && GitBody(prefix, body) && IsSuffix('#', reference)
  }

  ghost predicate IsGitAddress(package: string) {
    exists prefix, body, reference :: IsGitParts(package, prefix, body, reference)
  }

  // ----- The patterns are these shapes

  lemma DotsAreLine(s: string)
    ensures DotsToEnd(s) <==> IsLine(s)
  {
    if DotsToEnd(s) {
      var line := if s[|s| - 1] == '\n' then s[..|s| - 1] else s;
      assert line != "" && Lacks(line, {'\n'}) && (s == line || s == line + "\n");
    }
  }

  /** Where a run of characters ends. */
  lemma RunOver(head: string, tail: string, stop: char -> bool, stops: set<char>)
    requires forall c :: stop(c) <==> c in stops
    requires Lacks(head, stops) && (tail == "" || tail[0] in stops)
    ensures Run(head + tail, stop) == |head|
  {
    RunIs(head + tail, stop, |head|);
  }

  lemma RunParts(s: string, stop: char -> bool, stops: set<char>) returns (head: string, tail: string)
    requires forall c :: stop(c) <==> c in stops
    ensures s == head + tail && |head| == Run(s, stop)
    ensures Lacks(head, stops) && (tail == "" || tail[0] in stops)
  {
    head, tail := s[..Run(s, stop)], s[Run(s, stop)..];
  }

  lemma SuffixTail(mark: char, suffix: string)
    ensures IsSuffix(mark, suffix) <==> suffix == "" || (suffix[0] == mark && DotsToEnd(suffix[1..]))
  {
    if IsSuffix(mark, suffix) && suffix != "" {
      var line :| IsLine(line) && suffix == [mark] + line;
      assert suffix[1..] == line;
      DotsAreLine(line);
    }
    if suffix != "" && suffix[0] == mark && DotsToEnd(suffix[1..]) {
      DotsAreLine(suffix[1..]);
      assert suffix == [mark] + suffix[1..];
    }
  }

  lemma ScopeIs(scope: string, rest: string)
    requires IsScope(scope) && (scope == "" ==> rest == "" || rest[0] != '@')
    ensures ScopeLength(scope + rest) == |scope|
  {
    if scope != "" {
      var s :| s != "" && Lacks(s, {'/'}) && scope == "@" + (s + "/");
      assert (scope + rest)[1..] == s + ("/" + rest);
      RunOver(s, "/" + rest, Slash, {'/'});
    }
  }

  lemma NpmLengthIs(s: string, scope: string, name: string, version: string)
    requires IsNpm(s, scope, name, version)
    ensures NpmNameLength(s) == Some(|scope| + |name|)
    ensures s[..|scope| + |name|] == scope + name
  {
    hide Run, ScopeLength, IsScope, IsSuffix, DotsToEnd;
    assert (name + version)[0] == name[0];
    assert name[0] != '@';
    ScopeIs(scope, name + version);
    SuffixTail('@', version);
    RunOver(name, version, AtSign, {'@'});
    SplitAt(s, scope, name, version);
  }

  lemma SplitAt(s: string, scope: string, name: string, version: string)
    requires s == scope + (name + version)
    ensures s[|scope|..] == name + version
    ensures |s| == |scope| + |name| + |version|
    ensures version != "" ==> s[|scope| + |name| + 1..] == version[1..]
    ensures s[..|scope| + |name|] == scope + name
  {
    assert s[|scope| + |name|..] == version;
  }

  lemma ScopeParts(s: string) returns (scope: string, rest: string)
    ensures s == scope + rest && |scope| == ScopeLength(s) && IsScope(scope)
  {
    var n := ScopeLength(s);
    scope, rest := s[..n], s[n..];
    if n > 0 {
      var inner, tail := RunParts(s[1..], Slash, {'/'});
      assert scope == "@" + (inner + "/");
    }
  }

  lemma NpmParts(s: string) returns (scope: string, name: string, version: string)
    requires NpmNameLength(s).Some?
    ensures IsNpm(s, scope, name, version)
  {
    hide Run, ScopeLength, IsScope, IsSuffix, DotsToEnd;
    var rest;
    scope, rest := ScopeParts(s);
    assert rest == s[|scope|..];
    name, version := RunParts(rest, AtSign, {'@'});
    SplitAt(s, scope, name, version);
    SuffixTail('@', version);
  }

  lemma AliasTargetIs(package: string, alias: string, scope: string, name: string, version: string)
    requires IsAliasOf(package, alias, scope, name, version)
    ensures AliasTarget(package) == Some(|alias| + 5)
    ensures IsNpm(package[|alias| + 5..], scope, name, version)
  {
    hide IsNpm, NpmNameLength;
    var target :| package == alias + ("@npm:" + target) && IsNpm(target, scope, name, version);
    assert package[|alias| + 5..] == target;
    assert package[|alias|..] == "@npm:" + target;
    RunOver(alias, "@npm:" + target, AtSign, {'@'});
    NpmLengthIs(target, scope, name, version);
  }

  lemma AliasParts(package: string)
    requires AliasTarget(package).Some?
    ensures IsAlias(package)
  {
    hide IsNpm, NpmNameLength;
    var alias, tail := RunParts(package, AtSign, {'@'});
    var target := package[|alias| + 5..];
    assert tail == package[|alias|..];
    assert tail[..5] == "@npm:" && tail[5..] == target;
    var scope, name, version := NpmParts(target);
    assert package == alias + ("@npm:" + target);
    assert IsAliasOf(package, alias, scope, name, version);
  }

  lemma AliasIs(package: string)
    ensures AliasTarget(package).Some? <==> IsAlias(package)
  {
    hide IsAliasOf, AliasTarget;
    if IsAlias(package) {
      var alias, scope, name, version :| IsAliasOf(package, alias, scope, name, version);
      AliasTargetIs(package, alias, scope, name, version);
    }
    if AliasTarget(package).Some? {
      AliasParts(package);
    }
  }

  lemma WholeIs(package: string)
    ensures IsWhole(package) <==> "./" <= package || EndsWith(package, ".tgz")
  {
    if EndsWith(package, ".tgz") {
      assert package == package[..|package| - 4] + ".tgz";
    }
    if front :| package == front + ".tgz" {
      assert package[|package| - 4..] == ".tgz";
    }
  }

  lemma GitUrlParts(prefix: string, package: string) returns (body: string, reference: string)
    requires GitUrl(prefix, package)
    ensures package == prefix + (body + reference) && body != "" && Lacks(body, {'#'}) && IsSuffix('#', reference)
  {
    hide Run, IsSuffix, DotsToEnd;
    var rest := package[|prefix|..];
    body, reference := RunParts(rest, Hash, {'#'});
    assert package == prefix + rest;
    assert package[|prefix| + |body|..] == reference;
    SuffixTail('#', reference);
  }

  lemma GitUrlFrom(prefix: string, body: string, reference: string)
    requires body != "" && Lacks(body, {'#'}) && IsSuffix('#', reference)
    ensures GitUrl(prefix, prefix + (body + reference))
  {
    hide Run, IsSuffix, DotsToEnd;
    var package := prefix + (body + reference);
    SuffixTail('#', reference);
    assert package[|prefix|..] == body + reference;
    RunOver(body, reference, Hash, {'#'});
    assert package[|prefix| + |body|..] == reference;
  }

  /** What follows the prefix in Repository. */
  predicate RepositoryBody(rest: string, stop: char -> bool) {
    var user := Run(rest, stop);
    && user > 0 && user < |rest| && rest[user] == '/'
    && var name := Run(rest[user + 1..], SlashOrHash);
       name > 0 && RefToEnd(rest[user + 1 + name..])
  }

  lemma RepositoryRest(prefix: string, stop: char -> bool, rest: string)
    ensures Repository(prefix, stop, prefix + rest) <==> RepositoryBody(rest, stop)
  {
    hide RefToEnd, Run;
    var package := prefix + rest;
    assert package[|prefix|..] == rest;
    var user := Run(rest, stop);
    if user < |rest| {
      assert package[|prefix| + user + 1..] == rest[user + 1..];
      var name := Run(rest[user + 1..], SlashOrHash);
      assert package[|prefix| + user + 1 + name..] == rest[user + 1 + name..];
    }
  }

  lemma RepositoryParts(stop: char -> bool, stops: set<char>, rest: string) returns (body: string, reference: string)
    requires (forall c :: stop(c) <==> c in stops) && RepositoryBody(rest, stop)
    ensures rest == body + reference && IsRepository(body, stops) && IsSuffix('#', reference)
  {
    hide IsSuffix, DotsToEnd, Run;
    var user, tail := RunParts(rest, stop, stops);
    assert tail == rest[|user|..] && tail[1..] == rest[|user| + 1..];
    var name;
    name, reference := RunParts(tail[1..], SlashOrHash, {'/', '#'});
    assert reference == rest[|user| + 1 + |name|..];
    SuffixTail('#', reference);
    body := user + ("/" + name);
    assert rest == body + reference;
    assert IsRepository(body, stops);
  }

  lemma RepositoryFrom(stop: char -> bool, stops: set<char>, body: string, reference: string)
    requires (forall c :: stop(c) <==> c in stops) && '/' in stops
    requires IsRepository(body, stops) && IsSuffix('#', reference)
    ensures RepositoryBody(body + reference, stop)
  {
    hide IsSuffix, DotsToEnd, Run;
    var user, name :| body == user + ("/" + name)
                      && user != "" && Lacks(user, stops) && name != "" && Lacks(name, {'/', '#'});
    SuffixTail('#', reference);
    var rest := body + reference;
    assert rest == user + ("/" + (name + reference));
    RunOver(user, "/" + (name + reference), stop, stops);
    assert rest[|user| + 1..] == name + reference;
    RunOver(name, reference, SlashOrHash, {'/', '#'});
    assert rest[|user| + 1 + |name|..] == reference;
  }

  /** One of the patterns for git addresses matches exactly if the package has one of the forms. */
  lemma GitIs(package: string)
    ensures IsGit(package) <==> IsGitAddress(package)
  {
    hide GitUrl, Repository, IsRepository, IsSuffix;
    if IsGit(package) {
      GitParts(package);
    }
    if IsGitAddress(package) {
      var prefix, body, reference :| IsGitParts(package, prefix, body, reference);
      GitFrom(package, prefix, body, reference);
    }
  }

  lemma GitParts(package: string)
    requires IsGit(package)
    ensures IsGitAddress(package)
  {
    hide GitUrl, Repository, IsRepository, IsSuffix;
    if prefix :| prefix in ["git+http://", "git+https://", "git+ssh://", "git://"] && GitUrl(prefix, package) {
      var body, reference := GitUrlParts(prefix, package);
      assert IsGitParts(package, prefix, body, reference);
    } else if prefix :| prefix in ["https://github.com/", "git@github.com:"] && Repository(prefix, Slash, package) {
      RepositoryAfter(prefix, Slash, {'/'}, package);
    } else {
      var prefix :| prefix in ["github:", ""] && Repository(prefix, SlashOrAt, package);
      RepositoryAfter(prefix, SlashOrAt, {'/', '@'}, package);
    }
  }

  lemma RepositoryAfter(prefix: string, stop: char -> bool, stops: set<char>, package: string)
    requires (forall c :: stop(c) <==> c in stops) && Repository(prefix, stop, package)
    requires || (prefix in {"https://github.com/", "git@github.com:"} && stops == {'/'})
             || (prefix in {"github:", ""} && stops == {'/', '@'})
    ensures IsGitAddress(package)
  {
    hide IsRepository, IsSuffix, RepositoryBody, RefToEnd, Run;
    var rest := package[|prefix|..];
    assert package == prefix + rest;
    RepositoryRest(prefix, stop, rest);
    var body, reference := RepositoryParts(stop, stops, rest);
    assert IsGitParts(package, prefix, body, reference);
  }

  lemma GitFrom(package: string, prefix: string, body: string, reference: string)
    requires IsGitParts(package, prefix, body, reference)
    ensures IsGit(package)
  {
    hide GitUrl, Repository, IsRepository, IsSuffix;
    if body != "" && Lacks(body, {'#'}) && prefix in {"git+http://", "git+https://", "git+ssh://", "git://"} {
      GitUrlFrom(prefix, body, reference);
    } else if IsRepository(body, {'/'}) && prefix in {"https://github.com/", "git@github.com:"} {
      RepositoryFrom(Slash, {'/'}, body, reference);
      RepositoryRest(prefix, Slash, body + reference);
    } else {
      RepositoryFrom(SlashOrAt, {'/', '@'}, body, reference);
      RepositoryRest(prefix, SlashOrAt, body + reference);
    }
  }

  // ----- The keys

  /** Local packages and tarballs are their own keys. */
  lemma WholeKey(package: string)
    requires IsWhole(package)
    ensures NpmKey(package) == package
  {
    WholeIs(package);
  }

  /** The key of an alias drops the version of its target, and nothing else. */
  lemma AliasKeyIs(package: string, alias: string, scope: string, name: string, version: string)
    requires IsAliasOf(package, alias, scope, name, version) && !IsWhole(package)
    ensures NpmKey(package) == alias + ("@npm:" + (scope + name))
  {
    hide IsGit, NpmNameLength, IsNpm;
    WholeIs(package);
    AliasTargetIs(package, alias, scope, name, version);
    var target := package[|alias| + 5..];
    NpmLengthIs(target, scope, name, version);
    StripTwice(target);
    assert package[..|alias| + 5] == alias + "@npm:" by {
      var t :| package == alias + ("@npm:" + t) && IsNpm(t, scope, name, version);
    }
  }

  /** The key of a git address is the part before its first `#`. */
  lemma GitKeyIs(package: string)
    requires IsGitAddress(package) && !IsWhole(package) && !IsAlias(package)
    ensures NpmKey(package) <= package && Lacks(NpmKey(package), {'#'})
    ensures NpmKey(package) != package ==> package[|NpmKey(package)|] == '#'
  {
    hide IsGit, AliasTarget, IsAlias, IsGitAddress;
    WholeIs(package);
    AliasIs(package);
    GitIs(package);
    var head, tail := RunParts(package, Hash, {'#'});
  }

  /** The key of any other package that has the form drops its version, and nothing else. */
  lemma StandardKeyIs(package: string, scope: string, name: string, version: string)
    requires IsNpm(package, scope, name, version)
    requires !IsWhole(package) && !IsAlias(package) && !IsGitAddress(package)
    ensures NpmKey(package) == scope + name
  {
    hide IsGit, AliasTarget, IsAlias, IsGitAddress, IsNpm, NpmNameLength;
    WholeIs(package);
    AliasIs(package);
    GitIs(package);
    NpmLengthIs(package, scope, name, version);
  }

  /** What has none of these forms is its own key. */
  lemma OtherKey(package: string)
    requires forall scope, name, version :: !IsNpm(package, scope, name, version)
    requires !IsAlias(package) && !IsGitAddress(package)
    ensures NpmKey(package) == package
  {
    hide IsGit, AliasTarget, IsAlias, IsGitAddress, IsNpm, NpmNameLength;
    AliasIs(package);
    GitIs(package);
    if NpmNameLength(package).Some? {
      var scope, name, version := NpmParts(package);
    }
  }

  // ----- Packages by scope and name

  /** A package as the registry knows it. */
  ghost predicate IsRegistered(package: string, scope: string, name: string, version: string) {
    && IsNpm(package, scope, name, version) && Lacks(name, {'/', '@', '#', ':'})
    && !IsWhole(package) && !IsAlias(package) && !("git@github.com:" <= package)
  }

  /** In front of any slash or colon stands an `@`. */
  lemma FirstMark(package: string, scope: string, name: string, version: string, i: nat) returns (k: nat)
    requires IsNpm(package, scope, name, version) && Lacks(name, {'/', '@', '#', ':'})
    requires i < |package| && package[i] in {'/', ':'}
    ensures k < i && package[k] == '@'
  {
    if scope == "" {
      k := |name|;
      SuffixTail('@', version);
      assert package[..|name|] == name;
      assert i >= |name| ==> version != "" && package[|name|] == version[0];
    } else {
      k := 0;
    }
  }

  lemma NotStarting(package: string, scope: string, name: string, version: string, prefix: string, i: nat)
    requires IsNpm(package, scope, name, version) && Lacks(name, {'/', '@', '#', ':'})
    requires i < |prefix| && prefix[i] in {'/', ':'} && Lacks(prefix[..i], {'@'})
    ensures !(prefix <= package)
  {
    if i < |package| && package[i] == prefix[i] {
      var k := FirstMark(package, scope, name, version, i);
      assert prefix[..i][k] != '@';
    }
  }

  lemma NotShorthand(package: string, scope: string, name: string, version: string, body: string, rest: string)
    requires IsNpm(package, scope, name, version) && Lacks(name, {'/', '@', '#', ':'})
    requires IsRepository(body, {'/', '@'})
    ensures package != body + rest
  {
    var user, repository :| body == user + ("/" + repository) && user != "" && Lacks(user, {'/', '@'});
    if |user| < |package| && package[|user|] == '/' {
      var k := FirstMark(package, scope, name, version, |user|);
      assert (body + rest)[k] == user[k];
    }
  }

  lemma RegisteredIsPlain(package: string, scope: string, name: string, version: string)
    requires IsRegistered(package, scope, name, version)
    ensures !IsOci(package) && !IsGitAddress(package)
  {
    hide IsNpm, IsRepository, IsWhole, IsAlias;
    NotStarting(package, scope, name, version, "oci://", 3);
    NotStarting(package, scope, name, version, "git+http://", 8);
    NotStarting(package, scope, name, version, "git+https://", 9);
    NotStarting(package, scope, name, version, "git+ssh://", 7);
    NotStarting(package, scope, name, version, "git://", 3);
    NotStarting(package, scope, name, version, "https://github.com/", 5);
    NotStarting(package, scope, name, version, "github:", 6);
    forall prefix, body, reference
      ensures !IsGitParts(package, prefix, body, reference)
    {
      assert prefix <= prefix + (body + reference);
      if prefix == "" && IsRepository(body, {'/', '@'}) {
        NotShorthand(package, scope, name, version, body, reference);
      }
    }
  }

  /** A registered package is filed under its scope and name, whatever its version. */
  lemma RegisteredKey(package: string, scope: string, name: string, version: string)
    requires IsRegistered(package, scope, name, version)
    ensures Identify(package) == Some(PackageId(scope + name, None, false))
  {
    hide IsNpm, IsWhole, IsAlias, IsGitAddress, NpmKey, ParseOci;
    RegisteredIsPlain(package, scope, name, version);
    StandardKeyIs(package, scope, name, version);
  }

  /** Two registered packages meet under one key exactly if scope and name agree. */
  lemma RegisteredKeysIdentify(package: string, scope: string, name: string, version: string,
                               package': string, scope': string, name': string, version': string)
    requires IsRegistered(package, scope, name, version) && IsRegistered(package', scope', name', version')
    ensures Identify(package).Some? && Identify(package').Some?
    ensures Identify(package).value.key == Identify(package').value.key <==> scope == scope' && name == name'
  {
    hide Identify, IsWhole, IsAlias;
    RegisteredKey(package, scope, name, version);
    RegisteredKey(package', scope', name', version');
    ScopeIs(scope, name);
    ScopeIs(scope', name');
    assert scope + name == scope' + name' ==>
        scope == (scope + name)[..|scope|] == scope' && name == (scope + name)[|scope|..] == name';
  }

  /** A registered package without a scope is an alias only if its version starts with `npm:`. */
  lemma AliasNeedsNpm(package: string, scope: string, name: string, version: string)
    requires IsNpm(package, scope, name, version) && IsAlias(package)
    ensures scope == "" && "@npm:" <= version
  {
    hide Run, IsSuffix, IsScope, DotsToEnd;
    var alias, scope', name', version' :| IsAliasOf(package, alias, scope', name', version');
    var target :| package == alias + ("@npm:" + target) && IsNpm(target, scope', name', version');
    assert package[0] == alias[0] && alias[0] != '@';
    assert scope != "" ==> scope[0] == '@' by { ScopeMark(scope); }
    assert package == name + version;
    SuffixTail('@', version);
    RunOver(name, version, AtSign, {'@'});
    RunOver(alias, "@npm:" + target, AtSign, {'@'});
    assert version == package[|name|..] == package[|alias|..] == "@npm:" + target;
  }

  lemma ScopeMark(scope: string)
    requires IsScope(scope)
    ensures scope != "" ==> scope[0] == '@'
  {
  }

  /** Two versions of one package. */
  lemma VersionsMeet()
    ensures Identify("@scope/plugin@1.0.0").Some? && Identify("@scope/plugin@2.0.0").Some?
    ensures Identify("@scope/plugin@1.0.0").value.key == Identify("@scope/plugin@2.0.0").value.key == "@scope/plugin"
  {
    hide Identify, IsRegistered;
    ScopedExample("1.0.0");
    ScopedExample("2.0.0");
    assert "@scope/plugin@" + "1.0.0" == "@scope/plugin@1.0.0" && "@" + "1.0.0" == "@1.0.0";
    assert "@scope/plugin@" + "2.0.0" == "@scope/plugin@2.0.0" && "@" + "2.0.0" == "@2.0.0";
    assert "@scope/" + "plugin" == "@scope/plugin";
    RegisteredKey("@scope/plugin@1.0.0", "@scope/", "plugin", "@1.0.0");
    RegisteredKey("@scope/plugin@2.0.0", "@scope/", "plugin", "@2.0.0");
  }

  lemma ScopedExample(version: string)
    requires version in {"1.0.0", "2.0.0"}
    ensures IsRegistered("@scope/plugin@" + version, "@scope/", "plugin", "@" + version)
  {
    var package := "@scope/plugin@" + version;
    assert IsScope("@scope/") by { assert "@scope/" == "@" + ("scope" + "/"); }
    assert IsSuffix('@', "@" + version) by {
      assert Lacks(version, {'\n'}) && version != "";
      assert IsLine(version);
    }
    assert package == "@scope/" + ("plugin" + ("@" + version));
    assert !IsWhole(package) by {
      assert package[0] == '@';
      assert package[|package| - 4..][3] == '0';
      WholeIs(package);
    }
    if IsAlias(package) {
      AliasNeedsNpm(package, "@scope/", "plugin", "@" + version);
    }
  }
}
