/** How the parts of docker/install-dynamic-plugins.py that cut an OCI package string up again,
    after the merge, agree with the pattern that the merge accepted it by. */
module OciPackages {
  import opened Wrappers
  import opened PackageKeys
  import opened Reconcile

  lemma Slices(s: string, a: nat, i: nat, n: nat)
    requires a + i + n <= |s|
    ensures s[a..][i..i + n] == s[a + i..a + i + n]
  {
  }

  lemma {:induction false} ContainsAt(s: string, part: string, i: nat)
    requires i + |part| <= |s| && s[i..i + |part|] == part
    ensures Contains(s, part)
  {
    if i == 0 {
      assert part <= s;
    } else {
      Slices(s, 1, i - 1, |part|);
      ContainsAt(s[1..], part, i - 1);
    }
  }

  lemma {:induction false} PlaceOf(s: string, part: string) returns (i: nat)
    requires Contains(s, part)
    ensures i + |part| <= |s| && s[i..i + |part|] == part
  {
    if part <= s {
      i := 0;
    } else {
      i := PlaceOf(s[1..], part);
      Slices(s, 1, i, |part|);
      i := i + 1;
    }
  }

  const LATEST := ":latest!"

  /** The version of a reference reads "latest". */
  predicate IsLatest(v: Version) {
    (if v.Tag? then v.tag else v.hash) == "latest"
  }

  /** Where the parts of a rendered reference lie. */
  lemma Layout(r: OciRef)
    requires r.Valid()
    ensures var s, a := r.Render(), 6 + |r.host|;
            var b := a + |r.version.Suffix()|;
            && |s| == b + 1 + |r.path|
            && (forall i :: 0 <= i < 6 ==> s[i] == "oci://"[i])
            && (forall i :: 6 <= i < a ==> s[i] == r.host[i - 6])
            && (forall i :: a <= i < b ==> s[i] == r.version.Suffix()[i - a])
            && s[b] == '!'
            && s[a..b] == r.version.Suffix()
            && s[b + 1..] == r.path
  {
    var tail := r.version.Suffix() + ("!" + r.path);
    var a := 6 + |r.host|;
    assert r.Render()[a..] == tail;
    assert r.Render()[a..][..|r.version.Suffix()|] == r.version.Suffix();
    assert tail[|r.version.Suffix()| + 1..] == r.path;
  }

  /** A colon in the suffix is the one before the tag, or the one before the hash. */
  lemma SuffixColons(v: Version, i: nat)
    requires v.Valid() && i < |v.Suffix()|
    ensures |v.Suffix()| > if v.Tag? then 1 else 8
    ensures v.Suffix()[i] != '!'
    ensures v.Suffix()[i] == ':' <==> i == if v.Tag? then 0 else 7
    ensures v.Suffix()[(if v.Tag? then 0 else 7) + 1..] == if v.Tag? then v.tag else v.hash
  {
    if v.Tag? {
      assert i > 0 ==> v.Suffix()[i] == v.tag[i - 1];
    } else {
      assert |v.algorithm| == 7;
      assert v.Suffix()[i] == if i == 0 then '@' else if i < 8 then v.algorithm[i - 1] else v.hash[i - 8];
    }
  }

  lemma ValidParts(r: OciRef)
    requires r.Valid()
    ensures r.version.Valid() && |r.version.Suffix()| > if r.version.Tag? then 1 else 8
    ensures |LATEST| == 8
  {
  }

  lemma LatestVersionFound(r: OciRef)
    requires r.Valid() && IsLatest(r.version)
    ensures Contains(r.Render(), LATEST)
  {
    hide OciRef.Render, Version.Suffix, OciRef.Valid, Version.Valid, Contains, IsLatest;
    Layout(r);
    ValidParts(r);
    var s, a := r.Render(), 6 + |r.host|;
    var b := a + |r.version.Suffix()|;
    var k := if r.version.Tag? then 0 else 7;
    LatestSuffix(r.version, k);
    assert s[a + k..b] == s[a..b][k..];
    assert s[a + k..b + 1] == s[a + k..b] + [s[b]];
    ContainsAt(s, LATEST, a + k);
  }

  lemma LatestSuffix(v: Version, k: nat)
    requires v.Valid() && IsLatest(v) && k == if v.Tag? then 0 else 7
    ensures |v.Suffix()| == k + 7 && v.Suffix()[k..] + ['!'] == LATEST
  {
    hide Version.Suffix, Version.Valid;
    SuffixLength(v);
    SuffixColons(v, k);
    assert v.Suffix()[k..] == [v.Suffix()[k]] + v.Suffix()[k + 1..];
  }

  lemma SuffixLength(v: Version)
    requires v.Valid()
    ensures |v.Suffix()| > if v.Tag? then 1 else 8
  {
  }

  lemma LatestPathFound(r: OciRef)
    requires r.Valid() && Contains(r.path, LATEST)
    ensures Contains(r.Render(), LATEST)
  {
    hide OciRef.Render, Version.Suffix, Version.Valid, Contains;
    Layout(r);
    var s := r.Render();
    var b := 6 + |r.host| + |r.version.Suffix()|;
    var i := PlaceOf(r.path, LATEST);
    Slices(s, b + 1, i, 8);
    ContainsAt(s, LATEST, b + 1 + i);
  }

  /** In front of the path, a rendered reference has its only '!' before the path, and no colons but
      the one of "oci:" and the one in the version. */
  lemma BeforePath(r: OciRef, i: nat)
    requires r.Valid() && i < 6 + |r.host| + |r.version.Suffix()|
    ensures i < |r.Render()|
    ensures r.Render()[i] == ':' ==> i == 3 || i == 6 + |r.host| + (if r.version.Tag? then 0 else 7)
    ensures r.Render()[i] == '!' ==> i < 6 + |r.host|
  {
    hide OciRef.Render, Version.Suffix, Version.Valid, Word, IsSpace;
    Layout(r);
    ValidParts(r);
    var a := 6 + |r.host|;
    if i >= a {
      SuffixColons(r.version, i - a);
    }
  }

  lemma LatestLetters(s: string, i: nat)
    requires i + 8 <= |s| && s[i..i + 8] == LATEST
    ensures s[i] == ':' && s[i + 1] != '/' && s[i + 7] == '!' && s[i + 1..i + 7] == "latest"
    ensures forall j :: i < j < i + 7 ==> s[j] != '!'
  {
    var found := s[i..i + 8];
    assert forall j :: i <= j < i + 8 ==> s[j] == found[j - i] == LATEST[j - i];
    assert LATEST[1..7] == "latest";
    assert s[i + 1..i + 7] == found[1..7];
  }

  lemma LatestBeforePath(r: OciRef, i: nat)
    requires r.Valid() && i <= 6 + |r.host| + |r.version.Suffix()|
    requires i + 8 <= |r.Render()| && r.Render()[i..i + 8] == LATEST
    ensures IsLatest(r.version)
  {
    hide OciRef.Render, Version.Suffix, Version.Valid, OciRef.Valid, HostEnd, IsSpace;
    Layout(r);
    ValidParts(r);
    var s, a := r.Render(), 6 + |r.host|;
    var b := a + |r.version.Suffix()|;
    LatestLetters(s, i);
    assert s[b] != ':' && s[4] == "oci://"[4];
    assert i + 7 <= b;
    var k := if r.version.Tag? then 0 else 7;
    BeforePath(r, i);
    assert i == a + k;
    if i + 7 < b {
      BeforePath(r, i + 7);
    }
    SuffixColons(r.version, k);
    assert s[i + 1..b] == s[a..b][k + 1..];
  }

  lemma LatestOnlyThere(r: OciRef)
    requires r.Valid() && Contains(r.Render(), LATEST)
    ensures IsLatest(r.version) || Contains(r.path, LATEST)
  {
    hide OciRef.Render, Version.Suffix, Version.Valid, OciRef.Valid, Contains, IsLatest;
    Layout(r);
    var s, b := r.Render(), 6 + |r.host| + |r.version.Suffix()|;
    var i := PlaceOf(s, LATEST);
    if i > b {
      Slices(s, b + 1, i - b - 1, 8);
      ContainsAt(r.path, LATEST, i - b - 1);
    } else {
      LatestBeforePath(r, i);
    }
  }

  /** A package without a pull policy is always checked for updates exactly if its tag or its
      digest's hash reads "latest", or its path has ":latest!" in it. */
  lemma DefaultPolicyExactly(p: Plugin, r: OciRef)
    requires r.Valid() && p.package == r.Render() && p.policy == Unset
    ensures EffectivePolicy(p) == if IsLatest(r.version) || Contains(r.path, LATEST) then Always else IfNotPresent
  {
    hide Contains;
    if Contains(r.Render(), LATEST) {
      LatestOnlyThere(r);
    } else if IsLatest(r.version) {
      LatestVersionFound(r);
    } else if Contains(r.path, LATEST) {
      LatestPathFound(r);
    }
  }

  // ----- The path inside the image

  predicate HasBang(s: string) {
    exists i :: 0 <= i < |s| && s[i] == '!'
  }

  lemma RenderedPath(r: OciRef)
    requires r.Valid()
    ensures OciPath(r.Render()) == if HasBang(r.host) || HasBang(r.path) then None else Some(r.path)
  {
    hide OciRef.Render, Version.Suffix, OciRef.Valid, Version.Valid, Word, IsSpace, Run;
    Layout(r);
    ValidParts(r);
    var s, a := r.Render(), 6 + |r.host|;
    var b := a + |r.version.Suffix()|;
    forall i | a <= i < b ensures s[i] != '!' {
      SuffixColons(r.version, i - a);
    }
    var n := Run(s, Bang);
    if HasBang(r.host) {
      var i :| 0 <= i < |r.host| && r.host[i] == '!';
      assert s[i + 6] == '!';
      assert n <= i + 6 < b;
      assert s[n + 1..][b - n - 1] == '!';
    } else {
      RunIs(s, Bang, b);
      if HasBang(r.path) {
        var i :| 0 <= i < |r.path| && r.path[i] == '!';
        assert Run(r.path, Bang) <= i;
      } else {
        RunIs(r.path, Bang, |r.path|);
      }
    }
  }

  /** The installer unpacks the directory that the merge recorded in the key exactly if neither host
      nor path has a '!' in it and no newline ends the package; for any other package that the
      merge accepted it raises or looks for another directory. */
  lemma InstallPathExactly(package: string, r: OciRef)
    requires ParseOci(package) == Some(r)
    ensures OciPath(package) == Some(r.path) <==>
              package == r.Render() && !HasBang(r.host) && !HasBang(r.path)
  {
    hide OciRef.Render, ParseOci, Run;
    RenderedPath(r);
    if package == r.Render() + "\n" && OciPath(package).Some? {
      assert OciPath(package).value != [] ==> OciPath(package).value[|OciPath(package).value| - 1] == '\n';
      assert !IsSpace(r.path[|r.path| - 1]);
    }
  }

  /** So for every package that can be unpacked the version alone decides: it is checked for updates
      by default exactly if its tag, or its digest's hash, reads "latest". */
  lemma DefaultPolicyOfInstallable(p: Plugin, r: OciRef)
    requires ParseOci(p.package) == Some(r) && OciPath(p.package) == Some(r.path) && p.policy == Unset
    ensures EffectivePolicy(p) == if IsLatest(r.version) then Always else IfNotPresent
  {
    hide OciRef.Render, ParseOci, OciPath, Contains, EffectivePolicy;
    InstallPathExactly(p.package, r);
    DefaultPolicyExactly(p, r);
    if Contains(r.path, LATEST) {
      LatestHasBang(r.path);
    }
  }

  lemma LatestHasBang(s: string)
    requires Contains(s, LATEST)
    ensures HasBang(s)
  {
    hide Contains;
    var i := PlaceOf(s, LATEST);
    assert s[i + 7] == s[i..i + 8][7] == '!';
  }

  /** The merge accepts this package, and records the directory `a!b`; the installer raises. */
  lemma BangInPath()
    ensures ParseOci("oci://h:t!a!b") == Some(OciRef("h", Tag("t"), "a!b"))
    ensures OciPath("oci://h:t!a!b") == None
  {
    hide OciRef.Render, OciRef.Valid, ParseOci, OciPath;
    var r := OciRef("h", Tag("t"), "a!b");
    assert r.Render() == "oci://h:t!a!b" by { Example(); }
    assert r.Valid() by { Example(); }
    assert r.path[1] == '!';
    ParseRender(r);
    RenderedPath(r);
  }

  lemma Example()
    ensures var r := OciRef("h", Tag("t"), "a!b"); r.Valid() && r.Render() == "oci://h:t!a!b"
  {
    assert Word("t");
  }
}
