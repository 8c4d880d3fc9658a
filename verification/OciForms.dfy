/** Which packages docker/install-dynamic-plugins.py accepts as OCI packages, and what it reads off
    them, said by taking packages apart. */
module OciForms {
  import opened Wrappers
  import opened PackageKeys
  import opened NpmKeys

  /** `\s` in a pattern on text */
  predicate IsWhite(c: char) {
    var code := c as int;
    || 0x09 <= code <= 0x0D || 0x1C <= code <= 0x20 || code in {0x85, 0xA0, 0x1680}
    || 0x2000 <= code <= 0x200A || code in {0x2028, 0x2029, 0x202F, 0x205F, 0x3000}
  }

  ghost predicate NoWhite(s: string) {
    forall i :: 0 <= i < |s| ==> !IsWhite(s[i])
  }

  /** A tag, or the part of a digest after its algorithm */
  ghost predicate IsWord(s: string) {
    s != "" && NoWhite(s) && Lacks(s, {'!', '@', ':'})
  }

  ghost predicate IsTag(version: string) {
    IsWord(version)
  }

  ghost predicate IsDigest(version: string) {
    exists algorithm, hash ::
      algorithm in {"sha256", "sha512", "blake3"} && IsWord(hash) && version == algorithm + (":" + hash)
  }

  /** oci://host:tag!path or oci://host@algorithm:hash!path */
  ghost predicate IsOciForm(package: string, host: string, version: string, path: string) {
    && host != "" && NoWhite(host) && Lacks(host, {':', '@'})
    && path != "" && NoWhite(path)
    && (|| (IsTag(version) && package == "oci://" + (host + (":" + version + ("!" + path))))
        || (IsDigest(version) && package == "oci://" + (host + ("@" + version + ("!" + path)))))
  }

  lemma WhiteIsSpace(c: char)
    ensures IsSpace(c) <==> IsWhite(c)
  {
  }

  lemma WordIs(s: string)
    ensures Word(s) <==> IsWord(s)
  {
    hide IsSpace, IsWhite;
    forall i | 0 <= i < |s| ensures VersionEnd(s[i]) <==> IsWhite(s[i]) || s[i] in {'!', '@', ':'} {
      WhiteIsSpace(s[i]);
    }
  }

  lemma HostIs(host: string)
    ensures (forall i :: 0 <= i < |host| ==> !HostEnd(host[i])) <==> NoWhite(host) && Lacks(host, {':', '@'})
  {
    hide IsSpace, IsWhite;
    forall i | 0 <= i < |host| ensures HostEnd(host[i]) <==> IsWhite(host[i]) || host[i] in {':', '@'} {
      WhiteIsSpace(host[i]);
    }
  }

  lemma PathIs(path: string)
    ensures (forall i :: 0 <= i < |path| ==> !IsSpace(path[i])) <==> NoWhite(path)
  {
    hide IsSpace, IsWhite;
    forall i | 0 <= i < |path| ensures IsSpace(path[i]) <==> IsWhite(path[i]) {
      WhiteIsSpace(path[i]);
    }
  }

  lemma Algorithms()
    ensures "sha256" + ":" == "sha256:" && "sha512" + ":" == "sha512:" && "blake3" + ":" == "blake3:"
    ensures "sha256:"[..6] == "sha256" && "sha512:"[..6] == "sha512" && "blake3:"[..6] == "blake3"
  {
  }

  lemma DigestParts(version: string) returns (v: Version)
    requires IsDigest(version)
    ensures v.Digest? && v.Valid() && v.Text() == version
  {
    var algorithm, hash :| algorithm in {"sha256", "sha512", "blake3"} && IsWord(hash)
                           && version == algorithm + (":" + hash);
    WordIs(hash);
    Algorithms();
    v := Digest(algorithm + ":", hash);
    assert v.Text() == version;
  }

  lemma DigestForm(v: Version)
    requires v.Digest? && v.Valid()
    ensures IsDigest(v.Text()) && !IsTag(v.Text())
  {
    WordIs(v.hash);
    var algorithm := v.algorithm[..6];
    Algorithms();
    assert v.algorithm == algorithm + ":";
    assert algorithm in {"sha256", "sha512", "blake3"};
    assert v.Text() == algorithm + (":" + v.hash);
    assert v.Text()[6] == ':';
  }

  /** A final newline is overlooked. */
  lemma ParseBeforeNewline(r: OciRef)
    requires r.Valid()
    ensures ParseOci(r.Render() + "\n") == Some(r)
  {
    var tail := r.version.Suffix() + ("!" + (r.path + "\n"));
    NewlineLast(r);
    DropPrefixOf("oci://", r.host + tail);
    SplitIs(r.host, tail, HostEnd);
    ParseVersionIs(r.version, r.path + "\n");
    RunIs(r.path, IsSpace, |r.path|);
    assert (r.path + "\n")[..|r.path|] == r.path;
  }

  lemma RefOfForm(package: string, host: string, version: string, path: string) returns (r: OciRef)
    requires IsOciForm(package, host, version, path)
    ensures r.Valid() && r.host == host && r.path == path && r.version.Text() == version && package == r.Render()
    ensures Inherits(r) <==> version == "{{inherit}}"
  {
    hide IsWhite, IsSpace, IsDigest;
    HostIs(host);
    PathIs(path);
    if IsTag(version) && package == "oci://" + (host + (":" + version + ("!" + path))) {
      WordIs(version);
      r := OciRef(host, Tag(version), path);
    } else {
      var v := DigestParts(version);
      r := OciRef(host, v, path);
    }
    InheritText(r);
  }

  lemma FormOfRef(r: OciRef)
    requires r.Valid()
    ensures IsOciForm(r.Render(), r.host, r.version.Text(), r.path)
  {
    hide IsWhite, IsSpace, IsDigest;
    HostIs(r.host);
    PathIs(r.path);
    if r.version.Tag? {
      WordIs(r.version.tag);
    } else {
      DigestForm(r.version);
    }
  }

  /** A package is accepted as an OCI package exactly if it has the form, with or without a final
      newline. */
  lemma AcceptedExactly(package: string)
    ensures ParseOci(package).Some? <==>
              exists text, host, version, path ::
                IsOciForm(text, host, version, path) && (package == text || package == text + "\n")
  {
    hide IsOciForm, ParseOci;
    if ParseOci(package).Some? {
      FormOfRef(ParseOci(package).value);
    }
    if text, host, version, path :| IsOciForm(text, host, version, path)
                                    && (package == text || package == text + "\n")
    {
      var r := RefOfForm(text, host, version, path);
      ParseRender(r);
      ParseBeforeNewline(r);
    }
  }

  /** What is read off it: a key without the version, the version itself, and whether that is to be
      inherited. */
  lemma ReadOff(package: string, host: string, version: string, path: string)
    requires IsOciForm(package, host, version, path)
    ensures Identify(package) ==
            Some(PackageId("oci://" + (host + (":!" + path)), Some(version), version == "{{inherit}}"))
  {
    hide IsOciForm, ParseOci;
    var r := RefOfForm(package, host, version, path);
    ParseRender(r);
  }
}
