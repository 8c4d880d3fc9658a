/** getConsumerNamespace of plugins/kuadrant-backend/src/router.ts: the namespace that holds a
    user's API keys. */
module ConsumerNamespace {
  import opened Wrappers

  /** What JavaScript and its crypto library bring in: case mapping, trimming and the hexadecimal
      SHA-256 digest. */
  datatype Library = Library(lower: string -> string, blank: string -> bool, digest: string -> string)

  predicate Hex(c: char) { '0' <= c <= '9' || 'a' <= c <= 'f' }

  predicate Plain(c: char) { 'a' <= c <= 'z' || '0' <= c <= '9' }

  /** A digest has 64 hexadecimal digits. */
  ghost predicate Digests(library: Library) {
    forall s :: |library.digest(s)| == 64 && forall i :: 0 <= i < 64 ==> Hex(library.digest(s)[i])
  }

  /** The last part of the reference, split at slashes. */
  function ExtractNameFromEntityRef(ref: string): (name: string)
    ensures |name| <= |ref| && ref[|ref| - |name|..] == name
    ensures forall i :: 0 <= i < |name| ==> name[i] != '/'
    ensures |name| < |ref| ==> ref[|ref| - |name| - 1] == '/'
  {
    if ref == "" || ref[|ref| - 1] == '/' then "" else
    ExtractNameFromEntityRef(ref[..|ref| - 1]) + [ref[|ref| - 1]]
  }

  /** The UTF-16 units that JavaScript's strings consist of: a character outside the basic plane takes
      two, neither of which is a character. */
  function Units(s: string): seq<Option<char>> {
    if s == "" then []
    else (if s[0] as int > 0xFFFF then [None, None] else [Some(s[0])]) + Units(s[1..])
  }

  /** The units of a text are those of its parts. */
  lemma {:induction false} UnitsOfParts(s: string, t: string)
    ensures Units(s + t) == Units(s) + Units(t)
  {
    if s == "" {
      assert s + t == t;
    } else {
      assert (s + t)[0] == s[0] && (s + t)[1..] == s[1..] + t;
      UnitsOfParts(s[1..], t);
      var first := if s[0] as int > 0xFFFF then [None, None] else [Some(s[0])];
      assert Units(s + t) == first + (Units(s[1..]) + Units(t));
    }
  }

  /** A character of the basic plane is one unit, any other has two. */
  lemma UnitsOfOne(c: char)
    ensures Units([c]) == if c as int <= 0xFFFF then [Some(c)] else [None, None]
  {
    assert [c][1..] == "" && Units("") == [];
  }

  /** `.replace(/[^a-z0-9-]/g, '-')` */
  function Sanitize(s: string): (r: string)
    ensures |r| == |Units(s)|
    ensures forall i :: 0 <= i < |r| ==>
              match Units(s)[i]
              case Some(c) => r[i] == if 'a' <= c <= 'z' || '0' <= c <= '9' then c else '-'
              case None => r[i] == '-'
  {
    var units := Units(s);
    seq(|units|, i requires 0 <= i < |units| =>
      if units[i].Some? && Plain(units[i].value) then units[i].value else '-')
  }

  const PREFIX := "kuadrant-"

  /** None where the function throws. */
  function SanitizedName(library: Library, ref: string): Option<string> {
    var username := ExtractNameFromEntityRef(ref);
    if username == "" || library.blank(username) then None else
    var sanitized := Sanitize(library.lower(username));
    if sanitized == "" || sanitized[0] == '-' || sanitized[|sanitized| - 1] == '-' then None else Some(sanitized)
  }

  function ShortHash(library: Library, ref: string): string {
    var digest := library.digest(ref);
    if |digest| < 8 then digest else digest[..8]
  }

  function GetConsumerNamespace(library: Library, ref: string): Option<string> {
    match SanitizedName(library, ref)
    case None => None
    case Some(sanitized) => Some(PREFIX + (sanitized + ("-" + ShortHash(library, ref))))
  }

  /** `^[a-z0-9]([-a-z0-9]*[a-z0-9])?$`, the pattern of Kubernetes names */
  ghost predicate KubernetesName(s: string) {
    && s != "" && s[0] != '-' && s[|s| - 1] != '-'
    && forall i :: 0 <= i < |s| ==> 'a' <= s[i] <= 'z' || '0' <= s[i] <= '9' || s[i] == '-'
  }

  /** Every namespace is a Kubernetes name. */
  lemma NamespaceIsKubernetesName(library: Library, ref: string)
    requires Digests(library) && GetConsumerNamespace(library, ref).Some?
    ensures KubernetesName(GetConsumerNamespace(library, ref).value)
  {
  }

  /** The name and the hash back out of a namespace. */
  function Decode(namespace: string): (string, string)
    requires |namespace| >= 18
  {
    (namespace[9..|namespace| - 9], namespace[|namespace| - 8..])
  }

  lemma DecodeParts(sanitized: string, hash: string)
    requires |hash| == 8
    ensures var n := PREFIX + (sanitized + ("-" + hash));
            |n| >= 18 && "kuadrant-" <= n && Decode(n) == (sanitized, hash)
  {
    var n := PREFIX + (sanitized + ("-" + hash));
    assert n[9..][..|sanitized|] == sanitized;
    assert n[9..|n| - 9] == sanitized;
    assert n[9..][|sanitized|..] == "-" + hash;
    assert n[|n| - 8..] == hash;
  }

  /** Sanitized name and the first eight digits of the whole reference's digest can be read back. */
  lemma DecodeInverts(library: Library, ref: string)
    requires Digests(library) && GetConsumerNamespace(library, ref).Some?
    ensures |GetConsumerNamespace(library, ref).value| >= 18 && "kuadrant-" <= GetConsumerNamespace(library, ref).value
    ensures Decode(GetConsumerNamespace(library, ref).value) ==
            (Sanitize(library.lower(ExtractNameFromEntityRef(ref))), library.digest(ref)[..8])
  {
    hide Sanitize, Units, ExtractNameFromEntityRef;
    DecodeParts(SanitizedName(library, ref).value, ShortHash(library, ref));
  }

  /** There is a namespace exactly if the reference ends with a name that is not blank and whose
      sanitized form neither starts nor ends with a hyphen. */
  lemma NamespaceExactly(library: Library, ref: string)
    ensures GetConsumerNamespace(library, ref).Some? <==>
              var name := ExtractNameFromEntityRef(ref);
              var sanitized := Sanitize(library.lower(name));
              && name != "" && !library.blank(name)
              && |sanitized| > 0 && sanitized[0] != '-' && sanitized[|sanitized| - 1] != '-'
  {
    hide Sanitize, Units, ExtractNameFromEntityRef, ShortHash;
  }

  /** Two users share a namespace exactly when their sanitized names and the first eight digits of
      their references' digests both agree. */
  lemma SharedExactly(library: Library, a: string, b: string)
    requires Digests(library)
    requires GetConsumerNamespace(library, a).Some? && GetConsumerNamespace(library, b).Some?
    ensures GetConsumerNamespace(library, a) == GetConsumerNamespace(library, b) <==>
              && Sanitize(library.lower(ExtractNameFromEntityRef(a))) ==
                 Sanitize(library.lower(ExtractNameFromEntityRef(b)))
              && library.digest(a)[..8] == library.digest(b)[..8]
  {
    DecodeInverts(library, a);
    DecodeInverts(library, b);
  }
}
