/**
 * `validate_image_url`: the cheap structural and allow-list check made on an image URL
 * before any network call. The URL is first split into scheme, network location and path
 * by a simplified `urllib.parse.urlparse`.
 */
module UrlValidator {
  import opened Strings

  /** The three components of a parsed URL that the validator looks at. */
  datatype Url = Url(scheme: string, netloc: string, path: string)

  const ValidExtensions: seq<string> := [".jpg", ".jpeg", ".png", ".gif", ".bmp", ".webp"]
  const TrustedDomains: seq<string> := ["i.ibb.co", "imgur.com", "i.imgur.com", "cdn.discordapp.com"]

  predicate IsAsciiLetter(c: char)
  {
    'a' <= c <= 'z' || 'A' <= c <= 'Z'
  }

  /** The characters allowed in a URL scheme. */
  predicate IsSchemeChar(c: char)
  {
    IsAsciiLetter(c) || '0' <= c <= '9' || c == '+' || c == '-' || c == '.'
  }

  /** Index of the first character of `s` that is in `cs`, or `|s|` when there is none. */
  function FirstOf(s: string, cs: set<char>): (i: nat)
    ensures i <= |s|
    ensures forall k :: 0 <= k < i ==> s[k] !in cs
    ensures i < |s| ==> s[i] in cs
  {
    if s == [] || s[0] in cs then 0 else 1 + FirstOf(s[1..], cs)
  }

  /** Characters that end the network location. */
  const NetlocDelimiters: set<char> := {'/', '?', '#'}
  /** Characters that end the path (start of query or fragment). */
  const PathDelimiters: set<char> := {'?', '#'}

  /** The scheme is everything before the first ':' when it starts with a letter and uses only scheme characters; it is lower-cased. */
  function SplitScheme(url: string): (parts: (string, string))
    ensures parts.0 == [] ==> parts.1 == url
    ensures parts.0 != [] ==>
      && |parts.0| < |url| && url[|parts.0|] == ':'
      && Lower(url[..|parts.0|]) == parts.0 && parts.1 == url[|parts.0| + 1..]
    ensures parts.0 != [] ==> ':' !in url[..|parts.0|]
  {
    var i := FirstOf(url, {':'});
    if 0 < i < |url| && IsAsciiLetter(url[0]) && forall k :: 0 <= k < i ==> IsSchemeChar(url[k])
    then (Lower(url[..i]), url[i + 1..])
    else ([], url)
  }

  /** After the scheme, a leading "//" introduces the network location, which runs to the next '/', '?' or '#'. */
  function SplitNetloc(rest: string): (parts: (string, string))
    ensures forall k :: 0 <= k < |parts.0| ==> parts.0[k] !in NetlocDelimiters
    ensures StartsWith(rest, "//") ==> rest == "//" + parts.0 + parts.1 && (parts.1 == [] || parts.1[0] in NetlocDelimiters)
    ensures !StartsWith(rest, "//") ==> parts == ([], rest)
  {
    if StartsWith(rest, "//") then
      var r := rest[2..];
      var d := FirstOf(r, NetlocDelimiters);
      assert rest == "//" + r[..d] + r[d..];
      (r[..d], r[d..])
    else ([], rest)
  }

  /** `urlparse(url)` reduced to scheme, network location and path. */
  function Parse(url: string): (u: Url)
    ensures forall k :: 0 <= k < |u.netloc| ==> u.netloc[k] !in NetlocDelimiters
    ensures forall k :: 0 <= k < |u.path| ==> u.path[k] !in PathDelimiters
  {
    var (scheme, rest) := SplitScheme(url);
    var (netloc, rest') := SplitNetloc(rest);
    Url(scheme, netloc, rest'[..FirstOf(rest', PathDelimiters)])
  }

  /** `any(path.endswith(ext) for ext in valid_extensions)` on the lower-cased path. */
  predicate HasValidExtension(path: string)
  {
    exists ext :: ext in ValidExtensions && EndsWith(Lower(path), ext)
  }

  /** `any(domain in netloc for domain in trusted_domains)`: a substring test, not a host comparison. */
  predicate IsTrustedDomain(netloc: string)
  {
    exists d :: d in TrustedDomains && Contains(netloc, d)
  }

  /** The validator on an already parsed URL. */
  function ValidateParsed(u: Url): (ok: bool)
    ensures ok ==> u.scheme != [] && u.netloc != []
  {
    if u.scheme == [] || u.netloc == [] then false
    else HasValidExtension(u.path) || IsTrustedDomain(u.netloc)
  }

  /** `validate_image_url(url)`. */
  function ValidateImageUrl(url: string): (ok: bool)
    ensures Parse(url).scheme == [] || Parse(url).netloc == [] ==> !ok
  {
    ValidateParsed(Parse(url))
  }

  /** Skipping a prefix free of `cs` shifts the first match by the prefix length. */
  lemma {:induction false} FirstOfSkip(a: string, b: string, cs: set<char>)
    requires forall k :: 0 <= k < |a| ==> a[k] !in cs
    ensures FirstOf(a + b, cs) == |a| + FirstOf(b, cs)
  {
    if a != [] {
      assert (a + b)[1..] == a[1..] + b;
      FirstOfSkip(a[1..], b, cs);
    } else {
      assert a + b == b;
    }
  }

  /** A string with no character of `cs` has no match. */
  lemma FirstOfNone(s: string, cs: set<char>)
    requires forall k :: 0 <= k < |s| ==> s[k] !in cs
    ensures FirstOf(s, cs) == |s|
  {
  }

  /** The shape of a URL that `Parse` takes apart exactly as it was assembled. */
  predicate WellFormedParts(scheme: string, netloc: string, path: string, tail: string)
  {
    && |scheme| > 0 && IsAsciiLetter(scheme[0])
    && (forall k :: 0 <= k < |scheme| ==> IsSchemeChar(scheme[k]) && !('A' <= scheme[k] <= 'Z'))
    && (forall k :: 0 <= k < |netloc| ==> netloc[k] !in NetlocDelimiters)
    && (path == [] || path[0] == '/')
    && (forall k :: 0 <= k < |path| ==> path[k] !in PathDelimiters && path[k] != ';')
    && (tail == [] || tail[0] in PathDelimiters)
  }

  /** A lower-case scheme followed by ':' is split off unchanged. */
  lemma SchemeSplitOff(scheme: string, after: string)
    requires |scheme| > 0 && IsAsciiLetter(scheme[0])
    requires forall k :: 0 <= k < |scheme| ==> IsSchemeChar(scheme[k]) && !('A' <= scheme[k] <= 'Z')
    ensures SplitScheme(scheme + ":" + after) == (scheme, after)
  {
    var url := scheme + ":" + after;
    FirstOfSkip(scheme, ":" + after, {':'});
    assert url == scheme + (":" + after);
    assert url[..|scheme|] == scheme;
    assert url[|scheme| + 1..] == after;
    assert Lower(scheme) == scheme;
  }

  /** "//" + host, then a path starting with '/' (or nothing but query and fragment), splits at the host's end. */
  lemma NetlocSplitOff(netloc: string, rest: string)
    requires forall k :: 0 <= k < |netloc| ==> netloc[k] !in NetlocDelimiters
    requires rest == [] || rest[0] in NetlocDelimiters
    ensures SplitNetloc("//" + netloc + rest) == (netloc, rest)
  {
    var r := netloc + rest;
    assert ("//" + netloc + rest)[2..] == r;
    FirstOfSkip(netloc, rest, NetlocDelimiters);
    assert r[..|netloc|] == netloc && r[|netloc|..] == rest;
  }

  /** Parsing `scheme://netloc` + path + query-or-fragment gives back the three parts. */
  lemma ParseAssembled(scheme: string, netloc: string, path: string, tail: string)
    requires WellFormedParts(scheme, netloc, path, tail)
    ensures Parse(scheme + "://" + netloc + path + tail) == Url(scheme, netloc, path)
  {
    var after := "//" + netloc + (path + tail);
    assert scheme + "://" + netloc + path + tail == scheme + ":" + after;
    SchemeSplitOff(scheme, after);
    assert path + tail == [] || (path + tail)[0] in NetlocDelimiters;
    NetlocSplitOff(netloc, path + tail);
    FirstOfSkip(path, tail, PathDelimiters);
    assert (path + tail)[..|path|] == path;
  }

  /** The extension test spelled out, one listed extension after another. */
  lemma ExtensionsSpelledOut(path: string)
    ensures HasValidExtension(path) <==>
      var p := Lower(path);
      || EndsWith(p, ".jpg") || EndsWith(p, ".jpeg") || EndsWith(p, ".png")
      || EndsWith(p, ".gif") || EndsWith(p, ".bmp") || EndsWith(p, ".webp")
  {
    assert ValidExtensions[0] == ".jpg" && ValidExtensions[1] == ".jpeg" && ValidExtensions[2] == ".png";
    assert ValidExtensions[3] == ".gif" && ValidExtensions[4] == ".bmp" && ValidExtensions[5] == ".webp";
  }

  /** The allow-list spelled out; "i.imgur.com" adds nothing beyond "imgur.com", which it contains. */
  lemma TrustedDomainsSpelledOut(netloc: string)
    ensures IsTrustedDomain(netloc) <==>
      Contains(netloc, "i.ibb.co") || Contains(netloc, "imgur.com") || Contains(netloc, "cdn.discordapp.com")
  {
    assert TrustedDomains[0] == "i.ibb.co" && TrustedDomains[1] == "imgur.com";
    assert TrustedDomains[2] == "i.imgur.com" && TrustedDomains[3] == "cdn.discordapp.com";
    if Contains(netloc, "i.imgur.com") {
      assert OccursAt("i.imgur.com", "imgur.com", 2);
      ContainsTransitive(netloc, "i.imgur.com", "imgur.com");
    }
  }

  /** A path whose lower-cased last character is none of 'g', 'f', 'p' carries no listed extension. */
  lemma NoExtensionEndingIn(path: string)
    requires |path| > 0 && LowerChar(path[|path| - 1]) !in {'g', 'f', 'p'}
    ensures !HasValidExtension(path)
  {
    var lp := Lower(path);
    forall ext | ext in ValidExtensions
      ensures !EndsWith(lp, ext)
    {
      assert |ext| > 0 && ext[|ext| - 1] in {'g', 'f', 'p'};
      if EndsWith(lp, ext) {
        LastCharOfSuffix(lp, ext);
      }
    }
  }

  /** On an assembled URL, a listed domain inside the host is enough, whatever the path. */
  lemma AllowListedHostAccepted(scheme: string, netloc: string, path: string, tail: string)
    requires WellFormedParts(scheme, netloc, path, tail) && |netloc| > 0
    requires IsTrustedDomain(netloc)
    ensures ValidateImageUrl(scheme + "://" + netloc + path + tail)
  {
    ParseAssembled(scheme, netloc, path, tail);
  }

  /** On an assembled URL whose host is not listed, the path's extension alone decides. */
  lemma UnlistedHostNeedsExtension(scheme: string, netloc: string, path: string, tail: string)
    requires WellFormedParts(scheme, netloc, path, tail) && |netloc| > 0
    requires !IsTrustedDomain(netloc)
    ensures ValidateImageUrl(scheme + "://" + netloc + path + tail) <==> HasValidExtension(path)
  {
    ParseAssembled(scheme, netloc, path, tail);
  }

  /** "https://i.imgur.com/example": no extension, but the host is on the allow-list, so it passes. */
  lemma TrustedHostWithoutExtensionAccepted()
    ensures Parse("https://i.imgur.com/example") == Url("https", "i.imgur.com", "/example")
    ensures ValidateImageUrl("https://i.imgur.com/example")
  {
    ImgurExampleParts();
    ImgurExampleSpelling();
    AssembledExample("https", "i.imgur.com", "/example", "", "https://i.imgur.com/example");
  }

  /** "https://i.imgur.com/example" is the concatenation of its parts. */
  lemma ImgurExampleSpelling()
    ensures "https://i.imgur.com/example" == "https" + "://" + "i.imgur.com" + "/example" + ""
  {
  }

  /** The parts of "https://i.imgur.com/example" as the validator sees them. */
  lemma ImgurExampleParts()
    ensures WellFormedParts("https", "i.imgur.com", "/example", "")
    ensures !HasValidExtension("/example")
    ensures ValidateParsed(Url("https", "i.imgur.com", "/example"))
  {
    NoExtensionEndingIn("/example");
    assert OccursAt("i.imgur.com", "imgur.com", 2);
    assert "imgur.com" in TrustedDomains;
  }

  /** "https://imgur.com.attacker.example/x": the listed name need only occur inside the host, so a look-alike host passes. */
  lemma LookalikeHostAccepted()
    ensures Parse("https://imgur.com.attacker.example/x") == Url("https", "imgur.com.attacker.example", "/x")
    ensures ValidateImageUrl("https://imgur.com.attacker.example/x")
  {
    LookalikeExampleParts();
    LookalikeExampleSpelling();
    AssembledExample("https", "imgur.com.attacker.example", "/x", "", "https://imgur.com.attacker.example/x");
  }

  /** "https://imgur.com.attacker.example/x" is the concatenation of its parts. */
  lemma LookalikeExampleSpelling()
    ensures "https://imgur.com.attacker.example/x" == "https" + "://" + "imgur.com.attacker.example" + "/x" + ""
  {
  }

  /** The parts of "https://imgur.com.attacker.example/x" as the validator sees them. */
  lemma LookalikeExampleParts()
    ensures WellFormedParts("https", "imgur.com.attacker.example", "/x", "")
    ensures !HasValidExtension("/x")
    ensures ValidateParsed(Url("https", "imgur.com.attacker.example", "/x"))
  {
    NoExtensionEndingIn("/x");
    assert OccursAt("imgur.com.attacker.example", "imgur.com", 0);
    assert "imgur.com" in TrustedDomains;
  }

  /** "https://random.com/file": no extension and an unlisted host, so it is rejected. */
  lemma UntrustedHostWithoutExtensionRejected()
    ensures Parse("https://random.com/file") == Url("https", "random.com", "/file")
    ensures !ValidateImageUrl("https://random.com/file")
  {
    RandomExampleParts();
    RandomExampleSpelling();
    AssembledExample("https", "random.com", "/file", "", "https://random.com/file");
  }

  /** "https://random.com/file" is the concatenation of its parts. */
  lemma RandomExampleSpelling()
    ensures "https://random.com/file" == "https" + "://" + "random.com" + "/file" + ""
  {
  }

  /** The parts of "https://random.com/file" as the validator sees them. */
  lemma RandomExampleParts()
    ensures WellFormedParts("https", "random.com", "/file", "")
    ensures !ValidateParsed(Url("https", "random.com", "/file"))
  {
    NoExtensionEndingIn("/file");
    TrustedDomainsSpelledOut("random.com");
    MissingCharNotContained("random.com", "i.ibb.co", 'b');
    MissingCharNotContained("random.com", "imgur.com", 'g');
    MissingCharNotContained("random.com", "cdn.discordapp.com", 'p');
  }

  /** "https://example.com/view?img=a.png": the image name sits in the query, not the path, so it is rejected. */
  lemma QueryIsNotPath()
    ensures Parse("https://example.com/view?img=a.png") == Url("https", "example.com", "/view")
    ensures !ValidateImageUrl("https://example.com/view?img=a.png")
  {
    QueryExampleParts();
    QueryExampleSpelling();
    AssembledExample("https", "example.com", "/view", "?img=a.png", "https://example.com/view?img=a.png");
  }

  /** "https://example.com/view?img=a.png" is the concatenation of its parts. */
  lemma QueryExampleSpelling()
    ensures "https://example.com/view?img=a.png" == "https" + "://" + "example.com" + "/view" + "?img=a.png"
  {
  }

  /** The parts of "https://example.com/view?img=a.png" as the validator sees them. */
  lemma QueryExampleParts()
    ensures WellFormedParts("https", "example.com", "/view", "?img=a.png")
    ensures !ValidateParsed(Url("https", "example.com", "/view"))
  {
    NoExtensionEndingIn("/view");
    TrustedDomainsSpelledOut("example.com");
    MissingCharNotContained("example.com", "i.ibb.co", 'b');
    MissingCharNotContained("example.com", "imgur.com", 'g');
    MissingCharNotContained("example.com", "cdn.discordapp.com", 'd');
  }

  /** "https://example.com/A.PNG": the extension test ignores case, so it passes on any host. */
  lemma UpperCaseExtensionAccepted()
    ensures Parse("https://example.com/A.PNG") == Url("https", "example.com", "/A.PNG")
    ensures ValidateImageUrl("https://example.com/A.PNG")
  {
    UpperCaseExampleParts();
    UpperCaseExampleSpelling();
    AssembledExample("https", "example.com", "/A.PNG", "", "https://example.com/A.PNG");
  }

  /** "https://example.com/A.PNG" is the concatenation of its parts. */
  lemma UpperCaseExampleSpelling()
    ensures "https://example.com/A.PNG" == "https" + "://" + "example.com" + "/A.PNG" + ""
  {
  }

  /** The parts of "https://example.com/A.PNG" as the validator sees them. */
  lemma UpperCaseExampleParts()
    ensures WellFormedParts("https", "example.com", "/A.PNG", "")
    ensures ValidateParsed(Url("https", "example.com", "/A.PNG"))
  {
    UpperCaseExampleWellFormed();
    UpperCaseExampleExtension();
  }

  /** The parts of "https://example.com/A.PNG" are well formed. */
  lemma UpperCaseExampleWellFormed()
    ensures WellFormedParts("https", "example.com", "/A.PNG", "")
  {
  }

  /** The upper-case path "/A.PNG" carries the listed extension ".png". */
  lemma UpperCaseExampleExtension()
    ensures HasValidExtension("/A.PNG")
  {
    assert "/A.PNG"[2..] == ".PNG";
    EndsInPng("/A.PNG");
  }

  /** A path whose last four characters fold to ".png" has a listed extension, whatever their case. */
  lemma EndsInPng(path: string)
    requires |path| >= 4 && path[|path| - 4..] == ".PNG"
    ensures HasValidExtension(path)
  {
    var lp := Lower(path);
    var n := |lp|;
    assert path[n - 4] == '.' && path[n - 3] == 'P' && path[n - 2] == 'N' && path[n - 1] == 'G';
    assert LowerChar('P') == 'p' && LowerChar('N') == 'n' && LowerChar('G') == 'g' && LowerChar('.') == '.';
    assert lp[n - 4..] == ".png";
    assert EndsWith(lp, ValidExtensions[2]);
  }

  /** A URL written out in full parses into the parts it was assembled from. */
  lemma AssembledExample(scheme: string, netloc: string, path: string, tail: string, url: string)
    requires WellFormedParts(scheme, netloc, path, tail)
    requires url == scheme + "://" + netloc + path + tail
    ensures Parse(url) == Url(scheme, netloc, path)
    ensures ValidateImageUrl(url) == ValidateParsed(Url(scheme, netloc, path))
  {
    ParseAssembled(scheme, netloc, path, tail);
  }

  /** Without "//" after the scheme there is no network location, so a URL like "mailto:x.png" is rejected. */
  lemma NoAuthorityRejected(scheme: string, rest: string)
    requires |scheme| > 0 && IsAsciiLetter(scheme[0])
    requires forall k :: 0 <= k < |scheme| ==> IsSchemeChar(scheme[k]) && !('A' <= scheme[k] <= 'Z')
    requires !StartsWith(rest, "//")
    ensures !ValidateImageUrl(scheme + ":" + rest)
  {
    SchemeSplitOff(scheme, rest);
  }
}
