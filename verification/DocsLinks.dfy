/**
 Links of the documentation viewer. Text is taken as its UTF-8 octets; percent-encoding follows
 section 2.1 of RFC 3986, and the octets left alone are the unreserved ones and the slash.
 */
module DocsLinks {
  import opened Wrappers
  import Text

  type Octet = c: char | c as int < 256 witness 'a'

  type Octets = seq<Octet>

  // ---- Percent-encoding -------------------------------------------------------------------

  predicate IsSafe(c: Octet) {
    || 'a' <= c <= 'z' || 'A' <= c <= 'Z' || '0' <= c <= '9'
    || c == '_' || c == '.' || c == '-' || c == '~' || c == '/'
  }

  function HexDigit(d: nat): (c: Octet)
    requires d < 16
  {
    if d < 10 then '0' + d as char else 'A' + (d - 10) as char
  }

  function HexValue(c: Octet): (d: nat)
    requires Text.IsHexDigit(c)
    ensures d < 16
  {
    if c <= '9' then (c - '0') as int else if c <= 'F' then (c - 'A') as int + 10 else (c - 'a') as int + 10
  }

  function QuoteOctet(c: Octet): Octets {
    if IsSafe(c) then [c] else ['%', HexDigit(c as int / 16), HexDigit(c as int % 16)]
  }

  /** `quote(s, safe="/")` */
  function Quote(s: Octets): Octets {
    if s == [] then [] else QuoteOctet(s[0]) + Quote(s[1..])
  }

  predicate IsEscape(s: Octets) {
    |s| >= 3 && s[0] == '%' && Text.IsHexDigit(s[1]) && Text.IsHexDigit(s[2])
  }

  /** `unquote(s)`: an octet for every escape, and everything else, stray percent signs too, as it stands. */
  function Unquote(s: Octets): Octets {
    if s == [] then []
    else if IsEscape(s) then [(16 * HexValue(s[1]) + HexValue(s[2])) as char] + Unquote(s[3..])
    else [s[0]] + Unquote(s[1..])
  }

  lemma HexRoundTrip(c: Octet)
    ensures var e := ['%', HexDigit(c as int / 16), HexDigit(c as int % 16)];
            IsEscape(e) && 16 * HexValue(e[1]) + HexValue(e[2]) == c as int
  {
  }

  lemma UnquoteOctet(c: Octet, rest: Octets)
    ensures Unquote(QuoteOctet(c) + rest) == [c] + Unquote(rest)
  {
    var s := QuoteOctet(c) + rest;
    if IsSafe(c) {
      assert s[0] == c && s[1..] == rest;
    } else {
      HexRoundTrip(c);
      assert s[0] == '%' && s[1] == QuoteOctet(c)[1] && s[2] == QuoteOctet(c)[2] && s[3..] == rest;
    }
  }

  lemma QuoteStep(s: Octets, t: Octets)
    requires s != []
    ensures Quote(s) + t == QuoteOctet(s[0]) + (Quote(s[1..]) + t)
  {
  }

  lemma FirstOf(s: Octets, t: Octets)
    requires s != []
    ensures s + t == [s[0]] + (s[1..] + t)
  {
  }

  lemma {:induction false} UnquoteQuoted(s: Octets, t: Octets)
    ensures Unquote(Quote(s) + t) == s + Unquote(t)
  {
    if s == [] {
      assert Quote(s) + t == t;
    } else {
      QuoteStep(s, t);
      UnquoteOctet(s[0], Quote(s[1..]) + t);
      UnquoteQuoted(s[1..], t);
      FirstOf(s, Unquote(t));
    }
  }

  /** Decoding undoes encoding. */
  lemma QuoteRoundTrip(s: Octets)
    ensures Unquote(Quote(s)) == s
  {
    UnquoteQuoted(s, []);
    assert Quote(s) + [] == Quote(s) && s + [] == s;
  }

  /** An encoded text holds unreserved octets, slashes and escapes only, so neither a colon nor a hash sign. */
  lemma {:induction false} QuoteIsClean(s: Octets)
    ensures forall c | c in Quote(s) :: IsSafe(c) || c == '%'
    ensures ':' !in Quote(s) && '#' !in Quote(s)
  {
    if s != [] {
      QuoteIsClean(s[1..]);
      assert forall c | c in QuoteOctet(s[0]) :: IsSafe(c) || c == '%';
    }
  }

  // ---- Viewer links -----------------------------------------------------------------------

  const SEPARATOR: Octets := ['#']
  const COLONS: Octets := [':', ':']

  function PageUrl(page: Octets, anchor: Octets): Octets {
    SEPARATOR + Quote(page) + COLONS + Quote(anchor)
  }

  /** What a URL says after its first hash sign. */
  function Fragment(url: Octets): Octets {
    if url == [] then [] else if url[0] == '#' then url[1..] else Fragment(url[1..])
  }

  predicate ColonsAt(s: Octets, i: int) {
    0 <= i && i + 2 <= |s| && s[i] == ':' && s[i + 1] == ':'
  }

  /** Where the first "::" stands, or the length when there is none. */
  function FirstColons(s: Octets): (i: nat)
    ensures i <= |s|
    ensures i < |s| ==> ColonsAt(s, i)
    ensures forall j | 0 <= j < i :: !ColonsAt(s, j)
    ensures i == |s| ==> forall j :: !ColonsAt(s, j)
  {
    if s == [] then 0
    else if ColonsAt(s, 0) then 0
    else
      var i := 1 + FirstColons(s[1..]);
      assert forall j | 1 <= j :: ColonsAt(s, j) <==> ColonsAt(s[1..], j - 1);
      i
  }

  datatype Parts = Parts(page: Octets, found: bool, section: Octets)

  /** `s.partition("::")` */
  function Partition(s: Octets): Parts {
    var i := FirstColons(s);
    if i < |s| then Parts(s[..i], true, s[i + 2..]) else Parts(s, false, [])
  }

  /** Pages whose name can be told from what follows it. */
  predicate Separable(page: Octets) {
    FirstColons(page) == |page| && (page == [] || page[|page| - 1] != ':')
  }

  lemma PartitionJoined(page: Octets, anchor: Octets)
    ensures Partition(page + COLONS + anchor) == Parts(page, true, anchor) <==> Separable(page)
  {
    var s := page + COLONS + anchor;
    var i := FirstColons(s);
    assert ColonsAt(s, |page|);
    assert i <= |page|;
    assert s[|page| + 2..] == anchor && s[..|page|] == page;
    assert forall j | 0 <= j < |page| - 1 :: ColonsAt(s, j) <==> ColonsAt(page, j);
    assert forall j | j >= |page| - 1 :: !ColonsAt(page, j);
    if page != [] {
      assert ColonsAt(s, |page| - 1) <==> page[|page| - 1] == ':';
    }
    if i < |page| {
      assert |s[..i]| != |page|;
    }
  }

  lemma FragmentOfUrl(rest: Octets)
    ensures Fragment(SEPARATOR + rest) == rest
  {
    assert (SEPARATOR + rest)[1..] == rest;
  }

  lemma UnquoteColons(t: Octets)
    ensures Unquote(COLONS + t) == COLONS + Unquote(t)
  {
    var s := COLONS + t;
    assert s[1..] == [':'] + t && s[1..][1..] == t;
    assert Unquote(s[1..]) == [':'] + Unquote(t);
    assert Unquote(s) == [':'] + Unquote(s[1..]);
  }

  lemma FragmentParts(page: Octets, anchor: Octets)
    ensures Fragment(PageUrl(page, anchor)) == Quote(page) + (COLONS + Quote(anchor))
  {
    assert PageUrl(page, anchor) == SEPARATOR + (Quote(page) + (COLONS + Quote(anchor)));
    FragmentOfUrl(Quote(page) + (COLONS + Quote(anchor)));
  }

  lemma UnquotedTail(anchor: Octets, tail: Octets)
    requires tail == COLONS + Quote(anchor)
    ensures Unquote(tail) == COLONS + anchor
  {
    UnquoteColons(Quote(anchor));
    QuoteRoundTrip(anchor);
  }

  lemma Regrouped(a: Octets, b: Octets, c: Octets)
    ensures a + (b + c) == a + b + c
  {
  }

  lemma UnquotedUrl(page: Octets, anchor: Octets)
    ensures Unquote(Fragment(PageUrl(page, anchor))) == page + COLONS + anchor
  {
    FragmentParts(page, anchor);
    var tail := COLONS + Quote(anchor);
    UnquoteQuoted(page, tail);
    UnquotedTail(anchor, tail);
    Regrouped(page, COLONS, anchor);
  }

  /** A viewer link leads back to its page and anchor exactly when the page name can be told apart. */
  lemma PageUrlRoundTrip(page: Octets, anchor: Octets)
    ensures PageUrl(page, anchor) == "#" + Quote(page) + "::" + Quote(anchor)
    ensures Partition(Unquote(Fragment(PageUrl(page, anchor)))) == Parts(page, true, anchor) <==> Separable(page)
  {
    UnquotedUrl(page, anchor);
    PartitionJoined(page, anchor);
  }

  lemma NoColonSeparable(page: Octets)
    requires ':' !in page
    ensures Separable(page)
  {
    forall j | 0 <= j < |page| ensures page[j] != ':' {
      assert page[j] in page;
    }
  }

  /** The two colons of a link are the only ones in it, so it can also be cut before it is decoded. */
  lemma OnlyOneSeparator(page: Octets, anchor: Octets)
    ensures Partition(Fragment(PageUrl(page, anchor))) == Parts(Quote(page), true, Quote(anchor))
  {
    QuoteIsClean(page);
    NoColonSeparable(Quote(page));
    FragmentParts(page, anchor);
    Regrouped(Quote(page), COLONS, Quote(anchor));
    PartitionJoined(Quote(page), Quote(anchor));
  }

  // ---- Checking a link --------------------------------------------------------------------

  const MAIN: Octets := ['m', 'a', 'i', 'n']

  datatype Alias = Alias(page: Octets, anchor: Octets)

  /**
   The tree of files: what exists, the anchors of every page, where a page name leads from the root,
   and the names kept for older pages. `viewer` is the generated page itself.
   */
  datatype Site<!P(==)> = Site(files: set<P>, anchors: map<P, set<Octets>>, markdown: set<P>, viewer: P,
                               resolve: Octets -> P, aliases: map<Octets, Alias>)

  /** A link target once its relative path is resolved; a link with a scheme or a host has none. */
  datatype Target<P> = Target(path: P, fragment: Octets)

  /** A section of a page that the site holds; an empty name is the page itself. */
  predicate IsSection<P>(site: Site<P>, page: P, section: Octets) {
    page in site.anchors && (section == [] || section in site.anchors[page])
  }

  /** The place a page name and a section stand for. */
  function Place<P>(site: Site<P>, page: Octets, section: Octets): Alias {
    if page in site.aliases then site.aliases[page] else Alias(page, section)
  }

  /** What a fragment of the viewer must name. */
  predicate ViewerSectionExists<P>(site: Site<P>, anchor: Octets) {
    var parts := Partition(anchor);
    var place := Place(site, parts.page, parts.section);
    var page := site.resolve(place.page);
    parts.found && page in site.markdown && IsSection(site, page, place.anchor)
  }

  predicate LinkResolves<P>(site: Site<P>, target: Option<Target<P>>) {
    target.Some? ==>
      var path, anchor := target.value.path, Unquote(target.value.fragment);
      if path == site.viewer then anchor == [] || anchor == MAIN || ViewerSectionExists(site, anchor)
      else path in site.files && (anchor != [] && path in site.anchors ==> anchor in site.anchors[path])
  }

  /** `validate_link`: true where the source returns, false where it raises. */
  method ValidateLink<P>(site: Site<P>, target: Option<Target<P>>) returns (ok: bool)
    ensures ok <==> LinkResolves(site, target)
  {
    if target.None? {
      return true;
    }
    var path, anchor := target.value.path, Unquote(target.value.fragment);
    if path == site.viewer {
      if anchor == [] || anchor == MAIN {
        return true;
      }
      var parts := Partition(anchor);
      var page, section := parts.page, parts.section;
      if page in site.aliases {
        var alias := site.aliases[page];
        page, section := alias.page, alias.anchor;
      }
      var viewerTarget := site.resolve(page);
      if !parts.found || viewerTarget !in site.anchors || viewerTarget !in site.markdown {
        return false;
      }
      return section == [] || section in site.anchors[viewerTarget];
    }
    if path !in site.files {
      return false;
    }
    return anchor == [] || path !in site.anchors || anchor in site.anchors[path];
  }

  /** Outside the viewer a link leads elsewhere, or to a file that has the section, if its sections are known. */
  lemma PlainLinksChecked<P>(site: Site<P>, path: P, anchor: Octets)
    requires path != site.viewer
    ensures LinkResolves(site, None)
    ensures LinkResolves(site, Some(Target(path, Quote(anchor))))
       <==> path in site.files && (anchor == [] || path !in site.anchors || anchor in site.anchors[path])
  {
    QuoteRoundTrip(anchor);
  }

  /** Into the viewer, a fragment without a double colon passes if it is empty or names the main part. */
  lemma ViewerLinksChecked<P>(site: Site<P>, anchor: Octets)
    requires forall i | 0 <= i < |anchor| - 1 :: anchor[i] != ':' || anchor[i + 1] != ':'
    ensures LinkResolves(site, Some(Target(site.viewer, Quote(anchor)))) <==> anchor == "" || anchor == "main"
  {
    QuoteRoundTrip(anchor);
    assert !Partition(anchor).found;
  }

  lemma JoinedIsNotMain(page: Octets, anchor: Octets)
    ensures page + COLONS + anchor != [] && page + COLONS + anchor != MAIN
  {
    assert (page + COLONS + anchor)[|page|] == ':';
  }

  /**
   A link made for a page and an anchor passes the check exactly when the site holds them, whatever
   the anchor; older page names lead to the section they stand for.
   */
  lemma GeneratedLinksChecked<P>(site: Site<P>, page: Octets, anchor: Octets)
    requires Separable(page)
    ensures LinkResolves(site, Some(Target(site.viewer, Fragment(PageUrl(page, anchor)))))
       <==> var known := page in site.aliases;
            var target := site.resolve(if known then site.aliases[page].page else page);
            var section := if known then site.aliases[page].anchor else anchor;
            && target in site.markdown && target in site.anchors
            && (section == [] || section in site.anchors[target])
  {
    UnquotedUrl(page, anchor);
    PartitionJoined(page, anchor);
    JoinedIsNotMain(page, anchor);
  }
}
