/** The entity filter and normaliser applied to every raw candidate the crawler
    extracts, the relation-header filter and slug, and the URIs built from slugs. */
module Entity {
  import opened PyString

  const ExamplePrefix: string := "http://example.org"

  /** `rdflib.URIRef(f'{EXAMPLE_PREFIX}/{slug}')`, as its string. */
  function Uri(slug: string): string {
    ExamplePrefix + "/" + slug
  }

  /** Two URIs are equal exactly when their slugs are (the only identity of an entity). */
  lemma UriInjective(a: string, b: string)
    ensures Uri(a) == Uri(b) <==> a == b
  {
    if Uri(a) == Uri(b) {
      var n := |ExamplePrefix| + 1;
      assert a == Uri(a)[n..];
      assert b == Uri(b)[n..];
    }
  }

  /** Splitting a URI on '/' and keeping the last piece only looks at the slug. */
  lemma UriLastSegment(slug: string)
    ensures LastSegment(Uri(slug)) == LastSegment(slug)
  {
    LastSegmentAfterSlash(ExamplePrefix, slug);
  }

  /** A bracketed marker such as `[12]`, or a citation link. The empty string is not
      one, and neither is a lone bracket. */
  predicate IsFootNote(s: string)
    ensures IsFootNote(s) ==> |s| >= 2
  {
    |s| != 0 && ((s[0] == '[' && s[|s| - 1] == ']') || Contains(s, "#cite_note"))
  }

  /** A raw candidate the crawler drops: braces or a newline, empty, an
      "Executive Producer" credit, a footnote, or two characters that are not both
      letters or digits. A single character is dropped only when it is a brace or a
      newline. */
  predicate IsBlackListed(e: string)
    ensures |e| == 0 ==> IsBlackListed(e)
    ensures |e| == 1 ==> (IsBlackListed(e) <==> e[0] in "{}\n")
  {
    '{' in e || '}' in e || '\n' in e || |e| == 0 || Contains(e, "Executive Producer")
    || IsFootNote(e) || (|e| == 2 && !IsAlnum(e))
  }

  /** The clean-up inlined in both crawlers: strip, spaces to `_`, drop `"`. */
  function Normalize(e: string): (r: string)
    ensures ' ' !in r && '"' !in r
  {
    var s := Strip(e);
    var u := Replace(s, " ", "_");
    NormalizeSteps(e);
    SubstCharRemoves(s, ' ', "_");
    SubstCharRemoves(u, '"', "");
    SubstCharKeeps(u, '"', "", ' ');
    Replace(u, "\"", "")
  }

  /** The two replacements of `Normalize`, as character substitutions. */
  lemma NormalizeSteps(e: string)
    ensures Replace(Strip(e), " ", "_") == SubstChar(Strip(e), ' ', "_")
    ensures Replace(Replace(Strip(e), " ", "_"), "\"", "")
         == SubstChar(SubstChar(Strip(e), ' ', "_"), '"', "")
  {
    ReplaceChar(Strip(e), ' ', "_");
    ReplaceChar(Replace(Strip(e), " ", "_"), '"', "");
  }

  /** A character other than space, `"` and `_` is in the normalised entity only if it is in the raw one. */
  lemma NormalizeKeepsAbsence(e: string, c: char)
    requires c != ' ' && c != '"' && c != '_' && c !in e
    ensures c !in Normalize(e)
  {
    var s := Strip(e);
    NormalizeSteps(e);
    SubstCharKeeps(s, ' ', "_", c);
    SubstCharKeeps(SubstChar(s, ' ', "_"), '"', "", c);
  }

  /** Without a `"` in the raw entity, the normalised one has no whitespace at either end. */
  lemma NormalizeEdges(e: string)
    requires '"' !in e
    ensures var r := Normalize(e); r == "" || (!IsSpace(r[0]) && !IsSpace(r[|r| - 1]))
  {
    var s := Strip(e);
    var u := SubstChar(s, ' ', "_");
    NormalizeSteps(e);
    SubstCharKeeps(s, ' ', "_", '"');
    SubstCharAbsent(u, '"', "");
    SubstCharByChar(s, ' ', '_');
    assert "_" == ['_'];
  }

  lemma QuoteNotStripped(e: string)
    requires e == "\"\tx"
    ensures Strip(e) == e
  {
    assert e[0] == '"' && e[|e| - 1] == 'x';
    StripUnpadded(e);
  }

  lemma QuoteDropped(e: string, x: string)
    requires e == "\"\tx" && x == "\tx"
    ensures SubstChar(e, '"', "") == x
  {
    assert e[1..] == x;
    SubstCharAbsent(x, '"', "");
  }

  lemma QuoteExposes(e: string, x: string)
    requires e == "\"\tx" && x == "\tx"
    ensures Normalize(e) == x
  {
    QuoteNotStripped(e);
    NormalizeSteps(e);
    SubstCharAbsent(e, ' ', "_");
    QuoteDropped(e, x);
  }

  /** ... but a `"` at an edge is removed after stripping, and exposes the whitespace behind it. */
  lemma NormalizeQuoteExposesSpace()
    ensures Normalize("\"\tx") == "\tx"
  {
    QuoteExposes("\"\tx", "\tx");
  }

  /** The blacklist sees the raw string: a lone space passes it and becomes the empty slug. */
  lemma SpaceOnlyEntityPasses()
    ensures !IsBlackListed(" ") && Normalize(" ") == ""
  {
    if Contains(" ", "Executive Producer") {
      ContainsFirstChar(" ", "Executive Producer");
    }
    if Contains(" ", "#cite_note") {
      ContainsFirstChar(" ", "#cite_note");
    }
    assert TrimLeft(" ") == "";
    NormalizeSteps(" ");
  }

  /** Neither long marker occurs in a string that holds neither of their first characters. */
  lemma NoMarkers(w: string)
    requires 'E' !in w && '#' !in w
    ensures !Contains(w, "Executive Producer") && !Contains(w, "#cite_note")
  {
    if Contains(w, "Executive Producer") { ContainsFirstChar(w, "Executive Producer"); }
    if Contains(w, "#cite_note") { ContainsFirstChar(w, "#cite_note"); }
  }

  lemma CitationBlackListed(e: string)
    requires e == "foo#cite_note-1"
    ensures IsBlackListed(e)
  {
    assert OccursAt(e, "#cite_note", 3);
  }

  /** A string longer than two characters without braces, newlines, a leading `[` or the
      first characters of the long markers passes the blacklist. */
  lemma PlainPasses(w: string)
    requires |w| > 2 && w[0] != '['
    requires '{' !in w && '}' !in w && '\n' !in w && 'E' !in w && '#' !in w
    ensures !IsBlackListed(w)
  {
    NoMarkers(w);
  }

  lemma PlainNamesPass(w: string, y: string)
    requires w == "Warner Bros." && y == "1994"
    ensures !IsBlackListed(w) && !IsBlackListed(y)
  {
    PlainPasses(w);
    PlainPasses(y);
  }

  /** The blacklist on sample inputs. */
  lemma BlackListExamples()
    ensures IsBlackListed("") && IsBlackListed("[12]") && IsBlackListed("foo#cite_note-1")
    ensures IsBlackListed("{x}") && IsBlackListed("--")
    ensures !IsBlackListed("Warner Bros.") && !IsBlackListed("1994")
  {
    CitationBlackListed("foo#cite_note-1");
    assert !IsAsciiAlnum("--"[0]);
    PlainNamesPass("Warner Bros.", "1994");
  }

  /** Any two-character string that is not alphanumeric is dropped. */
  lemma TwoCharNonAlnumBlackListed(e: string)
    requires |e| == 2 && !(IsAsciiAlnum(e[0]) && IsAsciiAlnum(e[1]))
    ensures IsBlackListed(e)
  {
  }

  /** A relation header is used unless it holds a `'`, a `"` or a newline. */
  predicate RelationLabelOk(header: string) {
    '\'' !in header && '\n' !in header && '"' !in header
  }

  /** `relation.replace(" ", "_")`: the header with each space turned into `_`. */
  function RelationSlug(header: string): (r: string)
    ensures |r| == |header| && ' ' !in r
    ensures forall i :: 0 <= i < |header| ==> r[i] == if header[i] == ' ' then '_' else header[i]
  {
    ReplaceChar(header, ' ', "_");
    SubstCharByChar(header, ' ', '_');
    assert "_" == ['_'];
    Replace(header, " ", "_")
  }

  /** The slug of an accepted header keeps its freedom from `'`, `"` and newlines. */
  lemma RelationSlugClean(header: string)
    requires RelationLabelOk(header)
    ensures RelationLabelOk(RelationSlug(header))
  {
  }

  /** A two-word header such as "Directed by" becomes "Directed_by", the relation the queries name. */
  lemma SlugOfTwoWords(a: string, b: string)
    requires ' ' !in a && ' ' !in b
    ensures RelationSlug(a + " " + b) == a + "_" + b
  {
    var h := a + " " + b;
    var r := RelationSlug(h);
    forall i | 0 <= i < |h| ensures r[i] == (a + "_" + b)[i] {
      if i < |a| {
        assert h[i] == a[i];
      } else if i > |a| {
        assert h[i] == b[i - |a| - 1];
      }
    }
  }

  /** The subject of a crawled page: `url.replace("/wiki/", "")` under the prefix. */
  function PageSubject(url: string): string {
    Uri(Replace(url, "/wiki/", ""))
  }

  /** A link `/wiki/Name` names the subject `Name` whenever `Name` itself holds no
      further `/wiki/` (a `/` alone, as in `Face/Off`, is kept). */
  lemma PageSubjectOfWikiLink(name: string)
    requires !Contains(name, "/wiki/")
    ensures PageSubject("/wiki/" + name) == Uri(name)
  {
    var url := "/wiki/" + name;
    assert url[..6] == "/wiki/";
    assert url[..0] == "";
    assert url[6..] == name;
    SplitFree(name, "/wiki/");
    assert Split(name, "/wiki/") == [name];
    assert Split(url, "/wiki/") == [""] + [name];
    assert Join(["", name], "") == "" + "" + name;
  }
}
