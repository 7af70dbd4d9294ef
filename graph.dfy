/** The ontology graph and the two infobox crawlers that fill it: for every usable
    relation header of a page, the extracted candidates that pass the blacklist
    become triples (page, relation, entity). */
module Graph {
  import opened PyString
  import opened Entity
  import opened Extract

  /** An RDF triple of URIs, each written as its string. */
  datatype Triple = Triple(subject: string, relation: string, entity: string)

  /** `rdflib.Graph`, as far as the crawlers use it: a set of triples that only grows. */
  class Store {
    var triples: set<Triple>

    constructor ()
      ensures triples == {}
    {
      triples := {};
    }

    /** `graph.add(t)`: adding a triple that is already there changes nothing. */
    method Add(t: Triple)
      modifies this
      ensures triples == old(triples) + {t}
      ensures t in old(triples) ==> triples == old(triples)
    {
      triples := triples + {t};
    }
  }

  /** The triples that the candidates of one row add: one per candidate that is not
      blacklisted, its object the URI of the normalised candidate. */
  function RowTriples(subject: string, rel: string, entities: seq<string>): set<Triple> {
    set e | e in entities && !IsBlackListed(e) :: Triple(subject, rel, Uri(Normalize(e)))
  }

  lemma RowTriplesStep(subject: string, rel: string, entities: seq<string>, i: nat)
    requires i < |entities|
    ensures RowTriples(subject, rel, entities[..i + 1])
         == RowTriples(subject, rel, entities[..i])
          + (if IsBlackListed(entities[i]) then {} else {Triple(subject, rel, Uri(Normalize(entities[i])))})
  {
    TakeStep(entities, i);
    var e := entities[i];
    assert forall x :: x in entities[..i + 1] <==> x in entities[..i] || x == e;
  }

  /** One candidate more: the accumulated triples grow by that candidate's triple, if it passes. */
  lemma AddEntitiesStep(before: set<Triple>, subject: string, rel: string, entities: seq<string>, i: nat,
                        acc: set<Triple>)
    requires i < |entities| && acc == before + RowTriples(subject, rel, entities[..i])
    ensures acc + (if IsBlackListed(entities[i]) then {} else {Triple(subject, rel, Uri(Normalize(entities[i])))})
         == before + RowTriples(subject, rel, entities[..i + 1])
  {
    RowTriplesStep(subject, rel, entities, i);
  }

  /** The loop over `entity_lst` shared by both crawlers: normalise, test the raw
      candidate against the blacklist, add. */
  method AddEntities(store: Store, subject: string, rel: string, entities: seq<string>)
    modifies store
    ensures store.triples == old(store.triples) + RowTriples(subject, rel, entities)
  {
    for i := 0 to |entities|
      invariant store.triples == old(store.triples) + RowTriples(subject, rel, entities[..i])
    {
      var entity := entities[i];
      var temp := Strip(entity);
      temp := Replace(temp, " ", "_");
      temp := Replace(temp, "\"", "");
      assert temp == Normalize(entity);
      AddEntitiesStep(old(store.triples), subject, rel, entities, i, store.triples);
      if !IsBlackListed(entity) {
        store.Add(Triple(subject, rel, Uri(temp)));
      } else {
        assert store.triples + {} == store.triples;
      }
    }
    TakeAll(entities);
  }

  /** A URI under the example prefix whose slug has no space and no `"`. */
  predicate IsEntityUri(o: string) {
    var n := |ExamplePrefix| + 1;
    |o| >= n && o[..n] == Uri("") && ' ' !in o[n..] && '"' !in o[n..]
  }

  lemma UriIsEntityUri(slug: string)
    requires ' ' !in slug && '"' !in slug
    ensures IsEntityUri(Uri(slug))
  {
    var n := |ExamplePrefix| + 1;
    assert Uri(slug)[n..] == slug;
  }

  /** Every triple of a row has the row's subject and relation, and a clean entity URI as object. */
  lemma RowTriplesShape(subject: string, rel: string, entities: seq<string>)
    ensures forall t :: t in RowTriples(subject, rel, entities) ==>
      t.subject == subject && t.relation == rel && IsEntityUri(t.entity)
  {
    forall t | t in RowTriples(subject, rel, entities)
      ensures t.subject == subject && t.relation == rel && IsEntityUri(t.entity)
    {
      var e :| e in entities && !IsBlackListed(e) && t == Triple(subject, rel, Uri(Normalize(e)));
      UriIsEntityUri(Normalize(e));
    }
  }

  /** Each accepted candidate is in the graph under its normalised name. */
  lemma RowTriplesMembership(subject: string, rel: string, entities: seq<string>, e: string)
    requires e in entities
    ensures !IsBlackListed(e) ==> Triple(subject, rel, Uri(Normalize(e))) in RowTriples(subject, rel, entities)
  {
  }

  /** A row adds nothing exactly when every one of its candidates is blacklisted. */
  lemma RowTriplesEmpty(subject: string, rel: string, entities: seq<string>)
    ensures RowTriples(subject, rel, entities) == {} <==> forall x :: x in entities ==> IsBlackListed(x)
  {
    if exists x :: x in entities && !IsBlackListed(x) {
      var x :| x in entities && !IsBlackListed(x);
      RowTriplesMembership(subject, rel, entities, x);
    }
  }

  /** A row adds at most one triple per candidate. */
  lemma {:induction false} RowTriplesBound(subject: string, rel: string, entities: seq<string>)
    ensures |RowTriples(subject, rel, entities)| <= |entities|
    decreases |entities|
  {
    if |entities| > 0 {
      var n := |entities| - 1;
      RowTriplesBound(subject, rel, entities[..n]);
      RowTriplesStep(subject, rel, entities, n);
      TakeAll(entities);
    }
  }

  /** The order of the candidates and their repetitions do not matter. */
  lemma RowTriplesOrderFree(subject: string, rel: string, a: seq<string>, b: seq<string>)
    requires forall e :: e in a <==> e in b
    ensures RowTriples(subject, rel, a) == RowTriples(subject, rel, b)
  {
  }

  // ---------------------------------------------------------------------------
  // Pages

  /** A fetched infobox page: its link, its header texts in document order
      (`//tr[position()>=3]/th//text()`), and what the row queries return for each header. */
  datatype Page = Page(url: string, headers: seq<string>, rows: map<string, RowQueries>)

  /** The row queries for one header; a header whose queries match nothing gets empty lists. */
  function Queries(page: Page, header: string): RowQueries {
    if header in page.rows then page.rows[header] else RowQueries([], [], [], [], [])
  }

  /** The triples one header of a film page adds (`crawler_level2`). */
  function FilmHeaderTriples(page: Page, header: string): set<Triple> {
    if RelationLabelOk(header) then
      RowTriples(PageSubject(page.url), Uri(RelationSlug(header)), FilmCandidates(header, Queries(page, header)))
    else {}
  }

  /** The triples the headers add, header by header. */
  function FilmTriples(page: Page, headers: seq<string>): set<Triple> {
    if |headers| == 0 then {}
    else FilmTriples(page, headers[..|headers| - 1]) + FilmHeaderTriples(page, headers[|headers| - 1])
  }

  lemma FilmTriplesStep(page: Page, headers: seq<string>, i: nat)
    requires i < |headers|
    ensures FilmTriples(page, headers[..i + 1]) == FilmTriples(page, headers[..i]) + FilmHeaderTriples(page, headers[i])
  {
    TakeStep(headers, i);
  }

  /** `crawler_level2` without the recursive crawl of the linked people: every usable
      header's candidates are added to the graph. */
  method CrawlFilm(store: Store, page: Page)
    modifies store
    ensures store.triples == old(store.triples) + FilmTriples(page, page.headers)
  {
    var movieName := Uri(Replace(page.url, "/wiki/", ""));
    var relationLst := page.headers;
    for i := 0 to |relationLst|
      invariant store.triples == old(store.triples) + FilmTriples(page, relationLst[..i])
    {
      var relation := relationLst[i];
      FilmTriplesStep(page, relationLst, i);
      if '\'' !in relation && '\n' !in relation && '"' !in relation {
        var temp := Replace(relation, " ", "_");
        var rel := Uri(temp);
        var entityLst := FilmRowCandidates(relation, Queries(page, relation));
        AddEntities(store, movieName, rel, entityLst);
      }
    }
    TakeAll(relationLst);
  }

  /** A triple comes from the headers exactly when it comes from one of them:
      the order of the headers and their repetitions do not matter. */
  lemma {:induction false} FilmTriplesMembership(page: Page, headers: seq<string>, t: Triple)
    ensures t in FilmTriples(page, headers) <==> exists h :: h in headers && t in FilmHeaderTriples(page, h)
    decreases |headers|
  {
    if |headers| > 0 {
      var n := |headers| - 1;
      FilmTriplesMembership(page, headers[..n], t);
      InitLast(headers);
      assert forall h :: h in headers <==> h in headers[..n] || h == headers[n];
    }
  }

  /** Every triple of a film page has the page as subject, the slug of a usable header as relation, and a clean object. */
  lemma FilmTriplesShape(page: Page, t: Triple)
    requires t in FilmTriples(page, page.headers)
    ensures t.subject == PageSubject(page.url) && IsEntityUri(t.entity)
    ensures exists h :: h in page.headers && RelationLabelOk(h) && t.relation == Uri(RelationSlug(h))
  {
    FilmTriplesMembership(page, page.headers, t);
    var h :| h in page.headers && t in FilmHeaderTriples(page, h);
    RowTriplesShape(PageSubject(page.url), Uri(RelationSlug(h)), FilmCandidates(h, Queries(page, h)));
  }

  /** A header holding `'`, `"` or a newline contributes nothing, whatever its row holds. */
  lemma UnusableHeaderIgnored(page: Page, header: string)
    requires !RelationLabelOk(header)
    ensures FilmHeaderTriples(page, header) == {} && PersonHeader(page, header) == Ok({})
  {
  }

  // ---------------------------------------------------------------------------
  // Person pages

  /** The effect of one header of a person page (`crawler_level3`): its triples, or
      the exception the extraction raises. */
  function PersonHeader(page: Page, header: string): Result<set<Triple>> {
    if !RelationLabelOk(header) then Ok({})
    else match PersonCandidates(header, Queries(page, header))
      case Raise(e) => Raise(e)
      case Ok(entities) => Ok(RowTriples(PageSubject(page.url), Uri(RelationSlug(header)), entities))
  }

  /** What a run over headers leaves behind: the triples added, and the exception that
      stopped it, if any (the triples of the rows before it stay in the graph). */
  datatype Run = Run(added: set<Triple>, raised: Option<Exception>)

  function PersonRun(page: Page, headers: seq<string>): Run {
    if |headers| == 0 then Run({}, None)
    else
      var prev := PersonRun(page, headers[..|headers| - 1]);
      if prev.raised.Some? then prev
      else match PersonHeader(page, headers[|headers| - 1])
        case Raise(e) => Run(prev.added, Some(e))
        case Ok(ts) => Run(prev.added + ts, None)
  }

  lemma PersonRunStep(page: Page, headers: seq<string>, i: nat)
    requires i < |headers|
    ensures PersonRun(page, headers[..i + 1]) ==
      var prev := PersonRun(page, headers[..i]);
      if prev.raised.Some? then prev
      else match PersonHeader(page, headers[i])
        case Raise(e) => Run(prev.added, Some(e))
        case Ok(ts) => Run(prev.added + ts, None)
  {
    TakeStep(headers, i);
  }

  /** Once a header has raised, the headers after it change nothing. */
  lemma {:induction false} PersonRunStops(page: Page, headers: seq<string>, k: nat)
    requires k <= |headers| && PersonRun(page, headers[..k]).raised.Some?
    ensures PersonRun(page, headers) == PersonRun(page, headers[..k])
    decreases |headers| - k
  {
    if k < |headers| {
      PersonRunStep(page, headers, k);
      PersonRunStops(page, headers, k + 1);
    } else {
      TakeAll(headers);
    }
  }

  /** `crawler_level3`: header by header, the candidates are added; an IndexError
      from "Born" ends the crawl of the page and is passed on. */
  method CrawlPerson(store: Store, page: Page) returns (raised: Option<Exception>)
    modifies store
    ensures store.triples == old(store.triples) + PersonRun(page, page.headers).added
    ensures raised == PersonRun(page, page.headers).raised
  {
    var personName := Uri(Replace(page.url, "/wiki/", ""));
    var relationLst := page.headers;
    raised := None;
    for i := 0 to |relationLst|
      invariant store.triples == old(store.triples) + PersonRun(page, relationLst[..i]).added
      invariant PersonRun(page, relationLst[..i]).raised == None
    {
      var relation := relationLst[i];
      PersonRunStep(page, relationLst, i);
      if '\'' !in relation && '\n' !in relation && '"' !in relation {
        var temp := Replace(relation, " ", "_");
        var rel := Uri(temp);
        var entityLst := PersonRowCandidates(relation, Queries(page, relation));
        if entityLst.Raise? {
          raised := Some(entityLst.error);
          PersonRunStops(page, relationLst, i + 1);
          return;
        }
        AddEntities(store, personName, rel, entityLst.value);
      }
    }
    TakeAll(relationLst);
  }

  /** The crawl of a person page fails exactly when it has a usable "Born" header whose
      row has neither a `bday` text nor any text at all; the error is then IndexError. */
  lemma {:induction false} PersonRunFails(page: Page, headers: seq<string>)
    ensures PersonRun(page, headers).raised.Some? <==>
      "Born" in headers && Queries(page, "Born").bday == [] && Queries(page, "Born").texts == []
    ensures PersonRun(page, headers).raised.Some? ==> PersonRun(page, headers).raised == Some(IndexError)
    decreases |headers|
  {
    if |headers| > 0 {
      var n := |headers| - 1;
      var init := headers[..n];
      PersonRunFails(page, init);
      InitLast(headers);
      var h := headers[n];
      PersonCandidatesFail(h, Queries(page, h));
      assert "Born" in headers <==> "Born" in init || h == "Born";
    }
  }

  /** Without a failure the person crawl adds, like the film crawl, the union of what its headers add. */
  lemma {:induction false} PersonRunUnion(page: Page, headers: seq<string>, t: Triple)
    requires PersonRun(page, headers).raised.None?
    ensures t in PersonRun(page, headers).added <==>
      exists h :: h in headers && PersonHeader(page, h).Ok? && t in PersonHeader(page, h).value
    decreases |headers|
  {
    if |headers| > 0 {
      var n := |headers| - 1;
      PersonRunUnion(page, headers[..n], t);
      InitLast(headers);
      assert forall h :: h in headers <==> h in headers[..n] || h == headers[n];
    }
  }
}
