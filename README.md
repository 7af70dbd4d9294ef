# film_qa: infobox knowledge graph and question templates, modelled in Dafny

`film_qa.py` builds an RDF knowledge graph from the infoboxes of Wikipedia film pages
and of the pages of the people who directed, produced or starred in them. It then
answers a fixed set of question templates ("Who directed X", "Did A star in M",
"How many A are also B", ...) with triple-pattern lookups in that graph.

This project models the deterministic logic of that file:

- `PyString` (`pystr.dfy`): the Python string built-ins the code relies on. These are
  `in`, `split(sep)`, `split()`, `join`, `replace`, `strip`, `lower`, `isnumeric`,
  `isalnum`, `list.index`, slicing, `str(int)`, and the two exceptions the code can
  raise (`IndexError`, `ValueError`) as a `Result`.
- `Entity` (`entity.dfy`): the footnote and blacklist predicates. Also the entity
  normalisation inlined in both crawlers (strip, spaces to `_`, drop `"`), the
  relation-header filter and slug, and URIs under `http://example.org`.
- `Extract` (`extract.dfy`): the per-relation extractors. Each XPath query the source
  runs is an input list of strings (`RowQueries`). What remains is the year scan, the
  `/` split, the `,`-then-`and` split, the join without newlines, and the last path
  segment of each href. The three loop-based extractors are methods proved against
  specification functions.
- `Graph` (`graph.dfy`): the graph as a `Store` class holding a `set<Triple>`. Also the
  per-row insertion loop shared by `crawler_level2` and `crawler_level3`, and the
  header loops of both crawlers over a `Page` value. The page value stands for what
  the XPath queries return for that page.
- `Query` (`query.dfy`): the four SPARQL helpers as set comprehensions, and the slot
  grammar of `query_parser` as a function `Parse` from tokens to a `Plan`. It also has
  the interpreter methods and `print_answer`. SPARQL gives no result order, so the
  store lists its solutions in an order the model leaves open (`Enumerate`), and list
  answers are stated up to permutation.
- `Report` (`report.dfy`): one iteration of the `test` loop. The reply is sorted with
  Python's string order and printed, or a blank line is printed. Sorting makes the
  printed line a function of the question and the graph (`LineDeterministic`).

Behaviour of the code worth knowing, each stated by a member of the model:

- The code strips before it removes `"`, so a quote at an edge can expose whitespace:
  `"\tx` (a quote, a tab, then `x`) becomes tab-`x` (`Entity.NormalizeQuoteExposesSpace`).
  A normalised entity has whitespace-free edges only when the raw text holds no `"`
  (`Entity.NormalizeEdges`).
- The crawlers have no `try`. A "Born" row with neither a `bday` text nor any other
  text makes `entity_lst[0]` raise `IndexError` out of `crawler_level3`. The rows of that
  person page before it have already been added (`Graph.CrawlPerson`,
  `Graph.PersonRunFails`). No caller handles the exception either: it leaves the link
  loop of `crawler_level2` (lines 220-227), the loop of `crawler_level1` (line 181) and
  `create_ontology` (line 273). So `graph.serialize` (line 274) never runs, no
  `ontology.nt` is written, and the whole build fails.
- A question the slot grammar cannot cut raises. A missing keyword makes `list.index`
  raise `ValueError`, and a question too short for a fixed subscript raises
  `IndexError`; the model returns these as `Raised`. An unknown "Who" verb returns
  `None` (`NoReply`). An unknown first token returns `[]`.
- Only `test` sorts multi-valued answers; `main` prints the parser's list in the
  store's order. `Report` models the `test` path.
- "Did A star in M" compares the last path segment of each `Starring` object with the
  `_`-joined actor span. It is not a membership test on URIs.

## Model

| member | source | states |
|---|---|---|
| `Entity.UriInjective` | film_qa.py:216 | Two entity URIs are equal exactly when their slugs are equal. |
| `Entity.UriLastSegment` | film_qa.py:348 | The last `/`-segment of an entity URI depends only on its slug. |
| `Entity.IsFootNote` | film_qa.py:147-150 | A footnote has at least two characters: the empty string and a lone bracket are not footnotes. |
| `Entity.IsBlackListed` | film_qa.py:161-164 | The empty string is blacklisted, and a one-character string is blacklisted exactly when it is `{`, `}` or a newline. Every two-character string that is not all letters or digits is blacklisted (`Entity.TwoCharNonAlnumBlackListed`). |
| `Entity.BlackListExamples` | film_qa.py:147-164 | `""`, `[12]`, `foo#cite_note-1`, `{x}` and `--` are blacklisted; `Warner Bros.` and `1994` are not. |
| `Entity.Normalize` | film_qa.py:212-214 | The normalised entity contains no ASCII space and no `"`. |
| `Entity.NormalizeKeepsAbsence` | film_qa.py:212-214 | Normalisation introduces no character other than `_`. |
| `Entity.NormalizeEdges` | film_qa.py:212-214 | For raw text without `"`, the normalised entity has no whitespace at either end. |
| `Entity.NormalizeQuoteExposesSpace` | film_qa.py:212-214 | A quote removed after stripping exposes whitespace: `"\tx` normalises to tab-`x`. |
| `Entity.SpaceOnlyEntityPasses` | film_qa.py:211-216 | The blacklist sees the raw string: a lone space passes it and becomes the empty slug. |
| `Entity.RelationSlug` | film_qa.py:200 | The slug has the header's length, each space replaced by `_` and every other character kept, so the slug of an accepted header still has no `'`, `"` or newline (`Entity.RelationSlugClean`). |
| `Entity.SlugOfTwoWords` | film_qa.py:200 | A header `a b` becomes the relation `a_b`, such as `Directed_by`. |
| `Entity.PageSubjectOfWikiLink` | film_qa.py:195 | A page linked as `/wiki/Name` has the subject URI of `Name`, for every `Name` that does not itself contain `/wiki/` (a plain `/`, as in `Face/Off`, is allowed). |
| `Extract.GetReleaseDate` | film_qa.py:23-36 | The loop returns the `bday` texts if any, else the year scan of the fallback texts. |
| `Extract.YearTokensFlatten` | film_qa.py:31-35 | The year scan is the year filter applied to all whitespace tokens of all fragments, in order. |
| `Extract.YearTokensMembership` | film_qa.py:31-35 | A string is found by the scan exactly when it is a 4-character numeric token of some fragment. |
| `Extract.ReleaseDateFallback` | film_qa.py:27-35 | With no `bday` text and single-word fragments of which only the last is a year, the result is that year. |
| `Extract.ReleaseDateExample` | film_qa.py:27-35 | `["Released","14","October","2010"]` with no `bday` text gives `["2010"]`. |
| `Extract.GetBday` | film_qa.py:48-61 | The result is the `bday` texts if any. Otherwise it is the `/`-pieces of the first fragment: at least one piece, none holding `/`, and they join back to it. It is `IndexError` when there is no fragment. |
| `Extract.GetOccupation` | film_qa.py:73-84 | The triple loop returns the in-order flattening of each fragment split on `,`, each piece split on `and`, each part stripped and lower-cased. |
| `Extract.OccupationsClean` | film_qa.py:80-83 | Every occupation has no whitespace at its ends, no upper-case letter and no comma. |
| `Extract.OccupationList` | film_qa.py:77-84 | `A, B and C` gives the three lower-cased names, in order, when each name is a single word holding neither a comma nor the substring `and`. |
| `Extract.OccupationExample` | film_qa.py:77-84 | `Actor, Producer and Director` gives `["actor","producer","director"]`. |
| `Extract.AndInsideWord` | film_qa.py:80 | `and` is matched as a substring: a word `XandY`, where neither `X` nor `Y` holds `and` and `X` does not end in `a`, `n` or `d`, is cut into the lower-cased `X` and `Y`. |
| `Extract.BandleaderSplits` | film_qa.py:80 | `Bandleader` gives `["b","leader"]`. |
| `Extract.CommanderSplits` | film_qa.py:80 | `Commander` gives `["comm","er"]`. |
| `Extract.UpperAndKept` | film_qa.py:80-82 | The split happens before lower-casing, so a fragment with no comma, no substring `and` and no whitespace at either end stays one occupation, lower-cased. |
| `Extract.UpperAndExample` | film_qa.py:80-82 | `ROCK AND ROLL` gives `["rock and roll"]`. |
| `Extract.GetRunningTime` | film_qa.py:96-104 | The result is the list-item texts if any, else every text of the row. |
| `Extract.GetBasedOn` | film_qa.py:116-122 | The result is exactly one entity, and it contains no newline. |
| `Extract.BasedOnPerFragment` | film_qa.py:120 | That entity is the fragments without their newlines, joined by single spaces. |
| `Extract.GetRest` | film_qa.py:134-143 | Rewriting the hrefs in place gives the last `/`-segment of each href, followed by the non-link texts. |
| `Extract.RestShape` | film_qa.py:137-143 | The result has one item per href plus the texts. Each link item is a `/`-free suffix of its href. |
| `Extract.FilmRowCandidates` | film_qa.py:203-210 | A film row is dispatched by header: Release date, Running time, Based on, or the generic rule. |
| `Extract.PersonRowCandidates` | film_qa.py:249-255 | A person row is dispatched by header: Born, Occupation, or all texts of the row. |
| `Extract.PersonCandidatesFail` | film_qa.py:249-250 | A person row raises exactly when it is `Born` with neither a `bday` text nor any text. |
| `Graph.Store.Add` | film_qa.py:218 | `graph.add` adds the triple. Adding a triple already present changes nothing. |
| `Graph.AddEntities` | film_qa.py:211-218 | After the loop, the graph is the old graph plus one triple (subject, relation, normalised `e`) per non-blacklisted raw candidate `e`. |
| `Graph.RowTriplesShape` | film_qa.py:211-218 | Every triple a row adds has the row's subject and relation, and an object URI without space or `"`. |
| `Graph.RowTriplesMembership` | film_qa.py:215-218 | An accepted candidate is in the graph under its normalised name. |
| `Graph.RowTriplesEmpty` | film_qa.py:211-218 | A row adds nothing exactly when every one of its candidates is blacklisted. |
| `Graph.RowTriplesBound` | film_qa.py:211-218 | A row adds at most one triple per candidate. |
| `Graph.RowTriplesOrderFree` | film_qa.py:211-218 | The order and repetition of the candidates do not change what a row adds. |
| `Graph.CrawlFilm` | film_qa.py:192-218 | The header loop adds exactly the triples of the usable headers of the film page. |
| `Graph.FilmTriplesMembership` | film_qa.py:198-218 | A triple comes from the film page exactly when it comes from one of its headers. |
| `Graph.FilmTriplesShape` | film_qa.py:195-218 | Every film triple has the page as subject, the slug of a usable header as relation, and a clean object. |
| `Graph.UnusableHeaderIgnored` | film_qa.py:199 | A header holding `'`, `"` or a newline adds nothing on a film page or a person page. |
| `Graph.CrawlPerson` | film_qa.py:237-263 | The header loop adds the triples of the rows up to the first failing one, and passes that row's exception on. |
| `Graph.PersonRunStops` | film_qa.py:250 | Once a header has raised, later headers change nothing. |
| `Graph.PersonRunFails` | film_qa.py:249-250 | A person page fails exactly when it has a `Born` header with no text, and the error is `IndexError`. |
| `Graph.PersonRunUnion` | film_qa.py:244-263 | Without a failure, a triple is added exactly when one header of the page adds it. |
| `Query.Tokens` | film_qa.py:330-331 | Every token is a non-empty run without whitespace and without `?`. |
| `Query.TokensOfQuestion` | film_qa.py:330-331 | Words written with single spaces and an optional `?` tokenise back to the words. |
| `Query.Objects` | film_qa.py:277-285 | `my_query(e, r)` yields exactly the objects `o` with `(e, r, o)` in the graph. |
| `Query.BasedOnRows` | film_qa.py:288-293 | `based_on_query` yields exactly the `Based_on` triples. |
| `Query.StarringSubjects` | film_qa.py:296-304 | `starring_query(p)` yields exactly the subjects with a `Starring` triple to `p`. |
| `Query.SharedOccupationSubjects` | film_qa.py:307-318 | `occupation_query` yields exactly the subjects holding both occupations. |
| `Query.MyQuery` | film_qa.py:277-285 | The listed rows are the solutions of `(e, r, ?)`, each once. |
| `Query.BasedOnQuery` | film_qa.py:288-293 | The listed rows are the `Based_on` triples, each once. |
| `Query.StarringQuery` | film_qa.py:296-304 | The listed rows are the subjects starring the person, each once. |
| `Query.OccupationQuery` | film_qa.py:307-318 | The listed rows are the subjects holding both occupations, each once. |
| `Query.Enumerate` | film_qa.py:284 | The listing holds every solution exactly once and nothing else; its order is left open. |
| `Query.EnumeratesCard` | film_qa.py:403-414 | A listing has as many rows as there are solutions, so `len` of the rows is the solution count. |
| `Query.EnumeratesPermutation` | film_qa.py:284 | Two listings of the same solutions are permutations of each other. |
| `Query.ShownPermutation` | film_qa.py:347-348 | Showing each row keeps two listings permutations of each other. |
| `Query.Display` | film_qa.py:348 | The shown form has the length of the URI's last segment and no `/`. It agrees with that segment except that, for the name-valued templates, each `_` becomes a space, so none is left. |
| `Query.Shown` | film_qa.py:346-348 | The shown list has one entry per row, the `i`-th being the shown form of the `i`-th row. |
| `Query.Collect` | film_qa.py:347-348 | The loop appends the last segment of each row, with `_` turned into spaces where the template does so. |
| `Query.Parse` | film_qa.py:328-415 | The empty question raises `IndexError`, and an unknown first token gives `[]`. Every list lookup uses one of the eight template relations, and only the `Release_date` and `Born` answers keep their underscores. The first token alone selects the template (`Query.Dispatch`). |
| `Query.ParseWho` | film_qa.py:332-348 | Raises exactly when the verb is missing (`IndexError`) or `starred` has no `in` (`ValueError`). An unknown verb gives `None`; the others look up `Directed_by`, `Produced_by`, `Edited_by` or `Starring`. |
| `Query.ParseWhen` | film_qa.py:350-364 | Never raises. The last token `released` or `born` selects `Release_date` or `Born`, shown as stored; any other gives `None`. |
| `Query.ParseWhat` | film_qa.py:365-374 | Raises exactly when `of` is missing (`ValueError`, checked first) or there is no fourth token (`IndexError`). Otherwise it looks up `Occupation` when the fourth token is `occupation`, else gives `None`. |
| `Query.ParseDid` | film_qa.py:375-379 | Raises `ValueError` exactly when `star` or `in` is missing; otherwise it asks a `Did` membership question. |
| `Query.ParseIs` | film_qa.py:387-389 | Raises `ValueError` exactly when `based` is missing; otherwise it asks a `Based_on` question. |
| `Query.ParseHow` | film_qa.py:395-414 | A lone `How` raises `IndexError`; a second token other than `long` or `many` gives `[]`. The `long` branch never raises and looks up `Running_time`. |
| `Query.ParseHowMany` | film_qa.py:401-414 | Raises exactly when there is no fifth token (`IndexError`), or the needed `won`, `are` or `also` is missing (`ValueError`); otherwise it plans one of the three counts. |
| `Query.WhoCreditTemplate` | film_qa.py:332-339 | `Who directed/produced/edited W` looks up `Directed_by`/`Produced_by`/`Edited_by` of `W`, with all tokens after the verb joined by `_`. |
| `Query.WhoStarredTemplate` | film_qa.py:340-343 | `Who starred ... in W` looks up `Starring` of the tokens after the first `in`. |
| `Query.WhenTemplate` | film_qa.py:350-364 | `When w N released/born` looks up `Release_date`/`Born` of the middle tokens. Any other last word gives `None`. |
| `Query.WhatTemplate` | film_qa.py:365-372 | `What w w occupation ... of P` looks up `Occupation` of the tokens after the first `of`. |
| `Query.DidTemplate` | film_qa.py:375-379 | `Did A star ... in M` takes the actor between `Did` and `star` and the movie after `in`. |
| `Query.IsTemplate` | film_qa.py:387-389 | `Is W based ...` takes the work between `Is` and `based`. |
| `Query.HowLongTemplate` | film_qa.py:396-398 | `How long w W` looks up `Running_time` of the tokens after the third. |
| `Query.HowManyBasedTemplate` | film_qa.py:401-403 | A fifth token `based` selects the count of all `Based_on` triples. |
| `Query.HowManyStarringTemplate` | film_qa.py:404-408 | `How many w starring P won ...` counts the subjects starring `P`. |
| `Query.HowManyBothTemplate` | film_qa.py:409-414 | `How many O1 are ... also O2` counts the subjects holding both occupations. |
| `Query.ParseNoTemplate` | film_qa.py:332-415 | An unknown first token, or `How` followed by a word other than `long`/`many`, gives `[]`. |
| `Query.ParseWhoOther` | film_qa.py:344-345 | `Who` followed by any other verb gives `None`. |
| `Query.ParseMissingKeyword` | film_qa.py:366-388 | A missing `star`, `based` or `of` makes `list.index` raise `ValueError`. |
| `Query.ParseTooShort` | film_qa.py:332-402 | An empty question, a lone `Who`/`How`, or a four-token `How many` raises `IndexError`. |
| `Query.AnswerWho` | film_qa.py:332-348 | The `Who` branch replies as its plan says. |
| `Query.AnswerWhen` | film_qa.py:350-364 | The `When` branch replies as its plan says. |
| `Query.AnswerWhat` | film_qa.py:365-374 | The `What` branch replies as its plan says. |
| `Query.AnswerDid` | film_qa.py:375-386 | The early-return loop replies `Yes` exactly when some `Starring` object's last segment equals the actor span, else `No`. |
| `Query.AnswerIs` | film_qa.py:387-394 | Replies `Yes` exactly when `(M, Based_on, ?)` has a solution. |
| `Query.AnswerHow` | film_qa.py:395-414 | Replies with a running-time list, or the decimal string of one of the three counts. |
| `Query.QueryParser` | film_qa.py:328-415 | The reply is the exception of the slot grammar, or an answer of the plan it selects. |
| `Query.LookupContents` | film_qa.py:346-348 | A list answer has one item per solution. An item is in it exactly when it is the shown form of some object of the pattern. |
| `Query.AnswersUpToOrder` | film_qa.py:346-414 | Two replies to one plan differ at most in the order of a list answer. |
| `Query.RepliesUpToOrder` | film_qa.py:328-415 | `query_parser` is deterministic up to the order in which the store lists solutions. |
| `Query.LookupSingleton` | film_qa.py:346-348 | A pattern with one solution is answered with that solution, shown. |
| `Query.DidQuestion` | film_qa.py:375-386 | `Did A star in M` answers `Yes` iff some actor of `M` is shown as `A`. In particular it does so when `(M, Starring, A)` is stored and `A` holds no `/` (the comparison uses the last `/`-segment, so a stored `AC/DC` answers `No`). |
| `Query.HowManyBasedQuestion` | film_qa.py:401-403 | Any `How many w w based ...` question answers the number of `Based_on` triples. |
| `Query.BasedOnCountExample` | film_qa.py:401-403 | With one `Based_on` and one `Starring` triple, `How many movies are based on a book` answers `1`. |
| `Query.StarredExample` | film_qa.py:340-348 | With the same store, `Who starred in Film_Z` answers `Actor A`. |
| `Query.DisplayTwoWordSlug` | film_qa.py:348 | A slug `a_b` is shown as `a b`. |
| `Query.PrintAnswer` | film_qa.py:321-325 | The output is the answers joined by `", "` and a newline. An empty list raises `IndexError`. |
| `Query.PrintedAnswerSplits` | film_qa.py:321-325 | When no answer holds a comma, the printed line splits back into the answers. |
| `Report.Insert` | film_qa.py:424 | Inserting into an ordered list keeps it ordered and adds exactly the new element. |
| `Report.Sort` | film_qa.py:424 | `sort()` returns an ordered permutation of the answers. |
| `Report.OrderedUnique` | film_qa.py:424 | Two ordered lists with the same elements are equal, so there is only one sorted result. |
| `Report.SortPermutationInvariant` | film_qa.py:424 | Sorting forgets the order of its input. |
| `Report.Line` | film_qa.py:422-427 | An interpreter exception propagates. Otherwise the line ends in a newline. |
| `Report.LineDeterministic` | film_qa.py:422-427 | The printed line depends only on the question and the graph. |
| `Report.TestLine` | film_qa.py:422-427 | One loop iteration prints `Line` of an admissible reply to the question, and that is the line every admissible reply gives. |
| `Report.DirectorsExample` | film_qa.py:424-425 | `["Director_B","Director_A"]` prints as `Director_A, Director_B`. |

## Left out

- Network and HTML parsing (`requests.get`, `lxml.html.fromstring`, lines 177-178, 193-194, 238-239). They are I/O. A page is a `Graph.Page` value.
- The XPath engine. Every query result is an input list (`Extract.RowQueries`, `Graph.Page.headers`). This includes the `text()>=2010` selection of `crawler_level1` (line 180), since its numeric coercion belongs to the XPath engine.
- `crawler_level1` and `create_ontology` (lines 176-182, 271-274). They fetch the list page, call `crawler_level2` for each film link and serialise the graph. They have no handler, so an `IndexError` from any person page ends them before `graph.serialize`.
- Graph.CrawlFilm: models the relation loop of `crawler_level2` only. The three link loops (lines 220-227) call `crawler_level3` for each linked director, producer and actor. Each call adds that person's triples, as `Graph.CrawlPerson` models for one person page, and its `IndexError` ends the whole build. The model has no statement about the sequence of person pages these loops visit.
- rdflib parsing, N-Triples serialisation and SPARQL evaluation (lines 274, 278-284). The graph is an in-memory `set<Triple>`, URIs are plain strings, and each query helper is a set comprehension. The queries are built as strings (lines 281-283). A question slot holding a character that an IRI may not contain (`<`, `>`, `"`, `{`, `}`, `|`, `^`, backtick, `\`) makes rdflib fail to parse the query, so the question raises; `Query.Objects` instead returns the objects stored under that URI, which is the empty set whenever the graph holds no such URI. The same characters are refused by N-Triples serialisation, and `Entity.Normalize` keeps `<`, `>`, `|`, `^`, backtick and `\` (the blacklist drops only braces, newlines and the cases above), so an entity holding one of them would make `graph.serialize` (line 274) fail; the model adds such a triple to the set without complaint. Likewise `Entity.Normalize` replaces only the ASCII space, so other whitespace inside an entity (a tab in `a\tb`) survives into the URI, which the N-Triples reader rejects; the model does not capture that such a store would not read back.
- The order of SPARQL solutions. It is left open (`Query.Enumerate`), and list answers are stated up to permutation.
- `print`, opening and reading `questions_test.txt` in `test` (lines 419-420, 429), and `main`/`sys.argv` (lines 433-440). These are I/O and command-line handling. One loop iteration of `test` is modelled by `Report.TestLine`, with the printed text as its result.
- Unicode: `isnumeric`, `isalnum` and `lower` are modelled over ASCII only, which approximates Python's Unicode behaviour. `isspace` (used by `strip` and `split()`) is Python's exact whitespace set.
- Entity.NormalizeEdges: proved only for raw text without `"`, because the code does not guarantee stripped edges when a quote sits at an edge (see `Entity.NormalizeQuoteExposesSpace`).
