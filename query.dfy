/** The question interpreter: a question is tokenised, matched against a fixed set of
    keyword-anchored templates, and answered by triple-pattern lookups in the graph. */
module Query {
  import opened PyString
  import opened Entity
  import opened Graph

  /** `query.replace('?', '').split()`. */
  function Tokens(query: string): (r: seq<string>)
    ensures forall w :: w in r ==> IsWord(w) && '?' !in w
  {
    var q := Replace(query, "?", "");
    ReplaceChar(query, '?', "");
    SubstCharRemoves(query, '?', "");
    SplitWsAvoidsChar(q, '?');
    SplitWs(q)
  }

  /** Proof helper: appending the empty mark leaves a question unchanged. */
  lemma NoMark(q: string)
    ensures q + "" == q
  {
  }

  /** The words of a question, written with single spaces and an optional question mark, are its tokens. */
  lemma TokensOfQuestion(words: seq<string>, mark: string)
    requires mark == "" || mark == "?"
    requires forall w :: w in words ==> IsWord(w) && '?' !in w
    ensures Tokens(Join(words, " ") + mark) == words
  {
    var j := Join(words, " ");
    JoinAvoidsChar(words, " ", '?');
    ReplaceChar(j + mark, '?', "");
    SubstCharAppend(j, mark, '?', "");
    SubstCharAbsent(j, '?', "");
    assert SubstChar(mark, '?', "") == "" by {
      if mark == "?" {
        assert mark[1..] == "";
      }
    }
    assert j + "" == j;
    SplitWsJoin(words);
  }

  // ---------------------------------------------------------------------------
  // The four lookups, as set comprehensions over the triples

  /** `my_query(e, r)`: the objects of the pattern (e, r, ?s). */
  function Objects(g: set<Triple>, entity: string, relation: string): (r: set<string>)
    ensures forall o :: o in r <==> Triple(Uri(entity), Uri(relation), o) in g
  {
    set t | t in g && t.subject == Uri(entity) && t.relation == Uri(relation) :: t.entity
  }

  /** `based_on_query()`: the solutions of (?s, Based_on, ?x), one per triple. */
  function BasedOnRows(g: set<Triple>): (r: set<Triple>)
    ensures r <= g
    ensures forall t :: t in r <==> t in g && t.relation == Uri("Based_on")
  {
    set t | t in g && t.relation == Uri("Based_on")
  }

  /** `starring_query(p)`: the subjects of (?s, Starring, p). */
  function StarringSubjects(g: set<Triple>, entity: string): (r: set<string>)
    ensures forall s :: s in r <==> Triple(s, Uri("Starring"), Uri(entity)) in g
  {
    set t | t in g && t.relation == Uri("Starring") && t.entity == Uri(entity) :: t.subject
  }

  /** `occupation_query(o1, o2)`: the subjects holding both occupations. */
  function SharedOccupationSubjects(g: set<Triple>, o1: string, o2: string): (r: set<string>)
    ensures forall s :: s in r <==>
      Triple(s, Uri("Occupation"), Uri(o1)) in g && Triple(s, Uri("Occupation"), Uri(o2)) in g
  {
    set t | t in g && t.relation == Uri("Occupation") && t.entity == Uri(o1)
                   && Triple(t.subject, Uri("Occupation"), Uri(o2)) in g :: t.subject
  }

  // ---------------------------------------------------------------------------
  // Result lists: the order of SPARQL solutions is not specified

  ghost predicate Distinct<T>(rows: seq<T>) {
    forall i, j :: 0 <= i < j < |rows| ==> rows[i] != rows[j]
  }

  /** `rows` lists the elements of `s`, each once, in some order. */
  ghost predicate Enumerates<T(!new)>(rows: seq<T>, s: set<T>) {
    Distinct(rows) && forall x :: x in rows <==> x in s
  }

  /** `list(g.query(...))`: the solutions in an order the model leaves open. */
  method Enumerate<T(==,!new)>(s: set<T>) returns (rows: seq<T>)
    ensures Enumerates(rows, s)
  {
    rows := [];
    var rest := s;
    while rest != {}
      invariant rest <= s
      invariant forall x :: x in rows <==> x in s && x !in rest
      invariant Distinct(rows)
      decreases rest
    {
      var x :| x in rest;
      rows := rows + [x];
      rest := rest - {x};
    }
  }

  lemma {:induction false} EnumeratesCard<T(!new)>(rows: seq<T>, s: set<T>)
    requires Enumerates(rows, s)
    ensures |rows| == |s|
    decreases |rows|
  {
    if |rows| > 0 {
      var n := |rows| - 1;
      var x := rows[n];
      var init := rows[..n];
      InitLast(rows);
      assert x !in init;
      EnumeratesCard(init, s - {x});
    } else {
      assert forall x :: x !in s;
    }
  }

  lemma {:induction false} DistinctMultiplicity<T>(rows: seq<T>, x: T)
    requires Distinct(rows)
    ensures multiset(rows)[x] == if x in rows then 1 else 0
    decreases |rows|
  {
    if |rows| > 0 {
      var n := |rows| - 1;
      var init := rows[..n];
      InitLast(rows);
      assert Distinct(init);
      DistinctMultiplicity(init, x);
      assert multiset(rows) == multiset(init) + multiset{rows[n]};
      assert rows[n] !in init;
    }
  }

  /** Two listings of the same solutions are permutations of each other. */
  lemma EnumeratesPermutation<T(!new)>(a: seq<T>, b: seq<T>, s: set<T>)
    requires Enumerates(a, s) && Enumerates(b, s)
    ensures multiset(a) == multiset(b)
  {
    forall x | true ensures multiset(a)[x] == multiset(b)[x] {
      DistinctMultiplicity(a, x);
      DistinctMultiplicity(b, x);
    }
  }

  /** How an answer row is shown: the last path segment of the URI, with `_` turned into spaces for the name-valued templates. */
  function Display(o: string, spaced: bool): (r: string)
    ensures '/' !in r
    ensures spaced ==> '_' !in r
    ensures |r| == |LastSegment(o)|
    ensures forall i :: 0 <= i < |r| ==>
      r[i] == LastSegment(o)[i] || (spaced && LastSegment(o)[i] == '_' && r[i] == ' ')
  {
    var seg := LastSegment(o);
    LastSegmentIsSuffix(o);
    ReplaceChar(seg, '_', " ");
    SubstCharByChar(seg, '_', ' ');
    if spaced then Replace(seg, "_", " ") else seg
  }

  /** The answers of a listing, each shown as `Display` shows it, in the listing's order. */
  function Shown(rows: seq<string>, spaced: bool): (r: seq<string>)
    ensures |r| == |rows|
    ensures forall i :: 0 <= i < |rows| ==> r[i] == Display(rows[i], spaced)
  {
    if |rows| == 0 then [] else Shown(rows[..|rows| - 1], spaced) + [Display(rows[|rows| - 1], spaced)]
  }

  lemma ShownStep(rows: seq<string>, spaced: bool, i: nat)
    requires i < |rows|
    ensures Shown(rows[..i + 1], spaced) == Shown(rows[..i], spaced) + [Display(rows[i], spaced)]
  {
    TakeStep(rows, i);
  }

  lemma {:induction false} ShownAppend(a: seq<string>, b: seq<string>, spaced: bool)
    ensures Shown(a + b, spaced) == Shown(a, spaced) + Shown(b, spaced)
    decreases |b|
  {
    if |b| == 0 {
      assert a + b == a;
    } else {
      var n := |b| - 1;
      assert (a + b)[..|a + b| - 1] == a + b[..n];
      ShownAppend(a, b[..n], spaced);
      AppendAssoc(Shown(a, spaced), Shown(b[..n], spaced), [Display(b[n], spaced)]);
    }
  }

  lemma ShownAt(b: seq<string>, k: nat, spaced: bool)
    requires k < |b|
    ensures Shown(b, spaced) == Shown(b[..k], spaced) + [Display(b[k], spaced)] + Shown(b[k + 1..], spaced)
    ensures Shown(b[..k] + b[k + 1..], spaced) == Shown(b[..k], spaced) + Shown(b[k + 1..], spaced)
  {
    var x := b[k];
    assert b == b[..k] + [x] + b[k + 1..];
    ShownAppend(b[..k] + [x], b[k + 1..], spaced);
    ShownAppend(b[..k], [x], spaced);
    ShownAppend(b[..k], b[k + 1..], spaced);
    assert Shown([x], spaced) == [Display(x, spaced)] by {
      assert [x][..0] == [];
    }
  }

  /** Showing preserves permutations: the shown answers of two listings of the same solutions agree up to order. */
  lemma {:induction false} ShownPermutation(a: seq<string>, b: seq<string>, spaced: bool)
    requires multiset(a) == multiset(b)
    ensures multiset(Shown(a, spaced)) == multiset(Shown(b, spaced))
    decreases |a|
  {
    if |a| > 0 {
      var n := |a| - 1;
      var x := a[n];
      assert x in multiset(b);
      var k :| 0 <= k < |b| && b[k] == x;
      MultisetRemove(a, b, k);
      ShownPermutation(a[..n], b[..k] + b[k + 1..], spaced);
      ShownAt(b, k, spaced);
      MultisetInsert(Shown(b[..k], spaced), Display(x, spaced), Shown(b[k + 1..], spaced));
      assert Shown(a, spaced) == Shown(a[..n], spaced) + [Display(x, spaced)];
    } else {
      assert b == [];
    }
  }

  /** The `for element in ans: ans_lst.append(...)` loops of the list-valued templates. */
  method Collect(rows: seq<string>, spaced: bool) returns (items: seq<string>)
    ensures items == Shown(rows, spaced)
  {
    items := [];
    for i := 0 to |rows|
      invariant items == Shown(rows[..i], spaced)
    {
      var last := LastSegment(rows[i]);
      if spaced {
        items := items + [Replace(last, "_", " ")];
      } else {
        items := items + [last];
      }
      ShownStep(rows, spaced, i);
    }
    TakeAll(rows);
  }

  // ---------------------------------------------------------------------------
  // The template grammar

  /** What a question asks for, once its slots are cut out of the token list. */
  datatype Plan =
    | Lookup(entity: string, relation: string, spaced: bool)  // list of objects of (entity, relation, ?)
    | StarredIn(actor: string, movie: string)                 // "Did <actor> star in <movie>"
    | IsBasedOn(movie: string)                                // "Is <movie> based ..."
    | CountBasedOn                                            // "How many ... based ..."
    | CountStarring(person: string)                           // "How many ... starring <person> won ..."
    | CountBoth(occupation1: string, occupation2: string)     // "How many <o1> are also <o2>"
    | Unanswered                                              // the parser returns None
    | NoTemplate                                              // the parser returns []

  /** The relations the list-valued templates look up. */
  const LookupRelations: set<string> :=
    {"Directed_by", "Produced_by", "Edited_by", "Starring", "Release_date", "Born", "Occupation", "Running_time"}

  /** The slot grammar of `query_parser`, with Python's IndexError and ValueError in the
      order the code evaluates its subscripts and `.index` calls. */
  function Parse(tokens: seq<string>): (r: Result<Plan>)
    ensures |tokens| == 0 ==> r == Raise(IndexError)
    ensures |tokens| > 0 && tokens[0] !in ["Who", "When", "What", "Did", "Is", "How"] ==> r == Ok(NoTemplate)
    ensures r.Ok? && r.value.Lookup? ==> r.value.relation in LookupRelations
    ensures r.Ok? && r.value.Lookup? ==>
      (r.value.spaced <==> r.value.relation != "Release_date" && r.value.relation != "Born")
  {
    if |tokens| == 0 then Raise(IndexError)
    else if tokens[0] == "Who" then ParseWho(tokens)
    else if tokens[0] == "When" then ParseWhen(tokens)
    else if tokens[0] == "What" then ParseWhat(tokens)
    else if tokens[0] == "Did" then ParseDid(tokens)
    else if tokens[0] == "Is" then ParseIs(tokens)
    else if tokens[0] == "How" then ParseHow(tokens)
    else Ok(NoTemplate)
  }

  function ParseWho(tokens: seq<string>): (r: Result<Plan>)
    ensures r.Raise? <==> |tokens| < 2 || (tokens[1] == "starred" && "in" !in tokens)
    ensures r.Raise? ==> r.error == if |tokens| < 2 then IndexError else ValueError
    ensures r.Ok? ==> (r.value == Unanswered <==> tokens[1] !in ["directed", "produced", "edited", "starred"])
    ensures r.Ok? && r.value != Unanswered ==>
      r.value.Lookup? && r.value.spaced && r.value.relation in ["Directed_by", "Produced_by", "Edited_by", "Starring"]
  {
    if |tokens| < 2 then Raise(IndexError)
    else if tokens[1] == "directed" then Ok(Lookup(Join(tokens[2..], "_"), "Directed_by", true))
    else if tokens[1] == "produced" then Ok(Lookup(Join(tokens[2..], "_"), "Produced_by", true))
    else if tokens[1] == "edited" then Ok(Lookup(Join(tokens[2..], "_"), "Edited_by", true))
    else if tokens[1] == "starred" then
      match Index(tokens, "in")
      case Raise(e) => Raise(e)
      case Ok(i) => Ok(Lookup(Join(tokens[i + 1..], "_"), "Starring", true))
    else Ok(Unanswered)
  }

  function ParseWhen(tokens: seq<string>): (r: Result<Plan>)
    requires |tokens| > 0
    ensures r.Ok?
    ensures r.value == Unanswered <==> tokens[|tokens| - 1] !in ["released", "born"]
    ensures r.value != Unanswered ==>
      r.value.Lookup? && !r.value.spaced && r.value.relation == (if tokens[|tokens| - 1] == "born" then "Born" else "Release_date")
  {
    var name := Join(Slice(tokens, 2, |tokens| - 1), "_");
    var last := tokens[|tokens| - 1];
    if last == "released" then Ok(Lookup(name, "Release_date", false))
    else if last == "born" then Ok(Lookup(name, "Born", false))
    else Ok(Unanswered)
  }

  function ParseWhat(tokens: seq<string>): (r: Result<Plan>)
    ensures r.Raise? <==> "of" !in tokens || |tokens| < 4
    ensures r.Raise? ==> r.error == if "of" !in tokens then ValueError else IndexError
    ensures r.Ok? ==> (r.value == Unanswered <==> tokens[3] != "occupation")
    ensures r.Ok? && r.value != Unanswered ==>
      r.value.Lookup? && r.value.relation == "Occupation" && r.value.spaced
  {
    match Index(tokens, "of")
    case Raise(e) => Raise(e)
    case Ok(i) =>
      if |tokens| < 4 then Raise(IndexError)
      else if tokens[3] == "occupation" then Ok(Lookup(Join(tokens[i + 1..], "_"), "Occupation", true))
      else Ok(Unanswered)
  }

  function ParseDid(tokens: seq<string>): (r: Result<Plan>)
    ensures r.Raise? <==> "star" !in tokens || "in" !in tokens
    ensures r.Raise? ==> r.error == ValueError
    ensures r.Ok? ==> r.value.StarredIn?
  {
    match Index(tokens, "star")
    case Raise(e) => Raise(e)
    case Ok(s) =>
      match Index(tokens, "in")
      case Raise(e) => Raise(e)
      case Ok(i) => Ok(StarredIn(Join(Slice(tokens, 1, s), "_"), Join(tokens[i + 1..], "_")))
  }

  function ParseIs(tokens: seq<string>): (r: Result<Plan>)
    ensures r.Raise? <==> "based" !in tokens
    ensures r.Raise? ==> r.error == ValueError
    ensures r.Ok? ==> r.value.IsBasedOn?
  {
    match Index(tokens, "based")
    case Raise(e) => Raise(e)
    case Ok(b) => Ok(IsBasedOn(Join(Slice(tokens, 1, b), "_")))
  }

  function ParseHow(tokens: seq<string>): (r: Result<Plan>)
    ensures |tokens| < 2 ==> r == Raise(IndexError)
    ensures |tokens| >= 2 && tokens[1] !in ["long", "many"] ==> r == Ok(NoTemplate)
    ensures r.Raise? ==> |tokens| < 2 || tokens[1] == "many"
    ensures r.Ok? && r.value.Lookup? ==> r.value.relation == "Running_time" && r.value.spaced
  {
    if |tokens| < 2 then Raise(IndexError)
    else if tokens[1] == "long" then Ok(Lookup(Join(Slice(tokens, 3, |tokens|), "_"), "Running_time", true))
    else if tokens[1] == "many" then ParseHowMany(tokens)
    else Ok(NoTemplate)
  }

  function ParseHowMany(tokens: seq<string>): (r: Result<Plan>)
    ensures r.Raise? <==>
      |tokens| < 5 || (tokens[4] != "based" && if tokens[3] == "starring" then "won" !in tokens else "are" !in tokens || "also" !in tokens)
    ensures r.Raise? ==> r.error == if |tokens| < 5 then IndexError else ValueError
    ensures r.Ok? ==> r.value.CountBasedOn? || r.value.CountStarring? || r.value.CountBoth?
  {
    if |tokens| < 5 then Raise(IndexError)
    else if tokens[4] == "based" then Ok(CountBasedOn)
    else if tokens[3] == "starring" then
      match Index(tokens, "won")
      case Raise(e) => Raise(e)
      case Ok(w) => Ok(CountStarring(Join(Slice(tokens, 4, w), "_")))
    else
      match Index(tokens, "are")
      case Raise(e) => Raise(e)
      case Ok(a) =>
        match Index(tokens, "also")
        case Raise(e) => Raise(e)
        case Ok(l) => Ok(CountBoth(Join(Slice(tokens, 2, a), "_"), Join(tokens[l + 1..], "_")))
  }

  /** The first token alone selects the template. */
  lemma Dispatch(t: seq<string>)
    requires |t| > 0
    ensures t[0] == "Who" ==> Parse(t) == ParseWho(t)
    ensures t[0] == "When" ==> Parse(t) == ParseWhen(t)
    ensures t[0] == "What" ==> Parse(t) == ParseWhat(t)
    ensures t[0] == "Did" ==> Parse(t) == ParseDid(t)
    ensures t[0] == "Is" ==> Parse(t) == ParseIs(t)
    ensures t[0] == "How" ==> Parse(t) == ParseHow(t)
  {
  }

  /** "How many" questions go to the counting templates. */
  lemma HowManyDispatch(t: seq<string>)
    requires |t| >= 2 && t[0] == "How" && t[1] == "many"
    ensures Parse(t) == ParseHowMany(t)
  {
    Dispatch(t);
  }

  // ---------------------------------------------------------------------------
  // The templates, one lemma each: where the slots are cut

  /** "Who directed|produced|edited <work>": the work is every token after the verb. */
  lemma WhoCreditTemplate(verb: string, work: seq<string>)
    requires verb == "directed" || verb == "produced" || verb == "edited"
    ensures Parse(["Who", verb] + work) == Ok(Lookup(Join(work, "_"),
      if verb == "directed" then "Directed_by" else if verb == "produced" then "Produced_by" else "Edited_by", true))
  {
    var t := ["Who", verb] + work;
    DropPrefix(["Who", verb], work);
    Dispatch(t);
  }

  /** "Who starred ... in <work>": the work follows the first "in". */
  lemma WhoStarredTemplate(filler: seq<string>, work: seq<string>)
    requires "in" !in filler
    ensures Parse(["Who", "starred"] + filler + ["in"] + work) == Ok(Lookup(Join(work, "_"), "Starring", true))
  {
    var p := ["Who", "starred"] + filler;
    var t := p + ["in"] + work;
    IndexAfter(p, "in", work);
    DropPrefix(p + ["in"], work);
    assert ParseWho(t) == Ok(Lookup(Join(work, "_"), "Starring", true));
    Dispatch(t);
  }

  /** "When <w> <name> released|born": the name lies between the second and the last token. */
  lemma WhenTemplate(w: string, name: seq<string>, last: string)
    ensures Parse(["When", w] + name + [last]) ==
      if last == "released" then Ok(Lookup(Join(name, "_"), "Release_date", false))
      else if last == "born" then Ok(Lookup(Join(name, "_"), "Born", false))
      else Ok(Unanswered)
  {
    var t := ["When", w] + name + [last];
    MiddleOf(["When", w], name, [last]);
    assert Slice(t, 2, |t| - 1) == name;
    Dispatch(t);
  }

  /** "What <w1> <w2> occupation ... of <person>": the person follows the first "of". */
  lemma WhatTemplate(w1: string, w2: string, filler: seq<string>, person: seq<string>)
    requires w1 != "of" && w2 != "of" && "of" !in filler
    ensures Parse(["What", w1, w2, "occupation"] + filler + ["of"] + person)
         == Ok(Lookup(Join(person, "_"), "Occupation", true))
  {
    var p := ["What", w1, w2, "occupation"] + filler;
    var t := p + ["of"] + person;
    IndexAfter(p, "of", person);
    DropPrefix(p + ["of"], person);
    assert t[3] == "occupation";
    assert ParseWhat(t) == Ok(Lookup(Join(person, "_"), "Occupation", true));
    Dispatch(t);
  }

  /** Where the keywords of "Did <actor> star ... in <work>" sit. */
  lemma DidKeywords(actor: seq<string>, filler: seq<string>, work: seq<string>, t: seq<string>)
    requires "star" !in actor && "in" !in actor && "in" !in filler
    requires t == ["Did"] + actor + ["star"] + filler + ["in"] + work
    ensures Index(t, "star") == Ok(1 + |actor|)
    ensures Index(t, "in") == Ok(2 + |actor| + |filler|)
  {
    assert ["Did"] + actor + ["star"] + (filler + ["in"] + work) == t;
    IndexAfter(["Did"] + actor, "star", filler + ["in"] + work);
    IndexAfter(["Did"] + actor + ["star"] + filler, "in", work);
  }

  /** The two slots of "Did <actor> star ... in <work>". */
  lemma DidSlots(actor: seq<string>, filler: seq<string>, work: seq<string>, t: seq<string>)
    requires t == ["Did"] + actor + ["star"] + filler + ["in"] + work
    ensures Slice(t, 1, 1 + |actor|) == actor
    ensures t[3 + |actor| + |filler|..] == work
  {
    var rest := ["star"] + filler + ["in"] + work;
    assert ["Did"] + actor + rest == t;
    MiddleOf(["Did"], actor, rest);
    DropPrefix(["Did"] + actor + ["star"] + filler + ["in"], work);
  }

  /** "Did <actor> star ... in <work>": the actor lies between "Did" and "star", the work after "in". */
  lemma DidTemplate(actor: seq<string>, filler: seq<string>, work: seq<string>)
    requires "star" !in actor && "in" !in actor && "in" !in filler
    ensures Parse(["Did"] + actor + ["star"] + filler + ["in"] + work)
         == Ok(StarredIn(Join(actor, "_"), Join(work, "_")))
  {
    var t := ["Did"] + actor + ["star"] + filler + ["in"] + work;
    DidKeywords(actor, filler, work, t);
    DidSlots(actor, filler, work, t);
    assert ParseDid(t) == Ok(StarredIn(Join(actor, "_"), Join(work, "_")));
    Dispatch(t);
  }

  /** "Is <work> based ...": the work lies between "Is" and "based". */
  lemma IsTemplate(work: seq<string>, rest: seq<string>)
    requires "based" !in work
    ensures Parse(["Is"] + work + ["based"] + rest) == Ok(IsBasedOn(Join(work, "_")))
  {
    var t := ["Is"] + work + ["based"] + rest;
    IndexAfter(["Is"] + work, "based", rest);
    MiddleOf(["Is"], work, ["based"] + rest);
    AppendAssoc(["Is"] + work, ["based"], rest);
    assert Slice(t, 1, 1 + |work|) == work;
    Dispatch(t);
  }

  /** "How long <w> <work>": the work is every token after the third. */
  lemma HowLongTemplate(w: string, work: seq<string>)
    ensures Parse(["How", "long", w] + work) == Ok(Lookup(Join(work, "_"), "Running_time", true))
  {
    var t := ["How", "long", w] + work;
    DropPrefix(["How", "long", w], work);
    assert Slice(t, 3, |t|) == work;
    Dispatch(t);
  }

  /** "How many <w2> <w3> based ...": the count of all based-on triples, whatever follows. */
  lemma HowManyBasedTemplate(w2: string, w3: string, rest: seq<string>)
    ensures Parse(["How", "many", w2, w3, "based"] + rest) == Ok(CountBasedOn)
  {
    var t := ["How", "many", w2, w3, "based"] + rest;
    assert t[1] == "many" && t[4] == "based";
    Dispatch(t);
  }

  /** Where the keyword and the slot of "How many <w> starring <person> won ..." sit. */
  lemma StarringShape(w: string, person: seq<string>, rest: seq<string>, t: seq<string>)
    requires w != "won" && "won" !in person && (|person| > 0 ==> person[0] != "based")
    requires t == ["How", "many", w, "starring"] + person + ["won"] + rest
    ensures |t| >= 5 && t[0] == "How" && t[1] == "many" && t[3] == "starring" && t[4] != "based"
    ensures Index(t, "won") == Ok(4 + |person|)
    ensures Slice(t, 4, 4 + |person|) == person
  {
    var p := ["How", "many", w, "starring"];
    if |person| > 0 {
      assert t[4] == person[0];
    } else {
      assert t[4] == "won";
    }
    IndexAfter(p + person, "won", rest);
    MiddleOf(p, person, ["won"] + rest);
    AppendAssoc(p + person, ["won"], rest);
  }

  lemma HowManyStarringPlan(t: seq<string>, person: seq<string>)
    requires |t| >= 5 && t[0] == "How" && t[1] == "many" && t[3] == "starring" && t[4] != "based"
    requires Index(t, "won") == Ok(4 + |person|) && Slice(t, 4, 4 + |person|) == person
    ensures Parse(t) == Ok(CountStarring(Join(person, "_")))
  {
    HowManyDispatch(t);
  }

  lemma HowManyStarringAt(w: string, person: seq<string>, rest: seq<string>, t: seq<string>)
    requires w != "won" && "won" !in person && (|person| > 0 ==> person[0] != "based")
    requires t == ["How", "many", w, "starring"] + person + ["won"] + rest
    ensures Parse(t) == Ok(CountStarring(Join(person, "_")))
  {
    StarringShape(w, person, rest, t);
    HowManyStarringPlan(t, person);
  }

  /** "How many <w> starring <person> won ...": the person lies between "starring" and the first "won". */
  lemma HowManyStarringTemplate(w: string, person: seq<string>, rest: seq<string>)
    requires w != "won" && "won" !in person && (|person| > 0 ==> person[0] != "based")
    ensures Parse(["How", "many", w, "starring"] + person + ["won"] + rest) == Ok(CountStarring(Join(person, "_")))
  {
    var t := ["How", "many", w, "starring"] + person + ["won"] + rest;
    HowManyStarringAt(w, person, rest, t);
  }

  /** Where the keywords of "How many <occ1> are ... also <occ2>" sit. */
  lemma BothKeywords(occ1: seq<string>, filler: seq<string>, occ2: seq<string>, t: seq<string>)
    requires |occ1| > 0 && "are" !in occ1 && "also" !in occ1 && "also" !in filler
    requires t == ["How", "many"] + occ1 + ["are"] + filler + ["also"] + occ2
    ensures Index(t, "are") == Ok(2 + |occ1|)
    ensures Index(t, "also") == Ok(3 + |occ1| + |filler|)
  {
    var q := ["How", "many"] + occ1;
    assert q + ["are"] + (filler + ["also"] + occ2) == t;
    IndexAfter(q, "are", filler + ["also"] + occ2);
    IndexAfter(q + ["are"] + filler, "also", occ2);
  }

  /** The two slots of "How many <occ1> are ... also <occ2>". */
  lemma BothSlots(occ1: seq<string>, filler: seq<string>, occ2: seq<string>, t: seq<string>)
    requires t == ["How", "many"] + occ1 + ["are"] + filler + ["also"] + occ2
    ensures Slice(t, 2, 2 + |occ1|) == occ1
    ensures t[4 + |occ1| + |filler|..] == occ2
  {
    var rest := ["are"] + filler + ["also"] + occ2;
    assert ["How", "many"] + occ1 + rest == t;
    MiddleOf(["How", "many"], occ1, rest);
    DropPrefix(["How", "many"] + occ1 + ["are"] + filler + ["also"], occ2);
  }

  /** The fourth and fifth tokens select neither of the other counts. */
  lemma BothNotOtherCounts(occ1: seq<string>, filler: seq<string>, occ2: seq<string>, t: seq<string>)
    requires |occ1| > 0
    requires |occ1| >= 2 ==> occ1[1] != "starring"
    requires |occ1| >= 3 ==> occ1[2] != "based"
    requires |occ1| == 1 && |filler| > 0 ==> filler[0] != "based"
    requires t == ["How", "many"] + occ1 + ["are"] + filler + ["also"] + occ2
    ensures |t| >= 5 && t[0] == "How" && t[1] == "many" && t[3] != "starring" && t[4] != "based"
  {
    assert forall i :: 0 <= i < |occ1| ==> t[2 + i] == occ1[i];
    assert t[2 + |occ1|] == "are";
    assert forall i :: 0 <= i < |filler| ==> t[3 + |occ1| + i] == filler[i];
    assert t[3 + |occ1| + |filler|] == "also";
  }

  /** "How many <occ1> are ... also <occ2>": the first occupation lies between "many" and the first
      "are", the second follows the first "also". */
  lemma HowManyBothTemplate(occ1: seq<string>, filler: seq<string>, occ2: seq<string>)
    requires |occ1| > 0 && "are" !in occ1 && "also" !in occ1 && "also" !in filler
    requires |occ1| >= 2 ==> occ1[1] != "starring"
    requires |occ1| >= 3 ==> occ1[2] != "based"
    requires |occ1| == 1 && |filler| > 0 ==> filler[0] != "based"
    ensures Parse(["How", "many"] + occ1 + ["are"] + filler + ["also"] + occ2)
         == Ok(CountBoth(Join(occ1, "_"), Join(occ2, "_")))
  {
    var t := ["How", "many"] + occ1 + ["are"] + filler + ["also"] + occ2;
    BothNotOtherCounts(occ1, filler, occ2, t);
    BothKeywords(occ1, filler, occ2, t);
    BothSlots(occ1, filler, occ2, t);
    HowManyDispatch(t);
  }

  // ---------------------------------------------------------------------------
  // Questions outside the templates

  /** A first token that names no template gives the empty answer; so does an empty "How" template. */
  lemma ParseNoTemplate(first: seq<string>, rest: seq<string>)
    requires |first| == 1 || (|first| == 2 && first[0] == "How" && first[1] != "long" && first[1] != "many")
    requires |first| == 1 ==> first[0] !in ["Who", "When", "What", "Did", "Is", "How"]
    ensures Parse(first + rest) == Ok(NoTemplate)
  {
    var t := first + rest;
    assert t[0] == first[0];
    if |first| == 2 {
      assert t[1] == first[1];
    }
  }

  /** "Who" followed by any other verb is left unanswered. */
  lemma ParseWhoOther(verb: string, rest: seq<string>)
    requires verb !in ["directed", "produced", "edited", "starred"]
    ensures Parse(["Who", verb] + rest) == Ok(Unanswered)
  {
    assert (["Who", verb] + rest)[1] == verb;
  }

  /** The keyword a template needs is missing: Python's `list.index` raises ValueError. */
  lemma ParseMissingKeyword(first: string, rest: seq<string>, keyword: string)
    requires (first == "Did" && keyword == "star") || (first == "Is" && keyword == "based")
          || (first == "What" && keyword == "of")
    requires keyword !in rest
    ensures Parse([first] + rest) == Raise(ValueError)
  {
    var t := [first] + rest;
    assert keyword !in t;
  }

  /** A question that has no slot for its subscript raises IndexError, as does the empty question. */
  lemma ParseTooShort(tokens: seq<string>)
    requires |tokens| == 0 || (tokens[0] in ["Who", "How"] && |tokens| == 1)
          || (|tokens| == 4 && tokens[0] == "How" && tokens[1] == "many")
    ensures Parse(tokens) == Raise(IndexError)
  {
  }

  /** What `query_parser` hands back: a list, `None`, or an exception. */
  datatype Reply = Answer(items: seq<string>) | NoReply | Raised(error: Exception)

  /** Some actor of the movie is shown under exactly the actor's slug. */
  predicate HasStar(g: set<Triple>, actor: string, movie: string) {
    exists o :: o in Objects(g, movie, "Starring") && LastSegment(o) == actor
  }

  /** The replies a plan may produce over the graph: list answers in any order of the
      solutions, all other answers exactly. */
  ghost predicate Answers(g: set<Triple>, plan: Plan, reply: Reply) {
    match plan
    case Lookup(entity, relation, spaced) =>
      reply.Answer? && exists rows :: Enumerates(rows, Objects(g, entity, relation)) && reply.items == Shown(rows, spaced)
    case StarredIn(actor, movie) => reply == Answer([if HasStar(g, actor, movie) then "Yes" else "No"])
    case IsBasedOn(movie) => reply == Answer([if Objects(g, movie, "Based_on") != {} then "Yes" else "No"])
    case CountBasedOn => reply == Answer([NatToString(|BasedOnRows(g)|)])
    case CountStarring(person) => reply == Answer([NatToString(|StarringSubjects(g, person)|)])
    case CountBoth(o1, o2) => reply == Answer([NatToString(|SharedOccupationSubjects(g, o1, o2)|)])
    case Unanswered => reply == NoReply
    case NoTemplate => reply == Answer([])
  }

  /** The reply of `query_parser` to a tokenised question: the exception the slot grammar raises, or an answer of its plan. */
  ghost predicate ReplyFor(g: set<Triple>, tokens: seq<string>, reply: Reply) {
    match Parse(tokens)
    case Raise(e) => reply == Raised(e)
    case Ok(plan) => Answers(g, plan, reply)
  }

  ghost predicate Replies(g: set<Triple>, query: string, reply: Reply) {
    ReplyFor(g, Tokens(query), reply)
  }

  // ---------------------------------------------------------------------------
  // The interpreter

  method MyQuery(g: set<Triple>, entityName: string, relation: string) returns (rows: seq<string>)
    ensures Enumerates(rows, Objects(g, entityName, relation))
  {
    rows := Enumerate(Objects(g, entityName, relation));
  }

  method BasedOnQuery(g: set<Triple>) returns (rows: seq<Triple>)
    ensures Enumerates(rows, BasedOnRows(g))
  {
    rows := Enumerate(BasedOnRows(g));
  }

  method StarringQuery(g: set<Triple>, entityName: string) returns (rows: seq<string>)
    ensures Enumerates(rows, StarringSubjects(g, entityName))
  {
    rows := Enumerate(StarringSubjects(g, entityName));
  }

  method OccupationQuery(g: set<Triple>, occupation1: string, occupation2: string) returns (rows: seq<string>)
    ensures Enumerates(rows, SharedOccupationSubjects(g, occupation1, occupation2))
  {
    rows := Enumerate(SharedOccupationSubjects(g, occupation1, occupation2));
  }

  /** The listing of a single solution is that solution. */
  lemma EnumeratesSingleton<T(!new)>(rows: seq<T>, x: T)
    requires Enumerates(rows, {x})
    ensures rows == [x]
  {
    EnumeratesCard(rows, {x});
    assert rows[0] in {x};
  }

  /** A list answer made of the shown solutions of (entity, relation, ?). */
  method LookupAnswer(g: set<Triple>, entity: string, relation: string, spaced: bool) returns (reply: Reply)
    ensures Answers(g, Lookup(entity, relation, spaced), reply)
  {
    var ans := MyQuery(g, entity, relation);
    var ansLst := Collect(ans, spaced);
    reply := Answer(ansLst);
  }

  /** The "Who" branch of `query_parser`. */
  method AnswerWho(g: set<Triple>, tokenLst: seq<string>) returns (reply: Reply)
    requires |tokenLst| > 0 && tokenLst[0] == "Who"
    ensures ReplyFor(g, tokenLst, reply)
  {
    var movieName := Join(Slice(tokenLst, 2, |tokenLst|), "_");
    if |tokenLst| < 2 {
      return Raised(IndexError);
    }
    assert Slice(tokenLst, 2, |tokenLst|) == tokenLst[2..];
    var relation;
    if tokenLst[1] == "directed" {
      relation := "Directed_by";
    } else if tokenLst[1] == "produced" {
      relation := "Produced_by";
    } else if tokenLst[1] == "edited" {
      relation := "Edited_by";
    } else if tokenLst[1] == "starred" {
      relation := "Starring";
      var index := Index(tokenLst, "in");
      if index.Raise? {
        return Raised(index.error);
      }
      movieName := Join(tokenLst[index.value + 1..], "_");
    } else {
      return NoReply;
    }
    reply := LookupAnswer(g, movieName, relation, true);
  }

  /** The "When" branch of `query_parser`. */
  method AnswerWhen(g: set<Triple>, tokenLst: seq<string>) returns (reply: Reply)
    requires |tokenLst| > 0 && tokenLst[0] == "When"
    ensures ReplyFor(g, tokenLst, reply)
  {
    var entityName := Join(Slice(tokenLst, 2, |tokenLst| - 1), "_");
    if tokenLst[|tokenLst| - 1] == "released" {
      reply := LookupAnswer(g, entityName, "Release_date", false);
    } else if tokenLst[|tokenLst| - 1] == "born" {
      reply := LookupAnswer(g, entityName, "Born", false);
    } else {
      return NoReply;
    }
  }

  /** The "What" branch of `query_parser`. */
  method AnswerWhat(g: set<Triple>, tokenLst: seq<string>) returns (reply: Reply)
    requires |tokenLst| > 0 && tokenLst[0] == "What"
    ensures ReplyFor(g, tokenLst, reply)
  {
    var index := Index(tokenLst, "of");
    if index.Raise? {
      return Raised(index.error);
    }
    var entityName := Join(tokenLst[index.value + 1..], "_");
    if |tokenLst| < 4 {
      return Raised(IndexError);
    }
    if tokenLst[3] == "occupation" {
      reply := LookupAnswer(g, entityName, "Occupation", true);
    } else {
      return NoReply;
    }
  }

  /** The "Did" branch of `query_parser`: the first actor shown as the asked slug answers "Yes". */
  method AnswerDid(g: set<Triple>, tokenLst: seq<string>) returns (reply: Reply)
    requires |tokenLst| > 0 && tokenLst[0] == "Did"
    ensures ReplyFor(g, tokenLst, reply)
  {
    var starIndex := Index(tokenLst, "star");
    if starIndex.Raise? {
      return Raised(starIndex.error);
    }
    var inIndex := Index(tokenLst, "in");
    if inIndex.Raise? {
      return Raised(inIndex.error);
    }
    var actor := Join(Slice(tokenLst, 1, starIndex.value), "_");
    var movie := Join(tokenLst[inIndex.value + 1..], "_");
    var actorLst := MyQuery(g, movie, "Starring");
    for i := 0 to |actorLst|
      invariant forall k :: 0 <= k < i ==> LastSegment(actorLst[k]) != actor
    {
      var temp := LastSegment(actorLst[i]);
      if temp == actor {
        return Answer(["Yes"]);
      }
    }
    reply := Answer(["No"]);
  }

  /** The "Is" branch of `query_parser`. */
  method AnswerIs(g: set<Triple>, tokenLst: seq<string>) returns (reply: Reply)
    requires |tokenLst| > 0 && tokenLst[0] == "Is"
    ensures ReplyFor(g, tokenLst, reply)
  {
    var index := Index(tokenLst, "based");
    if index.Raise? {
      return Raised(index.error);
    }
    var movie := Join(Slice(tokenLst, 1, index.value), "_");
    var bookLst := MyQuery(g, movie, "Based_on");
    if |bookLst| > 0 {
      assert bookLst[0] in Objects(g, movie, "Based_on");
      reply := Answer(["Yes"]);
    } else {
      assert forall o :: o !in Objects(g, movie, "Based_on") by {
        assert forall o :: o !in bookLst;
      }
      reply := Answer(["No"]);
    }
  }

  /** The "How" branch of `query_parser`: a running time, or one of the three counts. */
  method AnswerHow(g: set<Triple>, tokenLst: seq<string>) returns (reply: Reply)
    requires |tokenLst| > 0 && tokenLst[0] == "How"
    ensures ReplyFor(g, tokenLst, reply)
  {
    if |tokenLst| < 2 {
      return Raised(IndexError);
    }
    Dispatch(tokenLst);
    if tokenLst[1] == "long" {
      var movie := Join(Slice(tokenLst, 3, |tokenLst|), "_");
      reply := LookupAnswer(g, movie, "Running_time", true);
    } else if tokenLst[1] == "many" {
      if |tokenLst| < 5 {
        return Raised(IndexError);
      }
      if tokenLst[4] == "based" {
        var rows := BasedOnQuery(g);
        EnumeratesCard(rows, BasedOnRows(g));
        reply := Answer([NatToString(|rows|)]);
      } else if tokenLst[3] == "starring" {
        var wonIndex := Index(tokenLst, "won");
        if wonIndex.Raise? {
          return Raised(wonIndex.error);
        }
        var entity := Join(Slice(tokenLst, 4, wonIndex.value), "_");
        var movieLst := StarringQuery(g, entity);
        EnumeratesCard(movieLst, StarringSubjects(g, entity));
        reply := Answer([NatToString(|movieLst|)]);
      } else {
        var areIndex := Index(tokenLst, "are");
        if areIndex.Raise? {
          return Raised(areIndex.error);
        }
        var alsoIndex := Index(tokenLst, "also");
        if alsoIndex.Raise? {
          return Raised(alsoIndex.error);
        }
        var occupation1 := Join(Slice(tokenLst, 2, areIndex.value), "_");
        var occupation2 := Join(tokenLst[alsoIndex.value + 1..], "_");
        var rows := OccupationQuery(g, occupation1, occupation2);
        EnumeratesCard(rows, SharedOccupationSubjects(g, occupation1, occupation2));
        reply := Answer([NatToString(|rows|)]);
      }
    } else {
      reply := Answer([]);
    }
  }

  /** `query_parser` over the graph read from the ontology file. */
  method QueryParser(g: set<Triple>, query: string) returns (reply: Reply)
    ensures Replies(g, query, reply)
  {
    var q := Replace(query, "?", "");
    var tokenLst := SplitWs(q);
    if |tokenLst| == 0 {
      return Raised(IndexError);
    }
    if tokenLst[0] == "Who" {
      reply := AnswerWho(g, tokenLst);
    } else if tokenLst[0] == "When" {
      reply := AnswerWhen(g, tokenLst);
    } else if tokenLst[0] == "What" {
      reply := AnswerWhat(g, tokenLst);
    } else if tokenLst[0] == "Did" {
      reply := AnswerDid(g, tokenLst);
    } else if tokenLst[0] == "Is" {
      reply := AnswerIs(g, tokenLst);
    } else if tokenLst[0] == "How" {
      reply := AnswerHow(g, tokenLst);
    } else {
      reply := Answer([]);
    }
  }

  // ---------------------------------------------------------------------------
  // What the replies mean

  lemma {:induction false} ShownMembership(rows: seq<string>, spaced: bool, x: string)
    ensures x in Shown(rows, spaced) <==> exists o :: o in rows && Display(o, spaced) == x
    decreases |rows|
  {
    if |rows| > 0 {
      var n := |rows| - 1;
      ShownMembership(rows[..n], spaced, x);
      InitLast(rows);
      if x in Shown(rows, spaced) && x != Display(rows[n], spaced) {
        var o :| o in rows[..n] && Display(o, spaced) == x;
        assert o in rows;
      }
      if exists o :: o in rows && Display(o, spaced) == x {
        var o :| o in rows && Display(o, spaced) == x;
        if o != rows[n] {
          assert o in rows[..n];
        }
      }
    }
  }

  /** A list answer holds one shown item per solution of the pattern, and an item is in the
      answer exactly when it is the shown form of some object of (entity, relation, ?). */
  lemma LookupContents(g: set<Triple>, entity: string, relation: string, spaced: bool, reply: Reply)
    requires Answers(g, Lookup(entity, relation, spaced), reply)
    ensures reply.Answer? && |reply.items| == |Objects(g, entity, relation)|
    ensures forall x :: x in reply.items <==>
      exists o :: Triple(Uri(entity), Uri(relation), o) in g && Display(o, spaced) == x
  {
    var rows :| Enumerates(rows, Objects(g, entity, relation)) && reply.items == Shown(rows, spaced);
    EnumeratesCard(rows, Objects(g, entity, relation));
    forall x ensures x in reply.items <==> exists o :: Triple(Uri(entity), Uri(relation), o) in g && Display(o, spaced) == x {
      ShownMembership(rows, spaced, x);
    }
  }

  /** Two replies to the same plan differ at most in the order of a list answer. */
  lemma AnswersUpToOrder(g: set<Triple>, plan: Plan, r1: Reply, r2: Reply)
    requires Answers(g, plan, r1) && Answers(g, plan, r2)
    ensures r1.Answer? == r2.Answer?
    ensures r1.Answer? ==> multiset(r1.items) == multiset(r2.items)
    ensures !plan.Lookup? ==> r1 == r2
  {
    if plan.Lookup? {
      var s := Objects(g, plan.entity, plan.relation);
      var a :| Enumerates(a, s) && r1.items == Shown(a, plan.spaced);
      var b :| Enumerates(b, s) && r2.items == Shown(b, plan.spaced);
      EnumeratesPermutation(a, b, s);
      ShownPermutation(a, b, plan.spaced);
    }
  }

  /** `query_parser` is deterministic up to the order of the solutions the store lists. */
  lemma RepliesUpToOrder(g: set<Triple>, query: string, r1: Reply, r2: Reply)
    requires Replies(g, query, r1) && Replies(g, query, r2)
    ensures r1.Answer? == r2.Answer?
    ensures r1.Answer? ==> multiset(r1.items) == multiset(r2.items)
    ensures r1.Raised? ==> r1 == r2
  {
    match Parse(Tokens(query))
    case Raise(e) =>
    case Ok(plan) => AnswersUpToOrder(g, plan, r1, r2);
  }

  /** Proof helper: once the tokens and their plan are known, a reply to the question is an answer of that plan. */
  lemma RepliesByPlan(g: set<Triple>, question: string, tokens: seq<string>, plan: Plan, reply: Reply)
    requires Tokens(question) == tokens && Parse(tokens) == Ok(plan)
    requires Replies(g, question, reply)
    ensures Answers(g, plan, reply)
  {
  }

  /** A pattern with a single solution is answered with that solution, shown. */
  lemma LookupSingleton(g: set<Triple>, entity: string, relation: string, spaced: bool, x: string, reply: Reply)
    requires Objects(g, entity, relation) == {x}
    requires Answers(g, Lookup(entity, relation, spaced), reply)
    ensures reply == Answer([Display(x, spaced)])
  {
    var rows :| Enumerates(rows, {x}) && reply.items == Shown(rows, spaced);
    EnumeratesSingleton(rows, x);
    assert Shown([x], spaced) == [Display(x, spaced)] by {
      assert [x][..0] == [];
    }
  }

  /** The words of a "Did" question with one-word slugs. */
  lemma DidWords(actor: string, movie: string, words: seq<string>)
    requires IsWord(actor) && IsWord(movie) && '?' !in actor && '?' !in movie
    requires words == ["Did", actor, "star", "in", movie]
    ensures forall w :: w in words ==> IsWord(w) && '?' !in w
    ensures ["Did"] + [actor] + ["star"] + [] + ["in"] + [movie] == words
  {
    LetterWord(words[0]);
    LetterWord(words[2]);
    LetterWord(words[3]);
  }

  /** A starring triple whose object is the actor's own slug makes "Did" answer "Yes". */
  lemma StarInGraph(g: set<Triple>, actor: string, movie: string)
    requires Triple(Uri(movie), Uri("Starring"), Uri(actor)) in g && '/' !in actor
    ensures HasStar(g, actor, movie)
  {
    UriLastSegment(actor);
    LastSegmentUnique(actor, actor);
    assert Uri(actor) in Objects(g, movie, "Starring");
  }

  /** "Did <actor> star in <movie>" with one-word slugs: "Yes" exactly when some actor of the
      movie is shown as the actor's slug, so in particular when the starring triple is stored. */
  lemma DidQuestion(g: set<Triple>, actor: string, movie: string, mark: string, reply: Reply)
    requires mark == "" || mark == "?"
    requires IsWord(actor) && IsWord(movie) && '?' !in actor && '?' !in movie
    requires actor != "star" && actor != "in"
    requires Replies(g, Join(["Did", actor, "star", "in", movie], " ") + mark, reply)
    ensures reply == Answer([if HasStar(g, actor, movie) then "Yes" else "No"])
    ensures Triple(Uri(movie), Uri("Starring"), Uri(actor)) in g && '/' !in actor ==> reply == Answer(["Yes"])
  {
    var words := ["Did", actor, "star", "in", movie];
    DidWords(actor, movie, words);
    TokensOfQuestion(words, mark);
    DidTemplate([actor], [], [movie]);
    RepliesByPlan(g, Join(words, " ") + mark, words, StarredIn(actor, movie), reply);
    if Triple(Uri(movie), Uri("Starring"), Uri(actor)) in g && '/' !in actor {
      StarInGraph(g, actor, movie);
    }
  }

  /** Proof helper: unfolds the answer of the based-on count. */
  lemma CountBasedOnAnswer(g: set<Triple>, reply: Reply)
    requires Answers(g, CountBasedOn, reply)
    ensures reply == Answer([NatToString(|BasedOnRows(g)|)])
  {
  }

  /** A non-empty run of letters and underscores is a single token. */
  lemma LetterWord(w: string)
    requires |w| > 0 && forall i :: 0 <= i < |w| ==> 'a' <= w[i] <= 'z' || 'A' <= w[i] <= 'Z' || w[i] == '_'
    ensures IsWord(w) && '?' !in w
  {
  }

  lemma HowManyBasedShape(words: seq<string>)
    requires |words| >= 5 && words[0] == "How" && words[1] == "many" && words[4] == "based"
    ensures ["How", "many", words[2], words[3], "based"] + words[5..] == words
  {
  }

  /** "How many ... based ..." tokenises to its words and asks for the number of based-on triples. */
  lemma HowManyBasedPlan(words: seq<string>, mark: string)
    requires mark == "" || mark == "?"
    requires |words| >= 5 && words[0] == "How" && words[1] == "many" && words[4] == "based"
    requires forall w :: w in words ==> IsWord(w) && '?' !in w
    ensures Tokens(Join(words, " ") + mark) == words
    ensures Parse(words) == Ok(CountBasedOn)
  {
    TokensOfQuestion(words, mark);
    HowManyBasedShape(words);
    HowManyBasedTemplate(words[2], words[3], words[5..]);
  }

  /** "How many ... based ..." counts the based-on triples of the whole graph, whatever the other words are. */
  lemma HowManyBasedQuestion(g: set<Triple>, words: seq<string>, mark: string, reply: Reply)
    requires mark == "" || mark == "?"
    requires |words| >= 5 && words[0] == "How" && words[1] == "many" && words[4] == "based"
    requires forall w :: w in words ==> IsWord(w) && '?' !in w
    requires Replies(g, Join(words, " ") + mark, reply)
    ensures reply == Answer([NatToString(|BasedOnRows(g)|)])
  {
    HowManyBasedPlan(words, mark);
    RepliesByPlan(g, Join(words, " ") + mark, words, CountBasedOn, reply);
    CountBasedOnAnswer(g, reply);
  }

  lemma CountQuestionWords(words: seq<string>)
    requires words == ["How", "many", "movies", "are", "based", "on", "a", "book"]
    ensures forall w :: w in words ==> IsWord(w) && '?' !in w
  {
    LetterWord(words[0]);
    LetterWord(words[1]);
    LetterWord(words[2]);
    LetterWord(words[3]);
    LetterWord(words[4]);
    LetterWord(words[5]);
    LetterWord(words[6]);
    LetterWord(words[7]);
  }

  /** "How many movies are based on a book", in any store: the number of based-on triples. */
  lemma CountQuestionReply(g: set<Triple>, words: seq<string>, reply: Reply)
    requires words == ["How", "many", "movies", "are", "based", "on", "a", "book"]
    requires Replies(g, Join(words, " "), reply)
    ensures reply == Answer([NatToString(|BasedOnRows(g)|)])
  {
    CountQuestionWords(words);
    NoMark(Join(words, " "));
    HowManyBasedQuestion(g, words, "", reply);
  }

  /** The sample store holds one based-on triple. */
  lemma SampleBasedOnRows(g: set<Triple>)
    requires g == {Triple(Uri("Film_X"), Uri("Based_on"), Uri("A_book_by_Y")),
                   Triple(Uri("Film_Z"), Uri("Starring"), Uri("Actor_A"))}
    ensures |BasedOnRows(g)| == 1
  {
    UriInjective("Starring", "Based_on");
    assert BasedOnRows(g) == {Triple(Uri("Film_X"), Uri("Based_on"), Uri("A_book_by_Y"))};
  }

  /** The store of two triples, one based-on and one starring: the question with the words
      "How many movies are based on a book" is answered "1". */
  lemma BasedOnCountExample(g: set<Triple>, words: seq<string>, reply: Reply)
    requires g == {Triple(Uri("Film_X"), Uri("Based_on"), Uri("A_book_by_Y")),
                   Triple(Uri("Film_Z"), Uri("Starring"), Uri("Actor_A"))}
    requires words == ["How", "many", "movies", "are", "based", "on", "a", "book"]
    requires Replies(g, Join(words, " "), reply)
    ensures reply == Answer(["1"])
  {
    CountQuestionReply(g, words, reply);
    SampleBasedOnRows(g);
  }

  /** A two-word slug `a_b` is shown with its underscore turned back into a space. */
  lemma DisplayTwoWordSlug(a: string, b: string)
    requires '/' !in a && '/' !in b && '_' !in a && '_' !in b
    ensures Display(Uri(a + "_" + b), true) == a + " " + b
  {
    var slug := a + "_" + b;
    UriLastSegment(slug);
    assert '/' !in slug;
    LastSegmentUnique(slug, slug);
    SplitTwo(a, b, "_");
    JoinTwo(a, b, " ");
  }

  lemma StarredQuestionWords(words: seq<string>)
    requires words == ["Who", "starred", "in", "Film_Z"]
    ensures forall w :: w in words ==> IsWord(w) && '?' !in w
    ensures "in" !in words[..2] && words[2] == "in"
    ensures ["Who", "starred"] + [] + ["in"] + [words[3]] == words
  {
    LetterWord(words[0]);
    LetterWord(words[1]);
    LetterWord(words[2]);
    LetterWord(words[3]);
  }

  lemma SampleActor(g: set<Triple>, film: string)
    requires g == {Triple(Uri("Film_X"), Uri("Based_on"), Uri("A_book_by_Y")),
                   Triple(Uri("Film_Z"), Uri("Starring"), Uri("Actor_A"))}
    requires film == "Film_Z"
    ensures Objects(g, film, "Starring") == {Uri("Actor" + "_" + "A")}
    ensures "Actor" + " " + "A" == "Actor A"
  {
    UriInjective("Film_X", film);
    assert "Actor_A" == "Actor" + "_" + "A";
  }

  /** "Who starred in Film_Z" tokenises to its words and asks for the actors of Film_Z. */
  lemma StarredQuestionPlan(words: seq<string>, film: string)
    requires words == ["Who", "starred", "in", "Film_Z"] && film == "Film_Z"
    ensures Tokens(Join(words, " ")) == words
    ensures Parse(words) == Ok(Lookup(film, "Starring", true))
  {
    StarredQuestionWords(words);
    NoMark(Join(words, " "));
    TokensOfQuestion(words, "");
    WhoStarredTemplate([], [film]);
    assert Join([film], "_") == film;
  }

  /** A question that asks for the one object of a pattern is answered with that object, shown. */
  lemma SingleLookupReply(g: set<Triple>, question: string, words: seq<string>, entity: string, relation: string,
                          x: string, reply: Reply)
    requires Tokens(question) == words && Parse(words) == Ok(Lookup(entity, relation, true))
    requires Objects(g, entity, relation) == {x}
    requires Replies(g, question, reply)
    ensures reply == Answer([Display(x, true)])
  {
    RepliesByPlan(g, question, words, Lookup(entity, relation, true), reply);
    LookupSingleton(g, entity, relation, true, x, reply);
  }

  /** "Who starred in Film_Z" when Film_Z has a single actor `a_b`: that actor, shown as "a b". */
  lemma StarredSingleActor(g: set<Triple>, words: seq<string>, film: string, a: string, b: string, reply: Reply)
    requires words == ["Who", "starred", "in", "Film_Z"] && film == "Film_Z"
    requires a == "Actor" && b == "A"
    requires Objects(g, film, "Starring") == {Uri(a + "_" + b)}
    requires Replies(g, Join(words, " "), reply)
    ensures reply == Answer([a + " " + b])
  {
    StarredQuestionPlan(words, film);
    SingleLookupReply(g, Join(words, " "), words, film, "Starring", Uri(a + "_" + b), reply);
    DisplayTwoWordSlug(a, b);
  }

  /** The same store: the question with the words "Who starred in Film_Z" is answered "Actor A". */
  lemma StarredExample(g: set<Triple>, words: seq<string>, reply: Reply)
    requires g == {Triple(Uri("Film_X"), Uri("Based_on"), Uri("A_book_by_Y")),
                   Triple(Uri("Film_Z"), Uri("Starring"), Uri("Actor_A"))}
    requires words == ["Who", "starred", "in", "Film_Z"]
    requires Replies(g, Join(words, " "), reply)
    ensures reply == Answer(["Actor A"])
  {
    SampleActor(g, "Film_Z");
    StarredSingleActor(g, words, "Film_Z", "Actor", "A", reply);
  }

  // ---------------------------------------------------------------------------
  // print_answer

  /** What the loop over all but the last answer prints: each answer followed by ", ". */
  function Printed(items: seq<string>): string {
    if |items| == 0 then "" else Printed(items[..|items| - 1]) + items[|items| - 1] + ", "
  }

  lemma {:induction false} PrintedJoin(items: seq<string>, last: string)
    ensures Printed(items) + last == Join(items + [last], ", ")
    decreases |items|
  {
    if |items| > 0 {
      var n := |items| - 1;
      var init := items[..n];
      PrintedJoin(init, items[n]);
      InitLast(items);
      JoinSnoc(items, last, ", ");
    } else {
      assert [] + [last] == [last];
    }
  }

  /** `print_answer(ans_list)`: the answers separated by ", " and ended by a newline; the last
      element is read as `ans_list[len(ans_list) - 1]`, which raises IndexError on an empty list. */
  method PrintAnswer(ansList: seq<string>) returns (out: Result<string>)
    ensures |ansList| == 0 ==> out == Raise(IndexError)
    ensures |ansList| > 0 ==> out == Ok(Join(ansList, ", ") + "\n")
  {
    var text := "";
    var i := 0;
    while i < |ansList| - 1
      invariant 0 <= i <= |ansList| && (|ansList| > 0 ==> i <= |ansList| - 1)
      invariant text == Printed(ansList[..i])
    {
      TakeStep(ansList, i);
      text := text + ansList[i] + ", ";
      i := i + 1;
    }
    if |ansList| == 0 {
      return Raise(IndexError);
    }
    var n := |ansList| - 1;
    PrintedJoin(ansList[..n], ansList[n]);
    InitLast(ansList);
    out := Ok(text + ansList[n] + "\n");
  }

  /** When no answer holds a comma, the printed line splits back into the answers. */
  lemma PrintedAnswerSplits(ansList: seq<string>)
    requires |ansList| > 0 && forall a :: a in ansList ==> ',' !in a
    ensures Split(Join(ansList, ", "), ", ") == ansList
  {
    SplitJoin(ansList, ", ");
  }
}
