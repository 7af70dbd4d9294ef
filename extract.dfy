/** The per-relation extractors. Each XPath query the source runs against the infobox
    row of one relation header is an input list of strings here; what remains is the
    splitting, filtering and concatenation done on those lists. */
module Extract {
  import opened PyString

  /** What the XPath queries return for one relation header of a page
      (the `td` cells of the rows whose header text contains it). */
  datatype RowQueries = RowQueries(
    bday: seq<string>,       // td//span[contains(@class, 'bday')]//text()
    items: seq<string>,      // td//li/text()
    texts: seq<string>,      // td//text()
    links: seq<string>,      // td//a/@href
    plainTexts: seq<string>) // td//text()[not(ancestor::a)]

  // ---------------------------------------------------------------------------
  // Release date

  /** A token the year scan keeps: numeric and four characters long. */
  predicate IsYear(s: string) { IsNumeric(s) && |s| == 4 }

  /** The year tokens of a token list, in order. */
  function Years(tokens: seq<string>): seq<string> {
    if |tokens| == 0 then []
    else Years(tokens[..|tokens| - 1]) + (if IsYear(tokens[|tokens| - 1]) then [tokens[|tokens| - 1]] else [])
  }

  /** The year scan of `get_release_date`: the years among the whitespace-separated tokens of each fragment, fragment by fragment. */
  function YearTokens(texts: seq<string>): seq<string> {
    if |texts| == 0 then []
    else YearTokens(texts[..|texts| - 1]) + Years(SplitWs(texts[|texts| - 1]))
  }

  /** Every whitespace-separated token of the fragments, in order. */
  function AllTokens(texts: seq<string>): seq<string> {
    if |texts| == 0 then [] else AllTokens(texts[..|texts| - 1]) + SplitWs(texts[|texts| - 1])
  }

  /** What `get_release_date` returns: the `bday` text when there is any, else the year scan. */
  function ReleaseDates(bday: seq<string>, texts: seq<string>): seq<string> {
    if |bday| > 0 then bday else YearTokens(texts)
  }

  /** Keeping the next token when it is a year extends the scanned prefix by one token. */
  lemma YearsStep(before: seq<string>, tokens: seq<string>, j: nat, acc: seq<string>)
    requires j < |tokens| && acc == before + Years(tokens[..j])
    ensures acc + (if IsYear(tokens[j]) then [tokens[j]] else []) == before + Years(tokens[..j + 1])
  {
    TakeStep(tokens, j);
    AppendAssoc(before, Years(tokens[..j]), if IsYear(tokens[j]) then [tokens[j]] else []);
  }

  /** Once a fragment's tokens are all scanned, the next fragment is done. */
  lemma YearTokensStep(texts: seq<string>, i: nat, tokens: seq<string>, acc: seq<string>)
    requires i < |texts| && tokens == SplitWs(texts[i])
    requires acc == YearTokens(texts[..i]) + Years(tokens[..|tokens|])
    ensures acc == YearTokens(texts[..i + 1])
  {
    TakeAll(tokens);
    TakeStep(texts, i);
  }

  method GetReleaseDate(bday: seq<string>, texts: seq<string>) returns (entities: seq<string>)
    ensures entities == ReleaseDates(bday, texts)
  {
    entities := bday;
    if |entities| == 0 {
      entities := [];
      for i := 0 to |texts|
        invariant entities == YearTokens(texts[..i])
      {
        var possYear := SplitWs(texts[i]);
        ghost var before := entities;
        for j := 0 to |possYear|
          invariant entities == before + Years(possYear[..j])
        {
          var s := possYear[j];
          YearsStep(before, possYear, j, entities);
          if IsNumeric(s) && |s| == 4 {
            entities := entities + [s];
          } else {
            assert entities + [] == entities;
          }
        }
        YearTokensStep(texts, i, possYear, entities);
      }
      TakeAll(texts);
    }
  }

  lemma {:induction false} YearsAppend(a: seq<string>, b: seq<string>)
    ensures Years(a + b) == Years(a) + Years(b)
    decreases |b|
  {
    if |b| > 0 {
      var n := |b| - 1;
      assert (a + b)[..|a + b| - 1] == a + b[..n];
      YearsAppend(a, b[..n]);
    } else {
      assert a + b == a;
    }
  }

  /** The scan is the year filter applied to the flattened token list. */
  lemma {:induction false} YearTokensFlatten(texts: seq<string>)
    ensures YearTokens(texts) == Years(AllTokens(texts))
    decreases |texts|
  {
    if |texts| > 0 {
      var n := |texts| - 1;
      YearTokensFlatten(texts[..n]);
      YearsAppend(AllTokens(texts[..n]), SplitWs(texts[n]));
    }
  }

  lemma {:induction false} YearsMembership(tokens: seq<string>, s: string)
    ensures s in Years(tokens) <==> IsYear(s) && s in tokens
    decreases |tokens|
  {
    if |tokens| > 0 {
      YearsMembership(tokens[..|tokens| - 1], s);
      InitLast(tokens);
    }
  }

  /** The year scan keeps exactly the four-digit tokens of the fragments. */
  lemma YearTokensMembership(texts: seq<string>, s: string)
    ensures s in YearTokens(texts) <==> IsYear(s) && s in AllTokens(texts)
  {
    YearTokensFlatten(texts);
    YearsMembership(AllTokens(texts), s);
  }

  lemma YearsOne(w: string)
    ensures Years([w]) == if IsYear(w) then [w] else []
  {
    assert [w][..0] == [];
  }

  lemma {:induction false} AllTokensOfWords(texts: seq<string>)
    requires forall i :: 0 <= i < |texts| ==> IsWord(texts[i])
    ensures AllTokens(texts) == texts
    decreases |texts|
  {
    if |texts| > 0 {
      var n := |texts| - 1;
      var init := texts[..n];
      assert forall i :: 0 <= i < |init| ==> IsWord(init[i]);
      AllTokensOfWords(init);
      SplitWsOneWord(texts[n]);
      InitLast(texts);
    }
  }

  /** With no `bday` text, fragments that are single words, and only the last one a year, the result is that year. */
  lemma ReleaseDateFallback(words: seq<string>, year: string)
    requires forall i :: 0 <= i < |words| ==> IsWord(words[i]) && !IsYear(words[i])
    requires IsWord(year) && IsYear(year)
    ensures ReleaseDates([], words + [year]) == [year]
  {
    var texts := words + [year];
    assert forall i :: 0 <= i < |texts| ==> IsWord(texts[i]);
    AllTokensOfWords(texts);
    YearTokensFlatten(texts);
    YearsAppend(words, [year]);
    YearsOne(year);
    if |Years(words)| > 0 {
      YearsMembership(words, Years(words)[0]);
    }
  }

  /** A sample row: only the four-digit token survives. */
  lemma ReleaseDateExample()
    ensures ReleaseDates([], ["Released", "14", "October"] + ["2010"]) == ["2010"]
  {
    ReleaseDateFallback(["Released", "14", "October"], "2010");
  }

  // ---------------------------------------------------------------------------
  // Born

  /** `get_bday`: the `bday` text when there is any, else the first fragment split on
      '/'; with no fragment at all, `entity_lst[0]` raises IndexError. */
  function GetBday(bday: seq<string>, texts: seq<string>): (r: Result<seq<string>>)
    ensures |bday| > 0 ==> r == Ok(bday)
    ensures |bday| == 0 && |texts| == 0 ==> r == Raise(IndexError)
    ensures |bday| == 0 && |texts| > 0 ==>
      r.Ok? && |r.value| >= 1 && Join(r.value, "/") == texts[0] && forall p :: p in r.value ==> '/' !in p
  {
    if |bday| > 0 then Ok(bday)
    else if |texts| == 0 then Raise(IndexError)
    else
      var parts := Split(texts[0], "/");
      JoinSplit(texts[0], "/");
      SplitPiecesAvoidSep(texts[0], "/");
      assert forall p :: p in parts ==> '/' !in p by {
        forall p | p in parts ensures '/' !in p {
          ContainsChar(p, '/');
        }
      }
      Ok(parts)
  }

  // ---------------------------------------------------------------------------
  // Occupation

  /** `x.strip().lower()`. */
  function Clean(x: string): string {
    Lower(Strip(x))
  }

  function CleanAll(parts: seq<string>): seq<string> {
    if |parts| == 0 then [] else CleanAll(parts[..|parts| - 1]) + [Clean(parts[|parts| - 1])]
  }

  /** For each comma-separated piece: its parts around the substring "and", cleaned. */
  function PieceOccupations(pieces: seq<string>): seq<string> {
    if |pieces| == 0 then []
    else PieceOccupations(pieces[..|pieces| - 1]) + CleanAll(Split(pieces[|pieces| - 1], "and"))
  }

  /** What `get_occupation` returns: the in-order flattening over fragments, then
      comma pieces, then "and" parts, of each part stripped and lower-cased. */
  function Occupations(texts: seq<string>): seq<string> {
    if |texts| == 0 then []
    else Occupations(texts[..|texts| - 1]) + PieceOccupations(Split(texts[|texts| - 1], ","))
  }

  /** Appending the next cleaned part extends the cleaned prefix by one. */
  lemma CleanAllStep(before: seq<string>, parts: seq<string>, k: nat, acc: seq<string>)
    requires k < |parts| && acc == before + CleanAll(parts[..k])
    ensures acc + [Clean(parts[k])] == before + CleanAll(parts[..k + 1])
  {
    TakeStep(parts, k);
    AppendAssoc(before, CleanAll(parts[..k]), [Clean(parts[k])]);
  }

  /** Once a piece's parts are all appended, the next comma piece is done. */
  lemma PieceOccupationsStep(before: seq<string>, pieces: seq<string>, j: nat, parts: seq<string>, acc: seq<string>)
    requires j < |pieces| && parts == Split(pieces[j], "and")
    requires acc == before + PieceOccupations(pieces[..j]) + CleanAll(parts[..|parts|])
    ensures acc == before + PieceOccupations(pieces[..j + 1])
  {
    TakeAll(parts);
    TakeStep(pieces, j);
    AppendAssoc(before, PieceOccupations(pieces[..j]), CleanAll(parts));
  }

  /** Once a fragment's pieces are all done, the next fragment is done. */
  lemma OccupationsStep(texts: seq<string>, i: nat, pieces: seq<string>, acc: seq<string>)
    requires i < |texts| && pieces == Split(texts[i], ",")
    requires acc == Occupations(texts[..i]) + PieceOccupations(pieces[..|pieces|])
    ensures acc == Occupations(texts[..i + 1])
  {
    TakeAll(pieces);
    TakeStep(texts, i);
  }

  method GetOccupation(texts: seq<string>) returns (entities: seq<string>)
    ensures entities == Occupations(texts)
  {
    entities := [];
    for i := 0 to |texts|
      invariant entities == Occupations(texts[..i])
    {
      var occLst := Split(texts[i], ",");
      ghost var beforeFragment := entities;
      for j := 0 to |occLst|
        invariant entities == beforeFragment + PieceOccupations(occLst[..j])
      {
        var innerOccLst := Split(occLst[j], "and");
        ghost var parts := innerOccLst;
        ghost var beforePiece := entities;
        for k := 0 to |innerOccLst|
          invariant |innerOccLst| == |parts|
          invariant forall m :: k <= m < |parts| ==> innerOccLst[m] == parts[m]
          invariant entities == beforePiece + CleanAll(parts[..k])
        {
          innerOccLst := innerOccLst[k := Clean(innerOccLst[k])];
          CleanAllStep(beforePiece, parts, k, entities);
          entities := entities + [innerOccLst[k]];
        }
        PieceOccupationsStep(beforeFragment, occLst, j, parts, entities);
      }
      OccupationsStep(texts, i, occLst, entities);
    }
    TakeAll(texts);
  }

  /** A cleaned part has no whitespace at its ends, no upper-case letter and no comma. */
  predicate IsCleanPart(o: string) {
    (o == "" || (!IsSpace(o[0]) && !IsSpace(o[|o| - 1])))
    && (forall i :: 0 <= i < |o| ==> !IsUpper(o[i]))
    && ',' !in o
  }

  lemma CleanIsClean(x: string)
    requires ',' !in x
    ensures IsCleanPart(Clean(x))
  {
    var s := Strip(x);
    var o := Lower(s);
    assert ',' !in s;
    forall i | 0 <= i < |o| ensures o[i] != ',' {
      assert s[i] != ',';
    }
  }

  lemma {:induction false} CleanAllClean(parts: seq<string>)
    requires forall p :: p in parts ==> ',' !in p
    ensures forall o :: o in CleanAll(parts) ==> IsCleanPart(o)
    decreases |parts|
  {
    if |parts| > 0 {
      var n := |parts| - 1;
      assert forall p :: p in parts[..n] ==> p in parts;
      CleanAllClean(parts[..n]);
      CleanIsClean(parts[n]);
    }
  }

  lemma {:induction false} PieceOccupationsClean(pieces: seq<string>)
    requires forall p :: p in pieces ==> ',' !in p
    ensures forall o :: o in PieceOccupations(pieces) ==> IsCleanPart(o)
    decreases |pieces|
  {
    if |pieces| > 0 {
      var n := |pieces| - 1;
      assert forall p :: p in pieces[..n] ==> p in pieces;
      PieceOccupationsClean(pieces[..n]);
      SplitPiecesFromString(pieces[n], "and", ',');
      CleanAllClean(Split(pieces[n], "and"));
    }
  }

  /** Every extracted occupation is stripped, lower-case and free of commas. */
  lemma {:induction false} OccupationsClean(texts: seq<string>)
    ensures forall o :: o in Occupations(texts) ==> IsCleanPart(o)
    decreases |texts|
  {
    if |texts| > 0 {
      var n := |texts| - 1;
      OccupationsClean(texts[..n]);
      var pieces := Split(texts[n], ",");
      SplitPiecesAvoidSep(texts[n], ",");
      forall p | p in pieces ensures ',' !in p {
        ContainsChar(p, ',');
      }
      PieceOccupationsClean(pieces);
    }
  }

  lemma TrimLeftSpace(x: string)
    ensures TrimLeft(" " + x) == TrimLeft(x)
  {
    var s := " " + x;
    assert s[0] == ' ' && IsSpace(s[0]);
    assert s[1..] == x;
  }

  lemma TrimRightSpace(x: string)
    ensures TrimRight(x + " ") == TrimRight(x)
  {
    assert (x + " ")[..|x|] == x;
  }

  /** Stripping a word padded by at most one space on each side gives the word. */
  lemma StripPadded(w: string, left: string, right: string)
    requires IsWord(w) && (left == "" || left == " ") && (right == "" || right == " ")
    ensures Strip(left + w + right) == w
  {
    var x := w + right;
    assert left + w + right == left + x;
    assert TrimLeft(left + x) == x by {
      if left == " " {
        TrimLeftSpace(x);
      } else {
        assert left + x == x;
      }
      assert x[0] == w[0];
    }
    assert TrimRight(x) == w by {
      if right == " " {
        TrimRightSpace(w);
      } else {
        assert x == w;
      }
      assert !IsSpace(w[|w| - 1]);
    }
  }

  /** Cleaning a word padded by at most one space on each side: the padding goes and the letters are lowered. */
  lemma CleanPadded(w: string, left: string, right: string)
    requires IsWord(w) && (left == "" || left == " ") && (right == "" || right == " ")
    ensures Clean(left + w + right) == Lower(w)
  {
    StripPadded(w, left, right);
  }

  lemma OccupationsOfOne(t: string)
    ensures Occupations([t]) == PieceOccupations(Split(t, ","))
  {
    assert [t][..0] == [];
  }

  lemma CleanAllOne(x: string)
    ensures CleanAll([x]) == [Clean(x)]
  {
    assert [x][..0] == [];
  }

  lemma CleanAllTwo(x: string, y: string)
    ensures CleanAll([x, y]) == [Clean(x), Clean(y)]
  {
    assert [x, y][..1] == [x];
    CleanAllOne(x);
  }

  lemma PieceOccupationsOne(p: string)
    ensures PieceOccupations([p]) == CleanAll(Split(p, "and"))
  {
    assert [p][..0] == [];
  }

  lemma PieceOccupationsTwo(p: string, q: string)
    ensures PieceOccupations([p, q]) == CleanAll(Split(p, "and")) + CleanAll(Split(q, "and"))
  {
    assert [p, q][..1] == [p];
    PieceOccupationsOne(p);
  }

  /** A piece without "and" gives one occupation. */
  lemma SplitNoAnd(p: string)
    requires !Contains(p, "and")
    ensures CleanAll(Split(p, "and")) == [Clean(p)]
  {
    SplitFree(p, "and");
    assert [p][..0] == [];
  }

  /** A fragment without a comma is one piece. */
  lemma CommaFreeOccupations(t: string)
    requires ',' !in t
    ensures Occupations([t]) == CleanAll(Split(t, "and"))
  {
    FindInFree(t, ",");
    OccupationsOfOne(t);
    PieceOccupationsOne(t);
  }

  lemma CleanWord(w: string)
    requires IsWord(w)
    ensures Clean(w) == Lower(w)
  {
    assert TrimLeft(w) == w;
    assert TrimRight(w) == w;
  }

  /** Proof helper: a three-element list built from a singleton and a pair. */
  lemma ConsTwo<T>(x: T, y: T, z: T)
    ensures [x] + [y, z] == [x, y, z]
  {
  }

  /** A fragment with one comma gives the occupations of its two pieces, in order. */
  lemma CommaTwoPieces(a: string, rest: string)
    requires ',' !in a && ',' !in rest
    ensures Occupations([a + "," + rest]) == CleanAll(Split(a, "and")) + CleanAll(Split(rest, "and"))
  {
    SplitTwo(a, rest, ",");
    OccupationsOfOne(a + "," + rest);
    PieceOccupationsTwo(a, rest);
  }

  /** A single word without "and" is one occupation, lower-cased. */
  lemma SingleOccupation(a: string)
    requires IsWord(a) && !Contains(a, "and")
    ensures CleanAll(Split(a, "and")) == [Lower(a)]
  {
    SplitNoAnd(a);
    CleanWord(a);
  }

  /** " B and C" gives the two words, stripped and lower-cased. */
  lemma AndPair(b: string, c: string, p: string, q: string)
    requires IsWord(b) && IsWord(c) && !Contains(b, "and") && !Contains(c, "and")
    requires p == " " + b + " " && q == " " + c + ""
    ensures CleanAll(Split(p + "and" + q, "and")) == [Lower(b), Lower(c)]
  {
    SpacedFree(b, "and", " ", " ");
    SpacedFree(c, "and", " ", "");
    assert p[|p| - 1] == ' ';
    SplitTwoFree(p, q, "and");
    CleanAllTwo(p, q);
    CleanPadded(b, " ", " ");
    CleanPadded(c, " ", "");
  }

  /** "A, B and C" gives the three names, lower-cased, when each is a single word
      holding neither a comma nor the substring "and". */
  lemma OccupationList(a: string, b: string, c: string)
    requires IsWord(a) && IsWord(b) && IsWord(c)
    requires ',' !in a && ',' !in b && ',' !in c
    requires !Contains(a, "and") && !Contains(b, "and") && !Contains(c, "and")
    ensures Occupations([a + ", " + b + " and " + c]) == [Lower(a), Lower(b), Lower(c)]
  {
    var p, q := " " + b + " ", " " + c + "";
    var rest := p + "and" + q;
    assert a + ", " + b + " and " + c == a + "," + rest;
    assert ',' !in rest;
    CommaTwoPieces(a, rest);
    SingleOccupation(a);
    AndPair(b, c, p, q);
    ConsTwo(Lower(a), Lower(b), Lower(c));
  }

  lemma LowerSample()
    ensures Lower("Actor") == "actor" && Lower("Producer") == "producer" && Lower("Director") == "director"
    ensures Lower("ROCK AND ROLL") == "rock and roll"
  {
  }

  /** A word of letters with no lower-case 'a' needs no trimming and holds no separator. */
  lemma SeparatorFreeWord(w: string)
    requires |w| > 0 && forall i :: 0 <= i < |w| ==> ('A' <= w[i] <= 'Z' || 'b' <= w[i] <= 'z')
    ensures IsWord(w) && ',' !in w && 'a' !in w
  {
  }

  lemma OccupationSamplePieces(t: string, a: string, b: string, c: string)
    requires t == "Actor, Producer and Director" && a == "Actor" && b == "Producer" && c == "Director"
    ensures t == a + ", " + b + " and " + c
    ensures IsWord(a) && IsWord(b) && IsWord(c)
    ensures ',' !in a && ',' !in b && ',' !in c
    ensures !Contains(a, "and") && !Contains(b, "and") && !Contains(c, "and")
  {
    SeparatorFreeWord(a);
    SeparatorFreeWord(b);
    SeparatorFreeWord(c);
    FirstCharAbsent(a, "and");
    FirstCharAbsent(b, "and");
    FirstCharAbsent(c, "and");
  }

  /** A sample row. */
  lemma OccupationExample(t: string)
    requires t == "Actor, Producer and Director"
    ensures Occupations([t]) == ["actor", "producer", "director"]
  {
    var a, b, c := "Actor", "Producer", "Director";
    OccupationSamplePieces(t, a, b, c);
    OccupationList(a, b, c);
    LowerSample();
  }

  /** "and" is matched as a substring, so a word `XandY` is cut into `X` and `Y`
      when neither part holds "and" and `X` does not end in a letter of "and"
      (which would make an earlier occurrence straddle the join). */
  lemma AndInsideWord(a: string, b: string)
    requires IsWord(a) && IsWord(b) && ',' !in a && ',' !in b
    requires !Contains(a, "and") && !Contains(b, "and") && a[|a| - 1] !in "and"
    ensures Occupations([a + "and" + b]) == [Lower(a), Lower(b)]
  {
    var t := a + "and" + b;
    CommaFreeOccupations(t);
    SplitTwoFree(a, b, "and");
    CleanAllTwo(a, b);
    CleanWord(a);
    CleanWord(b);
  }

  lemma CommanderPieces(t: string, a: string, b: string)
    requires t == "Commander" && a == "Comm" && b == "er"
    ensures t == a + "and" + b
    ensures IsWord(a) && IsWord(b) && ',' !in a && ',' !in b
    ensures !Contains(a, "and") && !Contains(b, "and") && a[|a| - 1] !in "and"
    ensures Lower(a) == "comm" && Lower(b) == "er"
  {
    FirstCharAbsent(a, "and");
    FirstCharAbsent(b, "and");
  }

  lemma CommanderSplits(t: string)
    requires t == "Commander"
    ensures Occupations([t]) == ["comm", "er"]
  {
    var a, b := "Comm", "er";
    CommanderPieces(t, a, b);
    AndInsideWord(a, b);
  }

  lemma BandleaderPieces(t: string, a: string, b: string)
    requires t == "Bandleader" && a == "B" && b == "leader"
    ensures t == a + "and" + b
    ensures IsWord(a) && IsWord(b) && ',' !in a && ',' !in b
    ensures !Contains(a, "and") && !Contains(b, "and") && a[|a| - 1] !in "and"
    ensures Lower(a) == "b" && Lower(b) == "leader"
  {
    FirstCharAbsent(a, "and");
    forall j | 0 <= j <= |b| ensures !OccursAt(b, "and", j) {
      if j + 3 <= |b| {
        assert b[j..j + 3][1] == b[j + 1];
      }
    }
  }

  /** A lower-case "and" inside a word cuts it, even when the rest holds an `a`. */
  lemma BandleaderSplits(t: string)
    requires t == "Bandleader"
    ensures Occupations([t]) == ["b", "leader"]
  {
    var a, b := "B", "leader";
    BandleaderPieces(t, a, b);
    AndInsideWord(a, b);
  }

  /** The split happens before lower-casing, so an upper-case "AND" is no separator:
      a fragment without a comma and without the substring "and", with no space at
      either end, is one occupation. */
  lemma UpperAndKept(t: string)
    requires |t| > 0 && !IsSpace(t[0]) && !IsSpace(t[|t| - 1]) && ',' !in t && !Contains(t, "and")
    ensures Occupations([t]) == [Lower(t)]
  {
    FindInFree(t, ",");
    OccupationsOfOne(t);
    PieceOccupationsOne(t);
    SplitNoAnd(t);
    assert TrimLeft(t) == t;
    assert TrimRight(t) == t;
  }

  lemma UpperAndExample(t: string)
    requires t == "ROCK AND ROLL"
    ensures Occupations([t]) == ["rock and roll"]
  {
    assert Occupations([t]) == [Lower(t)] by {
      FirstCharAbsent(t, "and");
      UpperAndKept(t);
    }
    LowerSample();
  }

  // ---------------------------------------------------------------------------
  // Running time, Based on, and the generic rule

  /** `get_running_time`: the list-item texts when there are any, else every text of the row. */
  function GetRunningTime(items: seq<string>, texts: seq<string>): (r: seq<string>)
    ensures |items| > 0 ==> r == items
    ensures |items| == 0 ==> r == texts
  {
    if |items| > 0 then items else texts
  }

  /** `get_based_on`: one entity, the fragments joined by single spaces with every newline removed. */
  function GetBasedOn(texts: seq<string>): (r: seq<string>)
    ensures |r| == 1 && '\n' !in r[0]
  {
    var joined := Join(texts, " ");
    ReplaceChar(joined, '\n', "");
    SubstCharRemoves(joined, '\n', "");
    [Replace(joined, "\n", "")]
  }

  function DropNewlines(texts: seq<string>): seq<string> {
    if |texts| == 0 then [] else [SubstChar(texts[0], '\n', "")] + DropNewlines(texts[1..])
  }

  /** The combined entity is each fragment without its newlines, the fragments joined by single spaces. */
  lemma {:induction false} BasedOnPerFragment(texts: seq<string>)
    ensures GetBasedOn(texts)[0] == Join(DropNewlines(texts), " ")
  {
    ReplaceChar(Join(texts, " "), '\n', "");
    JoinDropNewlines(texts);
  }

  lemma {:induction false} JoinDropNewlines(texts: seq<string>)
    ensures SubstChar(Join(texts, " "), '\n', "") == Join(DropNewlines(texts), " ")
    decreases |texts|
  {
    if |texts| > 1 {
      var head, rest := texts[0], Join(texts[1..], " ");
      SubstCharAppend(head + " ", rest, '\n', "");
      SubstCharAppend(head, " ", '\n', "");
      assert SubstChar(" ", '\n', "") == " ";
      JoinDropNewlines(texts[1..]);
    } else if |texts| == 1 {
      assert DropNewlines(texts) == [SubstChar(texts[0], '\n', "")];
    }
  }

  /** The last path segment of each href, in order. */
  function LastSegments(links: seq<string>): (r: seq<string>)
    ensures |r| == |links|
  {
    seq(|links|, i requires 0 <= i < |links| => LastSegment(links[i]))
  }

  /** `get_rest`: the list of hrefs is rewritten in place to their last segments, then the non-link texts follow. */
  method GetRest(links: seq<string>, plainTexts: seq<string>) returns (entities: seq<string>)
    ensures entities == LastSegments(links) + plainTexts
  {
    var linkLst := new string[|links|](i requires 0 <= i < |links| => links[i]);
    for i := 0 to linkLst.Length
      invariant forall k :: 0 <= k < i ==> linkLst[k] == LastSegment(links[k])
      invariant forall k :: i <= k < linkLst.Length ==> linkLst[k] == links[k]
    {
      linkLst[i] := LastSegment(linkLst[i]);
    }
    entities := linkLst[..] + plainTexts;
  }

  /** Each generic candidate from a link is the '/'-free tail of its href. */
  lemma RestShape(links: seq<string>, plainTexts: seq<string>, k: nat)
    requires k < |links|
    ensures var r := LastSegments(links) + plainTexts;
      |r| == |links| + |plainTexts| && r[|links|..] == plainTexts
      && '/' !in r[k] && |r[k]| <= |links[k]| && links[k][|links[k]| - |r[k]|..] == r[k]
  {
    LastSegmentIsSuffix(links[k]);
    var r := LastSegments(links) + plainTexts;
    assert r[k] == LastSegment(links[k]);
  }

  // ---------------------------------------------------------------------------
  // Dispatch by relation header

  /** The candidates of one header of a film page (`crawler_level2`). */
  function FilmCandidates(header: string, q: RowQueries): seq<string> {
    if header == "Release date" then ReleaseDates(q.bday, q.texts)
    else if header == "Running time" then GetRunningTime(q.items, q.texts)
    else if header == "Based on" then GetBasedOn(q.texts)
    else LastSegments(q.links) + q.plainTexts
  }

  method FilmRowCandidates(header: string, q: RowQueries) returns (entities: seq<string>)
    ensures entities == FilmCandidates(header, q)
  {
    if header == "Release date" {
      entities := GetReleaseDate(q.bday, q.texts);
    } else if header == "Running time" {
      entities := GetRunningTime(q.items, q.texts);
    } else if header == "Based on" {
      entities := GetBasedOn(q.texts);
    } else {
      entities := GetRest(q.links, q.plainTexts);
    }
  }

  /** The candidates of one header of a person page (`crawler_level3`); only "Born" can raise. */
  function PersonCandidates(header: string, q: RowQueries): Result<seq<string>> {
    if header == "Born" then GetBday(q.bday, q.texts)
    else if header == "Occupation" then Ok(Occupations(q.texts))
    else Ok(q.texts)
  }

  method PersonRowCandidates(header: string, q: RowQueries) returns (entities: Result<seq<string>>)
    ensures entities == PersonCandidates(header, q)
  {
    if header == "Born" {
      entities := GetBday(q.bday, q.texts);
    } else if header == "Occupation" {
      var occupations := GetOccupation(q.texts);
      entities := Ok(occupations);
    } else {
      entities := Ok(q.texts);
    }
  }

  /** A person row fails exactly when it is a "Born" row with neither a `bday` text nor any other text. */
  lemma PersonCandidatesFail(header: string, q: RowQueries)
    ensures PersonCandidates(header, q).Raise? <==> header == "Born" && |q.bday| == 0 && |q.texts| == 0
  {
  }
}
