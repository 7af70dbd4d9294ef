/** The Python string built-ins the extractor and the query interpreter rely on:
    `in`, `split`, `split()`, `join`, `replace`, `strip`, `lower`, `isnumeric`,
    `isalnum`, `str(int)` and exceptions, stated over `seq<char>`. */
module PyString {

  /** The two exceptions the modelled code can raise. */
  datatype Exception = IndexError | ValueError

  /** A Python call either returns a value or raises. */
  datatype Result<T> = Ok(value: T) | Raise(error: Exception)

  datatype Option<T> = None | Some(value: T)

  /** `str.isspace` on one character: exactly the 29 code points Python treats as
      whitespace (used by `strip()` and `split()` without arguments). */
  predicate IsSpace(c: char) {
    var n := c as int;
    (9 <= n <= 13) || (28 <= n <= 32) || n == 0x85 || n == 0xA0 || n == 0x1680
    || (0x2000 <= n <= 0x200A) || n == 0x2028 || n == 0x2029 || n == 0x202F
    || n == 0x205F || n == 0x3000
  }

  predicate IsDigit(c: char) { '0' <= c <= '9' }

  predicate IsAsciiAlnum(c: char) { IsDigit(c) || 'a' <= c <= 'z' || 'A' <= c <= 'Z' }

  predicate IsUpper(c: char) { 'A' <= c <= 'Z' }

  /** `s.isnumeric()`, over ASCII: non-empty and every character a digit. */
  predicate IsNumeric(s: string) { |s| > 0 && forall i :: 0 <= i < |s| ==> IsDigit(s[i]) }

  /** `s.isalnum()`, over ASCII: non-empty and every character a letter or a digit. */
  predicate IsAlnum(s: string) { |s| > 0 && forall i :: 0 <= i < |s| ==> IsAsciiAlnum(s[i]) }

  function LowerChar(c: char): (d: char)
    ensures !IsUpper(d)
    ensures IsSpace(d) <==> IsSpace(c)
    ensures d == ',' <==> c == ','
  {
    if IsUpper(c) then (c as int + 32) as char else c
  }

  /** `s.lower()`, over ASCII. */
  function Lower(s: string): (r: string)
    ensures |r| == |s|
    ensures forall i :: 0 <= i < |s| ==> r[i] == LowerChar(s[i])
  {
    seq(|s|, i requires 0 <= i < |s| => LowerChar(s[i]))
  }

  // ---------------------------------------------------------------------------
  // Substrings

  /** `sub` occurs in `s` starting at index `j`. */
  predicate OccursAt(s: string, sub: string, j: int) {
    0 <= j && j + |sub| <= |s| && s[j..j + |sub|] == sub
  }

  /** `sub in s` for strings. */
  predicate Contains(s: string, sub: string) {
    exists j | 0 <= j <= |s| :: OccursAt(s, sub, j)
  }

  lemma ContainsFirstChar(s: string, sub: string)
    requires |sub| > 0 && Contains(s, sub)
    ensures sub[0] in s
  {
    var j :| 0 <= j <= |s| && OccursAt(s, sub, j);
    assert s[j] == s[j..j + |sub|][0];
  }

  /** For a one-character needle, `in` is plain membership. */
  lemma ContainsChar(s: string, c: char)
    ensures Contains(s, [c]) <==> c in s
  {
    if c in s {
      var j :| 0 <= j < |s| && s[j] == c;
      assert OccursAt(s, [c], j);
    }
    if Contains(s, [c]) {
      ContainsFirstChar(s, [c]);
    }
  }

  /** Past the first position, an occurrence in `s` is an occurrence in `s[1..]`, one place earlier. */
  lemma OccursShift(s: string, sep: string)
    requires |s| > 0
    ensures forall j :: 0 < j && OccursAt(s, sep, j) ==> OccursAt(s[1..], sep, j - 1)
    ensures forall j :: 0 <= j && OccursAt(s[1..], sep, j) ==> OccursAt(s, sep, j + 1)
  {
    forall j | 0 < j && OccursAt(s, sep, j) ensures OccursAt(s[1..], sep, j - 1) {
      assert s[1..][j - 1..j - 1 + |sep|] == s[j..j + |sep|];
    }
    forall j | 0 <= j && OccursAt(s[1..], sep, j) ensures OccursAt(s, sep, j + 1) {
      assert s[1..][j..j + |sep|] == s[j + 1..j + 1 + |sep|];
    }
  }

  /** `s.find(sep)`: the first index at which `sep` occurs, if any. */
  function Find(s: string, sep: string): (r: Option<nat>)
    requires |sep| > 0
    ensures r.Some? ==> OccursAt(s, sep, r.value)
    ensures r.Some? ==> forall j :: 0 <= j < r.value ==> !OccursAt(s, sep, j)
    ensures r.None? ==> !Contains(s, sep)
    decreases |s|
  {
    if |s| < |sep| then None
    else if s[..|sep|] == sep then Some(0)
    else
      OccursShift(s, sep);
      match Find(s[1..], sep)
      case None => None
      case Some(i) => Some(i + 1)
  }

  /** A prefix free of the separator's first character ends exactly where the separator begins. */
  lemma {:induction false} FindAfterFree(p: string, sep: string, rest: string)
    requires |sep| > 0 && sep[0] !in p
    ensures Find(p + sep + rest, sep) == Some(|p|)
    decreases |p|
  {
    var s := p + sep + rest;
    if |p| == 0 {
      assert s[..|sep|] == sep;
    } else {
      assert s[0] != sep[0];
      assert s[..|sep|] != sep;
      assert s[1..] == p[1..] + sep + rest;
      FindAfterFree(p[1..], sep, rest);
    }
  }

  /** A string free of the separator's first character does not contain it. */
  lemma FindInFree(p: string, sep: string)
    requires |sep| > 0 && sep[0] !in p
    ensures Find(p, sep) == None
  {
    if Contains(p, sep) {
      ContainsFirstChar(p, sep);
    }
  }

  // ---------------------------------------------------------------------------
  // split / join / replace

  /** `s.split(sep)` for a non-empty separator: cut at each occurrence, scanning left to right. */
  function Split(s: string, sep: string): (r: seq<string>)
    requires |sep| > 0
    ensures |r| >= 1
    decreases |s|
  {
    match Find(s, sep)
    case None => [s]
    case Some(i) => [s[..i]] + Split(s[i + |sep|..], sep)
  }

  /** `sep.join(parts)`. */
  function Join(parts: seq<string>, sep: string): string {
    if |parts| == 0 then ""
    else if |parts| == 1 then parts[0]
    else parts[0] + sep + Join(parts[1..], sep)
  }

  lemma JoinTwo(x: string, y: string, sep: string)
    ensures Join([x, y], sep) == x + sep + y
  {
    assert [x, y][1..] == [y];
  }

  lemma JoinCons(x: string, rest: seq<string>, sep: string)
    requires |rest| > 0
    ensures Join([x] + rest, sep) == x + sep + Join(rest, sep)
  {
    assert ([x] + rest)[1..] == rest;
  }

  lemma {:induction false} JoinSnoc(parts: seq<string>, last: string, sep: string)
    ensures Join(parts + [last], sep) == if |parts| == 0 then last else Join(parts, sep) + sep + last
    decreases |parts|
  {
    if |parts| == 1 {
      assert parts + [last] == [parts[0], last];
      JoinTwo(parts[0], last, sep);
    } else if |parts| > 1 {
      assert (parts + [last])[1..] == parts[1..] + [last];
      JoinSnoc(parts[1..], last, sep);
    } else {
      assert [] + [last] == [last];
    }
  }

  /** A character in no part and not in the separator is not in the joined string. */
  lemma {:induction false} JoinAvoidsChar(parts: seq<string>, sep: string, c: char)
    requires c !in sep && forall p :: p in parts ==> c !in p
    ensures c !in Join(parts, sep)
    decreases |parts|
  {
    if |parts| > 1 {
      assert parts[0] in parts;
      assert forall p :: p in parts[1..] ==> p in parts;
      JoinAvoidsChar(parts[1..], sep, c);
    } else if |parts| == 1 {
      assert parts[0] in parts;
    }
  }

  /** Joining the pieces of a split gives back the string. */
  lemma {:induction false} JoinSplit(s: string, sep: string)
    requires |sep| > 0
    ensures Join(Split(s, sep), sep) == s
    decreases |s|
  {
    match Find(s, sep)
    case None =>
    case Some(i) =>
      var rest := s[i + |sep|..];
      SplitAtFirst(s, sep, i);
      JoinSplit(rest, sep);
      JoinCons(s[..i], Split(rest, sep), sep);
      assert s == s[..i] + sep + rest;
  }

  /** No piece of a split contains the separator. */
  lemma {:induction false} SplitPiecesAvoidSep(s: string, sep: string)
    requires |sep| > 0
    ensures forall p :: p in Split(s, sep) ==> !Contains(p, sep)
    decreases |s|
  {
    match Find(s, sep)
    case None =>
    case Some(i) =>
      SplitPiecesAvoidSep(s[i + |sep|..], sep);
      forall j | OccursAt(s[..i], sep, j) ensures false {
        assert s[..i][j..j + |sep|] == s[j..j + |sep|];
        assert OccursAt(s, sep, j);
      }
  }

  /** Every character of a piece of a split comes from the string. */
  lemma {:induction false} SplitPiecesFromString(s: string, sep: string, c: char)
    requires |sep| > 0 && c !in s
    ensures forall p :: p in Split(s, sep) ==> c !in p
    decreases |s|
  {
    match Find(s, sep)
    case None =>
    case Some(i) =>
      assert c !in s[..i];
      assert c !in s[i + |sep|..];
      SplitPiecesFromString(s[i + |sep|..], sep, c);
  }

  /** Splitting a join gives back the parts when no part holds the separator's first character. */
  lemma {:induction false} SplitJoin(parts: seq<string>, sep: string)
    requires |sep| > 0 && |parts| >= 1
    requires forall p :: p in parts ==> sep[0] !in p
    ensures Split(Join(parts, sep), sep) == parts
    decreases |parts|
  {
    if |parts| == 1 {
      FindInFree(parts[0], sep);
    } else {
      var rest := Join(parts[1..], sep);
      FindAfterFree(parts[0], sep, rest);
      var s := parts[0] + sep + rest;
      assert s[..|parts[0]|] == parts[0];
      assert s[|parts[0]| + |sep|..] == rest;
      SplitJoin(parts[1..], sep);
      assert parts == [parts[0]] + parts[1..];
    }
  }

  /** Two pieces around one separator split back apart. */
  lemma SplitTwo(x: string, y: string, sep: string)
    requires |sep| > 0 && sep[0] !in x && sep[0] !in y
    ensures Split(x + sep + y, sep) == [x, y]
  {
    JoinTwo(x, y, sep);
    SplitJoin([x, y], sep);
  }

  /** A string whose first character of `sub` is missing cannot contain `sub`. */
  lemma FirstCharAbsent(s: string, sub: string)
    requires |sub| > 0 && sub[0] !in s
    ensures !Contains(s, sub)
  {
    if Contains(s, sub) {
      ContainsFirstChar(s, sub);
    }
  }

  lemma FindSomeContains(s: string, sep: string)
    requires |sep| > 0
    ensures Find(s, sep).Some? ==> Contains(s, sep)
  {
    if Find(s, sep).Some? {
      assert OccursAt(s, sep, Find(s, sep).value);
    }
  }

  /** The first occurrence, when it is known, is what `find` reports. */
  lemma FindFirstAt(s: string, sep: string, i: nat)
    requires |sep| > 0 && OccursAt(s, sep, i)
    requires forall j :: 0 <= j < i ==> !OccursAt(s, sep, j)
    ensures Find(s, sep) == Some(i)
  {
    assert Contains(s, sep);
  }

  /** A string that does not contain the separator is one piece. */
  lemma SplitFree(s: string, sep: string)
    requires |sep| > 0 && !Contains(s, sep)
    ensures Split(s, sep) == [s]
  {
    FindSomeContains(s, sep);
  }

  /** Two separator-free pieces around one separator split back apart, provided the
      last character of the first piece is not in the separator (so no occurrence
      straddles the join). */
  lemma SplitTwoFree(x: string, y: string, sep: string)
    requires |sep| > 0 && |x| > 0 && x[|x| - 1] !in sep
    requires !Contains(x, sep) && !Contains(y, sep)
    ensures Split(x + sep + y, sep) == [x, y]
  {
    var s := x + sep + y;
    assert s[|x|..|x| + |sep|] == sep;
    forall j | 0 <= j < |x| ensures !OccursAt(s, sep, j) {
      if j + |sep| <= |x| {
        assert s[j..j + |sep|] == x[j..j + |sep|];
        assert !OccursAt(x, sep, j);
      } else if j + |sep| <= |s| {
        assert s[j..j + |sep|][|x| - 1 - j] == x[|x| - 1];
      }
    }
    FindFirstAt(s, sep, |x|);
    assert s[..|x|] == x;
    assert s[|x| + |sep|..] == y;
    SplitFree(y, sep);
  }

  /** Padding a word with a space on either side creates no occurrence of a separator without spaces. */
  lemma SpacedFree(w: string, sep: string, left: string, right: string)
    requires |sep| > 0 && ' ' !in sep && !Contains(w, sep)
    requires (left == "" || left == " ") && (right == "" || right == " ")
    ensures !Contains(left + w + right, sep)
  {
    var s := left + w + right;
    forall j | 0 <= j <= |s| ensures !OccursAt(s, sep, j) {
      if j + |sep| <= |s| {
        if j < |left| {
          assert s[j..j + |sep|][0] == ' ';
        } else if j + |sep| > |left| + |w| {
          assert s[j..j + |sep|][|left| + |w| - j] == ' ';
        } else {
          assert s[j..j + |sep|] == w[j - |left|..j - |left| + |sep|];
          assert !OccursAt(w, sep, j - |left|);
        }
      }
    }
  }

  /** `s.replace(pat, rep)` for a non-empty `pat`: Python replaces left to right,
      without overlap, which is exactly splitting on `pat` and joining with `rep`. */
  function Replace(s: string, pat: string, rep: string): string
    requires |pat| > 0
  {
    Join(Split(s, pat), rep)
  }

  /** Reference definition of replacing one character: each `c` becomes `t`. */
  function SubstChar(s: string, c: char, t: string): string {
    if |s| == 0 then ""
    else (if s[0] == c then t else [s[0]]) + SubstChar(s[1..], c, t)
  }

  lemma JoinConsHead(x: string, p: string, ps: seq<string>, sep: string)
    ensures Join([x + p] + ps, sep) == x + Join([p] + ps, sep)
  {
    if |ps| > 0 {
      assert ([x + p] + ps)[1..] == ps;
      assert ([p] + ps)[1..] == ps;
    }
  }

  /** When the separator does not start the string, the search continues one character on. */
  lemma FindSkip(s: string, sep: string)
    requires |sep| > 0 && |s| > 0 && !OccursAt(s, sep, 0)
    ensures Find(s, sep) == match Find(s[1..], sep) { case None => None case Some(i) => Some(i + 1) }
  {
  }

  lemma SplitAtFirstShape(s: string, sep: string, i: nat, head: string, tail: string)
    requires |sep| > 0 && Find(s, sep) == Some(i)
    requires head == s[..i] && tail == s[i + |sep|..]
    ensures Split(s, sep) == [head] + Split(tail, sep)
  {
  }

  /** Split cuts at the first occurrence of the separator. */
  lemma SplitAtFirst(s: string, sep: string, i: nat)
    requires |sep| > 0 && Find(s, sep) == Some(i)
    ensures i + |sep| <= |s|
    ensures Split(s, sep) == [s[..i]] + Split(s[i + |sep|..], sep)
  {
    assert OccursAt(s, sep, i);
    SplitAtFirstShape(s, sep, i, s[..i], s[i + |sep|..]);
  }

  /** With no separator after the first character, neither string is cut. */
  lemma SplitNotFirstNone(s: string, t: string, c: char)
    requires |s| > 0 && s[0] != c && t == s[1..] && Find(t, [c]).None?
    ensures Split(s, [c]) == [[s[0]] + t] && Split(t, [c]) == [t]
  {
    assert s[..1] != [c];
    FindSkip(s, [c]);
    assert s == [s[0]] + t;
  }

  /** The first separator after the first character cuts both strings at the same place. */
  lemma SplitNotFirstSome(s: string, t: string, c: char, i: nat)
    requires |s| > 0 && s[0] != c && t == s[1..] && Find(t, [c]) == Some(i)
    ensures |Split(s, [c])| == |Split(t, [c])|
    ensures Split(s, [c])[0] == [s[0]] + Split(t, [c])[0]
    ensures Split(s, [c])[1..] == Split(t, [c])[1..]
  {
    assert s[..1] != [c];
    FindSkip(s, [c]);
    SplitAtFirst(s, [c], i + 1);
    SplitAtFirst(t, [c], i);
    var rest := Split(t[i + 1..], [c]);
    assert s[i + 2..] == t[i + 1..];
    assert s[..i + 1] == [s[0]] + t[..i];
    var ss, st := Split(s, [c]), Split(t, [c]);
    assert ss == [[s[0]] + t[..i]] + rest && st == [t[..i]] + rest;
    assert ss[1..] == rest && st[1..] == rest;
  }

  /** Splitting on a character that does not start the string extends the first piece. */
  lemma SplitOnCharNotFirst(s: string, c: char)
    requires |s| > 0 && s[0] != c
    ensures |Split(s, [c])| == |Split(s[1..], [c])|
    ensures Split(s, [c])[0] == [s[0]] + Split(s[1..], [c])[0]
    ensures Split(s, [c])[1..] == Split(s[1..], [c])[1..]
  {
    match Find(s[1..], [c])
    case None =>
      SplitNotFirstNone(s, s[1..], c);
    case Some(i) =>
      SplitNotFirstSome(s, s[1..], c, i);
  }

  /** `replace` of a one-character string agrees with the reference definition. */
  lemma {:induction false} ReplaceChar(s: string, c: char, t: string)
    ensures Replace(s, [c], t) == SubstChar(s, c, t)
    decreases |s|
  {
    if |s| == 0 {
    } else if s[0] == c {
      assert s[..1] == [c];
      var tail := Split(s[1..], [c]);
      assert Split(s, [c]) == [""] + tail;
      assert ([""] + tail)[1..] == tail;
      ReplaceChar(s[1..], c, t);
    } else {
      var tail := Split(s[1..], [c]);
      SplitOnCharNotFirst(s, c);
      var whole := Split(s, [c]);
      assert whole == [whole[0]] + whole[1..];
      JoinConsHead([s[0]], tail[0], tail[1..], t);
      assert [tail[0]] + tail[1..] == tail;
      ReplaceChar(s[1..], c, t);
    }
  }

  lemma {:induction false} SubstCharAppend(a: string, b: string, c: char, t: string)
    ensures SubstChar(a + b, c, t) == SubstChar(a, c, t) + SubstChar(b, c, t)
    decreases |a|
  {
    if |a| == 0 {
      assert a + b == b;
    } else {
      assert (a + b)[0] == a[0];
      assert (a + b)[1..] == a[1..] + b;
      SubstCharAppend(a[1..], b, c, t);
    }
  }

  /** After the replacement, `c` is gone unless `t` brings it back. */
  lemma {:induction false} SubstCharRemoves(s: string, c: char, t: string)
    requires c !in t
    ensures c !in SubstChar(s, c, t)
    decreases |s|
  {
    if |s| > 0 {
      SubstCharRemoves(s[1..], c, t);
    }
  }

  /** Other characters are neither added nor lost, except those `t` brings. */
  lemma {:induction false} SubstCharKeeps(s: string, c: char, t: string, d: char)
    requires d != c
    ensures d in s ==> d in SubstChar(s, c, t)
    ensures d !in t ==> (d in SubstChar(s, c, t) <==> d in s)
    decreases |s|
  {
    if |s| > 0 {
      SubstCharKeeps(s[1..], c, t, d);
      assert s == [s[0]] + s[1..];
    }
  }

  /** Replacing a character by another character keeps the length and works position by position. */
  lemma {:induction false} SubstCharByChar(s: string, c: char, d: char)
    ensures |SubstChar(s, c, [d])| == |s|
    ensures forall i :: 0 <= i < |s| ==> SubstChar(s, c, [d])[i] == if s[i] == c then d else s[i]
    decreases |s|
  {
    if |s| > 0 {
      SubstCharByChar(s[1..], c, d);
    }
  }

  /** A string without `c` is left alone. */
  lemma {:induction false} SubstCharAbsent(s: string, c: char, t: string)
    requires c !in s
    ensures SubstChar(s, c, t) == s
    decreases |s|
  {
    if |s| > 0 {
      SubstCharAbsent(s[1..], c, t);
    }
  }

  // ---------------------------------------------------------------------------
  // strip / split()

  /** `s.lstrip()`. */
  function TrimLeft(s: string): (r: string)
    ensures |r| <= |s| && r == s[|s| - |r|..]
    ensures forall i :: 0 <= i < |s| - |r| ==> IsSpace(s[i])
    ensures r == "" || !IsSpace(r[0])
  {
    if |s| > 0 && IsSpace(s[0]) then TrimLeft(s[1..]) else s
  }

  /** `s.rstrip()`. */
  function TrimRight(s: string): (r: string)
    ensures |r| <= |s| && r == s[..|r|]
    ensures forall i :: |r| <= i < |s| ==> IsSpace(s[i])
    ensures r == "" || !IsSpace(r[|r| - 1])
  {
    if |s| > 0 && IsSpace(s[|s| - 1]) then TrimRight(s[..|s| - 1]) else s
  }

  /** `s.strip()`: what is left has no whitespace at either end, and only whitespace was cut. */
  function Strip(s: string): (r: string)
    ensures r == "" || (!IsSpace(r[0]) && !IsSpace(r[|r| - 1]))
    ensures |r| <= |s| && forall c :: c in r ==> c in s
  {
    var l := TrimLeft(s);
    var r := TrimRight(l);
    assert r != "" ==> r[0] == l[0];
    r
  }

  /** A string with no whitespace at either end is its own strip. */
  lemma StripUnpadded(s: string)
    requires |s| > 0 && !IsSpace(s[0]) && !IsSpace(s[|s| - 1])
    ensures Strip(s) == s
  {
    assert TrimLeft(s) == s;
    assert TrimRight(s) == s;
  }

  /** Length of the leading run of non-whitespace characters. */
  function WordEnd(s: string): (k: nat)
    ensures k <= |s|
    ensures forall i :: 0 <= i < k ==> !IsSpace(s[i])
    ensures k == |s| || IsSpace(s[k])
  {
    if |s| == 0 || IsSpace(s[0]) then 0 else 1 + WordEnd(s[1..])
  }

  /** A word without whitespace. */
  predicate IsWord(w: string) { |w| > 0 && forall i :: 0 <= i < |w| ==> !IsSpace(w[i]) }

  /** `s.split()`: the maximal runs of non-whitespace characters, in order. */
  function SplitWs(s: string): (r: seq<string>)
    ensures forall w :: w in r ==> IsWord(w)
    decreases |s|
  {
    var t := TrimLeft(s);
    if t == "" then []
    else
      var k := WordEnd(t);
      assert IsWord(t[..k]);
      [t[..k]] + SplitWs(t[k..])
  }

  /** Every word of `split()` is made of characters of the string. */
  lemma {:induction false} SplitWsAvoidsChar(s: string, c: char)
    requires c !in s
    ensures forall w :: w in SplitWs(s) ==> c !in w
    decreases |s|
  {
    var t := TrimLeft(s);
    if t != "" {
      var k := WordEnd(t);
      assert c !in t[..k] && c !in t[k..];
      SplitWsAvoidsChar(t[k..], c);
    }
  }

  /** `split()` undoes joining words with single spaces. */
  lemma SplitWsJoin(ws: seq<string>)
    requires forall w :: w in ws ==> IsWord(w)
    ensures SplitWs(Join(ws, " ")) == ws
  {
    forall i | 0 <= i < |ws| ensures IsWord(ws[i]) {
      assert ws[i] in ws;
    }
    SplitWsJoinWords(ws);
  }

  lemma {:induction false} SplitWsJoinWords(ws: seq<string>)
    requires forall i :: 0 <= i < |ws| ==> IsWord(ws[i])
    ensures SplitWs(Join(ws, " ")) == ws
    decreases |ws|
  {
    if |ws| == 0 {
      SplitWsJoinNone(ws);
    } else if |ws| == 1 {
      SplitWsJoinOne(ws);
    } else {
      var tail := ws[1..];
      assert forall i :: 0 <= i < |tail| ==> tail[i] == ws[i + 1];
      SplitWsJoinWords(tail);
      SplitWsJoinStep(ws, ws[0], tail);
    }
  }

  lemma SplitWsJoinNone(ws: seq<string>)
    requires |ws| == 0
    ensures SplitWs(Join(ws, " ")) == ws
  {
  }

  lemma SplitWsJoinOne(ws: seq<string>)
    requires |ws| == 1 && IsWord(ws[0])
    ensures SplitWs(Join(ws, " ")) == ws
  {
    SplitWsOneWord(ws[0]);
  }

  lemma SplitWsJoinStep(ws: seq<string>, w: string, tail: seq<string>)
    requires IsWord(w) && |tail| > 0 && ws == [w] + tail
    requires SplitWs(Join(tail, " ")) == tail
    ensures SplitWs(Join(ws, " ")) == ws
  {
    JoinCons(w, tail, " ");
    SplitWsAfterWord(w, Join(tail, " "));
  }

  lemma SplitWsAfterWord(w: string, rest: string)
    requires IsWord(w)
    ensures SplitWs(w + " " + rest) == [w] + SplitWs(rest)
  {
    assert w + " " + rest == w + (" " + rest);
    SplitWsWordThen(w, " " + rest);
    assert (" " + rest)[1..] == rest;
    SplitWsSkipsSpace(" " + rest);
  }

  /** A word followed by whitespace (or nothing) is the first token. */
  lemma SplitWsWordThen(w: string, rest: string)
    requires IsWord(w)
    requires rest == "" || IsSpace(rest[0])
    ensures SplitWs(w + rest) == [w] + SplitWs(rest)
  {
    var s := w + rest;
    assert s[0] == w[0];
    assert TrimLeft(s) == s;
    WordEndOfWord(w, rest);
    assert s[..|w|] == w;
    assert s[|w|..] == rest;
  }

  lemma {:induction false} WordEndOfWord(w: string, rest: string)
    requires IsWord(w)
    requires rest == "" || IsSpace(rest[0])
    ensures WordEnd(w + rest) == |w|
    decreases |w|
  {
    if |w| > 1 {
      assert (w + rest)[1..] == w[1..] + rest;
      assert IsWord(w[1..]);
      WordEndOfWord(w[1..], rest);
    } else {
      assert (w + rest)[1..] == rest;
    }
  }

  /** `split()` ignores leading whitespace. */
  lemma SplitWsSkipsSpace(s: string)
    requires |s| > 0 && IsSpace(s[0])
    ensures SplitWs(s) == SplitWs(s[1..])
  {
    assert TrimLeft(s) == TrimLeft(s[1..]);
    var t := TrimLeft(s[1..]);
    if t != "" {
      assert TrimLeft(t) == t;
    }
  }

  /** A single word splits into itself. */
  lemma SplitWsOneWord(w: string)
    requires IsWord(w)
    ensures SplitWs(w) == [w]
  {
    assert TrimLeft(w) == w;
    WordEndOfWord(w, "");
    assert w + "" == w;
    assert w[|w|..] == "";
  }

  // ---------------------------------------------------------------------------
  // Slices and list.index

  /** `s[lo:hi]` for non-negative bounds: Python clamps both to the length. */
  function Slice<T>(s: seq<T>, lo: nat, hi: nat): (r: seq<T>)
    ensures lo <= hi <= |s| ==> r == s[lo..hi]
    ensures hi <= lo ==> r == []
  {
    var a := if lo < |s| then lo else |s|;
    var b := if hi < |s| then hi else |s|;
    if a < b then s[a..b] else []
  }

  /** `ts.index(w)`: the first position of `w`; Python raises ValueError when there is none. */
  function Index(ts: seq<string>, w: string): (r: Result<nat>)
    ensures r.Ok? ==> r.value < |ts| && ts[r.value] == w && w !in ts[..r.value]
    ensures r.Raise? ==> r.error == ValueError && w !in ts
  {
    if ts == [] then Raise(ValueError)
    else if ts[0] == w then Ok(0)
    else match Index(ts[1..], w)
      case Raise(e) => Raise(e)
      case Ok(i) =>
        assert ts[..i + 1] == [ts[0]] + ts[1..][..i];
        Ok(i + 1)
  }

  /** The first occurrence is found after a prefix that lacks the word. */
  lemma {:induction false} IndexAfter(p: seq<string>, w: string, rest: seq<string>)
    requires w !in p
    ensures Index(p + [w] + rest, w) == Ok(|p|)
    decreases |p|
  {
    if |p| > 0 {
      assert (p + [w] + rest)[1..] == p[1..] + [w] + rest;
      IndexAfter(p[1..], w, rest);
    }
  }

  // ---------------------------------------------------------------------------
  // Last path segment and str(int)

  /** `s.split('/')[-1]`. */
  function LastSegment(s: string): string {
    var parts := Split(s, "/");
    parts[|parts| - 1]
  }

  /** The last segment is the suffix of `s` after its last '/', or all of `s` when there is none. */
  lemma {:induction false} LastSegmentIsSuffix(s: string)
    ensures var seg := LastSegment(s);
      |seg| <= |s| && s[|s| - |seg|..] == seg && '/' !in seg
      && (|seg| == |s| || s[|s| - |seg| - 1] == '/')
    decreases |s|
  {
    match Find(s, "/")
    case None =>
      if '/' in s {
        var j :| 0 <= j < |s| && s[j] == '/';
        assert OccursAt(s, "/", j);
      }
    case Some(i) =>
      var tail := s[i + 1..];
      LastSegmentIsSuffix(tail);
      var parts := Split(tail, "/");
      assert Split(s, "/") == [s[..i]] + parts;
      assert LastSegment(s) == LastSegment(tail);
      assert s[i..i + 1] == "/";
  }

  /** Any '/'-free suffix that follows a '/' (or is the whole string) is the last segment. */
  lemma LastSegmentUnique(s: string, seg: string)
    requires |seg| <= |s| && s[|s| - |seg|..] == seg && '/' !in seg
    requires |seg| == |s| || s[|s| - |seg| - 1] == '/'
    ensures LastSegment(s) == seg
  {
    var last := LastSegment(s);
    LastSegmentIsSuffix(s);
    assert s[|s| - |seg|..] == s[|s| - |last|..];
  }

  /** Whatever precedes a '/' does not affect the last segment. */
  lemma LastSegmentAfterSlash(a: string, b: string)
    ensures LastSegment(a + "/" + b) == LastSegment(b)
  {
    var seg := LastSegment(b);
    LastSegmentIsSuffix(b);
    var s := a + "/" + b;
    assert s[|s| - |b|..] == b;
    assert s[|s| - |seg|..] == b[|b| - |seg|..];
    if |seg| == |b| {
      assert s[|s| - |seg| - 1] == '/';
    } else {
      assert s[|s| - |seg| - 1] == b[|b| - |seg| - 1];
    }
    LastSegmentUnique(s, seg);
  }

  function DigitChar(d: nat): (c: char)
    requires d < 10
    ensures IsDigit(c)
  {
    ('0' as int + d) as char
  }

  function DigitValue(c: char): (d: nat)
    requires IsDigit(c)
    ensures d < 10
  {
    c as int - '0' as int
  }

  /** `str(n)` for a natural number: its decimal digits, without leading zeros. */
  function NatToString(n: nat): (r: string)
    ensures |r| >= 1 && (forall i :: 0 <= i < |r| ==> IsDigit(r[i]))
    ensures r[0] == '0' ==> n == 0
  {
    if n < 10 then [DigitChar(n)] else NatToString(n / 10) + [DigitChar(n % 10)]
  }

  /** `int(s)` for a string of digits. */
  function ParseNat(s: string): nat
    requires forall i :: 0 <= i < |s| ==> IsDigit(s[i])
  {
    if |s| == 0 then 0 else 10 * ParseNat(s[..|s| - 1]) + DigitValue(s[|s| - 1])
  }

  /** Reading back the decimal string gives the number. */
  lemma {:induction false} ParseNatToString(n: nat)
    ensures ParseNat(NatToString(n)) == n
  {
    if n >= 10 {
      var r := NatToString(n);
      assert r[..|r| - 1] == NatToString(n / 10);
      ParseNatToString(n / 10);
    }
  }

  // ---------------------------------------------------------------------------
  // Prefixes of lists, stated once for any element type

  /** Proof helper: the full prefix is the list. */
  lemma TakeAll<T>(s: seq<T>)
    ensures s[..|s|] == s
  {
  }

  /** Proof helper: a prefix one longer is the shorter prefix plus one element. */
  lemma TakeStep<T>(s: seq<T>, i: nat)
    requires i < |s|
    ensures s[..i + 1][..i] == s[..i] && s[..i + 1][i] == s[i]
    ensures s[..i + 1] == s[..i] + [s[i]]
  {
  }

  /** Proof helper: a non-empty list is its front plus its last element. */
  lemma InitLast<T>(s: seq<T>)
    requires |s| > 0
    ensures s == s[..|s| - 1] + [s[|s| - 1]]
  {
  }

  /** Proof helper: concatenation is associative. */
  lemma AppendAssoc<T>(a: seq<T>, b: seq<T>, c: seq<T>)
    ensures a + b + c == a + (b + c)
  {
  }

  /** Taking one element out of two equal multisets of lists. */
  lemma MultisetRemove<T>(a: seq<T>, b: seq<T>, k: nat)
    requires multiset(a) == multiset(b) && |a| > 0 && k < |b| && b[k] == a[|a| - 1]
    ensures multiset(b[..k] + b[k + 1..]) == multiset(a[..|a| - 1])
  {
    var x := b[k];
    assert b == b[..k] + [x] + b[k + 1..];
    assert a == a[..|a| - 1] + [x];
    calc {
      multiset(b);
      multiset(b[..k] + [x] + b[k + 1..]);
      multiset(b[..k]) + multiset{x} + multiset(b[k + 1..]);
      multiset(b[..k] + b[k + 1..]) + multiset{x};
    }
    assert multiset(a) == multiset(a[..|a| - 1]) + multiset{x};
    var r, i := multiset(b[..k] + b[k + 1..]), multiset(a[..|a| - 1]);
    forall y ensures r[y] == i[y] {
      assert (r + multiset{x})[y] == (i + multiset{x})[y];
    }
  }

  /** Proof helper: inserting an element anywhere adds it to the multiset. */
  lemma MultisetInsert<T>(p: seq<T>, y: T, q: seq<T>)
    ensures multiset(p + [y] + q) == multiset(p + q) + multiset{y}
  {
  }

  /** Proof helper: dropping a prefix of known length. */
  lemma DropPrefix<T>(p: seq<T>, rest: seq<T>)
    ensures (p + rest)[|p|..] == rest
  {
  }

  /** Proof helper: the middle part of a three-part concatenation. */
  lemma MiddleOf<T>(a: seq<T>, m: seq<T>, b: seq<T>)
    ensures (a + m + b)[|a|..|a| + |m|] == m
  {
  }
}
