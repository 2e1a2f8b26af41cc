/**
 grep: the matcher against what a pattern means, and the loop that feeds it lines.
 */
module Grep {
  // ----- what a pattern means -----

  /** One character, a run of them, or the end of the text. */
  datatype Item = One(c: char) | Star(c: char) | End

  /** How a pattern (without a leading ^) reads: a character before a * is a run, even a * or a $; a $
      is the end only as the last character. */
  function Parse(re: string): (items: seq<Item>) {
    if re == "" then []
    else if |re| > 1 && re[1] == '*' then [Star(re[0])] + Parse(re[2..])
    else if re == "$" then [End]
    else [One(re[0])] + Parse(re[1..])
  }

  function Show(items: seq<Item>): (re: string) {
    if items == [] then ""
    else (match items[0] case One(c) => [c] case Star(c) => [c, '*'] case End => "$") + Show(items[1..])
  }

  /** No character before a * stands for itself, and a $ is the end exactly as the last character. */
  predicate Proper(items: seq<Item>) {
    && (forall k :: 0 <= k < |items| ==> (items[k].End? ==> k == |items| - 1))
    && (forall k :: 0 <= k < |items| && items[k] == One('$') ==> k < |items| - 1)
    && (forall k :: 0 <= k < |items| - 1 && items[k].One? ==> items[k + 1] != One('*') && items[k + 1] != Star('*'))
  }

  /** Every pattern has a reading, and the reading says all of it. */
  lemma {:induction false} ParseShow(re: string)
    ensures Show(Parse(re)) == re && Proper(Parse(re))
    ensures re != "" ==> Parse(re) != [] && (re[0] != '*' ==> Parse(re)[0] != One('*') && Parse(re)[0] != Star('*'))
    decreases |re|
  {
    if re == "" {
    } else if |re| > 1 && re[1] == '*' {
      ParseShow(re[2..]);
      assert Parse(re)[1..] == Parse(re[2..]);
      assert re == [re[0], '*'] + re[2..];
    } else if re == "$" {
      assert Parse(re)[1..] == [];
    } else {
      ParseShow(re[1..]);
      assert Parse(re)[1..] == Parse(re[1..]);
      assert re == [re[0]] + re[1..];
    }
  }

  /** It is the only such reading: every proper sequence of items is the reading of what it looks like. */
  lemma {:induction false} ShowParse(items: seq<Item>)
    requires Proper(items)
    ensures Parse(Show(items)) == items
    decreases |items|
  {
    hide Parse;
    if items == [] {
      ParseNone();
    } else {
      var rest := items[1..];
      assert Proper(rest);
      ShowParse(rest);
      assert items == [items[0]] + rest;
      ParseFirst(items);
    }
  }

  lemma {:induction false} ParseNone()
    ensures Parse("") == []
  {
  }

  lemma {:induction false} ParseFirst(items: seq<Item>)
    requires Proper(items) && items != []
    ensures Parse(Show(items)) == [items[0]] + Parse(Show(items[1..]))
  {
    var re, rest := Show(items), items[1..];
    match items[0]
    case Star(c) => assert re[2..] == Show(rest);
    case End => assert re == "$";
    case One(c) =>
      assert re == [c] + Show(rest) && re[1..] == Show(rest);
      if rest == [] {
        assert items[0] != One('$');
      } else {
        FirstChar(rest);
        assert rest[0] == items[1] && re[1] == Show(rest)[0];
      }
  }

  lemma {:induction false} FirstChar(items: seq<Item>)
    requires items != []
    ensures Show(items) != "" && Show(items)[0] == if items[0].End? then '$' else items[0].c
  {
  }

  predicate Fits(c: char, x: char) { c == '.' || c == x }
  predicate AllFit(c: char, w: string) { forall k :: 0 <= k < |w| ==> Fits(c, w[k]) }

  /** The word w is in the language of the items; `last` says that nothing follows w in the text. */
  ghost predicate Lang(items: seq<Item>, w: string, last: bool)
    decreases |items|
  {
    if items == [] then w == ""
    else match items[0]
      case One(c) => w != "" && Fits(c, w[0]) && Lang(items[1..], w[1..], last)
      case Star(c) => exists k: nat :: k <= |w| && AllFit(c, w[..k]) && Lang(items[1..], w[k..], last)
      case End => last && Lang(items[1..], w, last) && w == ""
  }

  /** Some prefix of the text is in the language. */
  ghost predicate Here(items: seq<Item>, text: string) {
    exists j: nat :: j <= |text| && Lang(items, text[..j], j == |text|)
  }

  /** The text matches the pattern: some part of it, at the front if the pattern starts with ^, is in
      the language. */
  ghost predicate Matches(re: string, text: string) {
    if re != "" && re[0] == '^' then Here(Parse(re[1..]), text)
    else exists i: nat, j: nat :: i <= j <= |text| && Lang(Parse(re), text[i..j], j == |text|)
  }

  // ----- each item -----

  lemma {:induction false} HereNone(text: string)
    ensures Here([], text)
  {
    assert Lang([], text[..0], 0 == |text|);
  }

  lemma {:induction false} HereEnd(text: string)
    ensures Here([End], text) <==> text == ""
  {
    if text == "" { assert Lang([End], text[..0], true); }
  }

  lemma {:induction false} HereOne(c: char, rest: seq<Item>, text: string)
    ensures Here([One(c)] + rest, text) <==> text != "" && Fits(c, text[0]) && Here(rest, text[1..])
  {
    var items := [One(c)] + rest;
    assert items[1..] == rest;
    if j: nat :| j <= |text| && Lang(items, text[..j], j == |text|) {
      assert text[..j][1..] == text[1..][..j - 1];
    }
    if text != "" && Fits(c, text[0]) && Here(rest, text[1..]) {
      var j: nat :| j <= |text[1..]| && Lang(rest, text[1..][..j], j == |text[1..]|);
      assert text[..j + 1][1..] == text[1..][..j];
      assert Lang(items, text[..j + 1], j + 1 == |text|);
    }
  }

  lemma {:induction false} HereStar(c: char, rest: seq<Item>, text: string)
    ensures Here([Star(c)] + rest, text) <==>
              exists k: nat :: k <= |text| && AllFit(c, text[..k]) && Here(rest, text[k..])
  {
    var items := [Star(c)] + rest;
    assert items[1..] == rest;
    if j: nat :| j <= |text| && Lang(items, text[..j], j == |text|) {
      var k: nat :| k <= j && AllFit(c, text[..j][..k]) && Lang(rest, text[..j][k..], j == |text|);
      assert text[..j][..k] == text[..k];
      assert text[..j][k..] == text[k..][..j - k];
      assert Here(rest, text[k..]);
    }
    if k: nat :| k <= |text| && AllFit(c, text[..k]) && Here(rest, text[k..]) {
      var j: nat :| j <= |text[k..]| && Lang(rest, text[k..][..j], j == |text[k..]|);
      assert text[..k + j][..k] == text[..k];
      assert text[..k + j][k..] == text[k..][..j];
      assert Lang(items, text[..k + j], k + j == |text|);
    }
  }

  // ----- the matcher -----

  /** matchhere: is some prefix of the text in the pattern's language? */
  method MatchHere(re: string, text: string) returns (b: bool)
    ensures b <==> Here(Parse(re), text)
    decreases |re|, 0
  {
    if re == "" {
      HereNone(text);
      return true;
    }
    if |re| > 1 && re[1] == '*' {
      HereStar(re[0], Parse(re[2..]), text);
      b := MatchStar(re[0], re[2..], text);
      return;
    }
    if re[0] == '$' && |re| == 1 {
      HereEnd(text);
      return text == "";
    }
    HereOne(re[0], Parse(re[1..]), text);
    if text != "" && (re[0] == '.' || re[0] == text[0]) {
      b := MatchHere(re[1..], text[1..]);
      return;
    }
    b := false;
  }

  /** matchstar: is some prefix of the text a run of c followed by a word of the pattern's? */
  method MatchStar(c: char, re: string, text: string) returns (b: bool)
    ensures b <==> exists k: nat :: k <= |text| && AllFit(c, text[..k]) && Here(Parse(re), text[k..])
    decreases |re|, 1
  {
    var t := 0;
    while true
      invariant 0 <= t <= |text| && AllFit(c, text[..t])
      invariant forall k: nat :: k < t ==> !Here(Parse(re), text[k..])
      decreases |text| - t
    {
      b := MatchHere(re, text[t..]);
      if b { return; }
      if t == |text| || !(text[t] == c || c == '.') { break; }
      t := t + 1;
    }
    forall k: nat | k <= |text| && AllFit(c, text[..k]) ensures !Here(Parse(re), text[k..]) {
      if t < |text| && k > t { FitsAt(c, text, k, t); }
    }
  }

  lemma {:induction false} FitsAt(c: char, text: string, k: nat, t: nat)
    requires t < k <= |text| && AllFit(c, text[..k])
    ensures Fits(c, text[t])
  {
    assert text[..k][t] == text[t];
  }

  lemma {:induction false} Anywhere(items: seq<Item>, text: string)
    ensures (exists i: nat :: i <= |text| && Here(items, text[i..])) <==>
            (exists i: nat, j: nat :: i <= j <= |text| && Lang(items, text[i..j], j == |text|))
  {
    if i: nat :| i <= |text| && Here(items, text[i..]) {
      var j: nat :| j <= |text[i..]| && Lang(items, text[i..][..j], j == |text[i..]|);
      assert text[i..][..j] == text[i..i + j];
      assert Lang(items, text[i..i + j], i + j == |text|);
    }
    if i: nat, j: nat :| i <= j <= |text| && Lang(items, text[i..j], j == |text|) {
      assert text[i..][..j - i] == text[i..j];
      assert Here(items, text[i..]);
    }
  }

  /** match: does some part of the text belong to the pattern's language? */
  method Match(re: string, text: string) returns (b: bool)
    ensures b <==> Matches(re, text)
  {
    if re != "" && re[0] == '^' {
      b := MatchHere(re[1..], text);
      return;
    }
    Anywhere(Parse(re), text);
    var t := 0;
    while true
      invariant 0 <= t <= |text| && forall i: nat :: i < t ==> !Here(Parse(re), text[i..])
      decreases |text| - t
    {
      b := MatchHere(re, text[t..]);
      if b { return; }
      if t == |text| { break; }
      t := t + 1;
    }
  }

  // ----- grep -----

  const SIZE: nat := 1024

  // ----- what grep is for -----

  /** A line of the input, and whether a newline ends it. */
  datatype Line = Line(text: string, ended: bool)

  // Where the first character of cs is in s, or |s|.
  function First(s: string, cs: set<char>): (k: nat)
    ensures k <= |s| && (k < |s| ==> s[k] in cs) && forall j :: 0 <= j < k ==> s[j] !in cs
  { if s == "" || s[0] in cs then 0 else First(s[1..], cs) + 1 }

  function Newline(s: string): nat { First(s, {'\n'}) }

  function LinesOf(s: string): (ls: seq<Line>) {
    var k := Newline(s);
    if s == "" then [] else if k == |s| then [Line(s, false)] else [Line(s[..k], true)] + LinesOf(s[k + 1..])
  }

  function Shown(l: Line): string { l.text + if l.ended then "\n" else "" }

  /** The lines that match, in order. */
  ghost function Matching(re: string, ls: seq<Line>): (out: string) {
    if ls == [] then ""
    else (if Matches(re, ls[0].text) then Shown(ls[0]) else "") + Matching(re, ls[1..])
  }

  /** The lines of the input are all of it. */
  lemma {:induction false} LinesShow(s: string)
    ensures (forall j :: 0 <= j < |LinesOf(s)| ==> '\n' !in LinesOf(s)[j].text)
    ensures s == Concat(LinesOf(s))
    decreases |s|
  {
    var k := Newline(s);
    if s != "" && k < |s| {
      LinesShow(s[k + 1..]);
      assert s == s[..k] + [s[k]] + s[k + 1..];
      assert LinesOf(s)[1..] == LinesOf(s[k + 1..]);
    } else if s != "" {
      assert LinesOf(s)[1..] == [];
    }
  }

  function Concat(ls: seq<Line>): (s: string) { if ls == [] then "" else Shown(ls[0]) + Concat(ls[1..]) }

  // ----- what it prints -----

  /** A line that grep does not get past: it has no newline, fills the buffer, or has a NUL in it. */
  predicate Stops(l: Line) { !l.ended || |l.text| + 1 >= SIZE || '\0' in l.text }

  /** The lines before the first that stops grep. */
  function Before(ls: seq<Line>): (r: seq<Line>)
    ensures r <= ls && forall j :: 0 <= j < |r| ==> !Stops(r[j])
    ensures |r| < |ls| ==> Stops(ls[|r|])
  { if ls == [] || Stops(ls[0]) then [] else [ls[0]] + Before(ls[1..]) }

  ghost function Prints(re: string, s: string): (out: string) { Matching(re, Before(LinesOf(s))) }

  lemma {:induction false} MatchingAppend(re: string, a: seq<Line>, b: seq<Line>)
    ensures Matching(re, a + b) == Matching(re, a) + Matching(re, b)
  {
    hide Matches, Shown, Matching;
    if a == [] {
      assert a + b == b;
      NoMatching(re);
    } else {
      MatchingAppend(re, a[1..], b);
      assert (a + b)[0] == a[0] && (a + b)[1..] == a[1..] + b;
      MatchingFirst(re, a + b);
      MatchingFirst(re, a);
      Joined(if Matches(re, a[0].text) then Shown(a[0]) else "", Matching(re, a[1..]), Matching(re, b));
    }
  }

  lemma {:induction false} NoMatching(re: string)
    ensures Matching(re, []) == ""
  {
  }

  lemma {:induction false} MatchingFirst(re: string, ls: seq<Line>)
    requires ls != []
    ensures Matching(re, ls) == (if Matches(re, ls[0].text) then Shown(ls[0]) else "") + Matching(re, ls[1..])
  {
    hide Matches, Shown;
  }

  lemma {:induction false} Joined(a: string, b: string, c: string)
    ensures a + (b + c) == a + b + c
  {
  }

  lemma {:induction false} MatchingNone(re: string, ls: seq<Line>)
    requires forall j :: 0 <= j < |ls| ==> Shown(ls[j]) != ""
    ensures Matching(re, ls) == "" <==> forall j :: 0 <= j < |ls| ==> !Matches(re, ls[j].text)
  {
    if ls != [] {
      MatchingNone(re, ls[1..]);
      assert forall j :: 1 <= j < |ls| ==> ls[j] == ls[1..][j - 1];
    }
  }

  lemma {:induction false} NoEmptyLines(s: string)
    ensures forall j :: 0 <= j < |LinesOf(s)| ==> Shown(LinesOf(s)[j]) != ""
    decreases |s|
  {
    if s != "" && Newline(s) < |s| { NoEmptyLines(s[Newline(s) + 1..]); }
  }

  /** What grep prints, and what it misses, are the matching lines. */
  ghost function Misses(re: string, s: string): (out: string) {
    Matching(re, LinesOf(s)[|Before(LinesOf(s))|..])
  }

  lemma {:induction false} PrintsAndMisses(re: string, s: string)
    ensures Prints(re, s) + Misses(re, s) == Matching(re, LinesOf(s))
  {
    var ls := LinesOf(s);
    var n := |Before(ls)|;
    assert ls == ls[..n] + ls[n..] && ls[..n] == Before(ls);
    MatchingAppend(re, ls[..n], ls[n..]);
  }

  /** No line that matches stops grep or comes after one that does. */
  ghost predicate AllInReach(re: string, ls: seq<Line>) {
    forall i, j :: 0 <= i <= j < |ls| && Stops(ls[i]) ==> !Matches(re, ls[j].text)
  }

  /** grep prints the matching lines exactly if it meets them all before a line that stops it. */
  lemma {:induction false} PrintsAll(re: string, s: string)
    ensures Prints(re, s) == Matching(re, LinesOf(s)) <==> AllInReach(re, LinesOf(s))
  {
    hide Prints, Misses, AllInReach, Matching, LinesOf, Matches;
    PrintsAndMisses(re, s);
    MissesNone(re, s);
    if Prints(re, s) == Matching(re, LinesOf(s)) { assert |Misses(re, s)| == 0; }
  }

  lemma {:induction false} MissesNone(re: string, s: string)
    ensures Misses(re, s) == "" <==> AllInReach(re, LinesOf(s))
  {
    hide Matching, LinesOf, Matches, Shown, Stops;
    var ls := LinesOf(s);
    var n := |Before(ls)|;
    NoEmptyLines(s);
    forall j | 0 <= j < |ls[n..]| ensures ls[n..][j] == ls[j + n] { }
    MatchingNone(re, ls[n..]);
    forall i, j | 0 <= i <= j < |ls| && Stops(ls[i]) ensures n <= j && ls[j] == ls[n..][j - n] {
    }
    if AllInReach(re, ls) {
      forall j | 0 <= j < |ls[n..]| ensures !Matches(re, ls[n..][j].text) { assert Stops(ls[n]); }
    }
  }

  lemma {:induction false} EverythingMatches(text: string)
    ensures Matches("", text)
  {
    assert Lang(Parse(""), text[0..0], 0 == |text|);
  }

  /** A file without a final newline: its last line is missed. */
  lemma {:induction false} LastLineMissed()
    ensures Prints("", "x") == "" && Matching("", LinesOf("x")) == "x"
  {
    EverythingMatches("x");
    assert LinesOf("x") == [Line("x", false)];
    assert LinesOf("x")[1..] == [];
  }

  lemma {:induction false} OneLineOnly()
    ensures LinesOf("x\n") == [Line("x", true)]
  {
    var s := "x\n";
    assert s[0] == 'x' && s[1] == '\n' && Newline(s) == 1;
    assert s[..1] == "x" && s[2..] == "" && LinesOf("") == [];
  }

  /** A line of SIZE - 1 characters: it is missed, and so is the good line after it. */
  lemma {:induction false} LongLineMissed(long: string)
    requires |long| == SIZE - 1 && '\n' !in long
    ensures Prints("", long + "\nx\n") == "" && Matching("", LinesOf(long + "\nx\n")) == long + "\nx\n"
  {
    hide Matches;
    var s := long + "\nx\n";
    assert s[..SIZE - 1] == long && s[SIZE..] == "x\n";
    EverythingMatches(long);
    EverythingMatches("x");
    FirstIs(long + "\n", "x\n", SIZE - 1, {'\n'});
    assert long + "\n" + "x\n" == s;
    OneLineOnly();
    assert LinesOf(s) == [Line(long, true)] + LinesOf("x\n");
    assert LinesOf(s)[1..] == [Line("x", true)] && LinesOf("x\n")[1..] == [];
    assert long + "\n" + ("x\n" + "") == s;
  }

  // ----- line by line -----

  // Where strchr stops.
  function Stop(s: string): nat { First(s, {'\n', '\0'}) }

  lemma {:induction false} FirstIs(s: string, t: string, k: nat, cs: set<char>)
    requires k <= |s| && (forall j :: 0 <= j < k ==> s[j] !in cs) && (k < |s| ==> s[k] in cs)
    ensures k < |s| ==> First(s + t, cs) == k
    ensures k == |s| ==> First(s + t, cs) >= k
  {
    var f := First(s + t, cs);
    assert forall j :: 0 <= j < |s| ==> (s + t)[j] == s[j];
  }

  /** One line of the buffer: b begins with it, t is still to be read. */
  lemma {:induction false} PrintsLine(re: string, b: string, t: string, k: nat)
    requires k < |b| < SIZE && b[k] == '\n' && '\n' !in b[..k] && '\0' !in b[..k]
    ensures Prints(re, b + t) == (if Matches(re, b[..k]) then b[..k + 1] else "") + Prints(re, b[k + 1..] + t)
  {
    var s, rest := b + t, b[k + 1..] + t;
    FirstIs(b, t, k, {'\n'});
    assert s[..k] == b[..k] && b[..k + 1] == b[..k] + "\n" && s[k + 1..] == rest;
    assert LinesOf(s) == [Line(b[..k], true)] + LinesOf(rest);
    assert LinesOf(s)[1..] == LinesOf(rest);
    assert Before(LinesOf(s))[1..] == Before(LinesOf(rest));
  }

  /** The end: no line is left, or a line fills the buffer, or a NUL stops strchr. */
  lemma {:induction false} PrintsNothing(re: string, b: string, t: string)
    requires NoLine(b) && (t == "" || |b| >= SIZE - 1)
    ensures Prints(re, b + t) == ""
  {
    var s := b + t;
    var k := Newline(s);
    if s != "" && k < |s| {
      var z := Stop(b);
      if z < |b| { assert s[z] == '\0' && z < k; assert s[..k][z] == '\0'; }
      assert LinesOf(s)[0] == Line(s[..k], true);
    }
  }

  // No newline before the first NUL.
  predicate NoLine(b: string) { Stop(b) == |b| || b[Stop(b)] == '\0' }

  // strchr(p, '\n'), with the NUL at buf[m]
  method Find(buf: array<char>, p: nat, m: nat) returns (q: nat)
    requires p <= m < buf.Length
    ensures p <= q <= m && q - p == Stop(buf[p..m]) && (q < m ==> buf[q] == '\n' || buf[q] == '\0')
  {
    q := p;
    while q < m && buf[q] != '\0' && buf[q] != '\n'
      invariant p <= q <= m && forall j :: p <= j < q ==> buf[j] != '\n' && buf[j] != '\0'
    {
      q := q + 1;
    }
    ghost var f := Stop(buf[p..m]);
    assert forall j :: p <= j < m ==> buf[p..m][j - p] == buf[j];
  }

  /** Having printed out, grep is still to print what the text left would give. */
  ghost predicate SoFar(re: string, input: string, out: string, left: string) {
    Prints(re, input) == out + Prints(re, left)
  }

  lemma {:induction false} SoFarLine(re: string, input: string, out: string, b: string, t: string, k: nat, o: string)
    requires k < |b| < SIZE && Stop(b) == k && b[k] == '\n' && SoFar(re, input, out, b + t)
    requires o == if Matches(re, b[..k]) then b[..k] + "\n" else ""
    ensures SoFar(re, input, out + o, b[k + 1..] + t)
  {
    hide Prints, Matches;
    assert b[..k + 1] == b[..k] + "\n";
    PrintsLine(re, b, t, k);
    var left := Prints(re, b[k + 1..] + t);
    assert out + (o + left) == (out + o) + left;
  }

  lemma {:induction false} SoFarEnd(re: string, input: string, out: string, b: string, t: string)
    requires SoFar(re, input, out, b + t) && NoLine(b) && (t == "" || |b| >= SIZE - 1)
    ensures out == Prints(re, input)
  {
    hide Prints;
    PrintsNothing(re, b, t);
  }

  // One round of the inner loop, on the line from p to the newline at q.
  method OneLine(re: string, buf: array<char>, p: nat, q: nat, m: nat) returns (o: string)
    requires p <= q < m <= buf.Length && buf[q] == '\n'
    modifies buf
    ensures o == if Matches(re, old(buf[p..q])) then old(buf[p..q]) + "\n" else ""
    ensures buf[q + 1..m] == old(buf[q + 1..m])
  {
    hide Matches;
    buf[q] := '\0';
    o := "";
    assert buf[p..q] == old(buf[p..q]);
    var hit := Match(re, buf[p..q]);
    if hit {
      buf[q] := '\n';
      o := buf[p..q + 1];
      assert o == old(buf[p..q]) + "\n";
    }
  }

  // The loop over the lines in the buffer.
  method Lines(re: string, buf: array<char>, m: nat, ghost input: string, ghost before: string, ghost t: string)
    returns (p: nat, out: string)
    requires buf.Length == SIZE && m < SIZE && SoFar(re, input, before, buf[..m] + t)
    modifies buf
    ensures p <= m && NoLine(buf[p..m]) && SoFar(re, input, before + out, buf[p..m] + t)
  {
    hide SoFar, Matches, Stop;
    p, out := 0, "";
    assert buf[0..m] == buf[..m] && before + "" == before;
    while true
      invariant p <= m && SoFar(re, input, before + out, buf[p..m] + t)
      decreases m - p
    {
      var q := Find(buf, p, m);
      ghost var b := buf[p..m];
      assert q < m ==> b[q - p] == buf[q];
      if q == m || buf[q] == '\0' { break; }
      assert b[..q - p] == buf[p..q] && b[q - p + 1..] == buf[q + 1..m];
      var o := OneLine(re, buf, p, q, m);
      SoFarLine(re, input, before + out, b, t, q - p, o);
      assert before + out + o == before + (out + o);
      p, out := q + 1, out + o;
    }
  }

  /** grep: whatever pieces `read` returns the input in, it prints the matching lines as far as the
      first line that stops it, which is all of them exactly if all are in reach. */
  method Run(re: string, input: string, piece: nat -> nat) returns (out: string)
    ensures out + Misses(re, input) == Matching(re, LinesOf(input))
    ensures out == Prints(re, input)
    ensures out == Matching(re, LinesOf(input)) <==> AllInReach(re, LinesOf(input))
  {
    hide Prints, Misses, AllInReach, Matching, LinesOf, SoFar, NoLine;
    PrintsAndMisses(re, input);
    PrintsAll(re, input);
    var buf := new char[SIZE](_ => '\0');
    var m: nat, pos: nat := 0, 0;
    out := "";
    SoFarStart(re, input, buf[..0], input[0..]);
    while true
      invariant m < SIZE && pos <= |input| && NoLine(buf[..m]) && SoFar(re, input, out, buf[..m] + input[pos..])
      decreases |input| - pos
    {
      // read(fd, buf + m, sizeof(buf) - m - 1)
      var room := SIZE - m - 1;
      var n := if room < |input| - pos then room else |input| - pos;
      if 0 < piece(pos) < n { n := piece(pos); }
      if n == 0 {
        SoFarEnd(re, input, out, buf[..m], input[pos..]);
        break;
      }
      assert buf[..m] + input[pos..] == buf[..m] + input[pos..pos + n] + input[pos + n..];
      Fill(buf, m, input[pos..pos + n]);
      m, pos := m + n, pos + n;
      var p, o := Lines(re, buf, m, input, out, input[pos..]);
      out := out + o;
      Shift(buf, p, m);
      m := m - p;
    }
  }

  lemma {:induction false} SoFarStart(re: string, input: string, b: string, t: string)
    requires b == "" && t == input
    ensures NoLine(b) && SoFar(re, input, "", b + t)
  {
    hide Prints;
    assert b + t == input && "" + Prints(re, input) == Prints(re, input);
  }

  // What read puts into the buffer, and the NUL behind it.
  method Fill(buf: array<char>, m: nat, s: string)
    requires m + |s| < buf.Length
    modifies buf
    ensures buf[..m + |s|] == old(buf[..m]) + s
  {
    forall k | 0 <= k < |s| { buf[m + k] := s[k]; }
    buf[m + |s|] := '\0';
  }

  // memmove(buf, p, m)
  method Shift(buf: array<char>, p: nat, m: nat)
    requires p <= m <= buf.Length
    modifies buf
    ensures buf[..m - p] == old(buf[p..m])
  {
    forall k | 0 <= k < m - p { buf[k] := buf[p + k]; }
  }
}
