/**
 The shell's tokens: gettoken and peek move over a line as if it had been split into tokens first.
 */
module ShLex {
  const WHITESPACE: string := " \t\r\n\U{B}"
  const SYMBOLS: string := "<|>&;()"

  predicate White(c: char) { c in WHITESPACE }
  predicate Symbol(c: char) { c in SYMBOLS }

  /** A token: what gettoken returns for it ('a' for a word, '+' for >>), and where it is. */
  datatype Tok = Tok(kind: char, b: nat, e: nat)

  // ----- splitting a line -----

  // The first position from s on that is not white space, and the first that ends a word.
  function Skip(line: string, s: nat): (r: nat)
    requires s <= |line|
    ensures s <= r <= |line| && (r < |line| ==> !White(line[r]))
    ensures forall k :: s <= k < r ==> White(line[k])
    decreases |line| - s
  { if s < |line| && White(line[s]) then Skip(line, s + 1) else s }

  function WordEnd(line: string, s: nat): (r: nat)
    requires s <= |line|
    ensures s <= r <= |line| && (r < |line| ==> White(line[r]) || Symbol(line[r]))
    ensures forall k :: s <= k < r ==> !White(line[k]) && !Symbol(line[k])
    decreases |line| - s
  { if s < |line| && !White(line[s]) && !Symbol(line[s]) then WordEnd(line, s + 1) else s }

  /** The token that starts at s. */
  function TokenAt(line: string, s: nat): (t: Tok)
    requires s < |line| && !White(line[s])
    ensures t.b == s < t.e <= |line|
  {
    if line[s] == '>' && s + 1 < |line| && line[s + 1] == '>' then Tok('+', s, s + 2)
    else if Symbol(line[s]) then Tok(line[s], s, s + 1)
    else Tok('a', s, WordEnd(line, s))
  }

  /** The tokens from position s on. */
  function Lex(line: string, s: nat): (ts: seq<Tok>)
    requires s <= |line|
    decreases |line| - s
  {
    var b := Skip(line, s);
    if b == |line| then [] else [TokenAt(line, b)] + Lex(line, TokenAt(line, b).e)
  }

  /** A word is as long as it can be, and has no white space or symbol in it. */
  predicate Word(line: string, t: Tok) {
    && t.kind == 'a' && t.b < t.e <= |line| && (t.e < |line| ==> White(line[t.e]) || Symbol(line[t.e]))
    && forall k :: t.b <= k < t.e ==> !White(line[k]) && !Symbol(line[k])
  }

  /** Tokens are where Lex says, one after the other; what is between them is white space. */
  lemma {:induction false} LexOrder(line: string, s: nat, i: nat)
    requires s <= |line| && i < |Lex(line, s)|
    ensures var t := Lex(line, s)[i];
      && s <= t.b < t.e <= |line| && !White(line[t.b]) && t == TokenAt(line, t.b)
      && (t.kind == 'a' <==> !Symbol(line[t.b])) && (t.kind == 'a' ==> Word(line, t))
      && (i + 1 < |Lex(line, s)| ==> t.e <= Lex(line, s)[i + 1].b)
    decreases i
  {
    var b := Skip(line, s);
    var e := TokenAt(line, b).e;
    if i > 0 { LexOrder(line, e, i - 1); } else if |Lex(line, s)| > 1 { assert Lex(line, s)[1] == Lex(line, e)[0]; }
  }

  lemma {:induction false} LexApart(line: string, s: nat, i: nat, j: nat)
    requires s <= |line| && i < j < |Lex(line, s)|
    ensures Lex(line, s)[i].e <= Lex(line, s)[j].b
    decreases j
  {
    LexOrder(line, s, i);
    LexOrder(line, s, j);
    if i + 1 < j {
      LexApart(line, s, i, j - 1);
      LexOrder(line, s, j - 1);
    }
  }

  // Leading white space makes no difference.
  lemma {:induction false} LexSkip(line: string, s: nat)
    requires s <= |line|
    ensures Lex(line, Skip(line, s)) == Lex(line, s) && (Lex(line, s) == [] <==> Skip(line, s) == |line|)
  {
    var b := Skip(line, s);
    assert Skip(line, b) == b;
  }

  // ----- gettoken and peek -----

  // The loop that both have.
  method Spaces(line: string, s: nat) returns (r: nat)
    requires s <= |line|
    ensures r == Skip(line, s)
  {
    r := s;
    while r < |line| && White(line[r])
      invariant s <= r <= |line| && Skip(line, s) == Skip(line, r)
    {
      r := r + 1;
    }
  }

  // gettoken's switch
  method Scan(line: string, s: nat) returns (ret: char, p: nat)
    requires s < |line| && !White(line[s])
    ensures Tok(ret, s, p) == TokenAt(line, s)
  {
    ret, p := line[s], s;
    if ret == '|' || ret == '(' || ret == ')' || ret == ';' || ret == '&' || ret == '<' {
      p := p + 1;
    } else if ret == '>' {
      p := p + 1;
      if p < |line| && line[p] == '>' {
        ret := '+';
        p := p + 1;
      }
    } else {
      ret := 'a';
      while p < |line| && !White(line[p]) && !Symbol(line[p])
        invariant s <= p <= |line| && WordEnd(line, s) == WordEnd(line, p)
      {
        p := p + 1;
      }
    }
  }

  lemma {:induction false} LexStep(line: string, s: nat)
    requires s <= |line|
    ensures var b := Skip(line, s);
      b < |line| ==>
        Lex(line, s) != [] && Lex(line, s)[0] == TokenAt(line, b) && Lex(line, s)[1..] == Lex(line, TokenAt(line, b).e)
  {
  }

  /** gettoken: the next token's kind (NUL at the end), where it is, and what is left after it. */
  method GetToken(line: string, s: nat) returns (ret: char, q: nat, eq: nat, s': nat)
    requires s <= |line| && '\0' !in line
    ensures s <= s' <= |line|
    ensures Lex(line, s) == [] ==> ret == '\0' && s' == |line| && Lex(line, s') == []
    ensures Lex(line, s) != [] ==>
              ret != '\0' && Tok(ret, q, eq) == Lex(line, s)[0] && Lex(line, s') == Lex(line, s)[1..]
  {
    hide Lex, WordEnd;
    q := Spaces(line, s);
    LexSkip(line, s);
    LexStep(line, s);
    if q == |line| {
      ret, eq := '\0', q;
    } else {
      assert line[q] in line;
      ret, eq := Scan(line, q);
      LexSkip(line, eq);
    }
    s' := Spaces(line, eq);
  }

  /** peek: whether there is a next token and it begins with one of the characters. */
  method Peek(line: string, s: nat, toks: string) returns (b: bool, s': nat)
    requires s <= |line| && '\0' !in line
    ensures s <= s' <= |line| && Lex(line, s') == Lex(line, s) && (Lex(line, s) == [] <==> s' == |line|)
    ensures b <==> Lex(line, s) != [] && line[s'] in toks
    ensures Lex(line, s) != [] ==> !White(line[s']) && Lex(line, s)[0] == TokenAt(line, s')
  {
    LexSkip(line, s);
    s' := Spaces(line, s);
    b := s' < |line| && line[s'] in toks;
  }
}
