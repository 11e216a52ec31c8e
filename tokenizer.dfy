/** The tokenizer of the BM25 retriever (`SimpleBM25Retriever._tokenize`):
    lower-case the text, split it on whitespace, keep only the alphanumeric
    characters of each fragment and drop the fragments that become empty.

    Characters are modelled on ASCII: the library predicates `str.isspace`,
    `str.isalnum` and the mapping `str.lower` are given their ASCII meaning,
    and every other code point is neither whitespace nor alphanumeric and is
    left unchanged by lower-casing. */
module Tokenizer {

  /** `str.isspace` on ASCII: space, \t \n \v \f \r and the separators 0x1C..0x1F. */
  predicate IsSpace(c: char) {
    c == ' ' || ('\t' <= c <= '\r') || ('\U{1C}' <= c <= '\U{1F}')
  }

  predicate IsUpper(c: char) {
    'A' <= c <= 'Z'
  }

  /** `str.isalnum` on ASCII. */
  predicate IsAlnum(c: char) {
    ('a' <= c <= 'z') || ('A' <= c <= 'Z') || ('0' <= c <= '9')
  }

  /** `str.lower` on one ASCII character. */
  function Lower(c: char): (r: char)
    ensures !IsUpper(r)
    ensures IsUpper(c) ==> r as int == c as int + 32
    ensures IsSpace(r) == IsSpace(c) && IsAlnum(r) == IsAlnum(c)
    ensures !IsUpper(c) ==> r == c
  {
    if IsUpper(c) then (c as int - 'A' as int + 'a' as int) as char else c
  }

  /** Lower-casing a whole text, character by character. */
  function LowerText(s: string): (r: string)
    ensures |r| == |s|
    ensures forall i :: 0 <= i < |r| ==>
      !IsUpper(r[i]) && IsSpace(r[i]) == IsSpace(s[i]) && IsAlnum(r[i]) == IsAlnum(s[i])
    ensures forall i :: 0 <= i < |s| ==> r[i] == Lower(s[i])
  {
    seq(|s|, i requires 0 <= i < |s| => Lower(s[i]))
  }

  /** The longest prefix of `s` that holds no whitespace. */
  function Word(s: string): (w: string)
    ensures |w| <= |s| && w == s[..|w|]
    ensures forall i :: 0 <= i < |w| ==> !IsSpace(w[i])
    ensures |w| == |s| || IsSpace(s[|w|])
  {
    if s == [] || IsSpace(s[0]) then [] else [s[0]] + Word(s[1..])
  }

  /** Splitting on runs of whitespace: the maximal runs of non-whitespace,
      left to right. The result is empty exactly when the text is blank. */
  function SplitWhitespace(s: string): seq<string>
    decreases |s|
  {
    if s == [] then []
    else if IsSpace(s[0]) then SplitWhitespace(s[1..])
    else
      var w := Word(s);
      [w] + SplitWhitespace(s[|w|..])
  }

  /** Every fragment is non-empty. */
  lemma {:induction false} SplitFragmentsNonEmpty(s: string)
    ensures forall k :: 0 <= k < |SplitWhitespace(s)| ==> SplitWhitespace(s)[k] != []
    decreases |s|
  {
    if s != [] {
      if IsSpace(s[0]) {
        SplitFragmentsNonEmpty(s[1..]);
      } else {
        SplitFragmentsNonEmpty(s[|Word(s)|..]);
      }
    }
  }

  /** Every fragment is made of non-whitespace characters of the text. */
  lemma {:induction false} SplitFragmentChars(s: string)
    ensures forall k, c :: 0 <= k < |SplitWhitespace(s)| && c in SplitWhitespace(s)[k] ==> c in s && !IsSpace(c)
    decreases |s|
  {
    if s != [] {
      var w := Word(s);
      var rest := if IsSpace(s[0]) then s[1..] else s[|w|..];
      SplitFragmentChars(rest);
      assert forall c :: c in rest ==> c in s;
      if !IsSpace(s[0]) {
        assert SplitWhitespace(s) == [w] + SplitWhitespace(rest);
        assert forall c :: c in w ==> c in s && !IsSpace(c);
      }
    }
  }

  /** There are no fragments exactly when the text is blank. */
  lemma {:induction false} SplitBlank(s: string)
    ensures SplitWhitespace(s) == [] <==> forall i :: 0 <= i < |s| ==> IsSpace(s[i])
    decreases |s|
  {
    if s != [] && IsSpace(s[0]) {
      SplitBlank(s[1..]);
      assert forall i :: 1 <= i < |s| ==> s[i] == s[1..][i - 1];
    }
  }

  /** One whitespace fragment reduced to its alphanumeric characters, in
      their original order. */
  function KeepAlnum(raw: string): (r: string)
    ensures |r| <= |raw|
    ensures forall c :: c in r <==> c in raw && IsAlnum(c)
  {
    if raw == [] then []
    else
      var last := raw[|raw| - 1];
      KeepAlnum(raw[..|raw| - 1]) + (if IsAlnum(last) then [last] else [])
  }

  /** The token list built from the fragments: each fragment reduced to its
      alphanumeric characters, empty results dropped, order kept. */
  function CleanAll(fragments: seq<string>): (r: seq<string>)
    ensures |r| <= |fragments|
  {
    if fragments == [] then []
    else
      var token := KeepAlnum(fragments[|fragments| - 1]);
      CleanAll(fragments[..|fragments| - 1]) + (if token != [] then [token] else [])
  }

  /** What `_tokenize(text)` returns. */
  function Tokens(text: string): seq<string> {
    CleanAll(SplitWhitespace(LowerText(text)))
  }

  /** Reduces one fragment to its alphanumeric characters, scanning it one
      character at a time and appending each character that is kept. */
  method CleanFragment(raw: string) returns (token: string)
    ensures token == KeepAlnum(raw)
  {
    token := "";
    for j := 0 to |raw|
      invariant token == KeepAlnum(raw[..j])
    {
      if IsAlnum(raw[j]) {
        token := token + [raw[j]];
      }
      assert raw[..j + 1][..j] == raw[..j];
    }
    assert raw[..|raw|] == raw;
  }

  /** `_tokenize`: one pass over the fragments, appending each non-empty
      cleaned fragment. */
  method Tokenize(text: string) returns (tokens: seq<string>)
    ensures tokens == Tokens(text)
  {
    var fragments := SplitWhitespace(LowerText(text));
    tokens := [];
    for i := 0 to |fragments|
      invariant tokens == CleanAll(fragments[..i])
    {
      var token := CleanFragment(fragments[i]);
      if token != "" {
        tokens := tokens + [token];
      }
      assert fragments[..i + 1][..i] == fragments[..i];
    }
    assert fragments[..|fragments|] == fragments;
  }

  // ---------------------------------------------------------------------
  // Shape of the tokens

  /** Every token is non-empty, and all its characters are alphanumeric and
      lower-case. */
  lemma TokensAreLowerAlnum(text: string)
    ensures forall tok :: tok in Tokens(text) ==>
      tok != [] && forall c :: c in tok ==> IsAlnum(c) && !IsUpper(c)
  {
    var lowered := LowerText(text);
    var fragments := SplitWhitespace(lowered);
    SplitFragmentChars(lowered);
    forall k | 0 <= k < |fragments|
      ensures forall c :: c in fragments[k] ==> !IsUpper(c)
    {
      forall c | c in fragments[k] ensures !IsUpper(c) {
        assert c in lowered;
        var i :| 0 <= i < |lowered| && lowered[i] == c;
      }
    }
    CleanAllChars(fragments);
  }

  lemma {:induction false} CleanAllChars(fragments: seq<string>)
    requires forall k, c :: 0 <= k < |fragments| && c in fragments[k] ==> !IsUpper(c)
    ensures forall tok :: tok in CleanAll(fragments) ==> tok != []
    ensures forall tok, c :: tok in CleanAll(fragments) && c in tok ==> IsAlnum(c) && !IsUpper(c)
  {
    if fragments != [] {
      var init := fragments[..|fragments| - 1];
      CleanAllChars(init);
      var last := fragments[|fragments| - 1];
      assert forall c :: c in KeepAlnum(last) ==> c in last;
    }
  }

  /** Empty or whitespace-only text has no tokens. */
  lemma BlankTextHasNoTokens(text: string)
    requires forall i :: 0 <= i < |text| ==> IsSpace(text[i])
    ensures Tokens(text) == []
  {
    var lowered := LowerText(text);
    assert forall i :: 0 <= i < |lowered| ==> IsSpace(lowered[i]);
    SplitBlank(lowered);
  }

  // ---------------------------------------------------------------------
  // Order, duplicates and the number of tokens

  /** Lower-casing changes no whitespace boundary. */
  lemma {:induction false} WordLowerLength(s: string)
    ensures |Word(LowerText(s))| == |Word(s)|
    decreases |s|
  {
    if s != [] && !IsSpace(s[0]) {
      assert LowerText(s)[1..] == LowerText(s[1..]);
      WordLowerLength(s[1..]);
    }
  }

  lemma {:induction false} SplitLowerLength(s: string)
    ensures |SplitWhitespace(LowerText(s))| == |SplitWhitespace(s)|
    decreases |s|
  {
    var lowered := LowerText(s);
    if s != [] {
      assert IsSpace(lowered[0]) == IsSpace(s[0]);
      if IsSpace(s[0]) {
        assert lowered[1..] == LowerText(s[1..]);
        SplitLowerLength(s[1..]);
      } else {
        var n := |Word(s)|;
        WordLowerLength(s);
        assert lowered[n..] == LowerText(s[n..]);
        SplitLowerLength(s[n..]);
        assert |SplitWhitespace(s)| == 1 + |SplitWhitespace(s[n..])|;
        assert |SplitWhitespace(lowered)| == 1 + |SplitWhitespace(lowered[n..])|;
      }
    }
  }

  /** There are at most as many tokens as whitespace-separated fragments. */
  lemma TokenCountBound(text: string)
    ensures |Tokens(text)| <= |SplitWhitespace(text)|
  {
    SplitLowerLength(text);
  }

  lemma {:induction false} WordBeforeSpace(a: string, sp: char, b: string)
    requires IsSpace(sp)
    ensures Word(a + [sp] + b) == Word(a)
    decreases |a|
  {
    var s := a + [sp] + b;
    if a != [] && !IsSpace(a[0]) {
      assert s[1..] == a[1..] + [sp] + b;
      WordBeforeSpace(a[1..], sp, b);
    }
  }

  lemma {:induction false} SplitAppend(a: string, sp: char, b: string)
    requires IsSpace(sp)
    ensures SplitWhitespace(a + [sp] + b) == SplitWhitespace(a) + SplitWhitespace(b)
    decreases |a|
  {
    var s := a + [sp] + b;
    if a == [] {
      assert s[1..] == b;
    } else if IsSpace(a[0]) {
      assert s[1..] == a[1..] + [sp] + b;
      SplitAppend(a[1..], sp, b);
    } else {
      var w := Word(a);
      WordBeforeSpace(a, sp, b);
      assert s[0] == a[0];
      assert SplitWhitespace(s) == [w] + SplitWhitespace(s[|w|..]);
      assert SplitWhitespace(a) == [w] + SplitWhitespace(a[|w|..]);
      assert s[|w|..] == a[|w|..] + [sp] + b;
      SplitAppend(a[|w|..], sp, b);
    }
  }

  lemma {:induction false} CleanAllAppend(f: seq<string>, g: seq<string>)
    ensures CleanAll(f + g) == CleanAll(f) + CleanAll(g)
    decreases |g|
  {
    if g == [] {
      assert f + g == f;
    } else {
      var fg, init := f + g, g[..|g| - 1];
      var token := KeepAlnum(g[|g| - 1]);
      var tail := if token != [] then [token] else [];
      assert fg[..|fg| - 1] == f + init;
      assert fg[|fg| - 1] == g[|g| - 1];
      assert CleanAll(fg) == CleanAll(f + init) + tail;
      assert CleanAll(g) == CleanAll(init) + tail;
      CleanAllAppend(f, init);
    }
  }

  /** Filtering keeps the order of the characters: the filter of a
      concatenation is the concatenation of the filters. */
  lemma {:induction false} KeepAlnumAppend(a: string, b: string)
    ensures KeepAlnum(a + b) == KeepAlnum(a) + KeepAlnum(b)
    decreases |b|
  {
    if b == [] {
      assert a + b == a;
    } else {
      var ab, init, last := a + b, b[..|b| - 1], b[|b| - 1];
      var tail := if IsAlnum(last) then [last] else [];
      assert ab[..|ab| - 1] == a + init;
      assert ab[|ab| - 1] == last;
      assert KeepAlnum(ab) == KeepAlnum(a + init) + tail;
      assert KeepAlnum(b) == KeepAlnum(init) + tail;
      KeepAlnumAppend(a, init);
    }
  }

  /** The tokens are exactly the non-empty cleaned fragments. */
  lemma {:induction false} CleanAllMembers(fragments: seq<string>)
    ensures forall tok :: tok in CleanAll(fragments) <==>
      exists k :: 0 <= k < |fragments| && tok == KeepAlnum(fragments[k]) && tok != []
  {
    if fragments != [] {
      var init, last := fragments[..|fragments| - 1], fragments[|fragments| - 1];
      var token := KeepAlnum(last);
      var tail := if token != [] then [token] else [];
      assert CleanAll(fragments) == CleanAll(init) + tail;
      CleanAllMembers(init);
      forall tok | tok in CleanAll(fragments)
        ensures exists k :: 0 <= k < |fragments| && tok == KeepAlnum(fragments[k]) && tok != []
      {
        if tok in CleanAll(init) {
          var k :| 0 <= k < |init| && tok == KeepAlnum(init[k]) && tok != [];
          assert fragments[k] == init[k];
        } else {
          assert tok == KeepAlnum(fragments[|init|]) && tok != [];
        }
      }
      forall tok, k | 0 <= k < |fragments| && tok == KeepAlnum(fragments[k]) && tok != []
        ensures tok in CleanAll(fragments)
      {
        if k < |init| {
          assert init[k] == fragments[k];
          assert tok in CleanAll(init);
        } else {
          assert tok in tail;
        }
      }
    }
  }

  /** Tokenizing two texts joined by whitespace gives the two token lists one
      after the other: order is kept and repeated tokens are not merged. */
  lemma TokensOfJoined(a: string, sp: char, b: string)
    requires IsSpace(sp)
    ensures Tokens(a + [sp] + b) == Tokens(a) + Tokens(b)
  {
    assert LowerText(a + [sp] + b) == LowerText(a) + [Lower(sp)] + LowerText(b);
    SplitAppend(LowerText(a), Lower(sp), LowerText(b));
    CleanAllAppend(SplitWhitespace(LowerText(a)), SplitWhitespace(LowerText(b)));
  }

  // ---------------------------------------------------------------------
  // Already-normalised text

  /** A token as `_tokenize` produces it. */
  predicate IsNormalToken(w: string) {
    w != [] && forall i :: 0 <= i < |w| ==> IsAlnum(w[i]) && !IsUpper(w[i])
  }

  /** The words joined by single spaces. */
  function JoinWithSpaces(words: seq<string>): string {
    if words == [] then ""
    else if |words| == 1 then words[0]
    else words[0] + " " + JoinWithSpaces(words[1..])
  }

  lemma {:induction false} KeepAlnumOfAlnum(w: string)
    requires forall i :: 0 <= i < |w| ==> IsAlnum(w[i])
    ensures KeepAlnum(w) == w
  {
    if w != [] {
      var init, last := w[..|w| - 1], w[|w| - 1];
      KeepAlnumOfAlnum(init);
      assert IsAlnum(last);
      assert w == init + [last];
    }
  }

  lemma SingleToken(w: string)
    requires IsNormalToken(w)
    ensures Tokens(w) == [w]
  {
    assert LowerText(w) == w;
    assert Word(w) == w;
    assert w[|w|..] == [];
    assert SplitWhitespace(w) == [w];
    KeepAlnumOfAlnum(w);
    assert [w][..0] == [];
  }

  /** Text that is already a space-separated list of normal tokens
      tokenizes to exactly that list. */
  lemma {:induction false} TokensOfNormalText(words: seq<string>)
    requires forall k :: 0 <= k < |words| ==> IsNormalToken(words[k])
    ensures Tokens(JoinWithSpaces(words)) == words
  {
    if words == [] {
    } else if |words| == 1 {
      SingleToken(words[0]);
    } else {
      SingleToken(words[0]);
      TokensOfNormalText(words[1..]);
      TokensOfJoined(words[0], ' ', JoinWithSpaces(words[1..]));
      assert words[0] + " " + JoinWithSpaces(words[1..]) == words[0] + [' '] + JoinWithSpaces(words[1..]);
    }
  }

  /** Tokenizing is idempotent: re-tokenizing the space-joined tokens gives
      the same tokens back. */
  lemma TokenizeIdempotent(text: string)
    ensures Tokens(JoinWithSpaces(Tokens(text))) == Tokens(text)
  {
    var tokens := Tokens(text);
    TokensAreLowerAlnum(text);
    forall k | 0 <= k < |tokens| ensures IsNormalToken(tokens[k]) {
      assert tokens[k] in tokens;
      forall i | 0 <= i < |tokens[k]| ensures IsAlnum(tokens[k][i]) && !IsUpper(tokens[k][i]) {
        assert tokens[k][i] in tokens[k];
      }
    }
    TokensOfNormalText(tokens);
  }

  /** Text without whitespace is a single fragment: it yields its
      alphanumeric characters, lower-cased, as one token, or nothing. */
  lemma SingleFragment(s: string)
    requires s != [] && forall i :: 0 <= i < |s| ==> !IsSpace(s[i])
    ensures var t := KeepAlnum(LowerText(s));
      Tokens(s) == if t == [] then [] else [t]
  {
    var lowered := LowerText(s);
    assert forall i :: 0 <= i < |lowered| ==> !IsSpace(lowered[i]);
    var w := Word(lowered);
    assert |w| == |lowered|;
    assert w == lowered;
    assert lowered[|lowered|..] == [];
    assert SplitWhitespace(lowered) == [lowered];
    var single: seq<string> := [lowered];
    assert single[..0] == [];
    var t := KeepAlnum(lowered);
    assert CleanAll(single) == CleanAll([]) + (if t != [] then [t] else []);
  }

  /** An alphanumeric word with one trailing punctuation mark yields the
      word, lower-cased. */
  predicate IsAlnumWord(w: string) {
    w != [] && forall i :: 0 <= i < |w| ==> IsAlnum(w[i])
  }

  lemma WordWithPunctuation(w: string, c: char)
    requires IsAlnumWord(w)
    requires !IsAlnum(c) && !IsSpace(c)
    ensures Tokens(w + [c]) == [LowerText(w)]
  {
    var s := w + [c];
    var lowered := LowerText(w);
    assert LowerText(s) == lowered + [c];
    assert KeepAlnum(lowered + [c]) == lowered by {
      assert (lowered + [c])[..|lowered|] == lowered;
      KeepAlnumOfAlnum(lowered);
    }
    assert forall i :: 0 <= i < |s| ==> !IsSpace(s[i]) by {
      assert forall i :: 0 <= i < |w| ==> s[i] == w[i];
    }
    SingleFragment(s);
  }

  /** Punctuation disappears and letters are lower-cased:
      "Hello, World!" gives ["hello", "world"]. */
  lemma HelloWorldExample()
    ensures Tokens("Hello, World!") == ["hello", "world"]
  {
    HelloWorldPieces();
    TokensOfJoined("Hello,", ' ', "World!");
    WordWithPunctuation("Hello", ',');
    WordWithPunctuation("World", '!');
  }

  lemma HelloWorldPieces()
    ensures "Hello, World!" == "Hello," + [' '] + "World!"
    ensures "Hello," == "Hello" + [','] && "World!" == "World" + ['!']
    ensures LowerText("Hello") == "hello" && LowerText("World") == "world"
    ensures IsAlnumWord("Hello") && IsAlnumWord("World")
    ensures !IsAlnum(',') && !IsSpace(',') && !IsAlnum('!') && !IsSpace('!') && IsSpace(' ')
  {
  }
}
