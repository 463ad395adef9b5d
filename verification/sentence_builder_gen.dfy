/** The sentence-builder generator: quality sentences cut into word and punctuation tokens
    that the learner drags back into order. */
module SentenceBuilderGen {
  import opened Wrappers
  import opened Text
  import opened Seqs
  import GeminiHelper
  import SentenceRecords

  const MaxItems := 4
  const MinWords := 6
  const MaxWords := 20

  // ------------------------------------------------------------ tokenizer

  /** The characters `_tokenize_sentence` emits as tokens of their own. */
  predicate IsPunct(c: char)
  {
    c == '.' || c == ',' || c == '!' || c == '?' || c == ';' || c == ':'
  }

  /** Characters that continue a word: `isalnum()`, the apostrophe and the hyphen. */
  predicate IsWordPart(c: char)
  {
    IsAlnumChar(c) || c == '\'' || c == '-'
  }

  /** The word in progress, as a token when there is one. */
  function Flush(cur: string): (r: seq<string>)
    ensures cur == "" ==> r == []
    ensures cur != "" ==> r == [cur]
  {
    if cur == "" then [] else [cur]
  }

  /** The tokens one character of `_tokenize_sentence`'s loop emits, given the word in
      progress `cur`: word characters emit nothing; punctuation ends the word and is a
      token of its own; a space ends the word; any other character is a token of its own
      unless a word is in progress. */
  function Emit(c: char, cur: string): seq<string>
  {
    if IsWordPart(c) then []
    else if IsPunct(c) then Flush(cur) + [[c]]
    else if c == ' ' then Flush(cur)
    else if cur != "" then []
    else [[c]]
  }

  /** The word in progress after one character: word characters, and other characters
      while a word is in progress, extend it; anything else ends it. */
  function Next(c: char, cur: string): string
  {
    if IsWordPart(c) then cur + [c]
    else if IsPunct(c) || c == ' ' then ""
    else if cur != "" then cur + [c]
    else ""
  }

  /** The character loop over `s`, with `cur` the word in progress; what is left in
      progress at the end is the last token. */
  function Scan(s: string, cur: string): seq<string>
    decreases |s|
  {
    if |s| == 0 then Flush(cur)
    else Emit(s[0], cur) + Scan(s[1..], Next(s[0], cur))
  }

  /** `' '.join(sentence.split())` */
  function Squeeze(s: string): string
  {
    Join(" ", Words(s))
  }

  /** `_tokenize_sentence(sentence)` */
  function Tokens(sentence: string): seq<string>
  {
    Scan(Squeeze(sentence), "")
  }

  /** A token as the tokenizer makes them: non-empty, free of whitespace, and a
      punctuation mark only ever on its own. */
  predicate WellFormedToken(t: string)
  {
    && |t| > 0
    && (forall i :: 0 <= i < |t| ==> !IsSpace(t[i]))
    && (forall i :: 0 <= i < |t| && IsPunct(t[i]) ==> |t| == 1)
  }

  /** The only whitespace in `s` is the plain space. */
  predicate PlainSpaces(s: string)
  {
    forall i :: 0 <= i < |s| && IsSpace(s[i]) ==> s[i] == ' '
  }

  /** A word in progress: no whitespace and no punctuation. */
  predicate Partial(cur: string)
  {
    forall i :: 0 <= i < |cur| ==> !IsSpace(cur[i]) && !IsPunct(cur[i])
  }

  lemma ConcatFlush(cur: string)
    ensures Concat(Flush(cur)) == cur
  {
    if cur != "" {
      assert Concat([cur]) == cur + Concat([]);
    }
  }

  /** One step keeps the characters: what it emits, glued together and followed by the
      new word in progress, is the old word in progress and the character unless it is
      a space. */
  lemma StepConcat(c: char, cur: string)
    requires IsSpace(c) ==> c == ' '
    ensures Concat(Emit(c, cur)) + Next(c, cur) == cur + RemoveWhitespace([c])
  {
    assert RemoveWhitespace([c]) == if IsSpace(c) then [] else [c] by {
      assert [c][1..] == [];
    }
    ConcatFlush(cur);
    if IsPunct(c) {
      ConcatAppend(Flush(cur), [[c]]);
      assert Concat([[c]]) == [c] + Concat([]);
    } else if !IsWordPart(c) && c != ' ' && cur == "" {
      assert Concat([[c]]) == [c] + Concat([]);
    }
  }

  /** One step emits well-formed tokens and leaves a word in progress. */
  lemma StepShape(c: char, cur: string)
    requires Partial(cur) && (IsSpace(c) ==> c == ' ')
    ensures forall k :: 0 <= k < |Emit(c, cur)| ==> WellFormedToken(Emit(c, cur)[k])
    ensures Partial(Next(c, cur))
  {
    if IsWordPart(c) {
      assert !IsSpace(c) && !IsPunct(c);
    }
  }

  lemma PlainSpacesTail(s: string)
    requires |s| > 0 && PlainSpaces(s)
    ensures PlainSpaces(s[1..]) && (IsSpace(s[0]) ==> s[0] == ' ')
  {
    forall i | 0 <= i < |s[1..]| && IsSpace(s[1..][i])
      ensures s[1..][i] == ' '
    {
      assert s[1..][i] == s[i + 1];
    }
  }

  /** Glued together, the tokens of the loop are the word in progress followed by the
      rest of the text without its spaces. */
  lemma {:induction false} ScanConcat(s: string, cur: string)
    requires PlainSpaces(s)
    ensures Concat(Scan(s, cur)) == cur + RemoveWhitespace(s)
    decreases |s|
  {
    if |s| == 0 {
      ConcatFlush(cur);
    } else {
      var c, n := s[0], Next(s[0], cur);
      PlainSpacesTail(s);
      ScanConcat(s[1..], n);
      ConcatAppend(Emit(c, cur), Scan(s[1..], n));
      StepConcat(c, cur);
      assert s == [c] + s[1..];
      RemoveWhitespaceAppend([c], s[1..]);
      Assoc3(Concat(Emit(c, cur)), n, RemoveWhitespace(s[1..]));
      Assoc3(cur, RemoveWhitespace([c]), RemoveWhitespace(s[1..]));
    }
  }

  /** Every token of the loop is well formed. */
  lemma {:induction false} ScanShape(s: string, cur: string)
    requires PlainSpaces(s) && Partial(cur)
    ensures forall k :: 0 <= k < |Scan(s, cur)| ==> WellFormedToken(Scan(s, cur)[k])
    decreases |s|
  {
    if |s| > 0 {
      var c, n := s[0], Next(s[0], cur);
      PlainSpacesTail(s);
      StepShape(c, cur);
      ScanShape(s[1..], n);
      var e, rest := Emit(c, cur), Scan(s[1..], n);
      assert Scan(s, cur) == e + rest;
      forall k | 0 <= k < |e + rest|
        ensures WellFormedToken((e + rest)[k])
      {
        if k >= |e| {
          assert (e + rest)[k] == rest[k - |e|];
        }
      }
    }
  }

  lemma PlainSpacesAppend(a: string, b: string)
    requires PlainSpaces(a) && PlainSpaces(b)
    ensures PlainSpaces(a + b)
  {
    forall i | 0 <= i < |a + b| && IsSpace((a + b)[i])
      ensures (a + b)[i] == ' '
    {
      if i >= |a| {
        assert (a + b)[i] == b[i - |a|];
      }
    }
  }

  /** Words joined by single spaces: the only whitespace is the spaces, and without them
      the words are glued together. */
  lemma {:induction false} JoinSpaces(ws: seq<string>)
    requires forall k :: 0 <= k < |ws| ==> IsToken(ws[k])
    ensures PlainSpaces(Join(" ", ws))
    ensures RemoveWhitespace(Join(" ", ws)) == Concat(ws)
    decreases |ws|
  {
    if |ws| == 1 {
      RemoveWhitespaceOfToken(ws[0]);
      assert Concat(ws) == ws[0] + Concat([]);
    } else if |ws| > 1 {
      var w, rest := ws[0], Join(" ", ws[1..]);
      JoinSpaces(ws[1..]);
      RemoveWhitespaceOfToken(w);
      assert Join(" ", ws) == w + " " + rest;
      RemoveWhitespaceAppend(w + " ", rest);
      RemoveWhitespaceAppend(w, " ");
      assert RemoveWhitespace(" ") == "" by {
        assert " "[1..] == "";
      }
      assert Concat(ws) == w + Concat(ws[1..]);
      assert PlainSpaces(w);
      assert PlainSpaces(" ");
      PlainSpacesAppend(w, " ");
      PlainSpacesAppend(w + " ", rest);
    }
  }

  /** Squeezing the whitespace leaves plain spaces and the same non-space characters. */
  lemma SqueezeSpaces(s: string)
    ensures PlainSpaces(Squeeze(s))
    ensures RemoveWhitespace(Squeeze(s)) == RemoveWhitespace(s)
  {
    JoinSpaces(Words(s));
    WordsConcat(s);
  }

  /** The tokens of a sentence, glued together, are the sentence without its whitespace,
      and each is non-empty, free of whitespace, and a punctuation mark only on its own. */
  lemma TokensShape(sentence: string)
    ensures Concat(Tokens(sentence)) == RemoveWhitespace(sentence)
    ensures forall k :: 0 <= k < |Tokens(sentence)| ==> WellFormedToken(Tokens(sentence)[k])
  {
    SqueezeSpaces(sentence);
    ScanConcat(Squeeze(sentence), "");
    ScanShape(Squeeze(sentence), "");
  }

  /** A run of word characters extends the word in progress. */
  lemma {:induction false} ScanWordRun(w: string, rest: string, cur: string)
    requires forall i :: 0 <= i < |w| ==> IsWordPart(w[i])
    ensures Scan(w + rest, cur) == Scan(rest, cur + w)
    decreases |w|
  {
    if |w| == 0 {
      assert w + rest == rest && cur + w == cur;
    } else {
      assert (w + rest)[0] == w[0] && (w + rest)[1..] == w[1..] + rest;
      ScanWordRun(w[1..], rest, cur + [w[0]]);
      assert cur + [w[0]] + w[1..] == cur + w;
    }
  }

  /** Apostrophes and hyphens stay inside their word: a run of letters, digits, `'` and
      `-` is a single token. */
  lemma WordPartsStayTogether(w: string)
    requires |w| > 0 && forall i :: 0 <= i < |w| ==> IsWordPart(w[i])
    ensures Tokens(w) == [w]
  {
    assert IsToken(w) by {
      forall i | 0 <= i < |w|
        ensures !IsSpace(w[i])
      {
        assert IsWordPart(w[i]);
      }
    }
    WordsOfToken(w);
    ScanWordRun(w, "", "");
    assert w + "" == w && "" + w == w;
  }

  predicate WordRun(w: string)
  {
    |w| > 0 && forall i :: 0 <= i < |w| ==> IsWordPart(w[i])
  }

  /** A word run followed by a punctuation mark is a whitespace-free word. */
  lemma PunctuatedToken(a: string, p: char)
    requires WordRun(a) && IsPunct(p)
    ensures IsToken(a + [p])
  {
    var x := a + [p];
    forall i | 0 <= i < |x|
      ensures !IsSpace(x[i])
    {
      if i < |a| { assert IsWordPart(a[i]); }
    }
  }

  /** One turn of the loop. */
  lemma ScanCons(c: char, rest: string, cur: string)
    ensures Scan([c] + rest, cur) == Emit(c, cur) + Scan(rest, Next(c, cur))
  {
    assert ([c] + rest)[0] == c && ([c] + rest)[1..] == rest;
  }

  /** A word closed by a punctuation mark: the word, then the mark, then a fresh start. */
  lemma ScanPunctuated(a: string, p: char, rest: string)
    requires WordRun(a) && IsPunct(p)
    ensures Scan(a + ([p] + rest), "") == [a, [p]] + Scan(rest, "")
  {
    ScanWordRun(a, [p] + rest, "");
    assert "" + a == a;
    ScanCons(p, rest, a);
    PunctStep(p, a);
  }

  /** A punctuation mark after a word: the word, then the mark. */
  lemma PunctStep(p: char, cur: string)
    requires IsPunct(p) && cur != ""
    ensures Emit(p, cur) == [cur, [p]] && Next(p, cur) == ""
  {
    assert !IsWordPart(p);
    assert Flush(cur) + [[p]] == [cur, [p]];
  }

  /** The loop over two punctuated words with a space between. */
  lemma ScanTwoPunctuated(a: string, p: char, b: string, q: char)
    requires WordRun(a) && WordRun(b) && IsPunct(p) && IsPunct(q)
    ensures Scan(a + [p] + " " + b + [q], "") == [a, [p], b, [q]]
  {
    assert a + [p] + " " + b + [q] == a + ([p] + ([' '] + (b + ([q] + []))));
    ScanPunctuated(a, p, [' '] + (b + ([q] + [])));
    ScanCons(' ', b + ([q] + []), "");
    SpaceStep("");
    ScanPunctuated(b, q, []);
    assert Scan([], "") == [];
  }

  /** A space ends the word in progress. */
  lemma SpaceStep(cur: string)
    ensures Emit(' ', cur) == Flush(cur) && Next(' ', cur) == ""
  {
  }

  /** Two words, each closed by a punctuation mark, with a space between: four tokens. */
  lemma TwoPunctuatedWords(a: string, p: char, b: string, q: char)
    requires WordRun(a) && WordRun(b) && IsPunct(p) && IsPunct(q)
    ensures Tokens(a + [p] + " " + b + [q]) == [a, [p], b, [q]]
  {
    var x, y := a + [p], b + [q];
    PunctuatedToken(a, p);
    PunctuatedToken(b, q);
    WordsJoin([x, y]);
    assert Join(" ", [x, y]) == a + [p] + " " + b + [q] by {
      assert Join(" ", [x, y][1..]) == y;
    }
    ScanTwoPunctuated(a, p, b, q);
  }

  /** "Hello, world!" gives ["Hello", ",", "world", "!"]. */
  lemma HelloWorld()
    ensures Tokens("Hello, world!") == ["Hello", ",", "world", "!"]
  {
    TwoPunctuatedWords("Hello", ',', "world", '!');
    assert "Hello" + [','] + " " + "world" + ['!'] == "Hello, world!";
  }

  /** What the tokenizer does, as a loop over the squeezed sentence. */
  method Tokenize(sentence: string) returns (tokens: seq<string>)
    ensures tokens == Tokens(sentence)
    ensures Concat(tokens) == RemoveWhitespace(sentence)
    ensures forall k :: 0 <= k < |tokens| ==> WellFormedToken(tokens[k])
  {
    var s := Join(" ", Words(sentence));
    tokens := [];
    var cur := "";
    var i := 0;
    while i < |s|
      invariant 0 <= i <= |s|
      invariant tokens + Scan(s[i..], cur) == Scan(s, "")
    {
      ScanAt(s, i, cur);
      ghost var before, was := tokens, cur;
      tokens, cur := Feed(s[i], tokens, cur);
      SeqAssoc(before, Emit(s[i], was), Scan(s[i + 1..], cur));
      i := i + 1;
    }
    if cur != "" {
      tokens := tokens + [cur];
    }
    assert s[0..] == s;
    TokensShape(sentence);
  }

  /** One step of the character loop: the character either extends the word in progress
      or ends it, and a punctuation mark or a lone other character becomes a token. */
  method Feed(c: char, tokens: seq<string>, cur: string) returns (tokens': seq<string>, cur': string)
    ensures tokens' == tokens + Emit(c, cur) && cur' == Next(c, cur)
  {
    tokens', cur' := tokens, cur;
    if IsWordPart(c) {
      cur' := cur + [c];
    } else if IsPunct(c) {
      if cur != "" {
        tokens' := tokens' + [cur];
        cur' := "";
      }
      tokens' := tokens' + [[c]];
    } else if c == ' ' {
      if cur != "" {
        tokens' := tokens' + [cur];
        cur' := "";
      }
    } else {
      if cur != "" {
        cur' := cur + [c];
      } else {
        tokens' := tokens' + [[c]];
      }
    }
  }

  /** The loop from position `i` on: the character there, then the rest. */
  lemma ScanAt(s: string, i: nat, cur: string)
    requires i < |s|
    ensures Scan(s[i..], cur) == Emit(s[i], cur) + Scan(s[i + 1..], Next(s[i], cur))
  {
    assert s[i..][0] == s[i] && s[i..][1..] == s[i + 1..];
  }

  // ------------------------------------------------------------ quality filter

  /** Ends in '.', '!' or '?'. */
  predicate EndsSentence(t: string)
  {
    |t| > 0 && (t[|t| - 1] == '.' || t[|t| - 1] == '!' || t[|t| - 1] == '?')
  }

  /** The text, given a full stop when it does not end in '.', '!' or '?'. */
  function Closed(text: string): (r: string)
    requires text != ""
  {
    if text[|text| - 1] in ".!?" then text else text + "."
  }

  /** `_filter_quality_sentences` on one text: stripped, non-empty, six to twenty words,
      closed, then dropped when it has more than two commas or any semicolon. */
  function Polish(raw: string): (r: Option<string>)
  {
    var text := Strip(raw);
    if text == "" then None
    else if |Words(text)| < MinWords || |Words(text)| > MaxWords then None
    else
      var t := Closed(text);
      if CountChar(t, ',') > 2 || CountChar(t, ';') > 0 then None else Some(t)
  }

  lemma CountCharAppend(s: string, x: string, c: char)
    ensures CountChar(s + x, c) == CountChar(s, c) + CountChar(x, c)
    decreases |s|
  {
    if |s| > 0 {
      assert (s + x)[1..] == s[1..] + x;
      CountCharAppend(s[1..], x, c);
    } else {
      assert s + x == x;
    }
  }

  /** Appending a non-space character to a text ending in one adds no word. */
  lemma {:induction false} WordsAppendChar(s: string, c: char)
    requires |s| > 0 && !IsSpace(s[|s| - 1]) && !IsSpace(c)
    ensures |Words(s + [c])| == |Words(s)|
    decreases |s|
  {
    var sc := s + [c];
    assert sc[0] == s[0];
    if IsSpace(s[0]) {
      assert sc[1..] == s[1..] + [c];
      WordsAppendChar(s[1..], c);
    } else {
      var n := TokenLen(s);
      TokenLenAppend(s, [c]);
      if n < |s| {
        assert sc[n..] == s[n..] + [c];
        assert s[n..][0] == s[n];
        WordsAppendChar(s[n..], c);
      } else {
        assert TokenLen(sc) == |sc|;
        assert sc[|sc|..] == [] && s[|s|..] == [];
      }
    }
  }

  /** The leading run of non-space characters is not changed by what follows a space, and
      grows by what follows when the whole text is one run. */
  lemma {:induction false} TokenLenAppend(s: string, x: string)
    requires |x| > 0 && !IsSpace(x[0])
    ensures TokenLen(s) < |s| ==> TokenLen(s + x) == TokenLen(s)
    ensures TokenLen(s) == |s| ==> TokenLen(s + x) >= |s| + 1
    decreases |s|
  {
    if |s| == 0 {
      assert s + x == x;
    } else {
      assert (s + x)[0] == s[0];
      assert (s + x)[1..] == s[1..] + x;
      if !IsSpace(s[0]) {
        TokenLenAppend(s[1..], x);
      }
    }
  }

  /** Closing a stripped text keeps its words, commas and semicolons, and makes it end a
      sentence. */
  lemma ClosedKeeps(text: string)
    requires text != "" && !IsSpace(text[|text| - 1])
    ensures Closed(text) == text || Closed(text) == text + "."
    ensures EndsSentence(Closed(text))
    ensures |Words(Closed(text))| == |Words(text)|
    ensures CountChar(Closed(text), ',') == CountChar(text, ',')
    ensures CountChar(Closed(text), ';') == CountChar(text, ';')
  {
    if text[|text| - 1] !in ".!?" {
      FullStopCounts(text);
      WordsAppendChar(text, '.');
      assert (text + ".")[|text|] == '.';
    }
  }

  /** A full stop adds no comma and no semicolon. */
  lemma FullStopCounts(text: string)
    ensures CountChar(text + ".", ',') == CountChar(text, ',')
    ensures CountChar(text + ".", ';') == CountChar(text, ';')
  {
    CountCharAppend(text, ".", ',');
    CountCharAppend(text, ".", ';');
    assert CountChar(".", ',') == 0 && CountChar(".", ';') == 0;
  }

  /** A stripped non-empty text ends in a non-space character. */
  lemma StrippedEnd(raw: string)
    requires Strip(raw) != ""
    ensures !IsSpace(Strip(raw)[|Strip(raw)| - 1])
  {
    var t := Strip(raw);
    assert Trimmed(t, Whitespace);
    assert t[|t| - 1] !in Whitespace;
  }

  /** What the filter keeps of a text: exactly the stripped texts of six to twenty words
      with at most two commas and no semicolon. */
  lemma PolishAccepts(raw: string)
    ensures var text := Strip(raw);
      Polish(raw).Some? <==>
        (text != "" && MinWords <= |Words(text)| <= MaxWords
         && CountChar(text, ',') <= 2 && ';' !in text)
  {
    var text := Strip(raw);
    if text != "" && MinWords <= |Words(text)| <= MaxWords {
      StrippedEnd(raw);
      ClosedKeeps(text);
    }
  }

  /** The kept text is the stripped text, closed: it has six to twenty words, ends a
      sentence, and has at most two commas and no semicolon. */
  lemma PolishKeeps(raw: string)
    requires Polish(raw).Some?
    ensures var t := Polish(raw).value;
      && (t == Strip(raw) || t == Strip(raw) + ".")
      && MinWords <= |Words(t)| <= MaxWords
      && EndsSentence(t)
      && CountChar(t, ',') <= 2 && ';' !in t
  {
    StrippedEnd(raw);
    ClosedKeeps(Strip(raw));
  }

  /** The filter over the texts the generator reads, in order. */
  function QualityTexts(texts: seq<string>): (r: seq<string>)
    ensures |r| <= |texts|
    decreases |texts|
  {
    if |texts| == 0 then []
    else
      var rest := QualityTexts(texts[1..]);
      match Polish(texts[0])
      case Some(t) => [t] + rest
      case None => rest
  }

  /** Each kept text is the polished form of a text read, and each text that polishes is
      kept. */
  lemma {:induction false} QualityTextsFrom(texts: seq<string>)
    ensures forall t :: t in QualityTexts(texts) <==> exists j :: 0 <= j < |texts| && Polish(texts[j]) == Some(t)
    decreases |texts|
  {
    if |texts| > 0 {
      QualityTextsFrom(texts[1..]);
      forall t | t in QualityTexts(texts)
        ensures exists j :: 0 <= j < |texts| && Polish(texts[j]) == Some(t)
      {
        if Polish(texts[0]) != Some(t) {
          assert t in QualityTexts(texts[1..]);
          var j :| 0 <= j < |texts[1..]| && Polish(texts[1..][j]) == Some(t);
          assert Polish(texts[j + 1]) == Some(t);
        }
      }
      forall t | exists j :: 0 <= j < |texts| && Polish(texts[j]) == Some(t)
        ensures t in QualityTexts(texts)
      {
        var j :| 0 <= j < |texts| && Polish(texts[j]) == Some(t);
        if j > 0 {
          assert Polish(texts[1..][j - 1]) == Some(t);
        }
      }
    }
  }

  // ------------------------------------------------------------ tokens of a kept text

  /** Text that follows a space starts the loop afresh. */
  lemma {:induction false} ScanThenSpace(w: string, rest: string, cur: string)
    ensures Scan(w + " " + rest, cur) == Scan(w, cur) + Scan(rest, "")
    decreases |w|
  {
    var s := w + " " + rest;
    if |w| == 0 {
      assert s == " " + rest;
      assert s[0] == ' ' && s[1..] == rest;
    } else {
      var c := w[0];
      assert s[0] == c && s[1..] == w[1..] + " " + rest;
      if IsWordPart(c) {
        ScanThenSpace(w[1..], rest, cur + [c]);
      } else if IsPunct(c) {
        ScanThenSpace(w[1..], rest, "");
      } else if c == ' ' {
        ScanThenSpace(w[1..], rest, "");
      } else if cur != "" {
        ScanThenSpace(w[1..], rest, cur + [c]);
      } else {
        ScanThenSpace(w[1..], rest, "");
      }
    }
  }

  /** A word in progress, or a first character that is not a space, yields a token. */
  lemma {:induction false} ScanNonEmpty(s: string, cur: string)
    requires cur != "" || (|s| > 0 && s[0] != ' ')
    ensures |Scan(s, cur)| >= 1
    decreases |s|
  {
    if |s| > 0 {
      var c := s[0];
      if IsWordPart(c) {
        ScanNonEmpty(s[1..], cur + [c]);
      } else if !IsPunct(c) && c != ' ' && cur != "" {
        ScanNonEmpty(s[1..], cur + [c]);
      }
    }
  }

  /** Each space-separated word yields at least one token. */
  lemma {:induction false} ScanJoinCount(ws: seq<string>)
    requires forall k :: 0 <= k < |ws| ==> IsToken(ws[k])
    ensures |Scan(Join(" ", ws), "")| >= |ws|
    decreases |ws|
  {
    if |ws| == 1 {
      ScanNonEmpty(ws[0], "");
    } else if |ws| > 1 {
      ScanJoinCount(ws[1..]);
      assert Join(" ", ws) == ws[0] + " " + Join(" ", ws[1..]);
      ScanThenSpace(ws[0], Join(" ", ws[1..]), "");
      ScanNonEmpty(ws[0], "");
    }
  }

  /** A sentence has at least as many tokens as words. */
  lemma TokensAtLeastWords(sentence: string)
    ensures |Tokens(sentence)| >= |Words(sentence)|
  {
    ScanJoinCount(Words(sentence));
  }

  // ------------------------------------------------------------ difficulty

  /** `t not in '.,!?;:'`: a token counts as a word unless it is a piece of that string. */
  predicate CountsAsWord(t: string)
  {
    !Contains(".,!?;:", t)
  }

  /** For the tokenizer's tokens the substring test singles out exactly the punctuation
      tokens. */
  lemma CountsAsWordMeans(t: string)
    requires WellFormedToken(t)
    ensures CountsAsWord(t) <==> !(|t| == 1 && IsPunct(t[0]))
  {
    var p := ".,!?;:";
    if !CountsAsWord(t) {
      var i :| 0 <= i <= |p| && OccursAt(p, t, i);
      assert t[0] == p[i..i + |t|][0] == p[i];
    }
    if |t| == 1 && IsPunct(t[0]) {
      var i := if t[0] == '.' then 0 else if t[0] == ',' then 1 else if t[0] == '!' then 2
        else if t[0] == '?' then 3 else if t[0] == ';' then 4 else 5;
      assert p[i..i + 1] == t;
      assert OccursAt(p, t, i);
    }
  }

  function WordCount(tokens: seq<string>): (n: nat)
    ensures n <= |tokens|
  {
    |Filter(tokens, CountsAsWord)|
  }

  /** `sum(len(t) for t in tokens if t.isalnum())` */
  function AlnumLength(tokens: seq<string>): nat
    decreases |tokens|
  {
    if |tokens| == 0 then 0
    else (if IsAlnum(tokens[0]) then |tokens[0]| else 0) + AlnumLength(tokens[1..])
  }

  /** Whether the lowered sentence contains one of the connectives. */
  predicate HasConnective(sentence: string)
  {
    var s := Lower(sentence);
    Contains(s, "although") || Contains(s, "however") || Contains(s, "therefore")
    || Contains(s, "moreover") || Contains(s, "furthermore")
  }

  /** `max(word_count, 1)` */
  function Divisor(wc: nat): (m: nat)
    ensures m >= 1 && (wc >= 1 ==> m == wc)
  {
    if wc > 1 then wc else 1
  }

  /** The hard rule in whole numbers: a connective, fifteen or more words, or alphanumeric
      tokens of 7 characters or more on average. */
  predicate HardRule(sentence: string, tokens: seq<string>)
  {
    HasConnective(sentence) || WordCount(tokens) >= 15
    || AlnumLength(tokens) >= 7 * Divisor(WordCount(tokens))
  }

  /** The medium rule in whole numbers: ten or more words, or an average of 5 or more. */
  predicate MediumRule(tokens: seq<string>)
  {
    WordCount(tokens) >= 10 || AlnumLength(tokens) >= 5 * Divisor(WordCount(tokens))
  }

  /** `_assess_difficulty`: the floating-point average compared with 7 and 5 decides as
      the whole-number rules do. */
  function Difficulty(sentence: string, tokens: seq<string>): (r: string)
    ensures r == "hard" <==> HardRule(sentence, tokens)
    ensures r == "medium" <==> !HardRule(sentence, tokens) && MediumRule(tokens)
    ensures r == "easy" <==> !HardRule(sentence, tokens) && !MediumRule(tokens)
  {
    var wc := WordCount(tokens);
    var m := Divisor(wc);
    var avg := (AlnumLength(tokens) as real) / (m as real);
    AverageAtLeast(AlnumLength(tokens), m, 7);
    AverageAtLeast(AlnumLength(tokens), m, 5);
    if HasConnective(sentence) || wc >= 15 || avg >= 7.0 then "hard"
    else if wc >= 10 || avg >= 5.0 then "medium"
    else "easy"
  }

  // ------------------------------------------------------------ generate

  /** An item before numbering. */
  datatype Draft = Draft(english: string, tokens: seq<string>, difficulty: string)

  /** `generate`'s item: the accepted orders and the distractors are as stored. */
  datatype Item = Item(id: string, topicId: string, lessonId: string, difficulty: string,
                       english: string, translation: string, tokens: seq<string>,
                       accepted: seq<seq<string>>, distractors: Option<seq<string>>)

  /** What the loop makes of one kept sentence: nothing for "" or fewer than six tokens,
      else the sentence with its tokens and difficulty. */
  function Attempt(sentence: string): Option<Draft>
  {
    if sentence == "" then None
    else
      var tokens := Tokens(sentence);
      if |tokens| < MinWords then None
      else Some(Draft(sentence, tokens, Difficulty(sentence, tokens)))
  }

  function Attempts(q: seq<string>): (r: seq<Option<Draft>>)
    ensures |r| == |q| && forall k :: 0 <= k < |q| ==> r[k] == Attempt(q[k])
  {
    seq(|q|, k requires 0 <= k < |q| => Attempt(q[k]))
  }

  /** The six-token check never turns a kept sentence away: every sentence the filter
      keeps makes a draft. */
  lemma KeptSentencesTokenize(texts: seq<string>, k: nat)
    requires k < |QualityTexts(texts)|
    ensures Attempt(QualityTexts(texts)[k]).Some?
  {
    var t := QualityTexts(texts)[k];
    QualityTextsFrom(texts);
    var j :| 0 <= j < |texts| && Polish(texts[j]) == Some(t);
    PolishKeeps(texts[j]);
    TokensAtLeastWords(t);
  }

  /** A draft the loop keeps, under the key the loop remembers it by. */
  predicate Kept(x: (string, Draft), q: seq<string>)
  {
    && x.0 == Lower(x.1.english)
    && x.1.english in q
    && |x.1.tokens| >= MinWords
    && x.1.tokens == Tokens(x.1.english)
    && x.1.difficulty == Difficulty(x.1.english, x.1.tokens)
  }

  /** The loop of `generate` over the kept sentences: a sentence whose lowered form was
      already used, or that makes nothing, is skipped; at most four are kept. */
  function Loop(q: seq<string>): (r: seq<(string, Draft)>)
    ensures |r| <= MaxItems
    ensures NoDup(Firsts(r))
  {
    Collect(LowerAll(q), Attempts(q), {}, MaxItems)
  }

  lemma LoopKept(q: seq<string>)
    ensures forall k :: 0 <= k < |Loop(q)| ==> Kept(Loop(q)[k], q)
  {
    var made := Attempts(q);
    forall j | 0 <= j < |q| && made[j].Some?
      ensures Kept((LowerAll(q)[j], made[j].value), q)
    {
      assert q[j] in q;
    }
    CollectKeeps(LowerAll(q), made, {}, MaxItems, x => Kept(x, q));
  }

  function Values(ps: seq<(string, Draft)>): (r: seq<Draft>)
    ensures |r| == |ps| && forall k :: 0 <= k < |ps| ==> r[k] == ps[k].1
  {
    seq(|ps|, k requires 0 <= k < |ps| => ps[k].1)
  }

  /** `generate` before numbering: the drafts the loop keeps from the texts read. */
  function Drafts(texts: seq<string>): (r: seq<Draft>)
    ensures |r| <= MaxItems
  {
    Values(Loop(QualityTexts(texts)))
  }

  /** Each draft is a kept sentence, cut into at least six tokens, with its difficulty;
      no two sentences are equal ignoring case. */
  lemma DraftsKept(texts: seq<string>)
    ensures var d := Drafts(texts);
      && (forall k :: 0 <= k < |d| ==>
           && d[k].english in QualityTexts(texts)
           && d[k].tokens == Tokens(d[k].english) && |d[k].tokens| >= MinWords
           && d[k].difficulty == Difficulty(d[k].english, d[k].tokens))
      && (forall i, j :: 0 <= i < j < |d| ==> Lower(d[i].english) != Lower(d[j].english))
  {
    var q := QualityTexts(texts);
    var kept := Loop(q);
    LoopKept(q);
    forall i, j | 0 <= i < j < |kept|
      ensures Lower(kept[i].1.english) != Lower(kept[j].1.english)
    {
      assert Firsts(kept)[i] != Firsts(kept)[j];
    }
  }

  /** "sb_<lesson>_<n>" */
  function ItemId(lessonId: string, n: nat): string
  {
    "sb_" + lessonId + "_" + NatToString(n)
  }

  /** Different numbers give different ids within a lesson. */
  lemma ItemIdInjective(lessonId: string, m: nat, n: nat)
    requires m != n
    ensures ItemId(lessonId, m) != ItemId(lessonId, n)
  {
    var p := "sb_" + lessonId + "_";
    NatToStringInjective(m, n);
    assert ItemId(lessonId, m)[|p|..] == NatToString(m);
    assert ItemId(lessonId, n)[|p|..] == NatToString(n);
  }

  /** The item made of the `n`th draft: its tokens are the one accepted order, and there
      are no distractors. */
  function MakeItem(d: Draft, n: nat, topicId: string, lessonId: string, translations: seq<(string, string)>): (r: Item)
    ensures r.id == ItemId(lessonId, n) && r.topicId == topicId && r.lessonId == lessonId
    ensures r.english == d.english && r.tokens == d.tokens && r.difficulty == d.difficulty
    ensures r.accepted == [d.tokens] && r.distractors == None
    ensures r.translation == GeminiHelper.TranslateWith(d.english, translations)
  {
    Item(ItemId(lessonId, n), topicId, lessonId, d.difficulty, d.english,
         GeminiHelper.TranslateWith(d.english, translations), d.tokens, [d.tokens], None)
  }

  /** The drafts numbered from 1 under the topic and lesson. */
  function Number(d: seq<Draft>, topicId: string, lessonId: string, translations: seq<(string, string)>): (r: seq<Item>)
    ensures |r| == |d| && forall k :: 0 <= k < |r| ==> r[k] == MakeItem(d[k], k + 1, topicId, lessonId, translations)
    ensures forall i, j :: 0 <= i < j < |r| ==> r[i].id != r[j].id
  {
    var r := seq(|d|, k requires 0 <= k < |d| => MakeItem(d[k], k + 1, topicId, lessonId, translations));
    forall i, j | 0 <= i < j < |r|
      ensures r[i].id != r[j].id
    {
      ItemIdInjective(lessonId, i + 1, j + 1);
    }
    r
  }

  /** `generate(sentences, topic_id, lesson_id)` over the texts read from the records: at
      most four items with distinct ids under the topic and lesson. */
  function Generate(texts: seq<string>, topicId: string, lessonId: string, translations: seq<(string, string)>): (r: seq<Item>)
    ensures |r| <= MaxItems
    ensures forall i, j :: 0 <= i < j < |r| ==> r[i].id != r[j].id
    ensures forall k :: 0 <= k < |r| ==> r[k].topicId == topicId && r[k].lessonId == lessonId
  {
    Number(Drafts(texts), topicId, lessonId, translations)
  }

  /** Each item is a kept sentence with at least six tokens, its tokens the one accepted
      order, no distractors, numbered from 1; no two sentences are equal ignoring case. */
  lemma GenerateItems(texts: seq<string>, topicId: string, lessonId: string, translations: seq<(string, string)>)
    ensures var r := Generate(texts, topicId, lessonId, translations);
      && (forall k :: 0 <= k < |r| ==>
           && r[k].id == ItemId(lessonId, k + 1)
           && r[k].english in QualityTexts(texts)
           && r[k].tokens == Tokens(r[k].english) && |r[k].tokens| >= MinWords
           && r[k].accepted == [r[k].tokens] && r[k].distractors == None
           && r[k].translation == GeminiHelper.TranslateWith(r[k].english, translations))
      && (forall i, j :: 0 <= i < j < |r| ==> Lower(r[i].english) != Lower(r[j].english))
  {
    DraftsKept(texts);
  }

  /** The loop stops short of four items only when every kept sentence is among the items,
      ignoring case. */
  lemma GenerateComplete(texts: seq<string>, topicId: string, lessonId: string, translations: seq<(string, string)>, j: nat)
    requires j < |QualityTexts(texts)|
    requires |Generate(texts, topicId, lessonId, translations)| < MaxItems
    ensures var r := Generate(texts, topicId, lessonId, translations);
      exists k :: 0 <= k < |r| && Lower(r[k].english) == Lower(QualityTexts(texts)[j])
  {
    var q := QualityTexts(texts);
    var kept := Loop(q);
    var r := Generate(texts, topicId, lessonId, translations);
    KeptSentencesTokenize(texts, j);
    CollectComplete(LowerAll(q), Attempts(q), {}, MaxItems, j);
    LoopKept(q);
    var i :| 0 <= i < |kept| && Firsts(kept)[i] == Lower(q[j]);
    assert r[i].english == kept[i].1.english;
  }

  /** As written, `generate` reads the "text" field of the extractor's sentence records,
      which have none: every sentence is "", the filter keeps none, and no item is made. */
  lemma ExtractorRecordsMakeNothing(ps: seq<SentenceRecords.PracticeSentence>, topicId: string, lessonId: string, translations: seq<(string, string)>)
    ensures Generate(SentenceRecords.TextsAsWritten(ps), topicId, lessonId, translations) == []
  {
    var texts := SentenceRecords.TextsAsWritten(ps);
    NothingPolishedFromEmpty(texts);
  }

  lemma {:induction false} NothingPolishedFromEmpty(texts: seq<string>)
    requires forall k :: 0 <= k < |texts| ==> texts[k] == ""
    ensures QualityTexts(texts) == []
    decreases |texts|
  {
    if |texts| > 0 {
      assert Strip(texts[0]) == "";
      NothingPolishedFromEmpty(texts[1..]);
    }
  }

  /** Read through the "sentence" field, every item is one of the extractor's sentences,
      polished. */
  lemma ExtractorRecordsFeedItems(ps: seq<SentenceRecords.PracticeSentence>, topicId: string, lessonId: string, translations: seq<(string, string)>)
    ensures var r := Generate(SentenceRecords.Texts(ps), topicId, lessonId, translations);
      forall k :: 0 <= k < |r| ==> exists j :: 0 <= j < |ps| && Polish(ps[j].sentence) == Some(r[k].english)
  {
    var texts := SentenceRecords.Texts(ps);
    var r := Generate(texts, topicId, lessonId, translations);
    GenerateItems(texts, topicId, lessonId, translations);
    QualityTextsFrom(texts);
    forall k | 0 <= k < |r|
      ensures exists j :: 0 <= j < |ps| && Polish(ps[j].sentence) == Some(r[k].english)
    {
      var j :| 0 <= j < |texts| && Polish(texts[j]) == Some(r[k].english);
      assert texts[j] == ps[j].sentence;
    }
  }

  // ------------------------------------------------------------ distractors

  /** The distractor pool: verbs, nouns, adjectives and adverbs, in that order. */
  const SourcePool: seq<string> := [
    "running", "jumping", "eating", "sleeping", "working",
    "table", "chair", "book", "computer", "phone",
    "happy", "sad", "big", "small", "beautiful",
    "quickly", "slowly", "carefully", "easily", "hardly"]

  /** `[t.lower() for t in tokens if t.isalnum()]` */
  function WordTokens(tokens: seq<string>): (r: seq<string>)
    ensures forall w :: w in r <==> exists k :: 0 <= k < |tokens| && IsAlnum(tokens[k]) && w == Lower(tokens[k])
    decreases |tokens|
  {
    if |tokens| == 0 then []
    else
      var rest := WordTokens(tokens[1..]);
      assert forall k :: 0 <= k < |tokens[1..]| ==> tokens[1..][k] == tokens[k + 1];
      if IsAlnum(tokens[0]) then [Lower(tokens[0])] + rest else rest
  }

  /** The loop over the pool: each word not among the sentence's words is taken while
      fewer than `room` are taken. */
  function Pick(pool: seq<string>, words: seq<string>, room: nat): (r: seq<string>)
    decreases |pool|
  {
    if |pool| == 0 then []
    else if pool[0] !in words && room > 0 then [pool[0]] + Pick(pool[1..], words, room - 1)
    else Pick(pool[1..], words, room)
  }

  /** `_generate_distractors(tokens)` with the pool as a parameter. */
  function Distractors(tokens: seq<string>, pool: seq<string>): (r: seq<string>)
    ensures |r| <= 3
    ensures forall w :: w in r ==> w in pool && w !in WordTokens(tokens)
  {
    PickBound(pool, WordTokens(tokens), 3);
    Pick(pool, WordTokens(tokens), 3)
  }

  lemma {:induction false} PickBound(pool: seq<string>, words: seq<string>, room: nat)
    ensures |Pick(pool, words, room)| <= room
    ensures forall w :: w in Pick(pool, words, room) ==> w in pool && w !in words
    decreases |pool|
  {
    if |pool| > 0 {
      PickBound(pool[1..], words, if pool[0] !in words && room > 0 then room - 1 else room);
    }
  }

  /** The loop takes the first `room` pool words that are not among the sentence's words,
      in pool order. */
  lemma {:induction false} PickIsFirstUnused(pool: seq<string>, words: seq<string>, room: nat)
    ensures Pick(pool, words, room) == Take(Filter(pool, w => w !in words), room)
    decreases |pool|
  {
    if |pool| > 0 {
      var p := (w: string) => w !in words;
      assert Filter(pool, p) == (if p(pool[0]) then [pool[0]] else []) + Filter(pool[1..], p);
      if pool[0] !in words && room > 0 {
        PickIsFirstUnused(pool[1..], words, room - 1);
        assert Take(Filter(pool, p), room) == [pool[0]] + Take(Filter(pool[1..], p), room - 1);
      } else if pool[0] !in words {
        PickIsFirstUnused(pool[1..], words, room);
      } else {
        PickIsFirstUnused(pool[1..], words, room);
      }
    }
  }

  /** The distractors are the first three pool words that are not among the sentence's
      lowered alphanumeric tokens, in pool order. */
  lemma DistractorsAreFirstUnused(tokens: seq<string>, pool: seq<string>)
    ensures Distractors(tokens, pool) == Take(Filter(pool, w => w !in WordTokens(tokens)), 3)
  {
    PickIsFirstUnused(pool, WordTokens(tokens), 3);
  }

  /** `generate_with_distractors`: the same items, each given its distractors. */
  function GenerateWithDistractors(texts: seq<string>, topicId: string, lessonId: string,
                                  translations: seq<(string, string)>, pool: seq<string>): (r: seq<Item>)
    ensures |r| == |Generate(texts, topicId, lessonId, translations)|
    ensures forall k :: 0 <= k < |r| ==>
      r[k] == Generate(texts, topicId, lessonId, translations)[k].(distractors := Some(Distractors(r[k].tokens, pool)))
  {
    var items := Generate(texts, topicId, lessonId, translations);
    seq(|items|, k requires 0 <= k < |items| => items[k].(distractors := Some(Distractors(items[k].tokens, pool))))
  }
}
