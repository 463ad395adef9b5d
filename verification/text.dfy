/** The Python `str` operations the pipeline is built from, over `seq<char>`.
    Case mapping and the character classes (`isupper`, `isalnum`, regex `\w`)
    are ASCII; whitespace is exactly the set Python's `str.isspace`, `str.split()`,
    `str.strip()` and regex `\s` agree on. */
module Text {

  /** Every character Python's `str.isspace` accepts. */
  predicate IsSpace(c: char)
  {
    || c == ' ' || ('\t' <= c <= '\r') || ('\U{1C}' <= c <= '\U{1F}')
    || c == '\U{85}' || c == '\U{A0}' || c == '\U{1680}' || ('\U{2000}' <= c <= '\U{200A}')
    || c == '\U{2028}' || c == '\U{2029}' || c == '\U{202F}' || c == '\U{205F}' || c == '\U{3000}'
  }

  /** The same characters as a set, for `strip`. */
  const Whitespace: set<char> := set c: char | '\0' <= c <= '\U{3000}' && IsSpace(c)

  predicate IsUpperChar(c: char) { 'A' <= c <= 'Z' }
  predicate IsLowerChar(c: char) { 'a' <= c <= 'z' }
  predicate IsAlphaChar(c: char) { IsUpperChar(c) || IsLowerChar(c) }
  predicate IsDigitChar(c: char) { '0' <= c <= '9' }
  predicate IsAlnumChar(c: char) { IsAlphaChar(c) || IsDigitChar(c) }
  /** The regex class `\w`. */
  predicate IsWordChar(c: char) { IsAlnumChar(c) || c == '_' }

  function LowerChar(c: char): (r: char)
    ensures IsUpperChar(c) ==> IsLowerChar(r)
    ensures !IsUpperChar(c) ==> r == c
    ensures !IsUpperChar(r)
  {
    if IsUpperChar(c) then (c as int + 32) as char else c
  }

  /** `s.lower()` */
  function Lower(s: string): (r: string)
    ensures |r| == |s|
    ensures forall i :: 0 <= i < |s| ==> r[i] == LowerChar(s[i])
  {
    seq(|s|, i requires 0 <= i < |s| => LowerChar(s[i]))
  }

  /** `[w.lower() for w in ws]` */
  function LowerAll(ws: seq<string>): (r: seq<string>)
    ensures |r| == |ws| && forall k :: 0 <= k < |r| ==> r[k] == Lower(ws[k])
  {
    seq(|ws|, k requires 0 <= k < |ws| => Lower(ws[k]))
  }

  lemma LowerConcat(a: string, b: string)
    ensures Lower(a + b) == Lower(a) + Lower(b)
  {
  }

  lemma LowerIdempotent(s: string)
    ensures Lower(Lower(s)) == Lower(s)
  {
  }

  predicate IsLowercase(s: string)
  {
    forall i :: 0 <= i < |s| ==> !IsUpperChar(s[i])
  }

  /** `s.isdigit()`, `s.isalpha()`, `s.isalnum()`: non-empty and every character in the class. */
  predicate IsDigits(s: string) { |s| > 0 && forall i :: 0 <= i < |s| ==> IsDigitChar(s[i]) }
  predicate IsAlpha(s: string) { |s| > 0 && forall i :: 0 <= i < |s| ==> IsAlphaChar(s[i]) }
  predicate IsAlnum(s: string) { |s| > 0 && forall i :: 0 <= i < |s| ==> IsAlnumChar(s[i]) }

  /** Lowercase ASCII letters only, checked character by character (so it evaluates on literals). */
  predicate LowerLetters(w: string)
    decreases |w|
  {
    |w| == 0 || (IsLowerChar(w[0]) && LowerLetters(w[1..]))
  }

  lemma {:induction false} LowerLettersMeans(w: string)
    requires LowerLetters(w)
    ensures IsLowercase(w)
    ensures forall i :: 0 <= i < |w| ==> IsAlphaChar(w[i])
    decreases |w|
  {
    if |w| > 0 {
      LowerLettersMeans(w[1..]);
      assert forall i :: 1 <= i < |w| ==> w[i] == w[1..][i - 1];
    }
  }

  /** `s.startswith(p)` */
  predicate StartsWith(s: string, p: string) { |p| <= |s| && s[..|p|] == p }

  /** `s.endswith(p)` */
  predicate EndsWith(s: string, p: string) { |p| <= |s| && s[|s| - |p|..] == p }

  /** `sub` occurs in `s` starting at index `i`. */
  predicate OccursAt(s: string, sub: string, i: int)
  {
    0 <= i <= |s| - |sub| && s[i..i + |sub|] == sub
  }

  /** `sub in s`: `sub` occurs at some position of `s`. */
  predicate Contains(s: string, sub: string)
  {
    exists i :: 0 <= i <= |s| && OccursAt(s, sub, i)
  }

  lemma ContainsAt(s: string, sub: string, i: int)
    requires OccursAt(s, sub, i)
    ensures Contains(s, sub)
  {
  }

  lemma ContainsChar(s: string, c: char)
    ensures Contains(s, [c]) <==> c in s
  {
    if c in s {
      var i :| 0 <= i < |s| && s[i] == c;
      assert OccursAt(s, [c], i);
    }
    if Contains(s, [c]) {
      var i :| 0 <= i <= |s| && OccursAt(s, [c], i);
      assert s[i] == c;
    }
  }

  /** A text that lacks some character of `sub` does not contain `sub`. */
  lemma NotContainsByChar(s: string, sub: string, k: nat)
    requires k < |sub| && sub[k] !in s
    ensures !Contains(s, sub)
  {
    ContainsHasChar(s, sub, k);
  }

  /** Every character of a contained text occurs in the containing one. */
  lemma ContainsHasChar(s: string, sub: string, k: nat)
    requires k < |sub|
    ensures Contains(s, sub) ==> sub[k] in s
  {
    if Contains(s, sub) {
      var i :| 0 <= i <= |s| && OccursAt(s, sub, i);
      assert s[i + k] == sub[k];
    }
  }

  /** `\b` at index `p` of `s`. */
  predicate Boundary(s: string, p: nat)
    requires p <= |s|
  {
    (p > 0 && IsWordChar(s[p - 1])) != (p < |s| && IsWordChar(s[p]))
  }

  /** Neither end of `s` is a character of `cs`. */
  predicate Trimmed(s: string, cs: set<char>)
  {
    |s| == 0 || (s[0] !in cs && s[|s| - 1] !in cs)
  }

  /** No character of `s` is in `cs`. */
  predicate NoneIn(s: string, cs: set<char>)
  {
    forall i :: 0 <= i < |s| ==> s[i] !in cs
  }

  /** Number of leading characters of `s` that are in `cs`. */
  function LeadLen(s: string, cs: set<char>): (n: nat)
    ensures n <= |s|
    ensures forall k :: 0 <= k < n ==> s[k] in cs
    ensures n < |s| ==> s[n] !in cs
    decreases |s|
  {
    if |s| > 0 && s[0] in cs then 1 + LeadLen(s[1..], cs) else 0
  }

  /** Number of trailing characters of `s` that are in `cs`. */
  function TrailLen(s: string, cs: set<char>): (n: nat)
    ensures n <= |s|
    ensures forall k :: |s| - n <= k < |s| ==> s[k] in cs
    ensures n < |s| ==> s[|s| - 1 - n] !in cs
    decreases |s|
  {
    if |s| > 0 && s[|s| - 1] in cs then 1 + TrailLen(s[..|s| - 1], cs) else 0
  }

  /** `s.strip(chars)`: the slice left after dropping leading, then trailing, characters of `cs`. */
  function StripSet(s: string, cs: set<char>): (r: string)
    ensures |r| <= |s|
    ensures Trimmed(r, cs)
  {
    var a := LeadLen(s, cs);
    var b := TrailLen(s[a..], cs);
    s[a..|s| - b]
  }

  /** Stripping a string that is already trimmed changes nothing. */
  lemma StripSetTrimmed(s: string, cs: set<char>)
    requires Trimmed(s, cs)
    ensures StripSet(s, cs) == s
  {
    if |s| > 0 {
      assert LeadLen(s, cs) == 0;
      assert TrailLen(s[0..], cs) == 0 by { assert s[0..] == s; }
    }
  }

  /** A string whose first character survives stripping keeps it in front. */
  lemma StripSetKeepsHead(s: string, cs: set<char>)
    requires |s| > 0 && s[0] !in cs
    ensures |StripSet(s, cs)| > 0 && StripSet(s, cs)[0] == s[0]
  {
  }

  /** Stripping never introduces a character. */
  lemma StripSetNoneIn(s: string, cs: set<char>, ds: set<char>)
    requires NoneIn(s, ds)
    ensures NoneIn(StripSet(s, cs), ds)
  {
  }

  lemma WhitespaceHasNoLetters()
    ensures forall c :: c in Whitespace ==> !IsAlphaChar(c)
  {
  }

  /** A character outside a letter-free set `cs` does not lower-case into it. */
  lemma LowerCharOutside(c: char, cs: set<char>)
    requires forall d :: d in cs ==> !IsAlphaChar(d)
    requires c !in cs
    ensures LowerChar(c) !in cs
  {
  }

  lemma LowerSlice(s: string, a: nat, b: nat)
    requires a <= b <= |s|
    ensures Lower(s[a..b]) == Lower(s)[a..b]
  {
  }

  lemma ContainsInSlice(t: string, a: nat, b: nat, sub: string, i: nat)
    requires a <= i && i + |sub| <= b <= |t|
    requires OccursAt(t, sub, i)
    ensures Contains(t[a..b], sub)
  {
    var u := t[a..b];
    assert forall k :: 0 <= k < |u| ==> u[k] == t[a + k];
    assert u[i - a..i - a + |sub|] == t[i..i + |sub|];
    assert OccursAt(u, sub, i - a);
  }

  /** A case-insensitive occurrence of a word whose ends are outside a letter-free `cs`
      lies between the leading and the trailing run of `cs` characters. */
  lemma OccurrenceInside(s: string, w: string, cs: set<char>, i: nat)
    requires w != "" && Trimmed(w, cs)
    requires forall c :: c in cs ==> !IsAlphaChar(c)
    requires OccursAt(Lower(s), Lower(w), i)
    ensures LeadLen(s, cs) <= i
    ensures i + |w| <= |s| - TrailLen(s[LeadLen(s, cs)..], cs)
  {
    hide *;
    TrimmedEnds(w, cs);
    EndNotIn(s, w, cs, i, 0);
    EndNotIn(s, w, cs, i, |w| - 1);
    LeadBefore(s, cs, i);
    var lead := LeadLen(s, cs);
    var last := i + |w| - 1;
    var rest := s[lead..];
    assert rest[last - lead] == s[last];
    TrailAfter(rest, cs, last - lead);
  }

  /** Neither end of a non-empty trimmed word is in `cs`. */
  lemma TrimmedEnds(w: string, cs: set<char>)
    requires w != "" && Trimmed(w, cs)
    ensures w[0] !in cs && w[|w| - 1] !in cs
  {
  }

  /** The leading run of `cs` characters stops at or before any character outside `cs`. */
  lemma LeadBefore(s: string, cs: set<char>, j: nat)
    requires j < |s| && s[j] !in cs
    ensures LeadLen(s, cs) <= j
  {
  }

  /** The trailing run of `cs` characters starts after any character outside `cs`. */
  lemma TrailAfter(t: string, cs: set<char>, j: nat)
    requires j < |t| && t[j] !in cs
    ensures j < |t| - TrailLen(t, cs)
  {
  }

  /** A character of a case-insensitive occurrence is outside a letter-free `cs` when the
      word's character there is. */
  lemma EndNotIn(s: string, w: string, cs: set<char>, i: nat, k: nat)
    requires forall c :: c in cs ==> !IsAlphaChar(c)
    requires OccursAt(Lower(s), Lower(w), i) && k < |w| && w[k] !in cs
    ensures i + k < |s| && s[i + k] !in cs
  {
    assert LowerChar(s[i + k]) == LowerChar(w[k]) by { assert Lower(s)[i..i + |w|][k] == Lower(w)[k]; }
    LowerCharOutside(w[k], cs);
  }

  /** An occurrence of a word with no stripped character at either end survives
      stripping, case-insensitively, when no letter is stripped. */
  lemma StripSetKeepsOccurrence(s: string, w: string, cs: set<char>)
    requires w != "" && Trimmed(w, cs)
    requires forall c :: c in cs ==> !IsAlphaChar(c)
    requires Contains(Lower(s), Lower(w))
    ensures Contains(Lower(StripSet(s, cs)), Lower(w))
  {
    var i := OccurrenceOf(Lower(s), Lower(w));
    StripKeepsAt(s, w, cs, i);
  }

  /** A place where a contained text occurs. */
  lemma OccurrenceOf(s: string, sub: string) returns (i: nat)
    requires Contains(s, sub)
    ensures OccursAt(s, sub, i)
  {
    i :| 0 <= i <= |s| && OccursAt(s, sub, i);
  }

  lemma StripKeepsAt(s: string, w: string, cs: set<char>, i: nat)
    requires w != "" && Trimmed(w, cs)
    requires forall c :: c in cs ==> !IsAlphaChar(c)
    requires OccursAt(Lower(s), Lower(w), i)
    ensures Contains(Lower(StripSet(s, cs)), Lower(w))
  {
    var a := LeadLen(s, cs);
    var b := TrailLen(s[a..], cs);
    OccurrenceInside(s, w, cs, i);
    LowerStripped(s, cs, a, b);
    SliceContains(Lower(s), Lower(StripSet(s, cs)), a, |s| - b, Lower(w), i);
  }

  /** An occurrence lying inside a slice is an occurrence in the slice. */
  lemma SliceContains(t: string, u: string, a: nat, b: nat, sub: string, i: nat)
    requires a <= i && i + |sub| <= b <= |t| && u == t[a..b]
    requires OccursAt(t, sub, i)
    ensures Contains(u, sub)
  {
    ContainsInSlice(t, a, b, sub, i);
  }

  /** Lower-casing the stripped text is slicing the lower-cased text. */
  lemma LowerStripped(s: string, cs: set<char>, a: nat, b: nat)
    requires a == LeadLen(s, cs) && b == TrailLen(s[a..], cs)
    ensures a <= |s| - b && Lower(StripSet(s, cs)) == Lower(s)[a..|s| - b]
  {
    LowerSlice(s, a, |s| - b);
  }

  /** `s.strip()` */
  function Strip(s: string): (r: string)
    ensures |r| <= |s|
    ensures Trimmed(r, Whitespace)
  {
    StripSet(s, Whitespace)
  }

  /** A non-empty piece of text without whitespace: one result of `str.split()`. */
  predicate IsToken(t: string)
  {
    |t| > 0 && forall i :: 0 <= i < |t| ==> !IsSpace(t[i])
  }

  /** Length of the leading run of non-whitespace characters. */
  function TokenLen(s: string): (n: nat)
    ensures n <= |s|
    ensures forall k :: 0 <= k < n ==> !IsSpace(s[k])
    ensures n < |s| ==> IsSpace(s[n])
    decreases |s|
  {
    if |s| == 0 || IsSpace(s[0]) then 0 else 1 + TokenLen(s[1..])
  }

  /** `s.split()` — maximal runs of non-whitespace characters, in order. */
  function Words(s: string): (r: seq<string>)
    ensures forall k :: 0 <= k < |r| ==> IsToken(r[k])
    decreases |s|
  {
    if |s| == 0 then []
    else if IsSpace(s[0]) then Words(s[1..])
    else
      var n := TokenLen(s);
      [s[..n]] + Words(s[n..])
  }

  /** A token is one word. */
  lemma WordsOfToken(t: string)
    requires IsToken(t)
    ensures TokenLen(t) == |t|
    ensures Words(t) == [t]
    decreases |t|
  {
    if |t| > 1 {
      WordsOfToken(t[1..]);
      assert TokenLen(t) == 1 + TokenLen(t[1..]);
    } else {
      assert TokenLen(t[1..]) == 0;
    }
    assert t[..|t|] == t;
    assert t[|t|..] == [];
  }

  /** A token followed by a space: the first word, and the rest is split on its own. */
  lemma {:induction false} WordsCons(t: string, rest: string)
    requires IsToken(t)
    ensures Words(t + " " + rest) == [t] + Words(rest)
  {
    var s := t + " " + rest;
    TokenLenCons(t, rest);
    assert s[..|t|] == t;
    assert s[|t|..] == " " + rest;
    assert (" " + rest)[1..] == rest;
  }

  /** Three tokens separated by single spaces split into those three words. */
  lemma WordsOfThree(a: string, b: string, c: string)
    requires IsToken(a) && IsToken(b) && IsToken(c)
    ensures Words(a + " " + b + " " + c) == [a, b, c]
  {
    WordsOfToken(c);
    WordsCons(b, c);
    WordsCons(a, b + " " + c);
    SpacedAssoc(a, b, c);
  }

  lemma SpacedAssoc(a: string, b: string, c: string)
    ensures a + " " + b + " " + c == a + " " + (b + " " + c)
  {
  }

  lemma {:induction false} TokenLenCons(t: string, rest: string)
    requires IsToken(t)
    ensures TokenLen(t + " " + rest) == |t|
    decreases |t|
  {
    var s := t + " " + rest;
    if |t| == 1 {
      assert s[1..] == " " + rest;
    } else {
      TokenLenCons(t[1..], rest);
      assert s[1..] == t[1..] + " " + rest;
    }
  }

  function Concat(xs: seq<string>): (r: string)
    decreases |xs|
  {
    if |xs| == 0 then "" else xs[0] + Concat(xs[1..])
  }

  lemma ConcatAppend(xs: seq<string>, ys: seq<string>)
    ensures Concat(xs + ys) == Concat(xs) + Concat(ys)
    decreases |xs|
  {
    if |xs| > 0 {
      assert (xs + ys)[0] == xs[0];
      assert (xs + ys)[1..] == xs[1..] + ys;
      ConcatAppend(xs[1..], ys);
    } else {
      assert xs + ys == ys;
    }
  }

  /** `s` with every whitespace character removed. */
  function RemoveWhitespace(s: string): (r: string)
    ensures forall i :: 0 <= i < |r| ==> !IsSpace(r[i])
    decreases |s|
  {
    if |s| == 0 then ""
    else if IsSpace(s[0]) then RemoveWhitespace(s[1..])
    else [s[0]] + RemoveWhitespace(s[1..])
  }

  lemma RemoveWhitespaceAppend(a: string, b: string)
    ensures RemoveWhitespace(a + b) == RemoveWhitespace(a) + RemoveWhitespace(b)
    decreases |a|
  {
    if |a| > 0 {
      assert (a + b)[0] == a[0];
      assert (a + b)[1..] == a[1..] + b;
      RemoveWhitespaceAppend(a[1..], b);
    } else {
      assert a + b == b;
    }
  }

  lemma RemoveWhitespaceOfToken(t: string)
    requires forall i :: 0 <= i < |t| ==> !IsSpace(t[i])
    ensures RemoveWhitespace(t) == t
    decreases |t|
  {
    if |t| > 0 {
      RemoveWhitespaceOfToken(t[1..]);
    }
  }

  /** The words of `s`, glued together, are `s` without its whitespace. */
  lemma {:induction false} WordsConcat(s: string)
    ensures Concat(Words(s)) == RemoveWhitespace(s)
    decreases |s|
  {
    if |s| == 0 {
    } else if IsSpace(s[0]) {
      WordsConcat(s[1..]);
    } else {
      var n := TokenLen(s);
      assert s == s[..n] + s[n..];
      WordsConcat(s[n..]);
      RemoveWhitespaceAppend(s[..n], s[n..]);
      RemoveWhitespaceOfToken(s[..n]);
      assert Words(s)[1..] == Words(s[n..]);
    }
  }

  /** `sep.join(xs)` */
  function Join(sep: string, xs: seq<string>): (r: string)
    decreases |xs|
  {
    if |xs| == 0 then ""
    else if |xs| == 1 then xs[0]
    else xs[0] + sep + Join(sep, xs[1..])
  }

  /** Tokens joined by single spaces split back into the same tokens. */
  lemma {:induction false} WordsJoin(ws: seq<string>)
    requires forall k :: 0 <= k < |ws| ==> IsToken(ws[k])
    ensures Words(Join(" ", ws)) == ws
    decreases |ws|
  {
    if |ws| == 1 {
      WordsOfToken(ws[0]);
    } else if |ws| > 1 {
      WordsJoin(ws[1..]);
      WordsCons(ws[0], Join(" ", ws[1..]));
      assert [ws[0]] + ws[1..] == ws;
    }
  }

  /** Joining two non-empty lists puts the separator once between the two joins. */
  lemma {:induction false} JoinAppend(sep: string, a: seq<string>, b: seq<string>)
    requires |a| > 0 && |b| > 0
    ensures Join(sep, a + b) == Join(sep, a) + sep + Join(sep, b)
    decreases |a|
  {
    assert (a + b)[0] == a[0];
    if |a| == 1 {
      assert (a + b)[1..] == b;
    } else {
      JoinAppend(sep, a[1..], b);
      assert (a + b)[1..] == a[1..] + b;
    }
  }

  /** Joined tokens are empty exactly when there are none. */
  lemma JoinTokensEmpty(ws: seq<string>)
    requires forall k :: 0 <= k < |ws| ==> IsToken(ws[k])
    ensures Join(" ", ws) == "" <==> |ws| == 0
  {
    if |ws| > 0 {
      assert |Join(" ", ws)| >= |ws[0]|;
    }
  }

  /** Tokens joined by spaces, then a space and more text, split into the tokens and the
      words of that text. */
  lemma {:induction false} WordsJoinThen(ws: seq<string>, rest: string)
    requires |ws| > 0 && forall k :: 0 <= k < |ws| ==> IsToken(ws[k])
    ensures Words(Join(" ", ws) + " " + rest) == ws + Words(rest)
    decreases |ws|
  {
    if |ws| == 1 {
      WordsCons(ws[0], rest);
    } else {
      WordsJoinThen(ws[1..], rest);
      JoinCons(" ", ws[0], ws[1..]);
      assert [ws[0]] + ws[1..] == ws;
      WordsJoinStep(ws[0], Join(" ", ws[1..]), rest, ws[1..] + Words(rest));
      ConsAppend(ws[0], ws[1..], Words(rest), ws);
    }
  }

  /** One more token in front of a joined run followed by text adds that token in front
      of the run's words. */
  lemma WordsJoinStep(w: string, j: string, rest: string, tailWords: seq<string>)
    requires IsToken(w) && Words(j + " " + rest) == tailWords
    ensures Words((w + " " + j) + " " + rest) == [w] + tailWords
  {
    Regroup(w, " ", j, rest);
    WordsCons(w, j + " " + rest);
  }

  /** A token between two joined runs of tokens, each run with a space towards it, splits
      back into the runs and the token. */
  lemma WordsAround(a: seq<string>, w: string, b: seq<string>)
    requires forall k :: 0 <= k < |a| ==> IsToken(a[k])
    requires IsToken(w) && forall k :: 0 <= k < |b| ==> IsToken(b[k])
    ensures Words((Join(" ", a) + " ") + w + (" " + Join(" ", b))) == a + [w] + b
  {
    var tail := w + " " + Join(" ", b);
    var head := Join(" ", a) + " ";
    WordsCons(w, Join(" ", b));
    WordsJoin(b);
    Around(head, w, Join(" ", b));
    if |a| == 0 {
      assert head == " ";
      WordsAfterSpace(tail);
    } else {
      WordsJoinThen(a, tail);
    }
    SeqAssoc(a, [w], b);
  }

  /** Regrouping concatenations, stated once so that proofs need not rediscover it. */
  lemma Assoc3(a: string, b: string, c: string)
    ensures a + b + c == a + (b + c)
  {
  }

  lemma Assoc5(a: string, b: string, c: string, d: string, e: string)
    ensures (a + b + c) + d + e == a + (b + c + (d + e))
  {
  }

  lemma Around(x: string, w: string, y: string)
    ensures x + w + (" " + y) == x + (w + " " + y)
  {
  }

  lemma SeqAssoc<T>(a: seq<T>, b: seq<T>, c: seq<T>)
    ensures a + (b + c) == a + b + c
  {
  }

  lemma Regroup(x: string, sep: string, y: string, z: string)
    ensures (x + sep + y) + sep + z == x + sep + (y + sep + z)
  {
  }

  lemma ConsAppend<T>(x: T, a: seq<T>, b: seq<T>, c: seq<T>)
    requires [x] + a == c
    ensures [x] + (a + b) == c + b
  {
  }

  /** Leading whitespace does not change the words. */
  lemma WordsAfterSpace(s: string)
    ensures Words(" " + s) == Words(s)
  {
    assert (" " + s)[1..] == s;
  }

  /** Text inside a part is inside the whole. */
  lemma ContainsWithin(a: string, b: string, c: string, sub: string)
    requires Contains(b, sub)
    ensures Contains(a + b + c, sub)
  {
    var i :| 0 <= i <= |b| && OccursAt(b, sub, i);
    assert (a + b + c)[|a| + i..|a| + i + |sub|] == b[i..i + |sub|];
    assert OccursAt(a + b + c, sub, |a| + i);
  }

  /** A string ends with whatever was appended to it last. */
  lemma EndsWithAppended(a: string, b: string)
    ensures EndsWith(a + b, b)
  {
    assert (a + b)[|a + b| - |b|..] == b;
  }

  /** Index of the first `c` in `s`, or `|s|` when there is none. */
  function IndexOf(s: string, c: char): (i: nat)
    ensures i <= |s|
    ensures i < |s| ==> s[i] == c
    ensures forall k :: 0 <= k < i ==> s[k] != c
    decreases |s|
  {
    if |s| == 0 then 0 else if s[0] == c then 0 else 1 + IndexOf(s[1..], c)
  }

  /** `s.split(c)` for a one-character separator: never empty, no piece holds `c`. */
  function SplitOn(s: string, c: char): (r: seq<string>)
    ensures |r| >= 1
    ensures forall k :: 0 <= k < |r| ==> c !in r[k]
    decreases |s|
  {
    var i := IndexOf(s, c);
    if i == |s| then [s] else [s[..i]] + SplitOn(s[i + 1..], c)
  }

  /** Joining the pieces of `s.split(c)` with `c` gives `s` back. */
  lemma {:induction false} SplitOnJoin(s: string, c: char)
    ensures Join([c], SplitOn(s, c)) == s
    decreases |s|
  {
    var i := IndexOf(s, c);
    if i < |s| {
      var rest := SplitOn(s[i + 1..], c);
      SplitOnJoin(s[i + 1..], c);
      SplitOnFront(s, c);
      JoinCons([c], s[..i], rest);
      CutAround(s, i);
    }
  }

  /** A string with the separator splits into the piece before its first occurrence and
      the pieces of the rest. */
  lemma SplitOnFront(s: string, c: char)
    requires IndexOf(s, c) < |s|
    ensures SplitOn(s, c) == [s[..IndexOf(s, c)]] + SplitOn(s[IndexOf(s, c) + 1..], c)
  {
  }

  /** A string is what comes before a position, the character there, and what follows. */
  lemma CutAround(s: string, i: nat)
    requires i < |s|
    ensures s == s[..i] + [s[i]] + s[i + 1..]
  {
  }

  /** Joining a piece in front of at least one more puts the separator after it. */
  lemma JoinCons(sep: string, x: string, rest: seq<string>)
    requires |rest| > 0
    ensures Join(sep, [x] + rest) == x + sep + Join(sep, rest)
  {
    assert ([x] + rest)[1..] == rest;
  }

  /** The first `c` after a piece without `c` is the one right after the piece. */
  lemma IndexOfAfter(x: string, c: char, y: string)
    requires c !in x
    ensures IndexOf(x + [c] + y, c) == |x|
    decreases |x|
  {
    if |x| > 0 {
      assert (x + [c] + y)[1..] == x[1..] + [c] + y;
      IndexOfAfter(x[1..], c, y);
    }
  }

  /** Pieces without `c`, joined with `c`, split back into the same pieces. */
  lemma {:induction false} JoinSplitOn(xs: seq<string>, c: char)
    requires |xs| >= 1 && forall k :: 0 <= k < |xs| ==> c !in xs[k]
    ensures SplitOn(Join([c], xs), c) == xs
    decreases |xs|
  {
    if |xs| == 1 {
      assert IndexOf(xs[0], c) == |xs[0]|;
    } else {
      var rest := Join([c], xs[1..]);
      assert Join([c], xs) == xs[0] + [c] + rest;
      SplitOnCons(xs[0], c, rest);
      JoinSplitOn(xs[1..], c);
      assert xs == [xs[0]] + xs[1..];
    }
  }

  /** A piece without `c`, then `c`: the piece is the first part of the split. */
  lemma SplitOnCons(x: string, c: char, rest: string)
    requires c !in x
    ensures SplitOn(x + [c] + rest, c) == [x] + SplitOn(rest, c)
  {
    IndexOfAfter(x, c, rest);
    var s := x + [c] + rest;
    assert s[..|x|] == x;
    assert s[|x| + 1..] == rest;
  }

  /** Stripping leaves something exactly when some character lies outside `cs`. */
  lemma StripSetEmpty(s: string, cs: set<char>)
    ensures StripSet(s, cs) == "" <==> forall i :: 0 <= i < |s| ==> s[i] in cs
  {
    var a := LeadLen(s, cs);
    if a < |s| {
      assert s[a] !in cs;
      assert TrailLen(s[a..], cs) < |s[a..]|;
    }
  }

  /** `s.replace(pat, "")` — left-to-right, non-overlapping. */
  function RemoveAll(s: string, pat: string): (r: string)
    requires |pat| > 0
    ensures |r| <= |s|
    decreases |s|
  {
    if |s| < |pat| then s
    else if s[..|pat|] == pat then RemoveAll(s[|pat|..], pat)
    else [s[0]] + RemoveAll(s[1..], pat)
  }

  /** `re.sub(r'[^\w]', '', s)` */
  function KeepWordChars(s: string): (r: string)
    ensures |r| <= |s|
    ensures forall i :: 0 <= i < |r| ==> IsWordChar(r[i])
    decreases |s|
  {
    if |s| == 0 then ""
    else if IsWordChar(s[0]) then [s[0]] + KeepWordChars(s[1..])
    else KeepWordChars(s[1..])
  }

  lemma KeepWordCharsOfWord(s: string)
    requires forall i :: 0 <= i < |s| ==> IsWordChar(s[i])
    ensures KeepWordChars(s) == s
    decreases |s|
  {
    if |s| > 0 {
      KeepWordCharsOfWord(s[1..]);
    }
  }

  /** `re.sub(r'[^\w]', '', w).lower()`: the word characters of `w`, lower-cased. */
  function CleanWord(w: string): (r: string)
    ensures |r| <= |w|
    ensures IsCleanWord(r)
  {
    Lower(KeepWordChars(w))
  }

  /** Only lower-case word characters. */
  predicate IsCleanWord(w: string)
  {
    forall i :: 0 <= i < |w| ==> IsWordChar(w[i]) && !IsUpperChar(w[i])
  }

  /** A word that is already clean is its own clean form, so cleaning is idempotent. */
  lemma CleanWordFixed(w: string)
    requires IsCleanWord(w)
    ensures CleanWord(w) == w
  {
    KeepWordCharsOfWord(w);
  }

  /** Lower-case letters make a clean word. */
  lemma LettersAreClean(w: string)
    requires LowerLetters(w)
    ensures IsCleanWord(w)
  {
    LowerLettersMeans(w);
  }

  /** `s.count(c)` */
  function CountChar(s: string, c: char): (n: nat)
    ensures n <= |s|
    ensures n == 0 <==> c !in s
    decreases |s|
  {
    if |s| == 0 then 0 else (if s[0] == c then 1 else 0) + CountChar(s[1..], c)
  }

  /** `total / n >= m` in floating point, for a positive count `n`, is `total >= m * n`. */
  lemma AverageAtLeast(total: nat, n: nat, m: nat)
    requires n > 0
    ensures (total as real) / (n as real) >= m as real <==> total >= m * n
  {
    var avg := (total as real) / (n as real);
    assert avg * (n as real) == total as real;
    assert (m * n) as real == (m as real) * (n as real);
  }

  /** `str(n)` */
  function NatToString(n: nat): (r: string)
    ensures |r| > 0
    ensures forall i :: 0 <= i < |r| ==> IsDigitChar(r[i])
    decreases n
  {
    var d := ['0' + (n % 10) as char];
    if n < 10 then d else NatToString(n / 10) + d
  }

  /** `int(s)` for a string of digits. */
  function DigitsValue(s: string): (n: nat)
    requires forall i :: 0 <= i < |s| ==> IsDigitChar(s[i])
    decreases |s|
  {
    if |s| == 0 then 0
    else
      assert IsDigitChar(s[|s| - 1]);
      10 * DigitsValue(s[..|s| - 1]) + (s[|s| - 1] as int - '0' as int)
  }

  /** `int(str(n)) == n` */
  lemma {:induction false} NatToStringValue(n: nat)
    ensures DigitsValue(NatToString(n)) == n
    decreases n
  {
    var s := NatToString(n);
    if n >= 10 {
      NatToStringValue(n / 10);
      assert s[..|s| - 1] == NatToString(n / 10);
    }
  }

  /** Different numbers print differently. */
  lemma NatToStringInjective(m: nat, n: nat)
    requires m != n
    ensures NatToString(m) != NatToString(n)
  {
    NatToStringValue(m);
    NatToStringValue(n);
  }
}
