/** What the string operations do, character by character. */
module Texts {
  import opened Basics

  function LowerChar(c: char): char {
    if 'A' <= c <= 'Z' then (c as int + 32) as char else c
  }

  function UpperChar(c: char): char {
    if 'a' <= c <= 'z' then (c as int - 32) as char else c
  }

  lemma {:induction false} LowerAt(s: string)
    ensures |Lower(s)| == |s| && forall i | 0 <= i < |s| :: Lower(s)[i] == LowerChar(s[i])
  {
    if s == "" {
    } else {
      LowerAt(s[1..]);
    }
  }

  lemma {:induction false} UpperAt(s: string)
    ensures |Upper(s)| == |s| && forall i | 0 <= i < |s| :: Upper(s)[i] == UpperChar(s[i])
  {
    if s == "" {
    } else {
      UpperAt(s[1..]);
    }
  }

  ghost predicate AllSpace(s: string) {
    forall i | 0 <= i < |s| :: IsSpace(s[i])
  }

  /** A text whose ends, if it has any, are not white space. */
  predicate Trimmed(s: string) {
    s != "" ==> !IsSpace(s[0]) && !IsSpace(s[|s| - 1])
  }

  /** Stripping removes the white space around a trimmed text and nothing else. */
  lemma {:induction false} StripAround(pre: string, body: string, post: string)
    requires AllSpace(pre) && AllSpace(post) && Trimmed(body)
    ensures Strip(pre + body + post) == body
    decreases |pre| + |post|
  {
    var s := pre + body + post;
    if pre != "" {
      StripAround(pre[1..], body, post);
      assert s[0] == pre[0] && s[1..] == pre[1..] + body + post;
    } else if post != "" {
      var n := |post| - 1;
      StripAround(pre, body, post[..n]);
      assert s[|s| - 1] == post[n] && s[..|s| - 1] == pre + body + post[..n];
      if body == "" {
        assert s == post;
        BlankStrips(post);
      }
    } else {
      assert s == body;
    }
  }

  lemma {:induction false} BlankStrips(s: string)
    requires AllSpace(s)
    ensures Strip(s) == ""
  {
    if s == "" {
    } else {
      BlankStrips(s[1..]);
    }
  }

  lemma SplitFront(s: string, pre: string, body: string, post: string)
    requires s != "" && IsSpace(s[0]) && AllSpace(pre) && s[1..] == pre + body + post
    ensures AllSpace([s[0]] + pre) && s == [s[0]] + pre + body + post
  {
    assert s == [s[0]] + s[1..];
  }

  lemma SplitBack(s: string, pre: string, body: string, post: string)
    requires s != "" && IsSpace(s[|s| - 1]) && AllSpace(post) && s[..|s| - 1] == pre + body + post
    ensures AllSpace(post + [s[|s| - 1]]) && s == pre + body + (post + [s[|s| - 1]])
  {
    assert s == s[..|s| - 1] + [s[|s| - 1]];
  }

  /** Every text is a trimmed text with white space around it. */
  lemma {:induction false} StripSplits(s: string) returns (pre: string, post: string)
    ensures AllSpace(pre) && AllSpace(post) && Trimmed(Strip(s)) && s == pre + Strip(s) + post
    decreases |s|
  {
    if s == "" || (!IsSpace(s[0]) && !IsSpace(s[|s| - 1])) {
      pre, post := "", "";
    } else if IsSpace(s[0]) {
      pre, post := StripSplits(s[1..]);
      SplitFront(s, pre, Strip(s), post);
      pre := [s[0]] + pre;
    } else {
      pre, post := StripSplits(s[..|s| - 1]);
      SplitBack(s, pre, Strip(s), post);
      post := post + [s[|s| - 1]];
    }
  }

  /** The part stands at position i of the text. */
  predicate StandsAt(text: string, part: string, i: int) {
    0 <= i && i + |part| <= |text| && text[i..i + |part|] == part
  }

  lemma {:induction false} ContainsExactly(text: string, part: string)
    ensures Contains(text, part) <==> exists i: int :: StandsAt(text, part, i)
  {
    if part <= text {
      assert StandsAt(text, part, 0);
    } else if text != "" {
      ContainsExactly(text[1..], part);
      if Contains(text[1..], part) {
        var i: int :| StandsAt(text[1..], part, i);
        assert text[i + 1..i + 1 + |part|] == text[1..][i..i + |part|];
        assert StandsAt(text, part, i + 1);
      }
      if exists i: int :: StandsAt(text, part, i) {
        var i: int :| StandsAt(text, part, i);
        assert i > 0;
        assert text[1..][i - 1..i - 1 + |part|] == text[i..i + |part|];
        assert StandsAt(text[1..], part, i - 1);
      }
    }
  }

  /** The text reads as the word, whatever the case of its letters. */
  ghost predicate ReadsAs(text: string, word: string) {
    |text| == |word| && forall i | 0 <= i < |word| :: LowerChar(text[i]) == LowerChar(word[i])
  }

  /** The text is the word in any case, with any white space around it. */
  ghost predicate Writes(text: string, word: string) {
    exists pre: string, body: string, post: string ::
      AllSpace(pre) && AllSpace(post) && ReadsAs(body, word) && text == pre + body + post
  }

  predicate IsLetter(c: char) {
    'a' <= c <= 'z' || 'A' <= c <= 'Z'
  }

  lemma ReadsTrimmed(body: string, word: string)
    requires ReadsAs(body, word) && Trimmed(word)
    ensures Trimmed(body)
  {
    if word != "" {
      assert LowerChar(body[0]) == LowerChar(word[0]);
      assert LowerChar(body[|word| - 1]) == LowerChar(word[|word| - 1]);
    }
  }

  lemma SameCase(c: char, d: char)
    ensures LowerChar(c) == LowerChar(d) <==> UpperChar(c) == UpperChar(d)
  {
  }

  lemma ReadsLower(a: string, b: string)
    ensures ReadsAs(a, b) <==> Lower(a) == Lower(b)
  {
    LowerAt(a);
    LowerAt(b);
    if Lower(a) == Lower(b) {
      forall i | 0 <= i < |b| ensures LowerChar(a[i]) == LowerChar(b[i]) { assert Lower(a)[i] == Lower(b)[i]; }
    }
  }

  lemma ReadsUpper(a: string, b: string)
    ensures ReadsAs(a, b) <==> Upper(a) == Upper(b)
  {
    UpperAt(a);
    UpperAt(b);
    if ReadsAs(a, b) {
      forall i | 0 <= i < |b| ensures Upper(a)[i] == Upper(b)[i] { SameCase(a[i], b[i]); }
    }
    if Upper(a) == Upper(b) {
      forall i | 0 <= i < |b| ensures LowerChar(a[i]) == LowerChar(b[i]) {
        assert Upper(a)[i] == Upper(b)[i];
        SameCase(a[i], b[i]);
      }
    }
  }

  lemma WritesReads(text: string, word: string)
    requires Trimmed(word)
    ensures Writes(text, word) <==> ReadsAs(Strip(text), word)
  {
    if Writes(text, word) {
      var pre: string, body: string, post: string :|
        AllSpace(pre) && AllSpace(post) && ReadsAs(body, word) && text == pre + body + post;
      ReadsTrimmed(body, word);
      StripAround(pre, body, post);
    }
    var pre, post := StripSplits(text);
  }

  /** Texts that write one trimmed word are those whose stripped lower or upper case is the word's. */
  lemma WritesExactly(text: string, word: string)
    requires Trimmed(word)
    ensures Writes(text, word) <==> Lower(Strip(text)) == Lower(word)
    ensures Writes(text, word) <==> Upper(Strip(text)) == Upper(word)
  {
    WritesReads(text, word);
    ReadsLower(Strip(text), word);
    ReadsUpper(Strip(text), word);
  }

  /** Two words that one text writes read alike. */
  lemma WritesOne(text: string, a: string, b: string)
    requires Trimmed(a) && Trimmed(b) && Writes(text, a)
    ensures Writes(text, b) <==> ReadsAs(a, b)
  {
    WritesExactly(text, a);
    WritesExactly(text, b);
    ReadsLower(a, b);
  }

  lemma NoSpaces(word: string)
    requires forall i | 0 <= i < |word| :: '!' <= word[i] <= '~'
    ensures Trimmed(word)
  {
  }

  lemma UpperUnchanged(s: string)
    requires forall i | 0 <= i < |s| :: !('a' <= s[i] <= 'z')
    ensures Upper(s) == s
  {
    UpperAt(s);
  }

  lemma LowerUnchanged(s: string)
    requires forall i | 0 <= i < |s| :: !('A' <= s[i] <= 'Z')
    ensures Lower(s) == s
  {
    LowerAt(s);
  }

  /** Texts that write an upper-case word are those whose stripped upper case it is. */
  lemma WritesUpper(text: string, word: string)
    requires forall i | 0 <= i < |word| :: '!' <= word[i] < 'a'
    ensures Writes(text, word) <==> Upper(Strip(text)) == word
  {
    NoSpaces(word);
    WritesExactly(text, word);
    UpperUnchanged(word);
  }

  /** Texts that write a lower-case word are those whose stripped lower case it is. */
  lemma WritesLower(text: string, word: string)
    requires forall i | 0 <= i < |word| :: '!' <= word[i] <= '~' && !('A' <= word[i] <= 'Z')
    ensures Writes(text, word) <==> Lower(Strip(text)) == word
  {
    NoSpaces(word);
    WritesExactly(text, word);
    LowerUnchanged(word);
  }
}
