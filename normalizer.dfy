/** The token normalizer applied to every word Whisper produces, for the
    corpus recordings and for the song's vocals alike (main.py, lines 119-126
    and 188-195): strip every punctuation character, reject the token when
    what is left equals its own upper-case form, otherwise lower-case it.
    Case mapping is modelled on ASCII letters only. */
module Normalizer {
  import opened Wrappers

  /** `string.punctuation` (the ASCII ranges 0x21-0x2F, 0x3A-0x40, 0x5B-0x60
      and 0x7B-0x7E) followed by the space and the quotation, Spanish and CJK
      marks listed at main.py:9. */
  predicate IsPunctuation(c: char)
  {
    || '!' <= c <= '/' || ':' <= c <= '@' || '[' <= c <= '`' || '{' <= c <= '~'
    || c in { ' ', '\U{201C}', '\U{201D}', '\U{00BF}', '\U{00A1}', '\U{3002}',
              '\U{FF0C}', '\U{FF01}', '\U{FF1F}', '\U{FF1A}', '\U{3001}',
              '\U{FF1B}', '\U{FF0E}' }
  }

  predicate IsLowerAscii(c: char) { 'a' <= c <= 'z' }
  predicate IsUpperAscii(c: char) { 'A' <= c <= 'Z' }

  function UpperChar(c: char): char
  {
    if IsLowerAscii(c) then (c as int - 32) as char else c
  }

  function LowerChar(c: char): char
  {
    if IsUpperAscii(c) then (c as int + 32) as char else c
  }

  /** `str.upper()`: maps every character, keeps the length. */
  function Upper(s: string): (r: string)
    ensures |r| == |s|
    ensures forall i :: 0 <= i < |s| ==> r[i] == UpperChar(s[i])
  {
    if s == [] then [] else [UpperChar(s[0])] + Upper(s[1..])
  }

  /** `str.lower()`: maps every character, keeps the length. */
  function Lower(s: string): (r: string)
    ensures |r| == |s|
    ensures forall i :: 0 <= i < |s| ==> r[i] == LowerChar(s[i])
  {
    if s == [] then [] else [LowerChar(s[0])] + Lower(s[1..])
  }

  /** `"".join([c for c in word if c not in PUNCTUATION])`: keeps exactly the
      characters that are not punctuation, in their order. */
  function StripPunctuation(s: string): (r: string)
    ensures |r| <= |s|
    ensures forall c :: c in r <==> c in s && !IsPunctuation(c)
  {
    if s == [] then []
    else if IsPunctuation(s[0]) then StripPunctuation(s[1..])
    else [s[0]] + StripPunctuation(s[1..])
  }

  /** The whole expression of main.py:119-126; `None` is the `continue`.
      `word.strip()` at line 126 discards its result and is not modelled. */
  function Normalize(raw: string): (r: Option<string>)
    ensures r.None? <==> forall c :: c in StripPunctuation(raw) ==> !IsLowerAscii(c)
    ensures r.Some? ==>
      && |r.value| == |StripPunctuation(raw)|
      && forall c :: c in r.value ==> !IsPunctuation(c) && !IsUpperAscii(c)
  {
    var word := StripPunctuation(raw);
    AllCapsIffNoLower(word);
    LowerOfStrippedIsClean(word);
    if word == Upper(word) then None else Some(Lower(word))
  }

  /** Lower-casing a string without punctuation leaves neither punctuation
      nor capitals. */
  lemma LowerOfStrippedIsClean(s: string)
    requires forall c :: c in s ==> !IsPunctuation(c)
    ensures forall c :: c in Lower(s) ==> !IsPunctuation(c) && !IsUpperAscii(c)
  {
    forall c | c in Lower(s) ensures !IsPunctuation(c) && !IsUpperAscii(c) {
      var j :| 0 <= j < |Lower(s)| && Lower(s)[j] == c;
      assert s[j] in s;
    }
  }

  /** What an accepted word looks like: non-empty, no punctuation, no
      upper-case letter, and at least one lower-case letter. */
  predicate IsNormalWord(w: string)
  {
    && w != []
    && (forall c :: c in w ==> !IsPunctuation(c) && !IsUpperAscii(c))
    && (exists c :: c in w && IsLowerAscii(c))
  }

  /** A string equals its upper-case form exactly when it holds no lower-case
      letter. */
  lemma AllCapsIffNoLower(s: string)
    ensures s == Upper(s) <==> forall c :: c in s ==> !IsLowerAscii(c)
  {
    if s != Upper(s) {
      var i :| 0 <= i < |s| && s[i] != Upper(s)[i];
      assert s[i] in s && IsLowerAscii(s[i]);
    } else {
      forall c | c in s ensures !IsLowerAscii(c) {
        var i :| 0 <= i < |s| && s[i] == c;
        assert Upper(s)[i] == UpperChar(c);
      }
    }
  }

  /** A token is rejected exactly when it has no lower-case ASCII letter:
      all-caps words ("APPLAUSE"), the empty string, digits-only tokens and
      "I" alike. */
  lemma RejectedIffNoLowerCase(raw: string)
    ensures Normalize(raw).None? <==> forall c :: c in raw ==> !IsLowerAscii(c)
  {
    var word := StripPunctuation(raw);
    AllCapsIffNoLower(word);
    forall c | c in raw && IsLowerAscii(c) ensures c in word {
      assert !IsPunctuation(c);
    }
  }

  /** Checking for capitals before or after stripping gives the same answer,
      because no punctuation character has a case. */
  lemma AllCapsCheckIgnoresPunctuation(raw: string)
    ensures raw == Upper(raw) <==> StripPunctuation(raw) == Upper(StripPunctuation(raw))
  {
    var word := StripPunctuation(raw);
    AllCapsIffNoLower(raw);
    AllCapsIffNoLower(word);
    forall c | c in raw && IsLowerAscii(c) ensures c in word {
      assert !IsPunctuation(c);
    }
  }

  /** Every accepted token comes out as a normal word. */
  lemma AcceptedIsNormal(raw: string)
    requires Normalize(raw).Some?
    ensures IsNormalWord(Normalize(raw).value)
  {
    var word := StripPunctuation(raw);
    var w := Lower(word);
    assert w == Normalize(raw).value;
    AllCapsIffNoLower(word);
    var c :| c in word && IsLowerAscii(c);
    var i :| 0 <= i < |word| && word[i] == c;
    assert w[i] == c;
    forall d | d in w ensures !IsPunctuation(d) && !IsUpperAscii(d) {
      var j :| 0 <= j < |w| && w[j] == d;
      assert word[j] in word;
    }
  }

  /** Normalizing a normal word returns it unchanged. */
  lemma NormalWordIsFixedPoint(w: string)
    requires IsNormalWord(w)
    ensures Normalize(w) == Some(w)
  {
    var word := StripPunctuation(w);
    assert word == w by {
      NoPunctuationStripsToSelf(w);
    }
    AllCapsIffNoLower(w);
    assert Lower(w) == w;
  }

  /** Normalization is idempotent on accepted words. */
  lemma NormalizeIdempotent(raw: string)
    requires Normalize(raw).Some?
    ensures Normalize(Normalize(raw).value) == Normalize(raw)
  {
    AcceptedIsNormal(raw);
    NormalWordIsFixedPoint(Normalize(raw).value);
  }

  lemma {:induction false} NoPunctuationStripsToSelf(s: string)
    requires forall c :: c in s ==> !IsPunctuation(c)
    ensures StripPunctuation(s) == s
  {
    if s != [] {
      assert s[0] in s;
      assert forall c :: c in s[1..] ==> c in s;
      NoPunctuationStripsToSelf(s[1..]);
    }
  }

  /** Stripping a concatenation strips each part. */
  lemma {:induction false} StripConcat(a: string, b: string)
    ensures StripPunctuation(a + b) == StripPunctuation(a) + StripPunctuation(b)
  {
    if a != [] {
      assert (a + b)[0] == a[0];
      assert (a + b)[1..] == a[1..] + b;
      StripConcat(a[1..], b);
      if IsPunctuation(a[0]) {
        assert StripPunctuation(a + b) == StripPunctuation(a[1..] + b);
      } else {
        assert StripPunctuation(a + b) == [a[0]] + StripPunctuation(a[1..] + b);
      }
    } else {
      assert a + b == b;
    }
  }

  lemma RejectsApplause()
    ensures Normalize("APPLAUSE") == None
  {
    var s := "APPLAUSE";
    assert forall i :: 0 <= i < |s| ==> !IsLowerAscii(s[i]);
    RejectedIffNoLowerCase(s);
  }

  lemma RejectsNonLexical()
    ensures Normalize("") == None
    ensures Normalize(" I") == None
    ensures Normalize(" 1999.") == None
  {
    assert forall i :: 0 <= i < |" I"| ==> !IsLowerAscii(" I"[i]);
    RejectedIffNoLowerCase(" I");
    assert forall i :: 0 <= i < |" 1999."| ==> !IsLowerAscii(" 1999."[i]);
    RejectedIffNoLowerCase(" 1999.");
  }

  lemma StripsSurrounding(w: string)
    requires forall i :: 0 <= i < |w| ==> !IsPunctuation(w[i])
    ensures StripPunctuation(" " + w + ",") == w
  {
    StripConcat(" " + w, ",");
    StripConcat(" ", w);
    NoPunctuationStripsToSelf(w);
    assert StripPunctuation(" ") == "";
    assert StripPunctuation(",") == "";
  }

  lemma AcceptsWord()
    ensures Normalize(" Hello,") == Some("hello")
  {
    assert forall i :: 0 <= i < |"Hello"| ==> !IsPunctuation("Hello"[i]);
    StripsSurrounding("Hello");
    assert " Hello," == " " + "Hello" + ",";
    HelloCases();
  }

  lemma HelloCases()
    ensures Lower("Hello") == "hello" && Upper("Hello") != "Hello"
  {
    assert Upper("Hello")[1] == 'E';
  }
}
