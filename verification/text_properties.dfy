/** Properties of the text normaliser: what each regular-expression step
    removes and keeps, and what the whole pipeline guarantees. */
module TextProperties {
  import opened Chars
  import opened Whitespace
  import opened TextProcessor

  // ---------------------------------------------------------------- HTML step

  /** Text before the first `<` is kept verbatim. */
  lemma {:induction false} StripTagsPrefix(a: string, b: string)
    requires '<' !in a
    ensures StripTags(a + b) == a + StripTags(b)
    decreases |a|
  {
    if |a| > 0 {
      StripTagsPrefix(a[1..], b);
      ConsTail(a, b);
      ConsTail(a, StripTags(b));
      assert StripTags(a + b) == [a[0]] + StripTags(a[1..] + b);
    } else {
      assert a + b == b;
    }
  }

  /** Without a `<` the HTML step changes nothing. */
  lemma StripTagsNoAngle(s: string)
    requires '<' !in s
    ensures StripTags(s) == s
  {
    StripTagsPrefix(s, []);
    assert s + [] == s;
  }

  lemma {:induction false} TagLengthNoClose(x: string, y: string)
    requires '>' !in x
    ensures TagLength(x + y) == |x| + TagLength(y)
    decreases |x|
  {
    if |x| > 0 {
      assert (x + y)[1..] == x[1..] + y;
      TagLengthNoClose(x[1..], y);
    } else {
      assert x + y == y;
    }
  }

  /** A `<` removes everything up to and including the next `>`. */
  lemma StripTagsClosedTag(a: string, x: string, y: string)
    requires '<' !in a && '>' !in x
    ensures StripTags(a + "<" + x + ">" + y) == a + StripTags(y)
  {
    TagAssoc(a, x, y);
    StripTagsPrefix(a, "<" + (x + (">" + y)));
    StripTagsTag(x, y);
  }

  lemma TagAssoc(a: string, x: string, y: string)
    ensures a + "<" + x + ">" + y == a + ("<" + (x + (">" + y)))
  {
  }

  lemma StripTagsTag(x: string, y: string)
    requires '>' !in x
    ensures StripTags("<" + (x + (">" + y))) == StripTags(y)
  {
    var rest := ">" + y;
    var tag := "<" + (x + rest);
    assert tag[0] == '<' && tag[1..] == x + rest;
    TagLengthNoClose(x, rest);
    assert TagLength(rest) == 1;
    assert tag[1 + |x| + 1..] == y;
  }

  /** An unclosed `<` removes everything to the end of the string. */
  lemma StripTagsUnclosedTag(a: string, x: string)
    requires '<' !in a && '>' !in x
    ensures StripTags(a + "<" + x) == a
  {
    var tag := "<" + x;
    assert a + "<" + x == a + tag;
    StripTagsPrefix(a, tag);
    assert tag[1..] == x + [];
    TagLengthNoClose(x, []);
    assert tag[1 + |x|..] == [];
    assert a + [] == a;
  }

  // ----------------------------------------------------------------- URL step

  /** A URL match is decided by characters of the leading word alone, so it
      survives extending that word. */
  lemma StartsUrlExtend(u: string, v: string)
    requires StartsUrl(u) && |u| <= |v| && v[..|u|] == u
    ensures StartsUrl(v)
  {
    var p := if PrefixThenWord(u, "https://") then "https://"
             else if PrefixThenWord(u, "http://") then "http://" else "www.";
    assert PrefixThenWord(u, p);
    assert v[..|p|] == u[..|p|] && v[|p|] == u[|p|];
    assert PrefixThenWord(v, p);
  }

  /** A URL match lies inside the leading word. */
  lemma StartsUrlInWord(s: string)
    requires StartsUrl(s)
    ensures StartsUrl(s[..WordLength(s)])
  {
    StartsUrlIsWord(s);
    var u := s[..WordLength(s)];
    var p := if PrefixThenWord(s, "https://") then "https://"
             else if PrefixThenWord(s, "http://") then "http://" else "www.";
    assert PrefixThenWord(s, p);
    forall i | 0 <= i < |p|
      ensures !IsWs(s[i])
    {
      assert s[i] == p[i];
    }
    assert WordLength(s) > |p|;
    assert u[..|p|] == s[..|p|] && u[|p|] == s[|p|];
    assert PrefixThenWord(u, p);
  }

  /** A URL match deletes the whole word it starts, up to the next
      whitespace or the end, and nothing beyond it. */
  lemma StripUrlsDeletesWord(w: string, b: string)
    requires StartsUrl(w) && NoWs(w) && (|b| == 0 || IsWs(b[0]))
    ensures StripUrls(w + b) == StripUrls(b)
  {
    StartsUrlExtend(w, w + b);
    WordLengthAppend(w, b);
    assert WordLength(b) == 0;
    assert (w + b)[|w|..] == b;
  }

  /** The leading word of the URL step's output is a prefix of the input. */
  lemma {:induction false} StripUrlsLeadingWord(t: string)
    ensures WordLength(StripUrls(t)) <= |t|
    ensures StripUrls(t)[..WordLength(StripUrls(t))] == t[..WordLength(StripUrls(t))]
    decreases |t|
  {
    var r := StripUrls(t);
    if |t| == 0 {
    } else if StartsUrl(t) {
      StartsUrlIsWord(t);
      var rest := t[WordLength(t)..];
      assert r == StripUrls(rest);
      if |rest| > 0 {
        assert IsWs(rest[0]);
        assert !StartsUrl(rest) by {
          if StartsUrl(rest) {
            StartsUrlIsWord(rest);
          }
        }
        assert r == [rest[0]] + StripUrls(rest[1..]);
      }
      assert WordLength(r) == 0;
    } else {
      var tail := StripUrls(t[1..]);
      assert r == [t[0]] + tail;
      if !IsWs(t[0]) {
        StripUrlsLeadingWord(t[1..]);
        LeadingWordCons(t, tail);
      }
    }
  }

  lemma LeadingWordCons(t: string, tail: string)
    requires |t| > 0 && !IsWs(t[0])
    requires WordLength(tail) <= |t| - 1
    requires tail[..WordLength(tail)] == t[1..][..WordLength(tail)]
    ensures WordLength([t[0]] + tail) == 1 + WordLength(tail)
    ensures ([t[0]] + tail)[..1 + WordLength(tail)] == t[..1 + WordLength(tail)]
  {
    var w := WordLength(tail);
    assert ([t[0]] + tail)[1..] == tail;
    assert ([t[0]] + tail)[..1 + w] == [t[0]] + tail[..w];
    assert t[..1 + w] == [t[0]] + t[1..][..w];
  }

  /** After the URL step no position starts a URL match: removing a match
      never joins two pieces into a new one. */
  lemma {:induction false} StripUrlsClean(s: string)
    ensures NoUrl(StripUrls(s))
    decreases |s|
  {
    if |s| == 0 {
    } else if StartsUrl(s) {
      StartsUrlIsWord(s);
      StripUrlsClean(s[WordLength(s)..]);
    } else {
      var tail := StripUrls(s[1..]);
      var r := [s[0]] + tail;
      assert StripUrls(s) == r;
      StripUrlsClean(s[1..]);
      if StartsUrl(r) {
        StartsUrlIsWord(r);
        StripUrlsLeadingWord(s[1..]);
        LeadingWordCons(s, tail);
        StartsUrlInWord(r);
        StartsUrlExtend(r[..WordLength(r)], s);
        assert false;
      }
      forall i | 0 <= i < |r|
        ensures !StartsUrl(r[i..])
      {
        if i > 0 {
          assert r[i..] == tail[i - 1..];
        }
      }
    }
  }

  /** Where nothing matches, the URL step changes nothing. */
  lemma {:induction false} StripUrlsNoUrl(s: string)
    requires NoUrl(s)
    ensures StripUrls(s) == s
    decreases |s|
  {
    if |s| > 0 {
      assert s[0..] == s;
      assert NoUrl(s[1..]) by {
        forall i | 0 <= i < |s| - 1
          ensures !StartsUrl(s[1..][i..])
        {
          assert s[1..][i..] == s[i + 1..];
        }
      }
      StripUrlsNoUrl(s[1..]);
    }
  }

  /** Every URL match holds a `:` or a `.`. */
  lemma NoUrlWithoutPunctuation(s: string)
    requires ':' !in s && '.' !in s
    ensures NoUrl(s)
  {
    forall i | 0 <= i < |s|
      ensures !StartsUrl(s[i..])
    {
      var t := s[i..];
      assert !PrefixThenWord(t, "www.") by {
        if |t| > 4 {
          assert t[3] in s;
          assert t[..4][3] == t[3];
        }
      }
      assert !PrefixThenWord(t, "http://") by {
        if |t| > 7 {
          assert t[4] in s;
          assert t[..7][4] == t[4];
        }
      }
      assert !PrefixThenWord(t, "https://") by {
        if |t| > 8 {
          assert t[5] in s;
          assert t[..8][5] == t[5];
        }
      }
    }
  }

  /** A URL match never reaches past whitespace: a prefix that ends in
      whitespace and holds no match is kept, and the rest is processed on
      its own. */
  lemma {:induction false} StripUrlsAcrossSpace(a: string, b: string)
    requires |a| > 0 && IsWs(a[|a| - 1]) && NoUrl(a)
    ensures StripUrls(a + b) == a + StripUrls(b)
    decreases |a|
  {
    var s := a + b;
    NoUrlBeforeSpace(a, b);
    StripUrlsNoMatch(s);
    ConsTail(a, b);
    ConsTail(a, StripUrls(b));
    if |a| > 1 {
      var a' := a[1..];
      assert a'[|a'| - 1] == a[|a| - 1];
      NoUrlTail(a);
      StripUrlsAcrossSpace(a', b);
    }
  }

  lemma ConsTail(a: string, c: string)
    requires |a| > 0
    ensures (a + c)[0] == a[0] && (a + c)[1..] == a[1..] + c
    ensures [a[0]] + (a[1..] + c) == a + c
  {
  }

  /** No match starts at a string that begins with a match-free run ending
      in whitespace. */
  lemma NoUrlBeforeSpace(a: string, b: string)
    requires |a| > 0 && IsWs(a[|a| - 1]) && NoUrl(a)
    ensures !StartsUrl(a + b)
  {
    assert a[0..] == a;
    assert !StartsUrl(a);
    PrefixBeforeSpace(a, b, "https://");
    PrefixBeforeSpace(a, b, "http://");
    PrefixBeforeSpace(a, b, "www.");
  }

  /** A prefix without whitespace cannot reach past the whitespace that
      ends `a`, so whether it starts `a + b` is decided inside `a`. */
  lemma PrefixBeforeSpace(a: string, b: string, p: string)
    requires |p| > 0 && forall i :: 0 <= i < |p| ==> !IsWs(p[i])
    requires |a| > 0 && IsWs(a[|a| - 1]) && !PrefixThenWord(a, p)
    ensures !PrefixThenWord(a + b, p)
  {
    var s := a + b;
    if |a| > |p| {
      assert s[..|p|] == a[..|p|] && s[|p|] == a[|p|];
    } else if |s| > |p| {
      assert s[|a| - 1] == a[|a| - 1];
      assert s[..|p|][|a| - 1] == s[|a| - 1];
    }
  }

  /** Where no match starts, the first character is kept. */
  lemma StripUrlsNoMatch(s: string)
    requires |s| > 0 && !StartsUrl(s)
    ensures StripUrls(s) == [s[0]] + StripUrls(s[1..])
  {
  }

  /** Text in which no position starts a match is kept verbatim, whatever
      follows it: the match is not word-anchored, so the characters before a
      match that starts inside a word survive (`xhttp://a` becomes `x`). */
  lemma {:induction false} StripUrlsPrefix(a: string, b: string)
    requires forall i :: 0 <= i < |a| ==> !StartsUrl((a + b)[i..])
    ensures StripUrls(a + b) == a + StripUrls(b)
    decreases |a|
  {
    if |a| > 0 {
      var s := a + b;
      assert s[0..] == s;
      StripUrlsNoMatch(s);
      ConsTail(a, b);
      forall i | 0 <= i < |a| - 1
        ensures !StartsUrl((a[1..] + b)[i..])
      {
        assert (a[1..] + b)[i..] == s[i + 1..];
      }
      StripUrlsPrefix(a[1..], b);
      ConsTail(a, StripUrls(b));
    } else {
      assert a + b == b;
    }
  }

  lemma NoUrlTail(a: string)
    requires NoUrl(a) && |a| > 0
    ensures NoUrl(a[1..])
  {
    forall i | 0 <= i < |a| - 1
      ensures !StartsUrl(a[1..][i..])
    {
      assert a[1..][i..] == a[i + 1..];
    }
  }

  // ------------------------------------------------------------- whole pipeline

  lemma {:induction false} KeepLettersAppend(a: string, b: string)
    ensures KeepLetters(a + b) == KeepLetters(a) + KeepLetters(b)
    decreases |a|
  {
    if |a| == 0 {
      assert a + b == b;
    } else {
      assert (a + b)[1..] == a[1..] + b;
      KeepLettersAppend(a[1..], b);
    }
  }

  lemma {:induction false} KeepLettersDropsAll(s: string)
    requires forall i :: 0 <= i < |s| ==> !IsLetter(s[i]) && !IsWs(s[i])
    ensures KeepLetters(s) == []
    decreases |s|
  {
    if |s| > 0 {
      KeepLettersDropsAll(s[1..]);
    }
  }

  lemma {:induction false} WordLengthAppend(a: string, b: string)
    requires forall i :: 0 <= i < |a| ==> !IsWs(a[i])
    ensures WordLength(a + b) == |a| + WordLength(b)
    decreases |a|
  {
    if |a| > 0 {
      assert (a + b)[1..] == a[1..] + b;
      WordLengthAppend(a[1..], b);
    } else {
      assert a + b == b;
    }
  }

  /** The normaliser as the composition of its five steps. */
  lemma PreprocessSteps(s: string, lowered: string, untagged: string, unlinked: string, letters: string, collapsed: string, r: string)
    requires LowerCase(s) == lowered && StripTags(lowered) == untagged
    requires StripUrls(untagged) == unlinked && KeepLetters(unlinked) == letters
    requires Collapse(letters) == collapsed && Trim(collapsed) == r
    ensures PreprocessText(s) == r
  {
  }

  lemma LowerCaseAppend(a: string, b: string)
    ensures LowerCase(a + b) == LowerCase(a) + LowerCase(b)
  {
  }

  lemma {:induction false} KeepLettersKeepsAll(s: string)
    requires forall i :: 0 <= i < |s| ==> IsLetter(s[i]) || IsWs(s[i])
    ensures KeepLetters(s) == s
    decreases |s|
  {
    if |s| > 0 {
      KeepLettersKeepsAll(s[1..]);
    }
  }

  lemma LowerCaseOfLower(s: string)
    requires forall i :: 0 <= i < |s| ==> !IsUpper(s[i])
    ensures LowerCase(s) == s
  {
  }

  /** The output carries no markup a later run could strip. */
  lemma PreprocessNoMarkup(s: string)
    ensures '<' !in PreprocessText(s)
    ensures NoUrl(PreprocessText(s))
  {
    var r := PreprocessText(s);
    assert forall i :: 0 <= i < |r| ==> r[i] != '<' && r[i] != ':' && r[i] != '.';
    NoUrlWithoutPunctuation(r);
  }

  /** Normalising twice is the same as normalising once. */
  lemma PreprocessIdempotent(s: string)
    ensures PreprocessText(PreprocessText(s)) == PreprocessText(s)
  {
    var r := PreprocessText(s);
    assert LowerCase(r) == r && KeepLetters(r) == r by { LowerOrSpaceFixed(r); }
    assert StripTags(r) == r && StripUrls(r) == r by {
      PreprocessNoMarkup(s);
      StripTagsNoAngle(r);
      StripUrlsNoUrl(r);
    }
    assert Collapse(r) == r && Trim(r) == r by {
      CollapseSingleSpaced(r);
      TrimNormalised(r);
    }
    PreprocessSteps(r, r, r, r, r, r, r);
  }

  /** Lower-case letters and spaces pass the case and letter steps unchanged. */
  lemma LowerOrSpaceFixed(r: string)
    requires forall i :: 0 <= i < |r| ==> IsLower(r[i]) || r[i] == ' '
    ensures LowerCase(r) == r && KeepLetters(r) == r
  {
    LowerCaseOfLower(r);
    KeepLettersKeepsAll(r);
  }

  /** Without tags or URLs the output is the words of the lower-cased input,
      every character other than a letter or whitespace deleted, joined by
      single spaces. */
  lemma PreprocessPlainText(s: string)
    requires '<' !in s && NoUrl(LowerCase(s))
    ensures PreprocessText(s) == Join(Words(KeepLetters(LowerCase(s))))
  {
    var lowered := LowerCase(s);
    assert '<' !in lowered by {
      forall i | 0 <= i < |lowered|
        ensures lowered[i] != '<'
      {
        assert s[i] != '<';
      }
    }
    StripTagsNoAngle(lowered);
    StripUrlsNoUrl(lowered);
    SquashIsJoinWords(KeepLetters(lowered));
  }

  /** On normaliser output `getTokenCount` counts words, except that the
      empty output still counts as one token. */
  lemma TokenCountOfPreprocessed(s: string)
    ensures PreprocessText(s) == "" ==> GetTokenCount(PreprocessText(s)) == 1
    ensures PreprocessText(s) != "" ==> GetTokenCount(PreprocessText(s)) == |Words(PreprocessText(s))|
  {
    var r := PreprocessText(s);
    if r != "" {
      SplitNormalised(r);
    }
  }
}
