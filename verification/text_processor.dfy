/** The text normaliser `preprocessText` and the token counter
    `getTokenCount`. Each regular-expression replacement is its own function
    with JavaScript's leftmost, global, non-overlapping match semantics. */
module TextProcessor {
  import opened Chars
  import opened Whitespace

  /** Step 1, `toLowerCase()` on ASCII. */
  function LowerCase(s: string): (r: string)
    ensures |r| == |s|
    ensures forall i :: 0 <= i < |s| ==> r[i] == ToLower(s[i])
    ensures forall i :: 0 <= i < |r| ==> !IsUpper(r[i])
  {
    seq(|s|, i requires 0 <= i < |s| => ToLower(s[i]))
  }

  /** Characters consumed by `[^>]*>?` after a `<`: the greedy run up to the
      next `>` and that `>` if there is one, else the rest of the string. */
  function TagLength(s: string): (n: nat)
    ensures n <= |s|
    ensures forall i :: 0 <= i < n - 1 ==> s[i] != '>'
    ensures n < |s| ==> n > 0 && s[n - 1] == '>'
  {
    if |s| == 0 then 0
    else if s[0] == '>' then 1
    else 1 + TagLength(s[1..])
  }

  /** Step 2, `replace(/<[^>]*>?/gm, '')`. */
  function StripTags(s: string): (r: string)
    ensures '<' !in r
    ensures |r| <= |s|
    decreases |s|
  {
    if |s| == 0 then []
    else if s[0] == '<' then StripTags(s[1 + TagLength(s[1..])..])
    else [s[0]] + StripTags(s[1..])
  }

  /** `s` begins with the literal `p` followed by at least one
      non-whitespace character. The first-character test is implied by the
      prefix test; it is kept so that a mismatch on the first character
      rules a prefix out without comparing slices. */
  predicate PrefixThenWord(s: string, p: string)
    requires |p| > 0
  {
    |s| > |p| && s[0] == p[0] && s[..|p|] == p && !IsWs(s[|p|])
  }

  /** A match of `https?:\/\/\S+|www\.\S+` begins at the start of `s`. */
  predicate StartsUrl(s: string) {
    PrefixThenWord(s, "https://") || PrefixThenWord(s, "http://") || PrefixThenWord(s, "www.")
  }

  /** No position of `s` begins a URL match. */
  predicate NoUrl(s: string) {
    forall i :: 0 <= i < |s| ==> !StartsUrl(s[i..])
  }

  /** Length of the URL match at the start of `s`, or 0 when none starts
      there. The prefixes hold no whitespace and `\S+` is greedy, so a match
      is the whole leading non-whitespace run. */
  function UrlMatchLength(s: string): (n: nat)
    ensures n <= |s|
    ensures n > 0 <==> StartsUrl(s)
    ensures StartsUrl(s) ==> n == WordLength(s)
  {
    if StartsUrl(s) then StartsUrlIsWord(s); WordLength(s) else 0
  }

  /** Step 3, `replace(/https?:\/\/\S+|www\.\S+/gm, '')`. */
  function StripUrls(s: string): (r: string)
    ensures |r| <= |s|
    decreases |s|
  {
    if |s| == 0 then []
    else if UrlMatchLength(s) > 0 then StripUrls(s[UrlMatchLength(s)..])
    else [s[0]] + StripUrls(s[1..])
  }

  /** A URL match starts with a non-whitespace character and covers at least
      the prefix and one more character. */
  lemma StartsUrlIsWord(s: string)
    requires StartsUrl(s)
    ensures !IsWs(s[0]) && WordLength(s) > 4
  {
    UrlPrefixesVisible();
    if PrefixThenWord(s, "https://") {
      PrefixIsWord(s, "https://");
    } else if PrefixThenWord(s, "http://") {
      PrefixIsWord(s, "http://");
    } else {
      PrefixIsWord(s, "www.");
    }
  }

  lemma UrlPrefixesVisible()
    ensures NoWs("https://") && NoWs("http://") && NoWs("www.")
  {
  }

  /** A whitespace-free prefix followed by a non-whitespace character lies
      inside the leading word. */
  lemma PrefixIsWord(s: string, p: string)
    requires |p| > 0 && PrefixThenWord(s, p)
    requires NoWs(p)
    ensures !IsWs(s[0]) && WordLength(s) > |p|
  {
    forall i | 0 <= i <= |p|
      ensures !IsWs(s[i])
    {
      if i < |p| {
        assert s[i] == s[..|p|][i] == p[i];
      }
    }
  }

  /** Step 4, `replace(/[0-9]|[^a-zA-Z\s]/gm, '')`: keep ASCII letters and
      whitespace, delete everything else. */
  function KeepLetters(s: string): (r: string)
    ensures |r| <= |s|
  {
    if |s| == 0 then []
    else if IsLetter(s[0]) || IsWs(s[0]) then [s[0]] + KeepLetters(s[1..])
    else KeepLetters(s[1..])
  }

  /** `preprocessText`: the five steps in their fixed order. */
  function PreprocessText(s: string): (r: string)
    ensures forall i :: 0 <= i < |r| ==> IsLower(r[i]) || r[i] == ' '
    ensures Normalised(r)
    ensures |r| <= |s|
  {
    var lowered := LowerCase(s);
    var letters := KeepLetters(StripUrls(StripTags(lowered)));
    LettersAreLower(lowered);
    SquashShape(letters);
    Trim(Collapse(letters))
  }

  /** The characters each deleting step keeps come from its input. */
  lemma {:induction false} StripTagsSubset(s: string)
    ensures forall c :: c in StripTags(s) ==> c in s
    decreases |s|
  {
    if |s| > 0 {
      if s[0] == '<' {
        var rest := s[1 + TagLength(s[1..])..];
        StripTagsSubset(rest);
        assert forall c :: c in rest ==> c in s;
      } else {
        StripTagsSubset(s[1..]);
        assert StripTags(s) == [s[0]] + StripTags(s[1..]);
      }
    }
  }

  lemma {:induction false} StripUrlsSubset(s: string)
    ensures forall c :: c in StripUrls(s) ==> c in s
    decreases |s|
  {
    if |s| > 0 {
      if StartsUrl(s) {
        StartsUrlIsWord(s);
        var rest := s[WordLength(s)..];
        StripUrlsSubset(rest);
        assert forall c :: c in rest ==> c in s;
      } else {
        StripUrlsSubset(s[1..]);
        assert StripUrls(s) == [s[0]] + StripUrls(s[1..]);
      }
    }
  }

  /** The letter step keeps exactly the letters and whitespace of its input. */
  lemma {:induction false} KeepLettersShape(s: string)
    ensures forall c :: c in KeepLetters(s) <==> (IsLetter(c) || IsWs(c)) && c in s
    decreases |s|
  {
    if |s| > 0 {
      KeepLettersShape(s[1..]);
      assert forall c :: c in s <==> c == s[0] || c in s[1..];
    }
  }

  /** After lower-casing, the letters that survive the deleting steps are
      lower-case. */
  lemma LettersAreLower(lowered: string)
    requires forall i :: 0 <= i < |lowered| ==> !IsUpper(lowered[i])
    ensures forall c :: c in KeepLetters(StripUrls(StripTags(lowered))) ==> IsLower(c) || IsWs(c)
  {
    var tags := StripTags(lowered);
    var urls := StripUrls(tags);
    StripTagsSubset(lowered);
    StripUrlsSubset(tags);
    KeepLettersShape(urls);
  }

  /** Collapsing and trimming a string of lower-case letters and whitespace
      leaves lower-case letters separated by single spaces. */
  lemma SquashShape(x: string)
    requires forall c :: c in x ==> IsLower(c) || IsWs(c)
    ensures forall i :: 0 <= i < |Trim(Collapse(x))| ==> IsLower(Trim(Collapse(x))[i]) || Trim(Collapse(x))[i] == ' '
    ensures Normalised(Trim(Collapse(x)))
  {
    CollapseShape(x);
    var r := Trim(Collapse(x));
    assert forall c :: c in r ==> c in Collapse(x);
  }

  /** `getTokenCount`: the number of pieces of `split(/\s+/)`. */
  function GetTokenCount(s: string): (n: nat)
    ensures n >= 1
    ensures n == 1 + WsRunCount(s)
  {
    SplitCount(s);
    |SplitWs(s)|
  }
}
