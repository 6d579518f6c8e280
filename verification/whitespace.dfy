/** Whitespace handling shared by the normaliser, the token counter and the
    blank-input guard: runs of `\s`, `replace(/\s+/g, ' ')`, `trim()`,
    `split(/\s+/)`, and a reference notion of "words". */
module Whitespace {
  import opened Chars

  /** Length of the leading run of non-whitespace characters. */
  function WordLength(s: string): (n: nat)
    ensures n <= |s|
    ensures forall i :: 0 <= i < n ==> !IsWs(s[i])
    ensures n < |s| ==> IsWs(s[n])
    ensures |s| > 0 && !IsWs(s[0]) ==> n > 0
  {
    if |s| == 0 || IsWs(s[0]) then 0 else 1 + WordLength(s[1..])
  }

  /** Length of the leading run of whitespace. */
  function WsLength(s: string): (n: nat)
    ensures n <= |s|
    ensures forall i :: 0 <= i < n ==> IsWs(s[i])
    ensures n < |s| ==> !IsWs(s[n])
  {
    if |s| == 0 || !IsWs(s[0]) then 0 else 1 + WsLength(s[1..])
  }

  /** Drops the leading run of whitespace. */
  function SkipWs(s: string): (t: string)
    ensures |t| <= |s| && t == s[|s| - |t|..]
    ensures forall i :: 0 <= i < |s| - |t| ==> IsWs(s[i])
    ensures |t| > 0 ==> !IsWs(t[0])
    ensures |s| > 0 && IsWs(s[0]) ==> |t| < |s|
  {
    s[WsLength(s)..]
  }

  /** Length of `s` without its trailing run of whitespace. */
  function ContentLength(s: string): (n: nat)
    ensures n <= |s|
    ensures forall i :: n <= i < |s| ==> IsWs(s[i])
    ensures n > 0 ==> !IsWs(s[n - 1])
  {
    if |s| == 0 || !IsWs(s[|s| - 1]) then |s| else ContentLength(s[..|s| - 1])
  }

  /** Drops the trailing run of whitespace. */
  function SkipWsEnd(s: string): (t: string)
    ensures |t| <= |s| && t == s[..|t|]
    ensures forall i :: |t| <= i < |s| ==> IsWs(s[i])
    ensures |t| > 0 ==> !IsWs(t[|t| - 1])
  {
    s[..ContentLength(s)]
  }

  /** Every whitespace character is a plain space followed by a
      non-whitespace character or by the end of the string. */
  predicate SingleSpaced(s: string) {
    forall i :: 0 <= i < |s| && IsWs(s[i]) ==> s[i] == ' ' && (i + 1 == |s| || !IsWs(s[i + 1]))
  }

  /** The shape the normaliser promises: single spaces between words and no
      whitespace at either end. */
  predicate Normalised(s: string) {
    && SingleSpaced(s)
    && (|s| > 0 ==> !IsWs(s[0]) && !IsWs(s[|s| - 1]))
  }

  /** `s.replace(/\s+/g, ' ')`: each maximal whitespace run becomes one space. */
  function Collapse(s: string): (r: string)
    ensures |r| <= |s|
    ensures |s| > 0 ==> |r| > 0 && r[0] == (if IsWs(s[0]) then ' ' else s[0])
    decreases |s|
  {
    if |s| == 0 then []
    else if IsWs(s[0]) then " " + Collapse(SkipWs(s[1..]))
    else [s[0]] + Collapse(s[1..])
  }

  /** The collapsed string is single-spaced, and every other character it
      holds comes from the input. */
  lemma {:induction false} CollapseShape(s: string)
    ensures SingleSpaced(Collapse(s))
    ensures forall c :: c in Collapse(s) ==> c == ' ' || (!IsWs(c) && c in s)
    decreases |s|
  {
    if |s| > 0 {
      var t := if IsWs(s[0]) then SkipWs(s[1..]) else s[1..];
      var head := if IsWs(s[0]) then ' ' else s[0];
      CollapseShape(t);
      CollapseUnfold(s);
      assert forall c :: c in t ==> c in s;
      SingleSpacedCons(head, Collapse(t));
    }
  }

  lemma CollapseUnfold(s: string)
    requires |s| > 0
    ensures IsWs(s[0]) ==> Collapse(s) == [' '] + Collapse(SkipWs(s[1..]))
    ensures !IsWs(s[0]) ==> Collapse(s) == [s[0]] + Collapse(s[1..])
  {
  }

  lemma SingleSpacedCons(c: char, r: string)
    requires SingleSpaced(r)
    requires IsWs(c) ==> c == ' ' && (|r| == 0 || !IsWs(r[0]))
    ensures SingleSpaced([c] + r)
  {
    var s := [c] + r;
    forall i | 0 <= i < |s| && IsWs(s[i])
      ensures s[i] == ' ' && (i + 1 == |s| || !IsWs(s[i + 1]))
    {
      if i > 0 {
        assert s[i] == r[i - 1];
        if i + 1 < |s| {
          assert s[i + 1] == r[i];
        }
      }
    }
  }

  /** `s.trim()`. */
  function Trim(s: string): (r: string)
    ensures |r| <= |s|
    ensures |r| > 0 ==> !IsWs(r[0]) && !IsWs(r[|r| - 1])
    ensures forall c :: c in r ==> c in s
    ensures SingleSpaced(s) ==> Normalised(r)
    ensures |r| == 0 <==> forall i :: 0 <= i < |s| ==> IsWs(s[i])
  {
    var t := SkipWs(s);
    TrimFacts(s, t);
    SkipWsEnd(t)
  }

  lemma TrimFacts(s: string, t: string)
    requires t == SkipWs(s)
    ensures forall c :: c in SkipWsEnd(t) ==> c in s
    ensures SingleSpaced(s) ==> Normalised(SkipWsEnd(t))
    ensures |SkipWsEnd(t)| == 0 <==> forall i :: 0 <= i < |s| ==> IsWs(s[i])
  {
    var r := SkipWsEnd(t);
    SliceChars(s, t, r);
    if SingleSpaced(s) {
      SuffixSingleSpaced(s, |s| - |t|);
      PrefixSingleSpaced(t, |r|);
    }
    TrimEmpty(s, t, r);
  }

  lemma SliceChars(s: string, t: string, r: string)
    requires |t| <= |s| && t == s[|s| - |t|..] && |r| <= |t| && r == t[..|r|]
    ensures forall c :: c in r ==> c in s
  {
    forall c | c in r ensures c in s {
      var i :| 0 <= i < |r| && r[i] == c;
      assert s[|s| - |t| + i] == c;
    }
  }

  lemma TrimEmpty(s: string, t: string, r: string)
    requires t == SkipWs(s) && r == SkipWsEnd(t)
    ensures |r| == 0 <==> forall i :: 0 <= i < |s| ==> IsWs(s[i])
  {
    if |t| > 0 {
      assert !IsWs(t[0]);
      assert |r| > 0;
    }
  }

  lemma SuffixSingleSpaced(s: string, k: nat)
    requires SingleSpaced(s) && k <= |s|
    ensures SingleSpaced(s[k..])
  {
    assert forall i :: 0 <= i < |s| - k ==> s[k..][i] == s[k + i];
  }

  lemma PrefixSingleSpaced(s: string, k: nat)
    requires SingleSpaced(s) && k <= |s| && (k > 0 ==> !IsWs(s[k - 1]))
    ensures SingleSpaced(s[..k])
  {
  }

  /** The non-empty maximal runs of non-whitespace characters, in order. */
  function Words(s: string): (ws: seq<string>)
    ensures forall k :: 0 <= k < |ws| ==> |ws[k]| > 0
    ensures forall k :: 0 <= k < |ws| ==> NoWs(ws[k])
    decreases |s|
  {
    var t := SkipWs(s);
    if |t| == 0 then []
    else
      var n := WordLength(t);
      var w := t[..n];
      assert |w| > 0 && NoWs(w);
      var rest := Words(t[n..]);
      WordsCons(w, rest);
      [w] + rest
  }

  lemma WordsCons(w: string, rest: seq<string>)
    requires |w| > 0 && NoWs(w)
    requires forall k :: 0 <= k < |rest| ==> |rest[k]| > 0
    requires forall k :: 0 <= k < |rest| ==> NoWs(rest[k])
    ensures forall k :: 0 <= k < |[w] + rest| ==> |([w] + rest)[k]| > 0
    ensures forall k :: 0 <= k < |[w] + rest| ==> NoWs(([w] + rest)[k])
  {
  }

  /** `w` holds no whitespace character. */
  predicate NoWs(w: string) {
    forall i :: 0 <= i < |w| ==> !IsWs(w[i])
  }

  /** `ws.join(' ')`. */
  function Join(ws: seq<string>): string {
    if |ws| == 0 then ""
    else if |ws| == 1 then ws[0]
    else ws[0] + " " + Join(ws[1..])
  }

  /** `s.split(/\s+/)` under the ECMAScript split algorithm for a regular
      expression separator: the piece before each maximal whitespace run,
      then the rest; empty pieces at either end are kept and `""` gives
      `[""]`. */
  function SplitWs(s: string): (pieces: seq<string>)
    ensures |pieces| > 0
    ensures forall k :: 0 <= k < |pieces| ==> NoWs(pieces[k])
    decreases |s|
  {
    var n := WordLength(s);
    var w := s[..n];
    assert NoWs(w);
    if n == |s| then [w]
    else
      var rest := SplitWs(SkipWs(s[n..]));
      NoWsCons(w, rest);
      [w] + rest
  }

  lemma NoWsCons(w: string, rest: seq<string>)
    requires NoWs(w) && forall k :: 0 <= k < |rest| ==> NoWs(rest[k])
    ensures forall k :: 0 <= k < |[w] + rest| ==> NoWs(([w] + rest)[k])
  {
  }

  /** Reference count of maximal whitespace runs, read character by
      character; `inRun` says whether the previous character was whitespace. */
  function CountRuns(s: string, inRun: bool): nat {
    if |s| == 0 then 0
    else if IsWs(s[0]) then (if inRun then 0 else 1) + CountRuns(s[1..], true)
    else CountRuns(s[1..], false)
  }

  function WsRunCount(s: string): nat {
    CountRuns(s, false)
  }

  /** A leading word passes through `Collapse` unchanged. */
  lemma {:induction false} CollapseWord(s: string)
    ensures Collapse(s) == s[..WordLength(s)] + Collapse(s[WordLength(s)..])
    decreases |s|
  {
    var n := WordLength(s);
    if n > 0 {
      CollapseWord(s[1..]);
      WordLengthTail(s);
      CollapseUnfold(s);
      ConsSlices(s, n, Collapse(s[n..]));
    } else {
      assert s[..n] == [];
      assert s[n..] == s;
    }
  }

  lemma WordLengthTail(s: string)
    ensures WordLength(s) > 0 ==> WordLength(s[1..]) == WordLength(s) - 1
  {
  }

  lemma ConsSlices(s: string, n: nat, tail: string)
    requires 0 < n <= |s|
    ensures s[1..][n - 1..] == s[n..] && s[1..][..n - 1] == s[1..n]
    ensures [s[0]] + (s[1..n] + tail) == s[..n] + tail
  {
  }

  /** Splitting on whitespace runs and joining with single spaces is the
      same as collapsing every run to one space, for every string. */
  lemma {:induction false} JoinSplitIsCollapse(s: string)
    ensures Join(SplitWs(s)) == Collapse(s)
    decreases |s|
  {
    var n := WordLength(s);
    if n < |s| {
      var rest := SkipWs(s[n..]);
      JoinSplitIsCollapse(rest);
      CollapseWord(s);
      SplitStepAt(s, n);
      JoinSpaced(s[..n], SplitWs(rest), Collapse(rest));
    } else {
      JoinSplitWord(s);
    }
  }

  /** Joining a word in front of pieces that join to `c`. */
  lemma JoinSpaced(w: string, ps: seq<string>, c: string)
    requires |ps| > 0 && Join(ps) == c
    ensures Join([w] + ps) == w + (" " + c)
  {
    JoinCons(w, ps);
  }

  /** A string without whitespace splits into itself and collapses to
      itself. */
  lemma JoinSplitWord(s: string)
    requires WordLength(s) == |s|
    ensures Join(SplitWs(s)) == Collapse(s)
  {
    assert SingleSpaced(s);
    CollapseSingleSpaced(s);
    assert s[..|s|] == s;
  }

  /** One step of `split` and of the collapse across the whitespace run
      that ends the first word. */
  lemma SplitStepAt(s: string, n: nat)
    requires n == WordLength(s) && n < |s|
    ensures SplitWs(s) == [s[..n]] + SplitWs(SkipWs(s[n..]))
    ensures Collapse(s[n..]) == " " + Collapse(SkipWs(s[n..]))
  {
    SkipWsTail(s[n..]);
  }

  lemma {:induction false} CountRunsSkip(s: string)
    ensures CountRuns(s, true) == CountRuns(SkipWs(s), false)
    decreases |s|
  {
    if |s| > 0 && IsWs(s[0]) {
      CountRunsSkip(s[1..]);
      assert SkipWs(s[1..]) == SkipWs(s);
    }
  }

  lemma {:induction false} CountRunsWord(s: string, inRun: bool)
    requires WordLength(s) > 0
    ensures CountRuns(s, inRun) == CountRuns(s[WordLength(s)..], false)
    decreases |s|
  {
    if WordLength(s[1..]) > 0 {
      CountRunsWord(s[1..], false);
      assert s[1..][WordLength(s[1..])..] == s[WordLength(s)..];
    }
  }

  /** `split(/\s+/).length` is one more than the number of maximal
      whitespace runs, counted character by character. */
  lemma {:induction false} SplitCount(s: string)
    ensures |SplitWs(s)| == 1 + WsRunCount(s)
    decreases |s|
  {
    var n := WordLength(s);
    if n < |s| {
      var rest := SkipWs(s[n..]);
      SplitCount(rest);
      if n > 0 {
        CountRunsWord(s, false);
      }
      assert s[n..][1..] == s[n + 1..];
      CountRunsSkip(s[n + 1..]);
      assert SkipWs(s[n + 1..]) == rest;
    } else if n > 0 {
      CountRunsWord(s, false);
    }
  }

  /** A string with no whitespace is a single word, and appending a word
      to a longer join adds one space before it. */
  lemma JoinCons(w: string, ws: seq<string>)
    requires |ws| > 0
    ensures Join([w] + ws) == w + " " + Join(ws)
  {
    assert ([w] + ws)[1..] == ws;
  }

  lemma WordsSkip(s: string)
    ensures Words(s) == Words(SkipWs(s))
  {
    var t := SkipWs(s);
    SkipWsIdem(s);
    var rest := if |t| == 0 then [] else [t[..WordLength(t)]] + Words(t[WordLength(t)..]);
    assert Words(s) == rest;
    assert Words(t) == rest;
  }

  lemma SkipWsIdem(s: string)
    ensures SkipWs(SkipWs(s)) == SkipWs(s)
  {
    var t := SkipWs(s);
    assert WsLength(t) == 0;
    assert t[0..] == t;
  }

  lemma SkipWsTail(s: string)
    requires |s| > 0 && IsWs(s[0])
    ensures SkipWs(s) == SkipWs(s[1..])
  {
  }

  /** Words of a string that starts with a word. */
  lemma WordsWord(t: string)
    requires |t| > 0 && !IsWs(t[0])
    ensures Words(t) == [t[..WordLength(t)]] + Words(t[WordLength(t)..])
  {
    assert SkipWs(t) == t;
  }

  /** A word has no trailing whitespace, with or without one space after it. */
  lemma SkipWsEndWord(w: string)
    requires |w| > 0 && !IsWs(w[|w| - 1])
    ensures SkipWsEnd(w) == w && SkipWsEnd(w + " ") == w
  {
    ContentLengthUnique(w, |w|);
    ContentLengthUnique(w + " ", |w|);
    assert (w + " ")[..|w|] == w;
  }

  lemma SeqFacts(w: string, c: string, ws: seq<string>)
    ensures w + [] == w && [w] + [] == [w]
    ensures w + ([' '] + c) == (w + " ") + c
    ensures c == [] ==> w + ([' '] + c) == w + " "
  {
  }

  /** For a string that starts with a word, trimming the end of its collapse
      joins its words with single spaces. */
  lemma {:induction false} CollapseTrimEnd(t: string)
    requires |t| == 0 || !IsWs(t[0])
    ensures SkipWsEnd(Collapse(t)) == Join(Words(t))
    decreases |t|
  {
    if |t| > 0 {
      var n := WordLength(t);
      if n < |t| {
        var t2 := SkipWs(t[n..][1..]);
        CollapseTrimEnd(t2);
        CollapseTrimEndMore(t, t2);
      } else {
        CollapseTrimEndLast(t);
      }
    }
  }

  /** The inductive step of `CollapseTrimEnd` when more follows the first
      word. */
  lemma CollapseTrimEndMore(t: string, t2: string)
    requires |t| > 0 && !IsWs(t[0]) && WordLength(t) < |t|
    requires t2 == SkipWs(t[WordLength(t)..][1..])
    requires SkipWsEnd(Collapse(t2)) == Join(Words(t2))
    ensures SkipWsEnd(Collapse(t)) == Join(Words(t))
  {
    var n := WordLength(t);
    var w := t[..n];
    var c := Collapse(t2);
    var ws := Words(t2);
    assert Collapse(t) == w + ([' '] + c) by { CollapseMore(t, t2); }
    assert Words(t) == [w] + ws by { WordsMore(t, t2); }
    assert SkipWsEnd(w + ([' '] + c)) == Join([w] + ws) by {
      assert |w| > 0 && w[|w| - 1] == t[n - 1];
      CollapseWordsEmpty(t2);
      CollapseTrimEndStep(w, c, ws);
    }
  }

  /** The collapse of a word followed by whitespace and `t2`. */
  lemma CollapseMore(t: string, t2: string)
    requires WordLength(t) < |t|
    requires t2 == SkipWs(t[WordLength(t)..][1..])
    ensures Collapse(t) == t[..WordLength(t)] + ([' '] + Collapse(t2))
  {
    CollapseWord(t);
    CollapseUnfold(t[WordLength(t)..]);
  }

  /** The words of a word followed by whitespace and `t2`. */
  lemma WordsMore(t: string, t2: string)
    requires |t| > 0 && !IsWs(t[0]) && WordLength(t) < |t|
    requires t2 == SkipWs(t[WordLength(t)..][1..])
    ensures Words(t) == [t[..WordLength(t)]] + Words(t2)
  {
    var rest := t[WordLength(t)..];
    WordsWord(t);
    SkipWsTail(rest);
    WordsSkip(rest);
  }

  /** Text that starts with a word, or is empty, collapses to nothing
      exactly when it has no words, and otherwise keeps its first
      character. */
  lemma CollapseWordsEmpty(t: string)
    requires |t| == 0 || !IsWs(t[0])
    ensures |Collapse(t)| == 0 <==> |Words(t)| == 0
    ensures |Collapse(t)| > 0 ==> !IsWs(Collapse(t)[0])
  {
    if |t| > 0 {
      WordsWord(t);
    }
  }

  /** `CollapseTrimEnd` for a single word. */
  lemma CollapseTrimEndLast(t: string)
    requires |t| > 0 && !IsWs(t[0]) && WordLength(t) == |t|
    ensures SkipWsEnd(Collapse(t)) == Join(Words(t))
  {
    var n := WordLength(t);
    var w := t[..n];
    CollapseWord(t);
    WordsWord(t);
    SkipWsEndWord(w);
    CollapseTrimEndStep(w, [], []);
  }

  lemma CollapseTrimEndStep(w: string, c: string, ws: seq<string>)
    requires |w| > 0 && !IsWs(w[|w| - 1])
    requires SkipWsEnd(c) == Join(ws)
    requires |c| == 0 <==> |ws| == 0
    requires |c| > 0 ==> !IsWs(c[0])
    ensures SkipWsEnd(w + ([' '] + c)) == Join([w] + ws)
    ensures c == [] ==> SkipWsEnd(w + []) == Join([w] + [])
  {
    SeqFacts(w, c, ws);
    if |c| == 0 {
      SkipWsEndWord(w);
    } else {
      SkipWsEndAppend(w + " ", c);
      JoinCons(w, ws);
    }
  }

  /** Trailing whitespace can only be cut from the second part when it holds
      a non-whitespace character. */
  lemma SkipWsEndAppend(a: string, b: string)
    requires |b| > 0 && !IsWs(b[0])
    ensures SkipWsEnd(a + b) == a + SkipWsEnd(b)
  {
    var t := SkipWsEnd(b);
    assert |t| > 0;
    var u := a + t;
    assert (a + b)[..|u|] == u;
    ContentLengthUnique(a + b, |u|);
  }

  /** `ContentLength` is the only cut point leaving only whitespace after it
      and a non-whitespace character just before it. */
  lemma ContentLengthUnique(s: string, m: nat)
    requires 0 < m <= |s|
    requires !IsWs(s[m - 1])
    requires forall i :: m <= i < |s| ==> IsWs(s[i])
    ensures ContentLength(s) == m
  {
  }

  /** `replace(/\s+/g, ' ').trim()` joins the words of the input with single
      spaces. */
  lemma SquashIsJoinWords(s: string)
    ensures Trim(Collapse(s)) == Join(Words(s))
  {
    var t := SkipWs(s);
    WordsSkip(s);
    CollapseTrimEnd(t);
    CollapseSkipWs(s);
  }

  /** Collapsing and then dropping leading whitespace is the same as dropping
      it first. */
  lemma CollapseSkipWs(s: string)
    ensures SkipWs(Collapse(s)) == Collapse(SkipWs(s))
  {
    if |s| > 0 {
      CollapseUnfold(s);
      if IsWs(s[0]) {
        SkipWsTail(s);
        var c := Collapse(SkipWs(s));
        assert |c| > 0 ==> !IsWs(c[0]);
        SkipWsOne(c);
      } else {
        assert SkipWs(s) == s;
      }
    }
  }

  lemma SkipWsOne(c: string)
    requires |c| > 0 ==> !IsWs(c[0])
    ensures SkipWs([' '] + c) == c && SkipWs(c) == c
  {
    assert ([' '] + c)[1..] == c;
  }

  lemma SingleSpacedTail(s: string)
    requires SingleSpaced(s) && |s| > 0
    ensures SingleSpaced(s[1..])
  {
    assert forall i :: 0 <= i < |s| - 1 ==> s[1..][i] == s[i + 1];
  }

  /** A single-spaced string is left alone by `Collapse`. */
  lemma {:induction false} CollapseSingleSpaced(s: string)
    requires SingleSpaced(s)
    ensures Collapse(s) == s
    decreases |s|
  {
    if |s| > 0 {
      CollapseUnfold(s);
      SingleSpacedTail(s);
      CollapseSingleSpaced(s[1..]);
      if IsWs(s[0]) {
        assert SkipWs(s[1..]) == s[1..];
      }
    }
  }

  /** A normalised string is left alone by `trim()`. */
  lemma TrimNormalised(s: string)
    requires Normalised(s)
    ensures Trim(s) == s
  {
    assert SkipWs(s) == s;
    if |s| > 0 {
      ContentLengthUnique(s, |s|);
    }
  }

  /** On a non-empty normalised string `split(/\s+/)` yields exactly its
      words: no empty pieces at either end. */
  lemma {:induction false} SplitNormalised(r: string)
    requires Normalised(r) && |r| > 0
    ensures SplitWs(r) == Words(r)
    decreases |r|
  {
    var n := WordLength(r);
    if n < |r| {
      NormalisedGap(r, n);
      SplitStep(r, n);
      WordsStep(r, n);
      NormalisedSuffix(r, n + 1);
      SplitNormalised(r[n + 1..]);
    } else {
      SplitWordIsWords(r);
    }
  }

  /** Inside normalised text a whitespace character is followed by a word. */
  lemma NormalisedGap(r: string, n: nat)
    requires Normalised(r) && n < |r| && IsWs(r[n])
    ensures n + 1 < |r| && !IsWs(r[n + 1])
  {
  }

  /** A non-empty string without whitespace splits into itself, its one
      word. */
  lemma SplitWordIsWords(r: string)
    requires |r| > 0 && !IsWs(r[0]) && WordLength(r) == |r|
    ensures SplitWs(r) == Words(r)
  {
    WordsWord(r);
    assert r[|r|..] == [] && r[..|r|] == r;
    assert Words(r[|r|..]) == [];
  }

  /** One step of `split` across a single space. */
  lemma SplitStep(r: string, n: nat)
    requires n == WordLength(r) && n + 1 < |r| && IsWs(r[n]) && !IsWs(r[n + 1])
    ensures SplitWs(r) == [r[..n]] + SplitWs(r[n + 1..])
  {
    SkipWsTail(r[n..]);
    assert r[n..][1..] == r[n + 1..];
  }

  /** One step of `Words` across a single space. */
  lemma WordsStep(r: string, n: nat)
    requires |r| > 0 && !IsWs(r[0])
    requires n == WordLength(r) && n + 1 < |r| && IsWs(r[n]) && !IsWs(r[n + 1])
    ensures Words(r) == [r[..n]] + Words(r[n + 1..])
  {
    WordsWord(r);
    WordsSkip(r[n..]);
    SkipWsTail(r[n..]);
    assert r[n..][1..] == r[n + 1..];
    assert SkipWs(r[n + 1..]) == r[n + 1..];
  }

  lemma NormalisedSuffix(r: string, k: nat)
    requires Normalised(r) && k < |r| && !IsWs(r[k])
    ensures Normalised(r[k..])
  {
    assert forall i :: 0 <= i < |r| - k ==> r[k..][i] == r[k + i];
  }

  /** Single spacing survives concatenation when the second part starts
      with a word. */
  lemma SingleSpacedAppend(a: string, b: string)
    requires SingleSpaced(a) && SingleSpaced(b) && |b| > 0 && !IsWs(b[0])
    ensures SingleSpaced(a + b)
  {
    var s := a + b;
    forall i | 0 <= i < |s| && IsWs(s[i])
      ensures s[i] == ' ' && (i + 1 == |s| || !IsWs(s[i + 1]))
    {
      if i < |a| {
        assert s[i] == a[i];
        if i + 1 < |a| { assert s[i + 1] == a[i + 1]; } else { assert s[i + 1] == b[0]; }
      } else {
        assert s[i] == b[i - |a|];
        if i + 1 < |s| { assert s[i + 1] == b[i + 1 - |a|]; }
      }
    }
  }

  /** `trim()` drops one trailing space after a word. */
  lemma TrimTrailingSpace(y: string)
    requires |y| > 0 && !IsWs(y[0]) && !IsWs(y[|y| - 1])
    ensures Trim(y + " ") == y
  {
    var x := y + " ";
    assert SkipWs(x) == x;
    assert x[..|x| - 1] == y;
    assert ContentLength(x) == |y|;
  }

  /** A run of letters is a single word: `Collapse` and `trim()` leave it,
      and one space after it, alone. */
  lemma LettersSingleSpaced(w: string)
    requires forall i :: 0 <= i < |w| ==> IsLetter(w[i])
    ensures forall i :: 0 <= i < |w| ==> !IsWs(w[i])
    ensures SingleSpaced(w) && SingleSpaced(w + " ")
  {
    var x := w + " ";
    assert forall i :: 0 <= i < |w| ==> x[i] == w[i];
  }

  lemma LettersFixed(w: string)
    requires forall i :: 0 <= i < |w| ==> IsLetter(w[i])
    ensures Collapse(w) == w && Trim(w) == w
  {
    LettersSingleSpaced(w);
    CollapseSingleSpaced(w);
    TrimNormalised(w);
  }

  lemma LettersThenSpace(w: string)
    requires |w| > 0 && forall i :: 0 <= i < |w| ==> IsLetter(w[i])
    ensures Collapse(w + " ") == w + " " && Trim(w + " ") == w
  {
    LettersSingleSpaced(w);
    CollapseSingleSpaced(w + " ");
    TrimTrailingSpace(w);
  }

  /** A run without whitespace is one word. */
  lemma WordLengthAll(s: string)
    requires forall i :: 0 <= i < |s| ==> !IsWs(s[i])
    ensures WordLength(s) == |s|
    decreases |s|
  {
    if |s| > 0 {
      WordLengthAll(s[1..]);
    }
  }
}
