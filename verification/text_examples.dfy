/** Worked examples of the normaliser and the token counter, each reduced to
    its five steps. */
module TextExamples {
  import opened Chars
  import opened Whitespace
  import opened TextProcessor
  import opened TextProperties

  // "free!money": punctuation between letters is deleted, not spaced.

  lemma FreeMoneyMarkup()
    ensures var s := "free" + "!" + "money";
      LowerCase(s) == s && StripTags(s) == s && StripUrls(s) == s
  {
    var s := "free" + "!" + "money";
    assert ':' !in s && '.' !in s && '<' !in s;
    assert forall i :: 0 <= i < |s| ==> !IsUpper(s[i]);
    LowerCaseOfLower(s);
    StripTagsNoAngle(s);
    NoUrlWithoutPunctuation(s);
    StripUrlsNoUrl(s);
  }

  lemma FreeMoneyLetters()
    ensures KeepLetters("free" + "!" + "money") == "free" + "money"
  {
    KeepLettersAppend("free" + "!", "money");
    KeepLettersAppend("free", "!");
    KeepLettersKeepsAll("free");
    KeepLettersKeepsAll("money");
    KeepLettersDropsAll("!");
  }

  lemma FreeMoneySquash()
    ensures Collapse("free" + "money") == "free" + "money" && Trim("free" + "money") == "free" + "money"
  {
    LettersFixed("free" + "money");
  }

  lemma FreeMoneySteps()
    ensures PreprocessText("free" + "!" + "money") == "free" + "money"
  {
    var s := "free" + "!" + "money";
    FreeMoneyMarkup();
    FreeMoneyLetters();
    FreeMoneySquash();
    PreprocessSteps(s, s, s, s, "free" + "money", "free" + "money", "free" + "money");
  }

  lemma FreeMoney()
    ensures PreprocessText("free" + "!" + "money") == "freemoney"
  {
    FreeMoneySteps();
    FreeMoneyJoined();
  }

  lemma FreeMoneyJoined()
    ensures "free" + "money" == "freemoney"
  {
  }

  // "a < b": an unclosed `<` deletes everything after it.

  lemma UnclosedTagSteps()
    ensures var s := "a " + "<" + " b";
      LowerCase(s) == s && StripTags(s) == "a "
  {
    var s := "a " + "<" + " b";
    assert forall i :: 0 <= i < |s| ==> !IsUpper(s[i]);
    LowerCaseOfLower(s);
    StripTagsUnclosedTag("a ", " b");
  }

  lemma UnclosedTagRest()
    ensures StripUrls("a ") == "a " && KeepLetters("a ") == "a "
    ensures Collapse("a ") == "a " && Trim("a ") == "a"
  {
    NoUrlWithoutPunctuation("a ");
    StripUrlsNoUrl("a ");
  }

  lemma UnclosedTag()
    ensures PreprocessText("a " + "<" + " b") == "a"
  {
    var s := "a " + "<" + " b";
    UnclosedTagSteps();
    UnclosedTagRest();
    PreprocessSteps(s, s, "a ", "a ", "a ", "a ", "a");
  }

  // "xwww.foo": URL matches are not anchored at a word boundary.

  lemma UnanchoredUrlStep()
    ensures StripUrls("x" + "www.foo") == "x"
  {
    var s := "x" + "www.foo";
    assert !StartsUrl(s);
    assert s[1..] == "www.foo";
    assert StartsUrl("www.foo");
    assert WordLength("www.foo") == 7;
    assert "www.foo"[7..] == [];
  }

  lemma UnanchoredUrl()
    ensures PreprocessText("x" + "www.foo") == "x"
  {
    var s := "x" + "www.foo";
    assert '<' !in s;
    assert forall i :: 0 <= i < |s| ==> !IsUpper(s[i]);
    LowerCaseOfLower(s);
    StripTagsNoAngle(s);
    UnanchoredUrlStep();
    assert KeepLetters("x") == "x" && Collapse("x") == "x" && Trim("x") == "x";
    PreprocessSteps(s, s, s, "x", "x", "x", "x");
  }

  // "http:// ": a prefix without a following word is no match; its
  // punctuation goes in the letter step.

  lemma BarePrefixNoUrl()
    ensures NoUrl("http:// ")
  {
    var s := "http:// ";
    forall i | 0 <= i < |s|
      ensures !StartsUrl(s[i..])
    {
      if i == 0 {
        assert s[7] == ' ';
      } else {
        assert s[i..][0] == s[i] && s[i] != 'h' && s[i] != 'w';
      }
    }
  }

  lemma BarePrefixLetters()
    ensures KeepLetters("http" + ":// ") == "http" + " "
  {
    KeepLettersAppend("http", ":// ");
    assert KeepLetters("http") == "http";
    assert KeepLetters(":// ") == " ";
  }

  lemma BarePrefixSquash()
    ensures Collapse("http" + " ") == "http" + " " && Trim("http" + " ") == "http"
  {
    LettersThenSpace("http");
  }

  lemma BarePrefix()
    ensures PreprocessText("http" + ":// ") == "http"
  {
    var s := "http" + ":// ";
    assert s == "http:// ";
    assert '<' !in s;
    assert forall i :: 0 <= i < |s| ==> !IsUpper(s[i]);
    LowerCaseOfLower(s);
    StripTagsNoAngle(s);
    BarePrefixNoUrl();
    StripUrlsNoUrl(s);
    BarePrefixLetters();
    BarePrefixSquash();
    PreprocessSteps(s, s, s, s, "http" + " ", "http" + " ", "http");
  }

  // "WIN FREE MONEY NOW!!! Click http://scam.example": every step does some
  // work; the link goes whole, the punctuation goes, the spacing closes up.

  lemma SpamLower()
    ensures LowerCase("WIN FREE " + "MONEY NOW" + "!!! " + "C" + "lick " + ("http://" + ("scam." + "example")))
         == "win free " + "money now" + "!!! " + "c" + "lick " + ("http://" + ("scam." + "example"))
  {
    var u := ("http://" + ("scam." + "example"));
    LowerCaseAppend("WIN FREE " + "MONEY NOW" + "!!! " + "C" + "lick ", u);
    LowerCaseAppend("WIN FREE " + "MONEY NOW" + "!!! " + "C", "lick ");
    LowerCaseAppend("WIN FREE " + "MONEY NOW" + "!!! ", "C");
    LowerCaseAppend("WIN FREE " + "MONEY NOW", "!!! ");
    LowerCaseAppend("WIN FREE ", "MONEY NOW");
    assert LowerCase("WIN FREE ") == "win free ";
    assert LowerCase("MONEY NOW") == "money now";
    assert LowerCase("!!! ") == "!!! ";
    assert LowerCase("C") == "c";
    assert LowerCase("lick ") == "lick ";
    assert forall i :: 0 <= i < |u| ==> !IsUpper(u[i]);
    LowerCaseOfLower(u);
  }

  lemma SpamLinkWord()
    ensures WordLength("http://" + ("scam." + "example")) == 19
  {
    WordLengthAll("http://" + ("scam." + "example"));
  }

  lemma SpamLink()
    ensures StripUrls("http://" + ("scam." + "example")) == ""
  {
    var u := "http://" + ("scam." + "example");
    SpamLinkWord();
    assert u[..7] == "http://" && u[7] == 's';
    assert StartsUrl(u);
    assert u[|u|..] == [];
  }

  lemma SpamUrls()
    ensures StripUrls("win free " + "money now" + "!!! " + "c" + "lick " + ("http://" + ("scam." + "example")))
         == ("win" + " free ") + ("money" + " now") + "!!!" + (" " + "click ")
  {
    var a := "win free " + "money now" + "!!! " + "c" + "lick ";
    assert a == ("win" + " free ") + ("money" + " now") + "!!!" + (" " + "click ");
    assert ':' !in a && '.' !in a;
    NoUrlWithoutPunctuation(a);
    assert |a| > 0 && IsWs(a[|a| - 1]);
    StripUrlsAcrossSpace(a, ("http://" + ("scam." + "example")));
    SpamLink();
    assert a + "" == a;
  }

  // The letter step, one run of the lowered text at a time.

  lemma SpamLetters()
    ensures KeepLetters(("win" + " free ") + ("money" + " now") + "!!!" + (" " + "click "))
         == ("win" + " free ") + ("money" + " now") + (" " + "click ")
  {
    KeepLettersKeepsAll("win" + " free ");
    KeepLettersKeepsAll("money" + " now");
    KeepLettersDropsAll("!!!");
    KeepLettersKeepsAll(" " + "click ");
    KeepLettersAppend(("win" + " free ") + ("money" + " now") + "!!!", (" " + "click "));
    KeepLettersAppend(("win" + " free ") + ("money" + " now"), "!!!");
    KeepLettersAppend(("win" + " free "), ("money" + " now"));
    assert ("win" + " free ") + ("money" + " now") + "" == ("win" + " free ") + ("money" + " now");
  }

  lemma SpamSpacing()
    ensures SingleSpaced("win " + ("free " + ("money " + ("now " + "click "))))
  {
    LettersSingleSpaced("win");
    LettersSingleSpaced("free");
    LettersSingleSpaced("money");
    LettersSingleSpaced("now");
    LettersSingleSpaced("click");
    assert "win" + " " == "win " && "free" + " " == "free " && "money" + " " == "money ";
    assert "now" + " " == "now " && "click" + " " == "click ";
    SingleSpacedAppend("now ", "click ");
    SingleSpacedAppend("money ", "now " + "click ");
    SingleSpacedAppend("free ", "money " + ("now " + "click "));
    SingleSpacedAppend("win ", "free " + ("money " + ("now " + "click ")));
  }

  lemma SpamSquash()
    ensures Collapse(("win" + " free ") + ("money" + " now") + (" " + "click ")) == "win free money now click" + " "
    ensures Trim("win free money now click" + " ") == "win free money now click"
  {
    var x := "win " + ("free " + ("money " + ("now " + "click ")));
    assert ("win" + " free ") + ("money" + " now") + (" " + "click ") == x;
    assert "win free money now click" + " " == x;
    SpamSpacing();
    CollapseSingleSpaced(x);
    TrimTrailingSpace("win free money now click");
  }

  lemma Spam()
    ensures PreprocessText("WIN FREE " + "MONEY NOW" + "!!! " + "C" + "lick " + ("http://" + ("scam." + "example")))
         == "win free money now click"
  {
    var s := "WIN FREE " + "MONEY NOW" + "!!! " + "C" + "lick " + ("http://" + ("scam." + "example"));
    var lowered := "win free " + "money now" + "!!! " + "c" + "lick " + ("http://" + ("scam." + "example"));
    SpamLower();
    assert '<' !in lowered;
    StripTagsNoAngle(lowered);
    SpamUrls();
    SpamLetters();
    SpamSquash();
    PreprocessSteps(s, lowered, lowered, ("win" + " free ") + ("money" + " now") + "!!!" + (" " + "click "),
                    ("win" + " free ") + ("money" + " now") + (" " + "click "), "win free money now click" + " ", "win free money now click");
  }

  // `getTokenCount` counts the empty pieces `split` leaves at either end.

  lemma TokenCounts()
    ensures GetTokenCount("") == 1
    ensures GetTokenCount(" a") == 2
    ensures GetTokenCount("a ") == 2
    ensures GetTokenCount("win  free") == 2
  {
  }
}
