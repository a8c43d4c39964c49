/** Worked inputs of `slugize` from lib/utils.ts, and the facts that evaluate them. */
module SlugExamples {
  import opened Slug

  lemma HeadWithoutParen(s: string)
    requires forall i :: 0 <= i < |s| ==> s[i] != '('
    ensures Head(s) == s
  {
  }

  lemma TransliterateAscii(s: string)
    requires forall i :: 0 <= i < |s| ==> s[i] <= '~'
    ensures Transliterate(s) == s
  {
  }

  /** Where every character lower-cases to exactly one character, `toLowerCase` works character by character. */
  lemma {:induction false} ToLowerCaseOneToOne(s: string)
    requires forall i :: 0 <= i < |s| ==> |LowerChar(s[i])| == 1
    ensures |ToLowerCase(s)| == |s|
    ensures forall i :: 0 <= i < |s| ==> ToLowerCase(s)[i] == LowerChar(s[i])[0]
  {
    if s != [] {
      ToLowerCaseOneToOne(s[1..]);
      assert ToLowerCase(s) == LowerChar(s[0]) + ToLowerCase(s[1..]);
    }
  }

  /** Slug characters before the rest of the text are kept as they are. */
  lemma {:induction false} SeparateKeepsPrefix(x: string, y: string, inRun: bool)
    requires x != [] && AllSlugChars(x)
    ensures Separate(x + y, inRun) == x + Separate(y, false)
    decreases |x|
  {
    assert (x + y)[1..] == x[1..] + y;
    if |x| > 1 {
      SeparateKeepsPrefix(x[1..], y, false);
    } else {
      assert x[1..] + y == y;
    }
  }

  /** Each of `slugize`'s steps, given separately. */
  lemma SlugizeBySteps(s: string, early: string, lowered: string, separated: string, r: string)
    requires Transliterate(Head(s)) == early
    requires ToLowerCase(early) == lowered
    requires Separate(lowered, false) == separated
    requires StripDashes(separated) == r
    ensures Slugize(s) == r
  {
  }

  /** Plain ASCII text without "(" passes the cut and the transliteration unchanged. */
  lemma EarlyStepsKeepAscii(s: string)
    requires forall i :: 0 <= i < |s| ==> s[i] != '(' && s[i] <= '~'
    ensures Transliterate(Head(s)) == s
  {
    HeadWithoutParen(s);
    TransliterateAscii(s);
  }

  /** Text without upper-case letters passes `toLowerCase` and, made of slug characters, the replacements. */
  lemma LateStepsKeepSlug(s: string)
    requires IsSlug(s)
    ensures ToLowerCase(s) == s
    ensures Separate(s, false) == s
    ensures StripDashes(s) == s
  {
    SlugPassesEarlySteps(s);
    SeparateKeepsSlugChars(s, false);
    StripDashesIsDropRuns(s);
    DropRunsKeepsTidy(s, true);
  }

  lemma SpacedDashSeparates()
    ensures Separate("a - b", false) == "a---b"
  {
    var s := "a - b";
    assert s[1..] == " - b";
    assert " - b"[1..] == "- b";
    assert "- b"[1..] == " b";
    assert " b"[1..] == "b";
    assert "b"[1..] == [];
  }

  lemma SpacedDashLower()
    ensures ToLowerCase("a - b") == "a - b"
  {
    ToLowerCaseOneToOne("a - b");
  }

  lemma SpacedDashStrips()
    ensures StripDashes("a---b") == "ab"
  {
    StripDashesIsDropRuns("a---b");
    LongRunVanishes("a", 3, "b", true);
    assert "a" + (Dashes(3) + "b") == "a---b";
    assert "a" + "b" == "ab";
    DropRunsKeepsTidy("ab", true);
  }

  /** A run of two or more separators is deleted: "a - b" gives "ab". */
  lemma SlugizeDropsSpacedDash()
    ensures Slugize("a - b") == "ab"
  {
    EarlyStepsKeepAscii("a - b");
    SpacedDashLower();
    SpacedDashSeparates();
    SpacedDashStrips();
    SlugizeBySteps("a - b", "a - b", "a - b", "a---b", "ab");
  }

  /** `toLowerCase` distributes over concatenation. */
  lemma {:induction false} ToLowerCaseAppend(x: string, y: string)
    ensures ToLowerCase(x + y) == ToLowerCase(x) + ToLowerCase(y)
  {
    if x != [] {
      assert (x + y)[1..] == x[1..] + y;
      ToLowerCaseAppend(x[1..], y);
    } else {
      assert x + y == y;
    }
  }

  /** ASCII text without "(": the cut and the transliteration leave it alone. */
  predicate AsciiText(w: string)
  {
    forall i :: 0 <= i < |w| ==> w[i] != '(' && w[i] <= '~'
  }

  /** A non-empty word of slug characters other than "-". */
  predicate PlainWord(x: string)
  {
    x != [] && AllSlugChars(x) && forall i :: 0 <= i < |x| ==> x[i] != '-'
  }

  lemma HarryLower()
    ensures ToLowerCase("Harry") == "harry"
  {
    ToLowerCaseOneToOne("Harry");
  }

  lemma PotterLower()
    ensures ToLowerCase("Potter") == "potter"
  {
    ToLowerCaseOneToOne("Potter");
  }

  lemma HarryPotterWords()
    ensures AsciiText("Harry") && AsciiText("Potter")
  {
  }

  lemma HarryWordIsPlain()
    ensures PlainWord("harry")
  {
  }

  lemma PotterWordIsPlain()
    ensures PlainWord("potter")
  {
  }

  /** Two words of slug characters joined by a space are joined by "-". */
  lemma SeparateTwoWords(x: string, y: string)
    requires x != [] && AllSlugChars(x)
    requires y != [] && AllSlugChars(y)
    ensures Separate(x + " " + y, false) == x + "-" + y
  {
    assert x + " " + y == x + ([' '] + y);
    SeparateKeepsPrefix(x, [' '] + y, false);
    assert ([' '] + y)[1..] == y;
    SeparateKeepsSlugChars(y, true);
    assert x + ("-" + y) == x + "-" + y;
  }

  /** Text without "-" passes the run deletion unchanged. */
  lemma {:induction false} DropRunsWithoutDash(s: string, atStart: bool)
    requires forall i :: 0 <= i < |s| ==> s[i] != '-'
    ensures DropRuns(s, atStart) == s
  {
    if s != [] {
      DropRunsWithoutDash(s[1..], false);
      assert [s[0]] + s[1..] == s;
    }
  }

  /** Two words without "-" joined by one "-" pass the dash replacement unchanged. */
  lemma StripKeepsJoinedWords(x: string, y: string)
    requires x != [] && forall i :: 0 <= i < |x| ==> x[i] != '-'
    requires y != [] && forall i :: 0 <= i < |y| ==> y[i] != '-'
    ensures StripDashes(x + "-" + y) == x + "-" + y
  {
    assert x + "-" + y == x + ("-" + y);
    StripDashesIsDropRuns(x + "-" + y);
    LoneDashStays(x, y, true);
    DropRunsWithoutDash(x, true);
    DropRunsWithoutDash(y, false);
  }

  /** `toLowerCase` of two words joined by a space. */
  lemma LowerTwoWords(w1: string, w2: string, x: string, y: string)
    requires ToLowerCase(w1) == x && ToLowerCase(w2) == y
    ensures ToLowerCase(w1 + " " + w2) == x + " " + y
  {
    ToLowerCaseAppend(w1, " " + w2);
    ToLowerCaseAppend(" ", w2);
    assert LowerChar(' ') == " ";
    assert ToLowerCase(" ") == " " + ToLowerCase([]);
    assert w1 + " " + w2 == w1 + (" " + w2);
    assert x + (" " + y) == x + " " + y;
  }

  /**
   * Two ASCII words joined by a space, whose lower-case forms are made of
   * letters and digits, become those forms joined by one "-".
   */
  lemma SlugizeTwoWords(w1: string, w2: string, x: string, y: string)
    requires AsciiText(w1) && AsciiText(w2)
    requires ToLowerCase(w1) == x && ToLowerCase(w2) == y
    requires PlainWord(x) && PlainWord(y)
    ensures Slugize(w1 + " " + w2) == x + "-" + y
  {
    var s := w1 + " " + w2;
    forall i | 0 <= i < |s|
      ensures s[i] != '(' && s[i] <= '~'
    {
      if i < |w1| {
        assert s[i] == w1[i];
      } else if i > |w1| {
        assert s[i] == w2[i - |w1| - 1];
      }
    }
    EarlyStepsKeepAscii(s);
    LowerTwoWords(w1, w2, x, y);
    SeparateTwoWords(x, y);
    StripKeepsJoinedWords(x, y);
    SlugizeBySteps(s, s, x + " " + y, x + "-" + y, x + "-" + y);
  }

  /** A single separator between words stays: "Harry Potter" gives "harry-potter". */
  lemma SlugizeKeepsSingleDash()
    ensures Slugize("Harry" + " " + "Potter") == "harry" + "-" + "potter"
  {
    HarryLower();
    PotterLower();
    HarryPotterWords();
    HarryWordIsPlain();
    PotterWordIsPlain();
    SlugizeTwoWords("Harry", "Potter", "harry", "potter");
  }

  /** The table sends U+00E9 to "e" and has no entry for U+00C9. */
  lemma TableEntriesForE()
    ensures '\U{E9}' in TransliterationMap && TransliterationMap['\U{E9}'] == 'e'
    ensures '\U{C9}' !in TransliterationMap
  {
  }

  lemma LowerAccentTransliterates()
    ensures Transliterate(Head("\U{E9}cole")) == "ecole"
  {
    var s := "\U{E9}cole";
    HeadWithoutParen(s);
    TableEntriesForE();
    assert TransliterateChar(s[0]) == 'e';
  }

  /** A listed lower-case letter is transliterated: "\u00e9cole" gives "ecole". */
  lemma SlugizeTransliteratesLowerAccent()
    ensures Slugize("\U{E9}cole") == "ecole"
  {
    LowerAccentTransliterates();
    LateStepsKeepSlug("ecole");
    SlugizeBySteps("\U{E9}cole", "ecole", "ecole", "ecole", "ecole");
  }

  lemma UpperAccentTransliterates()
    ensures Transliterate(Head("\U{C9}cole")) == "\U{C9}cole"
  {
    var s := "\U{C9}cole";
    HeadWithoutParen(s);
    TableEntriesForE();
    assert TransliterateChar(s[0]) == s[0];
  }

  lemma UpperAccentLower()
    ensures ToLowerCase("\U{C9}cole") == "\U{C9}cole"
  {
    ToLowerCaseOneToOne("\U{C9}cole");
  }

  lemma UpperAccentSeparates()
    ensures Separate("\U{C9}cole", false) == "-cole"
  {
    var s := "\U{C9}cole";
    assert s[1..] == "cole";
    SeparateKeepsSlugChars("cole", true);
  }

  lemma UpperAccentStrips()
    ensures StripDashes("-cole") == "cole"
  {
    StripDashesIsDropRuns("-cole");
    assert "-cole"[1..] == "cole";
    assert DashRun("-cole") == 1;
    DropRunsKeepsTidy("cole", false);
  }

  /**
   * The upper-case letter U+00C9 is not in the table: it survives
   * transliteration, becomes a separator, and the leading "-" is then deleted,
   * so "\u00c9cole" gives "cole".
   */
  lemma SlugizeDropsUpperAccent()
    ensures Transliterate("\U{C9}cole") == "\U{C9}cole"
    ensures Slugize("\U{C9}cole") == "cole"
  {
    UpperAccentTransliterates();
    HeadWithoutParen("\U{C9}cole");
    UpperAccentLower();
    UpperAccentSeparates();
    UpperAccentStrips();
    SlugizeBySteps("\U{C9}cole", "\U{C9}cole", "\U{C9}cole", "-cole", "cole");
  }
}
