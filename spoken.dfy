/** Worked examples of the extractors on spoken input, the forms a speech
    transcriber produces for an email address and a phone number. */
module SpokenExamples {
  import opened Strings
  import opened Extractors

  // =====================================================================
  // "John DOT Smith AT gmail DOT com"
  // =====================================================================

  /** The lowered transcript, piece by piece. */
  lemma TranscriptPieces()
    ensures "john" + (" " + "dot" + (" " + "smith" + (" at " + ("gmail" + (" " + "dot" + (" " + "com" + []))))))
      == "john dot smith at gmail dot com"
  {
  }

  /** The transcript with its "at" replaced, piece by piece. */
  lemma HalfRewrittenPieces()
    ensures "john" + (" " + "dot" + (" " + "smith" + ("@" + ("gmail" + (" " + "dot" + (" " + "com" + []))))))
      == "john dot smith@gmail dot com"
    ensures "john" + (" " + "dot" + (" " + "smith@gmail" + (" " + "dot" + (" " + "com" + []))))
      == "john dot smith@gmail dot com"
  {
  }

  /** The transcript before and after its "dot"s are replaced. */
  lemma DotPieces()
    ensures "john" + (" dot " + ("smith@gmail" + (" dot " + "com"))) == "john dot smith@gmail dot com"
    ensures "john" + ("." + ("smith@gmail" + ("." + "com"))) == "john.smith@gmail.com"
  {
  }

  /** The spoken "at" becomes '@'. */
  lemma SpokenAt()
    ensures ReplaceAll("john dot smith at gmail dot com", " at ", "@") == "john dot smith@gmail dot com"
  {
    ReplaceAllCopiesSpacedWord("com", [], " at ", "@");
    ReplaceAllCopiesSpacedWord("dot", " " + "com" + [], " at ", "@");
    ReplaceAllCopiesWord("gmail", " " + "dot" + (" " + "com" + []), " at ", "@");
    ReplaceAllReplacesMatch(" at ", "gmail" + (" " + "dot" + (" " + "com" + [])), "@");
    ReplaceAllCopiesSpacedWord("smith", " at " + ("gmail" + (" " + "dot" + (" " + "com" + []))), " at ", "@");
    ReplaceAllCopiesSpacedWord("dot", " " + "smith" + (" at " + ("gmail" + (" " + "dot" + (" " + "com" + [])))), " at ", "@");
    ReplaceAllCopiesWord("john", " " + "dot" + (" " + "smith" + (" at " + ("gmail" + (" " + "dot" + (" " + "com" + []))))), " at ", "@");
    TranscriptPieces();
    HalfRewrittenPieces();
  }

  /** Neither " @ " nor " add " occurs once the "at" is replaced. */
  lemma SpokenAtVariantsAbsent()
    ensures ReplaceAll("john dot smith@gmail dot com", " @ ", "@") == "john dot smith@gmail dot com"
    ensures ReplaceAll("john dot smith@gmail dot com", " add ", "@") == "john dot smith@gmail dot com"
  {
    NoSpacedWordMatches(" @ ");
    NoSpacedWordMatches(" add ");
  }

  /** The pieces of the half-rewritten address cannot start a spoken "@". */
  lemma NoSpacedWordMatches(p: string)
    requires |p| >= 2 && p[0] == ' ' && p[1] !in "dsc"
    ensures ReplaceAll("john dot smith@gmail dot com", p, "@") == "john dot smith@gmail dot com"
  {
    ReplaceAllCopiesSpacedWord("com", [], p, "@");
    ReplaceAllCopiesSpacedWord("dot", " " + "com" + [], p, "@");
    ReplaceAllCopiesSpacedWord("smith@gmail", " " + "dot" + (" " + "com" + []), p, "@");
    ReplaceAllCopiesSpacedWord("dot", " " + "smith@gmail" + (" " + "dot" + (" " + "com" + [])), p, "@");
    ReplaceAllCopiesWord("john", " " + "dot" + (" " + "smith@gmail" + (" " + "dot" + (" " + "com" + []))), p, "@");
    HalfRewrittenPieces();
  }

  /** Both spoken "dot"s become '.'. */
  lemma SpokenDot()
    ensures ReplaceAll("john dot smith@gmail dot com", " dot ", ".") == "john.smith@gmail.com"
  {
    ReplaceAllKeepsWord("com", " dot ", ".");
    ReplaceAllReplacesMatch(" dot ", "com", ".");
    ReplaceAllCopiesWord("smith@gmail", " dot " + "com", " dot ", ".");
    ReplaceAllReplacesMatch(" dot ", "smith@gmail" + (" dot " + "com"), ".");
    ReplaceAllCopiesWord("john", " dot " + ("smith@gmail" + (" dot " + "com")), " dot ", ".");
    DotPieces();
  }

  /** The first five entries of the email table. */
  const EmailTableHead: seq<(string, string)> :=
    [(" at the rate ", "@"), (" at ", "@"), (" @ ", "@"), (" add ", "@"), (" dot ", ".")]

  lemma EmailTableStartsWithHead()
    ensures EmailReplacements[..5] == EmailTableHead
  {
  }

  /** The first five entries of the email table, on any text: "at the
      rate", the spaced "@" and "add" are absent, "at" and "dot" rewritten. */
  lemma EmailFirstEntries(s: string, withAt: string, withDot: string)
    requires !Contains(s, " at the rate ")
    requires ReplaceAll(s, " at ", "@") == withAt
    requires ReplaceAll(withAt, " @ ", "@") == withAt && ReplaceAll(withAt, " add ", "@") == withAt
    requires ReplaceAll(withAt, " dot ", ".") == withDot
    ensures KeysNonEmpty(EmailReplacements)
    ensures ApplyReplacements(s, EmailReplacements[..5]) == withDot
  {
    EmailTableKeys();
    EmailTableStartsWithHead();
    var head := EmailTableHead;
    assert head[..0] == [] && head[..5] == head;
    ApplyReplacementsStep(s, head, 0);
    ApplyReplacementsStep(s, head, 1);
    ApplyReplacementsStep(s, head, 2);
    ApplyReplacementsStep(s, head, 3);
    ApplyReplacementsStep(s, head, 4);
  }

  /** The first five entries turn the lowered transcript into an address. */
  lemma SpokenEmailFirstEntries()
    ensures KeysNonEmpty(EmailReplacements)
    ensures ApplyReplacements("john dot smith at gmail dot com", EmailReplacements[..5]) == "john.smith@gmail.com"
  {
    MissingCharNotContained("john dot smith at gmail dot com", " at the rate ", 'r');
    SpokenAt();
    SpokenAtVariantsAbsent();
    SpokenDot();
    EmailFirstEntries("john dot smith at gmail dot com", "john dot smith@gmail dot com", "john.smith@gmail.com");
  }

  /** The local part, the domain and the top-level domain of the address
      use only the characters the pattern allows. */
  lemma AddressPartsAllowed()
    ensures IsAlnum("john.smith"[0]) && forall i :: 0 <= i < |"john.smith"| ==> IsLocalChar("john.smith"[i])
    ensures IsAlnum("gmail"[0]) && forall i :: 0 <= i < |"gmail"| ==> IsDomainChar("gmail"[i])
    ensures forall i :: 0 <= i < |"com"| ==> IsLetter("com"[i])
  {
  }

  /** The address, piece by piece. */
  lemma AddressPieces()
    ensures "john.smith" + "@" + "gmail" + "." + "com" == "john.smith@gmail.com"
  {
  }

  /** The address the transcript spells. */
  lemma AddressIsEmail()
    ensures IsEmail("john.smith@gmail.com") && NoUpper("john.smith@gmail.com")
  {
    AddressMatches();
    AddressLowered();
  }

  lemma AddressMatches()
    ensures IsEmail("john.smith@gmail.com")
  {
    AddressPartsAllowed();
    EmailFromParts("john.smith", "gmail", "com");
    AddressPieces();
  }

  lemma AddressLowered()
    ensures NoUpper("john.smith@gmail.com")
  {
  }

  /** The replacement table turns the lowered transcript into an address. */
  lemma SpokenEmailReplacements()
    ensures KeysNonEmpty(EmailReplacements)
    ensures ApplyReplacements("john dot smith at gmail dot com", EmailReplacements) == "john.smith@gmail.com"
  {
    var s := "john dot smith at gmail dot com";
    SpokenEmailFirstEntries();
    AddressIsEmail();
    EmailIsSpaceless("john.smith@gmail.com");
    EmailKeysHaveSpaces();
    LaterReplacementsKeepSpaceless(s, EmailReplacements, 5, |EmailReplacements|);
    assert EmailReplacements[..|EmailReplacements|] == EmailReplacements;
  }

  /** The transcript lower-cased. */
  lemma LowerTranscript()
    ensures Lower("John DOT Smith AT gmail DOT com") == "john dot smith at gmail dot com"
  {
  }

  /** `extract_email` reads the spelled-out address. */
  lemma EmailSpokenExample()
    ensures EmailOf("John DOT Smith AT gmail DOT com") == Some("john.smith@gmail.com")
  {
    var text := "John DOT Smith AT gmail DOT com";
    StripKeepsTrimmed(text);
    LowerTranscript();
    SpokenEmailReplacements();
    AddressIsEmail();
    EmailFromWrittenEmail("john.smith@gmail.com");
  }

  // =====================================================================
  // "double nine eight seven six five four three two one"
  // =====================================================================

  /** The last four words of the transcript. */
  const LowWords: string := "four" + " " + ("three" + " " + ("two" + " " + "one"))

  /** The same words as digits. */
  const LowDigits: string := "4" + " " + ("3" + " " + ("2" + " " + "1"))

  /** The transcript after "double nine", word by word. */
  const TailWords: string := "eight" + " " + ("seven" + " " + ("six" + " " + ("five" + " " + LowWords)))

  /** The same words as digits. */
  const TailDigits: string := "8" + " " + ("7" + " " + ("6" + " " + ("5" + " " + LowDigits)))

  /** The whole transcript. */
  const SpokenNumber: string := "double" + " " + "nine" + (" " + TailWords)

  /** `" ".join(words)` */
  function JoinWords(words: seq<string>): string {
    if words == [] then []
    else if |words| == 1 then words[0]
    else words[0] + " " + JoinWords(words[1..])
  }

  /** The transcript is its ten words joined by spaces. */
  lemma PhoneTranscriptWords()
    ensures JoinWords(["double", "nine", "eight", "seven", "six", "five", "four", "three", "two", "one"]) == SpokenNumber
  {
    var ws := ["double", "nine", "eight", "seven", "six", "five", "four", "three", "two", "one"];
    assert ws[1..] == ["nine", "eight", "seven", "six", "five", "four", "three", "two", "one"];
    assert ws[2..] == ["eight", "seven", "six", "five", "four", "three", "two", "one"];
    assert ws[3..] == ["seven", "six", "five", "four", "three", "two", "one"];
    assert ws[4..] == ["six", "five", "four", "three", "two", "one"];
    assert ws[5..] == ["five", "four", "three", "two", "one"];
    assert ws[6..] == ["four", "three", "two", "one"];
    assert ws[7..] == ["three", "two", "one"];
    assert ws[8..] == ["two", "one"];
    assert ws[9..] == ["one"];
  }

  /** The words after "double nine" hold no capital. */
  lemma TailWordsNoUpper()
    ensures NoUpper(TailWords)
  {
  }

  /** The words after "double nine" hold no 'p'. */
  lemma TailWordsLackP()
    ensures 'p' !in TailWords
  {
  }

  /** The words after "double nine" hold no 'c' and no 'd'. */
  lemma TailWordsLackCD()
    ensures 'c' !in TailWords && 'd' !in TailWords
  {
  }

  /** The transcript has no surrounding whitespace and no capitals. */
  lemma PhoneTranscriptAsIs()
    ensures Strip(SpokenNumber) == SpokenNumber && Lower(SpokenNumber) == SpokenNumber
  {
    TailWordsNoUpper();
    NoUpperConcat(" ", TailWords);
    assert NoUpper("double" + " " + "nine");
    NoUpperConcat("double" + " " + "nine", " " + TailWords);
    StripKeepsTrimmed(SpokenNumber);
    LowerHasNoUpper(SpokenNumber);
  }

  /** No "plus" and no "country": the first two rewrites change nothing. */
  lemma NoPrefixWords(s: string)
    requires 'p' !in s && 'c' !in s
    ensures SubCountryCode(SubPlus(s)) == s
  {
    MissingCharNotContained(s, "plus", 'p');
    SubPlusWithoutMatch(s);
    MissingCharNotContained(s, "country", 'c');
    SubCountryCodeWithoutMatch(s);
  }

  /** "double nine" stands for "99". */
  lemma DoubleNine()
    ensures Repeat(NumberWordValue("nine", NumberWords), 2) == "99"
  {
    assert NumberWords[9].0 == "nine";
    assert forall j :: 0 <= j < 9 ==> NumberWords[j].0[0] != 'n';
  }

  /** A leading "double nine" becomes "99" when no other "double" follows. */
  lemma DoubleNineRewrite(tail: string)
    requires 'd' !in tail
    ensures SubRepeat("double" + " " + "nine" + (" " + tail), "double", 2) == "99" + " " + tail
  {
    var rest := " " + tail;
    SubRepeatFirstWord("double", "nine", rest, 2);
    DoubleNine();
    MissingCharNotContained(rest, "double", 'd');
    SubRepeatWithoutMatch(rest, "double", 2);
    assert "99" + rest == "99" + " " + tail;
  }

  /** Only the leading "double nine" is rewritten. */
  lemma DoubleNineRewrites(tail: string)
    requires 'p' !in tail && 'c' !in tail && 'd' !in tail
    ensures RewriteSpokenPhone("double" + " " + "nine" + (" " + tail)) == "99" + " " + tail
  {
    NoPrefixWords("double" + " " + "nine" + (" " + tail));
    DoubleNineRewrite(tail);
    MissingCharNotContained("99" + " " + tail, "triple", 'p');
    SubRepeatWithoutMatch("99" + " " + tail, "triple", 3);
  }

  /** The spoken-form rewrites of the transcript. */
  lemma PhoneSpokenRewrites()
    ensures RewriteSpokenPhone(SpokenNumber) == "99" + " " + TailWords
  {
    TailWordsLackP();
    TailWordsLackCD();
    DoubleNineRewrites(TailWords);
  }

  /** Four spaced words, each of which the number-word table turns into
      its digits, turn into the digits spaced the same way. */
  lemma FourWordsToDigits(a: string, b: string, c: string, d: string, da: string, db: string, dc: string, dd: string)
    requires KeysNonEmpty(NumberWords)
    requires ApplyReplacements(a, NumberWords) == da && ApplyReplacements(b, NumberWords) == db
    requires ApplyReplacements(c, NumberWords) == dc && ApplyReplacements(d, NumberWords) == dd
    ensures ApplyReplacements(a + " " + (b + " " + (c + " " + d)), NumberWords) == da + " " + (db + " " + (dc + " " + dd))
  {
    NumberWordsStartWithLetters();
    ApplyReplacementsSplitsAtSpace(a, b + " " + (c + " " + d), NumberWords);
    ApplyReplacementsSplitsAtSpace(b, c + " " + d, NumberWords);
    ApplyReplacementsSplitsAtSpace(c, d, NumberWords);
  }

  /** "four three two one" becomes "4 3 2 1". */
  lemma LowNumberWords()
    ensures KeysNonEmpty(NumberWords)
    ensures ApplyReplacements(LowWords, NumberWords) == LowDigits
  {
    NumberWordKeys();
    NumberWordBecomesDigit(1);
    NumberWordBecomesDigit(2);
    NumberWordBecomesDigit(3);
    NumberWordBecomesDigit(4);
    FourWordsToDigits("four", "three", "two", "one", "4", "3", "2", "1");
  }

  /** "eight seven ... one" becomes "8 7 ... 1". */
  lemma TailNumberWords()
    ensures KeysNonEmpty(NumberWords)
    ensures ApplyReplacements(TailWords, NumberWords) == TailDigits
  {
    NumberWordsStartWithLetters();
    NumberWordBecomesDigit(5);
    ApplyReplacementsSplitsAtSpace("five", LowWords, NumberWords);
    LowNumberWords();
    NumberWordBecomesDigit(6);
    NumberWordBecomesDigit(7);
    NumberWordBecomesDigit(8);
    FourWordsToDigits("eight", "seven", "six", "five" + " " + LowWords, "8", "7", "6", "5" + " " + LowDigits);
  }

  /** The number-word table turns each spoken word into its digit and
      leaves "99" alone. */
  lemma PhoneNumberWords()
    ensures KeysNonEmpty(NumberWords)
    ensures ApplyReplacements("99" + " " + TailWords, NumberWords) == "99" + " " + TailDigits
  {
    NumberWordsStartWithLetters();
    ApplyReplacementsSplitsAtSpace("99", TailWords, NumberWords);
    assert DialOnly("99");
    ReplacementsKeepDialOnly("99", NumberWords);
    TailNumberWords();
  }

  /** The filter drops the spaces between four spaced pieces. */
  lemma FourPiecesFiltered(a: string, b: string, c: string, d: string)
    ensures KeepDialChars(a + " " + (b + " " + (c + " " + d)))
      == KeepDialChars(a) + (KeepDialChars(b) + (KeepDialChars(c) + KeepDialChars(d)))
  {
    KeepDialCharsAtSpace(a, b + " " + (c + " " + d));
    KeepDialCharsAtSpace(b, c + " " + d);
    KeepDialCharsAtSpace(c, d);
  }

  /** The filter drops the spaces between the last four digits. */
  lemma LowDigitsFiltered()
    ensures KeepDialChars(LowDigits) == "4321"
  {
    FourPiecesFiltered("4", "3", "2", "1");
  }

  /** The filter drops the spaces between the last eight digits. */
  lemma TailDigitsFiltered()
    ensures KeepDialChars(TailDigits) == "87654321"
  {
    KeepDialCharsAtSpace("5", LowDigits);
    LowDigitsFiltered();
    FourPiecesFiltered("8", "7", "6", "5" + " " + LowDigits);
  }

  /** Joining and filtering the digits gives ten of them. */
  lemma PhoneDigitsFiltered()
    ensures PhoneFromDigits("99" + " " + TailDigits) == Some("9987654321")
  {
    var x := "99" + " " + TailDigits;
    KeepDialCharsAtSpace("99", TailDigits);
    TailDigitsFiltered();
    assert KeepDialChars("99") == "99";
    assert KeepDialChars(x) == "9987654321";
    DigitGapsIrrelevant(x);
  }

  /** `extract_phone` reads the spoken number, "double nine" as two nines. */
  lemma PhoneSpokenExample()
    ensures PhoneOf(JoinWords(["double", "nine", "eight", "seven", "six", "five", "four", "three", "two", "one"]))
      == Some("9987654321")
  {
    PhoneTranscriptWords();
    PhoneTranscriptAsIs();
    PhoneSpokenRewrites();
    PhoneNumberWords();
    PhoneDigitsFiltered();
  }
}
