/** Field extractors of the visitor bot (server.py:466-614): each turns raw,
    possibly speech-transcribed text into a normalised field value, or None.
    Name, company and country extraction, phone validation and country-code
    formatting are expressions and appear as functions; the email and phone
    extractors run a loop over a replacement table and appear as methods,
    each proved equal to the function that specifies it. */
module Extractors {
  import opened Strings

  // =====================================================================
  // Character runs, as matched greedily by `\s+`, `\w+`, `[...]*`
  // =====================================================================

  datatype CharClass = Space | Word | LocalPart | DomainPart | Letter

  /** `[a-zA-Z0-9._-]` and `[a-zA-Z0-9.-]`, the two classes of the email
      patterns (server.py:528). */
  predicate IsLocalChar(c: char) { IsAlnum(c) || c == '.' || c == '_' || c == '-' }

  predicate IsDomainChar(c: char) { IsAlnum(c) || c == '.' || c == '-' }

  predicate InClass(c: char, cls: CharClass) {
    match cls
    case Space => IsSpace(c)
    case Word => IsWordChar(c)
    case LocalPart => IsLocalChar(c)
    case DomainPart => IsDomainChar(c)
    case Letter => IsLetter(c)
  }

  /** End of the longest run of `cls` characters starting at `k`. */
  function RunEnd(s: string, k: nat, cls: CharClass): (e: nat)
    requires k <= |s|
    ensures k <= e <= |s|
    ensures forall i :: k <= i < e ==> InClass(s[i], cls)
    ensures e < |s| ==> !InClass(s[e], cls)
    decreases |s| - k
  {
    if k < |s| && InClass(s[k], cls) then RunEnd(s, k + 1, cls) else k
  }

  // =====================================================================
  // Name, company, country (server.py:466-496, 588-598)
  // =====================================================================

  /** Phrases showing that the bot's own question was transcribed
      (server.py:468-471). */
  const NameSkipPhrases: seq<string> := [
    "what's your name", "your name is", "what is your name",
    "tell me your name", "can you tell me", "please tell me"
  ]

  /** The alternation removed from a name (server.py:478). */
  const NameFillers: seq<string> := ["my name is", "i am", "i'm", "call me"]

  /** The alternation removed from a company (server.py:491). */
  const CompanyFillers: seq<string> := [
    "i work at", "my company is", "company is", "i'm from", "i work for", "company"
  ]

  /** The alternation removed from a country (server.py:593). */
  const CountryFillers: seq<string> := [
    "i am from", "i'm from", "from", "country is", "my country"
  ]

  lemma FillersNonEmpty()
    ensures AllNonEmpty(NameFillers) && AllNonEmpty(CompanyFillers) && AllNonEmpty(CountryFillers)
  {
  }

  /** `^[A-Za-z\s]+$` */
  predicate IsNameText(s: string) {
    s != [] && forall i :: 0 <= i < |s| ==> IsLetter(s[i]) || IsSpace(s[i])
  }

  /** What `extract_name` keeps of the text: the stripped text with every
      filler phrase deleted, stripped again. */
  function NameCandidate(text: string): string {
    FillersNonEmpty();
    Strip(RemovePhrases(Strip(text), NameFillers))
  }

  /** What `extract_company` keeps of the text. */
  function CompanyCandidate(text: string): string {
    FillersNonEmpty();
    Strip(RemovePhrases(Strip(text), CompanyFillers))
  }

  /** What `extract_country` keeps of the text, lowered. */
  function CountryCandidate(text: string): string {
    FillersNonEmpty();
    Strip(RemovePhrases(Lower(Strip(text)), CountryFillers))
  }

  /** `extract_name`: None when the lowered text contains a skip phrase;
      otherwise the filler phrases are deleted wherever they occur, and a
      result of 2-50 letters and spaces is title-cased. */
  function ExtractName(text: string): (r: Option<string>)
    ensures ContainsAny(Lower(text), NameSkipPhrases) ==> r == None
    ensures r.Some? ==> 2 <= |r.value| <= 50 && IsNameText(r.value) && TitleShaped(r.value)
    ensures r.Some? ==> !IsSpace(r.value[0]) && !IsSpace(r.value[|r.value| - 1])
    ensures var v := NameCandidate(text);
      && (r.Some? <==> !ContainsAny(Lower(text), NameSkipPhrases) && 2 <= |v| <= 50 && IsNameText(v))
      && (r.Some? ==> r.value == TitleCase(v))
  {
    if ContainsAny(Lower(text), NameSkipPhrases) then None
    else
      var name := NameCandidate(text);
      if |name| < 2 || |name| > 50 || !IsNameText(name) then None
      else
        TitleCaseShape(name);
        TitleCaseKeepsClasses(name);
        Some(TitleCase(name))
  }

  /** `extract_company`: None for text shorter than 2 after stripping;
      fillers are deleted wherever they occur; a result of 2-100 characters
      is title-cased. */
  function ExtractCompany(text: string): (r: Option<string>)
    ensures |Strip(text)| < 2 ==> r == None
    ensures r.Some? ==> 2 <= |r.value| <= 100 && TitleShaped(r.value)
    ensures r.Some? ==> !IsSpace(r.value[0]) && !IsSpace(r.value[|r.value| - 1])
    ensures var v := CompanyCandidate(text);
      && (r.Some? <==> |Strip(text)| >= 2 && 2 <= |v| <= 100)
      && (r.Some? ==> r.value == TitleCase(v))
  {
    if |Strip(text)| < 2 then None
    else
      var company := CompanyCandidate(text);
      if |company| < 2 || |company| > 100 then None
      else
        TitleCaseShape(company);
        Some(TitleCase(company))
  }

  /** `extract_country`: as for the company, on the lowered text, with 2-50
      characters. */
  function ExtractCountry(text: string): (r: Option<string>)
    ensures |Strip(text)| < 2 ==> r == None
    ensures r.Some? ==> 2 <= |r.value| <= 50 && TitleShaped(r.value)
    ensures r.Some? ==> !IsSpace(r.value[0]) && !IsSpace(r.value[|r.value| - 1])
    ensures var v := CountryCandidate(text);
      && (r.Some? <==> |Strip(text)| >= 2 && 2 <= |v| <= 50)
      && (r.Some? ==> r.value == TitleCase(v))
  {
    if |Strip(text)| < 2 then None
    else
      var country := CountryCandidate(text);
      if |country| < 2 || |country| > 50 then None
      else
        TitleCaseShape(country);
        Some(TitleCase(country))
  }

  /** No skip phrase and no filler phrase occurs in "no". */
  lemma NoPassesNameFilters()
    ensures Lower("no") == "no" && IsNameText("no")
    ensures !ContainsAny(Lower("no"), NameSkipPhrases)
    ensures forall k :: 0 <= k < |NameFillers| ==> !Contains(Lower("no"), NameFillers[k])
  {
    var l := Lower("no");
    assert l[0] == 'n' && l[1] == 'o';
    forall k | 0 <= k < |NameSkipPhrases|
      ensures !Contains("no", NameSkipPhrases[k])
    {
      LongerNotContained("no", NameSkipPhrases[k]);
    }
    forall k | 0 <= k < |NameFillers|
      ensures !Contains("no", NameFillers[k])
    {
      LongerNotContained("no", NameFillers[k]);
    }
  }

  /** A plain "no" passes the name extractor as the name "No". */
  lemma NoIsAName()
    ensures ExtractName("no") == Some("No")
  {
    NoPassesNameFilters();
    NameRoundTrip("no");
    NoTitleCased();
  }

  lemma NoTitleCased()
    ensures TitleCase("no") == "No"
  {
    var t := TitleCase("no");
    assert t[0] == 'N' && t[1] == 'o';
  }

  /** A clean name (2-50 letters and spaces, stripped, with no skip or
      filler phrase) is extracted whole, title-cased. */
  lemma NameRoundTrip(name: string)
    requires 2 <= |name| <= 50 && IsNameText(name)
    requires !IsSpace(name[0]) && !IsSpace(name[|name| - 1])
    requires !ContainsAny(Lower(name), NameSkipPhrases)
    requires forall k :: 0 <= k < |NameFillers| ==> !Contains(Lower(name), NameFillers[k])
    ensures ExtractName(name) == Some(TitleCase(name))
  {
    StripKeepsTrimmed(name);
    RemovePhrasesWithoutMatch(name, NameFillers);
  }

  /** A clean company name of 2-100 characters is extracted whole,
      title-cased. */
  lemma CompanyRoundTrip(company: string)
    requires 2 <= |company| <= 100
    requires !IsSpace(company[0]) && !IsSpace(company[|company| - 1])
    requires forall k :: 0 <= k < |CompanyFillers| ==> !Contains(Lower(company), CompanyFillers[k])
    ensures ExtractCompany(company) == Some(TitleCase(company))
  {
    StripKeepsTrimmed(company);
    RemovePhrasesWithoutMatch(company, CompanyFillers);
  }

  /** A clean country name of 2-50 characters is extracted whole, lowered
      and then title-cased. */
  lemma CountryRoundTrip(country: string)
    requires 2 <= |country| <= 50
    requires !IsSpace(country[0]) && !IsSpace(country[|country| - 1])
    requires forall k :: 0 <= k < |CountryFillers| ==> !Contains(Lower(country), CountryFillers[k])
    ensures ExtractCountry(country) == Some(TitleCase(Lower(country)))
  {
    CountryCandidateOfClean(country);
    StripKeepsTrimmed(country);
  }

  /** A stripped country with no filler phrase is kept whole, lowered. */
  lemma CountryCandidateOfClean(country: string)
    requires country == [] || (!IsSpace(country[0]) && !IsSpace(country[|country| - 1]))
    requires forall k :: 0 <= k < |CountryFillers| ==> !Contains(Lower(country), CountryFillers[k])
    ensures CountryCandidate(country) == Lower(country)
  {
    var low := Lower(country);
    StripKeepsTrimmed(country);
    LowerHasNoUpper(country);
    LowerHasNoUpper(low);
    FillersNonEmpty();
    RemovePhrasesWithoutMatch(low, CountryFillers);
    LowerKeepsTrimmed(country);
    StripKeepsTrimmed(low);
  }

  /** An extracted company passes the handler's extra guard
      `len(company.strip()) > 1` (server.py:205): the guard never rejects. */
  lemma CompanyGuardRedundant(text: string)
    requires ExtractCompany(text).Some?
    ensures |Strip(ExtractCompany(text).value)| > 1
  {
    var c := ExtractCompany(text).value;
    assert TrimStart(c) == c;
    assert TrimEnd(c) == c;
  }

  // =====================================================================
  // Phone validation and country-code formatting (server.py:60-71,
  // 579-586, 600-614)
  // =====================================================================

  /** `validate_phone`: 8-15 ASCII digits, optionally after one leading '+'. */
  function ValidatePhone(phone: string): (ok: bool)
    ensures ok <==>
      || (8 <= |phone| <= 15 && AllDigits(phone))
      || (|phone| > 0 && phone[0] == '+' && 9 <= |phone| <= 16 && AllDigits(phone[1..]))
  {
    if phone == [] then false
    else if phone[0] == '+' then
      var digits := phone[1..];
      8 <= |digits| <= 15 && AllDigits(digits)
    else
      8 <= |phone| <= 15 && AllDigits(phone)
  }

  /** The country-name table of server.py:60-71. */
  const CountryCodes: map<string, string> := map[
    "usa" := "+1", "united states" := "+1", "america" := "+1", "us" := "+1",
    "india" := "+91", "uk" := "+44", "united kingdom" := "+44", "britain" := "+44",
    "canada" := "+1", "australia" := "+61", "germany" := "+49", "france" := "+33",
    "japan" := "+81", "china" := "+86", "brazil" := "+55", "russia" := "+7",
    "italy" := "+39", "spain" := "+34", "netherlands" := "+31", "sweden" := "+46",
    "norway" := "+47", "denmark" := "+45", "finland" := "+358", "poland" := "+48",
    "turkey" := "+90", "south africa" := "+27", "egypt" := "+20", "nigeria" := "+234",
    "kenya" := "+254", "ghana" := "+233", "uae" := "+971", "saudi arabia" := "+966",
    "singapore" := "+65", "malaysia" := "+60", "thailand" := "+66", "philippines" := "+63",
    "indonesia" := "+62", "vietnam" := "+84", "south korea" := "+82", "taiwan" := "+886"
  ]

  /** Every calling code in the table is '+' followed by digits. */
  lemma CountryCodesArePrefixed(key: string)
    requires key in CountryCodes
    ensures |CountryCodes[key]| >= 2 && CountryCodes[key][0] == '+' && AllDigits(CountryCodes[key][1..])
  {
  }

  /** `format_phone_with_country`: the phone is returned unchanged when it or
      the country is empty, when it already starts with '+', or when the
      lowered country is not in the table; otherwise the table's code is
      put in front of it. */
  function FormatPhoneWithCountry(phone: string, country: string): (r: string)
    ensures phone == [] || country == [] || phone[0] == '+' || Lower(country) !in CountryCodes ==> r == phone
    ensures phone != [] && country != [] && phone[0] != '+' && Lower(country) in CountryCodes ==>
      r == CountryCodes[Lower(country)] + phone
  {
    if phone == [] || country == [] then phone
    else if phone[0] == '+' then phone
    else
      var code := if Lower(country) in CountryCodes then CountryCodes[Lower(country)] else "";
      if code != [] then code + phone else phone
  }

  /** Formatting twice is formatting once, because every code starts with '+'. */
  lemma FormatPhoneIdempotent(phone: string, country: string)
    ensures FormatPhoneWithCountry(FormatPhoneWithCountry(phone, country), country)
         == FormatPhoneWithCountry(phone, country)
  {
    if phone != [] && country != [] && phone[0] != '+' && Lower(country) in CountryCodes {
      CountryCodesArePrefixed(Lower(country));
    }
  }

  /** Formatting keeps the phone as a suffix and never empties it. */
  lemma FormatPhoneKeepsNumber(phone: string, country: string)
    ensures var r := FormatPhoneWithCountry(phone, country);
      |r| >= |phone| && r[|r| - |phone|..] == phone && (phone != [] ==> r != [])
  {
  }

  /** A valid local phone formatted against a known country starts with '+'
      and still consists of digits after it; with a long code it may exceed
      the 15 digits `validate_phone` allows, which nothing re-checks. */
  lemma FormatValidPhone(phone: string, country: string)
    requires ValidatePhone(phone) && phone[0] != '+'
    requires Lower(country) in CountryCodes && country != []
    ensures var r := FormatPhoneWithCountry(phone, country);
      r[0] == '+' && AllDigits(r[1..]) && 9 <= |r| <= 19
  {
    CountryCodesArePrefixed(Lower(country));
    var code := CountryCodes[Lower(country)];
    assert |code| <= 4;
    var r := FormatPhoneWithCountry(phone, country);
    assert r[1..] == code[1..] + phone;
  }

  /** A known country puts its code in front of a local number; an unknown
      one leaves the number alone. */
  lemma FormatPhoneExamples()
    ensures FormatPhoneWithCountry("9876543210", "India") == "+919876543210"
    ensures FormatPhoneWithCountry("9876543210", "Atlantis") == "9876543210"
  {
    LowerExamples();
    CountryCodeExamples();
  }

  lemma LowerExamples()
    ensures Lower("India") == "india" && Lower("Atlantis") == "atlantis"
  {
    assert Lower("India") == "india";
    assert Lower("Atlantis") == "atlantis";
  }

  lemma CountryCodeExamples()
    ensures "india" in CountryCodes && CountryCodes["india"] == "+91" && "atlantis" !in CountryCodes
  {
  }

  // =====================================================================
  // Email (server.py:498-538)
  // =====================================================================

  /** The spoken-form table of server.py:505-516, in insertion order. */
  const EmailReplacements: seq<(string, string)> := [
    (" at the rate ", "@"), (" at ", "@"), (" @ ", "@"), (" add ", "@"),
    (" dot ", "."), (" period ", "."), (" point ", "."), (" full stop ", "."),
    (" gmail ", "gmail"), (" g mail ", "gmail"), (" jemail ", "gmail"),
    (" yahoo ", "yahoo"), (" ya who ", "yahoo"), (" yahu ", "yahoo"),
    (" hotmail ", "hotmail"), (" hot mail ", "hotmail"),
    (" outlook ", "outlook"), (" out look ", "outlook"),
    (" underscore ", "_"), (" dash ", "-"), (" hyphen ", "-"),
    ("dot com", ".com"), ("dot org", ".org"), ("dot net", ".net"), ("dot in", ".in"),
    ("gmail dot com", "gmail.com"), ("yahoo dot com", "yahoo.com"),
    ("hotmail dot com", "hotmail.com"), ("outlook dot com", "outlook.com")
  ]

  lemma EmailTableKeys()
    ensures KeysNonEmpty(EmailReplacements)
  {
  }

  /** `re.sub(r'\s*c\s*', c, s)`: every whitespace run next to a `c` is
      deleted. */
  function CollapseAround(s: string, c: char): (r: string)
    requires !IsSpace(c)
    ensures |r| <= |s|
    decreases |s|
  {
    if s == [] then []
    else if IsSpace(s[0]) then
      var n := RunEnd(s, 0, Space);
      if n < |s| && s[n] == c then CollapseAround(s[n..], c)
      else s[..n] + CollapseAround(s[n..], c)
    else if s[0] == c then [c] + CollapseAround(s[RunEnd(s, 1, Space)..], c)
    else [s[0]] + CollapseAround(s[1..], c)
  }

  /** `re.sub(r'\s+', '', s)` */
  function RemoveSpaces(s: string): (r: string)
    ensures forall i :: 0 <= i < |r| ==> !IsSpace(r[i])
    decreases |s|
  {
    if s == [] then []
    else if IsSpace(s[0]) then RemoveSpaces(s[1..])
    else [s[0]] + RemoveSpaces(s[1..])
  }

  lemma {:induction false} RemoveSpacesConcat(a: string, b: string)
    ensures RemoveSpaces(a + b) == RemoveSpaces(a) + RemoveSpaces(b)
    decreases |a|
  {
    if a != [] {
      assert (a + b)[1..] == a[1..] + b;
      RemoveSpacesConcat(a[1..], b);
    } else {
      assert a + b == b;
    }
  }

  lemma {:induction false} RemoveSpacesOfSpaces(s: string)
    requires forall i :: 0 <= i < |s| ==> IsSpace(s[i])
    ensures RemoveSpaces(s) == []
    decreases |s|
  {
    if s != [] {
      RemoveSpacesOfSpaces(s[1..]);
    }
  }

  /** Collapsing whitespace around a character only deletes whitespace. */
  lemma {:induction false} CollapseOnlyDropsSpaces(s: string, c: char)
    requires !IsSpace(c)
    ensures RemoveSpaces(CollapseAround(s, c)) == RemoveSpaces(s)
    decreases |s|
  {
    if s == [] {
    } else if IsSpace(s[0]) {
      var n := RunEnd(s, 0, Space);
      assert s == s[..n] + s[n..];
      RemoveSpacesConcat(s[..n], s[n..]);
      RemoveSpacesOfSpaces(s[..n]);
      CollapseOnlyDropsSpaces(s[n..], c);
      if !(n < |s| && s[n] == c) {
        RemoveSpacesConcat(s[..n], CollapseAround(s[n..], c));
      }
    } else if s[0] == c {
      var n := RunEnd(s, 1, Space);
      assert s == [c] + s[1..n] + s[n..];
      RemoveSpacesConcat([c] + s[1..n], s[n..]);
      RemoveSpacesConcat([c], s[1..n]);
      RemoveSpacesOfSpaces(s[1..n]);
      CollapseOnlyDropsSpaces(s[n..], c);
      RemoveSpacesConcat([c], CollapseAround(s[n..], c));
    } else {
      CollapseOnlyDropsSpaces(s[1..], c);
      RemoveSpacesConcat([s[0]], CollapseAround(s[1..], c));
      assert s == [s[0]] + s[1..];
      RemoveSpacesConcat([s[0]], s[1..]);
    }
  }

  /** The strict pattern `^[a-zA-Z0-9][a-zA-Z0-9._-]*@[a-zA-Z0-9][a-zA-Z0-9.-]*\.[a-zA-Z]{2,}$`
      with its '@' at `at` and the dot before the top-level domain at `dot`. */
  predicate EmailShape(e: string, at: nat, dot: nat) {
    && 0 < at && at + 1 < dot && dot + 2 < |e|
    && IsAlnum(e[0]) && (forall i :: 1 <= i < at ==> IsLocalChar(e[i]))
    && e[at] == '@'
    && IsAlnum(e[at + 1]) && (forall i :: at + 2 <= i < dot ==> IsDomainChar(e[i]))
    && e[dot] == '.'
    && (forall i :: dot < i < |e| ==> IsLetter(e[i]))
  }

  predicate IsEmail(e: string) {
    exists at, dot | 0 < at < dot < |e| :: EmailShape(e, at, dot)
  }

  /** An address put together from a local part, a domain and a top-level
      domain of the allowed characters matches the pattern. */
  lemma EmailFromParts(local: string, domain: string, tld: string)
    requires local != [] && IsAlnum(local[0]) && forall i :: 0 <= i < |local| ==> IsLocalChar(local[i])
    requires domain != [] && IsAlnum(domain[0]) && forall i :: 0 <= i < |domain| ==> IsDomainChar(domain[i])
    requires |tld| >= 2 && forall i :: 0 <= i < |tld| ==> IsLetter(tld[i])
    ensures IsEmail(local + "@" + domain + "." + tld)
  {
    var e := local + "@" + domain + "." + tld;
    var at, dot := |local|, |local| + 1 + |domain|;
    assert forall i :: 1 <= i < at ==> e[i] == local[i];
    assert forall i :: at + 2 <= i < dot ==> e[i] == domain[i - at - 1];
    assert forall i :: dot < i < |e| ==> e[i] == tld[i - dot - 1];
    assert EmailShape(e, at, dot);
  }

  lemma LowerKeepsEmail(e: string)
    requires IsEmail(e)
    ensures IsEmail(Lower(e)) && NoUpper(Lower(e))
  {
    var at, dot :| 0 < at < dot < |e| && EmailShape(e, at, dot);
    assert EmailShape(Lower(e), at, dot);
  }

  /** `\.[a-zA-Z]{2,}` can start at `p`. */
  predicate TldDotAt(s: string, p: nat) {
    p + 2 < |s| && s[p] == '.' && IsLetter(s[p + 1]) && IsLetter(s[p + 2])
  }

  /** The largest `p` in [lo, hi) where the top-level domain can start: the
      greedy `[a-zA-Z0-9.-]*` gives back characters from the right. */
  function LastTldDot(s: string, lo: nat, hi: nat): (p: Option<nat>)
    ensures p.Some? ==> lo <= p.value < hi && TldDotAt(s, p.value)
    ensures p.Some? ==> forall q :: p.value < q < hi ==> !TldDotAt(s, q)
    ensures p.None? ==> forall q :: lo <= q < hi ==> !TldDotAt(s, q)
    decreases hi
  {
    if hi <= lo then None
    else if TldDotAt(s, hi - 1) then Some(hi - 1)
    else LastTldDot(s, lo, hi - 1)
  }

  /** End of the match of the unanchored email pattern (server.py:533) that
      starts at `i`, if any. */
  function EmailMatchAt(s: string, i: nat): (e: Option<nat>)
    ensures e.Some? ==> i < e.value <= |s| && IsEmail(s[i..e.value])
  {
    if i >= |s| || !IsAlnum(s[i]) then None
    else
      var at := RunEnd(s, i + 1, LocalPart);
      if at + 1 >= |s| || s[at] != '@' || !IsAlnum(s[at + 1]) then None
      else
        var domainEnd := RunEnd(s, at + 2, DomainPart);
        match LastTldDot(s, at + 2, domainEnd)
        case None => None
        case Some(dot) =>
          var end := RunEnd(s, dot + 1, Letter);
          assert EmailShape(s[i..end], at - i, dot - i);
          Some(end)
  }

  /** `re.findall(pattern, s)[0]`: the match with the leftmost start. */
  function FirstEmailMatch(s: string, i: nat): (m: Option<string>)
    ensures m.Some? ==> IsEmail(m.value)
    decreases |s| - i
  {
    if i >= |s| then None
    else match EmailMatchAt(s, i)
      case Some(end) => Some(s[i..end])
      case None => FirstEmailMatch(s, i + 1)
  }

  /** What `extract_email` does once the spoken forms are replaced
      (server.py:522-538): collapse whitespace around '@' and '.', drop the
      rest of it, and accept the result if it matches the strict pattern;
      otherwise take the first match of the loose pattern in the collapsed
      text. */
  function EmailFromSpoken(spoken: string): (r: Option<string>)
    ensures r.Some? ==> IsEmail(r.value) && NoUpper(r.value)
  {
    var tidy := CollapseAround(CollapseAround(spoken, '@'), '.');
    var candidate := RemoveSpaces(tidy);
    if IsEmail(candidate) then
      LowerKeepsEmail(candidate);
      Some(Lower(candidate))
    else
      match FirstEmailMatch(tidy, 0)
      case Some(m) =>
        LowerKeepsEmail(m);
        Some(Lower(m))
      case None => None
  }

  /** The strict candidate is the spoken text with all whitespace removed:
      the two collapsing substitutions only anticipate the last one. */
  lemma EmailCandidateIsSpokenWithoutSpaces(spoken: string)
    ensures RemoveSpaces(CollapseAround(CollapseAround(spoken, '@'), '.')) == RemoveSpaces(spoken)
  {
    CollapseOnlyDropsSpaces(CollapseAround(spoken, '@'), '.');
    CollapseOnlyDropsSpaces(spoken, '@');
  }

  /** `extract_email` as a function of its input. */
  function EmailOf(text: string): (r: Option<string>)
    ensures |Strip(text)| < 5 ==> r == None
    ensures r.Some? ==> IsEmail(r.value) && NoUpper(r.value)
  {
    if |Strip(text)| < 5 then None
    else
      EmailTableKeys();
      EmailFromSpoken(ApplyReplacements(Lower(Strip(text)), EmailReplacements))
  }

  /** No whitespace anywhere. */
  predicate Spaceless(s: string) {
    forall i :: 0 <= i < |s| ==> !IsSpace(s[i])
  }

  /** An address of the strict pattern has no whitespace and at least six
      characters. */
  lemma EmailIsSpaceless(e: string)
    requires IsEmail(e)
    ensures Spaceless(e) && |e| >= 6
  {
    var at, dot :| 0 < at < dot < |e| && EmailShape(e, at, dot);
    forall i | 0 <= i < |e|
      ensures !IsSpace(e[i])
    {
      if i == 0 || i == at + 1 || i == at || i == dot {
      } else if i < at {
        assert IsLocalChar(e[i]);
      } else if i < dot {
        assert IsDomainChar(e[i]);
      } else {
        assert IsLetter(e[i]);
      }
    }
  }

  /** A phrase containing a space never occurs in text without whitespace. */
  lemma {:induction false} SpacelessMissesSpacedWords(s: string, w: string)
    requires Spaceless(s) && ' ' in w
    ensures !Contains(s, w)
    decreases |s|
  {
    var j :| 0 <= j < |w| && w[j] == ' ';
    assert !StartsWith(s, w) by {
      if |w| <= |s| {
        assert s[..|w|][j] == s[j];
      }
    }
    if s != [] {
      SpacelessMissesSpacedWords(s[1..], w);
    }
  }

  /** A table whose keys all contain a space leaves text without whitespace
      alone. */
  lemma {:induction false} ReplacementsKeepSpaceless(s: string, table: seq<(string, string)>)
    requires KeysNonEmpty(table) && forall k :: 0 <= k < |table| ==> ' ' in table[k].0
    requires Spaceless(s)
    ensures ApplyReplacements(s, table) == s
    decreases |table|
  {
    if table != [] {
      ReplacementsKeepSpaceless(s, table[..|table| - 1]);
      SpacelessMissesSpacedWords(s, table[|table| - 1].0);
    }
  }

  /** Once the text has no whitespace, the rest of a table whose keys all
      contain a space changes nothing. */
  lemma {:induction false} LaterReplacementsKeepSpaceless(s: string, table: seq<(string, string)>, n: nat, m: nat)
    requires KeysNonEmpty(table) && n <= m <= |table|
    requires forall k :: n <= k < |table| ==> ' ' in table[k].0
    requires Spaceless(ApplyReplacements(s, table[..n]))
    ensures ApplyReplacements(s, table[..m]) == ApplyReplacements(s, table[..n])
    decreases m
  {
    if m > n {
      LaterReplacementsKeepSpaceless(s, table, n, m - 1);
      ApplyReplacementsStep(s, table, m - 1);
      SpacelessMissesSpacedWords(ApplyReplacements(s, table[..n]), table[m - 1].0);
    }
  }

  /** Every spoken form in the email table contains a space. */
  lemma EmailKeysHaveSpaces()
    ensures forall k :: 0 <= k < |EmailReplacements| ==> ' ' in EmailReplacements[k].0
  {
  }

  lemma {:induction false} RemoveSpacesOfSpaceless(s: string)
    requires Spaceless(s)
    ensures RemoveSpaces(s) == s
    decreases |s|
  {
    if s != [] {
      RemoveSpacesOfSpaceless(s[1..]);
      assert [s[0]] + s[1..] == s;
    }
  }

  /** A lower-case address of the strict pattern passes the collapsing
      steps unchanged. */
  lemma EmailFromWrittenEmail(e: string)
    requires IsEmail(e) && NoUpper(e)
    ensures EmailFromSpoken(e) == Some(e)
  {
    EmailIsSpaceless(e);
    EmailCandidateIsSpokenWithoutSpaces(e);
    RemoveSpacesOfSpaceless(e);
    LowerHasNoUpper(e);
  }

  /** An address typed in the strict pattern is extracted as it is, in
      lower case. */
  lemma EmailRoundTrip(e: string)
    requires IsEmail(e)
    ensures EmailOf(e) == Some(Lower(e))
  {
    EmailIsSpaceless(e);
    StripKeepsTrimmed(e);
    var low := Lower(e);
    LowerKeepsEmail(e);
    EmailIsSpaceless(low);
    EmailTableKeys();
    EmailKeysHaveSpaces();
    ReplacementsKeepSpaceless(low, EmailReplacements);
    EmailFromWrittenEmail(low);
  }

  /** `extract_email`, running the replacement loop of server.py:519-520. */
  method ExtractEmail(text: string) returns (r: Option<string>)
    ensures r == EmailOf(text)
  {
    if |Strip(text)| < 5 {
      return None;
    }
    EmailTableKeys();
    var spoken := ReplaceEach(Lower(Strip(text)), EmailReplacements);
    r := EmailFromSpoken(spoken);
  }

  // =====================================================================
  // Phone (server.py:540-577)
  // =====================================================================

  /** The number-word table of server.py:547-551, in insertion order. */
  const NumberWords: seq<(string, string)> := [
    ("zero", "0"), ("one", "1"), ("two", "2"), ("three", "3"), ("four", "4"),
    ("five", "5"), ("six", "6"), ("seven", "7"), ("eight", "8"), ("nine", "9"),
    ("oh", "0"), ("o", "0")
  ]

  lemma NumberWordKeys()
    ensures KeysNonEmpty(NumberWords)
  {
  }

  /** `number_words.get(w, w)` */
  function NumberWordValue(w: string, table: seq<(string, string)>): (d: string)
    ensures (forall k :: 0 <= k < |table| ==> table[k].0 != w) ==> d == w
    ensures forall k :: 0 <= k < |table| && table[k].0 == w && (forall j :: 0 <= j < k ==> table[j].0 != w) ==> d == table[k].1
  {
    if table == [] then w
    else if table[0].0 == w then table[0].1
    else NumberWordValue(w, table[1..])
  }

  function Repeat(w: string, n: nat): (r: string)
    ensures |r| == n * |w|
  {
    if n == 0 then [] else w + Repeat(w, n - 1)
  }

  /** `re.sub(r'plus\s+', '+', s)` */
  function SubPlus(s: string): string
    decreases |s|
  {
    if s == [] then []
    else if StartsWith(s, "plus") && 4 < |s| && IsSpace(s[4]) then "+" + SubPlus(s[RunEnd(s, 4, Space)..])
    else [s[0]] + SubPlus(s[1..])
  }

  /** `re.sub(r'country\s+code\s+', '+', s)` */
  function SubCountryCode(s: string): string
    decreases |s|
  {
    if s == [] then []
    else if StartsWith(s, "country") && 7 < |s| && IsSpace(s[7]) then
      var j := RunEnd(s, 7, Space);
      if StartsWith(s[j..], "code") && j + 4 < |s| && IsSpace(s[j + 4]) then
        "+" + SubCountryCode(s[RunEnd(s, j + 4, Space)..])
      else [s[0]] + SubCountryCode(s[1..])
    else [s[0]] + SubCountryCode(s[1..])
  }

  /** `re.sub(keyword + r'\s+(\w+)', lambda m: number_words.get(m.group(1), m.group(1)) * n, s)`
      for "double" (n = 2) and "triple" (n = 3). */
  function SubRepeat(s: string, keyword: string, n: nat): string
    requires keyword != []
    decreases |s|
  {
    if s == [] then []
    else if StartsWith(s, keyword) && |keyword| < |s| && IsSpace(s[|keyword|]) then
      var j := RunEnd(s, |keyword|, Space);
      if j < |s| && IsWordChar(s[j]) then
        var e := RunEnd(s, j, Word);
        Repeat(NumberWordValue(s[j..e], NumberWords), n) + SubRepeat(s[e..], keyword, n)
      else [s[0]] + SubRepeat(s[1..], keyword, n)
    else [s[0]] + SubRepeat(s[1..], keyword, n)
  }

  /** Without "plus" there is nothing to rewrite. */
  lemma {:induction false} SubPlusWithoutMatch(s: string)
    requires !Contains(s, "plus")
    ensures SubPlus(s) == s
    decreases |s|
  {
    if s != [] {
      SubPlusWithoutMatch(s[1..]);
      assert [s[0]] + s[1..] == s;
    }
  }

  /** Without "country" there is nothing to rewrite. */
  lemma {:induction false} SubCountryCodeWithoutMatch(s: string)
    requires !Contains(s, "country")
    ensures SubCountryCode(s) == s
    decreases |s|
  {
    if s != [] {
      SubCountryCodeWithoutMatch(s[1..]);
      assert [s[0]] + s[1..] == s;
    }
  }

  /** Without the keyword there is nothing to rewrite. */
  lemma {:induction false} SubRepeatWithoutMatch(s: string, keyword: string, n: nat)
    requires keyword != [] && !Contains(s, keyword)
    ensures SubRepeat(s, keyword, n) == s
    decreases |s|
  {
    if s != [] {
      SubRepeatWithoutMatch(s[1..], keyword, n);
      assert [s[0]] + s[1..] == s;
    }
  }

  /** "double" or "triple" followed by whitespace and a word turns into the
      word's digit repeated. */
  lemma SubRepeatFirstWord(keyword: string, word: string, rest: string, n: nat)
    requires keyword != [] && word != [] && forall i :: 0 <= i < |word| ==> IsWordChar(word[i])
    requires rest == [] || !IsWordChar(rest[0])
    ensures SubRepeat(keyword + " " + word + rest, keyword, n)
      == Repeat(NumberWordValue(word, NumberWords), n) + SubRepeat(rest, keyword, n)
  {
    var s := keyword + " " + word + rest;
    var k := |keyword|;
    assert s[..k] == keyword;
    assert s[k] == ' ' && s[k + 1] == word[0];
    var j := RunEnd(s, k, Space);
    assert j == k + 1;
    assert forall i :: j <= i < j + |word| ==> s[i] == word[i - j];
    assert j + |word| < |s| ==> s[j + |word|] == rest[0];
    var e := RunEnd(s, j, Word);
    assert e == j + |word|;
    assert s[j..e] == word && s[e..] == rest;
  }

  /** The regular-expression rewrites of server.py:554-559, in order. */
  function RewriteSpokenPhone(s: string): string {
    SubRepeat(SubRepeat(SubCountryCode(SubPlus(s)), "double", 2), "triple", 3)
  }

  /** `re.sub(r'(\d)\s+(\d)', r'\1\2', s)` */
  function JoinDigitGaps(s: string): string
    decreases |s|
  {
    if s == [] then []
    else if IsDigit(s[0]) && 1 < |s| && IsSpace(s[1]) then
      var j := RunEnd(s, 1, Space);
      if j < |s| && IsDigit(s[j]) then [s[0], s[j]] + JoinDigitGaps(s[j + 1..])
      else [s[0]] + JoinDigitGaps(s[1..])
    else [s[0]] + JoinDigitGaps(s[1..])
  }

  predicate IsDialChar(c: char) { IsDigit(c) || c == '+' }

  /** `re.sub(r'[^\d\+]', '', s)` */
  function KeepDialChars(s: string): (r: string)
    ensures forall i :: 0 <= i < |r| ==> IsDialChar(r[i])
    decreases |s|
  {
    if s == [] then []
    else if IsDialChar(s[0]) then [s[0]] + KeepDialChars(s[1..])
    else KeepDialChars(s[1..])
  }

  /** Leading whitespace never reaches the filtered phone. */
  lemma {:induction false} KeepDialCharsSkipsSpaces(t: string, k: nat)
    requires k <= |t|
    requires forall i :: 0 <= i < k ==> IsSpace(t[i])
    ensures KeepDialChars(t) == KeepDialChars(t[k..])
    decreases k
  {
    if k > 0 {
      KeepDialCharsSkipsSpaces(t[1..], k - 1);
      assert t[1..][k - 1..] == t[k..];
    }
  }

  /** The filter keeps both digits around a whitespace gap and drops the
      gap. */
  lemma KeepDialCharsOfGap(s: string, j: nat)
    requires 1 <= j < |s| && IsDigit(s[0]) && IsDigit(s[j])
    requires forall i :: 1 <= i < j ==> IsSpace(s[i])
    ensures KeepDialChars(s) == [s[0]] + ([s[j]] + KeepDialChars(s[j + 1..]))
  {
    KeepDialCharsSkipsSpaces(s[1..], j - 1);
    assert s[1..][j - 1..] == s[j..];
    assert s[j..][1..] == s[j + 1..];
  }

  /** The filter keeps a joined pair of digits. */
  lemma KeepDialCharsOfPair(a: char, b: char, rest: string)
    requires IsDigit(a) && IsDigit(b)
    ensures KeepDialChars([a, b] + rest) == [a] + ([b] + KeepDialChars(rest))
  {
    assert ([a, b] + rest)[1..] == [b] + rest;
    assert ([b] + rest)[1..] == rest;
  }

  /** Joining digit groups has no effect on the final phone: the filter
      that follows drops the whitespace anyway. */
  lemma {:induction false} DigitGapsIrrelevant(s: string)
    ensures KeepDialChars(JoinDigitGaps(s)) == KeepDialChars(s)
    decreases |s|
  {
    if s == [] {
    } else if IsDigit(s[0]) && 1 < |s| && IsSpace(s[1]) && RunEnd(s, 1, Space) < |s| && IsDigit(s[RunEnd(s, 1, Space)]) {
      var j := RunEnd(s, 1, Space);
      DigitGapsIrrelevant(s[j + 1..]);
      KeepDialCharsOfPair(s[0], s[j], JoinDigitGaps(s[j + 1..]));
      KeepDialCharsOfGap(s, j);
    } else {
      DigitGapsIrrelevant(s[1..]);
      assert ([s[0]] + JoinDigitGaps(s[1..]))[1..] == JoinDigitGaps(s[1..]);
    }
  }

  lemma {:induction false} KeepDialCharsConcat(a: string, b: string)
    ensures KeepDialChars(a + b) == KeepDialChars(a) + KeepDialChars(b)
    decreases |a|
  {
    if a != [] {
      assert (a + b)[1..] == a[1..] + b;
      KeepDialCharsConcat(a[1..], b);
    } else {
      assert a + b == b;
    }
  }

  /** The filter drops a separating space. */
  lemma KeepDialCharsAtSpace(a: string, b: string)
    ensures KeepDialChars(a + " " + b) == KeepDialChars(a) + KeepDialChars(b)
  {
    KeepDialCharsConcat(a + " ", b);
    KeepDialCharsConcat(a, " ");
    assert KeepDialChars(" ") == [];
  }

  /** Digits and '+' only, with 8-15 characters after a leading '+' or
      8-15 characters in all. */
  predicate DialShaped(p: string) {
    && (forall i :: 0 <= i < |p| ==> IsDialChar(p[i]))
    && (if |p| > 0 && p[0] == '+' then 8 <= |p| - 1 <= 15 else 8 <= |p| <= 15)
  }

  /** The end of `extract_phone` (server.py:566-577). */
  function PhoneFromDigits(s: string): (r: Option<string>)
    ensures r.Some? ==> DialShaped(r.value)
    ensures r.Some? ==> r.value == KeepDialChars(s)
  {
    var chars := KeepDialChars(JoinDigitGaps(s));
    DigitGapsIrrelevant(s);
    if |chars| > 0 && chars[0] == '+' then
      if 8 <= |chars| - 1 <= 15 then Some(chars) else None
    else if 8 <= |chars| <= 15 then Some(chars)
    else None
  }

  /** `extract_phone` as a function of its input. */
  function PhoneOf(text: string): (r: Option<string>)
    ensures |Strip(text)| < 3 ==> r == None
    ensures r.Some? ==> DialShaped(r.value)
  {
    if |Strip(text)| < 3 then None
    else
      NumberWordKeys();
      PhoneFromDigits(ApplyReplacements(RewriteSpokenPhone(Lower(Strip(text))), NumberWords))
  }

  /** `extract_phone`, running the number-word loop of server.py:562-563. */
  method ExtractPhone(text: string) returns (r: Option<string>)
    ensures r == PhoneOf(text)
  {
    if |Strip(text)| < 3 {
      return None;
    }
    NumberWordKeys();
    var t := ReplaceEach(RewriteSpokenPhone(Lower(Strip(text))), NumberWords);
    r := PhoneFromDigits(t);
  }

  /** An extracted phone passes `validate_phone` exactly when no '+' follows
      its first character: the extractor keeps every '+', the validator
      wants digits only after the first. */
  lemma ExtractedPhoneValidity(text: string)
    requires PhoneOf(text).Some?
    ensures var p := PhoneOf(text).value;
      ValidatePhone(p) <==> forall i :: 0 < i < |p| ==> p[i] != '+'
  {
    DialShapedValidity(PhoneOf(text).value);
  }

  /** A dial-shaped string is valid exactly when no '+' follows its first
      character. */
  lemma DialShapedValidity(p: string)
    requires DialShaped(p)
    ensures ValidatePhone(p) <==> forall i :: 0 < i < |p| ==> p[i] != '+'
  {
    if forall i :: 0 < i < |p| ==> p[i] != '+' {
      if p[0] == '+' {
        assert AllDigits(p[1..]);
      } else {
        assert AllDigits(p);
      }
    }
  }

  /** Only digits and '+'. */
  predicate DialOnly(s: string) {
    forall i :: 0 <= i < |s| ==> IsDialChar(s[i])
  }

  /** A word starting with a letter never occurs among digits and '+'. */
  lemma {:induction false} DialOnlyMissesWords(s: string, w: string)
    requires DialOnly(s) && w != [] && !IsDialChar(w[0])
    ensures !Contains(s, w)
    decreases |s|
  {
    if s != [] {
      assert !StartsWith(s, w) by {
        if |w| <= |s| {
          assert s[..|w|][0] == s[0];
        }
      }
      DialOnlyMissesWords(s[1..], w);
    }
  }

  /** The spoken-form rewrites leave digits and '+' alone. */
  lemma {:induction false} SpokenRewritesKeepDialOnly(s: string)
    requires DialOnly(s)
    ensures SubPlus(s) == s && SubCountryCode(s) == s
    ensures SubRepeat(s, "double", 2) == s && SubRepeat(s, "triple", 3) == s
    decreases |s|
  {
    if s != [] {
      assert !StartsWith(s, "plus") && !StartsWith(s, "country");
      assert !StartsWith(s, "double") && !StartsWith(s, "triple");
      SpokenRewritesKeepDialOnly(s[1..]);
      assert [s[0]] + s[1..] == s;
    }
  }

  /** A table whose keys all start with a letter leaves digits and '+'
      alone. */
  lemma {:induction false} ReplacementsKeepDialOnly(s: string, table: seq<(string, string)>)
    requires KeysNonEmpty(table) && forall k :: 0 <= k < |table| ==> !IsDialChar(table[k].0[0])
    requires DialOnly(s)
    ensures ApplyReplacements(s, table) == s
    decreases |table|
  {
    if table != [] {
      ReplacementsKeepDialOnly(s, table[..|table| - 1]);
      DialOnlyMissesWords(s, table[|table| - 1].0);
    }
  }

  /** The final filter keeps digits and '+'. */
  lemma {:induction false} KeepDialCharsOfDialOnly(s: string)
    requires DialOnly(s)
    ensures KeepDialChars(s) == s
    decreases |s|
  {
    if s != [] {
      KeepDialCharsOfDialOnly(s[1..]);
      assert [s[0]] + s[1..] == s;
    }
  }

  /** A valid phone holds only digits and '+'. */
  lemma ValidPhoneIsDialOnly(phone: string)
    requires ValidatePhone(phone)
    ensures DialOnly(phone) && phone != []
  {
    if phone[0] == '+' {
      assert forall i :: 1 <= i < |phone| ==> phone[1..][i - 1] == phone[i];
    }
  }

  /** The last step keeps a valid phone as it is. */
  lemma PhoneFromValidDigits(phone: string)
    requires ValidatePhone(phone) && DialOnly(phone)
    ensures PhoneFromDigits(phone) == Some(phone)
  {
    DigitGapsIrrelevant(phone);
    KeepDialCharsOfDialOnly(phone);
  }

  /** Every number word starts with a letter and holds no space. */
  lemma NumberWordsStartWithLetters()
    ensures KeysNonEmpty(NumberWords)
    ensures forall k :: 0 <= k < |NumberWords| ==> !IsDialChar(NumberWords[k].0[0])
    ensures forall k :: 0 <= k < |NumberWords| ==> ' ' !in NumberWords[k].0
  {
  }

  /** A phone that already passes `validate_phone` is extracted unchanged. */
  lemma PhoneRoundTrip(phone: string)
    requires ValidatePhone(phone)
    ensures PhoneOf(phone) == Some(phone)
  {
    ValidPhoneIsDialOnly(phone);
    StripKeepsTrimmed(phone);
    DialOnlyPassesRewrites(phone);
    PhoneFromValidDigits(phone);
  }

  /** Lower-casing, the spoken-form rewrites and the number-word table all
      leave digits and '+' alone. */
  lemma DialOnlyPassesRewrites(s: string)
    requires DialOnly(s)
    ensures KeysNonEmpty(NumberWords)
    ensures ApplyReplacements(RewriteSpokenPhone(Lower(s)), NumberWords) == s
  {
    LowerHasNoUpper(s);
    SpokenRewritesKeepDialOnly(s);
    NumberWordsStartWithLetters();
    ReplacementsKeepDialOnly(s, NumberWords);
  }

  /** Entries whose keys do not occur in the text leave it as it is. */
  lemma {:induction false} ReplacementsBeforeKey(w: string, table: seq<(string, string)>, m: nat)
    requires KeysNonEmpty(table) && m <= |table|
    requires forall j :: 0 <= j < m ==> !Contains(w, table[j].0)
    ensures ApplyReplacements(w, table[..m]) == w
    decreases m
  {
    if m == 0 {
      assert table[..0] == [];
    } else {
      ReplacementsBeforeKey(w, table, m - 1);
      ApplyReplacementsStep(w, table, m - 1);
    }
  }

  /** A key that no earlier key occurs in, said alone, is replaced by its
      own entry. */
  lemma KeyReplacedAtItsEntry(table: seq<(string, string)>, k: nat)
    requires KeysNonEmpty(table) && k < |table|
    requires forall j :: 0 <= j < k ==> !Contains(table[k].0, table[j].0)
    ensures ApplyReplacements(table[k].0, table[..k + 1]) == table[k].1
  {
    var (w, d) := table[k];
    ReplacementsBeforeKey(w, table, k);
    ApplyReplacementsStep(w, table, k);
    ReplaceAllReplacesMatch(w, [], d);
    assert w + [] == w && d + [] == d;
  }

  /** The entries from `n` on leave digits and '+' alone when their keys
      start with a letter. */
  lemma LaterKeysKeepDialOnly(s: string, table: seq<(string, string)>, n: nat)
    requires KeysNonEmpty(table) && n <= |table|
    requires forall j :: 0 <= j < |table| ==> !IsDialChar(table[j].0[0])
    requires DialOnly(s)
    ensures ApplyReplacements(s, table[n..]) == s
  {
    var later := table[n..];
    assert forall j :: 0 <= j < |later| ==> later[j] == table[n + j];
    ReplacementsKeepDialOnly(s, later);
  }

  /** A key replaced by its own entry keeps its value through the rest of
      the table, when the values are digits and every key starts with a
      letter. */
  lemma ValueSurvivesLaterKeys(table: seq<(string, string)>, k: nat)
    requires KeysNonEmpty(table) && k < |table|
    requires forall j :: 0 <= j < |table| ==> !IsDialChar(table[j].0[0])
    requires DialOnly(table[k].1)
    requires ApplyReplacements(table[k].0, table[..k + 1]) == table[k].1
    ensures ApplyReplacements(table[k].0, table) == table[k].1
  {
    ApplyReplacementsSplit(table[k].0, table, k + 1);
    LaterKeysKeepDialOnly(table[k].1, table, k + 1);
  }

  /** No number word occurs inside a later one. */
  lemma NumberWordMisses(k: nat, j: nat)
    requires j < k < |NumberWords|
    ensures !Contains(NumberWords[k].0, NumberWords[j].0)
  {
    var (w, key) := (NumberWords[k].0, NumberWords[j].0);
    if (k, j) == (2, 1) || (k, j) == (4, 1) {
      MissingCharNotContained(w, key, 'n');
    } else if (k, j) == (3, 2) || (k, j) == (8, 2) {
      MissingCharNotContained(w, key, 'w');
    } else if (k, j) == (5, 4) {
      MissingCharNotContained(w, key, 'o');
    } else if (k, j) == (7, 6) {
      MissingCharNotContained(w, key, 'i');
    } else if (k, j) == (8, 3) {
      MissingCharNotContained(w, key, 'r');
    } else {
      NotContainedByFirstChar(w, key);
    }
  }

  /** No earlier number word occurs inside the `k`-th. */
  lemma NoEarlierNumberWordInside(k: nat)
    requires k < |NumberWords|
    ensures forall j :: 0 <= j < k ==> !Contains(NumberWords[k].0, NumberWords[j].0)
  {
    forall j | 0 <= j < k
      ensures !Contains(NumberWords[k].0, NumberWords[j].0)
    {
      NumberWordMisses(k, j);
    }
  }

  /** Every number word said alone becomes its digit: the table's order
      never lets an earlier word eat part of a later one. */
  lemma NumberWordBecomesDigit(k: nat)
    requires k < |NumberWords|
    ensures ApplyReplacements(NumberWords[k].0, NumberWords) == NumberWords[k].1
  {
    NumberWordsStartWithLetters();
    NoEarlierNumberWordInside(k);
    KeyReplacedAtItsEntry(NumberWords, k);
    ValueSurvivesLaterKeys(NumberWords, k);
  }
}
