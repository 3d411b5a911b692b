/**
 * The risk classifier: text is High risk when, lower-cased, it contains one
 * of a fixed list of keywords, and Normal otherwise.
 */
module Risk {
  import opened Wrappers
  import opened Strings

  datatype RiskLevel = Normal | High

  /** The label the application shows and exports for a level. */
  function LevelName(level: RiskLevel): (r: string)
    ensures r == "High" || r == "Normal"
  {
    match level
    case High => "High"
    case Normal => "Normal"
  }

  /** The escalation keywords, in the order they are tried. */
  const RISK_KEYWORDS: seq<string> := [
    "suicide", "kill", "hurt", "harm", "die", "end my life",
    "self harm", "cut myself", "overdose", "pills"
  ]

  /** Some keyword of the list is a substring of `text`. */
  predicate Mentions(keywords: seq<string>, text: string) {
    exists k :: k in keywords && Contains(text, k)
  }

  /**
   * The scan the classifier performs: the index of the first keyword, in
   * list order, that occurs in `text`.
   */
  function FirstMatch(keywords: seq<string>, text: string): (r: Option<nat>)
    ensures r.Some? ==> r.value < |keywords| && Contains(text, keywords[r.value])
    ensures r.Some? ==> forall j :: 0 <= j < r.value ==> !Contains(text, keywords[j])
    ensures r.None? <==> !Mentions(keywords, text)
  {
    if keywords == [] then None
    else if Contains(text, keywords[0]) then Some(0)
    else match FirstMatch(keywords[1..], text)
      case None => None
      case Some(j) => Some(j + 1)
  }

  /** The level `keywords` assign to `text`: High exactly on a keyword hit. */
  function Classify(keywords: seq<string>, text: string): (level: RiskLevel)
    ensures level == High <==> Mentions(keywords, Lower(text))
    ensures level == Normal <==> !Mentions(keywords, Lower(text))
  {
    if FirstMatch(keywords, Lower(text)).Some? then High else Normal
  }

  /** Lower-cases the text, then tries the keywords in order, stopping at the first hit. */
  method DetectRiskLevel(text: string) returns (level: RiskLevel)
    ensures level == Classify(RISK_KEYWORDS, text)
    ensures level == High <==> Mentions(RISK_KEYWORDS, Lower(text))
  {
    var lowered := Lower(text);
    for i := 0 to |RISK_KEYWORDS|
      invariant forall j :: 0 <= j < i ==> !Contains(lowered, RISK_KEYWORDS[j])
    {
      if Contains(lowered, RISK_KEYWORDS[i]) {
        return High;
      }
    }
    return Normal;
  }

  /** Every keyword is written in lower case, so lower-casing them changes nothing. */
  lemma KeywordsAreLowerCase()
    ensures forall k :: k in RISK_KEYWORDS ==> IsLower(k) && Lower(k) == k
  {
    forall k | k in RISK_KEYWORDS ensures IsLower(k) && Lower(k) == k {
      LowerFixesLower(k);
    }
  }

  /** Lower-casing the input first does not change its classification. */
  lemma ClassifyIgnoresCase(keywords: seq<string>, text: string)
    ensures Classify(keywords, Lower(text)) == Classify(keywords, text)
  {
    LowerIdempotent(text);
  }

  /** Any casing of a keyword in the text ("KILL", "End My Life") makes it High. */
  lemma AnyCasingOfKeywordIsHigh(text: string, variant: string)
    requires Lower(variant) in RISK_KEYWORDS
    requires Contains(text, variant)
    ensures Classify(RISK_KEYWORDS, text) == High
  {
    LowerPreservesContains(text, variant);
  }

  /** Reordering the keyword list never changes a classification. */
  lemma ClassifyIgnoresKeywordOrder(keywords: seq<string>, reordered: seq<string>, text: string)
    requires multiset(keywords) == multiset(reordered)
    ensures Classify(keywords, text) == Classify(reordered, text)
  {
    forall k ensures k in keywords <==> k in reordered {
      assert k in keywords <==> k in multiset(keywords);
      assert k in reordered <==> k in multiset(reordered);
    }
  }

  /** "I want to end my life" is High whatever order the keywords are tried in. */
  lemma EndMyLifeIsHigh(keywords: seq<string>)
    requires multiset(keywords) == multiset(RISK_KEYWORDS)
    ensures Classify(keywords, "I want to end my life") == High
  {
    var text := "I want to end my life";
    assert OccursAt(text, "end my life", 10);
    KeywordsAreLowerCase();
    assert "end my life" in RISK_KEYWORDS;
    AnyCasingOfKeywordIsHigh(text, "end my life");
    ClassifyIgnoresKeywordOrder(RISK_KEYWORDS, keywords, text);
  }

  /** "I had a great day at school" lower-cases to itself but for its first letter. */
  lemma GreatDayLowered()
    ensures Lower("I had a great day at school") == "i had a great day at school"
  {
    var rest := " had a great day at school";
    assert "I had a great day at school" == ['I'] + rest;
    assert "i had a great day at school" == ['i'] + rest;
    LowerCons('I', rest);
  }

  /**
   * A text without the letters u, k, m, f, v, p and without "die" holds no
   * keyword: each other keyword has one of those letters.
   */
  lemma NoKeywordWithoutTheirLetters(text: string)
    requires 'u' !in text && 'k' !in text && 'm' !in text
    requires 'f' !in text && 'v' !in text && 'p' !in text
    requires !Contains(text, "die")
    ensures !Mentions(RISK_KEYWORDS, text)
  {
    AbsentCharExcludes(text, "suicide", 'u');
    AbsentCharExcludes(text, "kill", 'k');
    AbsentCharExcludes(text, "hurt", 'u');
    AbsentCharExcludes(text, "harm", 'm');
    AbsentCharExcludes(text, "end my life", 'f');
    AbsentCharExcludes(text, "self harm", 'f');
    AbsentCharExcludes(text, "cut myself", 'u');
    AbsentCharExcludes(text, "overdose", 'v');
    AbsentCharExcludes(text, "pills", 'p');
  }

  /** "die" does not occur in "i had a great day at school". */
  lemma GreatDayHasNoDie()
    ensures !Contains("i had a great day at school", "die")
  {
    var before, after := "i had a ", "reat day at school";
    AbsentCharExcludes(before, "die", 'e');
    AbsentCharExcludes(after, "die", 'i');
    SeparatorExcludes(before, 'g', after, "die");
    assert "i had a great day at school" == before + ['g'] + after;
  }

  /** Letters "i had a great day at school" lacks, each found in some keyword. */
  lemma GreatDayLacksUKM()
    ensures var t := "i had a great day at school"; 'u' !in t && 'k' !in t && 'm' !in t
  {
  }

  lemma GreatDayLacksFVP()
    ensures var t := "i had a great day at school"; 'f' !in t && 'v' !in t && 'p' !in t
  {
  }

  /** "i had a great day at school" mentions no keyword. */
  lemma GreatDayMentionsNoKeyword()
    ensures !Mentions(RISK_KEYWORDS, "i had a great day at school")
  {
    GreatDayLacksUKM();
    GreatDayLacksFVP();
    GreatDayHasNoDie();
    NoKeywordWithoutTheirLetters("i had a great day at school");
  }

  /** Text whose lower-cased form mentions no keyword is Normal. */
  lemma NormalWithoutMention(keywords: seq<string>, text: string)
    requires !Mentions(keywords, Lower(text))
    ensures Classify(keywords, text) == Normal
  {
  }

  /** "I had a great day at school" contains no keyword and is Normal. */
  lemma GreatDayIsNormal()
    ensures Classify(RISK_KEYWORDS, "I had a great day at school") == Normal
  {
    GreatDayLowered();
    GreatDayMentionsNoKeyword();
    NormalWithoutMention(RISK_KEYWORDS, "I had a great day at school");
  }
}
