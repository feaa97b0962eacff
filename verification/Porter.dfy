/** The suffix stripper of M. F. Porter, "An algorithm for suffix stripping", 1980, as the search engine has it. */
module Porter {

  // ---- vowels and the measure

  predicate Aeiou(c: char) { c == 'a' || c == 'e' || c == 'i' || c == 'o' || c == 'u' }

  /** A letter is a vowel or not depending on the one before it: y counts as a vowel unless it follows one of aeiou. */
  predicate Vowel(c: char, prev: char) { Aeiou(c) || (c == 'y' && !Aeiou(prev)) }

  /** Inside a word; a y at its beginning is no vowel. */
  predicate VowelAt(s: string, i: nat)
    requires i < |s|
  {
    Vowel(s[i], if i > 0 then s[i - 1] else 'a')
  }

  /** How often, among the first `k` letters, a consonant follows a vowel. */
  function Transitions(s: string, k: nat): nat
    requires k <= |s|
  {
    if k <= 1 then 0 else Transitions(s, k - 1) + if VowelAt(s, k - 2) && !VowelAt(s, k - 1) then 1 else 0
  }

  function MeasureOf(s: string): nat { Transitions(s, |s|) }

  /** The measure counts the transitions from vowel to consonant. */
  method Measure(stem: string) returns (count: nat)
    ensures count == MeasureOf(stem)
  {
    var i, length := 0, |stem|;
    count := 0;
    while i < length
      invariant 0 <= i <= length + 1 && (0 < i < length ==> !VowelAt(stem, i - 1))
      invariant count == Transitions(stem, if i < length then i else length)
      decreases length - i
    {
      ghost var start := i;
      while i < length && !Vowel(stem[i], if i > 0 then stem[i - 1] else 'a')
        invariant start <= i <= length && (i > 0 ==> !VowelAt(stem, i - 1)) && count == Transitions(stem, i)
      {
        i := i + 1;
      }
      i := i + 1;
      while i < length && Vowel(stem[i], if i > 0 then stem[i - 1] else '?')
        invariant start < i <= length + 1 && (i <= length ==> VowelAt(stem, i - 1))
        invariant count == Transitions(stem, if i < length then i else length)
      {
        i := i + 1;
      }
      if i < length {
        count := count + 1;
        i := i + 1;
      }
    }
  }

  lemma {:induction false} TransitionsOfPrefix(s: string, n: nat, k: nat)
    requires k <= n <= |s|
    ensures Transitions(s[..n], k) == Transitions(s, k)
    decreases k
  {
    if k > 1 { TransitionsOfPrefix(s, n, k - 1); }
  }

  /** Dropping a final vowel does not change the measure. */
  lemma DropFinalVowel(s: string)
    requires |s| > 0 && VowelAt(s, |s| - 1)
    ensures MeasureOf(s[..|s| - 1]) == MeasureOf(s)
  {
    TransitionsOfPrefix(s, |s| - 1, |s| - 1);
  }

  predicate HasVowel(s: string) { exists i :: 0 <= i < |s| && VowelAt(s, i) }

  method ContainsVowel(word: string) returns (r: bool)
    ensures r <==> HasVowel(word)
  {
    for i := 0 to |word|
      invariant forall j :: 0 <= j < i ==> !VowelAt(word, j)
    {
      if i > 0 {
        if Vowel(word[i], word[i - 1]) {
          assert VowelAt(word, i);
          return true;
        }
      } else {
        if Vowel(word[0], 'a') {
          assert VowelAt(word, 0);
          return true;
        }
      }
    }
    return false;
  }

  /** The word ends consonant, vowel, consonant, and the last is none of w, x, y. */
  predicate Cvc(s: string) {
    var n := |s|;
    && n >= 3
    && !Vowel(s[n - 1], s[n - 2]) && s[n - 1] != 'w' && s[n - 1] != 'x' && s[n - 1] != 'y'
    && Vowel(s[n - 2], s[n - 3])
    && !Vowel(s[n - 3], if n == 3 then '?' else s[n - 4])
  }

  /** Whether the letter before last but one counts as a consonant the way the measure sees it. */
  predicate CvcAsMeasured(s: string) {
    var n := |s|;
    && n >= 3
    && !VowelAt(s, n - 1) && s[n - 1] != 'w' && s[n - 1] != 'x' && s[n - 1] != 'y' && VowelAt(s, n - 2)
    && !VowelAt(s, n - 3)
  }

  /** The two readings of a first letter differ exactly on y. */
  lemma InitialY(s: string)
    requires |s| > 0
    ensures VowelAt(s, 0) != Vowel(s[0], '?') <==> s[0] == 'y'
  {}

  /** Hence the condition is the measure's own one, except that no word of three letters that begins with y meets it. */
  lemma CvcExactly(s: string)
    ensures Cvc(s) <==> CvcAsMeasured(s) && !(|s| == 3 && s[0] == 'y')
  {
    if |s| > 0 { InitialY(s); }
  }

  lemma YesIsNotCvc()
    ensures CvcAsMeasured("yes") && !Cvc("yes")
  {}

  // ---- suffixes

  /** The word ends with the suffix and does not consist of it. */
  predicate EndsIn(word: string, suffix: string) {
    |word| > |suffix| && word[|word| - |suffix|..] == suffix
  }

  /** A word ends in a suffix exactly if it is something and then the suffix. */
  lemma EndsInExactly(word: string, suffix: string)
    ensures EndsIn(word, suffix) <==> exists stem :: |stem| > 0 && word == stem + suffix
    ensures !EndsIn(suffix, suffix)
  {
    if EndsIn(word, suffix) {
      assert word == word[..|word| - |suffix|] + suffix;
    }
    forall stem | |stem| > 0 && word == stem + suffix ensures EndsIn(word, suffix) {
      assert word[|word| - |suffix|..] == suffix;
    }
  }

  function StemOf(word: string, suffix: string): (r: string)
    requires EndsIn(word, suffix)
    ensures r + suffix == word && |r| > 0
  {
    word[..|word| - |suffix|]
  }

  method Copy(s: string, n: nat) returns (r: string)
    requires n <= |s|
    ensures r == s[..n]
  {
    r := "";
    for i := 0 to n
      invariant r == s[..i]
    {
      r := r + [s[i]];
    }
  }

  method HasSuffix(word: string, suffix: string) returns (found: bool, stem: string)
    ensures found <==> EndsIn(word, suffix)
    ensures found ==> stem == StemOf(word, suffix)
  {
    stem := "";
    if |word| <= |suffix| {
      return false, stem;
    }
    if |suffix| > 1 && word[|word| - 2] != suffix[|suffix| - 2] {
      assert word[|word| - |suffix|..][|suffix| - 2] == word[|word| - 2];
      return false, stem;
    }
    stem := Copy(word, |word| - |suffix|);
    var tmp := stem + suffix;
    assert tmp[|stem|..] == suffix;
    found := tmp == word;
    if EndsIn(word, suffix) { assert StemOf(word, suffix) == stem; }
  }

  function Drop(s: string, n: nat): string
    requires n <= |s|
  {
    s[..|s| - n]
  }

  // ---- step 1

  /** Plurals: sses becomes ss and ies becomes i, ss stays, and any other final s goes. */
  function Plural(s: string): string {
    if EndsIn(s, "sses") || EndsIn(s, "ies") then Drop(s, 2)
    else if |s| >= 2 && s[|s| - 1] == 's' && s[|s| - 2] == 's' then s
    else if |s| >= 1 && s[|s| - 1] == 's' then Drop(s, 1)
    else s
  }

  /** What is left of a word that lost ed or ing is made to look like a word. */
  function Tidy(s: string): string {
    if |s| <= 1 then s
    else if EndsIn(s, "at") || EndsIn(s, "bl") || EndsIn(s, "iz") then s + "e"
    else if s[|s| - 1] == s[|s| - 2] && s[|s| - 1] != 'l' && s[|s| - 1] != 's' && s[|s| - 1] != 'z' then Drop(s, 1)
    else if MeasureOf(s) == 1 && Cvc(s) then s + "e"
    else s
  }

  /** eed becomes ee after a positive measure; ed and ing go after a vowel. */
  function EdIng(s: string): string {
    if EndsIn(s, "eed") then (if MeasureOf(StemOf(s, "eed")) > 0 then Drop(s, 1) else s)
    else if EndsIn(s, "ed") then (if HasVowel(StemOf(s, "ed")) then Tidy(StemOf(s, "ed")) else s)
    else if EndsIn(s, "ing") then (if HasVowel(StemOf(s, "ing")) then Tidy(StemOf(s, "ing")) else s)
    else s
  }

  /** A final y becomes i after a vowel. */
  function YToI(s: string): string {
    if EndsIn(s, "y") && HasVowel(StemOf(s, "y")) then Drop(s, 1) + "i" else s
  }

  function Step1Of(s: string): string { YToI(EdIng(Plural(s))) }

  lemma Ends2(s: string, suffix: string)
    requires |suffix| >= 2 && EndsIn(s, suffix)
    ensures s[|s| - 1] == suffix[|suffix| - 1] && s[|s| - 2] == suffix[|suffix| - 2]
  {
    assert s == StemOf(s, suffix) + suffix;
  }

  lemma TidyShort(s: string)
    ensures |Tidy(s)| <= |s| + 1 && (|s| > 0 ==> |Tidy(s)| > 0)
  {}

  lemma Step1Short(s: string)
    ensures |Step1Of(s)| <= |s| && (|s| > 1 ==> |Step1Of(s)| > 0)
  {
    var p := Plural(s);
    if EndsIn(p, "ed") { TidyShort(StemOf(p, "ed")); }
    if EndsIn(p, "ing") { TidyShort(StemOf(p, "ing")); }
  }

  method StripPlural(str: string) returns (r: string)
    requires |str| > 0
    ensures r == Plural(str)
  {
    r := str;
    if str[|str| - 1] == 's' {
      var sses, _ := HasSuffix(str, "sses");
      var ies, _ := HasSuffix(str, "ies");
      if sses || ies {
        r := Copy(str, |str| - 2);
      } else {
        if |str| == 1 {
          return "";
        }
        if str[|str| - 2] != 's' {
          r := Copy(str, |str| - 1);
        }
      }
    } else {
      if EndsIn(str, "sses") { Ends2(str, "sses"); }
      if EndsIn(str, "ies") { Ends2(str, "ies"); }
    }
  }

  method TidyUp(str: string) returns (r: string)
    requires |str| > 0
    ensures r == Tidy(str)
  {
    if |str| == 1 {
      return str;
    }
    var at, _ := HasSuffix(str, "at");
    var bl, _ := HasSuffix(str, "bl");
    var iz, _ := HasSuffix(str, "iz");
    var length := |str|;
    r := str;
    if at || bl || iz {
      r := str + "e";
    } else if str[length - 1] == str[length - 2] && str[length - 1] != 'l' && str[length - 1] != 's'
        && str[length - 1] != 'z' {
      r := Copy(str, length - 1);
    } else {
      var m := Measure(str);
      if m == 1 && Cvc(str) {
        r := str + "e";
      }
    }
  }

  method StripEdIng(str: string) returns (r: string)
    ensures r == EdIng(str)
  {
    r := str;
    var found, stem := HasSuffix(str, "eed");
    if found {
      var m := Measure(stem);
      if m > 0 {
        r := Copy(str, |str| - 1);
      }
    } else {
      found, stem := HasSuffix(str, "ed");
      if !found {
        found, stem := HasSuffix(str, "ing");
      }
      if found {
        var v := ContainsVowel(stem);
        if v {
          r := TidyUp(stem);
        }
      }
    }
  }

  method Step1(str: string) returns (r: string)
    requires |str| > 0
    ensures r == Step1Of(str)
  {
    r := StripPlural(str);
    r := StripEdIng(r);
    var found, stem := HasSuffix(r, "y");
    if found {
      var v := ContainsVowel(stem);
      if v {
        r := Copy(r, |r| - 1);
        r := r + "i";
      }
    }
  }

  // ---- steps 2 to 4: rules that are tried in order

  datatype Rule = Rule(suffix: string, replacement: string)

  /** The rule applies: the word ends in its suffix, after a stem whose measure is above the bound. */
  predicate Applies(s: string, rule: Rule, bound: nat) {
    EndsIn(s, rule.suffix) && MeasureOf(StemOf(s, rule.suffix)) > bound
  }

  /** What the first rule that applies makes of the word. */
  function FirstRule(s: string, rules: seq<Rule>, bound: nat): string {
    if |rules| == 0 then s
    else if Applies(s, rules[0], bound) then StemOf(s, rules[0].suffix) + rules[0].replacement
    else FirstRule(s, rules[1..], bound)
  }

  method TryRules(str: string, rules: seq<Rule>, bound: nat) returns (r: string)
    ensures r == FirstRule(str, rules, bound)
  {
    for index := 0 to |rules|
      invariant FirstRule(str, rules, bound) == FirstRule(str, rules[index..], bound)
    {
      assert rules[index..][1..] == rules[index + 1..];
      var found, stem := HasSuffix(str, rules[index].suffix);
      if found {
        var m := Measure(stem);
        if m > bound {
          return stem + rules[index].replacement;
        }
      }
    }
    return str;
  }

  predicate Shortening(rules: seq<Rule>) {
    forall i :: 0 <= i < |rules| ==> |rules[i].replacement| <= |rules[i].suffix|
  }

  lemma {:induction false} RulesShorten(s: string, rules: seq<Rule>, bound: nat)
    requires Shortening(rules)
    ensures |FirstRule(s, rules, bound)| <= |s| && (|s| > 0 ==> |FirstRule(s, rules, bound)| > 0)
    decreases |rules|
  {
    if |rules| > 0 && !Applies(s, rules[0], bound) { RulesShorten(s, rules[1..], bound); }
  }

  const Rules2: seq<Rule> := [
    Rule("ational", "ate"), Rule("tional", "tion"), Rule("enci", "ence"), Rule("anci", "ance"), Rule("izer", "ize"),
    Rule("iser", "ize"), Rule("abli", "able"), Rule("alli", "al"), Rule("entli", "ent"), Rule("eli", "e"),
    Rule("ousli", "ous"), Rule("ization", "ize"), Rule("isation", "ize"), Rule("ation", "ate"), Rule("ator", "ate"),
    Rule("alism", "al"), Rule("iveness", "ive"), Rule("fulness", "ful"), Rule("ousness", "ous"), Rule("aliti", "al"),
    Rule("iviti", "ive"), Rule("biliti", "ble")]

  const Rules3: seq<Rule> := [
    Rule("icate", "ic"), Rule("ative", ""), Rule("alize", "al"), Rule("alise", "al"), Rule("iciti", "ic"),
        Rule("ical", "ic"),
    Rule("ful", ""), Rule("ness", "")]

  const Rules4: seq<Rule> := [
    Rule("al", ""), Rule("ance", ""), Rule("ence", ""), Rule("er", ""), Rule("ic", ""), Rule("able", ""),
        Rule("ible", ""),
    Rule("ant", ""), Rule("ement", ""), Rule("ment", ""), Rule("ent", ""), Rule("sion", ""), Rule("tion", ""),
        Rule("ou", ""),
    Rule("ism", ""), Rule("ate", ""), Rule("iti", ""), Rule("ous", ""), Rule("ive", ""), Rule("ize", ""),
        Rule("ise", "")]

  lemma AllShorten()
    ensures Shortening(Rules2) && Shortening(Rules3) && Shortening(Rules4)
  {}

  // ---- step 5

  /**
   A final e goes if the measure is above one, or is one and what is left does not end consonant, vowel, consonant.
   */
  function DropE(s: string): string {
    if |s| > 0 && s[|s| - 1] == 'e' && (MeasureOf(s) > 1 || (MeasureOf(s) == 1 && !Cvc(Drop(s, 1)))) then Drop(s, 1)
        else s
  }

  function DropL(s: string): string {
    if |s| >= 2 && s[|s| - 1] == 'l' && s[|s| - 2] == 'l' && MeasureOf(s) > 1 then Drop(s, 1) else s
  }

  function Step5Of(s: string): string { DropL(DropE(s)) }

  /** The rule for e may look at the measure of the word or of the stem: they are the same. */
  lemma DropESameMeasure(s: string)
    requires |s| > 0 && s[|s| - 1] == 'e'
    ensures MeasureOf(Drop(s, 1)) == MeasureOf(s)
  {
    DropFinalVowel(s);
  }

  /** So the code, which measures the word, follows the published rule, which measures the stem. */
  lemma DropEByStem(s: string)
    ensures DropE(s) ==
      if |s| > 0 && s[|s| - 1] == 'e'
          && (MeasureOf(Drop(s, 1)) > 1 || (MeasureOf(Drop(s, 1)) == 1 && !Cvc(Drop(s, 1))))
      then Drop(s, 1) else s
  {
    if |s| > 0 && s[|s| - 1] == 'e' { DropESameMeasure(s); }
  }

  lemma Step5Short(s: string)
    ensures |Step5Of(s)| <= |s| && (|s| > 0 ==> |Step5Of(s)| > 0)
  {}

  method Step5(str: string) returns (r: string)
    requires |str| > 0
    ensures r == Step5Of(str)
  {
    r := str;
    if str[|str| - 1] == 'e' {
      var m := Measure(str);
      if m > 1 {
        r := Copy(str, |str| - 1);
      } else if m == 1 {
        var stem := Copy(str, |str| - 1);
        if !Cvc(stem) {
          r := stem;
        }
      }
    }
    if |r| == 1 {
      return;
    }
    var m := Measure(r);
    if r[|r| - 1] == 'l' && r[|r| - 2] == 'l' && m > 1 {
      r := Copy(r, |r| - 1);
    }
  }

  // ---- the whole

  const Prefixes: seq<string> := ["kilo", "micro", "milli", "intra", "ultra", "mega", "nano", "pico", "pseudo"]

  /** The word without the first of the prefixes that it begins with. */
  function WithoutPrefix(s: string, prefixes: seq<string>): (r: string)
    ensures |r| <= |s|
  {
    if |prefixes| == 0 then s
    else if prefixes[0] <= s then s[|prefixes[0]|..]
    else WithoutPrefix(s, prefixes[1..])
  }

  method StripPrefixes(str: string) returns (r: string)
    ensures r == WithoutPrefix(str, Prefixes)
  {
    for i := 0 to |Prefixes|
      invariant WithoutPrefix(str, Prefixes) == WithoutPrefix(str, Prefixes[i..])
    {
      assert Prefixes[i..][1..] == Prefixes[i + 1..];
      if Prefixes[i] <= str {
        r := "";
        for j := 0 to |str| - |Prefixes[i]|
          invariant r == str[|Prefixes[i]|..][..j]
        {
          r := r + [str[j + |Prefixes[i]|]];
        }
        return;
      }
    }
    return str;
  }

  function Suffixed(s: string): string {
    Step5Of(FirstRule(FirstRule(FirstRule(Step1Of(s), Rules2, 0), Rules3, 0), Rules4, 1))
  }

  lemma SuffixedShort(s: string)
    ensures |Suffixed(s)| <= |s| && (|s| > 1 ==> |Suffixed(s)| > 0)
  {
    AllShorten();
    Step1Short(s);
    var s1 := Step1Of(s);
    RulesShorten(s1, Rules2, 0);
    var s2 := FirstRule(s1, Rules2, 0);
    RulesShorten(s2, Rules3, 0);
    var s3 := FirstRule(s2, Rules3, 0);
    RulesShorten(s3, Rules4, 1);
    Step5Short(FirstRule(s3, Rules4, 1));
  }

  /** No step has anything to do with an empty word, so skipping the steps then is the same. */
  lemma {:induction false} NothingLeft(rules: seq<Rule>, bound: nat)
    ensures FirstRule("", rules, bound) == "" && Step5Of("") == ""
  {
    if |rules| > 0 { NothingLeft(rules[1..], bound); }
  }

  method StripSuffixes(str: string) returns (r: string)
    requires |str| > 0
    ensures r == Suffixed(str)
  {
    NothingLeft(Rules2, 0);
    NothingLeft(Rules3, 0);
    NothingLeft(Rules4, 1);
    r := Step1(str);
    if |r| >= 1 {
      r := TryRules(r, Rules2, 0);
    }
    if |r| >= 1 {
      r := TryRules(r, Rules3, 0);
    }
    if |r| >= 1 {
      r := TryRules(r, Rules4, 1);
    }
    if |r| >= 1 {
      r := Step5(r);
    }
  }

  /** The letters and digits of a word. */
  function Cleaned(s: string, isWord: char -> bool): string {
    if |s| == 0 then "" else Cleaned(s[..|s| - 1], isWord) + if isWord(s[|s| - 1]) then [s[|s| - 1]] else ""
  }

  /** The first character is looked at before anything else, so the word must not be empty. */
  method Clean(str: string, isWord: char -> bool) returns (temp: string)
    requires |str| > 0
    ensures temp == Cleaned(str, isWord)
  {
    temp := "";
    for i := 0 to |str|
      invariant temp == Cleaned(str[..i], isWord)
    {
      assert str[..i + 1][..i] == str[..i];
      if isWord(str[i]) {
        temp := temp + [str[i]];
      }
    }
    assert str[..|str|] == str;
  }

  function Stem(cleaned: string): string {
    if |cleaned| <= 2 then cleaned
    else
      var s := WithoutPrefix(cleaned, Prefixes);
      if s == "" then s else Suffixed(s)
  }

  /** A stem is no longer than its word, and empty only if a prefix and at most one letter is all there is. */
  lemma StemShort(cleaned: string)
    ensures |Stem(cleaned)| <= |cleaned|
    ensures Stem(cleaned) == "" ==> |cleaned| <= 2 || |WithoutPrefix(cleaned, Prefixes)| <= 1
  {
    SuffixedShort(WithoutPrefix(cleaned, Prefixes));
  }

  /** `lowered` is the word in lower case; `isWord` says which characters are letters or digits. */
  method StripAffixes(lowered: string, isWord: char -> bool) returns (r: string)
    requires |lowered| > 0
    ensures r == Stem(Cleaned(lowered, isWord)) && |r| <= |Cleaned(lowered, isWord)|
  {
    r := Clean(lowered, isWord);
    StemShort(r);
    if r != "" && |r| > 2 {
      r := StripPrefixes(r);
      if r != "" {
        r := StripSuffixes(r);
      }
    }
  }
}
