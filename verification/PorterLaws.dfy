/**
 What the stemmer answers, in terms of words that have the same stem: laws for every stem `w`, which fix the rules of
 each step and the order of the steps.
 */
module PorterLaws {
  import opened Porter

  // ---- endings

  /** The two endings have different letters at place `k` from the end. */
  predicate DiffersAt(a: string, b: string, k: nat) { 0 < k <= |a| && k <= |b| && a[|a| - k] != b[|b| - k] }

  /** The two endings differ within their last seven letters, so no word has both. */
  predicate Apart(a: string, b: string) {
    || DiffersAt(a, b, 1) || DiffersAt(a, b, 2) || DiffersAt(a, b, 3) || DiffersAt(a, b, 4) || DiffersAt(a, b, 5)
    || DiffersAt(a, b, 6) || DiffersAt(a, b, 7)
  }

  lemma LetterFromEnd(w: string, b: string, k: nat)
    requires 0 < k <= |b|
    ensures (w + b)[|w + b| - k] == b[|b| - k]
  {}

  lemma NotAt(w: string, a: string, b: string, k: nat)
    requires DiffersAt(a, b, k)
    ensures !EndsIn(w + b, a)
  {
    LetterFromEnd(w, b, k);
  }

  lemma NotBoth(w: string, a: string, b: string)
    requires Apart(a, b)
    ensures !EndsIn(w + b, a)
  {
    if DiffersAt(a, b, 1) { NotAt(w, a, b, 1); }
    else if DiffersAt(a, b, 2) { NotAt(w, a, b, 2); }
    else if DiffersAt(a, b, 3) { NotAt(w, a, b, 3); }
    else if DiffersAt(a, b, 4) { NotAt(w, a, b, 4); }
    else if DiffersAt(a, b, 5) { NotAt(w, a, b, 5); }
    else if DiffersAt(a, b, 6) { NotAt(w, a, b, 6); }
    else { NotAt(w, a, b, 7); }
  }

  lemma EndsWith(w: string, b: string)
    requires |w| > 0
    ensures EndsIn(w + b, b) && StemOf(w + b, b) == w
  {
    assert (w + b)[|w|..] == b;
  }

  lemma MeasuredIsNotEmpty(w: string)
    requires MeasureOf(w) > 0
    ensures |w| > 1
  {}

  // ---- tables of rules

  /** No rule of the table is for a word with this ending. */
  predicate NoneFor(rules: seq<Rule>, b: string) {
    forall j :: 0 <= j < |rules| ==> Apart(rules[j].suffix, b)
  }

  /** No rule before number `i` is for a word with the ending of rule `i`. */
  predicate FirstFor(rules: seq<Rule>, i: nat)
    requires i < |rules|
  {
    forall j :: 0 <= j < i ==> Apart(rules[j].suffix, rules[i].suffix)
  }

  lemma {:induction false} NoRule(w: string, b: string, rules: seq<Rule>, bound: nat)
    requires forall j :: 0 <= j < |rules| ==> !EndsIn(w + b, rules[j].suffix)
    ensures FirstRule(w + b, rules, bound) == w + b
    decreases |rules|
  {
    if |rules| > 0 { NoRule(w, b, rules[1..], bound); }
  }

  lemma Leaves(w: string, b: string, rules: seq<Rule>, bound: nat)
    requires NoneFor(rules, b)
    ensures FirstRule(w + b, rules, bound) == w + b
  {
    forall j | 0 <= j < |rules| ensures !EndsIn(w + b, rules[j].suffix) { NotBoth(w, rules[j].suffix, b); }
    NoRule(w, b, rules, bound);
  }

  lemma {:induction false} UsesRule(s: string, rules: seq<Rule>, i: nat, bound: nat)
    requires i < |rules| && Applies(s, rules[i], bound) && forall j :: 0 <= j < i ==> !EndsIn(s, rules[j].suffix)
    ensures FirstRule(s, rules, bound) == StemOf(s, rules[i].suffix) + rules[i].replacement
    decreases i
  {
    if i > 0 {
      assert !EndsIn(s, rules[0].suffix);
      UsesRule(s, rules[1..], i - 1, bound);
    }
  }

  /** A word that is a stem of sufficient measure and a rule's ending gets the rule's replacement for the ending. */
  lemma Replaces(w: string, rules: seq<Rule>, i: nat, bound: nat)
    requires i < |rules| && MeasureOf(w) > bound && FirstFor(rules, i)
    ensures FirstRule(w + rules[i].suffix, rules, bound) == w + rules[i].replacement
  {
    MeasuredIsNotEmpty(w);
    EndsWith(w, rules[i].suffix);
    forall j | 0 <= j < i ensures !EndsIn(w + rules[i].suffix, rules[j].suffix) {
      NotBoth(w, rules[j].suffix, rules[i].suffix);
    }
    UsesRule(w + rules[i].suffix, rules, i, bound);
  }

  // ---- step 1

  /** Step 1 has nothing to do with a word of this ending. */
  predicate Quiet(b: string) {
    && |b| > 0
    && var c := b[|b| - 1];
       if c == 's' then |b| > 1 && b[|b| - 2] == 's' else c != 'd' && c != 'g' && c != 'y'
  }

  lemma PluralLeaves(w: string, b: string)
    requires Quiet(b)
    ensures Plural(w + b) == w + b
  {
    LetterFromEnd(w, b, 1);
    if |b| > 1 { LetterFromEnd(w, b, 2); }
    if EndsIn(w + b, "sses") { Ends2(w + b, "sses"); }
    if EndsIn(w + b, "ies") { Ends2(w + b, "ies"); }
  }

  lemma Step1Leaves(w: string, b: string)
    requires Quiet(b)
    ensures Step1Of(w + b) == w + b
  {
    PluralLeaves(w, b);
    NotAt(w, "eed", b, 1);
    NotAt(w, "ed", b, 1);
    NotAt(w, "ing", b, 1);
    NotAt(w, "y", b, 1);
  }

  // ---- the steps after the first

  function From3(s: string): string { From4(FirstRule(s, Rules3, 0)) }

  function From4(s: string): string { Step5Of(FirstRule(s, Rules4, 1)) }

  lemma FromStep2(w: string, b: string)
    requires Quiet(b)
    ensures Suffixed(w + b) == From3(FirstRule(w + b, Rules2, 0))
  {
    Step1Leaves(w, b);
  }

  // ---- step 2

  /** Pairs of endings that lead to the same stem. */
  const SameStem2: seq<(string, string)> := [
    ("ational", "ate"), ("enci", "ence"), ("anci", "ance"), ("izer", "ize"), ("iser", "ize"), ("abli", "able"),
    ("entli", "ent"), ("eli", "e"), ("ization", "ize"), ("isation", "ize"), ("ator", "ate"), ("iveness", "ive"),
    ("fulness", "ful"), ("iviti", "ive"), ("biliti", "ble")]

  /** The numbers of their rules. */
  const RuleOf2: seq<nat> := [0, 2, 3, 4, 5, 6, 8, 9, 11, 12, 14, 16, 17, 20, 21]

  lemma PairIs2(k: nat)
    requires k < |SameStem2|
    ensures RuleOf2[k] < |Rules2| && Rules2[RuleOf2[k]] == Rule(SameStem2[k].0, SameStem2[k].1)
    ensures RuleOf2[k] != 1 && RuleOf2[k] != 13 && Quiet(SameStem2[k].0) && Quiet(SameStem2[k].1)
  {}

  lemma FirstFor2To3(i: nat)
    requires 0 <= i <= 3 && i != 1
    ensures FirstFor(Rules2, i)
  {}

  lemma FirstFor2To6(i: nat)
    requires 4 <= i <= 6
    ensures FirstFor(Rules2, i)
  {}

  lemma FirstFor2To9(i: nat)
    requires 7 <= i <= 9
    ensures FirstFor(Rules2, i)
  {}

  lemma FirstFor2To12(i: nat)
    requires 10 <= i <= 12
    ensures FirstFor(Rules2, i)
  {}

  lemma FirstFor2To16(i: nat)
    requires 14 <= i <= 16
    ensures FirstFor(Rules2, i)
  {}

  lemma FirstFor2To19(i: nat)
    requires 17 <= i <= 19
    ensures FirstFor(Rules2, i)
  {}

  lemma FirstFor2To21(i: nat)
    requires 20 <= i <= 21
    ensures FirstFor(Rules2, i)
  {}

  /** All but two of the rules have endings that no earlier rule is for. */
  lemma FirstFor2(i: nat)
    requires i < |Rules2| && i != 1 && i != 13
    ensures FirstFor(Rules2, i)
  {
    if i <= 3 { FirstFor2To3(i); } else if i <= 6 { FirstFor2To6(i); } else if i <= 9 { FirstFor2To9(i); }
    else if i <= 12 { FirstFor2To12(i); } else if i <= 16 { FirstFor2To16(i); }
    else if i <= 19 { FirstFor2To19(i); } else { FirstFor2To21(i); }
  }

  /** No rule of step 2 is for a word that ends in e or t. */
  lemma EOrTIsLast2(b: string)
    requires |b| > 0 && (b[|b| - 1] == 'e' || b[|b| - 1] == 't')
    ensures NoneFor(Rules2, b)
  {
    forall j | 0 <= j < |Rules2| ensures DiffersAt(Rules2[j].suffix, b, 1) {}
  }

  lemma FulIsLast()
    ensures NoneFor(Rules2, "ful")
  {
    forall j | 0 <= j < |Rules2| ensures Apart(Rules2[j].suffix, "ful") {
      assert DiffersAt(Rules2[j].suffix, "ful", 1) || DiffersAt(Rules2[j].suffix, "ful", 2);
    }
  }

  lemma ReplacementEndsIn(k: nat)
    requires k < |SameStem2|
    ensures var b := SameStem2[k].1; b == "ful" || (|b| > 0 && (b[|b| - 1] == 'e' || b[|b| - 1] == 't'))
  {}

  lemma PairIsLast2(k: nat)
    requires k < |SameStem2|
    ensures NoneFor(Rules2, SameStem2[k].1)
  {
    ReplacementEndsIn(k);
    if SameStem2[k].1 == "ful" { FulIsLast(); } else { EOrTIsLast2(SameStem2[k].1); }
  }

  /** A rule of step 2 is used unless an earlier one is for the word too. */
  lemma Law2(w: string, i: nat)
    requires i < |Rules2| && MeasureOf(w) > 0 && Quiet(Rules2[i].suffix) && FirstFor(Rules2, i)
    ensures Suffixed(w + Rules2[i].suffix) == From3(w + Rules2[i].replacement)
  {
    FromStep2(w, Rules2[i].suffix);
    Replaces(w, Rules2, i, 0);
  }

  /** Step 2: an ending and its replacement lead to the same stem. */
  lemma LawsOfStep2(w: string, k: nat)
    requires MeasureOf(w) > 0 && k < |SameStem2|
    ensures Suffixed(w + SameStem2[k].0) == Suffixed(w + SameStem2[k].1)
  {
    PairIs2(k);
    FirstFor2(RuleOf2[k]);
    PairIsLast2(k);
    Law2(w, RuleOf2[k]);
    FromStep2(w, SameStem2[k].1);
    Leaves(w, SameStem2[k].1, Rules2, 0);
  }

  /** Endings with the same replacement, one that step 1 or step 2 would change. */
  const Alike2: seq<(string, string)> := [("alli", "alism"), ("alism", "aliti"), ("ousli", "ousness")]

  const RulesOf2: seq<(nat, nat)> := [(7, 15), (15, 19), (10, 18)]

  lemma AlikeIs2(k: nat)
    requires k < |Alike2|
    ensures var (i, j) := RulesOf2[k];
      && i < |Rules2| && j < |Rules2| && i != 1 && j != 1 && i != 13 && j != 13
      && Rules2[i].suffix == Alike2[k].0 && Rules2[j].suffix == Alike2[k].1
      && Rules2[i].replacement == Rules2[j].replacement && Quiet(Alike2[k].0) && Quiet(Alike2[k].1)
  {}

  lemma MoreLawsOfStep2(w: string, k: nat)
    requires MeasureOf(w) > 0 && k < |Alike2|
    ensures Suffixed(w + Alike2[k].0) == Suffixed(w + Alike2[k].1)
  {
    AlikeIs2(k);
    var (i, j) := RulesOf2[k];
    FirstFor2(i);
    FirstFor2(j);
    Law2(w, i);
    Law2(w, j);
  }

  // ---- step 3

  const SameStem3: seq<(string, string)> := [("icate", "ic"), ("iciti", "ic"), ("ical", "ic")]

  const RuleOf3: seq<nat> := [0, 4, 5]

  lemma FirstFor3(i: nat)
    requires i < |Rules3|
    ensures FirstFor(Rules3, i)
  {}

  lemma PairIs3(k: nat)
    requires k < |SameStem3|
    ensures RuleOf3[k] < |Rules3| && Rules3[RuleOf3[k]] == Rule(SameStem3[k].0, SameStem3[k].1)
    ensures Quiet(SameStem3[k].0) && Quiet(SameStem3[k].1)
  {}

  lemma PairIsLast3To0(k: nat)
    requires 0 <= k <= 0
    ensures NoneFor(Rules2, SameStem3[k].0)
  {}

  lemma PairIsLast3To1(k: nat)
    requires 1 <= k <= 1
    ensures NoneFor(Rules2, SameStem3[k].0)
  {}

  lemma PairIsLast3To2(k: nat)
    requires 2 <= k <= 2
    ensures NoneFor(Rules2, SameStem3[k].0)
  {}

  lemma PairIsLast3(k: nat)
    requires k < |SameStem3|
    ensures NoneFor(Rules2, SameStem3[k].0)
  {
    if k <= 0 { PairIsLast3To0(k); } else if k <= 1 { PairIsLast3To1(k); } else { PairIsLast3To2(k); }
  }

  lemma IcIsLast()
    ensures NoneFor(Rules2, "ic") && NoneFor(Rules3, "ic")
  {}

  /** A rule of step 3 is used on a word that step 2 has nothing to do with. */
  lemma Law3(w: string, i: nat)
    requires i < |Rules3| && MeasureOf(w) > 0 && Quiet(Rules3[i].suffix)
    requires FirstRule(w + Rules3[i].suffix, Rules2, 0) == w + Rules3[i].suffix
    ensures Suffixed(w + Rules3[i].suffix) == From4(w + Rules3[i].replacement)
  {
    FromStep2(w, Rules3[i].suffix);
    FirstFor3(i);
    Replaces(w, Rules3, i, 0);
  }

  /** Step 3: an ending and its replacement lead to the same stem. */
  lemma LawsOfStep3(w: string, k: nat)
    requires MeasureOf(w) > 0 && k < |SameStem3|
    ensures Suffixed(w + SameStem3[k].0) == Suffixed(w + SameStem3[k].1)
  {
    PairIs3(k);
    PairIsLast3(k);
    IcIsLast();
    Leaves(w, SameStem3[k].0, Rules2, 0);
    Leaves(w, SameStem3[k].1, Rules2, 0);
    Leaves(w, SameStem3[k].1, Rules3, 0);
    Law3(w, RuleOf3[k]);
    FromStep2(w, SameStem3[k].1);
  }

  /** These endings go altogether, after a stem of positive measure. */
  lemma LawsOfNothing3(w: string)
    requires MeasureOf(w) > 0
    ensures Suffixed(w + Rules3[1].suffix) == Suffixed(w + Rules3[6].suffix) == From4(w)
  {
    NothingIs3();
    EOrTIsLast2(Rules3[1].suffix);
    FulIsLast();
    Leaves(w, Rules3[1].suffix, Rules2, 0);
    Leaves(w, Rules3[6].suffix, Rules2, 0);
    Law3(w, 1);
    Law3(w, 6);
    assert w + "" == w;
  }

  lemma NothingIs3()
    ensures Rules3[1] == Rule("ative", "") && Rules3[6] == Rule("ful", "") && Quiet("ative") && Quiet("ful")
  {}

  // ---- step 4

  /** Endings that go after a stem whose measure is above one, if the steps before leave the word alone. */
  const Gone4: seq<string> := [
    "al", "ance", "ence", "er", "ic", "able", "ible", "ant", "ement", "sion", "tion", "ou", "ism", "ate", "iti", "ive",
    "ize", "ise"]

  const RuleOf4: seq<nat> := [0, 1, 2, 3, 4, 5, 6, 7, 8, 11, 12, 13, 14, 15, 16, 18, 19, 20]

  lemma GoneIs4(k: nat)
    requires k < |Gone4|
    ensures RuleOf4[k] < |Rules4| && Rules4[RuleOf4[k]] == Rule(Gone4[k], "") && Quiet(Gone4[k])
    ensures RuleOf4[k] != 9 && RuleOf4[k] != 10
  {}

  lemma FirstFor4To3(i: nat)
    requires 0 <= i <= 3
    ensures FirstFor(Rules4, i)
  {}

  lemma FirstFor4To6(i: nat)
    requires 4 <= i <= 6
    ensures FirstFor(Rules4, i)
  {}

  lemma FirstFor4To8(i: nat)
    requires 7 <= i <= 8
    ensures FirstFor(Rules4, i)
  {}

  lemma FirstFor4To11(i: nat)
    requires i == 11
    ensures FirstFor(Rules4, i)
  {}

  lemma FirstFor4To12(i: nat)
    requires i == 12
    ensures FirstFor(Rules4, i)
  {}

  lemma FirstFor4To14(i: nat)
    requires 13 <= i <= 14
    ensures FirstFor(Rules4, i)
  {}

  lemma FirstFor4To17(i: nat)
    requires 15 <= i <= 17
    ensures FirstFor(Rules4, i)
  {}

  lemma FirstFor4To20(i: nat)
    requires 18 <= i <= 20
    ensures FirstFor(Rules4, i)
  {}

  lemma FirstFor4(i: nat)
    requires i < |Rules4| && i != 9 && i != 10
    ensures FirstFor(Rules4, i)
  {
    if i <= 3 { FirstFor4To3(i); } else if i <= 6 { FirstFor4To6(i); } else if i <= 8 { FirstFor4To8(i); }
    else if i <= 11 { FirstFor4To11(i); } else if i <= 12 { FirstFor4To12(i); } else if i <= 14 { FirstFor4To14(i); }
    else if i <= 17 { FirstFor4To17(i); } else { FirstFor4To20(i); }
  }

  lemma LawsOfStep4(w: string, k: nat)
    requires MeasureOf(w) > 1 && k < |Gone4|
    requires FirstRule(w + Gone4[k], Rules2, 0) == w + Gone4[k] == FirstRule(w + Gone4[k], Rules3, 0)
    ensures Suffixed(w + Gone4[k]) == Step5Of(w)
  {
    GoneIs4(k);
    FirstFor4(RuleOf4[k]);
    FromStep2(w, Gone4[k]);
    Replaces(w, Rules4, RuleOf4[k], 1);
    assert w + "" == w;
  }

  /** For these the steps before do. */
  const Always4: seq<string> := ["ance", "ence", "ic", "able", "ible", "ant", "ement", "sion", "ou"]

  const PlaceIn4: seq<nat> := [1, 2, 4, 5, 6, 7, 8, 9, 11]

  lemma AlwaysIs4(k: nat)
    requires k < |Always4|
    ensures PlaceIn4[k] < |Gone4| && Gone4[PlaceIn4[k]] == Always4[k]
  {}

  lemma AlwaysLeft2To2(k: nat)
    requires 0 <= k <= 2
    ensures NoneFor(Rules2, Always4[k])
  {}

  lemma AlwaysLeft2To5(k: nat)
    requires 3 <= k <= 5
    ensures NoneFor(Rules2, Always4[k])
  {}

  lemma AlwaysLeft2To8(k: nat)
    requires 6 <= k <= 8
    ensures NoneFor(Rules2, Always4[k])
  {}

  lemma AlwaysLeft2(k: nat)
    requires k < |Always4|
    ensures NoneFor(Rules2, Always4[k])
  {
    if k <= 2 { AlwaysLeft2To2(k); } else if k <= 5 { AlwaysLeft2To5(k); } else { AlwaysLeft2To8(k); }
  }

  lemma AlwaysLeft3To4(k: nat)
    requires 0 <= k <= 4
    ensures NoneFor(Rules3, Always4[k])
  {}

  lemma AlwaysLeft3To8(k: nat)
    requires 5 <= k <= 8
    ensures NoneFor(Rules3, Always4[k])
  {}

  lemma AlwaysLeft3(k: nat)
    requires k < |Always4|
    ensures NoneFor(Rules3, Always4[k])
  {
    if k <= 4 { AlwaysLeft3To4(k); } else { AlwaysLeft3To8(k); }
  }

  /** Step 4: these endings go after a stem whose measure is above one, and only step 5 looks at what is left. */
  lemma MoreLawsOfStep4(w: string, k: nat)
    requires MeasureOf(w) > 1 && k < |Always4|
    ensures Suffixed(w + Always4[k]) == Step5Of(w)
  {
    AlwaysIs4(k);
    AlwaysLeft2(k);
    AlwaysLeft3(k);
    Leaves(w, Always4[k], Rules2, 0);
    Leaves(w, Always4[k], Rules3, 0);
    LawsOfStep4(w, PlaceIn4[k]);
  }

  // ---- endings that are part of longer ones

  /** The rule is used if the letter before its ending rules out the longer endings. */
  lemma ReplacesAfter(v: string, rules: seq<Rule>, i: nat, bound: nat)
    requires i < |rules| && MeasureOf(v) > bound && |v| > 0
    requires forall j :: 0 <= j < i ==> Apart(rules[j].suffix, [v[|v| - 1]] + rules[i].suffix)
    ensures FirstRule(v + rules[i].suffix, rules, bound) == v + rules[i].replacement
  {
    var b := [v[|v| - 1]] + rules[i].suffix;
    assert v + rules[i].suffix == Drop(v, 1) + b;
    EndsWith(v, rules[i].suffix);
    forall j | 0 <= j < i ensures !EndsIn(v + rules[i].suffix, rules[j].suffix) {
      NotBoth(Drop(v, 1), rules[j].suffix, b);
    }
    UsesRule(v + rules[i].suffix, rules, i, bound);
  }

  lemma LeavesAfter(v: string, b: string, rules: seq<Rule>, bound: nat)
    requires |v| > 0 && NoneFor(rules, [v[|v| - 1]] + b)
    ensures FirstRule(v + b, rules, bound) == v + b
  {
    assert v + b == Drop(v, 1) + ([v[|v| - 1]] + b);
    Leaves(Drop(v, 1), [v[|v| - 1]] + b, rules, bound);
  }

  /** Step 2, where the letter before the ending rules out the longer endings. */
  lemma Law2After(v: string, i: nat)
    requires i < |Rules2| && MeasureOf(v) > 0 && |v| > 0 && Quiet(Rules2[i].suffix) && Quiet(Rules2[i].replacement)
    requires forall j :: 0 <= j < i ==> Apart(Rules2[j].suffix, [v[|v| - 1]] + Rules2[i].suffix)
    requires NoneFor(Rules2, [v[|v| - 1]] + Rules2[i].replacement)
    ensures Suffixed(v + Rules2[i].suffix) == Suffixed(v + Rules2[i].replacement)
  {
    FromStep2(v, Rules2[i].suffix);
    FromStep2(v, Rules2[i].replacement);
    ReplacesAfter(v, Rules2, i, 0);
    LeavesAfter(v, Rules2[i].replacement, Rules2, 0);
  }

  lemma TionalIs(c: char)
    requires c != 'a'
    ensures Rules2[1] == Rule("tional", "tion") && Quiet("tional") && Quiet("tion")
    ensures Apart(Rules2[0].suffix, [c] + "tional")
  {}

  lemma TionIsLast(c: char)
    requires c != 'a'
    ensures NoneFor(Rules2, [c] + "tion")
  {}

  lemma AtionIs(c: char)
    requires c != 'z' && c != 's'
    ensures Rules2[13] == Rule("ation", "ate") && Quiet("ation") && Quiet("ate")
    ensures forall j :: 0 <= j < 13 ==> Apart(Rules2[j].suffix, [c] + "ation")
  {}

  /** The rule for tional, unless the ending is ational; the one for ation, unless it is ization or isation. */
  lemma LawsOfTion(v: string, i: nat)
    requires MeasureOf(v) > 0 && |v| > 0
    requires (i == 1 && v[|v| - 1] != 'a') || (i == 13 && v[|v| - 1] != 'z' && v[|v| - 1] != 's')
    ensures Suffixed(v + Rules2[i].suffix) == Suffixed(v + Rules2[i].replacement)
    ensures Rules2[i] == if i == 1 then Rule("tional", "tion") else Rule("ation", "ate")
  {
    if i == 1 {
      TionalIs(v[|v| - 1]);
      TionIsLast(v[|v| - 1]);
    } else {
      AtionIs(v[|v| - 1]);
      EOrTIsLast2([v[|v| - 1]] + Rules2[i].replacement);
    }
    Law2After(v, i);
  }

  lemma NessIs(c: char)
    requires c != 'e' && c != 'l' && c != 's'
    ensures Rules3[7] == Rule("ness", "") && Quiet("ness") && NoneFor(Rules2, [c] + "ness")
  {}

  /** Step 3, unless step 2 has taken the ending ness with what is before it. */
  lemma LawOfNess(v: string)
    requires MeasureOf(v) > 0 && |v| > 0 && v[|v| - 1] !in {'e', 'l', 's'}
    ensures Suffixed(v + Rules3[7].suffix) == From4(v) && Rules3[7] == Rule("ness", "")
  {
    NessIs(v[|v| - 1]);
    LeavesAfter(v, Rules3[7].suffix, Rules2, 0);
    Law3(v, 7);
    assert v + "" == v;
  }

  lemma MentIs(c: char)
    requires c != 'e'
    ensures Rules4[9] == Rule("ment", "") && Quiet("ment")
    ensures forall j :: 0 <= j < 9 ==> Apart(Rules4[j].suffix, [c] + "ment")
  {}

  lemma EntIs(c: char)
    requires c != 'm'
    ensures Rules4[10] == Rule("ent", "") && Quiet("ent")
    ensures forall j :: 0 <= j < 10 ==> Apart(Rules4[j].suffix, [c] + "ent")
  {}

  lemma EntIsLast(b: string)
    requires b == "ment" || b == "ent"
    ensures NoneFor(Rules2, b) && NoneFor(Rules3, b)
  {}

  /** Step 4, unless the longer ending is there. */
  lemma LawOfMent(v: string, i: nat)
    requires MeasureOf(v) > 1 && |v| > 0
    requires (i == 9 && v[|v| - 1] != 'e') || (i == 10 && v[|v| - 1] != 'm')
    ensures Suffixed(v + Rules4[i].suffix) == Step5Of(v)
    ensures Rules4[i] == Rule(if i == 9 then "ment" else "ent", "")
  {
    if i == 9 { MentIs(v[|v| - 1]); } else { EntIs(v[|v| - 1]); }
    EntIsLast(Rules4[i].suffix);
    FromStep2(v, Rules4[i].suffix);
    Leaves(v, Rules4[i].suffix, Rules2, 0);
    Leaves(v, Rules4[i].suffix, Rules3, 0);
    ReplacesAfter(v, Rules4, i, 1);
    assert v + "" == v;
  }

  // ---- step 5

  /** Only step 5 has something to do with a word of this ending. */
  lemma OnlyStep5(w: string, b: string)
    requires Quiet(b) && NoneFor(Rules2, b) && NoneFor(Rules3, b) && NoneFor(Rules4, b)
    ensures Suffixed(w + b) == Step5Of(w + b)
  {
    FromStep2(w, b);
    Leaves(w, b, Rules2, 0);
    Leaves(w, b, Rules3, 0);
    Leaves(w, b, Rules4, 1);
  }

  lemma LlIsLast()
    ensures NoneFor(Rules2, "ll") && NoneFor(Rules3, "ll") && Quiet("ll")
  {}

  lemma LlIsLast4()
    ensures NoneFor(Rules4, "ll")
  {}

  /** Step 5: a double l becomes single if the measure is above one. */
  lemma LawOfLl(v: string)
    requires |v| >= 2 && v[|v| - 1] == 'l' && v[|v| - 2] == 'l'
    ensures Suffixed(v) == if MeasureOf(v) > 1 then Drop(v, 1) else v
  {
    LlIsLast();
    LlIsLast4();
    assert v == Drop(v, 2) + "ll";
    OnlyStep5(Drop(v, 2), "ll");
  }

  /** The last letter but one of the words that end in e and that a rule is for. */
  predicate BeforeE(c: char) { c == 't' || c == 'v' || c == 'z' || c == 's' || c == 'c' || c == 'l' }

  lemma EIsLast2(b: string)
    requires |b| == 2 && b[1] == 'e' && !BeforeE(b[0])
    ensures NoneFor(Rules2, b) && NoneFor(Rules3, b) && Quiet(b)
  {}

  lemma EIsLast4(b: string)
    requires |b| == 2 && b[1] == 'e' && !BeforeE(b[0])
    ensures NoneFor(Rules4, b)
  {}

  /** Step 5: a final e goes if the measure is above one, or is one and no short word would be left. */
  lemma LawOfE(v: string)
    requires |v| >= 2 && v[|v| - 1] == 'e' && !BeforeE(v[|v| - 2])
    ensures Suffixed(v) ==
      if MeasureOf(v) > 1 || (MeasureOf(v) == 1 && !Cvc(Drop(v, 1))) then Drop(v, 1) else v
  {
    var b := v[|v| - 2..];
    EIsLast2(b);
    EIsLast4(b);
    assert v == Drop(v, 2) + b;
    OnlyStep5(Drop(v, 2), b);
  }

  // ---- step 1

  /** A word and its plural have the same stem. */
  lemma LawOfPlural(v: string)
    requires |v| > 0 && v[|v| - 1] != 's' && !EndsIn(v + "s", "sses") && !EndsIn(v + "s", "ies")
    ensures Suffixed(v + "s") == Suffixed(v)
  {
    assert Drop(v + "s", 1) == v;
    PluralOf(v);
  }

  lemma PluralOf(v: string)
    requires |v| > 0 && v[|v| - 1] != 's' && !EndsIn(v + "s", "sses") && !EndsIn(v + "s", "ies")
    ensures Plural(v + "s") == v == Plural(v)
  {
    assert Drop(v + "s", 1) == v;
    if EndsIn(v, "sses") { Ends2(v, "sses"); }
    if EndsIn(v, "ies") { Ends2(v, "ies"); }
  }

  lemma PluralEs(w: string)
    requires |w| > 0
    ensures Plural(w + "sses") == w + "ss" && Plural(w + "ies") == w + "i"
  {
    EndsWith(w, "sses");
    EndsWith(w, "ies");
    assert Drop(w + "sses", 2) == w + "ss" && Drop(w + "ies", 2) == w + "i";
  }

  /** The endings sses and ies lose two letters. */
  lemma LawOfEs(w: string)
    requires |w| > 0
    ensures Step1Of(w + "sses") == w + "ss" == Step1Of(w + "ss")
    ensures Step1Of(w + "ies") == w + "i" == Step1Of(w + "i")
  {
    PluralEs(w);
    PluralLeaves(w, "ss");
    PluralLeaves(w, "i");
    Step1Leaves(w, "ss");
    Step1Leaves(w, "i");
  }

  lemma PluralKeeps(v: string)
    requires |v| > 0 && v[|v| - 1] != 's'
    ensures Plural(v) == v
  {
    if EndsIn(v, "sses") { Ends2(v, "sses"); }
    if EndsIn(v, "ies") { Ends2(v, "ies"); }
  }

  /** The ending eed becomes ee after a positive measure, and stays otherwise. */
  lemma LawOfEed(w: string)
    requires |w| > 0
    ensures Step1Of(w + "eed") == if MeasureOf(w) > 0 then w + "ee" else w + "eed"
  {
    EndsWith(w, "eed");
    PluralKeeps(w + "eed");
    assert Drop(w + "eed", 1) == w + "ee";
    NotAt(w, "y", "ee", 1);
    NotAt(w, "y", "eed", 1);
  }

  /** The endings ed and ing go together, after a vowel: what is left is tidied up, and a final y becomes i. */
  lemma LawOfEd(v: string)
    requires |v| > 0 && v[|v| - 1] != 'e'
    ensures Step1Of(v + "ed") == if HasVowel(v) then YToI(Tidy(v)) else v + "ed"
  {
    EndsWith(v, "ed");
    PluralKeeps(v + "ed");
    assert (v + "ed")[|v| - 1] == v[|v| - 1];
    NotAt(v, "y", "ed", 1);
  }

  lemma LawOfIng(v: string)
    requires |v| > 0
    ensures Step1Of(v + "ing") == if HasVowel(v) then YToI(Tidy(v)) else v + "ing"
  {
    EndsWith(v, "ing");
    PluralKeeps(v + "ing");
    NotAt(v, "eed", "ing", 1);
    NotAt(v, "ed", "ing", 1);
    NotAt(v, "y", "ing", 1);
  }

  /** So they lead to the same stem. */
  lemma LawOfEdAndIng(v: string)
    requires |v| > 0 && v[|v| - 1] != 'e' && HasVowel(v)
    ensures Suffixed(v + "ed") == Suffixed(v + "ing")
  {
    LawOfEd(v);
    LawOfIng(v);
  }

  /** A final y becomes i after a vowel, and stays otherwise. */
  lemma LawOfY(w: string)
    requires |w| > 0
    ensures Step1Of(w + "y") == if HasVowel(w) then w + "i" else w + "y"
  {
    EndsWith(w, "y");
    PluralKeeps(w + "y");
    NotAt(w, "eed", "y", 1);
    NotAt(w, "ed", "y", 1);
    NotAt(w, "ing", "y", 1);
    assert Drop(w + "y", 1) == w;
  }

  /** What is left of a word without ed or ing that ends in at, bl or iz, or is short, has the stem it has with an e. */
  lemma LawOfLostE(v: string)
    requires |v| > 1 && v[|v| - 1] != 'e' && HasVowel(v)
    requires EndsIn(v, "at") || EndsIn(v, "bl") || EndsIn(v, "iz") || (MeasureOf(v) == 1 && Cvc(v))
    ensures Suffixed(v + "ed") == Suffixed(v + "e")
  {
    LawOfEd(v);
    LostE(v);
    Step1Leaves(v, "e");
    NotAt(v, "y", "e", 1);
  }

  lemma LostE(v: string)
    requires |v| > 1
    requires EndsIn(v, "at") || EndsIn(v, "bl") || EndsIn(v, "iz") || (MeasureOf(v) == 1 && Cvc(v))
    ensures Tidy(v) == v + "e"
  {}

  /** And one that ends in a double letter has the stem of the word with a single one. */
  lemma LawOfDouble(v: string)
    requires |v| > 1 && v[|v| - 1] == v[|v| - 2] && HasVowel(v)
    requires var c := v[|v| - 1]; c !in {'l', 's', 'z', 'd', 'g', 'y', 'e'}
    ensures Suffixed(v + "ed") == Suffixed(Drop(v, 1))
  {
    var c := v[|v| - 1];
    LawOfEd(v);
    DoubleGoes(v);
    SingleStays(v, c);
  }

  lemma SingleStays(v: string, c: char)
    requires |v| > 1 && v[|v| - 2] == c && c !in {'s', 'd', 'g', 'y'}
    ensures Step1Of(Drop(v, 1)) == Drop(v, 1) == YToI(Drop(v, 1))
  {
    assert Drop(v, 1) == Drop(v, 2) + [c];
    Step1Leaves(Drop(v, 2), [c]);
    NotAt(Drop(v, 2), "y", [c], 1);
  }

  lemma DoubleGoes(v: string)
    requires |v| > 1 && v[|v| - 1] == v[|v| - 2] && v[|v| - 1] !in {'l', 's', 'z'}
    ensures Tidy(v) == Drop(v, 1)
  {
    if EndsIn(v, "at") { Ends2(v, "at"); }
    if EndsIn(v, "bl") { Ends2(v, "bl"); }
    if EndsIn(v, "iz") { Ends2(v, "iz"); }
  }

  // ---- the measure

  /** Letter by letter: a consonant after a vowel adds one to the measure, and nothing else does. */
  lemma MeasureMore(w: string, c: char)
    ensures MeasureOf(w + [c]) ==
      MeasureOf(w) + if |w| > 0 && VowelAt(w, |w| - 1) && !VowelAt(w + [c], |w|) then 1 else 0
  {
    var v := w + [c];
    assert v[..|w|] == w;
    TransitionsOfPrefix(v, |w|, |w|);
    if |w| > 0 { assert VowelAt(v, |w| - 1) == VowelAt(w, |w| - 1); }
  }

  // ---- prefixes

  lemma PrefixesDiffer(i: nat, j: nat, w: string)
    requires i < j < |Prefixes|
    ensures !(Prefixes[i] <= Prefixes[j] + w)
  {
    var a, b := Prefixes[i], Prefixes[j];
    assert |a| > 2 && |b| > 2 && (a[0] != b[0] || a[1] != b[1] || a[2] != b[2]);
    assert (b + w)[0] == b[0] && (b + w)[1] == b[1] && (b + w)[2] == b[2];
  }

  lemma {:induction false} WithoutAt(s: string, prefixes: seq<string>, k: nat)
    requires k < |prefixes| && prefixes[k] <= s && forall i :: 0 <= i < k ==> !(prefixes[i] <= s)
    ensures WithoutPrefix(s, prefixes) == s[|prefixes[k]|..]
    decreases k
  {
    if k > 0 { WithoutAt(s, prefixes[1..], k - 1); }
  }

  lemma {:induction false} WithoutNone(s: string, prefixes: seq<string>)
    requires forall i :: 0 <= i < |prefixes| ==> !(prefixes[i] <= s)
    ensures WithoutPrefix(s, prefixes) == s
    decreases |prefixes|
  {
    if |prefixes| > 0 { WithoutNone(s, prefixes[1..]); }
  }

  /** A prefix makes no difference to the stem of what follows it, and a word without one is stemmed as it is. */
  lemma LawOfPrefixes(w: string, k: nat)
    requires k < |Prefixes| && |w| > 0
    ensures Stem(Prefixes[k] + w) == Suffixed(w)
    ensures |w| > 2 && (forall i :: 0 <= i < |Prefixes| ==> !(Prefixes[i] <= w)) ==> Stem(w) == Suffixed(w)
  {
    var p := Prefixes[k];
    assert |p| > 2;
    forall i | 0 <= i < k ensures !(Prefixes[i] <= p + w) { PrefixesDiffer(i, k, w); }
    WithoutAt(p + w, Prefixes, k);
    assert (p + w)[|p|..] == w;
    if forall i :: 0 <= i < |Prefixes| ==> !(Prefixes[i] <= w) { WithoutNone(w, Prefixes); }
  }

  // ---- cleaning

  /** Cleaning goes letter by letter: it keeps what is a letter or a digit, and only that. */
  lemma {:induction false} CleanedJoin(a: string, b: string, isWord: char -> bool)
    ensures Cleaned(a + b, isWord) == Cleaned(a, isWord) + Cleaned(b, isWord)
    decreases |b|
  {
    if |b| == 0 {
      assert a + b == a;
    } else {
      var front := b[..|b| - 1];
      assert (a + b)[..|a + b| - 1] == a + front;
      CleanedJoin(a, front, isWord);
    }
  }

  lemma {:induction false} CleanedIs(s: string, isWord: char -> bool)
    ensures forall c :: c in Cleaned(s, isWord) <==> c in s && isWord(c)
    ensures (forall c :: c in s ==> isWord(c)) ==> Cleaned(s, isWord) == s
  {
    if |s| > 0 {
      var front, c := s[..|s| - 1], s[|s| - 1];
      assert s == front + [c];
      CleanedIs(front, isWord);
    }
  }
}
