/** The product card's picture (`getProductEmoji`): a keyword found in the
    upper-cased product name decides first, then a keyword in the upper-cased
    category, then a parcel. The card's cascade of tests is written as the
    component does it, and proved equal to a first-match lookup in two ordered
    keyword tables. */
module ProductCard {
  import opened Common

  const Tomato := "\U{1F345}"
  const Onion := "\U{1F9C5}"
  const HotPepper := "\U{1F336}\U{FE0F}"
  const Rice := "\U{1F35A}"
  const Corn := "\U{1F33D}"
  const SweetPotato := "\U{1F360}"
  const Bowl := "\U{1F963}"
  const Beans := "\U{1FAD8}"
  const Pineapple := "\U{1F34D}"
  const Tangerine := "\U{1F34A}"
  const Egg := "\U{1F95A}"
  const Rooster := "\U{1F413}"
  const Cow := "\U{1F404}"
  const Fish := "\U{1F41F}"
  const Sunflower := "\U{1F33B}"
  const Cheese := "\U{1F9C0}"
  const Milk := "\U{1F95B}"
  const PottedPlant := "\U{1FAB4}"
  const Sheaf := "\U{1F33E}"
  const Potato := "\U{1F954}"
  const Apple := "\U{1F34E}"
  const LeafyGreen := "\U{1F96C}"
  const Meat := "\U{1F969}"
  const Parcel := "\U{1F4E6}"

  /** The upper-cased name and category; an absent one reads as the empty
      string. */
  function NameText(name: Option<string>): string {
    Upper(if name.Some? then name.value else "")
  }

  function CategoryText(category: Option<string>): string {
    Upper(if category.Some? then category.value else "")
  }

  /** `getProductEmoji(category || '', name)`. */
  function ProductEmoji(category: Option<string>, name: Option<string>): string {
    Cascade(CategoryText(category), NameText(name))
  }

  /** The component's tests, one after another, on the upper-cased texts. */
  function Cascade(cat: string, n: string): string {
    if Contains(n, "TOMATE") then Tomato
    else if Contains(n, "OIGNON") then Onion
    else if Contains(n, "PIMENT") then HotPepper
    else if Contains(n, "RIZ") then Rice
    else if Contains(n, "MAIS") || Contains(n, "MA\U{00CF}S") then Corn
    else if Contains(n, "IGNAME") then SweetPotato
    else if Contains(n, "MANIOC") || Contains(n, "GARI") then Bowl
    else if Contains(n, "HARICOT") then Beans
    else if Contains(n, "ANANAS") then Pineapple
    else if Contains(n, "ORANGE") then Tangerine
    else if Contains(n, "OEUF") then Egg
    else if Contains(n, "POULET") then Rooster
    else if Contains(n, "BOEUF") then Cow
    else if Contains(n, "POISSON") then Fish
    else if Contains(n, "HUILE") then Sunflower
    else if Contains(n, "FROMAGE") then Cheese
    else if Contains(n, "LAIT") then Milk
    else if Contains(n, "KLEOUI") || Contains(n, "KL\U{00C9}OUJ") then PottedPlant
    else if Contains(cat, "CEREAL") then Sheaf
    else if Contains(cat, "LEGUMINEUSE") then Beans
    else if Contains(cat, "TUBERCULE") then Potato
    else if Contains(cat, "FRUIT") then Apple
    else if Contains(cat, "LEGUME") then LeafyGreen
    else if Contains(cat, "VIANDE") then Meat
    else if Contains(cat, "POISSON") then Fish
    else if Contains(cat, "LAIT") then Milk
    else if Contains(cat, "EPICE") then HotPepper
    else Parcel
  }

  // ---------------------------------------------------------------------------
  // The same choice as two keyword tables

  /** A picture and the keywords, any one of which selects it. */
  datatype Rule = Rule(keywords: seq<string>, emoji: string)

  const NameRules: seq<Rule> := [
    Rule(["TOMATE"], Tomato),
    Rule(["OIGNON"], Onion),
    Rule(["PIMENT"], HotPepper),
    Rule(["RIZ"], Rice),
    Rule(["MAIS", "MA\U{00CF}S"], Corn),
    Rule(["IGNAME"], SweetPotato),
    Rule(["MANIOC", "GARI"], Bowl),
    Rule(["HARICOT"], Beans),
    Rule(["ANANAS"], Pineapple),
    Rule(["ORANGE"], Tangerine),
    Rule(["OEUF"], Egg),
    Rule(["POULET"], Rooster),
    Rule(["BOEUF"], Cow),
    Rule(["POISSON"], Fish),
    Rule(["HUILE"], Sunflower),
    Rule(["FROMAGE"], Cheese),
    Rule(["LAIT"], Milk),
    Rule(["KLEOUI", "KL\U{00C9}OUJ"], PottedPlant)]

  const CategoryRules: seq<Rule> := [
    Rule(["CEREAL"], Sheaf),
    Rule(["LEGUMINEUSE"], Beans),
    Rule(["TUBERCULE"], Potato),
    Rule(["FRUIT"], Apple),
    Rule(["LEGUME"], LeafyGreen),
    Rule(["VIANDE"], Meat),
    Rule(["POISSON"], Fish),
    Rule(["LAIT"], Milk),
    Rule(["EPICE"], HotPepper)]

  predicate AnyIn(keywords: seq<string>, text: string) {
    exists i :: 0 <= i < |keywords| && Contains(text, keywords[i])
  }

  /** The picture of the first rule one of whose keywords occurs in `text`. */
  function FirstMatch(rules: seq<Rule>, text: string): Option<string> {
    if rules == [] then None
    else if AnyIn(rules[0].keywords, text) then Some(rules[0].emoji)
    else FirstMatch(rules[1..], text)
  }

  /** No picture exactly when no rule matches; otherwise the picture of a matching
      rule before which no rule matches. */
  lemma {:induction false} FirstMatchIsFirst(rules: seq<Rule>, text: string)
    ensures FirstMatch(rules, text).None? <==> forall i :: 0 <= i < |rules| ==> !AnyIn(rules[i].keywords, text)
    ensures FirstMatch(rules, text).Some? ==>
      exists i :: 0 <= i < |rules| && AnyIn(rules[i].keywords, text) && FirstMatch(rules, text).value == rules[i].emoji
                  && forall j :: 0 <= j < i ==> !AnyIn(rules[j].keywords, text)
  {
    if rules != [] && !AnyIn(rules[0].keywords, text) {
      FirstMatchIsFirst(rules[1..], text);
      var r := FirstMatch(rules[1..], text);
      assert forall i :: 1 <= i < |rules| ==> rules[i] == rules[1..][i - 1];
      if r.Some? {
        var i :| 0 <= i < |rules[1..]| && AnyIn(rules[1..][i].keywords, text) && r.value == rules[1..][i].emoji
                 && forall j :: 0 <= j < i ==> !AnyIn(rules[1..][j].keywords, text);
        assert AnyIn(rules[i + 1].keywords, text) && r.value == rules[i + 1].emoji;
      }
    }
  }

  /** The name table decides first, the category table next, the parcel last. */
  function FromTables(cat: string, n: string): string {
    var byName := FirstMatch(NameRules, n);
    if byName.Some? then byName.value
    else
      var byCategory := FirstMatch(CategoryRules, cat);
      if byCategory.Some? then byCategory.value else Parcel
  }

  lemma AnyInOne(k: string, text: string)
    ensures AnyIn([k], text) <==> Contains(text, k)
  {
    if Contains(text, k) {
      assert [k][0] == k;
    }
  }

  lemma AnyInTwo(k1: string, k2: string, text: string)
    ensures AnyIn([k1, k2], text) <==> Contains(text, k1) || Contains(text, k2)
  {
    if Contains(text, k1) {
      assert [k1, k2][0] == k1;
    } else if Contains(text, k2) {
      assert [k1, k2][1] == k2;
    }
  }

  /** The rules from position `k` on. */
  function MatchFrom(rules: seq<Rule>, k: nat, text: string): Option<string>
    requires k <= |rules|
    decreases |rules| - k
  {
    if k == |rules| then None
    else if AnyIn(rules[k].keywords, text) then Some(rules[k].emoji)
    else MatchFrom(rules, k + 1, text)
  }

  lemma {:induction false} MatchFromIsFirstMatch(rules: seq<Rule>, k: nat, text: string)
    requires k <= |rules|
    ensures MatchFrom(rules, k, text) == FirstMatch(rules[k..], text)
    decreases |rules| - k
  {
    if k < |rules| {
      MatchFromIsFirstMatch(rules, k + 1, text);
      assert rules[k..][0] == rules[k] && rules[k..][1..] == rules[k + 1..];
    }
  }

  /** The cascade is the two-table lookup. */
  lemma CascadeIsTables(cat: string, n: string)
    ensures Cascade(cat, n) == FromTables(cat, n)
  {
    NameTable(n);
    CategoryTable(cat);
  }

  /** The name table, rule by rule, as the name half of the cascade. */
  lemma NameTable(n: string)
    ensures FirstMatch(NameRules, n) ==
      if Contains(n, "TOMATE") then Some(Tomato)
      else if Contains(n, "OIGNON") then Some(Onion)
      else if Contains(n, "PIMENT") then Some(HotPepper)
      else if Contains(n, "RIZ") then Some(Rice)
      else if Contains(n, "MAIS") || Contains(n, "MA\U{00CF}S") then Some(Corn)
      else if Contains(n, "IGNAME") then Some(SweetPotato)
      else if Contains(n, "MANIOC") || Contains(n, "GARI") then Some(Bowl)
      else if Contains(n, "HARICOT") then Some(Beans)
      else if Contains(n, "ANANAS") then Some(Pineapple)
      else if Contains(n, "ORANGE") then Some(Tangerine)
      else if Contains(n, "OEUF") then Some(Egg)
      else if Contains(n, "POULET") then Some(Rooster)
      else if Contains(n, "BOEUF") then Some(Cow)
      else if Contains(n, "POISSON") then Some(Fish)
      else if Contains(n, "HUILE") then Some(Sunflower)
      else if Contains(n, "FROMAGE") then Some(Cheese)
      else if Contains(n, "LAIT") then Some(Milk)
      else if Contains(n, "KLEOUI") || Contains(n, "KL\U{00C9}OUJ") then Some(PottedPlant)
      else None
  {
    MatchFromIsFirstMatch(NameRules, 0, n);
    NameTableFirstHalf(n);
    NameTableSecondHalf(n);
  }

  lemma NameTableFirstHalf(n: string)
    ensures MatchFrom(NameRules, 0, n) ==
      if Contains(n, "TOMATE") then Some(Tomato)
      else if Contains(n, "OIGNON") then Some(Onion)
      else if Contains(n, "PIMENT") then Some(HotPepper)
      else if Contains(n, "RIZ") then Some(Rice)
      else if Contains(n, "MAIS") || Contains(n, "MA\U{00CF}S") then Some(Corn)
      else if Contains(n, "IGNAME") then Some(SweetPotato)
      else if Contains(n, "MANIOC") || Contains(n, "GARI") then Some(Bowl)
      else if Contains(n, "HARICOT") then Some(Beans)
      else if Contains(n, "ANANAS") then Some(Pineapple)
      else MatchFrom(NameRules, 9, n)
  {
    var rs := NameRules;
    AnyInOne("TOMATE", n);
    assert rs[0] == Rule(["TOMATE"], Tomato);
    assert MatchFrom(rs, 0, n) == if AnyIn(rs[0].keywords, n) then Some(rs[0].emoji) else MatchFrom(rs, 1, n);
    AnyInOne("OIGNON", n);
    assert rs[1] == Rule(["OIGNON"], Onion);
    assert MatchFrom(rs, 1, n) == if AnyIn(rs[1].keywords, n) then Some(rs[1].emoji) else MatchFrom(rs, 2, n);
    AnyInOne("PIMENT", n);
    assert rs[2] == Rule(["PIMENT"], HotPepper);
    assert MatchFrom(rs, 2, n) == if AnyIn(rs[2].keywords, n) then Some(rs[2].emoji) else MatchFrom(rs, 3, n);
    AnyInOne("RIZ", n);
    assert rs[3] == Rule(["RIZ"], Rice);
    assert MatchFrom(rs, 3, n) == if AnyIn(rs[3].keywords, n) then Some(rs[3].emoji) else MatchFrom(rs, 4, n);
    AnyInTwo("MAIS", "MA\U{00CF}S", n);
    assert rs[4] == Rule(["MAIS", "MA\U{00CF}S"], Corn);
    assert MatchFrom(rs, 4, n) == if AnyIn(rs[4].keywords, n) then Some(rs[4].emoji) else MatchFrom(rs, 5, n);
    AnyInOne("IGNAME", n);
    assert rs[5] == Rule(["IGNAME"], SweetPotato);
    assert MatchFrom(rs, 5, n) == if AnyIn(rs[5].keywords, n) then Some(rs[5].emoji) else MatchFrom(rs, 6, n);
    AnyInTwo("MANIOC", "GARI", n);
    assert rs[6] == Rule(["MANIOC", "GARI"], Bowl);
    assert MatchFrom(rs, 6, n) == if AnyIn(rs[6].keywords, n) then Some(rs[6].emoji) else MatchFrom(rs, 7, n);
    AnyInOne("HARICOT", n);
    assert rs[7] == Rule(["HARICOT"], Beans);
    assert MatchFrom(rs, 7, n) == if AnyIn(rs[7].keywords, n) then Some(rs[7].emoji) else MatchFrom(rs, 8, n);
    AnyInOne("ANANAS", n);
    assert rs[8] == Rule(["ANANAS"], Pineapple);
    assert MatchFrom(rs, 8, n) == if AnyIn(rs[8].keywords, n) then Some(rs[8].emoji) else MatchFrom(rs, 9, n);
  }

  lemma NameTableSecondHalf(n: string)
    ensures MatchFrom(NameRules, 9, n) ==
      if Contains(n, "ORANGE") then Some(Tangerine)
      else if Contains(n, "OEUF") then Some(Egg)
      else if Contains(n, "POULET") then Some(Rooster)
      else if Contains(n, "BOEUF") then Some(Cow)
      else if Contains(n, "POISSON") then Some(Fish)
      else if Contains(n, "HUILE") then Some(Sunflower)
      else if Contains(n, "FROMAGE") then Some(Cheese)
      else if Contains(n, "LAIT") then Some(Milk)
      else if Contains(n, "KLEOUI") || Contains(n, "KL\U{00C9}OUJ") then Some(PottedPlant)
      else None
  {
    var rs := NameRules;
    AnyInOne("ORANGE", n);
    assert rs[9] == Rule(["ORANGE"], Tangerine);
    assert MatchFrom(rs, 9, n) == if AnyIn(rs[9].keywords, n) then Some(rs[9].emoji) else MatchFrom(rs, 10, n);
    AnyInOne("OEUF", n);
    assert rs[10] == Rule(["OEUF"], Egg);
    assert MatchFrom(rs, 10, n) == if AnyIn(rs[10].keywords, n) then Some(rs[10].emoji) else MatchFrom(rs, 11, n);
    AnyInOne("POULET", n);
    assert rs[11] == Rule(["POULET"], Rooster);
    assert MatchFrom(rs, 11, n) == if AnyIn(rs[11].keywords, n) then Some(rs[11].emoji) else MatchFrom(rs, 12, n);
    AnyInOne("BOEUF", n);
    assert rs[12] == Rule(["BOEUF"], Cow);
    assert MatchFrom(rs, 12, n) == if AnyIn(rs[12].keywords, n) then Some(rs[12].emoji) else MatchFrom(rs, 13, n);
    AnyInOne("POISSON", n);
    assert rs[13] == Rule(["POISSON"], Fish);
    assert MatchFrom(rs, 13, n) == if AnyIn(rs[13].keywords, n) then Some(rs[13].emoji) else MatchFrom(rs, 14, n);
    AnyInOne("HUILE", n);
    assert rs[14] == Rule(["HUILE"], Sunflower);
    assert MatchFrom(rs, 14, n) == if AnyIn(rs[14].keywords, n) then Some(rs[14].emoji) else MatchFrom(rs, 15, n);
    AnyInOne("FROMAGE", n);
    assert rs[15] == Rule(["FROMAGE"], Cheese);
    assert MatchFrom(rs, 15, n) == if AnyIn(rs[15].keywords, n) then Some(rs[15].emoji) else MatchFrom(rs, 16, n);
    AnyInOne("LAIT", n);
    assert rs[16] == Rule(["LAIT"], Milk);
    assert MatchFrom(rs, 16, n) == if AnyIn(rs[16].keywords, n) then Some(rs[16].emoji) else MatchFrom(rs, 17, n);
    AnyInTwo("KLEOUI", "KL\U{00C9}OUJ", n);
    assert rs[17] == Rule(["KLEOUI", "KL\U{00C9}OUJ"], PottedPlant);
    assert MatchFrom(rs, 17, n) == if AnyIn(rs[17].keywords, n) then Some(rs[17].emoji) else MatchFrom(rs, 18, n);
    assert MatchFrom(rs, 18, n) == None;
  }

  lemma CategoryTable(cat: string)
    ensures FirstMatch(CategoryRules, cat) ==
      if Contains(cat, "CEREAL") then Some(Sheaf)
      else if Contains(cat, "LEGUMINEUSE") then Some(Beans)
      else if Contains(cat, "TUBERCULE") then Some(Potato)
      else if Contains(cat, "FRUIT") then Some(Apple)
      else if Contains(cat, "LEGUME") then Some(LeafyGreen)
      else if Contains(cat, "VIANDE") then Some(Meat)
      else if Contains(cat, "POISSON") then Some(Fish)
      else if Contains(cat, "LAIT") then Some(Milk)
      else if Contains(cat, "EPICE") then Some(HotPepper)
      else None
  {
    var rs := CategoryRules;
    MatchFromIsFirstMatch(rs, 0, cat);
    AnyInOne("CEREAL", cat);
    assert rs[0] == Rule(["CEREAL"], Sheaf);
    assert MatchFrom(rs, 0, cat) == if AnyIn(rs[0].keywords, cat) then Some(rs[0].emoji) else MatchFrom(rs, 1, cat);
    AnyInOne("LEGUMINEUSE", cat);
    assert rs[1] == Rule(["LEGUMINEUSE"], Beans);
    assert MatchFrom(rs, 1, cat) == if AnyIn(rs[1].keywords, cat) then Some(rs[1].emoji) else MatchFrom(rs, 2, cat);
    AnyInOne("TUBERCULE", cat);
    assert rs[2] == Rule(["TUBERCULE"], Potato);
    assert MatchFrom(rs, 2, cat) == if AnyIn(rs[2].keywords, cat) then Some(rs[2].emoji) else MatchFrom(rs, 3, cat);
    AnyInOne("FRUIT", cat);
    assert rs[3] == Rule(["FRUIT"], Apple);
    assert MatchFrom(rs, 3, cat) == if AnyIn(rs[3].keywords, cat) then Some(rs[3].emoji) else MatchFrom(rs, 4, cat);
    AnyInOne("LEGUME", cat);
    assert rs[4] == Rule(["LEGUME"], LeafyGreen);
    assert MatchFrom(rs, 4, cat) == if AnyIn(rs[4].keywords, cat) then Some(rs[4].emoji) else MatchFrom(rs, 5, cat);
    AnyInOne("VIANDE", cat);
    assert rs[5] == Rule(["VIANDE"], Meat);
    assert MatchFrom(rs, 5, cat) == if AnyIn(rs[5].keywords, cat) then Some(rs[5].emoji) else MatchFrom(rs, 6, cat);
    AnyInOne("POISSON", cat);
    assert rs[6] == Rule(["POISSON"], Fish);
    assert MatchFrom(rs, 6, cat) == if AnyIn(rs[6].keywords, cat) then Some(rs[6].emoji) else MatchFrom(rs, 7, cat);
    AnyInOne("LAIT", cat);
    assert rs[7] == Rule(["LAIT"], Milk);
    assert MatchFrom(rs, 7, cat) == if AnyIn(rs[7].keywords, cat) then Some(rs[7].emoji) else MatchFrom(rs, 8, cat);
    AnyInOne("EPICE", cat);
    assert rs[8] == Rule(["EPICE"], HotPepper);
    assert MatchFrom(rs, 8, cat) == if AnyIn(rs[8].keywords, cat) then Some(rs[8].emoji) else MatchFrom(rs, 9, cat);
    assert MatchFrom(rs, 9, cat) == None;
  }

  // ---------------------------------------------------------------------------
  // What the choice promises

  /** A keyword in the name decides the picture whatever the category, and it is
      the picture of the first name rule that matches. */
  lemma NameDecidesFirst(category: Option<string>, other: Option<string>, name: Option<string>, k: nat)
    requires k < |NameRules| && AnyIn(NameRules[k].keywords, NameText(name))
    ensures ProductEmoji(category, name) == ProductEmoji(other, name)
    ensures exists i :: 0 <= i <= k && ProductEmoji(category, name) == NameRules[i].emoji
              && AnyIn(NameRules[i].keywords, NameText(name))
              && forall j :: 0 <= j < i ==> !AnyIn(NameRules[j].keywords, NameText(name))
  {
    CascadeIsTables(CategoryText(category), NameText(name));
    CascadeIsTables(CategoryText(other), NameText(name));
    FirstMatchIsFirst(NameRules, NameText(name));
    var i :| 0 <= i < |NameRules| && AnyIn(NameRules[i].keywords, NameText(name))
             && FirstMatch(NameRules, NameText(name)).value == NameRules[i].emoji
             && forall j :: 0 <= j < i ==> !AnyIn(NameRules[j].keywords, NameText(name));
    assert i <= k;
  }

  /** Without a keyword in the name, the first matching category rule decides,
      and the parcel shows exactly when no category rule matches either. */
  lemma CategoryDecidesNext(category: Option<string>, name: Option<string>)
    requires forall i :: 0 <= i < |NameRules| ==> !AnyIn(NameRules[i].keywords, NameText(name))
    ensures ProductEmoji(category, name) == Parcel <==>
              forall i :: 0 <= i < |CategoryRules| ==> !AnyIn(CategoryRules[i].keywords, CategoryText(category))
    ensures ProductEmoji(category, name) != Parcel ==>
              exists i :: 0 <= i < |CategoryRules| && ProductEmoji(category, name) == CategoryRules[i].emoji
                && AnyIn(CategoryRules[i].keywords, CategoryText(category))
                && forall j :: 0 <= j < i ==> !AnyIn(CategoryRules[j].keywords, CategoryText(category))
  {
    CascadeIsTables(CategoryText(category), NameText(name));
    FirstMatchIsFirst(NameRules, NameText(name));
    FirstMatchIsFirst(CategoryRules, CategoryText(category));
    assert forall i :: 0 <= i < |CategoryRules| ==> CategoryRules[i].emoji != Parcel;
  }

  lemma {:induction false} UpperIdempotent(s: string)
    ensures Upper(Upper(s)) == Upper(s)
  {
    forall i | 0 <= i < |s|
      ensures Upper(Upper(s))[i] == Upper(s)[i]
    {
      var c := s[i];
      assert UpperChar(UpperChar(c)) == UpperChar(c);
    }
  }

  /** The choice ignores case: upper-casing the name and the category first
      changes nothing. */
  lemma CaseBlind(category: Option<string>, name: Option<string>)
    ensures ProductEmoji(category, name) == ProductEmoji(Some(CategoryText(category)), Some(NameText(name)))
  {
    UpperIdempotent(if category.Some? then category.value else "");
    UpperIdempotent(if name.Some? then name.value else "");
  }

  /** Without a keyword in the name, a category of pulses shows beans and not
      the leafy green, whose keyword its text also contains, because the pulses
      rule comes first. */
  lemma PulsesBeforeGreens(category: Option<string>, name: Option<string>)
    requires forall i :: 0 <= i < |NameRules| ==> !AnyIn(NameRules[i].keywords, NameText(name))
    requires !Contains(CategoryText(category), "CEREAL")
    requires Contains(CategoryText(category), "LEGUMINEUSE")
    ensures ProductEmoji(category, name) == Beans
  {
    CascadeIsTables(CategoryText(category), NameText(name));
    FirstMatchIsFirst(NameRules, NameText(name));
    CategoryTable(CategoryText(category));
  }
}
