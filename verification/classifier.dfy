/** The part classifier inside `applyATVMaterials`: a mesh name is lower-cased
    and matched against an ordered chain of keyword groups; the first group that
    matches decides the part, and a name no group matches is treated as body. */
module Classifier {

  /** The parts the classifier tells apart. */
  datatype PartCategory = Body | Rubber | Chrome | Seat | Light

  predicate IsUpper(c: char) { 'A' <= c <= 'Z' }

  function LowerChar(c: char): char {
    if IsUpper(c) then (c as int + 32) as char else c
  }

  function UpperChar(c: char): char {
    if 'a' <= c <= 'z' then (c as int - 32) as char else c
  }

  /** `toLowerCase`, restricted to the ASCII letters. */
  function ToLower(s: string): (r: string)
    ensures |r| == |s|
    ensures forall i :: 0 <= i < |r| ==> !IsUpper(r[i])
    ensures forall i :: 0 <= i < |s| && !IsUpper(s[i]) ==> r[i] == s[i]
    ensures forall i :: 0 <= i < |s| ==> UpperChar(r[i]) == UpperChar(s[i])
  {
    seq(|s|, i requires 0 <= i < |s| => LowerChar(s[i]))
  }

  /** `toUpperCase`, restricted to the ASCII letters; used only to state that
      the classifier ignores case. */
  function ToUpper(s: string): (r: string)
    ensures |r| == |s|
    ensures forall i :: 0 <= i < |r| ==> !('a' <= r[i] <= 'z')
  {
    seq(|s|, i requires 0 <= i < |s| => UpperChar(s[i]))
  }

  /** `s` begins with `p`. */
  predicate StartsWith(s: string, p: string) {
    |p| <= |s| && s[..|p|] == p
  }

  /** `s.includes(sub)`, computed by trying each start position in turn. */
  predicate Contains(s: string, sub: string)
    decreases |s|
  {
    StartsWith(s, sub) || (|s| > 0 && Contains(s[1..], sub))
  }

  // ----- the keyword groups, in the order the source tests them -----

  predicate IsBodyName(n: string) {
    Contains(n, "body") || Contains(n, "fender") || Contains(n, "panel")
    || Contains(n, "hood") || Contains(n, "plastic")
  }

  /** The rubber test as the source writes it: `&&` binds tighter than `||`, so
      the test reads `tire || tyre || (wheel && rubber)`. */
  predicate IsRubberName(n: string) {
    Contains(n, "tire") || Contains(n, "tyre") || (Contains(n, "wheel") && Contains(n, "rubber"))
  }

  predicate IsChromeName(n: string) {
    Contains(n, "rim") || Contains(n, "chrome") || Contains(n, "metal") || Contains(n, "exhaust")
  }

  predicate IsSeatName(n: string) {
    Contains(n, "seat") || Contains(n, "saddle")
  }

  predicate IsLightName(n: string) {
    Contains(n, "glass") || Contains(n, "light") || Contains(n, "lens")
  }

  /** The chain of group tests on an already lower-cased name. */
  function CategoryOf(n: string): PartCategory {
    if IsBodyName(n) then Body
    else if IsRubberName(n) then Rubber
    else if IsChromeName(n) then Chrome
    else if IsSeatName(n) then Seat
    else if IsLightName(n) then Light
    else Body
  }

  /** The category of a mesh, decided on its lower-cased name. */
  function Classify(name: string): (r: PartCategory)
    ensures Contains(ToLower(name), "plastic") ==> r == Body
    ensures r == Rubber ==> Contains(ToLower(name), "tire") || Contains(ToLower(name), "tyre")
                            || (Contains(ToLower(name), "wheel") && Contains(ToLower(name), "rubber"))
  {
    CategoryOf(ToLower(name))
  }

  // ----- an independent, table-driven reading of the same rules -----

  /** A rule matches when ANY of its clauses matches, and a clause matches when
      ALL of its keywords occur in the name. */
  datatype Rule = Rule(clauses: seq<seq<string>>, category: PartCategory)

  predicate ContainsAll(s: string, keywords: seq<string>)
    decreases |keywords|
  {
    |keywords| == 0 || (Contains(s, keywords[0]) && ContainsAll(s, keywords[1..]))
  }

  predicate RuleMatches(s: string, clauses: seq<seq<string>>)
    decreases |clauses|
  {
    |clauses| > 0 && (ContainsAll(s, clauses[0]) || RuleMatches(s, clauses[1..]))
  }

  /** The rule table, in the order the source tests it. */
  const ruleTable: seq<Rule> := [
    Rule([["body"], ["fender"], ["panel"], ["hood"], ["plastic"]], Body),
    Rule([["tire"], ["tyre"], ["wheel", "rubber"]], Rubber),
    Rule([["rim"], ["chrome"], ["metal"], ["exhaust"]], Chrome),
    Rule([["seat"], ["saddle"]], Seat),
    Rule([["glass"], ["light"], ["lens"]], Light)
  ]

  /** The category of the first rule that matches, `Body` when none does. */
  function FirstMatch(rules: seq<Rule>, s: string): PartCategory
    decreases |rules|
  {
    if |rules| == 0 then Body
    else if RuleMatches(s, rules[0].clauses) then rules[0].category
    else FirstMatch(rules[1..], s)
  }

  /** A clause of one keyword matches exactly when that keyword occurs. */
  lemma SingleKeyword(s: string, k: string)
    ensures ContainsAll(s, [k]) <==> Contains(s, k)
  {
    assert [k][1..] == [];
  }

  /** Each rule of the table matches exactly when the source's group test does. */
  lemma RulesMatchGroups(n: string)
    ensures RuleMatches(n, ruleTable[0].clauses) <==> IsBodyName(n)
    ensures RuleMatches(n, ruleTable[1].clauses) <==> IsRubberName(n)
    ensures RuleMatches(n, ruleTable[2].clauses) <==> IsChromeName(n)
    ensures RuleMatches(n, ruleTable[3].clauses) <==> IsSeatName(n)
    ensures RuleMatches(n, ruleTable[4].clauses) <==> IsLightName(n)
  {
    BodyRuleMatches(n);
    RubberRuleMatches(n);
    ChromeRuleMatches(n);
    SeatRuleMatches(n);
    LightRuleMatches(n);
  }

  lemma BodyRuleMatches(n: string)
    ensures RuleMatches(n, ruleTable[0].clauses) <==> IsBodyName(n)
  {
    var c := ruleTable[0].clauses;
    SingleKeyword(n, "body"); SingleKeyword(n, "fender"); SingleKeyword(n, "panel");
    SingleKeyword(n, "hood"); SingleKeyword(n, "plastic");
    assert c[1..][1..][1..][1..][1..] == [];
  }

  lemma RubberRuleMatches(n: string)
    ensures RuleMatches(n, ruleTable[1].clauses) <==> IsRubberName(n)
  {
    var c := ruleTable[1].clauses;
    SingleKeyword(n, "tire"); SingleKeyword(n, "tyre"); SingleKeyword(n, "rubber");
    assert ["wheel", "rubber"][1..] == ["rubber"];
    assert c[1..][1..][1..] == [];
  }

  lemma ChromeRuleMatches(n: string)
    ensures RuleMatches(n, ruleTable[2].clauses) <==> IsChromeName(n)
  {
    var c := ruleTable[2].clauses;
    SingleKeyword(n, "rim"); SingleKeyword(n, "chrome"); SingleKeyword(n, "metal");
    SingleKeyword(n, "exhaust");
    assert c[1..][1..][1..][1..] == [];
  }

  lemma SeatRuleMatches(n: string)
    ensures RuleMatches(n, ruleTable[3].clauses) <==> IsSeatName(n)
  {
    var c := ruleTable[3].clauses;
    SingleKeyword(n, "seat"); SingleKeyword(n, "saddle");
    assert c[1..][1..] == [];
  }

  lemma LightRuleMatches(n: string)
    ensures RuleMatches(n, ruleTable[4].clauses) <==> IsLightName(n)
  {
    var c := ruleTable[4].clauses;
    SingleKeyword(n, "glass"); SingleKeyword(n, "light"); SingleKeyword(n, "lens");
    assert c[1..][1..][1..] == [];
  }

  /** The if/else chain of the source and the rule table agree on every name. */
  lemma ClassifyMatchesTable(name: string)
    ensures Classify(name) == FirstMatch(ruleTable, ToLower(name))
  {
    RulesMatchGroups(ToLower(name));
    assert ruleTable[1..][1..][1..][1..][1..] == [];
  }

  // ----- the containment test against its definition by positions -----

  /** `sub` occurs in `s` at position `i`. */
  predicate OccursAt(s: string, sub: string, i: int) {
    0 <= i && i + |sub| <= |s| && s[i..i + |sub|] == sub
  }

  /** The recursive containment test holds exactly when the keyword occurs at
      some position of the name. */
  lemma {:induction false} ContainsIffOccurs(s: string, sub: string)
    ensures Contains(s, sub) <==> exists i :: OccursAt(s, sub, i)
    decreases |s|
  {
    if StartsWith(s, sub) {
      assert OccursAt(s, sub, 0);
    } else if |s| > 0 {
      ContainsIffOccurs(s[1..], sub);
      if exists i :: OccursAt(s[1..], sub, i) {
        var i :| OccursAt(s[1..], sub, i);
        assert s[i + 1..i + 1 + |sub|] == s[1..][i..i + |sub|];
        assert OccursAt(s, sub, i + 1);
      }
      if exists i :: OccursAt(s, sub, i) {
        var i :| OccursAt(s, sub, i);
        if i > 0 {
          assert s[1..][i - 1..i - 1 + |sub|] == s[i..i + |sub|];
          assert OccursAt(s[1..], sub, i - 1);
        }
      }
    }
  }

  /** A keyword with a character the name lacks does not occur in it. */
  lemma MissingChar(s: string, sub: string, k: int)
    requires 0 <= k < |sub| && sub[k] !in s
    ensures !Contains(s, sub)
  {
    ContainsIffOccurs(s, sub);
  }

  /** A keyword seen at some position is contained. */
  lemma OccursContains(s: string, sub: string, i: int)
    requires OccursAt(s, sub, i)
    ensures Contains(s, sub)
  {
    ContainsIffOccurs(s, sub);
  }

  // ----- case does not matter -----

  /** The category of a name does not depend on the case it is written in. */
  lemma ClassifyIgnoresCase(name: string)
    ensures Classify(ToLower(name)) == Classify(name)
    ensures Classify(ToUpper(name)) == Classify(name)
  {
    assert ToLower(ToLower(name)) == ToLower(name);
    assert ToLower(ToUpper(name)) == ToLower(name);
  }

  // ----- consequences of the order and of the precedence of `&&` -----

  /** No keyword of the body group occurs in a name that lacks one character of each. */
  lemma NotIsBodyName(n: string, kBody: int, kFender: int, kPanel: int, kHood: int, kPlastic: int)
    requires 0 <= kBody < |"body"| && "body"[kBody] !in n
    requires 0 <= kFender < |"fender"| && "fender"[kFender] !in n
    requires 0 <= kPanel < |"panel"| && "panel"[kPanel] !in n
    requires 0 <= kHood < |"hood"| && "hood"[kHood] !in n
    requires 0 <= kPlastic < |"plastic"| && "plastic"[kPlastic] !in n
    ensures !IsBodyName(n)
  {
    MissingChar(n, "body", kBody);
    MissingChar(n, "fender", kFender);
    MissingChar(n, "panel", kPanel);
    MissingChar(n, "hood", kHood);
    MissingChar(n, "plastic", kPlastic);
  }

  /** No keyword of the rubber group occurs in a name that lacks one character of each. */
  lemma NotIsRubberName(n: string, kTire: int, kTyre: int, kWheelOrRubber: int)
    requires 0 <= kTire < |"tire"| && "tire"[kTire] !in n
    requires 0 <= kTyre < |"tyre"| && "tyre"[kTyre] !in n
    requires (0 <= kWheelOrRubber < |"wheel"| && "wheel"[kWheelOrRubber] !in n) || (0 <= kWheelOrRubber < |"rubber"| && "rubber"[kWheelOrRubber] !in n)
    ensures !IsRubberName(n)
  {
    MissingChar(n, "tire", kTire);
    MissingChar(n, "tyre", kTyre);
    if 0 <= kWheelOrRubber < |"wheel"| && "wheel"[kWheelOrRubber] !in n {
      MissingChar(n, "wheel", kWheelOrRubber);
    } else {
      MissingChar(n, "rubber", kWheelOrRubber);
    }
  }

  /** No keyword of the chrome group occurs in a name that lacks one character of each. */
  lemma NotIsChromeName(n: string, kRim: int, kChrome: int, kMetal: int, kExhaust: int)
    requires 0 <= kRim < |"rim"| && "rim"[kRim] !in n
    requires 0 <= kChrome < |"chrome"| && "chrome"[kChrome] !in n
    requires 0 <= kMetal < |"metal"| && "metal"[kMetal] !in n
    requires 0 <= kExhaust < |"exhaust"| && "exhaust"[kExhaust] !in n
    ensures !IsChromeName(n)
  {
    MissingChar(n, "rim", kRim);
    MissingChar(n, "chrome", kChrome);
    MissingChar(n, "metal", kMetal);
    MissingChar(n, "exhaust", kExhaust);
  }

  /** No keyword of the seat group occurs in a name that lacks one character of each. */
  lemma NotIsSeatName(n: string, kSeat: int, kSaddle: int)
    requires 0 <= kSeat < |"seat"| && "seat"[kSeat] !in n
    requires 0 <= kSaddle < |"saddle"| && "saddle"[kSaddle] !in n
    ensures !IsSeatName(n)
  {
    MissingChar(n, "seat", kSeat);
    MissingChar(n, "saddle", kSaddle);
  }

  /** No keyword of the light group occurs in a name that lacks one character of each. */
  lemma NotIsLightName(n: string, kGlass: int, kLight: int, kLens: int)
    requires 0 <= kGlass < |"glass"| && "glass"[kGlass] !in n
    requires 0 <= kLight < |"light"| && "light"[kLight] !in n
    requires 0 <= kLens < |"lens"| && "lens"[kLens] !in n
    ensures !IsLightName(n)
  {
    MissingChar(n, "glass", kGlass);
    MissingChar(n, "light", kLight);
    MissingChar(n, "lens", kLens);
  }

  /** A name that no group matches is painted as body. */
  lemma NoGroupIsBody(n: string)
    requires !IsBodyName(n) && !IsRubberName(n) && !IsChromeName(n)
    requires !IsSeatName(n) && !IsLightName(n)
    ensures CategoryOf(n) == Body
  {
  }

  /** A name holding any body keyword, in any case, is body: the body group is
      tested first. */
  lemma BodyKeywordWins(name: string)
    requires IsBodyName(ToLower(name))
    ensures Classify(name) == Body
  {
  }

  /** A name that reaches the light group and matches it is light. */
  lemma ReachesLight(n: string)
    requires !IsBodyName(n) && !IsRubberName(n) && !IsChromeName(n)
    requires !IsSeatName(n) && IsLightName(n)
    ensures CategoryOf(n) == Light
  {
  }

  /** A name that reaches the chrome group and matches it is chrome. */
  lemma ReachesChrome(n: string)
    requires !IsBodyName(n) && !IsRubberName(n) && IsChromeName(n)
    ensures CategoryOf(n) == Chrome
  {
  }

  /** "wheel" without "rubber" is not rubber: it falls through every group and is painted as body. */
  lemma WheelAloneIsBody(n: string)
    requires n == "wheel"
    ensures CategoryOf(n) == Body
  {
    WheelMissesEarlyGroups(n);
    NotIsSeatName(n, 0, 0);
    NotIsLightName(n, 0, 1, 2);
    NoGroupIsBody(n);
  }

  lemma WheelMissesEarlyGroups(n: string)
    requires n == "wheel"
    ensures !IsBodyName(n) && !IsRubberName(n) && !IsChromeName(n)
  {
    NotIsBodyName(n, 0, 0, 0, 1, 0);
    NotIsRubberName(n, 0, 0, 0);
    NotIsChromeName(n, 0, 0, 0, 1);
  }

  /** "wheel" together with "rubber" is rubber. */
  lemma WheelRubberIsRubber(n: string)
    requires n == "wheel_rubber"
    ensures CategoryOf(n) == Rubber
  {
    NotIsBodyName(n, 1, 0, 0, 1, 0);
    OccursContains(n, "wheel", 0); OccursContains(n, "rubber", 6);
  }

  /** "wheel" with "rim" is not caught by the rubber group and reaches the chrome group. */
  lemma WheelRimIsChrome(n: string)
    requires n == "wheel_rim"
    ensures CategoryOf(n) == Chrome
  {
    NotIsBodyName(n, 0, 0, 0, 1, 0);
    NotIsRubberName(n, 0, 0, 1);
    OccursContains(n, "rim", 6);
  }

  /** "tire" alone is rubber: the `&& rubber` qualifies only "wheel". */
  lemma TireAloneIsRubber(n: string)
    requires n == "tire"
    ensures CategoryOf(n) == Rubber
  {
    NotIsBodyName(n, 0, 0, 0, 0, 0);
    OccursContains(n, "tire", 0);
  }

  /** So is "tyre", wherever it occurs in the name. */
  lemma TyreAloneIsRubber(n: string)
    requires n == "rear_tyre_l"
    ensures CategoryOf(n) == Rubber
  {
    NotIsBodyName(n, 0, 0, 0, 0, 0);
    assert n[5..9] == "tyre";
    OccursContains(n, "tyre", 5);
  }

  /** The first group that matches wins: "plastic" is body, and so is a tire named after the body. */
  lemma BodyGroupWins(n: string)
    requires n == "plastic_cover" || n == "tire_body"
    ensures CategoryOf(n) == Body
  {
    if n == "plastic_cover" {
      OccursContains(n, "plastic", 0);
    } else {
      OccursContains(n, "body", 5);
    }
  }

  /** A seat frame named "metal" is chrome: the chrome group comes before the seat group. */
  lemma ChromeBeforeSeat(n: string)
    requires n == "seat_metal_frame"
    ensures CategoryOf(n) == Chrome
  {
    NotIsBodyName(n, 0, 2, 0, 0, 0);
    NotIsRubberName(n, 1, 1, 0);
    OccursContains(n, "metal", 5);
    ReachesChrome(n);
  }

  /** Lamps are light. */
  lemma LampIsLight(n: string)
    requires n == "headlight"
    ensures CategoryOf(n) == Light
  {
    HeadlightMissesEarlyGroups(n);
    NotIsChromeName(n, 0, 0, 0, 1);
    NotIsSeatName(n, 0, 0);
    OccursContains(n, "light", 4);
    ReachesLight(n);
  }

  lemma HeadlightMissesEarlyGroups(n: string)
    requires n == "headlight"
    ensures !IsBodyName(n) && !IsRubberName(n)
  {
    NotIsBodyName(n, 0, 0, 0, 1, 0);
    NotIsRubberName(n, 2, 1, 0);
  }

  /** Saddles are seat. */
  lemma SaddleIsSeat(n: string)
    requires n == "saddle"
    ensures CategoryOf(n) == Seat
  {
    NotIsBodyName(n, 0, 0, 0, 0, 0);
    NotIsRubberName(n, 0, 0, 0);
    NotIsChromeName(n, 0, 0, 0, 1);
    OccursContains(n, "saddle", 0);
  }

  /** A name no group recognises is painted as body. */
  lemma UnknownIsBody(n: string)
    requires n == "mesh_001"
    ensures CategoryOf(n) == Body
  {
    MeshMissesEarlyGroups(n);
    NotIsSeatName(n, 2, 1);
    NotIsLightName(n, 0, 0, 0);
    NoGroupIsBody(n);
  }

  lemma MeshMissesEarlyGroups(n: string)
    requires n == "mesh_001"
    ensures !IsBodyName(n) && !IsRubberName(n) && !IsChromeName(n)
  {
    NotIsBodyName(n, 0, 0, 0, 1, 0);
    NotIsRubberName(n, 0, 0, 0);
    NotIsChromeName(n, 0, 0, 2, 1);
  }

  /** Mesh names as a modelling tool writes them are lower-cased first, so
      "Wheel_Rubber" is rubber ... */
  lemma MixedCaseWheelRubber(name: string)
    requires name == "Wheel_Rubber"
    ensures Classify(name) == Rubber
  {
    var n := ToLower(name);
    assert n == "wheel_rubber";
    WheelRubberIsRubber(n);
  }

  /** ... "FRONT_TIRE" is rubber ... */
  lemma MixedCaseFrontTire(name: string)
    requires name == "FRONT_TIRE"
    ensures Classify(name) == Rubber
  {
    var n := ToLower(name);
    assert n == "front_tire";
    FrontTireIsRubber(n);
  }

  lemma FrontTireIsRubber(n: string)
    requires n == "front_tire"
    ensures CategoryOf(n) == Rubber
  {
    NotIsBodyName(n, 0, 3, 0, 0, 0);
    OccursContains(n, "tire", 6);
  }

  /** ... and "Wheel" alone is body. */
  lemma MixedCaseWheel(name: string)
    requires name == "Wheel"
    ensures Classify(name) == Body
  {
    var n := ToLower(name);
    assert n == "wheel";
    WheelAloneIsBody(n);
  }
}
