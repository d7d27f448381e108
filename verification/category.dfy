/** The news category of a feed entry: a keyword cascade over the lower-cased
    title and content, in which the first rule with a keyword present decides
    and "RPG" is the default. */
module Category {
  import opened Strings

  datatype Category = PlayStation | Xbox | PCGaming | IndieGames | FPS | RPG {

    /** The category as the news item stores it. */
    function Name(): (name: string)
      ensures name in ["PlayStation", "Xbox", "PCGaming", "IndieGames", "FPS", "RPG"]
    {
      match this
      case PlayStation => "PlayStation"
      case Xbox => "Xbox"
      case PCGaming => "PCGaming"
      case IndieGames => "IndieGames"
      case FPS => "FPS"
      case RPG => "RPG"
    }
  }

  /** The text the keywords are looked for in: title and content joined by one
      space, then lower-cased. A keyword may straddle the join. */
  function CategoryText(title: string, content: string): string {
    Lower(title + " " + content)
  }

  /** The cascade as the feed reader writes it. */
  function InferCategory(title: string, content: string): Category {
    var text := CategoryText(title, content);
    if Includes(text, "playstation") || Includes(text, "ps5") || Includes(text, "ps4") then PlayStation
    else if Includes(text, "xbox") || Includes(text, "game pass") then Xbox
    else if Includes(text, "pc") || Includes(text, "steam") || Includes(text, "nvidia") || Includes(text, "amd") then PCGaming
    else if Includes(text, "indie") || Includes(text, "hollow knight") || Includes(text, "celeste") then IndieGames
    else if Includes(text, "fps") || Includes(text, "shooter") || Includes(text, "call of duty") || Includes(text, "valorant") then FPS
    else RPG
  }

  /** One rule of a data-driven classifier: any of its keywords selects its
      category. */
  datatype Rule = Rule(keywords: seq<string>, category: Category)

  /** The keyword table, in priority order. */
  const Rules: seq<Rule> := [
    Rule(["playstation", "ps5", "ps4"], PlayStation),
    Rule(["xbox", "game pass"], Xbox),
    Rule(["pc", "steam", "nvidia", "amd"], PCGaming),
    Rule(["indie", "hollow knight", "celeste"], IndieGames),
    Rule(["fps", "shooter", "call of duty", "valorant"], FPS)
  ]

  const DefaultCategory := RPG

  predicate Mentions(text: string, keywords: seq<string>) {
    exists k :: 0 <= k < |keywords| && Includes(text, keywords[k])
  }

  /** Rule `i` is the first rule of `rules` whose keywords `text` mentions. */
  ghost predicate FirstMatchingRule(rules: seq<Rule>, text: string, i: int) {
    && 0 <= i < |rules|
    && Mentions(text, rules[i].keywords)
    && forall j :: 0 <= j < i ==> !Mentions(text, rules[j].keywords)
  }

  /** A classifier evaluated by walking an ordered rule table: the category of
      the first rule that matches, else `default`. */
  function Classify(rules: seq<Rule>, text: string, default: Category): (c: Category)
    ensures (forall j :: 0 <= j < |rules| ==> !Mentions(text, rules[j].keywords)) ==> c == default
    ensures forall i :: FirstMatchingRule(rules, text, i) ==> c == rules[i].category
  {
    if |rules| == 0 then default
    else if Mentions(text, rules[0].keywords) then rules[0].category
    else
      var c := Classify(rules[1..], text, default);
      assert forall i :: FirstMatchingRule(rules, text, i) ==> i > 0 && FirstMatchingRule(rules[1..], text, i - 1);
      c
  }

  lemma MentionsTwo(text: string, a: string, b: string)
    ensures Mentions(text, [a, b]) <==> Includes(text, a) || Includes(text, b)
  {
    var ks := [a, b];
    assert ks[0] == a && ks[1] == b;
  }

  lemma MentionsThree(text: string, a: string, b: string, c: string)
    ensures Mentions(text, [a, b, c]) <==> Includes(text, a) || Includes(text, b) || Includes(text, c)
  {
    var ks := [a, b, c];
    assert ks[0] == a && ks[1] == b && ks[2] == c;
  }

  lemma MentionsFour(text: string, a: string, b: string, c: string, d: string)
    ensures Mentions(text, [a, b, c, d]) <==>
              Includes(text, a) || Includes(text, b) || Includes(text, c) || Includes(text, d)
  {
    var ks := [a, b, c, d];
    assert ks[0] == a && ks[1] == b && ks[2] == c && ks[3] == d;
  }

  /** Each test of the cascade is "some keyword of the rule is present". */
  lemma CascadeTests(text: string)
    ensures Mentions(text, Rules[0].keywords) <==>
              Includes(text, "playstation") || Includes(text, "ps5") || Includes(text, "ps4")
    ensures Mentions(text, Rules[1].keywords) <==> Includes(text, "xbox") || Includes(text, "game pass")
    ensures Mentions(text, Rules[2].keywords) <==>
              Includes(text, "pc") || Includes(text, "steam") || Includes(text, "nvidia") || Includes(text, "amd")
    ensures Mentions(text, Rules[3].keywords) <==>
              Includes(text, "indie") || Includes(text, "hollow knight") || Includes(text, "celeste")
    ensures Mentions(text, Rules[4].keywords) <==>
              Includes(text, "fps") || Includes(text, "shooter") || Includes(text, "call of duty") || Includes(text, "valorant")
  {
    MentionsThree(text, "playstation", "ps5", "ps4");
    MentionsTwo(text, "xbox", "game pass");
    MentionsFour(text, "pc", "steam", "nvidia", "amd");
    MentionsThree(text, "indie", "hollow knight", "celeste");
    MentionsFour(text, "fps", "shooter", "call of duty", "valorant");
  }

  /** A five-rule table is an if-cascade over its rules' tests. */
  lemma ClassifyFive(rules: seq<Rule>, text: string, default: Category)
    requires |rules| == 5
    ensures Classify(rules, text, default) ==
              if Mentions(text, rules[0].keywords) then rules[0].category
              else if Mentions(text, rules[1].keywords) then rules[1].category
              else if Mentions(text, rules[2].keywords) then rules[2].category
              else if Mentions(text, rules[3].keywords) then rules[3].category
              else if Mentions(text, rules[4].keywords) then rules[4].category
              else default
  {
    var r1 := rules[1..];
    var r2 := r1[1..];
    var r3 := r2[1..];
    var r4 := r3[1..];
    var r5 := r4[1..];
    assert r1[0] == rules[1] && r2[0] == rules[2] && r3[0] == rules[3] && r4[0] == rules[4];
    assert |r5| == 0;
  }

  /** The hard-wired cascade and the rule table agree on every input. */
  lemma InferCategoryFollowsRules(title: string, content: string)
    ensures InferCategory(title, content) == Classify(Rules, CategoryText(title, content), DefaultCategory)
  {
    var text := CategoryText(title, content);
    CascadeTests(text);
    ClassifyFive(Rules, text, DefaultCategory);
  }

  /** Priority: when a keyword of rule `i` is present, the category is that of
      rule `i` or of an earlier rule; "RPG" comes out exactly when no keyword of
      any rule is present. */
  lemma InferCategoryPriority(title: string, content: string)
    ensures forall i :: 0 <= i < |Rules| && Mentions(CategoryText(title, content), Rules[i].keywords) ==>
              exists j :: 0 <= j <= i && InferCategory(title, content) == Rules[j].category
    ensures InferCategory(title, content) == RPG <==>
              forall i :: 0 <= i < |Rules| ==> !Mentions(CategoryText(title, content), Rules[i].keywords)
  {
    var text := CategoryText(title, content);
    InferCategoryFollowsRules(title, content);
    RulesAvoidDefault();
    ClassifyEarlier(Rules, text, DefaultCategory);
    ClassifyDefault(Rules, text, DefaultCategory);
  }

  /** No rule of the table names the default category. */
  lemma RulesAvoidDefault()
    ensures forall j :: 0 <= j < |Rules| ==> Rules[j].category != DefaultCategory
  {
  }

  /** A matching rule `i` yields its own category or an earlier one. */
  lemma {:induction false} ClassifyEarlier(rules: seq<Rule>, text: string, default: Category)
    ensures forall i :: 0 <= i < |rules| && Mentions(text, rules[i].keywords) ==>
              exists j :: 0 <= j <= i && Classify(rules, text, default) == rules[j].category
  {
    if |rules| > 0 && !Mentions(text, rules[0].keywords) {
      var tail := rules[1..];
      ClassifyEarlier(tail, text, default);
      forall i | 0 <= i < |rules| && Mentions(text, rules[i].keywords)
        ensures exists j :: 0 <= j <= i && Classify(rules, text, default) == rules[j].category
      {
        assert tail[i - 1] == rules[i];
        var j :| 0 <= j <= i - 1 && Classify(tail, text, default) == tail[j].category;
        assert tail[j] == rules[j + 1];
      }
    }
  }

  /** For a table whose rules never name the default, the default comes out
      exactly when no rule matches. */
  lemma {:induction false} ClassifyDefault(rules: seq<Rule>, text: string, default: Category)
    requires forall j :: 0 <= j < |rules| ==> rules[j].category != default
    ensures Classify(rules, text, default) == default <==>
              forall i :: 0 <= i < |rules| ==> !Mentions(text, rules[i].keywords)
  {
    if |rules| > 0 && !Mentions(text, rules[0].keywords) {
      var tail := rules[1..];
      assert forall j :: 0 <= j < |tail| ==> tail[j] == rules[j + 1];
      ClassifyDefault(tail, text, default);
    }
  }

  /** Matching ignores ASCII case in both title and content. */
  lemma InferCategoryIgnoresCase(title: string, content: string)
    ensures InferCategory(Lower(title), Lower(content)) == InferCategory(title, content)
  {
    var a := Lower(title) + " " + Lower(content);
    var b := title + " " + content;
    assert |a| == |b|;
    forall i | 0 <= i < |a|
      ensures LowerChar(a[i]) == LowerChar(b[i])
    {
      if i < |title| {
        assert a[i] == LowerChar(title[i]) && b[i] == title[i];
      } else if i > |title| {
        assert a[i] == LowerChar(content[i - |title| - 1]) && b[i] == content[i - |title| - 1];
      }
    }
    assert Lower(a) == Lower(b);
  }

  /** An earlier rule beats a later one. */
  lemma EarlierRuleWins(title: string)
    requires title == "PS5 and Xbox"
    ensures InferCategory(title, "") == PlayStation
  {
    assert OccursAt(CategoryText(title, ""), "ps5", 0);
  }

  /** A keyword can straddle the join of title and content. */
  lemma KeywordAcrossJoin(title: string, content: string)
    requires title == "Game" && content == "Pass"
    ensures InferCategory(title, content) == Xbox
  {
    var t := CategoryText(title, content);
    GamePassText(title, content);
    assert OccursAt(t, "game pass", 0);
    assert 'y' !in t && '5' !in t && '4' !in t;
    LacksPlayStation(t, 'y', '5', '4');
  }

  lemma GamePassText(title: string, content: string)
    requires title == "Game" && content == "Pass"
    ensures CategoryText(title, content) == "game pass"
  {
    assert title + " " + content == "Game Pass";
  }

  /** "pc" is found inside "upcoming". */
  lemma UpcomingReadsAsPC(title: string)
    requires title == "Upcoming"
    ensures InferCategory(title, "") == PCGaming
  {
    var u := CategoryText(title, "");
    UpcomingText(title);
    assert OccursAt(u, "pc", 1);
    assert 's' !in u && 'x' !in u && 'a' !in u;
    LacksPlayStation(u, 's', 's', 's');
    LacksXbox(u, 'x', 'a');
  }

  lemma UpcomingText(title: string)
    requires title == "Upcoming"
    ensures CategoryText(title, "") == "upcoming "
  {
    assert title + " " + "" == "Upcoming ";
  }

  /** No PlayStation keyword occurs in a text lacking one character of each. */
  lemma LacksPlayStation(t: string, a: char, b: char, c: char)
    requires a in "playstation" && b in "ps5" && c in "ps4"
    requires a !in t && b !in t && c !in t
    ensures !Includes(t, "playstation") && !Includes(t, "ps5") && !Includes(t, "ps4")
  {
    AbsentCharacter(t, "playstation", a);
    AbsentCharacter(t, "ps5", b);
    AbsentCharacter(t, "ps4", c);
  }

  /** No Xbox keyword occurs in a text lacking one character of each. */
  lemma LacksXbox(t: string, a: char, b: char)
    requires a in "xbox" && b in "game pass"
    requires a !in t && b !in t
    ensures !Includes(t, "xbox") && !Includes(t, "game pass")
  {
    AbsentCharacter(t, "xbox", a);
    AbsentCharacter(t, "game pass", b);
  }
}
