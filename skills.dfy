/**
 * The skills section: the grouping of the configured skills by category
 * (an object filled in list order, whose keys give the order of the
 * category panels), the per-category counts of the summary, and the
 * "year"/"years" label.
 */
module Skills {
  import opened Wrappers
  import opened SiteTypes

  // ---------------------------------------------------------------------
  // Specification of the grouping
  // ---------------------------------------------------------------------

  /** The skills of category `c`, in list order. */
  function OfCategory(skills: seq<Skill>, c: Category): seq<Skill> {
    if |skills| == 0 then []
    else
      var last := skills[|skills| - 1];
      OfCategory(skills[..|skills| - 1], c) + (if last.category == c then [last] else [])
  }

  /** The categories of `skills`, each once, in order of first appearance. */
  function Categories(skills: seq<Skill>): seq<Category> {
    if |skills| == 0 then []
    else
      var seen := Categories(skills[..|skills| - 1]);
      var c := skills[|skills| - 1].category;
      if c in seen then seen else seen + [c]
  }

  /** Index of the first skill of category `c`, or `|skills|` if there is none. */
  function FirstOfCategory(skills: seq<Skill>, c: Category): (k: nat)
    ensures k <= |skills|
    ensures forall j :: 0 <= j < k ==> skills[j].category != c
    ensures k < |skills| ==> skills[k].category == c
  {
    if |skills| == 0 then 0
    else if skills[0].category == c then 0
    else 1 + FirstOfCategory(skills[1..], c)
  }

  // ---------------------------------------------------------------------
  // The reduce
  // ---------------------------------------------------------------------

  /**
   * `skills.reduce(...)` followed by `Object.keys`: walks the list once,
   * creating an empty group the first time a category is met and appending
   * each skill to its category's group. `categories` is the key order of
   * the accumulator, which is insertion order since no category name is
   * an array index.
   */
  method GroupByCategory(skills: seq<Skill>) returns (groups: map<Category, seq<Skill>>, categories: seq<Category>)
    ensures categories == Categories(skills)
    ensures forall c :: c in groups <==> c in categories
    ensures forall c :: c in groups ==> groups[c] == OfCategory(skills, c)
  {
    groups := map[];
    categories := [];
    var i := 0;
    while i < |skills|
      invariant 0 <= i <= |skills|
      invariant categories == Categories(skills[..i])
      invariant forall c :: c in groups <==> c in categories
      invariant forall c :: c in groups ==> groups[c] == OfCategory(skills[..i], c)
    {
      var skill := skills[i];
      assert skills[..i + 1][..i] == skills[..i];
      if skill.category !in groups {
        NoGroupNoSkills(skills[..i], skill.category);
        groups := groups[skill.category := []];
        categories := categories + [skill.category];
      }
      groups := groups[skill.category := groups[skill.category] + [skill]];
      i := i + 1;
    }
    assert skills[..i] == skills;
  }

  // ---------------------------------------------------------------------
  // Properties of the grouping
  // ---------------------------------------------------------------------

  /** A category is listed exactly when some skill has it. */
  lemma {:induction false} CategoriesListed(skills: seq<Skill>, c: Category)
    ensures c in Categories(skills) <==> exists i :: 0 <= i < |skills| && skills[i].category == c
  {
    if |skills| > 0 {
      var init := skills[..|skills| - 1];
      CategoriesListed(init, c);
      if i :| 0 <= i < |init| && init[i].category == c {
        assert skills[i].category == c;
      }
      if i :| 0 <= i < |skills| && skills[i].category == c {
        if i < |init| {
          assert init[i].category == c;
        }
      }
    }
  }

  /** A category no skill has gets no group members. */
  lemma {:induction false} NoGroupNoSkills(skills: seq<Skill>, c: Category)
    requires c !in Categories(skills)
    ensures OfCategory(skills, c) == []
  {
    if |skills| > 0 {
      NoGroupNoSkills(skills[..|skills| - 1], c);
    }
  }

  /** Each category is listed once. */
  lemma {:induction false} CategoriesDistinct(skills: seq<Skill>)
    ensures forall i, j :: 0 <= i < j < |Categories(skills)| ==> Categories(skills)[i] != Categories(skills)[j]
  {
    if |skills| > 0 {
      CategoriesDistinct(skills[..|skills| - 1]);
    }
  }

  /** Categories are listed in the order their first skills appear. */
  lemma {:induction false} CategoriesInFirstAppearanceOrder(skills: seq<Skill>, i: nat, j: nat)
    requires i < j < |Categories(skills)|
    ensures FirstOfCategory(skills, Categories(skills)[i]) < FirstOfCategory(skills, Categories(skills)[j])
  {
    var n := |skills| - 1;
    var init := skills[..n];
    var seen := Categories(init);
    var ci, cj := Categories(skills)[i], Categories(skills)[j];
    CategoriesListed(init, ci);
    FirstInPrefix(skills, n, ci);
    if j < |seen| {
      CategoriesInFirstAppearanceOrder(init, i, j);
      CategoriesListed(init, cj);
      FirstInPrefix(skills, n, cj);
    } else {
      // `cj` is the category of the last skill, met for the first time there
      assert cj == skills[n].category && cj !in seen;
      CategoriesListed(init, cj);
      assert forall p :: 0 <= p < n ==> skills[p] == init[p];
    }
  }

  /** A category that occurs in the first `n` skills is first met at the same index in them. */
  lemma FirstInPrefix(skills: seq<Skill>, n: nat, c: Category)
    requires n <= |skills|
    requires FirstOfCategory(skills[..n], c) < n
    ensures FirstOfCategory(skills, c) == FirstOfCategory(skills[..n], c)
  {
    var k := FirstOfCategory(skills[..n], c);
    assert skills[k] == skills[..n][k];
    assert forall j :: 0 <= j < k ==> skills[j] == skills[..n][j];
  }

  /** Every group listed is non-empty. */
  lemma {:induction false} NoEmptyGroup(skills: seq<Skill>, c: Category)
    requires c in Categories(skills)
    ensures |OfCategory(skills, c)| > 0
  {
    var init := skills[..|skills| - 1];
    if c in Categories(init) {
      NoEmptyGroup(init, c);
    }
  }

  /** A skill belongs to the group of its own category and to no other. */
  lemma {:induction false} GroupMembers(skills: seq<Skill>, c: Category, x: Skill)
    ensures x in OfCategory(skills, c) <==> x in skills && x.category == c
  {
    if |skills| > 0 {
      var init := skills[..|skills| - 1];
      GroupMembers(init, c, x);
      assert skills == init + [skills[|skills| - 1]];
    }
  }

  /** Grouping acts on each part of a list separately: a group keeps the list order of its skills. */
  lemma {:induction false} OfCategoryAppend(a: seq<Skill>, b: seq<Skill>, c: Category)
    ensures OfCategory(a + b, c) == OfCategory(a, c) + OfCategory(b, c)
  {
    if |b| == 0 {
      assert a + b == a;
    } else {
      var n := |b| - 1;
      assert (a + b)[..|a + b| - 1] == a + b[..n];
      OfCategoryAppend(a, b[..n], c);
    }
  }

  /** Two skills of one category appear in its group in their list order. */
  lemma GroupKeepsOrder(skills: seq<Skill>, i: nat, j: nat)
    requires i < j < |skills| && skills[i].category == skills[j].category
    ensures var group := OfCategory(skills, skills[i].category);
      exists p, q :: 0 <= p < q < |group| && group[p] == skills[i] && group[q] == skills[j]
  {
    var c := skills[i].category;
    var before, middle, after := skills[..i], skills[i + 1..j], skills[j + 1..];
    assert skills == before + [skills[i]] + middle + [skills[j]] + after;
    OfCategoryAppend(before + [skills[i]] + middle + [skills[j]], after, c);
    OfCategoryAppend(before + [skills[i]] + middle, [skills[j]], c);
    OfCategoryAppend(before + [skills[i]], middle, c);
    OfCategoryAppend(before, [skills[i]], c);
    assert OfCategory([skills[i]], c) == [skills[i]];
    assert OfCategory([skills[j]], c) == [skills[j]];
    var group := OfCategory(skills, c);
    var p := |OfCategory(before, c)|;
    var q := p + 1 + |OfCategory(middle, c)|;
    assert group[p] == skills[i];
    assert group[q] == skills[j];
  }

  /** The sum of the sizes of the groups of `cs`. */
  function GroupSizes(skills: seq<Skill>, cs: seq<Category>): nat {
    if |cs| == 0 then 0 else |OfCategory(skills, cs[0])| + GroupSizes(skills, cs[1..])
  }

  /** Appending one skill grows the groups of `cs` by one if its category is listed (once) in `cs`. */
  lemma {:induction false} GroupSizesStep(skills: seq<Skill>, x: Skill, cs: seq<Category>)
    requires forall i, j :: 0 <= i < j < |cs| ==> cs[i] != cs[j]
    ensures GroupSizes(skills + [x], cs) == GroupSizes(skills, cs) + (if x.category in cs then 1 else 0)
  {
    if |cs| > 0 {
      assert (skills + [x])[..|skills + [x]| - 1] == skills;
      GroupSizesStep(skills, x, cs[1..]);
      assert x.category in cs <==> x.category == cs[0] || x.category in cs[1..];
    }
  }

  lemma {:induction false} GroupSizesAppend(skills: seq<Skill>, cs: seq<Category>, c: Category)
    ensures GroupSizes(skills, cs + [c]) == GroupSizes(skills, cs) + |OfCategory(skills, c)|
  {
    if |cs| > 0 {
      assert (cs + [c])[1..] == cs[1..] + [c];
      GroupSizesAppend(skills, cs[1..], c);
    }
  }

  /** The groups partition the list: their sizes add up to the number of skills. */
  lemma {:induction false} GroupSizesSum(skills: seq<Skill>)
    ensures GroupSizes(skills, Categories(skills)) == |skills|
  {
    if |skills| > 0 {
      var init := skills[..|skills| - 1];
      var x := skills[|skills| - 1];
      var seen := Categories(init);
      assert skills == init + [x];
      GroupSizesSum(init);
      CategoriesDistinct(init);
      GroupSizesStep(init, x, seen);
      if x.category !in seen {
        GroupSizesAppend(skills, seen, x.category);
        NoGroupNoSkills(init, x.category);
      }
    }
  }

  // ---------------------------------------------------------------------
  // The summary counts and the experience label
  // ---------------------------------------------------------------------

  /** `skills.filter((s) => s.category === name).length`. */
  function CountNamed(skills: seq<Skill>, name: string): nat {
    if |skills| == 0 then 0
    else (if CategoryName(skills[0].category) == name then 1 else 0) + CountNamed(skills[1..], name)
  }

  lemma {:induction false} CountNamedAppend(a: seq<Skill>, b: seq<Skill>, name: string)
    ensures CountNamed(a + b, name) == CountNamed(a, name) + CountNamed(b, name)
  {
    if |a| == 0 {
      assert a + b == b;
    } else {
      assert (a + b)[1..] == a[1..] + b;
      CountNamedAppend(a[1..], b, name);
    }
  }

  /** A category's count is the size of its group, and 0 when it has no group. */
  lemma {:induction false} CountIsGroupSize(skills: seq<Skill>, c: Category)
    ensures CountNamed(skills, CategoryName(c)) == |OfCategory(skills, c)|
    ensures c !in Categories(skills) ==> CountNamed(skills, CategoryName(c)) == 0
  {
    if |skills| > 0 {
      var init := skills[..|skills| - 1];
      var x := skills[|skills| - 1];
      assert skills == init + [x];
      CountIsGroupSize(init, c);
      CountNamedAppend(init, [x], CategoryName(c));
      CategoryNameInjective(x.category, c);
      if c !in Categories(skills) {
        NoGroupNoSkills(skills, c);
      }
    }
  }

  /** The four figures of the "Core Competencies" summary. */
  datatype Summary = Summary(backend: nat, cloud: nat, aiMl: nat, frontend: nat)

  function SummaryOf(skills: seq<Skill>): (s: Summary)
    ensures s.backend == |OfCategory(skills, Backend)|
    ensures s.cloud == |OfCategory(skills, Cloud)|
    ensures s.aiMl == |OfCategory(skills, AiMl)|
    ensures s.frontend == |OfCategory(skills, Frontend)|
  {
    CountIsGroupSize(skills, Backend);
    CountIsGroupSize(skills, Cloud);
    CountIsGroupSize(skills, AiMl);
    CountIsGroupSize(skills, Frontend);
    Summary(
      CountNamed(skills, "backend"),
      CountNamed(skills, "cloud"),
      CountNamed(skills, "ai-ml"),
      CountNamed(skills, "frontend"))
  }

  /** The unit after a skill's years of experience. */
  function YearsLabel(yearsOfExperience: Option<int>): (unit: string)
    ensures unit == "year" <==> yearsOfExperience == Some(1)
    ensures unit == "year" || unit == "years"
  {
    if yearsOfExperience == Some(1) then "year" else "years"
  }
}
