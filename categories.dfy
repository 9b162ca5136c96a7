/** The skill record of the site configuration. */
module SiteTypes {
  import opened Wrappers

  /** The six categories a skill may declare. */
  datatype Category = Backend | Cloud | Frontend | AiMl | Tools | Languages

  /** The string each category is written as in the configuration. */
  function CategoryName(c: Category): string {
    match c
    case Backend => "backend"
    case Cloud => "cloud"
    case Frontend => "frontend"
    case AiMl => "ai-ml"
    case Tools => "tools"
    case Languages => "languages"
  }

  /** Distinct categories have distinct names. */
  lemma CategoryNameInjective(a: Category, b: Category)
    ensures CategoryName(a) == CategoryName(b) ==> a == b
  {
  }

  /**
   * A skill as the skills section reads it. `yearsOfExperience` is read by
   * the section although the declared record type does not list it, so it
   * may be missing.
   */
  datatype Skill = Skill(name: string, category: Category, yearsOfExperience: Option<int>)
}

/** The colour and label lookups of the skill categories: constant tables with a default. */
module SkillCategories {
  import opened SiteTypes

  const DefaultColor := "bg-gray-500"

  const Colors: map<string, string> := map[
    "backend" := "bg-blue-500",
    "cloud" := "bg-green-500",
    "frontend" := "bg-purple-500",
    "ai-ml" := "bg-orange-500",
    "tools" := "bg-gray-500"
  ]

  const Labels: map<string, string> := map[
    "backend" := "Backend Development",
    "cloud" := "Cloud & DevOps",
    "frontend" := "Frontend Development",
    "ai-ml" := "AI/ML Systems",
    "tools" := "Tools & Methodology"
  ]

  /** `colors[category] || "bg-gray-500"`: the table entry if it is a non-empty string, else the default. */
  function CategoryColor(category: string): (color: string)
    ensures category in Colors ==> color == Colors[category]
    ensures category !in Colors ==> color == DefaultColor
    ensures color in Colors.Values
  {
    if category in Colors && Colors[category] != "" then Colors[category]
    else
      assert Colors["tools"] == DefaultColor;
      DefaultColor
  }

  /** `labels[category] || category`: the table entry if it is a non-empty string, else the category itself. */
  function CategoryLabel(category: string): (shown: string)
    ensures category in Labels ==> shown == Labels[category]
    ensures category !in Labels ==> shown == category
    ensures shown != "" || category == ""
  {
    if category in Labels && Labels[category] != "" then Labels[category] else category
  }

  /** The colour of every category the configuration can declare; "languages" falls back to grey. */
  lemma ColorOfEachCategory(c: Category)
    ensures CategoryColor(CategoryName(c)) == match c
      case Backend => "bg-blue-500"
      case Cloud => "bg-green-500"
      case Frontend => "bg-purple-500"
      case AiMl => "bg-orange-500"
      case Tools => "bg-gray-500"
      case Languages => DefaultColor
  {
  }

  /** The label of every category the configuration can declare; "languages" is shown as its raw name. */
  lemma LabelOfEachCategory(c: Category)
    ensures CategoryLabel(CategoryName(c)) == match c
      case Backend => "Backend Development"
      case Cloud => "Cloud & DevOps"
      case Frontend => "Frontend Development"
      case AiMl => "AI/ML Systems"
      case Tools => "Tools & Methodology"
      case Languages => "languages"
  {
  }
}
