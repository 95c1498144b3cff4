/**
 * The portfolio page: a fixed catalog of nine projects, the category
 * buttons above it, and the list shown for the selected button.
 */
module Portfolio {
  import opened ProjectType
  import opened Lists

  // `caption` is the button's `label` (a reserved word in Dafny).
  datatype CategoryButton = CategoryButton(id: string, caption: string)

  const AllCategories: string := "all"

  const Catalog: seq<Project> := [
    Project(1, "Global Brand Campaign", "branding",
      "Complete brand identity and multi-channel campaign for international tech startup",
      "https://images.pexels.com/photos/196644/pexels-photo-196644.jpeg?auto=compress&cs=tinysrgb&w=600",
      ["Brand Strategy", "Visual Identity", "Campaign Management"], "#", "#"),
    Project(2, "Social Media Strategy", "social",
      "Comprehensive social media campaign that increased engagement by 300%",
      "https://images.pexels.com/photos/607812/pexels-photo-607812.jpeg?auto=compress&cs=tinysrgb&w=600",
      ["Social Media", "Content Creation", "Analytics"], "#", "#"),
    Project(3, "Product Launch Campaign", "campaigns",
      "Integrated marketing campaign for major product launch with 500% ROI",
      "https://images.pexels.com/photos/196644/pexels-photo-196644.jpeg?auto=compress&cs=tinysrgb&w=600",
      ["Product Launch", "PR", "Digital Advertising"], "#", "#"),
    Project(4, "Google Ads Optimization", "digital",
      "PPC campaign optimization that reduced cost-per-click by 40% while doubling conversions",
      "https://images.pexels.com/photos/230544/pexels-photo-230544.jpeg?auto=compress&cs=tinysrgb&w=600",
      ["Google Ads", "PPC", "Conversion Optimization"], "#", "#"),
    Project(5, "Influencer Marketing", "social",
      "Strategic influencer partnerships that generated 2M+ impressions and 15% sales increase",
      "https://images.pexels.com/photos/265087/pexels-photo-265087.jpeg?auto=compress&cs=tinysrgb&w=600",
      ["Influencer Marketing", "Partnership Management", "ROI Tracking"], "#", "#"),
    Project(6, "Email Marketing Automation", "digital",
      "Automated email sequences that increased customer retention by 45%",
      "https://images.pexels.com/photos/270408/pexels-photo-270408.jpeg?auto=compress&cs=tinysrgb&w=600",
      ["Email Marketing", "Automation", "Customer Retention"], "#", "#"),
    Project(7, "Video Marketing Campaign", "content",
      "Viral video series that reached 5M+ views and increased brand awareness by 200%",
      "https://images.pexels.com/photos/3153198/pexels-photo-3153198.jpeg?auto=compress&cs=tinysrgb&w=600",
      ["Video Production", "Viral Marketing", "Brand Awareness"], "#", "#"),
    Project(8, "SEO & Content Strategy", "digital",
      "Comprehensive SEO strategy that improved organic traffic by 250% in 6 months",
      "https://images.pexels.com/photos/270637/pexels-photo-270637.jpeg?auto=compress&cs=tinysrgb&w=600",
      ["SEO", "Content Strategy", "Organic Growth"], "#", "#"),
    Project(9, "Event Marketing", "campaigns",
      "Large-scale event promotion that sold out 5,000 tickets in 48 hours",
      "https://images.pexels.com/photos/1190298/pexels-photo-1190298.jpeg?auto=compress&cs=tinysrgb&w=600",
      ["Event Marketing", "Ticket Sales", "Promotion Strategy"], "#", "#")
  ]

  const Categories: seq<CategoryButton> := [
    CategoryButton("all", "All"),
    CategoryButton("branding", "Branding & Identity"),
    CategoryButton("digital", "Digital Marketing"),
    CategoryButton("social", "Social Media"),
    CategoryButton("campaigns", "Campaign Management"),
    CategoryButton("content", "Content Marketing")
  ]

  /** The projects shown for a selection: all of them for `'all'`, else those in that category. */
  function Select(selected: string, projects: seq<Project>): seq<Project> {
    if selected == AllCategories then projects
    else Filter(projects, (p: Project) => p.category == selected)
  }

  /** `filteredProjects` for the selected button. */
  function FilteredProjects(selected: string): seq<Project> {
    Select(selected, Catalog)
  }

  /** `'all'` shows the whole list, in its order. */
  lemma SelectAll(projects: seq<Project>)
    ensures Select(AllCategories, projects) == projects
  {
  }

  /**
   * Any other selection shows exactly the projects of that category: each
   * shown project has the category, and each project with the category is shown.
   */
  lemma SelectMembership(selected: string, projects: seq<Project>)
    requires selected != AllCategories
    ensures forall k :: 0 <= k < |Select(selected, projects)| ==>
              Select(selected, projects)[k].category == selected && Select(selected, projects)[k] in projects
    ensures forall k :: 0 <= k < |projects| && projects[k].category == selected ==>
              projects[k] in Select(selected, projects)
  {
  }

  /** Selection keeps relative order: the selection of a concatenation is the concatenation of the selections. */
  lemma {:induction false} SelectKeepsOrder(selected: string, a: seq<Project>, b: seq<Project>)
    ensures Select(selected, a + b) == Select(selected, a) + Select(selected, b)
  {
    if selected != AllCategories {
      FilterAppend(a, b, (p: Project) => p.category == selected);
    }
  }

  /** A category no project has shows nothing. */
  lemma {:induction false} SelectNoMatch(selected: string, projects: seq<Project>)
    requires selected != AllCategories
    requires forall k :: 0 <= k < |projects| ==> projects[k].category != selected
    ensures Select(selected, projects) == []
  {
    FilterKeepsNone(projects, (p: Project) => p.category == selected);
  }

  /** A list that is all of one category shows in full under that category. */
  lemma {:induction false} SelectAllMatch(selected: string, projects: seq<Project>)
    requires forall k :: 0 <= k < |projects| ==> projects[k].category == selected
    ensures Select(selected, projects) == projects
  {
    if selected != AllCategories {
      FilterKeepsAll(projects, (p: Project) => p.category == selected);
    }
  }

  /** The catalog's ids are 1 through 9, in order, hence distinct. */
  lemma CatalogIds()
    ensures |Catalog| == 9
    ensures forall k :: 0 <= k < |Catalog| ==> Catalog[k].id == k + 1
    ensures forall j, k :: 0 <= j < k < |Catalog| ==> Catalog[j].id != Catalog[k].id
  {
  }

  /** Is `id` the id of a category button other than `'all'`? */
  predicate IsCategoryButton(id: string) {
    exists k :: 1 <= k < |Categories| && Categories[k].id == id
  }

  /** Every catalog project's category has a button, so every project appears under some filter. */
  lemma CatalogCategoriesHaveButtons()
    ensures forall k :: 0 <= k < |Catalog| ==> IsCategoryButton(Catalog[k].category)
  {
    forall k | 0 <= k < |Catalog|
      ensures IsCategoryButton(Catalog[k].category)
    {
      var c := Catalog[k].category;
      var b := if c == "branding" then 1 else if c == "digital" then 2
               else if c == "social" then 3 else if c == "campaigns" then 4 else 5;
      assert Categories[b].id == c;
    }
  }

  /** Every button other than `'all'` shows at least one project. */
  lemma EveryButtonShowsProjects()
    ensures forall c :: 1 <= c < |Categories| ==> FilteredProjects(Categories[c].id) != []
  {
    forall c | 1 <= c < |Categories|
      ensures FilteredProjects(Categories[c].id) != []
    {
      var id := Categories[c].id;
      var k := if c == 1 then 0 else if c == 2 then 3 else if c == 3 then 1 else if c == 4 then 2 else 6;
      assert Catalog[k].category == id;
      SelectMembership(id, Catalog);
    }
  }
}
