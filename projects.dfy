/** The projects page: the category filter and the status badge. */
module ProjectsPage {
  import opened Common

  /** The fields of a project the page logic reads. */
  datatype Project = Project(id: string, category: string, status: string)

  /** The label of a status in the active language. */
  datatype StatusLabels = StatusLabels(ongoing: string, completed: string, planned: string)

  /** The filter that shows every project. */
  const AllFilter := "All"
  /** The filter buttons, in order. */
  const Categories := ["All", "Infrastructure", "Culture", "Civic-Tech", "Sports", "Ecology"]

  /** `filteredProjects`: every project for `All`, otherwise those of the chosen category. */
  function FilteredProjects(projects: seq<Project>, filter: string): (r: seq<Project>)
    ensures filter == AllFilter ==> r == projects
    ensures filter != AllFilter ==> forall k :: 0 <= k < |r| ==> r[k].category == filter
    ensures |r| <= |projects|
  {
    if filter == AllFilter then projects else Filter((p: Project) => p.category == filter, projects)
  }

  /** Under a category filter a project is shown exactly when it has that
      category, and the shown projects keep their order. */
  lemma FilterSelectsCategory(projects: seq<Project>, filter: string, p: Project)
    requires filter != AllFilter
    ensures p in FilteredProjects(projects, filter) <==> p in projects && p.category == filter
    ensures IsSubsequence(FilteredProjects(projects, filter), projects)
  {
    FilterMembership((q: Project) => q.category == filter, projects, p);
    FilterIsSubsequence((q: Project) => q.category == filter, projects);
  }

  /** A project whose category has no button (`Education`, `Veterans`) is shown
      only under `All`. */
  lemma UnlistedCategoryOnlyUnderAll(projects: seq<Project>, p: Project, k: int)
    requires p.category !in Categories && 0 <= k < |Categories|
    requires p in FilteredProjects(projects, Categories[k])
    ensures Categories[k] == AllFilter
  {
    if Categories[k] != AllFilter {
      FilterSelectsCategory(projects, Categories[k], p);
    }
  }

  const OngoingColor := "bg-emerald-100 text-emerald-800 border-emerald-200"
  const CompletedColor := "bg-blue-100 text-blue-800 border-blue-200"
  const PlannedColor := "bg-amber-100 text-amber-800 border-amber-200"
  const DefaultColor := "bg-stone-100 text-stone-800 border-stone-200"

  /** `getStatusColor(status)`: the badge classes of a status. */
  function StatusColor(status: string): (r: string)
    ensures r == DefaultColor <==> status != "ongoing" && status != "completed" && status != "planned"
  {
    if status == "ongoing" then OngoingColor
    else if status == "completed" then CompletedColor
    else if status == "planned" then PlannedColor
    else DefaultColor
  }

  /** Different known statuses get different badges. */
  lemma StatusColorsDistinct(a: string, b: string)
    requires a in ["ongoing", "completed", "planned"] && b in ["ongoing", "completed", "planned"]
    ensures StatusColor(a) == StatusColor(b) <==> a == b
  {
    assert |OngoingColor| == 50 && |CompletedColor| == 41 && |PlannedColor| == 44;
  }

  /** `getLocalizedStatus(status)`: the translated label of a known status, or
      the raw status when it is unknown or its label is empty. */
  function LocalizedStatus(labels: StatusLabels, status: string): (r: string)
    ensures status != "ongoing" && status != "completed" && status != "planned" ==> r == status
    ensures status == "ongoing" ==> r == (if labels.ongoing != "" then labels.ongoing else status)
    ensures status == "completed" ==> r == (if labels.completed != "" then labels.completed else status)
    ensures status == "planned" ==> r == (if labels.planned != "" then labels.planned else status)
  {
    var translated := if status == "ongoing" then labels.ongoing
                 else if status == "completed" then labels.completed
                 else if status == "planned" then labels.planned
                 else "";
    if translated != "" then translated else status
  }

  /** The page's only state: the chosen filter. */
  class ProjectsView {
    var filter: string

    /** The page opens on `All`. */
    constructor()
      ensures filter == AllFilter
    {
      filter := AllFilter;
    }

    /** A filter button sets the filter. */
    method SetFilter(category: string)
      modifies this
      ensures filter == category
    {
      filter := category;
    }
  }
}
