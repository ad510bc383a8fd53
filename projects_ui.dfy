/**
 * The stateful shell of the projects section: `state.filter`, the rendered
 * grid of cards and the rendered strip of filter buttons, re-rendered in
 * place by the click handlers.
 */
module ProjectsUi {
  import opened Projects
  import opened Schema

  /** The two parts of the section that get re-rendered. */
  datatype Region = ProjectGrid | FilterBox

  class ProjectsModule {
    const projects: seq<Project>
    /** The JSON-LD block appended to the document head at start-up. */
    const schema: Json
    /** `state.filter`. */
    var filter: string
    /** The cards in the project grid, in display order. */
    var grid: seq<Card>
    /** The buttons in the filter strip, in display order. */
    var buttons: seq<Button>
    /** The re-renders performed so far, oldest first. */
    var renders: seq<Region>

    /** The filter is "All" or a tag some project carries, and both regions
        show what the filter selects. */
    ghost predicate Valid()
      reads this
    {
      && (filter == AllFilter || HasTag(projects, filter))
      && grid == Cards(Visible(projects, filter))
      && buttons == FilterButtons(projects, filter)
    }

    /** Start-up: inject the schema, then render the buttons, then the list,
        with the filter at "All", which lists every project. */
    constructor (projects: seq<Project>)
      ensures this.projects == projects && schema == ItemList(projects)
      ensures filter == AllFilter && Valid()
      ensures grid == Cards(projects)
      ensures renders == [FilterBox, ProjectGrid]
    {
      this.projects := projects;
      schema := ItemList(projects);
      filter := AllFilter;
      renders := [];
      new;
      RenderFilterButtons();
      RenderProjectsList();
      VisibleAll(projects);
    }

    /** `renderFilterButtons`. */
    method RenderFilterButtons()
      modifies this`buttons, this`renders
      ensures buttons == FilterButtons(projects, filter)
      ensures renders == old(renders) + [FilterBox]
    {
      buttons := FilterButtons(projects, filter);
      renders := renders + [FilterBox];
    }

    /** `renderProjectsList`: clear the grid, then append one card per listed
        project, numbered in list order. */
    method RenderProjectsList()
      modifies this`grid, this`renders
      ensures grid == Cards(Visible(projects, filter))
      ensures renders == old(renders) + [ProjectGrid]
    {
      grid := [];
      var list := Visible(projects, filter);
      var i := 0;
      while i < |list|
        invariant 0 <= i <= |list|
        invariant |grid| == i && renders == old(renders)
        invariant forall k :: 0 <= k < i ==> grid[k] == ProjectCard(list[k], k)
      {
        grid := grid + [ProjectCard(list[i], i)];
        i := i + 1;
      }
      renders := renders + [ProjectGrid];
    }

    /** A click on button `i` of the strip: set the filter to its tag, then
        re-render the list, then the buttons. */
    method Click(i: nat)
      requires Valid() && i < |buttons|
      modifies this`filter, this`grid, this`buttons, this`renders
      ensures filter == old(buttons[i].tag)
      ensures Valid()
      ensures renders == old(renders) + [ProjectGrid, FilterBox]
    {
      var tag := buttons[i].tag;
      assert tag == AllFilter || HasTag(projects, tag) by {
        ButtonTagIsFilter(projects, filter, i);
      }
      filter := tag;
      RenderProjectsList();
      RenderFilterButtons();
      assert filter == tag;
    }
  }
}
