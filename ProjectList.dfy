/** The projects section: a list shown truncated to its first three entries or in full,
    and a button that expands it after a simulated loading delay or collapses it at once. */
module ProjectList {
  import opened Js

  /** A project card; the description, image and repository links are display-only
      and not part of this model. */
  datatype Project = Project(title: string, tech: seq<string>)

  /** The project collection, in display order. */
  const Catalogue: seq<Project> := [
    Project("Event - Hub", ["Next.js", "Express.js", "MongoDB", "Tailwind CSS"]),
    Project("Event - Sphere", ["React.js", "Node.js", "Express.js", "MongoDB"]),
    Project("Green Nest", ["React.js", "Tailwind CSS", "Vanila CSS", "swiperJs"]),
    Project("Hero Apps", ["React.js", "Tailwind CSS", "Vanila CSS", "swiperJs"])
  ]

  /** How many entries the collapsed list shows. */
  const CollapsedCount: nat := 3

  /** `showAll ? projects : projects.slice(0, 3)`. */
  function Displayed<T>(projects: seq<T>, showAll: bool): (r: seq<T>)
    ensures showAll ==> r == projects
    ensures !showAll ==> |r| == Min(CollapsedCount, |projects|)
    ensures !showAll ==> forall i :: 0 <= i < |r| ==> r[i] == projects[i]
  {
    if showAll then projects else Slice(projects, 0, CollapsedCount)
  }

  const LoadingLabel: string := "Loading More..."
  const ShowLessLabel: string := "Show Less"
  const ViewAllLabel: string := "View All Projects"

  /** The button's text: the loading text whenever loading, whatever `showAll` says. */
  function ButtonLabel(loading: bool, showAll: bool): (r: string)
    ensures r == LoadingLabel <==> loading
    ensures r == ShowLessLabel <==> !loading && showAll
    ensures r == ViewAllLabel <==> !loading && !showAll
  {
    assert LoadingLabel[0] != ShowLessLabel[0] && LoadingLabel[0] != ViewAllLabel[0];
    assert ShowLessLabel[0] != ViewAllLabel[0];
    if loading then LoadingLabel else if showAll then ShowLessLabel else ViewAllLabel
  }

  /** In every reachable state (never loading while expanded) the label names the
      state exactly: each of the three texts appears in exactly one state. */
  lemma LabelNamesState(loading: bool, showAll: bool)
    requires !(showAll && loading)
    ensures ButtonLabel(loading, showAll) == LoadingLabel <==> loading
    ensures ButtonLabel(loading, showAll) == ShowLessLabel <==> showAll
    ensures ButtonLabel(loading, showAll) == ViewAllLabel <==> !loading && !showAll
  {
  }

  /** The component's state; `pendingTimers` counts the scheduled expand callbacks. */
  class Projects {
    var showAll: bool
    var loading: bool
    var pendingTimers: nat

    /** Reachable states: a timer is pending exactly while loading, and the list is
        never expanded while loading. */
    ghost predicate Valid()
      reads this
    {
      && pendingTimers == (if loading then 1 else 0)
      && !(showAll && loading)
    }

    constructor ()
      ensures Valid()
      ensures !showAll && !loading && pendingTimers == 0
    {
      showAll := false;
      loading := false;
      pendingTimers := 0;
    }

    function Visible(): (r: seq<Project>)
      reads this
      ensures |r| == if showAll then |Catalogue| else CollapsedCount
    {
      Displayed(Catalogue, showAll)
    }

    function Label(): string
      reads this
    {
      ButtonLabel(loading, showAll)
    }

    /** `handleViewAll`: collapse at once, or start loading and schedule the expansion. */
    method HandleViewAll()
      modifies this
      ensures old(showAll) ==> !showAll && loading == old(loading) && pendingTimers == old(pendingTimers)
      ensures !old(showAll) ==> !showAll && loading && pendingTimers == old(pendingTimers) + 1
    {
      if showAll {
        showAll := false;
      } else {
        loading := true;
        pendingTimers := pendingTimers + 1;
      }
    }

    /** A click on the button, which is disabled while loading. */
    method Click()
      requires Valid()
      modifies this
      ensures Valid()
      ensures old(loading) ==> showAll == old(showAll) && loading && pendingTimers == old(pendingTimers)
      ensures !old(loading) && old(showAll) ==> !showAll && !loading && pendingTimers == 0
      ensures !old(loading) && !old(showAll) ==> !showAll && loading && pendingTimers == 1
    {
      if !loading {
        HandleViewAll();
      }
    }

    /** The expansion timer fires after the loading delay. */
    method TimerFires()
      requires pendingTimers > 0
      modifies this
      ensures !loading && showAll && pendingTimers == old(pendingTimers) - 1
      ensures old(Valid()) ==> Valid()
    {
      loading := false;
      showAll := true;
      pendingTimers := pendingTimers - 1;
    }
  }

  /** The first render shows three entries; "view all" shows a loading label, ignores a
      second click, and after the delay shows every entry; the next click collapses to
      three again with no delay. The results are the entry count and label after the
      first render and after each of the four events. */
  method ExpandCollapseScenario() returns (counts: seq<nat>, labels: seq<string>)
    ensures counts == [3, 3, 3, 4, 3]
    ensures labels == [ViewAllLabel, LoadingLabel, LoadingLabel, ShowLessLabel, ViewAllLabel]
  {
    var p := new Projects();
    counts, labels := [|p.Visible()|], [p.Label()];
    p.Click();
    counts, labels := counts + [|p.Visible()|], labels + [p.Label()];
    p.Click();
    counts, labels := counts + [|p.Visible()|], labels + [p.Label()];
    p.TimerFires();
    assert p.Visible() == Catalogue;
    counts, labels := counts + [|p.Visible()|], labels + [p.Label()];
    p.Click();
    counts, labels := counts + [|p.Visible()|], labels + [p.Label()];
  }
}
